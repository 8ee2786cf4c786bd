# ByFin dashboard: transaction buttons and action handlers

A Dafny model of the logic the ByFin dashboard front-end owns:

- the transaction button (`TxButton`): its re-entry guard, loading flag, error capture and truncation;
- the action handlers of the staking, market and launchpad pages: the ordered `writeContractAsync`
  calls each issues, the guards in front of them, and which input fields they clear;
- the small pure helpers the pages render from: the staking-tier heading and highlighted row, the
  listing rows of the market, the launchpad offering toggle, `shortenAddress` and `timeRemaining`.

The contracts the pages call are an abstract gateway (`Contracts.Gateway`). It keeps a log of
every call issued, as `(contract, function, args)`, and a queue of answers the wallet gives, in
order: `Accepted` or `Rejected(thrown value)`. A call is logged whether or not it is accepted. If
the queue is empty, the submission promise never settles. The handler then stays `Suspended` and
the button keeps spinning, because no `finally` runs and the code sets no timeout.
Each `await writeContractAsync(...)` waits only for submission; the code never waits for a
receipt, and neither does the model.

`parseUnits` and `BigInt` are foreign conversions. They are parameters that either give an
integer or throw (`Js.Attempt`). The wallet address is `Option<string>`, and `!address` holds for a
missing or empty address. The current time for `timeRemaining` is a parameter `now`.

Modules: `Js` (JavaScript values), `Contracts` (calls, gateway, sequencing), `TxButton`,
`StakingPage`, `MarketPage`, `LaunchpadPage`, `Decimal` (`${n}` for naturals), `Format`,
`Flows` (a button click wrapping a page handler).

Details of the code that the model keeps:

- Each mounted `TxButton` keeps its own `loading` flag and error. The stake and unstake forms
  are the two branches of one conditional with the same element structure, so React keeps a
  single button for both. A stake that awaits the wallet therefore also disables the Unstake
  button (`Flows.StakeBlocksUnstake`), and a stake error stays shown after switching forms.
- The flag lives only while the button is mounted. Switching the market tab or closing a
  launchpad panel unmounts the button, and a remounted one starts idle
  (`Flows.RemountedBuyIssuesAgain`).
- The error paragraph is rendered when `error` is truthy, not merely non-null. An `Error` with an
  empty message is stored as `""`, and no error line is shown (`TxButton.ErrorLineAfterThrow`).
- The Invest button issues only the stablecoin approval. The offering id appears in no call
  (`LaunchpadPage.InvestIgnoresOffering`).
- In the sell handlers, `BigInt` converts the token id and amount only when the second call's
  arguments are built. So a malformed id fails after the vault approval has been issued
  (`MarketPage.LateConversionFailure`).

## Model

| member | source | states |
|---|---|---|
| Contracts.Write | app/staking/page.tsx:95-100 | an awaited write is logged exactly once whatever the answer, consumes one answer, and returns, throws the rejection, or never settles |
| Contracts.Issue | app/staking/page.tsx:77-88 | consecutive awaited writes are issued strictly in order, up to and including the first one rejected or unsettled; the sequence returns when every answer accepts, throws the first rejection, and never settles when the answers run out before one; each issued write consumes one answer |
| TxButton.ErrorText | components/ui/tx-button.tsx:30-32 | stored message: an Error's message cut to its first 80 characters, "Error" when it has none, "Transaction failed" for a non-Error |
| TxButton.Begin | components/ui/tx-button.tsx:26-27 | a click that proceeds sets loading and clears the error before the handler runs |
| TxButton.Settle | components/ui/tx-button.tsx:28-36 | loading ends unless the handler never settles; an error is stored exactly when the handler threw |
| TxButton.Press | components/ui/tx-button.tsx:24-37 | a click while loading or disabled changes nothing and does not invoke the handler; otherwise the handler runs once and its completion decides spinner and error |
| TxButton.ErrorLine | components/ui/tx-button.tsx:49 | the error paragraph is shown exactly when the stored error is present and non-empty |
| TxButton.TruncatedMessage | components/ui/tx-button.tsx:32 | a message of at most 80 characters is kept whole; a longer one keeps exactly its first 80 |
| TxButton.ErrorLineAfterThrow | components/ui/tx-button.tsx:30-49 | after a throw the spinner stops; the error line shows iff the stored text is non-empty, so an empty Error message shows none |
| TxButton.NoReentry | components/ui/tx-button.tsx:24-43 | while a handler awaits the wallet the button is rendered disabled and a second click reaches neither the handler nor the gateway |
| TxButton.RetryAfterSettling | components/ui/tx-button.tsx:34-36 | after a click that returned or threw, the button is enabled and a retry invokes the handler again |
| StakingPage.HandleStake | app/staking/page.tsx:74-90 | no call on empty amount or no address; conversion at 18 decimals fails before any call; approve(STAKING, amount) then stake(amount), the stake only after the approval returned; the click returns, throws the first rejection or never settles as those writes do, and leaves the answers they did not consume; only the stake field clears, and only when both returned |
| StakingPage.HandleUnstake | app/staking/page.tsx:92-102 | no call on empty amount or no address; conversion failure issues nothing; one unstake of the 18-decimal amount, which returns, throws the wallet's rejection or never settles, consuming one answer; only the unstake field clears, on success |
| StakingPage.HandleClaimRewards | app/staking/page.tsx:104-112 | needs only an address; exactly one claimRewards() with no arguments, which returns, throws the rejection or never settles, consuming one answer; no field changes |
| StakingPage.RejectedApprovalStopsStake | app/staking/page.tsx:77-89 | a rejected approval is the only call issued, its rejection is thrown and the amount is kept |
| StakingPage.AcceptedStake | app/staking/page.tsx:76-89 | with both answers accepted exactly approve and stake of the same amount are issued and only the stake field clears |
| StakingPage.CurrentTier | app/staking/page.tsx:114 | a missing tier reads as 0, a present one as its value |
| StakingPage.TierHeading | app/staking/page.tsx:230-253 | tier n <= 0 reads "No Tier", 1..4 the tier's name followed by " Tier", beyond 4 "Unknown Tier" |
| StakingPage.OneActiveRow | app/staking/page.tsx:262 | at most one tier row is highlighted |
| StakingPage.RowActive | app/staking/page.tsx:262 | the highlighted tier row names the tier the heading shows |
| StakingPage.HeadingsDiffer | app/staking/page.tsx:21-26 | the four tier headings differ from each other and from "No Tier" and "Unknown Tier" |
| StakingPage.HeadingMatchesActiveRow | app/staking/page.tsx:242-262 | the heading names row i's tier exactly when row i is the highlighted one |
| MarketPage.HandleBuyListing | app/market/page.tsx:45-53 | no call without an address; otherwise exactly one buyListing(listingId, USDC) on the market, which returns, throws the rejection or never settles, consuming one answer |
| MarketPage.ApproveThen | app/market/page.tsx:55-89 | no call on an empty field or no address; vault approval first, and when it throws or never settles the click ends so with nothing else issued; id then amount converted only after it returned, the first failure thrown; the second call only if both convert, the click then ending as the two writes settle; each branch leaves exactly the answers not consumed; fields clear only when the second call returned |
| MarketPage.HandleCreateListing | app/market/page.tsx:55-71 | the shared sell contract with createListing(tokenId, amount) as the second call: nothing without fields and address, approval first, conversions after it, createListing only after both, completion as the writes settle, both fields clear only on success |
| MarketPage.HandleInstantSell | app/market/page.tsx:73-89 | the shared sell contract with sellToProtocol(tokenId, amount, USDC) as the second call: a failed approval issues no sale and keeps both fields, a rejected sale is thrown with both calls logged |
| MarketPage.LateConversionFailure | app/market/page.tsx:63-88 | an id or amount BigInt rejects fails after the approval was issued, with no second call and both fields kept |
| MarketPage.ListingCount | app/market/page.tsx:91 | a missing listing counter reads as 0 |
| MarketPage.RowIds | app/market/page.tsx:162 | rows are mounted for ids 0 .. min(count, 10) - 1 |
| MarketPage.RenderRow | app/market/page.tsx:237-266 | nothing for a missing or inactive listing; otherwise positions 0..3 as seller (shortened), token id, amount, floor price, and a Buy button iff connected |
| MarketPage.Rows | app/market/page.tsx:161-165 | the rendered rows are exactly the shown rows of the given ids |
| MarketPage.VisibleRows | app/market/page.tsx:152-165 | a row for exactly the active listings among the first min(count, 10) ids, at most ten, in increasing id order, each showing its listing's fields as its row renders them, Buy shown iff connected |
| MarketPage.RowsOrdered | app/market/page.tsx:162-163 | rows keep the increasing order of the ids |
| LaunchpadPage.HandleInvest | app/launchpad/page.tsx:76-87 | no-op on empty amount or no address; conversion at 6 decimals fails before any call; exactly one approve(LAUNCHPAD, amount) on USDC, which returns, throws the rejection or never settles, consuming one answer; on success amount cleared and selection null, otherwise both kept |
| LaunchpadPage.InvestIgnoresOffering | app/launchpad/page.tsx:76-84 | the offering id does not influence the calls or the state |
| LaunchpadPage.Toggle | app/launchpad/page.tsx:172 | pressing the toggle of the selected offering clears the selection, any other press selects that offering |
| LaunchpadPage.InvestToggleShown | app/launchpad/page.tsx:170 | the Invest/Close toggle shows only for a connected wallet and never beside the Coming Soon button |
| LaunchpadPage.ComingSoonShown | app/launchpad/page.tsx:178 | of the three offerings only the third, the upcoming one, shows the disabled Coming Soon button |
| LaunchpadPage.PanelOpen | app/launchpad/page.tsx:186 | an offering's panel is open exactly when pressing its toggle would close it |
| LaunchpadPage.ButtonsExclusive | app/launchpad/page.tsx:170-182 | the toggle shows only when connected on an active offering, the disabled button only on the upcoming one, never both |
| LaunchpadPage.AtMostOnePanel | app/launchpad/page.tsx:186 | at most one investment panel is open |
| LaunchpadPage.ToggleFlipsPanel | app/launchpad/page.tsx:172-186 | a toggle flips its own panel and leaves every other panel closed; two presses from closed end closed |
| LaunchpadPage.InvestClosesPanel | app/launchpad/page.tsx:85-86 | a successful investment closes every panel, a failed one keeps the open panel |
| Format.ShortenAddress | lib/format.ts:45-48 | "" for a missing or empty address; otherwise the first min(6, n) characters, "...", the last min(4, n) characters; 13 characters when n >= 6 |
| Format.SameShortening | lib/format.ts:45-48 | two addresses of six or more characters shorten alike exactly when their first six and last four characters agree |
| Format.DaysLeft | lib/format.ts:63 | whole days left, rounded down |
| Format.Remaining | lib/format.ts:57-67 | N/A without a maturity; Matured exactly when maturity <= now; otherwise years and days when more than 365 days, months and days when 31..365, days when 0..30 |
| Format.TimeRemaining | lib/format.ts:57-67 | the text is the one and only text that reads back as the countdown (so its numerals and units are fixed); "N/A" exactly without a maturity and "Matured" exactly when the maturity is not in the future |
| Format.Render | lib/format.ts:64-66 | the countdown texts "{y}y {d}d", "{m}m {d}d", "{d}d", "N/A" and "Matured" each read back as the countdown they came from |
| Format.ParseOnlyRendered | lib/format.ts:64-66 | a text that reads back as a countdown is that countdown's rendering: no other spelling is accepted |
| Format.DaysExamples | lib/format.ts:57-67 | under a day left gives "0d", a maturity equal to now gives "Matured", exactly 30 days gives "30d" |
| Format.PairExamples | lib/format.ts:64-65 | 400 days gives "1y 35d"; 45 days and 7 seconds gives "1m 15d" |
| Decimal.Show | lib/format.ts:64-66 | `${n}` of a natural (a number below 10^21, or any bigint) is a non-empty run of digits with no leading zero except "0" itself, and starts with 0 exactly for 0 |
| Decimal.ParseShow | lib/format.ts:64-66 | reading `${n}` back gives n |
| Decimal.ShowValueOf | lib/format.ts:64-66 | every numeral without a leading zero is `${n}` of its value |
| Decimal.ParseOnlyShown | lib/format.ts:64-66 | a numeral read as n is exactly `${n}`, so numbers and their printed numerals correspond one to one |
| Flows.StakeHundredAccepted | app/staking/page.tsx:74-90 | staking "100" with both answers accepted issues approve and stake of 100 * 10^18, stops the spinner, shows no error and clears the field |
| Flows.StakeHundredRejected | components/ui/tx-button.tsx:28-36 | a stake rejected with Error("insufficient balance") shows that message, stops the spinner and keeps "100" |
| Flows.StakeDoubleClick | components/ui/tx-button.tsx:25 | a second click while the approval awaits the wallet issues nothing more |
| Flows.DisconnectedIssuesNothing | app/staking/page.tsx:75-105 | without an address no handler issues a call, Buy included (the same guard is at app/market/page.tsx:45, 56 and 74 and app/launchpad/page.tsx:77); the click ends idle with no error and unchanged fields |
| Flows.InstantSellApprovalRejected | app/market/page.tsx:73-89 | a rejected vault approval shows its error, issues no sale and keeps both fields |
| Flows.BuyFromVisibleRow | app/market/page.tsx:263 | pressing a shown row's Buy button issues exactly one buyListing of that row's listing, which is active and among the first ten, paid in USDC |
| Flows.StakeBlocksUnstake | app/staking/page.tsx:164-214 | the stake and unstake forms share one button: while a stake awaits the wallet the Unstake button is blocked and pressing it issues nothing |
| Flows.RemountedBuyIssuesAgain | app/market/page.tsx:147-170 | a Buy button remounted by a tab switch starts idle, so a second press issues a second buyListing while the first awaits the wallet |

## Left out

- Contract reads (`useReadContract`), wallet connection, RPC transport and wagmi/RainbowKit configuration: external plumbing. Read values (staking tier, listing counter, listings) enter as parameters.
- `parseUnits` and `BigInt` internals: foreign conversions, modelled as parameters that give an integer or throw.
- `writeContractAsync` being undefined (the `?.` in `writeContractAsync?.(...)`): the hook always supplies it, so every write is issued.
- `formatWAD`, `formatUSDC`, `formatToken`, `formatBps`, `formatDate`, the spread and balance displays and the MAX buttons: floating point, `toFixed` and `toLocaleString`.
- Format.Remaining: the maturity and the differences are exact integers. The code computes `ts - now`, `/ 86400` and `% 365` on JavaScript numbers, so for a maturity more than 2^53 seconds away, given as a bigint or a number, the model's text may differ from the code's. Fractional `number` timestamps are not modelled either.
- Decimal.Show: prints like `${n}` only for n below 10^21; JavaScript prints larger numbers in exponent form. Day counts of that size need maturities far beyond 2^53 seconds, which the line above already excludes.
- TxButton.ErrorText: JavaScript slices by UTF-16 code unit and Dafny by character, so a message with characters outside the basic plane may be cut at a different place.
- Format.ShortenAddress: same UTF-16 caveat; addresses are ASCII hex.
- Interleaving of clicks before React re-renders and concurrent actions from different buttons: each click is modelled as atomic and sequential.
- Confirmation waits or receipts: the code has none.
- TxButton.NoReentry: the re-entry guard holds only while the same button instance stays mounted. A tab switch or a closed launchpad panel remounts it idle, and a second write can then be issued while the first still awaits the wallet. Flows.StakeDoubleClick has the same limit. The mount and unmount events themselves are not modelled; a remount is a press from `TxButton.INITIAL`.
- The `console.error` in the button's catch clause (components/ui/tx-button.tsx:33): logging only.
- Layout, charts, count-up animation and the other pages: presentation only.
- Tier colours and icons, and offering figures such as yield and target: display-only constants.
