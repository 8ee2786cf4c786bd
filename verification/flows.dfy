/** Clicks on the pages' transaction buttons: each handler run inside the
    button's guard, spinner and error capture. */
module Flows {
  import opened Js
  import opened Contracts
  import opened TxButton
  import StakingPage
  import MarketPage
  import LaunchpadPage

  /** One whole token in base units: 10^18. */
  const ONE_TOKEN: nat := 1_000_000_000_000_000_000

  /** The "Approve & Stake" button's handler for a given wallet and
      conversion. */
  function StakeHandler(address: Option<string>, parseUnits: (string, nat) -> Attempt<int>)
    : (StakingPage.Form, Gateway) -> Run<StakingPage.Form>
  {
    (f: StakingPage.Form, g: Gateway) => StakingPage.HandleStake(f, address, parseUnits, g)
  }

  /** A row's Buy button's handler: the page state it changes is empty. */
  function BuyHandler(listingId: nat, address: Option<string>): ((), Gateway) -> Run<()> {
    (u: (), g: Gateway) =>
      var s := MarketPage.HandleBuyListing(listingId, address, g);
      Run(s.completion, u, s.gateway)
  }

  /** Pressing the Buy button of a row on the connected Buy tab issues
      exactly one call: `buyListing` on the market, for that row's listing,
      which is active and among the first ten, paid in the stablecoin. */
  lemma BuyFromVisibleRow(b: ButtonState, counter: Option<nat>, read: nat -> Option<MarketPage.Listing>,
                          address: Option<string>, k: nat, g: Gateway)
    requires !b.loading && Truthy(address)
    requires k < |MarketPage.VisibleRows(counter, read, true)|
    ensures var row := MarketPage.VisibleRows(counter, read, true)[k];
            var r := Press(b, false, (), g, BuyHandler(row.listingId, address));
            && row.buyShown
            && row.listingId < MarketPage.MAX_ROWS
            && read(row.listingId).Some? && read(row.listingId).value.active
            && r.gateway.log == g.log + [Call(SecondaryMarket, "buyListing", [Uint(row.listingId), Address(Usdc)])]
            && (r.button.loading <==> g.pending == [])
  {
  }

  /** Staking "100" with both answers accepted: the approval and the stake
      of 100 * 10^18 base units are issued in that order, the spinner stops,
      no error shows and the field clears. */
  lemma StakeHundredAccepted(b: ButtonState, f: StakingPage.Form, address: Option<string>,
                             parseUnits: (string, nat) -> Attempt<int>, log: seq<Call>)
    requires !b.loading && Truthy(address) && f.stakeAmount == "100"
    requires parseUnits("100", StakingPage.TOKEN_DECIMALS) == Value(100 * ONE_TOKEN)
    ensures var r := Press(b, false, f, Gateway(log, [Accepted, Accepted]), StakeHandler(address, parseUnits));
            && r.gateway.log == log + [StakingPage.ApproveCall(100 * ONE_TOKEN), StakingPage.StakeCall(100 * ONE_TOKEN)]
            && r.button == ButtonState(false, None)
            && r.state.stakeAmount == ""
  {
  }

  /** Staking "100" when the stake itself is rejected with
      `Error("insufficient balance")`: both calls were issued, the message
      is shown whole, the spinner stops and the field keeps "100". */
  lemma StakeHundredRejected(b: ButtonState, f: StakingPage.Form, address: Option<string>,
                             parseUnits: (string, nat) -> Attempt<int>, log: seq<Call>)
    requires !b.loading && Truthy(address) && f.stakeAmount == "100"
    requires parseUnits("100", StakingPage.TOKEN_DECIMALS) == Value(100 * ONE_TOKEN)
    ensures var failure := Rejected(ErrorObject(Some("insufficient balance")));
            var r := Press(b, false, f, Gateway(log, [Accepted, failure]), StakeHandler(address, parseUnits));
            && r.gateway.log == log + [StakingPage.ApproveCall(100 * ONE_TOKEN), StakingPage.StakeCall(100 * ONE_TOKEN)]
            && r.button == ButtonState(false, Some("insufficient balance"))
            && ErrorLine(r.button) == Some("insufficient balance")
            && r.state == f
  {
    var p := [Accepted, Rejected(ErrorObject(Some("insufficient balance")))];
    assert LeadingAccepted(p) == 1 by {
      assert LeadingAccepted(p) == 1 + LeadingAccepted(p[1..]);
    }
    TruncatedMessage("insufficient balance");
  }

  /** A second click while the approval is still awaiting the wallet is
      ignored: the gateway receives the first click's approval only. */
  lemma StakeDoubleClick(b: ButtonState, f: StakingPage.Form, address: Option<string>,
                         parseUnits: (string, nat) -> Attempt<int>, log: seq<Call>)
    requires !b.loading && Truthy(address) && f.stakeAmount != ""
    requires parseUnits(f.stakeAmount, StakingPage.TOKEN_DECIMALS).Value?
    ensures var h := StakeHandler(address, parseUnits);
            var first := Press(b, false, f, Gateway(log, []), h);
            var second := Press(first.button, false, first.state, first.gateway, h);
            && first.button.loading
            && second.gateway.log == log + [StakingPage.ApproveCall(parseUnits(f.stakeAmount, StakingPage.TOKEN_DECIMALS).get)]
  {
  }

  /** Without a connected wallet no button issues a call, and every click
      ends with the spinner stopped, no error and the fields unchanged. */
  lemma DisconnectedIssuesNothing(b: ButtonState, address: Option<string>,
                                  parseUnits: (string, nat) -> Attempt<int>, bigInt: string -> Attempt<int>,
                                  sf: StakingPage.Form, mf: MarketPage.SellForm, lp: LaunchpadPage.Page,
                                  offeringId: int, listingId: nat, g: Gateway)
    requires !b.loading && !Truthy(address)
    ensures var r := Press(b, false, sf, g, StakeHandler(address, parseUnits));
            r == Pressed(ButtonState(false, None), sf, g)
    ensures var r := Press(b, false, sf, g,
                           (f: StakingPage.Form, g': Gateway) => StakingPage.HandleUnstake(f, address, parseUnits, g'));
            r == Pressed(ButtonState(false, None), sf, g)
    ensures var r := Press(b, false, sf, g,
                           (f: StakingPage.Form, g': Gateway) => StakingPage.HandleClaimRewards(f, address, g'));
            r == Pressed(ButtonState(false, None), sf, g)
    ensures var r := Press(b, false, mf, g,
                           (f: MarketPage.SellForm, g': Gateway) => MarketPage.HandleCreateListing(f, address, bigInt, g'));
            r == Pressed(ButtonState(false, None), mf, g)
    ensures var r := Press(b, false, mf, g,
                           (f: MarketPage.SellForm, g': Gateway) => MarketPage.HandleInstantSell(f, address, bigInt, g'));
            r == Pressed(ButtonState(false, None), mf, g)
    ensures var r := Press(b, false, lp, g,
                           (p: LaunchpadPage.Page, g': Gateway) => LaunchpadPage.HandleInvest(p, offeringId, address, parseUnits, g'));
            r == Pressed(ButtonState(false, None), lp, g)
    ensures Press(b, false, (), g, BuyHandler(listingId, address)) == Pressed(ButtonState(false, None), (), g)
  {
  }

  /** Instant sell whose vault approval the wallet rejects: the sale is
      never issued, the error shows and both fields keep their values. */
  lemma InstantSellApprovalRejected(b: ButtonState, f: MarketPage.SellForm, address: Option<string>,
                                    bigInt: string -> Attempt<int>, g: Gateway)
    requires !b.loading && MarketPage.SellReady(f, address)
    requires |g.pending| > 0 && g.pending[0].Rejected?
    ensures var r := Press(b, false, f, g,
                           (s: MarketPage.SellForm, g': Gateway) => MarketPage.HandleInstantSell(s, address, bigInt, g'));
            && r.gateway.log == g.log + [MarketPage.ApprovalCall()]
            && r.button == ButtonState(false, Some(ErrorText(g.pending[0].reason)))
            && r.state == f
  {
  }

  /** The stake and unstake forms are the two branches of one conditional
      with the same element structure, so React keeps a single button
      instance for both: while a stake awaits the wallet, switching to the
      unstake form shows a disabled button, and pressing it issues nothing. */
  lemma StakeBlocksUnstake(b: ButtonState, f: StakingPage.Form, address: Option<string>,
                           parseUnits: (string, nat) -> Attempt<int>, log: seq<Call>)
    requires !b.loading && Truthy(address) && f.stakeAmount != "" && f.unstakeAmount != ""
    requires parseUnits(f.stakeAmount, StakingPage.TOKEN_DECIMALS).Value?
    ensures var first := Press(b, false, f, Gateway(log, []), StakeHandler(address, parseUnits));
            var unstake := (s: StakingPage.Form, g': Gateway) => StakingPage.HandleUnstake(s, address, parseUnits, g');
            && Blocked(first.button, false)
            && Press(first.button, false, first.state, first.gateway, unstake) == first
  {
  }

  /** The re-entry guard lives in the mounted button. Switching the market
      tab away and back remounts the Buy button idle, and a second press
      then issues a second purchase while the first still awaits the
      wallet. */
  lemma RemountedBuyIssuesAgain(b: ButtonState, listingId: nat, address: Option<string>, log: seq<Call>)
    requires !b.loading && Truthy(address)
    ensures var first := Press(b, false, (), Gateway(log, []), BuyHandler(listingId, address));
            var again := Press(INITIAL, false, (), first.gateway, BuyHandler(listingId, address));
            && first.button.loading
            && again.gateway.log == log + [MarketPage.BuyCall(listingId), MarketPage.BuyCall(listingId)]
  {
    var first := Press(b, false, (), Gateway(log, []), BuyHandler(listingId, address));
    assert first.gateway == Gateway(log + [MarketPage.BuyCall(listingId)], []);
  }
}
