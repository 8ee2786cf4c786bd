/** The staking page: stake (approve, then stake), unstake, claim rewards,
    and the tier heading with its highlighted row. */
module StakingPage {
  import opened Js
  import opened Contracts

  /** The platform token's decimal precision. */
  const TOKEN_DECIMALS: nat := 18

  /** The page's two amount fields, as typed. */
  datatype Form = Form(stakeAmount: string, unstakeAmount: string)

  function ApproveCall(amount: int): Call {
    Call(Token, "approve", [Address(Staking), Uint(amount)])
  }

  function StakeCall(amount: int): Call {
    Call(Staking, "stake", [Uint(amount)])
  }

  function UnstakeCall(amount: int): Call {
    Call(Staking, "unstake", [Uint(amount)])
  }

  function ClaimCall(): Call {
    Call(Staking, "claimRewards", [])
  }

  /** `handleStake`. Nothing happens on an empty amount or without an
      address; a failing 18-decimal conversion throws before any call;
      otherwise the approval of the staking contract and the stake, both
      for the converted amount, are issued in that order, the stake only
      if the approval returned, and the stake field is cleared only when
      both returned. The unstake field is never touched. */
  function HandleStake(f: Form, address: Option<string>,
                       parseUnits: (string, nat) -> Attempt<int>, g: Gateway): (r: Run<Form>)
    ensures (f.stakeAmount == "" || !Truthy(address)) ==> r == Run(Returned, f, g)
    ensures f.stakeAmount != "" && Truthy(address) && parseUnits(f.stakeAmount, TOKEN_DECIMALS).Throws? ==>
              r == Run(Threw(parseUnits(f.stakeAmount, TOKEN_DECIMALS).reason), f, g)
    ensures f.stakeAmount != "" && Truthy(address) && parseUnits(f.stakeAmount, TOKEN_DECIMALS).Value? ==>
              var amount := parseUnits(f.stakeAmount, TOKEN_DECIMALS).get;
              var calls := [ApproveCall(amount), StakeCall(amount)];
              && r.gateway.log == g.log + calls[..IssuedCount(g.pending, 2)]
              && r.completion == Settles(g.pending, 2)
              && r.gateway.pending == Leftover(g.pending, 2)
    ensures r.state.unstakeAmount == f.unstakeAmount
    ensures r.state.stakeAmount == (if r.completion == Returned && f.stakeAmount != "" && Truthy(address)
                                    then "" else f.stakeAmount)
  {
    if f.stakeAmount == "" || !Truthy(address) then Run(Returned, f, g)
    else match parseUnits(f.stakeAmount, TOKEN_DECIMALS)
      case Throws(e) => Run(Threw(e), f, g)
      case Value(amount) =>
        var s := Issue(g, [ApproveCall(amount), StakeCall(amount)]);
        Run(s.completion, if s.completion == Returned then f.(stakeAmount := "") else f, s.gateway)
  }

  /** `handleUnstake`: one unstake call for the 18-decimal amount, clearing
      only the unstake field when it returns. */
  function HandleUnstake(f: Form, address: Option<string>,
                         parseUnits: (string, nat) -> Attempt<int>, g: Gateway): (r: Run<Form>)
    ensures (f.unstakeAmount == "" || !Truthy(address)) ==> r == Run(Returned, f, g)
    ensures f.unstakeAmount != "" && Truthy(address) && parseUnits(f.unstakeAmount, TOKEN_DECIMALS).Throws? ==>
              r == Run(Threw(parseUnits(f.unstakeAmount, TOKEN_DECIMALS).reason), f, g)
    ensures f.unstakeAmount != "" && Truthy(address) && parseUnits(f.unstakeAmount, TOKEN_DECIMALS).Value? ==>
              && r.gateway.log == g.log + [UnstakeCall(parseUnits(f.unstakeAmount, TOKEN_DECIMALS).get)]
              && r.completion == Settles(g.pending, 1)
              && r.gateway.pending == Leftover(g.pending, 1)
    ensures r.state.stakeAmount == f.stakeAmount
    ensures r.state.unstakeAmount == (if r.completion == Returned && f.unstakeAmount != "" && Truthy(address)
                                      then "" else f.unstakeAmount)
  {
    if f.unstakeAmount == "" || !Truthy(address) then Run(Returned, f, g)
    else match parseUnits(f.unstakeAmount, TOKEN_DECIMALS)
      case Throws(e) => Run(Threw(e), f, g)
      case Value(amount) =>
        var s := Write(g, UnstakeCall(amount));
        Run(s.completion, if s.completion == Returned then f.(unstakeAmount := "") else f, s.gateway)
  }

  /** `handleClaimRewards`: only an address is needed; one argument-less
      claim is issued and no field changes. */
  function HandleClaimRewards(f: Form, address: Option<string>, g: Gateway): (r: Run<Form>)
    ensures !Truthy(address) ==> r == Run(Returned, f, g)
    ensures Truthy(address) ==> r.gateway.log == g.log + [ClaimCall()]
    ensures Truthy(address) ==> r.completion == Settles(g.pending, 1)
    ensures Truthy(address) ==> r.gateway.pending == Leftover(g.pending, 1)
    ensures r.state == f
  {
    if !Truthy(address) then Run(Returned, f, g)
    else
      var s := Write(g, ClaimCall());
      Run(s.completion, f, s.gateway)
  }

  /** If the wallet rejects the approval, the stake is never issued and the
      typed amount stays. */
  lemma RejectedApprovalStopsStake(f: Form, address: Option<string>,
                                   parseUnits: (string, nat) -> Attempt<int>, g: Gateway)
    requires f.stakeAmount != "" && Truthy(address)
    requires parseUnits(f.stakeAmount, TOKEN_DECIMALS).Value?
    requires |g.pending| > 0 && g.pending[0].Rejected?
    ensures var r := HandleStake(f, address, parseUnits, g);
            && r.gateway.log == g.log + [ApproveCall(parseUnits(f.stakeAmount, TOKEN_DECIMALS).get)]
            && r.completion == Threw(g.pending[0].reason)
            && r.state == f
  {
  }

  /** When both answers accept, exactly the approval and the stake are
      issued, both for the same amount, and only the stake field clears. */
  lemma AcceptedStake(f: Form, address: Option<string>,
                      parseUnits: (string, nat) -> Attempt<int>, g: Gateway)
    requires f.stakeAmount != "" && Truthy(address)
    requires parseUnits(f.stakeAmount, TOKEN_DECIMALS).Value?
    requires |g.pending| >= 2 && g.pending[0] == Accepted && g.pending[1] == Accepted
    ensures var r := HandleStake(f, address, parseUnits, g);
            var amount := parseUnits(f.stakeAmount, TOKEN_DECIMALS).get;
            && r.gateway == Gateway(g.log + [ApproveCall(amount), StakeCall(amount)], g.pending[2..])
            && r.completion == Returned
            && r.state == Form("", f.unstakeAmount)
  {
  }

  /** A staking tier's card. */
  datatype Tier = Tier(name: string, minStake: string, benefits: seq<string>)

  const TIERS: seq<Tier> := [
    Tier("Bronze", "1,000", ["5% fee discount", "Basic analytics"]),
    Tier("Silver", "10,000", ["10% fee discount", "Priority listings", "Advanced analytics"]),
    Tier("Gold", "50,000", ["15% fee discount", "Early access", "Premium analytics", "Governance votes"]),
    Tier("Diamond", "100,000", ["20% fee discount", "Exclusive pools", "All benefits", "Fee sharing"])
  ]

  /** `currentTierNum`: the tier read from the staking contract, 0 while it
      is missing. */
  function CurrentTier(stakingTier: Option<int>): (n: int)
    ensures stakingTier.None? ==> n == 0
    ensures stakingTier.Some? ==> n == stakingTier.value
  {
    match stakingTier
    case None => 0
    case Some(t) => t
  }

  /** The heading of the tier card for tier number `n`. */
  function TierHeading(n: int): (h: string)
    ensures n <= 0 ==> h == "No Tier"
    ensures 1 <= n <= |TIERS| ==> h == TIERS[n - 1].name + " Tier"
    ensures n > |TIERS| ==> h == "Unknown Tier"
  {
    if n > 0 then (if n <= |TIERS| then TIERS[n - 1].name else "Unknown") + " Tier"
    else "No Tier"
  }

  /** Row `i` of the tier list is highlighted. */
  predicate RowActive(n: int, i: nat): (r: bool)
    ensures r && i < |TIERS| ==> TierHeading(n) == TIERS[i].name + " Tier"
  {
    n == i + 1
  }

  /** At most one row is highlighted. */
  lemma OneActiveRow(n: int, i: nat, j: nat)
    requires RowActive(n, i) && RowActive(n, j)
    ensures i == j
  {
  }

  lemma HeadingsDiffer(i: nat, j: nat)
    requires i < |TIERS| && j < |TIERS| && i != j
    ensures TIERS[i].name + " Tier" != TIERS[j].name + " Tier"
    ensures TIERS[i].name + " Tier" != "No Tier"
    ensures TIERS[i].name + " Tier" != "Unknown Tier"
  {
    var h := TIERS[i].name + " Tier";
    assert h[0] == TIERS[i].name[0];
    assert (TIERS[j].name + " Tier")[0] == TIERS[j].name[0];
  }

  /** The heading names row `i`'s tier exactly when row `i` is the one
      highlighted. */
  lemma HeadingMatchesActiveRow(n: int, i: nat)
    requires i < |TIERS|
    ensures RowActive(n, i) <==> TierHeading(n) == TIERS[i].name + " Tier"
  {
  }
}
