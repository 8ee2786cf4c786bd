/** The launchpad page: the offering list, the Invest/Close toggle that
    opens one investment panel, and the invest handler. */
module LaunchpadPage {
  import opened Js
  import opened Contracts

  /** The stablecoin's decimal precision. */
  const USDC_DECIMALS: nat := 6

  datatype Status = Active | Upcoming

  /** An offering card; only the fields that decide behaviour. */
  datatype Offering = Offering(id: int, name: string, symbol: string, status: Status)

  const OFFERINGS: seq<Offering> := [
    Offering(1, "Dubai Commercial Real Estate Fund", "DCRE-OPR", Active),
    Offering(2, "Singapore Trade Finance Pool", "STFP-OPR", Active),
    Offering(3, "Green Energy Infrastructure", "GEI-OPR", Upcoming)
  ]

  /** The page's state: the offering whose panel is open, and the typed
      amount. */
  datatype Page = Page(selected: Option<int>, investAmount: string)

  function ApproveCall(amount: int): Call {
    Call(Usdc, "approve", [Address(Launchpad), Uint(amount)])
  }

  /** `handleInvest(offeringId)`: nothing on an empty amount or without an
      address; a failing 6-decimal conversion throws before any call;
      otherwise the only call issued is the stablecoin approval of the
      launchpad, after which the amount clears and the panel closes. */
  function HandleInvest(p: Page, offeringId: int, address: Option<string>,
                        parseUnits: (string, nat) -> Attempt<int>, g: Gateway): (r: Run<Page>)
    ensures (p.investAmount == "" || !Truthy(address)) ==> r == Run(Returned, p, g)
    ensures p.investAmount != "" && Truthy(address) && parseUnits(p.investAmount, USDC_DECIMALS).Throws? ==>
              r == Run(Threw(parseUnits(p.investAmount, USDC_DECIMALS).reason), p, g)
    ensures p.investAmount != "" && Truthy(address) && parseUnits(p.investAmount, USDC_DECIMALS).Value? ==>
              && r.gateway.log == g.log + [ApproveCall(parseUnits(p.investAmount, USDC_DECIMALS).get)]
              && r.completion == Settles(g.pending, 1)
              && r.gateway.pending == Leftover(g.pending, 1)
    ensures r.state == if r.completion == Returned && p.investAmount != "" && Truthy(address)
                       then Page(None, "") else p
  {
    if p.investAmount == "" || !Truthy(address) then Run(Returned, p, g)
    else match parseUnits(p.investAmount, USDC_DECIMALS)
      case Throws(e) => Run(Threw(e), p, g)
      case Value(amount) =>
        var s := Write(g, ApproveCall(amount));
        Run(s.completion, if s.completion == Returned then Page(None, "") else p, s.gateway)
  }

  /** The offering id plays no part in what is issued or kept. */
  lemma InvestIgnoresOffering(p: Page, a: int, b: int, address: Option<string>,
                              parseUnits: (string, nat) -> Attempt<int>, g: Gateway)
    ensures HandleInvest(p, a, address, parseUnits, g) == HandleInvest(p, b, address, parseUnits, g)
  {
  }

  /** The Invest/Close button: closes the open panel of this offering, or
      opens this offering's panel (closing any other). */
  function Toggle(selected: Option<int>, id: int): (r: Option<int>)
    ensures selected == Some(id) ==> r.None?
    ensures selected != Some(id) ==> r == Some(id)
  {
    if selected == Some(id) then None else Some(id)
  }

  /** The Invest/Close button is rendered: only for a connected wallet, and
      never next to the disabled button. */
  predicate InvestToggleShown(connected: bool, o: Offering): (r: bool)
    ensures r ==> connected && !ComingSoonShown(o)
  {
    connected && o.status == Active
  }

  /** The disabled "Coming Soon" button is rendered; of the listed
      offerings, for the third only. */
  predicate ComingSoonShown(o: Offering): (r: bool)
    ensures o in OFFERINGS ==> (r <==> o.id == 3)
  {
    o.status == Upcoming
  }

  /** The investment panel of `o` is rendered (the same condition labels
      its toggle "Close"), exactly when pressing the toggle closes it. */
  predicate PanelOpen(selected: Option<int>, o: Offering): (r: bool)
    ensures r <==> Toggle(selected, o.id).None?
  {
    selected == Some(o.id)
  }

  /** An offering shows either the toggle (when connected) or the disabled
      button, never both; disconnected, an active offering shows neither. */
  lemma ButtonsExclusive(connected: bool, i: nat)
    requires i < |OFFERINGS|
    ensures !(InvestToggleShown(connected, OFFERINGS[i]) && ComingSoonShown(OFFERINGS[i]))
    ensures ComingSoonShown(OFFERINGS[i]) <==> OFFERINGS[i].id == 3
    ensures InvestToggleShown(connected, OFFERINGS[i]) <==> connected && OFFERINGS[i].id != 3
  {
  }

  /** Whatever the selection, at most one offering's panel is open. */
  lemma AtMostOnePanel(selected: Option<int>, i: nat, j: nat)
    requires i < |OFFERINGS| && j < |OFFERINGS|
    requires PanelOpen(selected, OFFERINGS[i]) && PanelOpen(selected, OFFERINGS[j])
    ensures i == j
  {
  }

  /** Pressing an offering's toggle flips its own panel and leaves every
      other panel closed; pressing it twice from a closed state closes it
      again. */
  lemma ToggleFlipsPanel(selected: Option<int>, i: nat)
    requires i < |OFFERINGS|
    ensures var r := Toggle(selected, OFFERINGS[i].id);
            && (PanelOpen(r, OFFERINGS[i]) <==> !PanelOpen(selected, OFFERINGS[i]))
            && (forall j :: 0 <= j < |OFFERINGS| && j != i ==> !PanelOpen(r, OFFERINGS[j]))
    ensures !PanelOpen(selected, OFFERINGS[i]) ==>
              Toggle(Toggle(selected, OFFERINGS[i].id), OFFERINGS[i].id) == None
  {
  }

  /** A successful investment closes every panel; a failed one keeps the
      panel that was open. */
  lemma InvestClosesPanel(p: Page, offeringId: int, address: Option<string>,
                          parseUnits: (string, nat) -> Attempt<int>, g: Gateway, i: nat)
    requires i < |OFFERINGS|
    requires p.investAmount != "" && Truthy(address)
    ensures var r := HandleInvest(p, offeringId, address, parseUnits, g);
            && (r.completion == Returned ==> !PanelOpen(r.state.selected, OFFERINGS[i]))
            && (r.completion != Returned ==>
                  (PanelOpen(r.state.selected, OFFERINGS[i]) <==> PanelOpen(p.selected, OFFERINGS[i])))
  {
  }
}
