/** The secondary market page: buying a listing, creating a listing and
    selling instantly to the protocol, and which listing rows are shown. */
module MarketPage {
  import opened Js
  import opened Contracts
  import Format

  /** At most this many listing rows are read and shown. */
  const MAX_ROWS: nat := 10

  /** The sell tab's two fields, shared by both sell forms. */
  datatype SellForm = SellForm(tokenId: string, amount: string)

  function BuyCall(listingId: nat): Call {
    Call(SecondaryMarket, "buyListing", [Uint(listingId), Address(Usdc)])
  }

  /** The asset vault lets the market move the seller's tokens. */
  function ApprovalCall(): Call {
    Call(OprVault, "setApprovalForAll", [Address(SecondaryMarket), Flag(true)])
  }

  function CreateListingCall(tokenId: int, amount: int): Call {
    Call(SecondaryMarket, "createListing", [Uint(tokenId), Uint(amount)])
  }

  function SellCall(tokenId: int, amount: int): Call {
    Call(SecondaryMarket, "sellToProtocol", [Uint(tokenId), Uint(amount), Address(Usdc)])
  }

  /** `handleBuyListing`: one buy of the listing, paid in the stablecoin. */
  function HandleBuyListing(listingId: nat, address: Option<string>, g: Gateway): (r: Step)
    ensures !Truthy(address) ==> r == Step(Returned, g)
    ensures Truthy(address) ==> r.gateway.log == g.log + [BuyCall(listingId)]
    ensures Truthy(address) ==> r.completion == Settles(g.pending, 1)
    ensures Truthy(address) ==> r.gateway.pending == Leftover(g.pending, 1)
  {
    if !Truthy(address) then Step(Returned, g) else Write(g, BuyCall(listingId))
  }

  /** The fields are filled in and a wallet is connected. */
  predicate SellReady(f: SellForm, address: Option<string>) {
    f.tokenId != "" && f.amount != "" && Truthy(address)
  }

  /** What a sell handler whose second call is built by `second` promises:
      nothing without the fields and a wallet; otherwise the vault
      approval, and only once it returned the `BigInt` conversions of token
      id and amount (in that order, the first failure thrown), then the
      second call; the click ends as the issued writes settle, leaving the
      answers they did not consume, and both fields clear only when the
      second call returned. */
  ghost predicate SellsAs(f: SellForm, address: Option<string>, bigInt: string -> Attempt<int>,
                          g: Gateway, second: (int, int) -> Call, r: Run<SellForm>) {
    && (!SellReady(f, address) ==> r == Run(Returned, f, g))
    && (SellReady(f, address) && Settles(g.pending, 1) != Returned ==>
          && r.gateway.log == g.log + [ApprovalCall()]
          && r.completion == Settles(g.pending, 1)
          && r.gateway.pending == Leftover(g.pending, 1))
    && (SellReady(f, address) && Settles(g.pending, 1) == Returned ==>
          if bigInt(f.tokenId).Throws? then
            && r.completion == Threw(bigInt(f.tokenId).reason)
            && r.gateway.log == g.log + [ApprovalCall()]
            && r.gateway.pending == Leftover(g.pending, 1)
          else if bigInt(f.amount).Throws? then
            && r.completion == Threw(bigInt(f.amount).reason)
            && r.gateway.log == g.log + [ApprovalCall()]
            && r.gateway.pending == Leftover(g.pending, 1)
          else
            && r.gateway.log == g.log + [ApprovalCall(), second(bigInt(f.tokenId).get, bigInt(f.amount).get)]
            && r.completion == Settles(g.pending, 2)
            && r.gateway.pending == Leftover(g.pending, 2))
    && r.state == if r.completion == Returned && SellReady(f, address) then SellForm("", "") else f
  }

  /** The body both sell handlers share. */
  function ApproveThen(f: SellForm, address: Option<string>, bigInt: string -> Attempt<int>,
                       g: Gateway, second: (int, int) -> Call): (r: Run<SellForm>)
    ensures SellsAs(f, address, bigInt, g, second, r)
  {
    if !SellReady(f, address) then Run(Returned, f, g)
    else
      var s1 := Write(g, ApprovalCall());
      if s1.completion != Returned then Run(s1.completion, f, s1.gateway)
      else match bigInt(f.tokenId)
        case Throws(e) => Run(Threw(e), f, s1.gateway)
        case Value(tokenId) =>
          match bigInt(f.amount)
          case Throws(e) => Run(Threw(e), f, s1.gateway)
          case Value(amount) =>
            var s2 := Write(s1.gateway, second(tokenId, amount));
            Run(s2.completion, if s2.completion == Returned then SellForm("", "") else f, s2.gateway)
  }

  /** `handleCreateListing`: the vault approval, then `createListing` of the
      token id and amount. */
  function HandleCreateListing(f: SellForm, address: Option<string>, bigInt: string -> Attempt<int>,
                               g: Gateway): (r: Run<SellForm>)
    ensures SellsAs(f, address, bigInt, g, CreateListingCall, r)
  {
    ApproveThen(f, address, bigInt, g, CreateListingCall)
  }

  /** `handleInstantSell`: the vault approval, then `sellToProtocol` of the
      token id and amount for the stablecoin. */
  function HandleInstantSell(f: SellForm, address: Option<string>, bigInt: string -> Attempt<int>,
                             g: Gateway): (r: Run<SellForm>)
    ensures SellsAs(f, address, bigInt, g, SellCall, r)
  {
    ApproveThen(f, address, bigInt, g, SellCall)
  }

  /** A token id or amount that `BigInt` rejects fails only after the vault
      approval has been issued, and both fields are kept. */
  lemma LateConversionFailure(f: SellForm, address: Option<string>, bigInt: string -> Attempt<int>,
                              g: Gateway)
    requires SellReady(f, address)
    requires |g.pending| > 0 && g.pending[0] == Accepted
    requires bigInt(f.tokenId).Throws? || bigInt(f.amount).Throws?
    ensures var r := HandleInstantSell(f, address, bigInt, g);
            && r.gateway.log == g.log + [ApprovalCall()]
            && r.completion.Threw?
            && r.state == f
    ensures var r := HandleCreateListing(f, address, bigInt, g);
            && r.gateway.log == g.log + [ApprovalCall()]
            && r.completion.Threw?
            && r.state == f
  {
  }

  /** `listingCountNum`: the listing counter, 0 while it is missing. */
  function ListingCount(counter: Option<nat>): (n: nat)
    ensures counter.None? ==> n == 0
    ensures counter.Some? ==> n == counter.value
  {
    match counter
    case None => 0
    case Some(c) => c
  }

  /** The listing ids for which a row is mounted: 0 up to the smaller of the
      count and the row limit. */
  function RowIds(counter: Option<nat>): (ids: seq<nat>)
    ensures |ids| == Min(ListingCount(counter), MAX_ROWS)
    ensures forall i :: 0 <= i < |ids| ==> ids[i] == i
  {
    seq(Min(ListingCount(counter), MAX_ROWS), i => i)
  }

  /** A `listings(id)` result: positions 0 to 4 are the seller, token id,
      amount, floor price and the active flag. */
  datatype Listing = Listing(seller: string, tokenId: int, amount: int, floorPrice: int, active: bool)

  /** What a rendered row shows. */
  datatype RowView = RowView(listingId: nat, seller: string, tokenId: int, amount: int,
                             floorPrice: int, buyShown: bool)

  /** `ListingRow`: nothing while the listing is missing or inactive;
      otherwise its fields, the seller shortened, and a Buy button only
      when connected. */
  function RenderRow(listingId: nat, listing: Option<Listing>, connected: bool): (r: Option<RowView>)
    ensures r.Some? <==> listing.Some? && listing.value.active
    ensures r.Some? ==>
              var l := listing.value;
              && r.value.listingId == listingId
              && r.value.seller == Format.ShortenAddress(Some(l.seller))
              && r.value.tokenId == l.tokenId && r.value.amount == l.amount
              && r.value.floorPrice == l.floorPrice
              && r.value.buyShown == connected
  {
    match listing
    case None => None
    case Some(l) =>
      if !l.active then None
      else Some(RowView(listingId, Format.ShortenAddress(Some(l.seller)), l.tokenId, l.amount,
                        l.floorPrice, connected))
  }

  /** The rendered rows for the ids in `ids`, in order, skipping those
      `RenderRow` hides. */
  function Rows(ids: seq<nat>, read: nat -> Option<Listing>, connected: bool): (rows: seq<RowView>)
    ensures |rows| <= |ids|
    ensures forall k :: 0 <= k < |rows| ==>
              rows[k].listingId in ids && RenderRow(rows[k].listingId, read(rows[k].listingId), connected) == Some(rows[k])
    ensures forall i :: 0 <= i < |ids| && RenderRow(ids[i], read(ids[i]), connected).Some? ==>
              RenderRow(ids[i], read(ids[i]), connected).value in rows
  {
    if |ids| == 0 then []
    else
      var rest := Rows(ids[1..], read, connected);
      match RenderRow(ids[0], read(ids[0]), connected)
      case None => rest
      case Some(row) => [row] + rest
  }

  /** The Buy tab's list: a row for exactly the active listings among the
      first ten ids (fewer when the counter is smaller), in id order, each
      showing its listing's fields and a Buy button exactly when connected. */
  function VisibleRows(counter: Option<nat>, read: nat -> Option<Listing>, connected: bool): (rows: seq<RowView>)
    ensures forall k :: 0 <= k < |rows| ==>
              && rows[k].listingId < Min(ListingCount(counter), MAX_ROWS)
              && read(rows[k].listingId).Some? && read(rows[k].listingId).value.active
              && RenderRow(rows[k].listingId, read(rows[k].listingId), connected) == Some(rows[k])
              && rows[k].buyShown == connected
    ensures forall id: nat :: id < Min(ListingCount(counter), MAX_ROWS) && read(id).Some? && read(id).value.active ==>
              exists k :: 0 <= k < |rows| && rows[k].listingId == id
    ensures |rows| <= MAX_ROWS
    ensures Ordered(rows)
  {
    var ids := RowIds(counter);
    var rows := Rows(ids, read, connected);
    RowsOrdered(ids, read, connected);
    forall id: nat | id < |ids| && read(id).Some? && read(id).value.active
      ensures exists k :: 0 <= k < |rows| && rows[k].listingId == id
    {
      assert ids[id] == id;
      var row := RenderRow(ids[id], read(ids[id]), connected).value;
      assert row in rows;
      var k :| 0 <= k < |rows| && rows[k] == row;
    }
    rows
  }

  /** Rows with strictly increasing listing ids. */
  predicate Ordered(rows: seq<RowView>) {
    forall k, m :: 0 <= k < m < |rows| ==> rows[k].listingId < rows[m].listingId
  }

  /** The rows are listed in increasing id order. */
  lemma {:induction false} RowsOrdered(ids: seq<nat>, read: nat -> Option<Listing>, connected: bool)
    requires forall i, j :: 0 <= i < j < |ids| ==> ids[i] < ids[j]
    ensures Ordered(Rows(ids, read, connected))
  {
    if |ids| > 0 {
      var tail := ids[1..];
      var rest := Rows(tail, read, connected);
      RowsOrdered(tail, read, connected);
      forall k | 0 <= k < |rest| ensures ids[0] < rest[k].listingId {
        var j :| 0 <= j < |tail| && tail[j] == rest[k].listingId;
        assert ids[j + 1] == tail[j];
      }
      var head := RenderRow(ids[0], read(ids[0]), connected);
      if head.Some? {
        HeadBeforeRest(head.value, rest);
      }
    }
  }

  /** A row placed before ordered rows of larger ids keeps them ordered. */
  lemma HeadBeforeRest(row: RowView, rest: seq<RowView>)
    requires Ordered(rest)
    requires forall k :: 0 <= k < |rest| ==> row.listingId < rest[k].listingId
    ensures Ordered([row] + rest)
  {
  }
}
