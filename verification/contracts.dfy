/** The write side of the contract gateway (`writeContractAsync`), as an
    abstract log of issued calls fed by a queue of submission outcomes. */
module Contracts {
  import opened Js

  /** The deployed contracts the pages address (`CONTRACTS.*`). */
  datatype Contract = Token | Usdc | Staking | SecondaryMarket | OprVault | Launchpad

  /** An argument of a contract call: a contract's address, an unsigned
      integer, or a boolean. */
  datatype Arg = Address(contract: Contract) | Uint(value: int) | Flag(on: bool)

  /** One `writeContractAsync({address, functionName, args})` request. */
  datatype Call = Call(target: Contract, name: string, args: seq<Arg>)

  /** How the wallet answers one submission: the promise resolves, or it
      rejects with a thrown value (user rejection, revert, RPC failure). */
  datatype Outcome = Accepted | Rejected(reason: Thrown)

  /** Every call issued so far, and the answers still to come, in order.
      When `pending` is empty the next submission never settles. */
  datatype Gateway = Gateway(log: seq<Call>, pending: seq<Outcome>)

  /** How an awaited piece of code ends: it returns, it throws, or it stays
      suspended on a promise that never settles. */
  datatype Completion = Returned | Threw(reason: Thrown) | Suspended

  /** The completion of a sequence of writes and the gateway after it. */
  datatype Step = Step(completion: Completion, gateway: Gateway)

  /** The completion of an action handler, the page state it leaves and the
      gateway after it. */
  datatype Run<+S> = Run(completion: Completion, state: S, gateway: Gateway)

  /** `await writeContractAsync(c)`: the call is issued (logged) whatever
      the wallet answers, and consumes exactly one answer if one comes. */
  function Write(g: Gateway, c: Call): (r: Step)
    ensures r.gateway.log == g.log + [c]
    ensures |g.pending| == 0 ==> r.completion == Suspended && r.gateway.pending == []
    ensures |g.pending| > 0 ==> r.gateway.pending == g.pending[1..]
    ensures |g.pending| > 0 ==> (r.completion == Returned <==> g.pending[0] == Accepted)
    ensures |g.pending| > 0 && g.pending[0].Rejected? ==> r.completion == Threw(g.pending[0].reason)
  {
    if |g.pending| == 0 then Step(Suspended, Gateway(g.log + [c], []))
    else match g.pending[0]
      case Accepted => Step(Returned, Gateway(g.log + [c], g.pending[1..]))
      case Rejected(e) => Step(Threw(e), Gateway(g.log + [c], g.pending[1..]))
  }

  /** The number of leading answers that accept. */
  function LeadingAccepted(p: seq<Outcome>): (n: nat)
    ensures n <= |p|
    ensures forall i :: 0 <= i < n ==> p[i] == Accepted
    ensures n < |p| ==> p[n].Rejected?
  {
    if |p| == 0 || p[0].Rejected? then 0 else 1 + LeadingAccepted(p[1..])
  }

  /** How many of `n` consecutive awaited calls are issued against the
      answers `p`: all of them when the first `n` answers accept, otherwise
      every call up to and including the first that is not accepted. */
  function IssuedCount(p: seq<Outcome>, n: nat): (k: nat)
    ensures k <= n
    ensures k == n <==> LeadingAccepted(p) >= n - 1
  {
    var a := LeadingAccepted(p);
    if a >= n then n else a + 1
  }

  /** How `n` consecutive awaited writes end, read off the answers alone:
      they return when the first `n` answers accept; otherwise they throw
      the first rejection, or stay suspended when the answers run out
      before one comes. */
  function Settles(p: seq<Outcome>, n: nat): Completion {
    var a := LeadingAccepted(p);
    if a >= n then Returned
    else if a < |p| then Threw(p[a].reason)
    else Suspended
  }

  /** The answers left for later clicks once `n` consecutive awaited writes
      have been issued against `p`: every issued write consumed one, and an
      unsettled one consumed whatever was left. */
  function Leftover(p: seq<Outcome>, n: nat): seq<Outcome> {
    p[Min(IssuedCount(p, n), |p|)..]
  }

  /** An accepted first answer leaves `n - 1` writes to settle against the
      rest of the answers. */
  lemma AcceptedStep(p: seq<Outcome>, n: nat)
    requires n >= 1 && |p| > 0 && p[0] == Accepted
    ensures Settles(p, n) == Settles(p[1..], n - 1)
    ensures Leftover(p, n) == Leftover(p[1..], n - 1)
    ensures IssuedCount(p, n) == 1 + IssuedCount(p[1..], n - 1)
  {
    assert LeadingAccepted(p) == 1 + LeadingAccepted(p[1..]);
  }

  /** A first answer that is missing or rejected ends the writes at the
      first one. */
  lemma RefusedStep(p: seq<Outcome>, n: nat)
    requires n >= 1 && (|p| == 0 || p[0].Rejected?)
    ensures Settles(p, n) == if |p| == 0 then Suspended else Threw(p[0].reason)
    ensures Leftover(p, n) == p[Min(1, |p|)..]
    ensures IssuedCount(p, n) == 1
  {
  }

  /** The first write refused or unanswered: it alone was issued, and it
      decides how the sequence ends. */
  lemma RefusedIssue(g: Gateway, calls: seq<Call>)
    requires |calls| >= 1 && (|g.pending| == 0 || g.pending[0].Rejected?)
    ensures var r := Write(g, calls[0]);
            && r.gateway.log == g.log + calls[..IssuedCount(g.pending, |calls|)]
            && r.completion == Settles(g.pending, |calls|)
            && r.gateway.pending == Leftover(g.pending, |calls|)
  {
    RefusedStep(g.pending, |calls|);
  }

  /** The first write accepted: the rest of the sequence, run on the
      remaining answers, ends the whole sequence. */
  lemma AcceptedIssue(g: Gateway, calls: seq<Call>, r: Step)
    requires |calls| >= 1 && |g.pending| > 0 && g.pending[0] == Accepted
    requires var p := g.pending[1..];
             && r.gateway.log == g.log + [calls[0]] + calls[1..][..IssuedCount(p, |calls| - 1)]
             && r.completion == Settles(p, |calls| - 1)
             && r.gateway.pending == Leftover(p, |calls| - 1)
    ensures r.gateway.log == g.log + calls[..IssuedCount(g.pending, |calls|)]
    ensures r.completion == Settles(g.pending, |calls|)
    ensures r.gateway.pending == Leftover(g.pending, |calls|)
  {
    AcceptedStep(g.pending, |calls|);
    var k := IssuedCount(g.pending[1..], |calls| - 1);
    PrefixStep(calls, k);
    assert g.log + [calls[0]] + calls[1..][..k] == g.log + ([calls[0]] + calls[1..][..k]);
  }

  lemma PrefixStep<T>(s: seq<T>, k: nat)
    requires k < |s|
    ensures s[..k + 1] == [s[0]] + s[1..][..k]
  {
  }

  /** `await w(calls[0]); await w(calls[1]); ...`: the calls are issued
      strictly in order, and the first one that throws or never settles
      stops the sequence. */
  function Issue(g: Gateway, calls: seq<Call>): (r: Step)
    ensures r.gateway.log == g.log + calls[..IssuedCount(g.pending, |calls|)]
    ensures r.completion == Settles(g.pending, |calls|)
    ensures r.gateway.pending == Leftover(g.pending, |calls|)
    decreases |calls|
  {
    if |calls| == 0 then Step(Returned, g)
    else if |g.pending| == 0 || g.pending[0].Rejected? then
      RefusedIssue(g, calls);
      Write(g, calls[0])
    else
      var r := Issue(Gateway(g.log + [calls[0]], g.pending[1..]), calls[1..]);
      AcceptedIssue(g, calls, r);
      r
  }
}
