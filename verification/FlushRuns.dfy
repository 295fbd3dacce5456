/**
 Runs of flushes through the chain of panels: what a panel has received of a user in
 the end, and what was committed of it (panelapi/sync.go).
 */
module FlushRuns {
  import opened Ledger
  import opened Counter
  import opened Delivery
  import opened Panels

  // The delta a flush pushed, whether every panel accepted, and what they received.
  datatype Flush = Flush(delta: Deltas, ok: bool, got: Receipts)

  ghost predicate IsRun(c: Chain, run: seq<Flush>) {
    forall f :: f in run ==> PushedAs(c, f.delta, f.ok, f.got)
  }

  // What a flush brought a panel for a number.
  function Paid(f: Flush, panel: nat, n: nat, d: Direction): int { Entry(ReceiptOf(f.got, panel), n).Of(d) }

  function Received(run: seq<Flush>, panel: nat, n: nat, d: Direction): int {
    if run == [] then 0 else Received(run[..|run| - 1], panel, n, d) + Paid(run[|run| - 1], panel, n, d)
  }

  // What a flush carries for a panel.
  ghost function Carried(c: Chain, f: Flush, panel: nat, n: nat, d: Direction): int {
    Bytes(f.delta, DeliversTo(c, f.delta.Keys, panel), n, d)
  }

  // What the flushes that succeeded committed of the tags delivered to a panel: all they
  // carried, see FlushChain.
  ghost function CommittedTo(c: Chain, run: seq<Flush>, panel: nat, n: nat, d: Direction): int {
    if run == [] then 0
    else
      var f := run[|run| - 1];
      CommittedTo(c, run[..|run| - 1], panel, n, d) + if f.ok then Carried(c, f, panel, n, d) else 0
  }

  // What a panel accepted in flushes that then failed at another one.
  function Repeated(run: seq<Flush>, panel: nat, n: nat, d: Direction): int {
    if run == [] then 0
    else
      var f := run[|run| - 1];
      Repeated(run[..|run| - 1], panel, n, d) + if f.ok then 0 else Paid(f, panel, n, d)
  }

  // The number's bytes come to the panel under one key.
  ghost predicate UnderOneKey(c: Chain, run: seq<Flush>, panel: nat, n: nat, d: Direction) {
    forall f :: f in run ==> OneKey(f.delta, DeliversTo(c, f.delta.Keys, panel), n, d)
  }

  // Over any run of flushes a panel has received what was committed, plus what it
  // accepted in flushes that failed.
  lemma {:induction false} ReceivedIs(c: Chain, run: seq<Flush>, panel: nat, n: nat, d: Direction)
    requires IsRun(c, run) && UnderOneKey(c, run, panel, n, d)
    ensures Received(run, panel, n, d) == CommittedTo(c, run, panel, n, d) + Repeated(run, panel, n, d)
  {
    if run != [] {
      var f := run[|run| - 1];
      assert f in run;
      ReceivedIs(c, run[..|run| - 1], panel, n, d);
      if f.ok {
        ShareIsExact(f.delta, DeliversTo(c, f.delta.Keys, panel), ReceiptOf(f.got, panel), n, d);
      }
    }
  }

  lemma PaidIsCount(c: Chain, f: Flush, panel: nat, n: nat, d: Direction)
    requires PushedAs(c, f.delta, f.ok, f.got) && NonNegative(f.delta)
    ensures Paid(f, panel, n, d) >= 0
  {
    if panel in f.got && n in f.got[panel] {
      var tags := DeliversTo(c, f.delta.Keys, panel);
      EntryIsOfAKey(f.delta, tags, f.got[panel], n, d);
      var u :| Listed(f.delta, tags, u, n) && f.got[panel][n].Of(d) == Total(f.delta, tags, u, d);
      TotalsAreCounts(f.delta, tags, u, d);
    }
  }

  lemma {:induction false} RepeatedIsCount(c: Chain, run: seq<Flush>, panel: nat, n: nat, d: Direction)
    requires IsRun(c, run) && forall f :: f in run ==> NonNegative(f.delta)
    ensures Repeated(run, panel, n, d) >= 0
    ensures Repeated(run, panel, n, d) == 0 <==> forall f :: f in run && !f.ok ==> Paid(f, panel, n, d) == 0
  {
    if run != [] {
      var m := |run| - 1;
      assert run == run[..m] + [run[m]];
      RepeatedIsCount(c, run[..m], panel, n, d);
      PaidIsCount(c, run[m], panel, n, d);
    }
  }

  // So a panel has received at least what was committed, and exactly that when and only
  // when no flush that failed had reached it with bytes of the number.
  lemma NothingCommittedIsMissing(c: Chain, run: seq<Flush>, panel: nat, n: nat, d: Direction)
    requires IsRun(c, run) && UnderOneKey(c, run, panel, n, d) && forall f :: f in run ==> NonNegative(f.delta)
    ensures Received(run, panel, n, d) >= CommittedTo(c, run, panel, n, d)
    ensures Received(run, panel, n, d) == CommittedTo(c, run, panel, n, d)
            <==> forall f :: f in run && !f.ok ==> Paid(f, panel, n, d) == 0
  {
    ReceivedIs(c, run, panel, n, d);
    RepeatedIsCount(c, run, panel, n, d);
  }
}
