/**
 What the byte bound of a limiter becomes after its rate was lowered, and when the
 limiter drops its bucket and makes a new one: chunks that were granted before still
 pass when their time has come.
 */
module RateChanges {
  import opened TokenBucket
  import opened Int64
  import opened RateBound

  // ------------------------------------------------------------- runs at one rate

  // The rate is not set again.
  predicate Steady(e: Event) { e.Read? ==> e.op.Charge? }

  ghost predicate AllSteady(events: seq<Event>) { forall e :: e in events ==> Steady(e) }

  // A state that follows on `s` in order, without the rate being set.
  ghost predicate Later(s: State, t: State)
    requires Runs(s)
  {
    exists events :: AllPrompt(s, events, 0.0) && AllSteady(events) && Execute(s, events) == t
  }

  lemma LaterAtOnce(s: State)
    requires Runs(s)
    ensures Later(s, s)
  {
    assert AllPrompt(s, [], 0.0) && AllSteady([]) && Execute(s, []) == s;
  }

  lemma LaterThen(s: State, t: State, e: Event) returns (t': State)
    requires Runs(s) && Later(s, t) && Steady(e)
    requires Runs(t) ==> Prompt(t, e, 0.0)
    ensures Runs(t) && t' == Step(t, e) && Later(s, t')
  {
    var events :| AllPrompt(s, events, 0.0) && AllSteady(events) && Execute(s, events) == t;
    ExecuteThen(s, events, e, 0.0);
    t' := Step(t, e);
    assert AllSteady(events + [e]);
  }

  // ---------------------------------------------------------------- what still waits

  // The chunks that may act by `x` but were not written yet.
  function Due(grants: seq<Grant>, x: real): int {
    if grants == [] then 0
    else
      var g := grants[|grants| - 1];
      Due(grants[..|grants| - 1], x) + if !g.emitted && g.act <= x then g.n else 0
  }

  function Waiting(grants: seq<Grant>): int {
    if grants == [] then 0
    else
      var g := grants[|grants| - 1];
      Waiting(grants[..|grants| - 1]) + if !g.emitted then g.n else 0
  }

  // What the bucket has at the present time.
  function Tokens(s: State): real { Advanced(s.bucket, s.now).tokens }

  // When a waiting chunk can be written.
  function When(s: State, g: Grant): real { if g.act < s.now then s.now else g.act }

  // What the rate of `s` earns until `x`, without and with its burst.
  function EarnedUntil(s: State, x: real): real { s.bucket.limit as real * (x - s.now) }

  function Allowance(s: State, x: real): real { s.bucket.burst as real + EarnedUntil(s, x) }

  // At most the burst and what the rate earns passes between two states.
  predicate KeepsRate(s: State, t: State) {
    (Written(t.grants) - Written(s.grants)) as real <= Allowance(s, t.now)
  }

  predicate FitsAt(s: State, x: real) { Due(s.grants, x) as real <= Allowance(s, x) }

  // The waiting chunks come due no faster than the burst and the rate allow, and the
  // burst has room for all of them beside the tokens.
  ghost predicate WaitingFits(s: State) {
    && (forall g :: g in s.grants && !g.emitted ==> FitsAt(s, When(s, g)))
    && Waiting(s.grants) as real + Tokens(s) <= s.bucket.burst as real
  }

  // Nobody waits for the lock, as when SetRate has returned.
  ghost predicate Quiet(s: State) {
    Runs(s) && s.bucket.burst > 0 && OnTime(s.grants, s.now) && s.pending == [] && s.bucket.last <= s.now
  }

  // ------------------------------------------------------------------ the bound holds

  // The chunks of `s` are still there, in their old terms.
  ghost predicate OldStay(grants: seq<Grant>, old': seq<Grant>) {
    |grants| == |old'| &&
    forall k :: 0 <= k < |grants| ==>
      old'[k].n == grants[k].n && old'[k].act == grants[k].act && (grants[k].emitted ==> old'[k] == grants[k])
  }

  predicate Paid(charged: int, b: Bucket, origin: real) {
    charged as real + b.tokens <= b.limit as real * (b.last - origin)
  }

  // The new chunks and the tokens left never exceed what the rate has earned since
  // `origin`; until one is granted the bucket is that of `s`.
  ghost predicate NewCovered(s: State, b: Bucket, grants: seq<Grant>, origin: real) {
    && Within(grants, s.bucket.limit as real, origin)
    && if grants == [] && b == s.bucket then true
       else b.last >= s.now && b.limit == s.bucket.limit && Paid(Charged(grants), b, origin)
  }

  ghost predicate Onward(s: State, t: State, origin: real) {
    && Runs(t) && t.bucket.limit == s.bucket.limit && t.bucket.burst == s.bucket.burst && s.now <= t.now
    && (forall p :: p in t.pending ==> p.op.Charge? && s.now <= p.t)
    && OnTime(t.grants, t.now)
    && |s.grants| <= |t.grants| && OldStay(s.grants, t.grants[..|s.grants|])
    && NewCovered(s, t.bucket, t.grants[|s.grants|..], origin)
  }

  // The tokens of `s` are what its rate earned since `origin`.
  ghost predicate EarnedSince(s: State, origin: real) {
    s.bucket.limit as real * (s.now - origin) == Tokens(s)
  }

  lemma SomeOrigin(s: State) returns (origin: real)
    requires s.bucket.limit > 0
    ensures EarnedSince(s, origin)
  {
    var r := s.bucket.limit as real;
    origin := s.now - Tokens(s) / r;
    Pay(r, Tokens(s));
    assert s.now - origin == Tokens(s) / r;
  }

  lemma Between(r: real, x: real, y: real, z: real)
    ensures r * (z - x) == r * (y - x) + r * (z - y)
  {
    Distribute(r, y - x, z - y);
    assert z - x == (y - x) + (z - y);
  }

  // Advancing further earns at most what the rate earns in between.
  lemma AdvancedMore(b: Bucket, t: real, x: real)
    requires b.limit > 0 && b.last <= t <= x
    ensures Advanced(b, x).tokens <= Advanced(b, t).tokens + b.limit as real * (x - t)
  {
    var r, before, more := b.limit as real, t - b.last, x - t;
    Distribute(r, before, more);
    MoreTime(r, 0.0, more);
    assert x - b.last == before + more;
    assert Advanced(b, t).tokens == Min(b.tokens + r * before, b.burst as real);
    assert Advanced(b, x).tokens == Min(b.tokens + r * (before + more), b.burst as real);
  }

  lemma PaidLater(charged: int, b: Bucket, t: real, origin: real)
    requires b.last <= t && Paid(charged, b, origin)
    ensures Paid(charged, Advanced(b, t), origin)
  {
    Between(b.limit as real, origin, b.last, t);
  }

  lemma PaidFromStart(s: State, t: real, origin: real)
    requires Quiet(s) && EarnedSince(s, origin) && s.now <= t
    ensures Paid(0, Advanced(s.bucket, t), origin)
  {
    AdvancedMore(s.bucket, s.now, t);
    Between(s.bucket.limit as real, origin, s.now, t);
  }

  lemma TakenIsPaid(s: State, b: Bucket, grants: seq<Grant>, t: real, n: int, origin: real)
    requires Quiet(s) && EarnedSince(s, origin) && NewCovered(s, b, grants, origin)
    requires s.now <= t && b.last <= t && b.limit == s.bucket.limit
    ensures Paid(Charged(grants) + n, Reserved(b, t, n), origin)
  {
    if grants == [] && b == s.bucket {
      PaidFromStart(s, t, origin);
    } else {
      PaidLater(Charged(grants), b, t, origin);
    }
  }

  lemma TakenIsWithin(b: Bucket, grants: seq<Grant>, n: int, origin: real)
    requires b.limit > 0 && Within(grants, b.limit as real, origin) && Paid(Charged(grants) + n, b, origin)
    ensures var more := grants + [Grant(n, ActTime(b, b.last), false, 0)];
            Charged(more) == Charged(grants) + n && Within(more, b.limit as real, origin)
  {
    var more := grants + [Grant(n, ActTime(b, b.last), false, 0)];
    assert more[..|grants|] == grants;
    GrantIsWithin(more, b, origin, b.limit);
  }

  lemma TakenIsCovered(s: State, b: Bucket, grants: seq<Grant>, t: real, n: int, origin: real)
    requires Quiet(s) && EarnedSince(s, origin) && NewCovered(s, b, grants, origin)
    requires s.now <= t && b.last <= t && b.limit == s.bucket.limit
    ensures var b' := Reserved(b, t, n);
            NewCovered(s, b', grants + [Grant(n, ActTime(b', t), false, 0)], origin)
  {
    TakenIsPaid(s, b, grants, t, n, origin);
    TakenIsWithin(Reserved(b, t, n), grants, n, origin);
  }

  lemma OnwardTake(s: State, t: State, at: real, n: int, origin: real)
    requires Quiet(s) && EarnedSince(s, origin) && Onward(s, t, origin) && n > 0 && s.now <= at && t.bucket.last <= at
    ensures Onward(s, Taken(t, at, n), origin)
  {
    var k := |s.grants|;
    var t' := Taken(t, at, n);
    assert t'.grants[..k] == t.grants[..k];
    assert t'.grants[k..] == t.grants[k..] + [t'.grants[|t.grants|]];
    TakenIsCovered(s, t.bucket, t.grants[k..], at, n, origin);
  }

  lemma OnwardLock(s: State, t: State, i: nat, origin: real)
    requires Quiet(s) && EarnedSince(s, origin) && Onward(s, t, origin) && Prompt(t, Lock(i), 0.0)
    ensures Onward(s, Step(t, Lock(i)), origin)
  {
    if i < |t.pending| {
      var p := t.pending[i];
      assert p in t.pending;
      if 0 < p.op.n <= t.bucket.burst {
        OnwardTake(s, t, p.t, p.op.n, origin);
      }
    }
  }

  lemma OnwardEmit(s: State, t: State, i: nat, m: int, origin: real)
    requires Quiet(s) && EarnedSince(s, origin) && Onward(s, t, origin)
    ensures Onward(s, Step(t, Emit(i, m)), origin)
  {
    var k := |s.grants|;
    var t' := Step(t, Emit(i, m));
    if i >= |t.grants| {
      return;
    }
    EmitStaysOnTime(t, i, m);
    SameGrants(t.grants[k..], t'.grants[k..], s.bucket.limit as real, origin);
    if k <= i {
      assert t'.grants[..k] == t.grants[..k];
    }
  }

  lemma OnwardStep(s: State, t: State, e: Event, origin: real)
    requires Quiet(s) && EarnedSince(s, origin) && Onward(s, t, origin) && Prompt(t, e, 0.0) && Steady(e)
    ensures Onward(s, Step(t, e), origin)
  {
    match e
    case Tick(_) =>
    case Read(_) =>
    case Lock(i) => OnwardLock(s, t, i, origin);
    case Emit(i, m) => OnwardEmit(s, t, i, m, origin);
  }

  lemma {:induction false} OnwardRun(s: State, t: State, events: seq<Event>, origin: real)
    requires Quiet(s) && EarnedSince(s, origin) && Onward(s, t, origin)
    requires AllPrompt(t, events, 0.0) && AllSteady(events)
    ensures Onward(s, Execute(t, events), origin)
    decreases |events|
  {
    if events != [] {
      assert events[0] in events;
      OnwardStep(s, t, events[0], origin);
      OnwardRun(s, Step(t, events[0]), events[1..], origin);
    }
  }

  lemma LaterIsOnward(s: State, t: State, origin: real)
    requires Quiet(s) && EarnedSince(s, origin) && Later(s, t)
    ensures Onward(s, t, origin)
  {
    var events :| AllPrompt(s, events, 0.0) && AllSteady(events) && Execute(s, events) == t;
    assert s.grants[..|s.grants|] == s.grants && s.grants[|s.grants|..] == [];
    OnwardRun(s, s, events, origin);
  }

  lemma {:induction false} WrittenConcat(a: seq<Grant>, b: seq<Grant>)
    ensures Written(a + b) == Written(a) + Written(b)
  {
    if b == [] {
      assert a + b == a;
    } else {
      assert (a + b)[..|a + b| - 1] == a + b[..|b| - 1];
      WrittenConcat(a, b[..|b| - 1]);
    }
  }

  lemma OneWritten(g: Grant, g': Grant, now: real)
    requires 0 <= g.written <= g.n && g'.n == g.n && g'.act == g.act && (g.emitted ==> g' == g)
    requires 0 <= g'.written <= g'.n && (g'.written > 0 ==> g'.act <= now)
    ensures g'.written - g.written <= (if !g.emitted && g.act <= now then g.n else 0) <= (if !g.emitted then g.n else 0)
  {}

  // Of the old chunks only what was due could be written.
  lemma {:induction false} OldWritten(grants: seq<Grant>, old': seq<Grant>, now: real)
    requires OldStay(grants, old') && OnTime(grants, now) && OnTime(old', now)
    ensures Written(old') - Written(grants) <= Due(grants, now) <= Waiting(grants)
  {
    if grants != [] {
      var n := |grants| - 1;
      assert grants[n] in grants && old'[n] in old';
      OneWritten(grants[n], old'[n], now);
      OldWritten(grants[..n], old'[..n], now);
    }
  }

  lemma {:induction false} DueGrows(grants: seq<Grant>, x: real, y: real)
    requires x <= y && forall g :: g in grants ==> g.n >= 0
    ensures 0 <= Due(grants, x) <= Due(grants, y)
  {
    if grants != [] {
      assert grants[|grants| - 1] in grants;
      DueGrows(grants[..|grants| - 1], x, y);
    }
  }

  // What is due grows only when a waiting chunk comes due.
  lemma {:induction false} LatestDue(grants: seq<Grant>, x: real) returns (y: real)
    requires forall g :: g in grants ==> g.n >= 0
    requires exists g :: g in grants && !g.emitted && g.act <= x
    ensures y <= x && Due(grants, y) == Due(grants, x) && exists g :: g in grants && !g.emitted && g.act == y
  {
    var n := |grants| - 1;
    var rest, last := grants[..n], grants[n];
    assert last in grants;
    if exists g :: g in rest && !g.emitted && g.act <= x {
      y := LatestDue(rest, x);
      var g :| g in rest && !g.emitted && g.act == y;
      assert g in grants;
      if !last.emitted && y < last.act <= x {
        DueGrows(rest, y, last.act);
        DueGrows(rest, last.act, x);
        y := last.act;
      }
    } else {
      y := last.act;
      NothingDue(rest, x);
      NothingDue(rest, y);
    }
  }

  lemma {:induction false} NothingDue(grants: seq<Grant>, x: real)
    requires forall g :: g in grants ==> g.emitted || g.act > x
    ensures Due(grants, x) == 0
  {
    if grants != [] {
      assert grants[|grants| - 1] in grants;
      NothingDue(grants[..|grants| - 1], x);
    }
  }

  lemma AllowanceGrows(s: State, x: real, y: real)
    requires s.bucket.limit > 0 && x <= y
    ensures Allowance(s, x) <= Allowance(s, y)
  {
    MoreTime(s.bucket.limit as real, x - s.now, y - s.now);
  }

  lemma DueFits(s: State, x: real)
    requires Quiet(s) && WaitingFits(s) && s.now <= x
    ensures FitsAt(s, x)
  {
    if exists g :: g in s.grants && !g.emitted && g.act <= x {
      var y := LatestDue(s.grants, x);
      var g :| g in s.grants && !g.emitted && g.act == y;
      assert FitsAt(s, When(s, g));
      DueGrows(s.grants, y, When(s, g));
      DueGrows(s.grants, When(s, g), x);
      AllowanceGrows(s, When(s, g), x);
    } else {
      NothingDue(s.grants, x);
      AllowanceGrows(s, s.now, x);
    }
  }

  lemma AddUp(earlier: int, later: int, due: int, waiting: int, tokens: real, burst: real, earned: real)
    requires earlier <= due <= waiting && due as real <= burst + earned && waiting as real + tokens <= burst
    requires later == 0 || later as real <= tokens + earned
    ensures (earlier + later) as real <= burst + earned
  {}

  lemma FittingKeepsRate(s: State, t: State)
    requires Quiet(s) && WaitingFits(s) && Later(s, t)
    ensures KeepsRate(s, t)
  {
    var earlier, later := LaterWritten(s, t);
    DueFits(s, t.now);
    AddUp(earlier, later, Due(s.grants, t.now), Waiting(s.grants), Tokens(s), s.bucket.burst as real,
          EarnedUntil(s, t.now));
  }

  // What was written since `s`, of its own chunks and of later ones.
  lemma LaterWritten(s: State, t: State) returns (earlier: int, later: int)
    requires Quiet(s) && Later(s, t)
    ensures s.now <= t.now && Written(t.grants) - Written(s.grants) == earlier + later
    ensures earlier <= Due(s.grants, t.now) <= Waiting(s.grants)
    ensures later == 0 || later as real <= Tokens(s) + EarnedUntil(s, t.now)
  {
    var origin := SomeOrigin(s);
    LaterIsOnward(s, t, origin);
    var old', new' := t.grants[..|s.grants|], t.grants[|s.grants|..];
    earlier, later := Written(old') - Written(s.grants), Written(new');
    assert t.grants == old' + new';
    WrittenConcat(old', new');
    OldWritten(s.grants, old', t.now);
    NewWritten(s, new', t.now, origin);
  }

  lemma NewWritten(s: State, grants: seq<Grant>, now: real, origin: real)
    requires s.bucket.limit > 0 && EarnedSince(s, origin)
    requires Within(grants, s.bucket.limit as real, origin) && OnTime(grants, now)
    ensures Written(grants) == 0 || Written(grants) as real <= Tokens(s) + EarnedUntil(s, now)
  {
    WrittenIsAllowed(grants, s.bucket.limit as real, origin, now);
    Between(s.bucket.limit as real, origin, s.now, now);
  }

  // ------------------------------------------------------------------ and when not

  // A chunk that is written as soon as it may be, in full.
  function Sent(g: Grant, x: real): Grant {
    if !g.emitted && g.act <= x then g.(emitted := true, written := g.n) else g
  }

  // The first `n` chunks are sent as far as they are due.
  function SentUpTo(grants: seq<Grant>, n: nat, x: real): (sent: seq<Grant>)
    requires n <= |grants|
    ensures |sent| == |grants|
  {
    if n == 0 then grants else SentUpTo(grants, n - 1, x)[n - 1 := Sent(grants[n - 1], x)]
  }

  lemma {:induction false} SentUpToAt(grants: seq<Grant>, n: nat, x: real)
    requires n <= |grants|
    ensures forall k :: 0 <= k < n ==> SentUpTo(grants, n, x)[k] == Sent(grants[k], x)
    ensures forall k :: n <= k < |grants| ==> SentUpTo(grants, n, x)[k] == grants[k]
  {
    if n > 0 {
      SentUpToAt(grants, n - 1, x);
    }
  }

  lemma {:induction false} SendUpTo(s: State, t: State, n: nat) returns (t': State)
    requires Runs(s) && Later(s, t) && n <= |t.grants| && forall g :: g in t.grants ==> g.n >= 0
    ensures Later(s, t') && t' == t.(grants := SentUpTo(t.grants, n, t.now))
  {
    if n == 0 {
      t' := t;
    } else {
      var before := SendUpTo(s, t, n - 1);
      SentUpToAt(t.grants, n - 1, t.now);
      assert t.grants[n - 1] in t.grants;
      t' := before;
      if !t.grants[n - 1].emitted && t.grants[n - 1].act <= t.now {
        t' := LaterThen(s, before, Emit(n - 1, t.grants[n - 1].n));
      }
    }
  }

  lemma {:induction false} WrittenWhenSent(grants: seq<Grant>, sent: seq<Grant>, x: real, now: real)
    requires OnTime(grants, now) && |sent| == |grants|
    requires forall k :: 0 <= k < |grants| ==> sent[k] == Sent(grants[k], x)
    ensures Written(sent) == Written(grants) + Due(grants, x)
  {
    if grants != [] {
      var n := |grants| - 1;
      assert grants[n] in grants;
      WrittenWhenSent(grants[..n], sent[..n], x, now);
    }
  }

  // Everything that is due can be sent at once.
  lemma SendAll(s: State, t: State) returns (t': State)
    requires Runs(s) && Later(s, t) && OnTime(t.grants, t.now)
    ensures Later(s, t') && t'.now == t.now && Written(t'.grants) == Written(t.grants) + Due(t.grants, t.now)
  {
    t' := SendUpTo(s, t, |t.grants|);
    SentUpToAt(t.grants, |t.grants|, t.now);
    WrittenWhenSent(t.grants, t'.grants, t.now, t.now);
  }

  // Time passes until `x`, and then everything that is due is sent.
  lemma SendAt(s: State, t: State, x: real) returns (t': State)
    requires Runs(s) && Later(s, t) && OnTime(t.grants, t.now) && t.now <= x
    ensures Later(s, t') && t'.now == x && Written(t'.grants) == Written(t.grants) + Due(t.grants, x)
  {
    t' := LaterThen(s, t, Tick(x - t.now));
    assert t'.now == x;
    t' := SendAll(s, t');
  }

  // After `k` more chunks of one byte each.
  ghost predicate Loaded(s: State, t: State, k: nat) {
    && t.now == s.now && t.pending == [] && Runs(t) && OnTime(t.grants, t.now) && t.bucket.last <= t.now
    && Advanced(t.bucket, t.now) == Bucket(s.bucket.limit, s.bucket.burst, Tokens(s) - k as real, s.now)
    && Written(t.grants) == Written(s.grants) && Waiting(t.grants) == Waiting(s.grants) + k
  }

  // When the bucket has earned what `k` bytes more than its tokens cost.
  function LoadTime(s: State, k: nat): real
    requires s.bucket.limit > 0
  {
    ActTime(Bucket(s.bucket.limit, s.bucket.burst, Tokens(s) - k as real, s.now), s.now)
  }

  ghost predicate ActsBy(grants: seq<Grant>, x: real) { forall g :: g in grants && !g.emitted ==> g.act <= x }

  lemma NothingEarned(b: Bucket)
    requires b.tokens <= b.burst as real
    ensures Advanced(b, b.last) == b
  {}

  lemma TokensAtMostBurst(s: State)
    ensures Tokens(s) <= s.bucket.burst as real
  {}

  // A charge whose caller gets the lock as soon as it has read the clock.
  lemma ChargeAtOnce(s: State, t: State, n: int) returns (t': State)
    requires Runs(s) && Later(s, t) && t.pending == [] && 0 < n <= t.bucket.burst && t.bucket.last <= t.now
    ensures Runs(t) && Later(s, t') && t' == Taken(t, t.now, n)
  {
    var ready := LaterThen(s, t, Read(Charge(n)));
    t' := LaterThen(s, ready, Lock(0));
  }

  lemma TakenIsLoaded(s: State, t: State, k: nat)
    requires Quiet(s) && Loaded(s, t, k)
    ensures Loaded(s, Taken(t, t.now, 1), k + 1)
    ensures Taken(t, t.now, 1).grants == t.grants + [Grant(1, LoadTime(s, k + 1), false, 0)]
  {
    var t' := Taken(t, t.now, 1);
    assert t'.bucket == Bucket(s.bucket.limit, s.bucket.burst, Tokens(s) - (k + 1) as real, s.now);
    TokensAtMostBurst(s);
    NothingEarned(t'.bucket);
    assert t'.grants[..|t.grants|] == t.grants;
  }

  lemma LoadOne(s: State, t: State, k: nat) returns (t': State)
    requires Quiet(s) && Later(s, t) && Loaded(s, t, k)
    ensures Later(s, t') && Loaded(s, t', k + 1)
    ensures t'.grants == t.grants + [Grant(1, LoadTime(s, k + 1), false, 0)]
  {
    t' := ChargeAtOnce(s, t, 1);
    TakenIsLoaded(s, t, k);
  }

  lemma {:induction false} Load(s: State, k: nat, x: real) returns (t: State)
    requires Quiet(s) && ActsBy(s.grants, x) && forall j :: 0 < j <= k ==> LoadTime(s, j) <= x
    ensures Later(s, t) && Loaded(s, t, k) && ActsBy(t.grants, x)
  {
    if k == 0 {
      t := s;
      LaterAtOnce(s);
    } else {
      var before := Load(s, k - 1, x);
      t := LoadOne(s, before, k - 1);
    }
  }

  lemma {:induction false} AllDue(grants: seq<Grant>, x: real)
    requires ActsBy(grants, x)
    ensures Due(grants, x) == Waiting(grants)
  {
    if grants != [] {
      assert grants[|grants| - 1] in grants;
      AllDue(grants[..|grants| - 1], x);
    }
  }

  lemma {:induction false} LastAct(grants: seq<Grant>) returns (x: real)
    ensures ActsBy(grants, x)
  {
    if grants == [] {
      x := 0.0;
    } else {
      var n := |grants| - 1;
      var y := LastAct(grants[..n]);
      x := if y < grants[n].act then grants[n].act else y;
    }
  }

  lemma BigEnough(x: real, y: real) returns (k: nat)
    ensures k as real >= x && k as real >= y
  {
    var m := if x < y then y else x;
    k := if m < 0.0 then 0 else m.Floor + 1;
  }

  lemma LoadTimeEarns(s: State, k: nat)
    requires s.bucket.limit > 0 && Tokens(s) <= k as real
    ensures EarnedUntil(s, LoadTime(s, k)) == k as real - Tokens(s)
  {
    ActPays(Bucket(s.bucket.limit, s.bucket.burst, Tokens(s) - k as real, s.now), s.now);
  }

  lemma EarnsLater(s: State, x: real, y: real)
    requires s.bucket.limit > 0 && EarnedUntil(s, x) <= EarnedUntil(s, y)
    ensures x <= y
  {
    Cancel(s.bucket.limit as real, x - s.now, y - s.now);
  }

  // The more is loaded the later it may act.
  lemma LoadTimes(s: State, j: nat, k: nat)
    requires s.bucket.limit > 0 && j <= k && Tokens(s) <= k as real
    ensures LoadTime(s, j) <= LoadTime(s, k) && s.now <= LoadTime(s, k)
  {
    LoadTimeEarns(s, k);
    EarnsLater(s, s.now, LoadTime(s, k));
    if Tokens(s) < j as real {
      LoadTimeEarns(s, j);
      EarnsLater(s, LoadTime(s, j), LoadTime(s, k));
    }
  }

  // Enough to load that all of it acts after everything that waits.
  lemma LoadPast(s: State, x: real) returns (k: nat)
    requires s.bucket.limit > 0
    ensures x <= LoadTime(s, k) && Tokens(s) <= k as real
  {
    k := BigEnough(Tokens(s), Tokens(s) + EarnedUntil(s, x));
    LoadTimeEarns(s, k);
    EarnsLater(s, x, LoadTime(s, k));
  }

  // If every run keeps the rate, the waiting chunks leave room for the tokens.
  lemma RoomForTokens(s: State)
    requires Quiet(s) && forall t :: Later(s, t) ==> KeepsRate(s, t)
    ensures Waiting(s.grants) as real + Tokens(s) <= s.bucket.burst as real
  {
    var last := LastAct(s.grants);
    var k := LoadPast(s, last);
    var x := LoadTime(s, k);
    forall j | 0 < j <= k
      ensures LoadTime(s, j) <= x
    {
      LoadTimes(s, j, k);
    }
    LoadTimes(s, k, k);
    LoadTimeEarns(s, k);
    var t := Load(s, k, x);
    AllDue(t.grants, x);
    var t' := SendAt(s, t, x);
    assert KeepsRate(s, t');
  }

  lemma WaitingInTime(s: State, g: Grant)
    requires Quiet(s) && g in s.grants && forall t :: Later(s, t) ==> KeepsRate(s, t)
    ensures FitsAt(s, When(s, g))
  {
    LaterAtOnce(s);
    var t := SendAt(s, s, When(s, g));
    assert KeepsRate(s, t);
  }

  // ------------------------------------------------------------------ lowered rates

  // Pending readings and the bucket's are not ahead of the clock.
  ghost predicate Clocked(s: State) {
    s.bucket.last <= s.now && forall p :: p in s.pending ==> p.t <= s.now
  }

  lemma {:induction false} ExecuteKeepsClocked(s: State, events: seq<Event>)
    requires Runs(s) && Clocked(s)
    ensures Clocked(Execute(s, events))
    decreases |events|
  {
    if events != [] {
      StepKeepsClocked(s, events[0]);
      ExecuteKeepsClocked(Step(s, events[0]), events[1..]);
    }
  }

  lemma StepKeepsClocked(s: State, e: Event)
    requires Runs(s) && Clocked(s)
    ensures Clocked(Step(s, e))
  {
    if e.Lock? && e.i < |s.pending| {
      assert s.pending[e.i] in s.pending;
    }
  }

  lemma ReachableIsQuiet(rate: int, cap: int, at: real, s: State)
    requires 0 < rate <= cap && Reachable(rate, cap, at, s) && s.pending == []
    ensures Quiet(s)
  {
    ReachableInv(rate, cap, at, s);
    CreatedInv(rate, cap, at);
    FreshIsDrained(rate, BurstFor(rate), at);
    var start := Created(rate, cap, at);
    var events :| Execute(start, events) == s;
    ExecuteKeepsClocked(start, events);
  }

  // From any state of a run in which nobody waits for the lock, whatever rates were set
  // before: as long as the rate is not set again and operations come in order, at most
  // the burst and what the rate earns passes, in every run, exactly when the chunks
  // that still wait come due no faster and leave room for the tokens in the burst.
  lemma LoweredRateIff(rate: int, cap: int, at: real, s: State)
    requires 0 < rate <= cap && Reachable(rate, cap, at, s) && s.pending == []
    ensures Runs(s) && ((forall t :: Later(s, t) ==> KeepsRate(s, t)) <==> WaitingFits(s))
  {
    ReachableIsQuiet(rate, cap, at, s);
    if WaitingFits(s) {
      forall t | Later(s, t)
        ensures KeepsRate(s, t)
      {
        FittingKeepsRate(s, t);
      }
    }
    if forall t :: Later(s, t) ==> KeepsRate(s, t) {
      forall g | g in s.grants && !g.emitted
        ensures FitsAt(s, When(s, g))
      {
        WaitingInTime(s, g);
      }
      RoomForTokens(s);
    }
  }

  // So the bound holds at every rate once nothing waits.
  lemma NothingWaitsFits(s: State)
    requires forall g :: g in s.grants ==> g.emitted
    ensures WaitingFits(s)
  {
    NothingIsWaiting(s.grants);
    TokensAtMostBurst(s);
  }

  lemma {:induction false} NothingIsWaiting(grants: seq<Grant>)
    requires forall g :: g in grants ==> g.emitted
    ensures Waiting(grants) == 0
  {
    if grants != [] {
      assert grants[|grants| - 1] in grants;
      NothingIsWaiting(grants[..|grants| - 1]);
    }
  }

  // Lowering the rate does not hold back what was granted before: two waiting chunks
  // pass in two seconds although the limiter is at one byte per second all the time,
  // which is more than what that rate earns and its burst together.
  lemma LoweringLetsGrantsPass() returns (s: State, later: seq<Event>)
    ensures ReachablePromptly(65536, 65536, 0.0, 0.0, s)
    ensures s.now == 0.0 && s.bucket.limit == 1 && s.pending == [] && Written(s.grants) == 0
    ensures later == [Tick(2.0), Emit(0, 65536), Emit(1, 65536)] && Runs(s)
    ensures var t := Execute(s, later);
            t.now == 2.0 && Written(t.grants) as real > BurstFor(1) as real + 1.0 * t.now
  {
    s := Lowered();
    later := [Tick(2.0), Emit(0, 65536), Emit(1, 65536)];
    var t1 := Step(s, Tick(2.0));
    var t2 := Step(t1, Emit(0, 65536));
    var t3 := Step(t2, Emit(1, 65536));
    assert later[1..] == [Emit(0, 65536), Emit(1, 65536)] && later[1..][1..] == [Emit(1, 65536)];
    assert later[1..][1..][1..] == [];
    assert Execute(t3, []) == t3;
    assert s.grants[..1][..0] == [] && t3.grants[..1][..0] == [] && Written(t3.grants[..1]) == 65536;
  }

  lemma Lowered() returns (s: State)
    ensures ReachablePromptly(65536, 65536, 0.0, 0.0, s)
    ensures Runs(s) && s.now == 0.0 && s.bucket.limit == 1 && s.pending == []
    ensures s.grants == [Grant(65536, 1.0, false, 0), Grant(65536, 2.0, false, 0)]
  {
    s := TwoGrants();
    s := AtOnce(65536, 0.0, 0.0, s, SetLimit(1));
    assert s.bucket == Bucket(1, 65536, -131072.0, 0.0);
    s := AtOnce(65536, 0.0, 0.0, s, SetBurst(1));
    assert s.bucket == Bucket(1, 65536, -131072.0, 0.0);
    s := AtOnce(65536, 0.0, 0.0, s, Drain(1));
  }

  lemma TwoGrants() returns (s: State)
    ensures ReachablePromptly(65536, 65536, 0.0, 0.0, s)
    ensures s.now == s.drift == 0.0 && s.cap == 65536 && s.pending == []
    ensures s.bucket == Bucket(65536, 65536, -131072.0, 0.0)
    ensures s.grants == [Grant(65536, 1.0, false, 0), Grant(65536, 2.0, false, 0)]
  {
    s := OneGrant();
    s := Then(65536, 0.0, 0.0, s, Lock(0));
  }

  // Two connections read the clock, and one of them gets the lock.
  lemma OneGrant() returns (s: State)
    ensures ReachablePromptly(65536, 65536, 0.0, 0.0, s)
    ensures s == State(65536, 0.0, 0.0, Bucket(65536, 65536, -65536.0, 0.0), 0.0, [Pending(Charge(65536), 0.0)],
                       [Grant(65536, 1.0, false, 0)])
  {
    s := TwoReadings(65536, 0.0, 0.0, 0.0, 65536, 65536);
    assert BurstFor(65536) == 65536;
    s := Then(65536, 0.0, 0.0, s, Lock(0));
  }

  // --------------------------------------------------------------- dropped buckets

  // A bucket made for `rate` at time `at`, and how far its operations and its chunks
  // have come. A limiter that is disabled or closed drops its bucket, and makes a new
  // one when it is set to a rate again; chunks granted before, and callers that hold the
  // old bucket, go on.
  datatype Life = Life(rate: int, at: real, s: State)

  // The buckets of one limiter up to the present, the first one first.
  ghost predicate Lives(lives: seq<Life>, cap: int, now: real) {
    forall l :: l in lives ==> 0 < l.rate <= cap && Reachable(l.rate, cap, l.at, l.s) && l.s.now == now
  }

  function AllWritten(lives: seq<Life>): int {
    if lives == [] then 0 else Written(lives[0].s.grants) + AllWritten(lives[1..])
  }

  function Drifts(lives: seq<Life>): real {
    if lives == [] then 0.0 else lives[0].s.drift + Drifts(lives[1..])
  }

  // For how long a bucket was still charged after `next` was made.
  function Overlap(s: State, next: real): real { if next < s.bucket.last then s.bucket.last - next else 0.0 }

  function Overlaps(lives: seq<Life>): real {
    if |lives| < 2 then 0.0 else Overlap(lives[0].s, lives[1].at) + Overlaps(lives[1..])
  }

  // What a bucket was granted beyond what it earned.
  function Debt(s: State): real { if s.bucket.tokens < 0.0 then 0.0 - s.bucket.tokens else 0.0 }

  // The debts of the dropped buckets, which are all but the last.
  function Debts(lives: seq<Life>): real {
    if |lives| < 2 then 0.0 else Debt(lives[0].s) + Debts(lives[1..])
  }

  // What a rate earns in a span of time, and some debts.
  predicate LetsThrough(written: int, cap: int, span: real, debts: real) {
    written as real <= cap as real * span + debts
  }

  lemma DebtPays(s: State)
    requires Inv(s)
    ensures Written(s.grants) as real <= Earned(s.cap, Origin(s), s.bucket.last) + Debt(s)
  {
    WrittenAtMostCharged(s.grants, s.now);
  }

  // For how long a dropped bucket counts.
  function Share(l: Life, next: real): real { next - l.at + l.s.drift + Overlap(l.s, next) }

  lemma EarnedByShare(l: Life, cap: int, next: real)
    requires 0 < cap == l.s.cap && l.s.created == l.at
    ensures Earned(l.s.cap, Origin(l.s), l.s.bucket.last) <= cap as real * Share(l, next)
  {
    MoreTime(cap as real, l.s.bucket.last - Origin(l.s), Share(l, next));
  }

  // A dropped bucket lets through what it earned until the next one was made, and its
  // debt.
  lemma DroppedWithin(l: Life, cap: int, next: real)
    requires 0 < l.rate <= cap && Reachable(l.rate, cap, l.at, l.s)
    ensures LetsThrough(Written(l.s.grants), cap, Share(l, next), Debt(l.s))
  {
    ReachableInv(l.rate, cap, l.at, l.s);
    DebtPays(l.s);
    EarnedByShare(l, cap, next);
  }

  // The time since the first bucket was made, with what readings went back and how
  // long dropped buckets were still charged.
  function Span(lives: seq<Life>, now: real): real
    requires lives != []
  {
    now - lives[0].at + Drifts(lives) + Overlaps(lives)
  }

  lemma SpanOfOne(l: Life, now: real)
    ensures Span([l], now) == now - (l.at - l.s.drift) && AllWritten([l]) == Written(l.s.grants) && Debts([l]) == 0.0
  {
    assert [l][1..] == [] && Drifts([]) == 0.0 && AllWritten([]) == 0;
    assert Drifts([l]) == l.s.drift + Drifts([l][1..]);
  }

  lemma AddShares(cap: int, share: real, rest: real, mine: int, others: int, debt: real, debts: real)
    requires LetsThrough(mine, cap, share, debt) && LetsThrough(others, cap, rest, debts)
    ensures LetsThrough(mine + others, cap, share + rest, debt + debts)
  {
    Distribute(cap as real, share, rest);
  }

  lemma SpanOfMore(lives: seq<Life>, now: real)
    requires |lives| >= 2
    ensures Span(lives, now) == Share(lives[0], lives[1].at) + Span(lives[1..], now)
    ensures AllWritten(lives) == Written(lives[0].s.grants) + AllWritten(lives[1..])
    ensures Debts(lives) == Debt(lives[0].s) + Debts(lives[1..])
  {}

  // Over all buckets of a limiter the bytes that reached the underlying connections are
  // at most what the cap earns in that time, plus the debts that dropped buckets were
  // left with.
  lemma {:induction false} BytesOverBuckets(lives: seq<Life>, cap: int, now: real)
    requires lives != [] && Lives(lives, cap, now)
    ensures LetsThrough(AllWritten(lives), cap, Span(lives, now), Debts(lives))
  {
    var l := lives[0];
    assert l in lives;
    if |lives| == 1 {
      BytesWithinRate(l.rate, cap, l.at, l.s);
      assert lives == [l];
      SpanOfOne(l, now);
    } else {
      DroppedWithin(l, cap, lives[1].at);
      BytesOverBuckets(lives[1..], cap, now);
      SpanOfMore(lives, now);
      AddShares(cap, Share(l, lives[1].at), Span(lives[1..], now), Written(l.s.grants), AllWritten(lives[1..]),
                Debt(l.s), Debts(lives[1..]));
    }
  }

  // For example, a limiter at 65536 bytes per second is closed and opened again while
  // two chunks wait, and grants two more: all four pass within two seconds, twice what
  // the rate earns, and as much as the debt allows.
  lemma ReopeningLetsGrantsPass() returns (lives: seq<Life>)
    ensures Lives(lives, 65536, 2.0) && |lives| == 2 && lives[0].at == lives[1].at == 0.0
    ensures Span(lives, 2.0) == 2.0 && Debts(lives) == 131072.0
    ensures AllWritten(lives) == 262144 && 65536.0 * Span(lives, 2.0) + Debts(lives) == 262144.0
  {
    var s := TwoWritten();
    var life := Life(65536, 0.0, s);
    lives := [life, life];
    assert lives[1..] == [life];
    SpanOfOne(life, 2.0);
    SpanOfMore(lives, 2.0);
    assert Reachable(65536, 65536, 0.0, s);
  }

  lemma TwoWritten() returns (s: State)
    ensures ReachablePromptly(65536, 65536, 0.0, 0.0, s) && s.now == 2.0 && s.drift == 0.0
    ensures s.bucket == Bucket(65536, 65536, -131072.0, 0.0) && Written(s.grants) == 131072
  {
    s := TwoGrants();
    s := Then(65536, 0.0, 0.0, s, Tick(2.0));
    s := Then(65536, 0.0, 0.0, s, Emit(0, 65536));
    s := Then(65536, 0.0, 0.0, s, Emit(1, 65536));
    WrittenOfTwo(Grant(65536, 1.0, true, 65536), Grant(65536, 2.0, true, 65536));
  }
}
