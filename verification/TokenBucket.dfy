/**
 The token bucket of golang.org/x/time/rate, as far as the agent uses it, with
 tokens and seconds as real numbers: a reservation may leave the bucket negative
 and is then told to act later. Advancing to a reading of the clock that is older
 than the last one earns nothing but still moves the last reading back.
 */
module TokenBucket {

  datatype Bucket = Bucket(limit: int, burst: int, tokens: real, last: real)

  function Min(a: real, b: real): real { if a < b then a else b }

  // A new bucket is full, and remembers no reading of the clock.
  function Full(limit: int, burst: int): Bucket { Bucket(limit, burst, burst as real, 0.0) }

  function Advanced(b: Bucket, t: real): Bucket {
    var elapsed := if t < b.last then 0.0 else t - b.last;
    b.(tokens := Min(b.tokens + b.limit as real * elapsed, b.burst as real), last := t)
  }

  function Reserved(b: Bucket, t: real, n: int): Bucket {
    var a := Advanced(b, t);
    a.(tokens := a.tokens - n as real)
  }

  // When a reservation made at reading `t` may act, given the bucket it left.
  function ActTime(after: Bucket, t: real): real
    requires after.limit > 0
  {
    if after.tokens < 0.0 then t + (0.0 - after.tokens) / after.limit as real else t
  }

  // AllowN: take the tokens now or not at all.
  function Allowed(b: Bucket, t: real, n: int): Bucket {
    if n <= b.burst && Reserved(b, t, n).tokens >= 0.0 then Reserved(b, t, n) else b
  }

  function WithLimit(b: Bucket, t: real, limit: int): Bucket { Advanced(b, t).(limit := limit) }

  function WithBurst(b: Bucket, t: real, burst: int): Bucket { Advanced(b, t).(burst := burst) }

  // A bucket that does not fill up earns at the old rate until a new one is set, and at
  // the new one from then on.
  lemma EarnsAtBothRates(b: Bucket, t: real, limit: int, u: real)
    requires b.last <= t <= u && b.limit > 0 && limit > 0
    requires b.tokens + b.limit as real * (t - b.last) + limit as real * (u - t) <= b.burst as real
    ensures Advanced(WithLimit(b, t, limit), u).tokens
            == b.tokens + b.limit as real * (t - b.last) + limit as real * (u - t)
  {
    assert limit as real * (u - t) >= 0.0;
  }

  // A bucket never has more than its burst, and a smaller burst cuts it down as soon as
  // the clock is read again.
  lemma AtMostBurst(b: Bucket, t: real, burst: int, u: real)
    ensures Advanced(b, t).tokens <= b.burst as real
    ensures Advanced(WithBurst(b, t, burst), u).tokens <= burst as real
  {}
}

/**
 The byte bound of one limiter, over every interleaving of the connections that
 share it with changes of its rate. An operation reads the clock, later gets the
 bucket's lock, and a granted chunk is written once its act time has come.
 */
module RateBound {
  import opened TokenBucket
  import opened Int64

  // What a caller wants from the bucket: a chunk of a write, or one of the three
  // operations by which the limiter is set to a rate.
  datatype Op = Charge(n: int) | SetLimit(rate: int) | SetBurst(rate: int) | Drain(rate: int)

  // An operation whose caller has read the clock but does not hold the lock yet.
  datatype Pending = Pending(op: Op, t: real)

  // A granted chunk and how much of it has reached the underlying connection.
  datatype Grant = Grant(n: int, act: real, emitted: bool, written: int)

  // No rate of the run is above `cap`. `drift` adds up by how much operations moved
  // the bucket's clock back.
  datatype State = State(cap: int, created: real, now: real, bucket: Bucket, drift: real,
                         pending: seq<Pending>, grants: seq<Grant>)

  datatype Event =
    | Tick(d: real)
    | Read(op: Op)
    | Lock(i: nat)
    | Emit(i: nat, m: int)

  // A limiter made at time `at`: SetRate drains the full bucket at once.
  function Created(rate: int, cap: int, at: real): State {
    State(cap, at, at, Allowed(Full(rate, BurstFor(rate)), at, BurstFor(rate)), 0.0, [], [])
  }

  predicate InRange(op: Op, cap: int) { op.SetLimit? ==> 0 < op.rate <= cap }

  function Back(b: Bucket, t: real): real { if t < b.last then b.last - t else 0.0 }

  predicate CanTake(b: Bucket, t: real, n: int) { n <= b.burst && Reserved(b, t, n).tokens >= 0.0 }

  function Moved(s: State, b: Bucket, t: real): State { s.(bucket := b, drift := s.drift + Back(s.bucket, t)) }

  // A chunk of `n` bytes reserved at reading `t`.
  function Taken(s: State, t: real, n: int): State
    requires s.bucket.limit > 0
  {
    var b := Reserved(s.bucket, t, n);
    Moved(s, b, t).(grants := s.grants + [Grant(n, ActTime(b, t), false, 0)])
  }

  // The effect of a pending operation once it holds the lock.
  function Locked(s: State, p: Pending): State
    requires s.bucket.limit > 0
  {
    match p.op
    case SetLimit(rate) => Moved(s, WithLimit(s.bucket, p.t, rate), p.t)
    case SetBurst(rate) => Moved(s, WithBurst(s.bucket, p.t, BurstFor(rate)), p.t)
    case Drain(rate) =>
      if CanTake(s.bucket, p.t, BurstFor(rate)) then Moved(s, Reserved(s.bucket, p.t, BurstFor(rate)), p.t) else s
    // WaitN refuses a chunk beyond the burst; no chunk of a write is.
    case Charge(n) => if n <= 0 || n > s.bucket.burst then s else Taken(s, p.t, n)
  }

  // Every operation does to the bucket what the library's function of that name does,
  // and only a charge is granted anything: it is what it asked for, and may act when the
  // bucket has earned what it owes.
  lemma LockedIs(s: State, p: Pending)
    requires s.bucket.limit > 0
    ensures var s' := Locked(s, p);
            match p.op
            case SetLimit(rate) => s'.bucket == WithLimit(s.bucket, p.t, rate) && s'.grants == s.grants
            case SetBurst(rate) => s'.bucket == WithBurst(s.bucket, p.t, BurstFor(rate)) && s'.grants == s.grants
            case Drain(rate) => s'.bucket == Allowed(s.bucket, p.t, BurstFor(rate)) && s'.grants == s.grants
            case Charge(n) =>
              if 0 < n <= s.bucket.burst then
                && s'.bucket == Reserved(s.bucket, p.t, n)
                && s'.grants == s.grants + [Grant(n, ActTime(s'.bucket, p.t), false, 0)]
              else s' == s
  {}

  function Step(s: State, e: Event): State
    requires Runs(s)
    ensures Runs(Step(s, e)) && Step(s, e).cap == s.cap && Step(s, e).created == s.created
  {
    match e
    case Tick(d) => if d < 0.0 then s else s.(now := s.now + d)
    case Read(op) => if InRange(op, s.cap) then s.(pending := s.pending + [Pending(op, s.now)]) else s
    case Lock(i) =>
      if i >= |s.pending| then s
      else Locked(s, s.pending[i]).(pending := s.pending[..i] + s.pending[i + 1..])
    case Emit(i, m) =>
      if i < |s.grants| && !s.grants[i].emitted && s.grants[i].act <= s.now && 0 <= m <= s.grants[i].n
      then s.(grants := s.grants[i := s.grants[i].(emitted := true, written := m)])
      else s
  }

  // The bucket's limit and those that are about to be set are within the cap.
  predicate Runs(s: State) {
    0 < s.bucket.limit <= s.cap && forall i :: 0 <= i < |s.pending| ==> InRange(s.pending[i].op, s.cap)
  }

  function Execute(s: State, events: seq<Event>): State
    requires Runs(s)
    decreases |events|
  {
    if events == [] then s else Execute(Step(s, events[0]), events[1..])
  }

  // Bytes granted, and bytes that reached the underlying connections.
  function Charged(grants: seq<Grant>): int {
    if grants == [] then 0 else Charged(grants[..|grants| - 1]) + grants[|grants| - 1].n
  }

  function Written(grants: seq<Grant>): int {
    if grants == [] then 0 else Written(grants[..|grants| - 1]) + grants[|grants| - 1].written
  }

  // The time from which the rate counts: drift makes it earlier.
  function Origin(s: State): real { s.created - s.drift }

  // No grant may act before the rate, counted from `origin`, allows everything
  // granted up to it.
  ghost predicate Within(grants: seq<Grant>, rate: real, origin: real) {
    grants == [] ||
    (Within(grants[..|grants| - 1], rate, origin)
     && Charged(grants) as real <= rate * (grants[|grants| - 1].act - origin))
  }

  // The same chunks with the same act times.
  ghost predicate SameTerms(g: seq<Grant>, h: seq<Grant>) {
    |g| == |h| && forall k :: 0 <= k < |g| ==> g[k].n == h[k].n && g[k].act == h[k].act
  }

  // Nothing was written before its act time, nor more than was granted.
  ghost predicate OnTime(grants: seq<Grant>, now: real) {
    forall g :: g in grants ==> 0 <= g.written <= g.n && (g.written > 0 ==> g.emitted && g.act <= now)
  }

  ghost predicate Sane(s: State) {
    Runs(s) && s.bucket.burst > 0 && s.drift >= 0.0 && s.created <= s.now && OnTime(s.grants, s.now)
  }

  // What a rate earns between two moments.
  function Earned(rate: int, from: real, to: real): real { rate as real * (to - from) }

  // Charges and tokens left never exceed what the cap has earned.
  ghost predicate Covered(s: State) {
    Charged(s.grants) as real + s.bucket.tokens <= Earned(s.cap, Origin(s), s.bucket.last)
  }

  ghost predicate Inv(s: State) {
    Sane(s) && Covered(s) && Within(s.grants, s.cap as real, Origin(s))
  }

  lemma Distribute(r: real, x: real, y: real)
    ensures r * (x + y) == r * x + r * y
  {}

  lemma MoreTime(r: real, x: real, y: real)
    requires r >= 0.0 && x <= y
    ensures r * x <= r * y
  {}

  lemma Pay(r: real, debt: real)
    requires r > 0.0
    ensures r * (debt / r) == debt
  {}

  lemma Faster(r: real, cap: real, x: real)
    requires r <= cap && x >= 0.0
    ensures r * x <= cap * x
  {}

  // What the cap earns up to the bucket's last reading grows by at least what
  // advancing adds: a reading that goes back is paid for by the drift.
  lemma AdvanceEarns(b: Bucket, t: real, origin: real, cap: int)
    requires 0 < b.limit <= cap
    ensures Advanced(b, t).tokens + Earned(cap, origin, b.last) <= b.tokens + Earned(cap, origin - Back(b, t), t)
  {
    var elapsed := if t < b.last then 0.0 else t - b.last;
    Faster(b.limit as real, cap as real, elapsed);
    Distribute(cap as real, b.last - origin, elapsed);
    assert t - (origin - Back(b, t)) == (b.last - origin) + elapsed;
  }

  // A grant may act when the cap allows everything granted up to it.
  lemma ActIsAllowed(charged: real, b: Bucket, t: real, origin: real, cap: int)
    requires 0 < b.limit <= cap && charged + b.tokens <= cap as real * (t - origin)
    ensures charged <= cap as real * (ActTime(b, t) - origin)
  {
    if b.tokens < 0.0 {
      var wait := (0.0 - b.tokens) / b.limit as real;
      Pay(b.limit as real, 0.0 - b.tokens);
      Faster(b.limit as real, cap as real, wait);
      Distribute(cap as real, t - origin, wait);
      assert t + wait - origin == (t - origin) + wait;
    }
  }

  lemma {:induction false} EarlierOrigin(grants: seq<Grant>, rate: real, origin: real, earlier: real)
    requires rate > 0.0 && earlier <= origin && Within(grants, rate, origin)
    ensures Within(grants, rate, earlier)
  {
    if grants != [] {
      var act := grants[|grants| - 1].act;
      MoreTime(rate, act - origin, act - earlier);
      EarlierOrigin(grants[..|grants| - 1], rate, origin, earlier);
    }
  }

  lemma {:induction false} SameGrants(g: seq<Grant>, h: seq<Grant>, rate: real, origin: real)
    requires SameTerms(g, h)
    ensures Charged(g) == Charged(h)
    ensures Within(g, rate, origin) ==> Within(h, rate, origin)
  {
    if g != [] {
      SameGrants(g[..|g| - 1], h[..|h| - 1], rate, origin);
    }
  }

  // A bucket that an operation may leave behind at reading `t`.
  predicate Follows(s: State, b: Bucket, t: real) {
    0 < b.limit <= s.cap && b.burst > 0 && b.last == t && b.tokens <= Advanced(s.bucket, t).tokens
  }

  lemma MovedIsCovered(s: State, b: Bucket, t: real)
    requires Sane(s) && Covered(s) && Follows(s, b, t)
    ensures Covered(Moved(s, b, t))
  {
    AdvanceEarns(s.bucket, t, Origin(s), s.cap);
    var s' := Moved(s, b, t);
    assert Origin(s') == Origin(s) - Back(s.bucket, t) && s'.bucket.last == t;
    assert Earned(s'.cap, Origin(s'), s'.bucket.last) == Earned(s.cap, Origin(s) - Back(s.bucket, t), t);
  }

  lemma MovedKeepsInv(s: State, b: Bucket, t: real)
    requires Inv(s) && Follows(s, b, t)
    ensures Inv(Moved(s, b, t))
  {
    MovedIsCovered(s, b, t);
    EarlierOrigin(s.grants, s.cap as real, Origin(s), s.created - (s.drift + Back(s.bucket, t)));
  }

  lemma ChunkKeepsInv(s: State, t: real, n: int)
    requires Inv(s) && 0 < n
    ensures Inv(Taken(s, t, n))
  {
    var b := Reserved(s.bucket, t, n);
    MovedKeepsInv(s, Advanced(s.bucket, t), t);
    GrantKeepsInv(Moved(s, Advanced(s.bucket, t), t), b, n);
  }

  // The tokens of a chunk leave the bucket and the chunk joins the grants.
  lemma GrantKeepsInv(s: State, b: Bucket, n: int)
    requires Inv(s) && 0 < n && b == s.bucket.(tokens := s.bucket.tokens - n as real)
    ensures Inv(s.(bucket := b, grants := s.grants + [Grant(n, ActTime(b, b.last), false, 0)]))
  {
    var grants := s.grants + [Grant(n, ActTime(b, b.last), false, 0)];
    assert grants[..|s.grants|] == s.grants;
    GrantIsWithin(grants, b, Origin(s), s.cap);
  }

  lemma GrantIsWithin(grants: seq<Grant>, b: Bucket, origin: real, cap: int)
    requires grants != [] && 0 < b.limit <= cap && Within(grants[..|grants| - 1], cap as real, origin)
    requires grants[|grants| - 1].act == ActTime(b, b.last)
    requires Charged(grants) as real + b.tokens <= cap as real * (b.last - origin)
    ensures Within(grants, cap as real, origin)
  {
    ActIsAllowed(Charged(grants) as real, b, b.last, origin, cap);
  }

  lemma EmitKeepsInv(s: State, i: nat, m: int)
    requires Inv(s) && i < |s.grants|
    ensures Inv(Step(s, Emit(i, m)))
  {
    EmitStaysOnTime(s, i, m);
    RegrantKeepsInv(s, Step(s, Emit(i, m)).grants);
  }

  lemma RegrantKeepsInv(s: State, h: seq<Grant>)
    requires Inv(s) && OnTime(h, s.now)
    requires SameTerms(s.grants, h)
    ensures Inv(s.(grants := h))
  {
    SameGrants(s.grants, h, s.cap as real, Origin(s));
    SameChargeIsCovered(s, h);
  }

  lemma SameChargeIsCovered(s: State, h: seq<Grant>)
    requires Covered(s) && Charged(h) == Charged(s.grants)
    ensures Covered(s.(grants := h))
  {}

  lemma EmitStaysOnTime(s: State, i: nat, m: int)
    requires i < |s.grants| && OnTime(s.grants, s.now) && Runs(s)
    ensures OnTime(Step(s, Emit(i, m)).grants, s.now)
  {
    var grants := Step(s, Emit(i, m)).grants;
    forall g | g in grants
      ensures 0 <= g.written <= g.n && (g.written > 0 ==> g.emitted && g.act <= s.now)
    {
      var k :| 0 <= k < |grants| && grants[k] == g;
      assert s.grants[k] in s.grants;
    }
  }

  lemma LockKeepsInv(s: State, p: Pending)
    requires Inv(s) && InRange(p.op, s.cap)
    ensures Inv(Locked(s, p))
  {
    match p.op
    case SetLimit(rate) => MovedKeepsInv(s, WithLimit(s.bucket, p.t, rate), p.t);
    case SetBurst(rate) => MovedKeepsInv(s, WithBurst(s.bucket, p.t, BurstFor(rate)), p.t);
    case Drain(rate) =>
      if CanTake(s.bucket, p.t, BurstFor(rate)) {
        MovedKeepsInv(s, Reserved(s.bucket, p.t, BurstFor(rate)), p.t);
      }
    case Charge(n) =>
      if 0 < n <= s.bucket.burst {
        ChunkKeepsInv(s, p.t, n);
      }
  }

  lemma StepKeepsInv(s: State, e: Event)
    requires Inv(s)
    ensures Inv(Step(s, e))
  {
    match e
    case Tick(d) =>
      if d >= 0.0 {
        LaterKeepsInv(s, s.now + d);
      }
    case Read(op) =>
      if InRange(op, s.cap) {
        PendingKeepsInv(s, s.pending + [Pending(op, s.now)]);
      }
    case Lock(i) =>
      if i < |s.pending| {
        LockKeepsInv(s, s.pending[i]);
        PendingKeepsInv(Locked(s, s.pending[i]), s.pending[..i] + s.pending[i + 1..]);
      }
    case Emit(i, m) =>
      if i < |s.grants| {
        EmitKeepsInv(s, i, m);
      }
  }

  lemma LaterKeepsInv(s: State, now: real)
    requires Inv(s) && s.now <= now
    ensures Inv(s.(now := now))
  {}

  lemma PendingKeepsInv(s: State, pending: seq<Pending>)
    requires Inv(s) && forall i :: 0 <= i < |pending| ==> InRange(pending[i].op, s.cap)
    ensures Inv(s.(pending := pending))
  {}

  lemma {:induction false} ExecuteKeepsInv(s: State, events: seq<Event>)
    requires Inv(s)
    ensures Inv(Execute(s, events))
    ensures Execute(s, events).cap == s.cap && Execute(s, events).created == s.created
    decreases |events|
  {
    if events != [] {
      StepKeepsInv(s, events[0]);
      ExecuteKeepsInv(Step(s, events[0]), events[1..]);
    }
  }

  // A new bucket is full; taking its burst at once leaves it empty.
  lemma FreshIsDrained(limit: int, burst: int, now: real)
    requires limit > 0 && burst >= 0
    ensures Allowed(Full(limit, burst), now, burst) == Bucket(limit, burst, 0.0, now)
  {
    var b := Full(limit, burst);
    MoreTime(limit as real, 0.0, if now < b.last then 0.0 else now - b.last);
  }

  lemma CreatedInv(rate: int, cap: int, at: real)
    requires 0 < rate <= cap
    ensures Inv(Created(rate, cap, at))
  {
    FreshIsDrained(rate, BurstFor(rate), at);
  }

  // Bytes written, given that every grant that wrote has come to its act time.
  lemma {:induction false} WrittenIsAllowed(grants: seq<Grant>, rate: real, origin: real, now: real)
    requires rate > 0.0 && Within(grants, rate, origin) && OnTime(grants, now)
    ensures Written(grants) == 0 || Written(grants) as real <= rate * (now - origin)
  {
    if grants != [] {
      var last := grants[|grants| - 1];
      assert last in grants;
      if last.written > 0 {
        WrittenAtMostCharged(grants, now);
        MoreTime(rate, last.act - origin, now - origin);
      } else {
        WrittenIsAllowed(grants[..|grants| - 1], rate, origin, now);
      }
    }
  }

  lemma {:induction false} WrittenAtMostCharged(grants: seq<Grant>, now: real)
    requires OnTime(grants, now)
    ensures Written(grants) <= Charged(grants)
  {
    if grants != [] {
      assert grants[|grants| - 1] in grants;
      WrittenAtMostCharged(grants[..|grants| - 1], now);
    }
  }

  // ------------------------------------------------------------------ the bound

  // The operation's caller read the clock at most `eps` before the bucket's last
  // reading.
  predicate Prompt(s: State, e: Event, eps: real) {
    e.Lock? && e.i < |s.pending| ==> s.bucket.last - s.pending[e.i].t <= eps
  }

  ghost predicate AllPrompt(s: State, events: seq<Event>, eps: real)
    requires Runs(s)
    decreases |events|
  {
    events == [] || (Prompt(s, events[0], eps) && AllPrompt(Step(s, events[0]), events[1..], eps))
  }

  // Some run leads to `s`, from a limiter made for `rate` at time `at`.
  ghost predicate Reachable(rate: int, cap: int, at: real, s: State)
    requires 0 < rate <= cap
  {
    CreatedInv(rate, cap, at);
    var start := Created(rate, cap, at);
    exists events :: Execute(start, events) == s
  }

  // The same with operations that are late by at most `eps`.
  ghost predicate ReachablePromptly(rate: int, cap: int, at: real, eps: real, s: State)
    requires 0 < rate <= cap
  {
    CreatedInv(rate, cap, at);
    var start := Created(rate, cap, at);
    exists events :: AllPrompt(start, events, eps) && Execute(start, events) == s
  }

  predicate KeepsBound(s: State, rate: int, at: real) { Written(s.grants) as real <= rate as real * (s.now - at) }

  lemma ReachableInv(rate: int, cap: int, at: real, s: State)
    requires 0 < rate <= cap && Reachable(rate, cap, at, s)
    ensures Inv(s) && s.cap == cap && s.created == at
  {
    CreatedInv(rate, cap, at);
    var start := Created(rate, cap, at);
    var events :| Execute(start, events) == s;
    ExecuteKeepsInv(start, events);
  }

  // Whatever connections share the limiter, however its rate changes up to `cap` and
  // however all steps interleave, the bytes that reached the underlying connections
  // are at most the cap times the time since the limiter was made, with no initial
  // burst, plus the cap times the drift of the clock readings.
  lemma BytesWithinRate(rate: int, cap: int, at: real, s: State)
    requires 0 < rate <= cap && Reachable(rate, cap, at, s)
    ensures Written(s.grants) as real <= cap as real * (s.now - (at - s.drift))
  {
    ReachableInv(rate, cap, at, s);
    WrittenIsAllowed(s.grants, cap as real, Origin(s), s.now);
    MoreTime(cap as real, 0.0, s.now - Origin(s));
  }

  lemma {:induction false} NoDriftInOrder(s: State, events: seq<Event>, eps: real)
    requires Runs(s) && s.drift == 0.0 && eps <= 0.0 && AllPrompt(s, events, eps)
    ensures Execute(s, events).drift == 0.0
    decreases |events|
  {
    if events != [] {
      NoDriftInOrder(Step(s, events[0]), events[1..], eps);
    }
  }

  // When no operation is late, at most cap * elapsed bytes pass.
  lemma BytesWithinRateInOrder(rate: int, cap: int, at: real, s: State)
    requires 0 < rate <= cap && ReachablePromptly(rate, cap, at, 0.0, s)
    ensures KeepsBound(s, cap, at)
  {
    InOrderWithin(rate, cap, at, 0.0, s);
  }

  lemma InOrderWithin(rate: int, cap: int, at: real, eps: real, s: State)
    requires 0 < rate <= cap && eps <= 0.0 && ReachablePromptly(rate, cap, at, eps, s)
    ensures KeepsBound(s, cap, at)
  {
    CreatedInv(rate, cap, at);
    var start := Created(rate, cap, at);
    var events :| AllPrompt(start, events, eps) && Execute(start, events) == s;
    NoDriftInOrder(start, events, eps);
    assert Reachable(rate, cap, at, s);
    BytesWithinRate(rate, cap, at, s);
    assert at - s.drift == at;
  }

  lemma {:induction false} ExecuteThen(s: State, events: seq<Event>, e: Event, eps: real)
    requires Runs(s) && AllPrompt(s, events, eps)
    ensures Runs(Execute(s, events)) && Execute(s, events + [e]) == Step(Execute(s, events), e)
    ensures Prompt(Execute(s, events), e, eps) ==> AllPrompt(s, events + [e], eps)
    decreases |events|
  {
    if events == [] {
      assert [e][1..] == [];
      assert Execute(Step(s, e), []) == Step(s, e);
    } else {
      assert (events + [e])[1..] == events[1..] + [e];
      ExecuteThen(Step(s, events[0]), events[1..], e, eps);
    }
  }

  // One more step of a run.
  lemma Then(rate: int, at: real, eps: real, s: State, e: Event) returns (s': State)
    requires rate > 0 && ReachablePromptly(rate, rate, at, eps, s)
    requires Runs(s) ==> Prompt(s, e, eps)
    ensures Runs(s) && s' == Step(s, e) && ReachablePromptly(rate, rate, at, eps, s')
  {
    CreatedInv(rate, rate, at);
    var start := Created(rate, rate, at);
    var events :| AllPrompt(start, events, eps) && Execute(start, events) == s;
    ExecuteThen(start, events, e, eps);
    s' := Step(s, e);
  }

  // --------------------------------------------------------------- late readings

  // An operation that gets the lock as soon as it has read the clock.
  lemma AtOnce(rate: int, at: real, eps: real, s: State, op: Op) returns (s': State)
    requires rate > 0 && ReachablePromptly(rate, rate, at, eps, s)
    requires s.pending == [] && InRange(op, s.cap) && s.bucket.last - s.now <= eps
    ensures Runs(s) && ReachablePromptly(rate, rate, at, eps, s')
    ensures s' == Locked(s, Pending(op, s.now)).(pending := [])
  {
    s' := Then(rate, at, eps, s, Read(op));
    s' := Then(rate, at, eps, s', Lock(0));
    assert Locked(s.(pending := [Pending(op, s.now)]), Pending(op, s.now)).(pending := [])
        == Locked(s, Pending(op, s.now)).(pending := []);
  }

  lemma Earns(r: real, x: real)
    requires r > 0.0 && x > 0.0
    ensures r * x > 0.0
  {}

  lemma Cancel(r: real, x: real, y: real)
    requires r > 0.0 && r * x <= r * y
    ensures x <= y
  {
    if y < x {
      Earns(r, x - y);
      Distribute(r, y, x - y);
    }
  }

  // A connection reads the clock, and `d` later a second one does.
  lemma TwoReadings(rate: int, at: real, eps: real, d: real, m: int, n: int) returns (s: State)
    requires rate > 0 && d >= 0.0
    ensures ReachablePromptly(rate, rate, at, eps, s)
    ensures s == State(rate, at, at + d, Bucket(rate, BurstFor(rate), 0.0, at), 0.0,
                       [Pending(Charge(m), at), Pending(Charge(n), at + d)], [])
  {
    CreatedInv(rate, rate, at);
    FreshIsDrained(rate, BurstFor(rate), at);
    s := Created(rate, rate, at);
    assert AllPrompt(s, [], eps) && Execute(s, []) == s;
    s := Then(rate, at, eps, s, Read(Charge(m)));
    s := Then(rate, at, eps, s, Tick(d));
    s := Then(rate, at, eps, s, Read(Charge(n)));
  }

  // When each of the two charges one byte may act, if the second gets the lock first
  // and `x` is what the rate earns in `d`.
  function FirstAct(rate: int, at: real, d: real, x: real): real
    requires rate > 0
  {
    ActTime(Bucket(rate, BurstFor(rate), x - 1.0, at + d), at + d)
  }

  function SecondAct(rate: int, at: real, x: real): real
    requires rate > 0
  {
    ActTime(Bucket(rate, BurstFor(rate), x - 2.0, at), at)
  }

  lemma ActTimes(rate: int, at: real, d: real, x: real)
    requires rate > 0 && d > 0.0 && x == rate as real * d && x <= 1.0
    ensures FirstAct(rate, at, d, x) <= SecondAct(rate, at, x) && at + d <= SecondAct(rate, at, x)
  {
    FirstActPays(rate, at, d, x);
    SecondActPays(rate, at, x);
    Waits(rate as real, d, x, FirstAct(rate, at, d, x) - (at + d), SecondAct(rate, at, x) - at);
  }

  lemma FirstActPays(rate: int, at: real, d: real, x: real)
    requires rate > 0 && x <= 1.0
    ensures rate as real * (FirstAct(rate, at, d, x) - (at + d)) == 1.0 - x
  {
    ActPays(Bucket(rate, BurstFor(rate), x - 1.0, at + d), at + d);
  }

  lemma SecondActPays(rate: int, at: real, x: real)
    requires rate > 0 && x <= 1.0
    ensures rate as real * (SecondAct(rate, at, x) - at) == 2.0 - x
  {
    ActPays(Bucket(rate, BurstFor(rate), x - 2.0, at), at);
  }

  // The wait earns what the bucket owes.
  lemma ActPays(b: Bucket, t: real)
    requires b.limit > 0 && b.tokens <= 0.0
    ensures b.limit as real * (ActTime(b, t) - t) == 0.0 - b.tokens
  {
    Pay(b.limit as real, 0.0 - b.tokens);
  }

  lemma Waits(r: real, d: real, x: real, less: real, wait: real)
    requires r > 0.0 && d > 0.0 && x == r * d && x <= 1.0 && r * less == 1.0 - x && r * wait == 2.0 - x
    ensures d + less <= wait && d <= wait
  {
    Earns(r, d);
    Distribute(r, d, less);
    Cancel(r, d + less, wait);
    Cancel(r, d, wait);
  }

  // The one that read the clock first gets the lock last, late by `d`.
  lemma LateLock(rate: int, at: real, eps: real, d: real) returns (s: State)
    requires rate > 0 && 0.0 < d <= eps && rate as real * d <= 1.0
    ensures ReachablePromptly(rate, rate, at, eps, s) && s.now == at + d && s.drift == d
    ensures s.grants == [Grant(1, FirstAct(rate, at, d, rate as real * d), false, 0),
                         Grant(1, SecondAct(rate, at, rate as real * d), false, 0)]
  {
    var x := rate as real * d;
    s := TwoReadings(rate, at, eps, d, 1, 1);
    s := Then(rate, at, eps, s, Lock(1));
    assert s.bucket == Bucket(rate, BurstFor(rate), x - 1.0, at + d);
    s := Then(rate, at, eps, s, Lock(0));
    assert s.bucket == Bucket(rate, BurstFor(rate), x - 2.0, at);
  }

  lemma LateWrites(rate: int, at: real, eps: real, d: real) returns (s: State)
    requires rate > 0 && 0.0 < d <= eps && rate as real * d <= 1.0
    ensures ReachablePromptly(rate, rate, at, eps, s)
    ensures s.now == SecondAct(rate, at, rate as real * d) && Written(s.grants) == 2
  {
    var x := rate as real * d;
    ActTimes(rate, at, d, x);
    var first, second := FirstAct(rate, at, d, x), SecondAct(rate, at, x);
    s := LateLock(rate, at, eps, d);
    s := Then(rate, at, eps, s, Tick(second - s.now));
    s := Then(rate, at, eps, s, Emit(0, 1));
    s := Then(rate, at, eps, s, Emit(1, 1));
    WrittenOfTwo(Grant(1, first, false, 1), Grant(1, second, false, 1));
  }

  lemma WrittenOfTwo(a: Grant, b: Grant)
    ensures Written([a, b]) == a.written + b.written
  {
    assert [a, b][..1] == [a] && Written([a]) == Written([a][..0]) + a.written;
  }

  lemma LateBreaksBound(rate: int, at: real, eps: real, d: real) returns (s: State)
    requires rate > 0 && 0.0 < d <= eps && rate as real * d <= 1.0
    ensures ReachablePromptly(rate, rate, at, eps, s) && !KeepsBound(s, rate, at)
  {
    Earns(rate as real, d);
    SecondActPays(rate, at, rate as real * d);
    s := LateWrites(rate, at, eps, d);
  }

  // A limiter at a fixed rate keeps the bound rate * elapsed in every run exactly
  // when no operation gets the lock after one that read the clock later: any lateness
  // at all breaks it.
  lemma BoundIffInOrder(rate: int, at: real, eps: real)
    requires rate > 0
    ensures (forall s :: ReachablePromptly(rate, rate, at, eps, s) ==> KeepsBound(s, rate, at)) <==> eps <= 0.0
  {
    if eps <= 0.0 {
      forall s | ReachablePromptly(rate, rate, at, eps, s)
        ensures KeepsBound(s, rate, at)
      {
        InOrderWithin(rate, rate, at, eps, s);
      }
    } else {
      var unit := 1.0 / rate as real;
      Pay(rate as real, 1.0);
      var d := if eps <= unit then eps else unit;
      MoreTime(rate as real, d, unit);
      var s := LateBreaksBound(rate, at, eps, d);
    }
  }

  // For example, at 65536 bytes per second and with one operation late by a second,
  // 131073 bytes pass in little more than a second.
  lemma StaleReadingBreaksBound() returns (s: State)
    ensures ReachablePromptly(65536, 65536, 0.0, 1.0, s)
    ensures s.now == 1.0 + 1.0 / 65536.0 && Written(s.grants) == 131073 && !KeepsBound(s, 65536, 0.0)
  {
    s := OneSecondLate();
    var tick := 1.0 / 65536.0;
    s := Then(65536, 0.0, 1.0, s, Tick(tick));
    s := Then(65536, 0.0, 1.0, s, Emit(0, 65536));
    s := Then(65536, 0.0, 1.0, s, Emit(1, 1));
    s := Then(65536, 0.0, 1.0, s, Emit(2, 65536));
    assert s.grants[..2][..1][..0] == [] && Written(s.grants[..2][..1]) == 65536;
    assert Written(s.grants[..2]) == 65537;
  }

  lemma OneSecondLate() returns (s: State)
    ensures ReachablePromptly(65536, 65536, 0.0, 1.0, s) && s.now == 1.0
    ensures s.grants == [Grant(65536, 1.0, false, 0), Grant(1, 1.0 / 65536.0, false, 0),
                         Grant(65536, 1.0 + 1.0 / 65536.0, false, 0)]
  {
    s := LateByOneSecond();
    s := AtOnce(65536, 0.0, 1.0, s, Charge(65536));
  }

  lemma LateByOneSecond() returns (s: State)
    ensures ReachablePromptly(65536, 65536, 0.0, 1.0, s) && s.now == 1.0 && s.pending == []
    ensures s.bucket == Bucket(65536, 65536, -1.0, 0.0)
    ensures s.grants == [Grant(65536, 1.0, false, 0), Grant(1, 1.0 / 65536.0, false, 0)]
  {
    s := ChunkGoesFirst();
    s := Then(65536, 0.0, 1.0, s, Lock(0));
  }

  lemma ChunkGoesFirst() returns (s: State)
    ensures ReachablePromptly(65536, 65536, 0.0, 1.0, s)
    ensures s == State(65536, 0.0, 1.0, Bucket(65536, 65536, 0.0, 1.0), 0.0, [Pending(Charge(1), 0.0)],
                       [Grant(65536, 1.0, false, 0)])
  {
    s := TwoReadings(65536, 0.0, 1.0, 1.0, 1, 65536);
    assert BurstFor(65536) == 65536;
    s := Then(65536, 0.0, 1.0, s, Lock(1));
  }
}
