/**
 The rate limiter the connections share: settings that are changed in place, the
 chunked wait, and the write loop that charges before it writes.
 */
module RateLimiter {
  import opened Int64
  import opened Sequences
  import opened TokenBucket
  import RateBound

  // The shared bucket object: a caller may still hold one its limiter has dropped.
  class XLimiter {
    var bucket: Bucket

    constructor (limit: int, burst: int)
      ensures bucket == Full(limit, burst)
    {
      bucket := Full(limit, burst);
    }

    method SetLimitAt(now: real, limit: int)
      modifies this
      ensures bucket == WithLimit(old(bucket), now, limit)
    {
      bucket := WithLimit(bucket, now, limit);
    }

    method SetBurstAt(now: real, burst: int)
      modifies this
      ensures bucket == WithBurst(old(bucket), now, burst)
    {
      bucket := WithBurst(bucket, now, burst);
    }

    method AllowN(now: real, n: int) returns (ok: bool)
      modifies this
      ensures bucket == Allowed(old(bucket), now, n)
      ensures ok <==> n <= old(bucket).burst && Reserved(old(bucket), now, n).tokens >= 0.0
    {
      ok := n <= bucket.burst && Reserved(bucket, now, n).tokens >= 0.0;
      bucket := Allowed(bucket, now, n);
    }
  }

  // What a limiter is set to, apart from its bucket.
  datatype Settings = Settings(rate: int, burst: int, disabled: bool, closed: bool)

  // The settings after SetRate: only a positive rate reopens a closed limiter.
  function Tuned(s: Settings, bytesPerSecond: int): Settings {
    if bytesPerSecond <= 0 then Settings(bytesPerSecond, 0, true, s.closed)
    else Settings(bytesPerSecond, BurstFor(bytesPerSecond), false, false)
  }

  const UNSET := Settings(0, 0, true, false)
  const SHUT := Settings(0, 0, true, true)

  class RateLimiter {
    var rate: int
    var burst: int
    var limiter: XLimiter?
    var disabled: bool
    var closed: bool

    // What every method keeps: an enabled limiter has a bucket of its own rate
    // and burst, and its burst holds at least one write chunk.
    ghost predicate Valid()
      reads this, limiter
    {
      && (limiter == null <==> disabled)
      && (closed ==> disabled)
      && (limiter != null ==>
            rate > 0 && burst == BurstFor(rate) && limiter.bucket.limit == rate && limiter.bucket.burst == burst)
      && (limiter == null ==> burst == 0)
    }

    ghost function Set(): Settings
      reads this
    {
      Settings(rate, burst, disabled, closed)
    }

    constructor (now: real, bytesPerSecond: int)
      ensures Valid() && Set() == Tuned(UNSET, bytesPerSecond)
      ensures limiter != null ==> fresh(limiter) && limiter.bucket.tokens == 0.0 && limiter.bucket.last == now
    {
      rate, burst, limiter, disabled, closed := 0, 0, null, true, false;
      new;
      SetRate(now, bytesPerSecond);
    }

    // A positive rate opens the limiter, even a closed one, on the bucket it had
    // or on a new one without any tokens; any other rate drops the bucket.
    method SetRate(now: real, bytesPerSecond: int)
      requires Valid()
      modifies this, limiter
      ensures Valid() && Set() == Tuned(old(Set()), bytesPerSecond)
      ensures rate == bytesPerSecond && disabled == (bytesPerSecond <= 0)
      ensures closed == (old(closed) && bytesPerSecond <= 0)
      ensures bytesPerSecond > 0 && old(limiter) != null ==>
                limiter == old(limiter) &&
                var tuned := WithBurst(WithLimit(old(limiter.bucket), now, bytesPerSecond), now, burst);
                limiter.bucket == Allowed(tuned, now, burst)
      ensures bytesPerSecond > 0 && old(limiter) == null ==>
                fresh(limiter) && limiter.bucket == Bucket(bytesPerSecond, burst, 0.0, now)
    {
      rate := bytesPerSecond;
      if bytesPerSecond <= 0 {
        disabled, burst, limiter := true, 0, null;
        return;
      }
      var size := BurstFor(bytesPerSecond);
      if limiter == null {
        limiter := new XLimiter(bytesPerSecond, size);
        RateBound.FreshIsDrained(bytesPerSecond, size, now);
      } else {
        limiter.SetLimitAt(now, bytesPerSecond);
        limiter.SetBurstAt(now, size);
      }
      closed, disabled, burst := false, false, size;
      var _ := limiter.AllowN(now, size);
    }

    method Close()
      modifies this
      ensures Valid() && Set() == SHUT
    {
      closed, disabled, rate, burst, limiter := true, true, 0, 0, null;
    }

    // What one iteration of Wait sees of the limiter, and the burst its bucket
    // has by the time the chunk is charged.
    method Snapshot() returns (t: Turn)
      requires Valid()
      ensures Sound(t) && t.closed == closed && t.disabled == disabled && t.burst == burst
    {
      t := Turn(limiter != null, burst, disabled, closed,
                if limiter != null then limiter.bucket.burst else MAX_WRITE_CHUNK);
    }
  }

  // --------------------------------------------------------------------- Wait

  // `present`, `burst`, `disabled` and `closed` are the snapshot an iteration
  // takes; `liveBurst` is the burst of that bucket when WaitN looks at it, which
  // a change of rate in between may have made different.
  datatype Turn = Turn(present: bool, burst: int, disabled: bool, closed: bool, liveBurst: int)

  predicate Sound(t: Turn) {
    (!t.disabled ==> t.present && !t.closed && t.burst >= MAX_WRITE_CHUNK) && t.liveBurst >= MAX_WRITE_CHUNK
  }

  datatype Error = NoError | LimiterClosed | ExceedsBurst | ConnFailed | ShortWrite

  function ChunkOf(remaining: int, t: Turn): int {
    if t.burst > 0 && remaining > t.burst then t.burst else remaining
  }

  // The error and the charges of a wait for `remaining` bytes that sees `turns`
  // from the k-th on.
  function WaitRun(remaining: int, turns: nat -> Turn, k: nat): (Error, seq<int>)
    decreases remaining
  {
    var t := turns(k);
    var chunk := ChunkOf(remaining, t);
    if remaining <= 0 then (NoError, [])
    else if t.closed then (LimiterClosed, [])
    else if t.disabled || !t.present then (NoError, [])
    else if chunk > t.liveBurst then (ExceedsBurst, [])
    else
      var (err, charges) := WaitRun(remaining - chunk, turns, k + 1);
      (err, [chunk] + charges)
  }

  method Wait(n: int, turns: nat -> Turn) returns (err: Error, charges: seq<int>)
    ensures err == WaitRun(n, turns, 0).0 && charges == WaitRun(n, turns, 0).1
  {
    charges := [];
    var remaining := n;
    var k := 0;
    while remaining > 0
      invariant WaitRun(n, turns, 0).0 == WaitRun(remaining, turns, k).0
      invariant WaitRun(n, turns, 0).1 == charges + WaitRun(remaining, turns, k).1
    {
      var t := turns(k);
      if t.closed {
        return LimiterClosed, charges;
      }
      if t.disabled {
        return NoError, charges;
      }
      var chunk := remaining;
      if t.burst > 0 && chunk > t.burst {
        chunk := t.burst;
      }
      if !t.present {
        return NoError, charges;
      }
      if chunk > t.liveBurst {
        return ExceedsBurst, charges;
      }
      charges := charges + [chunk];
      assert charges + WaitRun(remaining - chunk, turns, k + 1).1
          == charges[..|charges| - 1] + ([chunk] + WaitRun(remaining - chunk, turns, k + 1).1);
      remaining := remaining - chunk;
      k := k + 1;
    }
    return NoError, charges;
  }

  // Whatever the settings do in between, a wait never charges more than `n`, ends
  // after at most one charge per started 64 KiB, and returns nil without having
  // charged everything only because it found the limiter disabled.
  lemma {:induction false} WaitCharges(n: int, turns: nat -> Turn, k: nat)
    requires n >= 0 && forall i :: Sound(turns(i))
    ensures var (err, charges) := WaitRun(n, turns, k);
            && SumOf(charges) <= n
            && |charges| <= (n + MAX_WRITE_CHUNK - 1) / MAX_WRITE_CHUNK
            && (err == NoError <==>
                SumOf(charges) == n || (turns(k + |charges|).disabled && !turns(k + |charges|).closed))
    decreases n
  {
    assert Sound(turns(k));
    var t := turns(k);
    var chunk := ChunkOf(n, t);
    if n > 0 && !t.closed && !t.disabled && chunk <= t.liveBurst {
      WaitCharges(n - chunk, turns, k + 1);
      var rest := WaitRun(n - chunk, turns, k + 1).1;
      assert ([chunk] + rest)[1..] == rest;
      if chunk < n {
        assert (n - chunk + MAX_WRITE_CHUNK - 1) / MAX_WRITE_CHUNK + 1 <= (n + MAX_WRITE_CHUNK - 1) / MAX_WRITE_CHUNK;
      }
    }
  }

  // A write chunk is charged in one go and never refused for its size, even when
  // the rate is lowered between the snapshot and the charge.
  lemma ChunkIsOneCharge(n: int, turns: nat -> Turn)
    requires 0 < n <= MAX_WRITE_CHUNK && Sound(turns(0))
    ensures WaitRun(n, turns, 0)
            == if turns(0).closed then (LimiterClosed, [])
               else if turns(0).disabled then (NoError, [])
               else (NoError, [n])
  {
    assert WaitRun(0, turns, 1) == (NoError, []) && [n] + [] == [n];
  }

  // Only a larger wait can be refused, and only because the burst shrank after
  // the snapshot.
  lemma {:induction false} RefusedOnlyIfBurstShrank(n: int, turns: nat -> Turn, k: nat)
    requires WaitRun(n, turns, k).0 == ExceedsBurst && forall i :: Sound(turns(i))
    ensures n > MAX_WRITE_CHUNK
    ensures exists i: nat :: i >= k && turns(i).burst > turns(i).liveBurst
    decreases n
  {
    assert Sound(turns(k));
    var chunk := ChunkOf(n, turns(k));
    if chunk > turns(k).liveBurst {
      assert chunk <= turns(k).burst;
    } else {
      RefusedOnlyIfBurstShrank(n - chunk, turns, k + 1);
    }
  }

  // -------------------------------------------------------------------- Write

  // What Write does, in order: charge the limiter, let bytes pass because it is
  // disabled or absent, put bytes on the wire.
  datatype Action = Charge(n: int) | Free(n: int) | Put(bytes: seq<bv8>)

  function Wire(log: seq<Action>): seq<bv8> {
    if log == [] then []
    else Wire(log[..|log| - 1]) + if log[|log| - 1].Put? then log[|log| - 1].bytes else []
  }

  // Bytes charged or let pass.
  function Granted(log: seq<Action>): int {
    if log == [] then 0
    else Granted(log[..|log| - 1]) + match log[|log| - 1] case Charge(n) => n case Free(n) => n case Put(_) => 0
  }

  // At no moment were more bytes on the wire than had been granted before.
  predicate NeverAhead(log: seq<Action>) {
    log == [] || (NeverAhead(log[..|log| - 1]) && |Wire(log)| <= Granted(log))
  }

  // The log of one chunk: a grant of its size, then the part of it that was taken.
  lemma ChunkLogged(log: seq<Action>, free: bool, chunk: seq<bv8>, n: nat)
    requires NeverAhead(log) && Granted(log) == |Wire(log)| && n <= |chunk|
    ensures var l := log + [if free then Free(|chunk|) else Charge(|chunk|), Put(chunk[..n])];
            Wire(l) == Wire(log) + chunk[..n] && NeverAhead(l) && Granted(l) == Granted(log) + |chunk|
  {
    var grant := if free then Free(|chunk|) else Charge(|chunk|);
    var l := log + [grant, Put(chunk[..n])];
    assert (log + [grant])[..|log|] == log && Wire(log + [grant]) == Wire(log);
    assert NeverAhead(log + [grant]);
    assert l[..|l| - 1] == log + [grant];
  }

  // The k-th write of the underlying connection: how much of the chunk it takes
  // and whether it fails.
  datatype Io = Io(n: nat, failed: bool)

  function Taken(io: Io, chunk: nat): nat { if io.n < chunk then io.n else chunk }

  // A prefix of `b` is on the wire, never ahead of what was granted.
  ghost predicate Wrote(b: seq<bv8>, total: nat, err: Error, log: seq<Action>) {
    && total <= |b| && Wire(log) == b[..total] && NeverAhead(log)
    && (err == NoError ==> Granted(log) == total)
  }

  // Every error has a cause.
  ghost predicate Explained(err: Error, turns: (nat, nat) -> Turn, under: nat -> Io) {
    && err != ExceedsBurst
    && (err == LimiterClosed ==> exists k :: turns(k, 0).closed)
    && (err == ConnFailed ==> exists k :: under(k).failed)
    && (err == ShortWrite ==> exists k :: under(k).n < MAX_WRITE_CHUNK)
  }

  // The chunk that starts at `total`.
  function ChunkAt(b: seq<bv8>, total: nat): seq<bv8>
    requires total <= |b|
  {
    b[total..if total + MAX_WRITE_CHUNK > |b| then |b| else total + MAX_WRITE_CHUNK]
  }

  predicate AllCharged(log: seq<Action>) { forall a :: a in log ==> !a.Free? }

  // What WriteChunk returns.
  ghost predicate ChunkDone(chunk: seq<bv8>, turn: Turn, io: Io, n: nat, err: Error, log: seq<Action>) {
    if turn.closed then n == 0 && err == LimiterClosed && log == []
    else
      && n == Taken(io, |chunk|)
      && log == [if turn.disabled then Free(|chunk|) else Charge(|chunk|), Put(chunk[..n])]
      && err == if io.failed then ConnFailed else if n < |chunk| then ShortWrite else NoError
  }

  lemma ChunkExtends(b: seq<bv8>, total: nat, log: seq<Action>, turn: Turn, io: Io, n: nat, err: Error,
                     more: seq<Action>)
    requires Wrote(b, total, NoError, log) && total < |b|
    requires ChunkDone(ChunkAt(b, total), turn, io, n, err, more)
    ensures Wrote(b, total + n, err, log + more) && (err == NoError ==> n > 0)
    ensures AllCharged(log) && !turn.disabled ==> AllCharged(log + more)
  {
    if turn.closed {
      assert log + more == log;
    } else {
      ChunkLogged(log, turn.disabled, ChunkAt(b, total), n);
      assert b[..total] + ChunkAt(b, total)[..n] == b[..total + n];
    }
  }

  // Write `b`; `turns(k)` is what the wait for the k-th chunk sees. Without a
  // limiter, or without bytes, the underlying connection writes once.
  method Write(b: seq<bv8>, limited: bool, turns: (nat, nat) -> Turn, under: nat -> Io)
    returns (total: nat, err: Error, log: seq<Action>)
    requires forall k, i :: Sound(turns(k, i))
    ensures total <= |b| && Wire(log) == b[..total] && NeverAhead(log)
    ensures err == NoError && limited ==> total == |b| && Granted(log) == |b|
    ensures !limited ==> total == Taken(under(0), |b|) && err == if under(0).failed then ConnFailed else NoError
    ensures Explained(err, turns, under) && (err == LimiterClosed || err == ShortWrite ==> limited)
    ensures limited && b != [] && (forall k :: !turns(k, 0).disabled) ==> AllCharged(log)
  {
    if b == [] || !limited {
      total := Taken(under(0), |b|);
      log := [Free(|b|), Put(b[..total])];
      ChunkLogged([], true, b, total);
      assert [] + log == log && [] + b[..total] == b[..total];
      return total, if under(0).failed then ConnFailed else NoError, log;
    }
    total, log, err := 0, [], NoError;
    var k := 0;
    while total < |b| && err == NoError
      invariant Wrote(b, total, err, log) && Explained(err, turns, under)
      invariant (forall k :: !turns(k, 0).disabled) ==> AllCharged(log)
      decreases |b| - total, err == NoError
    {
      var n, more;
      n, err, more := WriteChunk(ChunkAt(b, total), (i: nat) => turns(k, i), under(k));
      ChunkExtends(b, total, log, turns(k, 0), under(k), n, err, more);
      log, total, k := log + more, total + n, k + 1;
    }
    assert total == |b| ==> b[..total] == b;
  }

  // One turn of Write's loop: wait for the chunk, then write it.
  method WriteChunk(chunk: seq<bv8>, turns: nat -> Turn, io: Io) returns (n: nat, err: Error, log: seq<Action>)
    requires 0 < |chunk| <= MAX_WRITE_CHUNK && Sound(turns(0))
    ensures ChunkDone(chunk, turns(0), io, n, err, log)
  {
    var waitErr, charges := Wait(|chunk|, turns);
    ChunkIsOneCharge(|chunk|, turns);
    if waitErr != NoError {
      return 0, waitErr, [];
    }
    n := Taken(io, |chunk|);
    log := [if charges == [] then Free(|chunk|) else Charge(charges[0]), Put(chunk[..n])];
    err := if io.failed then ConnFailed else if n != |chunk| then ShortWrite else NoError;
  }
}
