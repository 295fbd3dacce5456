/**
 The open/close protocol of one prepared session: the two closures that
 SessionTracker.Prepare returns, run by any number of goroutines at once.

 Every atomic load, store, add and swap, every lock operation and the tracker
 calls are separate steps, so an execution is any interleaving of them.
 */
module SessionProtocol {
  import opened Text

  // A session counts as a device once it has carried this many bytes.
  const ACTIVATION_BYTES := 32 * 1024

  // Where a call to activate stands: the name is the step it takes next.
  datatype ActivatePc =
    | CheckBytes | LoadActive | LoadClosed | AddSeen
    | LockMu | RecheckActive | RecheckClosed | OpenSession | AssignRelease | StoreActive | UnlockMu
    | Returned

  // Where a call to closePending stands.
  datatype ClosePc =
    | SwapClosed | LockForTake | TakeRelease | UnlockAfterTake | InvokeRelease
    | WonReturned | LostReturned

  // `added` says whether the call's bytes went into the accumulator; `taken`
  // whether the call found a release function to invoke.
  datatype Call =
    | Activate(bytes: int, pc: ActivatePc, added: bool)
    | ClosePending(cpc: ClosePc, taken: bool)

  // The closures' shared variables, how often the tracker was opened and
  // released for this session, and the calls made so far. `winner` is the call
  // whose swap found `closed` still false.
  datatype State = State(
    active: bool, closed: bool, seen: int, mu: Option<nat>, release: bool,
    opens: nat, releases: nat, winner: Option<nat>, calls: seq<Call>)

  datatype Event = StartActivate(bytes: int) | StartClose | Run(i: nat)

  const Initial := State(false, false, 0, None, false, 0, 0, None, [])

  // The call holds the mutex.
  predicate InCriticalSection(c: Call) {
    match c
    case Activate(_, pc, _) =>
      pc.RecheckActive? || pc.RecheckClosed? || pc.OpenSession? || pc.AssignRelease? || pc.StoreActive? || pc.UnlockMu?
    case ClosePending(cpc, _) => cpc.TakeRelease? || cpc.UnlockAfterTake?
  }

  // Call `i` goes on as `c`.
  function Goes(s: State, i: nat, c: Call): State
    requires i < |s.calls|
  {
    s.(calls := s.calls[i := c])
  }

  // One step of call `i` to activate before it holds the mutex. A call that
  // waits for the mutex does nothing.
  function StepOutside(s: State, i: nat): State
    requires i < |s.calls| && s.calls[i].Activate?
  {
    var Activate(n, pc, added) := s.calls[i];
    match pc
    case CheckBytes => Goes(s, i, Activate(n, if n <= 0 then Returned else LoadActive, added))
    case LoadActive => Goes(s, i, Activate(n, if s.active then Returned else LoadClosed, added))
    case LoadClosed => Goes(s, i, Activate(n, if s.closed then Returned else AddSeen, added))
    case AddSeen =>
      var total := s.seen + n;
      Goes(s.(seen := total), i, Activate(n, if total < ACTIVATION_BYTES then Returned else LockMu, true))
    case LockMu => if s.mu.None? then Goes(s.(mu := Some(i)), i, Activate(n, RecheckActive, added)) else s
    case _ => s
  }

  // One step of call `i` to activate while it holds the mutex.
  function StepInside(s: State, i: nat): State
    requires i < |s.calls| && s.calls[i].Activate?
  {
    var Activate(n, pc, added) := s.calls[i];
    match pc
    case RecheckActive => Goes(s, i, Activate(n, if s.active then UnlockMu else RecheckClosed, added))
    case RecheckClosed => Goes(s, i, Activate(n, if s.closed then UnlockMu else OpenSession, added))
    case OpenSession => Goes(s.(opens := s.opens + 1), i, Activate(n, AssignRelease, added))
    case AssignRelease => Goes(s.(release := true), i, Activate(n, StoreActive, added))
    case StoreActive => Goes(s.(active := true), i, Activate(n, UnlockMu, added))
    case UnlockMu => Goes(s.(mu := None), i, Activate(n, Returned, added))
    case _ => s
  }

  // One step of call `i` to closePending.
  function StepClose(s: State, i: nat): State
    requires i < |s.calls| && s.calls[i].ClosePending?
  {
    var ClosePending(cpc, taken) := s.calls[i];
    match cpc
    case SwapClosed =>
      if s.closed then Goes(s, i, ClosePending(LostReturned, taken))
      else Goes(s.(closed := true, winner := Some(i)), i, ClosePending(LockForTake, taken))
    case LockForTake => if s.mu.None? then Goes(s.(mu := Some(i)), i, ClosePending(TakeRelease, taken)) else s
    case TakeRelease => Goes(s.(release := false), i, ClosePending(UnlockAfterTake, s.release))
    case UnlockAfterTake => Goes(s.(mu := None), i, ClosePending(InvokeRelease, taken))
    case InvokeRelease =>
      Goes(s.(releases := if taken then s.releases + 1 else s.releases), i, ClosePending(WonReturned, taken))
    case WonReturned => s
    case LostReturned => s
  }

  function Step(s: State, e: Event): State {
    match e
    case StartActivate(n) => s.(calls := s.calls + [Activate(n, CheckBytes, false)])
    case StartClose => s.(calls := s.calls + [ClosePending(SwapClosed, false)])
    case Run(i) =>
      if i >= |s.calls| then s
      else if s.calls[i].ClosePending? then StepClose(s, i)
      else if InCriticalSection(s.calls[i]) then StepInside(s, i)
      else StepOutside(s, i)
  }

  function Execute(s: State, events: seq<Event>): State
    decreases |events|
  {
    if events == [] then s else Execute(Step(s, events[0]), events[1..])
  }

  // ---------------------------------------------------------------- invariant

  predicate WonSwap(c: Call) {
    c.ClosePending? && !c.cpc.SwapClosed? && !c.cpc.LostReturned?
  }

  // The winner has looked at the release variable, under the mutex.
  predicate HasTaken(c: Call) {
    c.ClosePending? && (c.cpc.UnlockAfterTake? || c.cpc.InvokeRelease? || c.cpc.WonReturned?)
  }

  // The call took a release function that it has yet to invoke.
  predicate HoldsRelease(c: Call) {
    c.ClosePending? && c.taken && (c.cpc.UnlockAfterTake? || c.cpc.InvokeRelease?)
  }

  // The call's add reached the threshold and it has not yet made up its mind.
  predicate Crossing(c: Call) {
    c.Activate? && (c.pc.LockMu? || c.pc.RecheckActive? || c.pc.RecheckClosed? ||
                    c.pc.OpenSession? || c.pc.AssignRelease? || c.pc.StoreActive?)
  }

  function B2N(b: bool): nat { if b then 1 else 0 }

  // The mutex is held by a call to activate that stands at `p`.
  predicate HolderAt(s: State, p: ActivatePc) {
    s.mu.Some? && s.mu.value < |s.calls| && s.calls[s.mu.value].Activate? && s.calls[s.mu.value].pc == p
  }

  // The call that won the swap has looked at the release variable.
  predicate WinnerHasTaken(s: State) {
    s.winner.Some? && s.winner.value < |s.calls| && HasTaken(s.calls[s.winner.value])
  }

  predicate WinnerHoldsRelease(s: State) {
    s.winner.Some? && s.winner.value < |s.calls| && HoldsRelease(s.calls[s.winner.value])
  }

  ghost predicate Mutex(s: State) {
    && (forall i :: 0 <= i < |s.calls| ==> (InCriticalSection(s.calls[i]) <==> s.mu == Some(i)))
    && (s.mu.Some? ==> s.mu.value < |s.calls|)
  }

  ghost predicate Closing(s: State) {
    && (forall i :: 0 <= i < |s.calls| ==> (WonSwap(s.calls[i]) <==> s.winner == Some(i)))
    && (s.winner.Some? ==> s.winner.value < |s.calls|)
    && (s.closed <==> s.winner.Some?)
  }

  ghost predicate Accounting(s: State) {
    && s.opens == B2N(s.release) + B2N(HolderAt(s, AssignRelease)) + B2N(WinnerHoldsRelease(s)) + s.releases
    && s.opens <= 1
    && (s.releases > 0 ==> WinnerHasTaken(s))
    && (s.active ==> s.opens == 1)
    && (s.opens == 1 ==> s.active || HolderAt(s, AssignRelease) || HolderAt(s, StoreActive))
    && (HolderAt(s, RecheckClosed) || HolderAt(s, OpenSession) ==> !s.active)
    && (HolderAt(s, AssignRelease) || HolderAt(s, StoreActive) ==> s.opens == 1)
    // Once the winner has looked for a release, nobody can open any more.
    && (WinnerHasTaken(s) ==>
          !s.release && !HolderAt(s, OpenSession) && !HolderAt(s, AssignRelease) && !HolderAt(s, StoreActive))
  }

  // Bytes the accumulator has received.
  function Added(calls: seq<Call>): int {
    if calls == [] then 0
    else Added(calls[..|calls| - 1]) + AddedBy(calls[|calls| - 1])
  }

  function AddedBy(c: Call): int { if c.Activate? && c.added then c.bytes else 0 }

  // Positive bytes passed to all calls of activate.
  function Carried(calls: seq<Call>): int {
    if calls == [] then 0
    else Carried(calls[..|calls| - 1]) + CarriedBy(calls[|calls| - 1])
  }

  function CarriedBy(c: Call): int { if c.Activate? && c.bytes > 0 then c.bytes else 0 }

  predicate CallCounted(s: State, c: Call) {
    c.Activate? ==>
      && (c.added ==> c.bytes > 0)
      && (c.pc.LoadActive? || c.pc.LoadClosed? || c.pc.AddSeen? ==> c.bytes > 0 && !c.added)
      && (c.pc == CheckBytes ==> !c.added)
      && (c.pc == Returned && !c.added && c.bytes > 0 ==> s.active || s.closed)
      && (Crossing(c) || c.pc == UnlockMu ==> c.added)
      && (Crossing(c) ==> s.seen >= ACTIVATION_BYTES)
  }

  ghost predicate Threshold(s: State) {
    && s.seen == Added(s.calls)
    && (forall c :: c in s.calls ==> CallCounted(s, c))
    && (s.opens > 0 ==> s.seen >= ACTIVATION_BYTES)
    && (s.seen >= ACTIVATION_BYTES ==> s.active || s.closed || exists c :: c in s.calls && Crossing(c))
  }

  ghost predicate Inv(s: State) {
    Mutex(s) && Closing(s) && Accounting(s) && Threshold(s)
  }

  // Replacing one call changes the accumulator by that call's difference.
  lemma {:induction false} AddedUpdate(calls: seq<Call>, i: nat, c: Call)
    requires i < |calls|
    ensures Added(calls[i := c]) == Added(calls) - AddedBy(calls[i]) + AddedBy(c)
  {
    var n := |calls| - 1;
    if i == n {
      assert calls[i := c][..n] == calls[..n];
    } else {
      assert calls[i := c][..n] == calls[..n][i := c];
      AddedUpdate(calls[..n], i, c);
    }
  }

  lemma {:induction false} AllAddedMeansCarried(calls: seq<Call>)
    requires forall c :: c in calls ==> AddedBy(c) == CarriedBy(c)
    ensures Added(calls) == Carried(calls)
  {
    if calls != [] {
      AllAddedMeansCarried(calls[..|calls| - 1]);
    }
  }

  lemma {:induction false} AddedAtMostCarried(calls: seq<Call>)
    requires forall c :: c in calls ==> AddedBy(c) <= CarriedBy(c)
    ensures Added(calls) <= Carried(calls)
  {
    if calls != [] {
      AddedAtMostCarried(calls[..|calls| - 1]);
    }
  }

  // What one step of call `i` does to the two owners, whatever the invariant.
  ghost predicate OwnersMove(s: State, s': State, i: nat)
    requires i < |s.calls|
  {
    && |s'.calls| == |s.calls| && s'.calls == s.calls[i := s'.calls[i]]
    && s'.calls[i].Activate? == s.calls[i].Activate?
    && (|| (s'.mu == s.mu && InCriticalSection(s'.calls[i]) == InCriticalSection(s.calls[i]))
        || (s.mu.None? && s'.mu == Some(i) && InCriticalSection(s'.calls[i]))
        || (InCriticalSection(s.calls[i]) && s'.mu.None? && !InCriticalSection(s'.calls[i])))
    && (|| (s'.winner == s.winner && s'.closed == s.closed && WonSwap(s'.calls[i]) == WonSwap(s.calls[i]))
        || (!s.closed && s'.closed && s'.winner == Some(i) && WonSwap(s'.calls[i])))
  }

  lemma OutsideMovesOwners(s: State, i: nat)
    requires i < |s.calls| && s.calls[i].Activate? && !InCriticalSection(s.calls[i])
    ensures OwnersMove(s, StepOutside(s, i), i)
  {
    assert s.calls[i := s.calls[i]] == s.calls;
  }

  lemma InsideMovesOwners(s: State, i: nat)
    requires i < |s.calls| && s.calls[i].Activate? && InCriticalSection(s.calls[i])
    ensures OwnersMove(s, StepInside(s, i), i)
  {}

  lemma CloseMovesOwners(s: State, i: nat)
    requires i < |s.calls| && s.calls[i].ClosePending?
    ensures OwnersMove(s, StepClose(s, i), i)
  {
    assert s.calls[i := s.calls[i]] == s.calls;
  }

  lemma StepMovesOwners(s: State, i: nat)
    requires i < |s.calls|
    ensures OwnersMove(s, Step(s, Run(i)), i)
  {
    if s.calls[i].ClosePending? {
      CloseMovesOwners(s, i);
    } else if InCriticalSection(s.calls[i]) {
      InsideMovesOwners(s, i);
    } else {
      OutsideMovesOwners(s, i);
    }
  }

  lemma StepKeepsOwners(s: State, e: Event)
    requires Mutex(s) && Closing(s)
    ensures Mutex(Step(s, e)) && Closing(Step(s, e))
  {
    if e.Run? && e.i < |s.calls| {
      StepMovesOwners(s, e.i);
      OwnersKept(s, Step(s, e), e.i);
    }
  }

  lemma OwnersKept(s: State, s': State, i: nat)
    requires i < |s.calls| && Mutex(s) && Closing(s) && OwnersMove(s, s', i)
    ensures Mutex(s') && Closing(s')
  {}

  // The part of the owner invariants that a step of call `i` looks at.
  predicate OwnersAt(s: State, i: nat)
    requires i < |s.calls|
  {
    && (InCriticalSection(s.calls[i]) <==> s.mu == Some(i))
    && (WonSwap(s.calls[i]) <==> s.winner == Some(i))
    && (s.mu.Some? ==> s.mu.value < |s.calls|)
    && (s.winner.Some? ==> s.winner.value < |s.calls|)
    && (s.closed <==> s.winner.Some?)
  }

  // A call outside the mutex changes nothing that the accounting looks at.
  predicate SameBooks(s: State, s': State) {
    && s'.opens == s.opens && s'.releases == s.releases && s'.release == s.release && s'.active == s.active
    && WinnerHasTaken(s') == WinnerHasTaken(s) && WinnerHoldsRelease(s') == WinnerHoldsRelease(s)
    && HolderAt(s', RecheckClosed) == HolderAt(s, RecheckClosed)
    && HolderAt(s', OpenSession) == HolderAt(s, OpenSession)
    && HolderAt(s', AssignRelease) == HolderAt(s, AssignRelease)
    && HolderAt(s', StoreActive) == HolderAt(s, StoreActive)
  }

  lemma OutsideKeepsBooks(s: State, i: nat)
    requires i < |s.calls| && s.calls[i].Activate? && !InCriticalSection(s.calls[i]) && OwnersAt(s, i)
    ensures SameBooks(s, StepOutside(s, i))
  {
    if s.calls[i].pc.LockMu? {
      assert s.mu != Some(i);
    }
  }

  lemma OutsideKeepsAccounting(s: State, i: nat)
    requires i < |s.calls| && s.calls[i].Activate? && !InCriticalSection(s.calls[i])
    requires OwnersAt(s, i) && Accounting(s)
    ensures Accounting(StepOutside(s, i))
  {
    OutsideKeepsBooks(s, i);
  }

  lemma InsideKeepsAccounting(s: State, i: nat)
    requires i < |s.calls| && s.calls[i].Activate? && InCriticalSection(s.calls[i])
    requires OwnersAt(s, i) && Accounting(s)
    requires s.winner.Some? ==> WonSwap(s.calls[s.winner.value])
    ensures Accounting(StepInside(s, i))
  {}

  lemma CloseKeepsAccounting(s: State, i: nat)
    requires i < |s.calls| && s.calls[i].ClosePending? && OwnersAt(s, i) && Accounting(s)
    ensures Accounting(StepClose(s, i))
  {}

  lemma StepKeepsAccounting(s: State, e: Event)
    requires Mutex(s) && Closing(s) && Accounting(s)
    ensures Accounting(Step(s, e))
  {
    if e.Run? && e.i < |s.calls| {
      if s.calls[e.i].ClosePending? {
        CloseKeepsAccounting(s, e.i);
      } else if InCriticalSection(s.calls[e.i]) {
        InsideKeepsAccounting(s, e.i);
      } else {
        OutsideKeepsAccounting(s, e.i);
      }
    }
  }

  // What one step of call `i` does to the byte counts, given that the call was
  // counted correctly.
  ghost predicate CountMoves(s: State, s': State, i: nat)
    requires i < |s.calls| && |s'.calls| == |s.calls|
  {
    && s'.seen == s.seen - AddedBy(s.calls[i]) + AddedBy(s'.calls[i])
    && s'.seen >= s.seen
    && (s.active ==> s'.active) && (s.closed ==> s'.closed)
    && CallCounted(s', s'.calls[i])
    && (s'.opens == s.opens || s'.seen >= ACTIVATION_BYTES)
    && (Crossing(s.calls[i]) ==> s'.active || s'.closed || Crossing(s'.calls[i]))
    && (s.seen < ACTIVATION_BYTES <= s'.seen ==> Crossing(s'.calls[i]))
  }

  lemma OutsideMovesCount(s: State, i: nat)
    requires i < |s.calls| && s.calls[i].Activate? && CallCounted(s, s.calls[i])
    ensures |StepOutside(s, i).calls| == |s.calls| && CountMoves(s, StepOutside(s, i), i)
  {}

  lemma InsideMovesCount(s: State, i: nat)
    requires i < |s.calls| && s.calls[i].Activate? && CallCounted(s, s.calls[i])
    ensures |StepInside(s, i).calls| == |s.calls| && CountMoves(s, StepInside(s, i), i)
  {}

  lemma StepMovesCount(s: State, i: nat)
    requires i < |s.calls| && CallCounted(s, s.calls[i])
    ensures |Step(s, Run(i)).calls| == |s.calls| && CountMoves(s, Step(s, Run(i)), i)
  {
    if s.calls[i].Activate? {
      if InCriticalSection(s.calls[i]) {
        InsideMovesCount(s, i);
      } else {
        OutsideMovesCount(s, i);
      }
    }
  }

  lemma CountKept(s: State, s': State, i: nat)
    requires i < |s.calls| && Threshold(s)
    requires |s'.calls| == |s.calls| && s'.calls == s.calls[i := s'.calls[i]] && CountMoves(s, s', i)
    ensures Threshold(s')
  {
    AddedUpdate(s.calls, i, s'.calls[i]);
    forall c | c in s'.calls
      ensures CallCounted(s', c)
    {
      var j :| 0 <= j < |s'.calls| && s'.calls[j] == c;
      if j != i {
        assert s.calls[j] == c && CallCounted(s, c);
      }
    }
    assert s'.calls[i] in s'.calls;
    if s.seen >= ACTIVATION_BYTES && !s'.active && !s'.closed {
      var c :| c in s.calls && Crossing(c);
      var j :| 0 <= j < |s.calls| && s.calls[j] == c;
      assert s'.calls[j] in s'.calls;
    }
  }

  lemma StepKeepsThreshold(s: State, e: Event)
    requires Threshold(s)
    ensures Threshold(Step(s, e))
  {
    var s' := Step(s, e);
    if e.Run? && e.i < |s.calls| {
      assert s.calls[e.i] in s.calls;
      StepMovesOwners(s, e.i);
      StepMovesCount(s, e.i);
      CountKept(s, s', e.i);
    } else if !e.Run? {
      assert s'.calls[..|s.calls|] == s.calls;
      assert forall c :: c in s.calls ==> c in s'.calls;
    }
  }

  lemma StepKeepsInv(s: State, e: Event)
    requires Inv(s)
    ensures Inv(Step(s, e))
  {
    StepKeepsOwners(s, e);
    StepKeepsAccounting(s, e);
    StepKeepsThreshold(s, e);
  }

  lemma {:induction false} ExecuteKeepsInv(s: State, events: seq<Event>)
    requires Inv(s)
    ensures Inv(Execute(s, events))
    decreases |events|
  {
    if events != [] {
      StepKeepsInv(s, events[0]);
      ExecuteKeepsInv(Step(s, events[0]), events[1..]);
    }
  }

  // ------------------------------------------------------------ what it means

  // A close has run to its end: the call that won the swap has returned.
  predicate CloseFinished(s: State) {
    s.winner.Some? && s.winner.value < |s.calls| &&
    s.calls[s.winner.value].ClosePending? && s.calls[s.winner.value].cpc.WonReturned?
  }

  predicate HasReturned(c: Call) {
    match c
    case Activate(_, pc, _) => pc.Returned?
    case ClosePending(cpc, _) => cpc.WonReturned? || cpc.LostReturned?
  }

  // Some interleaving of some calls leads to `s`.
  ghost predicate Reachable(s: State) {
    exists events :: Execute(Initial, events) == s
  }

  lemma ReachableInv(s: State)
    requires Reachable(s)
    ensures Inv(s)
  {
    var events :| Execute(Initial, events) == s;
    InitialInv();
    ExecuteKeepsInv(Initial, events);
  }

  lemma InitialInv()
    ensures Inv(Initial)
  {}

  // In every interleaving the tracker is opened at most once for a session, and
  // released at most as often as it was opened.
  lemma OpenedAtMostOnce(s: State)
    requires Reachable(s)
    ensures s.releases <= s.opens <= 1
  {
    ReachableInv(s);
  }

  lemma StepAfterClose(s: State, e: Event)
    requires Inv(s) && CloseFinished(s)
    ensures CloseFinished(Step(s, e)) && Step(s, e).opens == s.opens
  {
    if e.Run? && e.i < |s.calls| {
      var c := s.calls[e.i];
      assert c.Activate? && c.pc.OpenSession? ==> HolderAt(s, OpenSession);
      StepMovesOwners(s, e.i);
    }
  }

  lemma {:induction false} ExecuteAfterClose(s: State, later: seq<Event>)
    requires Inv(s) && CloseFinished(s)
    ensures CloseFinished(Execute(s, later)) && Execute(s, later).opens == s.opens
    decreases |later|
  {
    if later != [] {
      StepAfterClose(s, later[0]);
      StepKeepsInv(s, later[0]);
      ExecuteAfterClose(Step(s, later[0]), later[1..]);
    }
  }

  // Once the close that won the swap has returned, every open has been released,
  // and whatever runs or starts later never opens the session again.
  lemma ClosedForGood(s: State, later: seq<Event>)
    requires Reachable(s) && CloseFinished(s)
    ensures s.opens == s.releases
    ensures Execute(s, later).opens == Execute(s, later).releases == s.opens
  {
    ReachableInv(s);
    ExecuteKeepsInv(s, later);
    ExecuteAfterClose(s, later);
  }

  // While no close has begun and all calls of activate have returned, the
  // session is open exactly when the positive byte counts passed to the calls
  // reach the threshold, although a call that finds the session active never
  // adds its bytes.
  lemma OpenIffThresholdReached(s: State)
    requires Reachable(s) && !s.closed
    requires forall c :: c in s.calls && c.Activate? ==> HasReturned(c)
    ensures s.opens - s.releases == 1 <==> Carried(s.calls) >= ACTIVATION_BYTES
  {
    ReachableInv(s);
    assert s.mu.Some? ==> s.calls[s.mu.value] in s.calls;
    assert forall c :: c in s.calls ==> CallCounted(s, c);
    if s.opens == 0 {
      AllAddedMeansCarried(s.calls);
    } else {
      AddedAtMostCarried(s.calls);
    }
  }

  // No interleaving deadlocks: while some call has not returned, some call can
  // take a step.
  lemma SomeCallCanStep(s: State, j: nat)
    requires Reachable(s) && j < |s.calls| && !HasReturned(s.calls[j])
    ensures exists i :: 0 <= i < |s.calls| && CanStep(s, i)
  {
    ReachableInv(s);
    var i := if s.mu.Some? then s.mu.value else j;
    if s.calls[i].Activate? {
      ActivateCanStep(s, i);
    }
    assert CanStep(s, i);
  }

  predicate CanStep(s: State, i: nat)
    requires i < |s.calls|
  {
    Step(s, Run(i)).calls[i] != s.calls[i]
  }

  lemma ActivateCanStep(s: State, i: nat)
    requires i < |s.calls| && s.calls[i].Activate? && !HasReturned(s.calls[i])
    requires s.mu.None? || InCriticalSection(s.calls[i])
    ensures CanStep(s, i)
  {}

  // ------------------------------------------------------------------ calls return

  // A call that starts stands at its beginning, and the others where they were.
  lemma StartsAtTheBeginning(s: State, n: int)
    ensures Step(s, StartActivate(n)) == s.(calls := s.calls + [Activate(n, CheckBytes, false)])
    ensures Step(s, StartClose) == s.(calls := s.calls + [ClosePending(SwapClosed, false)])
  {}

  // An upper bound of the steps a call still takes.
  function StepsLeft(c: Call): nat {
    match c
    case Activate(_, pc, _) =>
      (match pc
       case CheckBytes => 11 case LoadActive => 10 case LoadClosed => 9 case AddSeen => 8 case LockMu => 7
       case RecheckActive => 6 case RecheckClosed => 5 case OpenSession => 4 case AssignRelease => 3
       case StoreActive => 2 case UnlockMu => 1 case Returned => 0)
    case ClosePending(cpc, _) =>
      (match cpc
       case SwapClosed => 5 case LockForTake => 4 case TakeRelease => 3 case UnlockAfterTake => 2
       case InvokeRelease => 1 case WonReturned => 0 case LostReturned => 0)
  }

  // Nobody but this call may hold the mutex.
  predicate Free(s: State, i: nat)
    requires i < |s.calls|
  {
    s.mu.None? || InCriticalSection(s.calls[i])
  }

  // What a step of a call leaves as it is.
  predicate SameCallWith(s: State, s': State, i: nat)
    requires i < |s.calls|
  {
    && |s'.calls| == |s.calls| && (forall j :: 0 <= j < |s.calls| && j != i ==> s'.calls[j] == s.calls[j])
    && (s.calls[i].Activate? ==>
          s'.calls[i].Activate? && s'.calls[i].bytes == s.calls[i].bytes && s'.closed == s.closed)
    && (s.calls[i].ClosePending? ==> s'.calls[i].ClosePending? && s'.opens == s.opens && (s.closed ==> s'.closed))
  }

  lemma OutsideAdvances(s: State, i: nat)
    requires i < |s.calls| && s.calls[i].Activate? && !HasReturned(s.calls[i]) && !InCriticalSection(s.calls[i])
    requires s.mu.None?
    ensures var s' := StepOutside(s, i);
            SameCallWith(s, s', i) && StepsLeft(s'.calls[i]) < StepsLeft(s.calls[i]) && Free(s', i)
  {}

  lemma InsideAdvances(s: State, i: nat)
    requires i < |s.calls| && s.calls[i].Activate? && InCriticalSection(s.calls[i])
    ensures var s' := StepInside(s, i);
            SameCallWith(s, s', i) && StepsLeft(s'.calls[i]) < StepsLeft(s.calls[i]) && Free(s', i)
  {}

  lemma CloseAdvances(s: State, i: nat)
    requires i < |s.calls| && s.calls[i].ClosePending? && !HasReturned(s.calls[i]) && Free(s, i)
    ensures var s' := StepClose(s, i);
            SameCallWith(s, s', i) && StepsLeft(s'.calls[i]) < StepsLeft(s.calls[i]) && Free(s', i)
  {}

  lemma RunAdvances(s: State, i: nat)
    requires i < |s.calls| && !HasReturned(s.calls[i]) && Free(s, i)
    ensures var s' := Step(s, Run(i));
            SameCallWith(s, s', i) && StepsLeft(s'.calls[i]) < StepsLeft(s.calls[i]) && Free(s', i)
  {
    if s.calls[i].ClosePending? {
      CloseAdvances(s, i);
    } else if InCriticalSection(s.calls[i]) {
      InsideAdvances(s, i);
    } else {
      OutsideAdvances(s, i);
    }
  }

  // Left alone, with the mutex free, every call returns.
  lemma {:induction false} AloneReturns(s: State, i: nat) returns (events: seq<Event>)
    requires i < |s.calls| && Free(s, i)
    ensures SameCallWith(s, Execute(s, events), i) && HasReturned(Execute(s, events).calls[i])
    decreases StepsLeft(s.calls[i])
  {
    if HasReturned(s.calls[i]) {
      events := [];
    } else {
      RunAdvances(s, i);
      var rest := AloneReturns(Step(s, Run(i)), i);
      events := [Run(i)] + rest;
      assert events[1..] == rest;
    }
  }

  lemma ReachableThen(s: State, events: seq<Event>)
    requires Reachable(s)
    ensures Reachable(Execute(s, events))
  {
    var before :| Execute(Initial, before) == s;
    ExecuteTwice(Initial, before, events);
  }

  // So a single activation opens the session exactly when it reaches the threshold.
  lemma OneActivationOpensIff(n: int) returns (s: State)
    ensures Reachable(s) && !s.closed && |s.calls| == 1 && s.calls[0].Activate? && HasReturned(s.calls[0])
    ensures s.opens - s.releases == 1 <==> n >= 32768
  {
    var started := Step(Initial, StartActivate(n));
    var events := AloneReturns(started, 0);
    s := Execute(started, events);
    assert ([StartActivate(n)] + events)[1..] == events;
    assert Execute(Initial, [StartActivate(n)] + events) == s;
    assert s.calls[..0] == [] && Carried(s.calls) == CarriedBy(s.calls[0]);
    OpenIffThresholdReached(s);
  }

  // And the first close after it releases it again.
  lemma OneCloseReleases(n: int) returns (s: State)
    ensures Reachable(s) && |s.calls| == 2 && CloseFinished(s) && s.opens == s.releases
    ensures s.opens == if n >= 32768 then 1 else 0
  {
    var open := OneActivationOpensIff(n);
    ReachableInv(open);
    var started := Step(open, StartClose);
    var swapped := Step(started, Run(1));
    assert swapped.closed;
    var events := AloneReturns(swapped, 1);
    s := Execute(swapped, events);
    var all := [StartClose, Run(1)] + events;
    assert all[1..][1..] == events && all[1..] == [Run(1)] + events;
    assert Execute(open, all) == s;
    ReachableThen(open, all);
    FirstCloseFinished(open, s);
  }

  lemma FirstCloseFinished(open: State, s: State)
    requires Inv(open) && Reachable(s) && |s.calls| == 2 && s.closed && s.opens == open.opens
    requires s.calls[0].Activate? && s.calls[1].ClosePending? && HasReturned(s.calls[1]) && !open.closed
    requires |open.calls| == 1 && open.calls[0].Activate?
    ensures CloseFinished(s) && s.opens == s.releases == open.opens && open.releases == 0
  {
    ReachableInv(s);
    assert s.winner == Some(1) && WonSwap(s.calls[1]);
    ClosedForGood(s, []);
    assert !WinnerHasTaken(open);
  }

  lemma {:induction false} ExecuteTwice(s: State, a: seq<Event>, b: seq<Event>)
    ensures Execute(s, a + b) == Execute(Execute(s, a), b)
    decreases |a|
  {
    if a == [] {
      assert a + b == b;
    } else {
      assert (a + b)[1..] == a[1..] + b;
      ExecuteTwice(Step(s, a[0]), a[1..], b);
    }
  }
}
