/**
 The nested reference counts of the session tracker, inbound -> user -> key ->
 count, and every run of session opens and releases over them.
 */
module RefCounts {
  import opened Text
  import opened Sums
  import opened SourceClassifier
  import SourceTag

  type Refs = map<string, map<string, map<string, int>>>

  function Users(refs: Refs, inbound: string): map<string, map<string, int>> {
    if inbound in refs then refs[inbound] else map[]
  }

  function Peers(refs: Refs, inbound: string, user: string): map<string, int> {
    if user in Users(refs, inbound) then Users(refs, inbound)[user] else map[]
  }

  function Count(refs: Refs, inbound: string, user: string, key: string): int {
    if key in Peers(refs, inbound, user) then Peers(refs, inbound, user)[key] else 0
  }

  // Every stored count is positive and no empty inner map is stored.
  ghost predicate Compact(refs: Refs) {
    forall i :: i in refs ==> refs[i] != map[] && CompactUsers(refs[i])
  }

  ghost predicate CompactUsers(users: map<string, map<string, int>>) {
    forall u :: u in users ==> users[u] != map[] && Positive(users[u])
  }

  ghost predicate Positive(peers: map<string, int>) {
    forall k :: k in peers ==> peers[k] > 0
  }

  function Increment(refs: Refs, inbound: string, user: string, key: string): Refs {
    var peers := Peers(refs, inbound, user)[key := Count(refs, inbound, user, key) + 1];
    refs[inbound := Users(refs, inbound)[user := peers]]
  }

  // One reference less; what becomes empty is deleted.
  function DropKey(peers: map<string, int>, key: string): map<string, int> {
    var n := (if key in peers then peers[key] else 0) - 1;
    if n <= 0 then peers - {key} else peers[key := n]
  }

  function DropUser(users: map<string, map<string, int>>, user: string, key: string): map<string, map<string, int>> {
    if user !in users then users
    else if DropKey(users[user], key) == map[] then users - {user}
    else users[user := DropKey(users[user], key)]
  }

  function Decrement(refs: Refs, inbound: string, user: string, key: string): Refs {
    if inbound !in refs then refs
    else if DropUser(refs[inbound], user, key) == map[] then refs - {inbound}
    else refs[inbound := DropUser(refs[inbound], user, key)]
  }

  lemma IncrementStaysCompact(refs: Refs, inbound: string, user: string, key: string)
    requires Compact(refs)
    ensures Compact(Increment(refs, inbound, user, key))
  {
    assert CompactUsers(Users(refs, inbound)) && Positive(Peers(refs, inbound, user));
    var peers := Peers(refs, inbound, user)[key := Count(refs, inbound, user, key) + 1];
    assert key in peers && Positive(peers);
    var users := Users(refs, inbound)[user := peers];
    assert user in users && CompactUsers(users);
    assert Increment(refs, inbound, user, key) == refs[inbound := users];
  }

  lemma IncrementCounts(refs: Refs, inbound: string, user: string, key: string)
    ensures forall i, u, k :: Count(Increment(refs, inbound, user, key), i, u, k)
              == Count(refs, i, u, k) + if (i, u, k) == (inbound, user, key) then 1 else 0
  {}

  lemma DecrementStaysCompact(refs: Refs, inbound: string, user: string, key: string)
    requires Compact(refs)
    ensures Compact(Decrement(refs, inbound, user, key))
  {
    if inbound in refs {
      if user in refs[inbound] {
        assert Positive(refs[inbound][user]);
        assert Positive(DropKey(refs[inbound][user], key));
      }
      assert CompactUsers(DropUser(refs[inbound], user, key));
    }
  }

  // A drop takes one from a positive count and nothing from any other.
  lemma DecrementCounts(refs: Refs, inbound: string, user: string, key: string)
    ensures forall i, u, k :: Count(Decrement(refs, inbound, user, key), i, u, k)
              == if (i, u, k) == (inbound, user, key) then LessOne(Count(refs, i, u, k)) else Count(refs, i, u, k)
  {}

  function LessOne(n: int): int { if n > 0 then n - 1 else 0 }

  ghost function CountUnder(refs: Refs, inbound: string, user: string): string -> int {
    k => Count(refs, inbound, user, k)
  }

  // References of one user on one inbound, over all keys.
  ghost function Total(refs: Refs, inbound: string, user: string): int {
    Sum(Peers(refs, inbound, user).Keys, CountUnder(refs, inbound, user))
  }

  lemma TotalMoves(refs: Refs, refs': Refs, inbound: string, user: string, key: string, i: string, u: string)
    requires forall k :: k in Peers(refs, i, u) ==> Count(refs, i, u, k) > 0
    requires forall k :: k in Peers(refs', i, u) ==> Count(refs', i, u, k) > 0
    requires forall k :: k != key || (i, u) != (inbound, user) ==> Count(refs', i, u, k) == Count(refs, i, u, k)
    ensures Total(refs', i, u) - Total(refs, i, u)
            == Count(refs', inbound, user, key) - Count(refs, inbound, user, key)
            || (i, u) != (inbound, user)
    ensures (i, u) != (inbound, user) ==> Total(refs', i, u) == Total(refs, i, u)
  {
    if (i, u) == (inbound, user) {
      TotalWithout(refs, i, u, key);
      TotalWithout(refs', i, u, key);
      SameCounts(refs, refs', i, u, Peers(refs, i, u).Keys - {key});
      SamePeers(refs, refs', i, u, key);
    } else {
      SamePeers(refs, refs', i, u, key);
      SameCounts(refs, refs', i, u, Peers(refs, i, u).Keys);
    }
  }

  lemma TotalWithout(refs: Refs, i: string, u: string, key: string)
    ensures Total(refs, i, u) == Sum(Peers(refs, i, u).Keys - {key}, CountUnder(refs, i, u)) + Count(refs, i, u, key)
  {
    SumAllBut(Peers(refs, i, u).Keys, key, CountUnder(refs, i, u));
  }

  lemma SameCounts(refs: Refs, refs': Refs, i: string, u: string, keys: set<string>)
    requires forall k :: k in keys ==> Count(refs', i, u, k) == Count(refs, i, u, k)
    ensures Sum(keys, CountUnder(refs', i, u)) == Sum(keys, CountUnder(refs, i, u))
  {
    SumSame(keys, CountUnder(refs', i, u), CountUnder(refs, i, u));
  }

  // Keys with a positive count are the keys that are there.
  lemma SamePeers(refs: Refs, refs': Refs, i: string, u: string, key: string)
    requires forall k :: k in Peers(refs, i, u) ==> Count(refs, i, u, k) > 0
    requires forall k :: k in Peers(refs', i, u) ==> Count(refs', i, u, k) > 0
    requires forall k :: k != key ==> Count(refs', i, u, k) == Count(refs, i, u, k)
    ensures Peers(refs, i, u).Keys - {key} == Peers(refs', i, u).Keys - {key}
    ensures Count(refs', i, u, key) == Count(refs, i, u, key) ==> Peers(refs, i, u).Keys == Peers(refs', i, u).Keys
  {
    forall k
      ensures k in Peers(refs, i, u) <==> Count(refs, i, u, k) > 0
      ensures k in Peers(refs', i, u) <==> Count(refs', i, u, k) > 0
    {}
  }

  lemma SumAllBut(s: set<string>, key: string, f: string -> int)
    requires key !in s ==> f(key) == 0
    ensures Sum(s, f) == Sum(s - {key}, f) + f(key)
  {
    if key in s {
      SumPick(s, key, f);
    } else {
      assert s - {key} == s;
    }
  }

  // ---------------------------------------------------------- opens and releases

  // A session that was opened, with the keys it is counted under and whether it
  // is still live; its position in the log is the release function it returned.
  datatype Session = Session(inbound: string, user: string, ip: string, bucket: string, live: bool)

  datatype World = World(devices: Refs, sources: Refs, log: seq<Session>)

  datatype Event = Open(inbound: string, user: string, peer: string) | Release(handle: nat)

  const Nothing := World(map[], map[], [])

  function Opening(net: Net, classifier: Option<seq<Rule>>, inbound: string, user: string, peer: string): Session {
    Session(SourceTag.NormalizeInbound(inbound), user, NormalizePeerIP(net, peer),
            Classify(net, classifier, peer), true)
  }

  function CountIn(refs: Refs, s: Session, key: string): Refs {
    if key == "" then refs else Increment(refs, s.inbound, s.user, key)
  }

  function CountOut(refs: Refs, s: Session, key: string): Refs {
    if key == "" then refs else Decrement(refs, s.inbound, s.user, key)
  }

  function Step(net: Net, classifier: Option<seq<Rule>>, w: World, e: Event): World {
    match e
    case Open(inbound, user, peer) =>
      if user == "" then w
      else
        var s := Opening(net, classifier, inbound, user, peer);
        World(CountIn(w.devices, s, s.ip), CountIn(w.sources, s, s.bucket), w.log + [s])
    case Release(h) =>
      if h >= |w.log| || !w.log[h].live then w
      else
        var s := w.log[h];
        World(CountOut(w.devices, s, s.ip), CountOut(w.sources, s, s.bucket), w.log[h := s.(live := false)])
  }

  function Execute(net: Net, classifier: Option<seq<Rule>>, w: World, events: seq<Event>): World
    decreases |events|
  {
    if events == [] then w else Execute(net, classifier, Step(net, classifier, w, events[0]), events[1..])
  }

  // An open with a user counts its address and its bucket once more on its inbound, by
  // its normalised name, and nothing else.
  lemma OpenCounts(net: Net, classifier: Option<seq<Rule>>, w: World, inbound: string, user: string, peer: string)
    requires user != ""
    ensures var tag, ip, bucket := SourceTag.NormalizeInbound(inbound), NormalizePeerIP(net, peer),
                                   Classify(net, classifier, peer);
            var w' := Step(net, classifier, w, Open(inbound, user, peer));
            && (forall i, u, k :: Count(w'.devices, i, u, k)
                  == Count(w.devices, i, u, k) + if ip != "" && (i, u, k) == (tag, user, ip) then 1 else 0)
            && (forall i, u, k :: Count(w'.sources, i, u, k)
                  == Count(w.sources, i, u, k) + if bucket != "" && (i, u, k) == (tag, user, bucket) then 1 else 0)
            && w'.log == w.log + [Session(tag, user, ip, bucket, true)]
  {
    var s := Opening(net, classifier, inbound, user, peer);
    IncrementCounts(w.devices, s.inbound, s.user, s.ip);
    IncrementCounts(w.sources, s.inbound, s.user, s.bucket);
  }

  // Its release ends this session and no other.
  lemma ReleaseEnds(net: Net, classifier: Option<seq<Rule>>, w: World, h: nat)
    requires h < |w.log|
    ensures var w' := Step(net, classifier, w, Release(h));
            && |w'.log| == |w.log| && !w'.log[h].live
            && forall j :: 0 <= j < |w.log| && j != h ==> w'.log[j] == w.log[j]
  {}

  // What sessions are counted by: an address or a bucket of one user on one
  // inbound, or all of the user's sessions there that have one.
  datatype Key =
    | Of(device: bool, inbound: string, user: string, key: string)
    | Any(device: bool, inbound: string, user: string)

  function KeyOf(s: Session, device: bool): string { if device then s.ip else s.bucket }

  predicate Under(s: Session, k: Key) {
    s.inbound == k.inbound && s.user == k.user && KeyOf(s, k.device) != "" && (k.Of? ==> KeyOf(s, k.device) == k.key)
  }

  function Live(log: seq<Session>, k: Key): nat {
    if log == [] then 0
    else Live(log[..|log| - 1], k) + if log[|log| - 1].live && Under(log[|log| - 1], k) then 1 else 0
  }

  lemma {:induction false} LiveAfterRelease(log: seq<Session>, h: nat, k: Key)
    requires h < |log| && log[h].live
    ensures Live(log[h := log[h].(live := false)], k) == Live(log, k) - if Under(log[h], k) then 1 else 0
  {
    var n := |log| - 1;
    var log' := log[h := log[h].(live := false)];
    if h == n {
      assert log'[..n] == log[..n];
    } else {
      assert log'[..n] == log[..n][h := log[h].(live := false)];
      LiveAfterRelease(log[..n], h, k);
    }
  }

  // The counts are exactly the numbers of live sessions.
  ghost predicate Refines(refs: Refs, device: bool, log: seq<Session>) {
    && Compact(refs)
    && (forall i, u, k :: Count(refs, i, u, k) == Live(log, Of(device, i, u, k)))
    && (forall i, u :: Total(refs, i, u) == Live(log, Any(device, i, u)))
  }

  ghost predicate Inv(w: World) {
    && Refines(w.devices, true, w.log)
    && Refines(w.sources, false, w.log)
    && (forall s :: s in w.log ==> s.user != "" && (s.ip == "" <==> s.bucket == ""))
  }

  // One session more or less, counted under one key more or less.
  ghost predicate Moved(refs: Refs, refs': Refs, inbound: string, user: string, key: string, d: int) {
    forall i, u, k :: Count(refs', i, u, k) == Count(refs, i, u, k) + if (i, u, k) == (inbound, user, key) then d else 0
  }

  ghost predicate LogMoved(log: seq<Session>, log': seq<Session>, s: Session, d: int) {
    forall k :: Live(log', k) == Live(log, k) + if Under(s, k) then d else 0
  }

  lemma MovesRefine(refs: Refs, refs': Refs, device: bool, log: seq<Session>, log': seq<Session>, s: Session, d: int)
    requires Refines(refs, device, log) && Compact(refs') && KeyOf(s, device) != ""
    requires Moved(refs, refs', s.inbound, s.user, KeyOf(s, device), d) && LogMoved(log, log', s, d)
    ensures Refines(refs', device, log')
  {
    forall i, u, k
      ensures Count(refs', i, u, k) == Live(log', Of(device, i, u, k))
    {
      CountMoves(refs, refs', device, log, log', s, d, i, u, k);
    }
    forall i, u
      ensures Total(refs', i, u) == Live(log', Any(device, i, u))
    {
      TotalMovesToo(refs, refs', device, log, log', s, d, i, u);
    }
  }

  lemma CountMoves(refs: Refs, refs': Refs, device: bool, log: seq<Session>, log': seq<Session>, s: Session, d: int,
                   i: string, u: string, k: string)
    requires Count(refs, i, u, k) == Live(log, Of(device, i, u, k)) && KeyOf(s, device) != ""
    requires Moved(refs, refs', s.inbound, s.user, KeyOf(s, device), d) && LogMoved(log, log', s, d)
    ensures Count(refs', i, u, k) == Live(log', Of(device, i, u, k))
  {
    assert Under(s, Of(device, i, u, k)) <==> (s.inbound, s.user, KeyOf(s, device)) == (i, u, k);
  }

  lemma TotalMovesToo(refs: Refs, refs': Refs, device: bool, log: seq<Session>, log': seq<Session>, s: Session, d: int,
                      i: string, u: string)
    requires Compact(refs) && Compact(refs') && Total(refs, i, u) == Live(log, Any(device, i, u))
             && KeyOf(s, device) != ""
    requires Moved(refs, refs', s.inbound, s.user, KeyOf(s, device), d) && LogMoved(log, log', s, d)
    ensures Total(refs', i, u) == Live(log', Any(device, i, u))
  {
    TotalOfMoved(refs, refs', s.inbound, s.user, KeyOf(s, device), d, i, u);
    assert Under(s, Any(device, i, u)) <==> (s.inbound, s.user) == (i, u);
  }

  lemma TotalOfMoved(refs: Refs, refs': Refs, inbound: string, user: string, key: string, d: int, i: string, u: string)
    requires Compact(refs) && Compact(refs') && Moved(refs, refs', inbound, user, key, d)
    ensures Total(refs', i, u) == Total(refs, i, u) + if (i, u) == (inbound, user) then d else 0
  {
    CompactPeers(refs, i, u);
    CompactPeers(refs', i, u);
    TotalMoves(refs, refs', inbound, user, key, i, u);
  }

  lemma CompactPeers(refs: Refs, i: string, u: string)
    requires Compact(refs)
    ensures Positive(Peers(refs, i, u))
    ensures forall k :: k in Peers(refs, i, u) ==> Count(refs, i, u, k) > 0
  {}

  lemma OpenRefines(refs: Refs, device: bool, log: seq<Session>, s: Session)
    requires Refines(refs, device, log) && s.live
    ensures Refines(CountIn(refs, s, KeyOf(s, device)), device, log + [s])
  {
    var key := KeyOf(s, device);
    assert (log + [s])[..|log|] == log;
    assert LogMoved(log, log + [s], s, 1);
    if key != "" {
      IncrementStaysCompact(refs, s.inbound, s.user, key);
      IncrementCounts(refs, s.inbound, s.user, key);
      MovesRefine(refs, CountIn(refs, s, key), device, log, log + [s], s, 1);
    }
  }

  lemma ReleaseRefines(refs: Refs, device: bool, log: seq<Session>, h: nat)
    requires Refines(refs, device, log) && h < |log| && log[h].live
    ensures Refines(CountOut(refs, log[h], KeyOf(log[h], device)), device, log[h := log[h].(live := false)])
  {
    var s := log[h];
    var key := KeyOf(s, device);
    var log' := log[h := s.(live := false)];
    forall k
      ensures Live(log', k) == Live(log, k) + if Under(s, k) then -1 else 0
    {
      LiveAfterRelease(log, h, k);
    }
    if key != "" {
      assert Live(log', Of(device, s.inbound, s.user, key)) >= 0;
      DecrementStaysCompact(refs, s.inbound, s.user, key);
      DecrementCounts(refs, s.inbound, s.user, key);
      MovesRefine(refs, CountOut(refs, s, key), device, log, log', s, -1);
    }
  }

  lemma OpenKeepsInv(w: World, s: Session)
    requires Inv(w) && s.live && s.user != "" && (s.ip == "" <==> s.bucket == "")
    ensures Inv(World(CountIn(w.devices, s, s.ip), CountIn(w.sources, s, s.bucket), w.log + [s]))
  {
    OpenRefines(w.devices, true, w.log, s);
    OpenRefines(w.sources, false, w.log, s);
  }

  lemma ReleaseKeepsInv(w: World, h: nat)
    requires Inv(w) && h < |w.log| && w.log[h].live
    ensures var s := w.log[h];
            Inv(World(CountOut(w.devices, s, s.ip), CountOut(w.sources, s, s.bucket), w.log[h := s.(live := false)]))
  {
    ReleaseRefines(w.devices, true, w.log, h);
    ReleaseRefines(w.sources, false, w.log, h);
    assert w.log[h] in w.log;
  }

  lemma StepKeepsInv(net: Net, classifier: Option<seq<Rule>>, w: World, e: Event)
    requires CleanClassifier(classifier) && Inv(w)
    ensures Inv(Step(net, classifier, w, e))
  {
    match e
    case Open(inbound, user, peer) =>
      if user != "" {
        ClassificationIsClean(net, classifier, peer);
        OpenKeepsInv(w, Opening(net, classifier, inbound, user, peer));
      }
    case Release(h) =>
      if h < |w.log| && w.log[h].live {
        ReleaseKeepsInv(w, h);
      }
  }

  lemma {:induction false} ExecuteKeepsInv(net: Net, classifier: Option<seq<Rule>>, w: World, events: seq<Event>)
    requires CleanClassifier(classifier) && Inv(w)
    ensures Inv(Execute(net, classifier, w, events))
    decreases |events|
  {
    if events != [] {
      StepKeepsInv(net, classifier, w, events[0]);
      ExecuteKeepsInv(net, classifier, Step(net, classifier, w, events[0]), events[1..]);
    }
  }

  lemma NothingInv()
    ensures Inv(Nothing)
  {
    SumZero({}, (k: string) => 0);
    forall i, u
      ensures Total(map[], i, u) == 0
    {
      assert Peers(map[], i, u).Keys == {};
    }
  }

  // Some sequence of opens and releases, releases repeated or unknown included,
  // leads to `w`.
  ghost predicate Reachable(net: Net, classifier: Option<seq<Rule>>, w: World) {
    exists events :: Execute(net, classifier, Nothing, events) == w
  }

  lemma ReachableInv(net: Net, classifier: Option<seq<Rule>>, w: World)
    requires CleanClassifier(classifier) && Reachable(net, classifier, w)
    ensures Inv(w)
  {
    var events :| Execute(net, classifier, Nothing, events) == w;
    NothingInv();
    ExecuteKeepsInv(net, classifier, Nothing, events);
  }

  // After any run both indexes are compact and every stored count is the number
  // of live sessions counted under its key.
  lemma CountsAreLiveSessions(net: Net, classifier: Option<seq<Rule>>, w: World)
    requires CleanClassifier(classifier) && Reachable(net, classifier, w)
    ensures Compact(w.devices) && Compact(w.sources)
    ensures forall i, u, k :: Count(w.devices, i, u, k) == Live(w.log, Of(true, i, u, k))
    ensures forall i, u, k :: Count(w.sources, i, u, k) == Live(w.log, Of(false, i, u, k))
  {
    ReachableInv(net, classifier, w);
  }

  // A session has an address exactly when it has a bucket, so one user has as
  // many references on an inbound in the one index as in the other.
  lemma IndexesAgree(net: Net, classifier: Option<seq<Rule>>, w: World, inbound: string, user: string)
    requires CleanClassifier(classifier) && Reachable(net, classifier, w)
    ensures Total(w.devices, inbound, user) == Total(w.sources, inbound, user)
  {
    ReachableInv(net, classifier, w);
    SameLive(w.log, inbound, user);
  }

  lemma {:induction false} SameLive(log: seq<Session>, inbound: string, user: string)
    requires forall s :: s in log ==> (s.ip == "" <==> s.bucket == "")
    ensures Live(log, Any(true, inbound, user)) == Live(log, Any(false, inbound, user))
  {
    if log != [] {
      SameLive(log[..|log| - 1], inbound, user);
      assert log[|log| - 1] in log;
    }
  }
}
