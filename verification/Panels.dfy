/**
 What the panels receive of a traffic delta: each client sums the tags it reports
 per user (panelapi/client.go), the chain pushes to one panel after the other
 (panelapi/source_map.go, panelapi/multi.go), and the syncer commits only what
 every panel accepted (panelapi/sync.go).
 */
module Panels {
  import opened Text
  import opened Sums
  import opened Int64
  import opened Ledger
  import opened Counter
  import opened Delivery

  // ------------------------------------------------------------ one client

  ghost function Numeric(delta: Deltas): Deltas {
    map t | t in delta :: NumericRow(delta[t])
  }

  ghost function Matched(tags: set<string>, matches: string -> bool): set<string> {
    set t | t in tags && matches(t)
  }

  // The numeric users of some tags, each with the sum over those tags.
  ghost predicate FlatIs(delta: Deltas, tags: set<string>, flat: map<string, Usage>) {
    RowIs(Numeric(delta), tags, flat)
  }

  method Flatten(matches: string -> bool, delta: Deltas) returns (flat: map<string, Usage>)
    ensures FlatIs(delta, Matched(delta.Keys, matches), flat)
  {
    flat := map[];
    var todo := delta.Keys;
    ghost var done := {};
    EmptyRow(Numeric(delta));
    while todo != {}
      invariant todo !! done && todo + done == delta.Keys
      invariant FlatIs(delta, Matched(done, matches), flat)
    {
      var tag :| tag in todo;
      MatchedStep(done, tag, matches);
      if matches(tag) {
        var row := NumericUsers(delta[tag]);
        var next := AddUsers(flat, row);
        RowGrows(Numeric(delta), Matched(done, matches), tag, flat, next);
        flat := next;
      }
      todo, done := todo - {tag}, done + {tag};
    }
  }

  lemma MatchedStep(tags: set<string>, tag: string, matches: string -> bool)
    requires tag !in tags
    ensures tag !in Matched(tags, matches)
    ensures matches(tag) ==> Matched(tags + {tag}, matches) == Matched(tags, matches) + {tag}
    ensures !matches(tag) ==> Matched(tags + {tag}, matches) == Matched(tags, matches)
  {}

  // A user key that strconv.Atoi accepts.
  predicate Fits(user: string) { IsNumericUser(user) && NumberOf(user) <= MAX }

  type Payload = map<nat, Usage>

  // The payload has an entry for every number that some key denotes, with the
  // usage of one such key; when several keys denote it, whichever comes last.
  ghost predicate Pays(flat: map<string, Usage>, payload: Payload) {
    && (forall u :: u in flat && Fits(u) ==> NumberOf(u) in payload)
    && (forall n :: n in payload ==> PaidFor(flat, n, payload[n]))
  }

  ghost predicate PaidFor(flat: map<string, Usage>, n: nat, usage: Usage) {
    exists u :: Denotes(flat, u, n) && flat[u] == usage
  }

  ghost predicate Denotes(flat: map<string, Usage>, u: string, n: nat) {
    u in flat && Fits(u) && NumberOf(u) == n
  }

  method MakePayload(flat: map<string, Usage>) returns (payload: Payload)
    ensures Pays(flat, payload)
  {
    payload := map[];
    var todo := flat.Keys;
    while todo != {}
      invariant todo <= flat.Keys
      invariant forall u :: u in flat && u !in todo && Fits(u) ==> NumberOf(u) in payload
      invariant forall n :: n in payload ==> PaidFor(flat, n, payload[n])
    {
      var user :| user in todo;
      if Fits(user) {
        assert Denotes(flat, user, NumberOf(user));
        payload := payload[NumberOf(user) := flat[user]];
      }
      todo := todo - {user};
    }
  }

  // Every key's usage arrives under its number, and nothing else arrives.
  ghost predicate Faithful(flat: map<string, Usage>, payload: Payload) {
    forall u :: u in flat ==> IsNumericUser(u) && NumberOf(u) in payload && payload[NumberOf(u)] == flat[u]
  }

  // Every payload the client can build is faithful exactly when every key fits
  // and keys that denote the same number carry the same usage.
  lemma PayloadFaithfulIff(flat: map<string, Usage>)
    ensures (forall p :: Pays(flat, p) ==> Faithful(flat, p))
            <==>
            (forall u :: u in flat ==> Fits(u)) &&
            (forall u, v, n :: Denotes(flat, u, n) && Denotes(flat, v, n) ==> flat[u] == flat[v])
  {
    if forall p :: Pays(flat, p) ==> Faithful(flat, p) {
      var base := SomePayload(flat);
      forall u | u in flat
        ensures Fits(u)
      {
        assert Faithful(flat, base);
        assert PaidFor(flat, NumberOf(u), base[NumberOf(u)]);
      }
      forall u, v, n | Denotes(flat, u, n) && Denotes(flat, v, n)
        ensures flat[u] == flat[v]
      {
        var p := base[n := flat[v]];
        assert Pays(flat, p);
        assert Faithful(flat, p);
      }
    }
  }

  ghost function KeyFor(flat: map<string, Usage>, n: nat): string
    requires exists u :: Denotes(flat, u, n)
  {
    var u :| Denotes(flat, u, n);
    u
  }

  lemma SomePayload(flat: map<string, Usage>) returns (p: Payload)
    ensures Pays(flat, p)
  {
    var fitting := set u | u in flat && Fits(u);
    var numbers := set u | u in fitting :: NumberOf(u);
    forall n | n in numbers
      ensures exists u :: Denotes(flat, u, n)
    {
      var u :| u in fitting && NumberOf(u) == n;
      assert Denotes(flat, u, n);
    }
    p := map n | n in numbers :: flat[KeyFor(flat, n)];
    forall u | u in flat && Fits(u)
      ensures NumberOf(u) in p
    {
      assert u in fitting;
    }
  }

  // "007" and "7" are both numeric users, and one of the two is lost.
  lemma LeadingZeroLoses()
    ensures var flat := map["007" := Usage(1, 0), "7" := Usage(2, 0)];
            Fits("007") && Fits("7") && forall p :: Pays(flat, p) ==> !Faithful(flat, p)
  {
    var flat := map["007" := Usage(1, 0), "7" := Usage(2, 0)];
    assert NumberOf("7") == 7 && NumberOf("007") == 7 by {
      assert "7"[..0] == "" && "007"[..2] == "00" && "00"[..1] == "0" && "0"[..0] == "";
    }
  }

  // What a client pays in for some tags.
  ghost predicate Share(delta: Deltas, tags: set<string>, payload: Payload) {
    exists flat :: FlatIs(delta, tags, flat) && Pays(flat, payload)
  }

  // Some matched tag has a user that a payload can carry.
  ghost predicate Sends(matches: string -> bool, delta: Deltas) {
    exists t, u :: t in delta && matches(t) && u in delta[t] && Fits(u)
  }

  // One push of a client. `accept` says whether its panel would take a request;
  // without anything to send no request is made.
  method ClientPush(matches: string -> bool, delta: Deltas, accept: bool) returns (ok: bool, got: Payload)
    ensures ok <==> accept || !Sends(matches, delta)
    ensures ok ==> Share(delta, Matched(delta.Keys, matches), got)
    ensures !ok || !accept ==> got == map[]
  {
    var flat := Flatten(matches, delta);
    got := MakePayload(flat);
    PayloadIsEmptyIff(matches, delta, flat, got);
    if flat == map[] || got == map[] {
      return true, map[];
    }
    if !accept {
      return false, map[];
    }
    return true, got;
  }

  lemma PayloadIsEmptyIff(matches: string -> bool, delta: Deltas, flat: map<string, Usage>, payload: Payload)
    requires FlatIs(delta, Matched(delta.Keys, matches), flat) && Pays(flat, payload)
    ensures payload == map[] <==> !Sends(matches, delta)
  {
    if t, u :| t in delta && matches(t) && u in delta[t] && Fits(u) {
      assert t in Matched(delta.Keys, matches) && u in Numeric(delta)[t];
      assert NumberOf(u) in payload;
    }
    if n :| n in payload {
      assert PaidFor(flat, n, payload[n]);
      var u :| Denotes(flat, u, n);
      assert Mentions(Numeric(delta), Matched(delta.Keys, matches), u);
      var t :| t in Matched(delta.Keys, matches) && t in Numeric(delta) && u in Numeric(delta)[t];
      assert u in delta[t];
    }
  }

  // --------------------------------------------------------- several panels

  type Receipts = map<nat, Payload>

  function ReceiptOf(got: Receipts, panel: nat): Payload {
    if panel in got then got[panel] else map[]
  }

  function ReportedBy(c: Chain, panel: nat): string -> bool { base => c.matches(panel, base) }

  // Pushes each panel its part, in any order, up to the first failure.
  method PushRouted(c: Chain, routed: Routed, accepts: nat -> bool) returns (ok: bool, got: Receipts)
    ensures got.Keys <= routed.Keys
    ensures forall p :: p in got ==> Share(routed[p], Matched(routed[p].Keys, ReportedBy(c, p)), got[p])
    ensures ok ==> got.Keys == routed.Keys
    ensures !ok ==> exists p :: p in routed && !accepts(p) && p !in got && Sends(ReportedBy(c, p), routed[p])
  {
    got := map[];
    var todo := routed.Keys;
    while todo != {}
      invariant todo <= routed.Keys && got.Keys == routed.Keys - todo
      invariant forall p :: p in got ==> Share(routed[p], Matched(routed[p].Keys, ReportedBy(c, p)), got[p])
    {
      var panel :| panel in todo;
      var one, payload := ClientPush(ReportedBy(c, panel), routed[panel], accepts(panel));
      if !one {
        return false, got;
      }
      got := got[panel := payload];
      todo := todo - {panel};
    }
    ok := true;
  }

  // The tags whose traffic the chain delivers to a panel.
  ghost function DeliversTo(c: Chain, tags: set<string>, panel: nat): set<string> {
    set t | t in tags && !c.drops(t) && c.route(t).0 == Some(panel) && c.matches(panel, c.route(t).1)
  }

  // A delta after the source filter.
  ghost predicate Filtered(c: Chain, delta: Deltas, filtered: Deltas) {
    && (forall t :: t in filtered <==> t in delta && !c.drops(t))
    && (forall t :: t in filtered ==> filtered[t] == delta[t])
  }

  ghost predicate RoutedTo(c: Chain, delta: Deltas, out: Routed, panel: nat) {
    forall b :: RoutedAt(delta, TagsTo(c, delta.Keys, panel, b), out, panel, b)
  }

  // Every panel received its share.
  ghost predicate AllShared(c: Chain, delta: Deltas, got: Receipts) {
    forall p :: Share(delta, DeliversTo(c, delta.Keys, p), ReceiptOf(got, p))
  }

  // One push through source filter, source map and clients. When it succeeds,
  // every panel has its full share; when it fails, some panel with a share
  // refused, and the panels in `got` have theirs.
  method PushChain(c: Chain, delta: Deltas, accepts: nat -> bool) returns (ok: bool, got: Receipts)
    ensures ok ==> AllShared(c, delta, got)
    ensures !ok ==> exists p :: !accepts(p) && p !in got && DeliversTo(c, delta.Keys, p) != {}
    ensures forall p :: p in got ==> Share(delta, DeliversTo(c, delta.Keys, p), got[p])
  {
    var filtered := FilterTraffic(c, delta);
    var routed := RouteTraffic(c, filtered);
    ok, got := PushRouted(c, routed, accepts);
    forall p: nat
      ensures p in got || p !in routed ==> Share(delta, DeliversTo(c, delta.Keys, p), ReceiptOf(got, p))
    {
      if p in got {
        LiftShare(c, delta, filtered, routed, p, got[p]);
      } else if p !in routed {
        NoShare(c, delta, filtered, routed, p);
      }
    }
    if !ok {
      ghost var p: nat :| p in routed && !accepts(p) && p !in got && Sends(ReportedBy(c, p), routed[p]);
      RefusedShare(c, delta, filtered, routed, p);
    }
  }

  // A panel's share of the routed delta is its share of the delta.
  lemma LiftShare(c: Chain, delta: Deltas, filtered: Deltas, routed: Routed, p: nat, payload: Payload)
    requires Filtered(c, delta, filtered) && RoutedTo(c, filtered, routed, p) && p in routed
    requires Share(routed[p], Matched(routed[p].Keys, ReportedBy(c, p)), payload)
    ensures Share(delta, DeliversTo(c, delta.Keys, p), payload)
  {
    var flat :| FlatIs(routed[p], Matched(routed[p].Keys, ReportedBy(c, p)), flat) && Pays(flat, payload);
    LiftRow(c, delta, filtered, routed, p, flat);
  }

  lemma LiftRow(c: Chain, delta: Deltas, filtered: Deltas, routed: Routed, p: nat, flat: map<string, Usage>)
    requires Filtered(c, delta, filtered) && RoutedTo(c, filtered, routed, p) && p in routed
    requires FlatIs(routed[p], Matched(routed[p].Keys, ReportedBy(c, p)), flat)
    ensures FlatIs(delta, DeliversTo(c, delta.Keys, p), flat)
  {
    forall u
      ensures u in flat <==> Mentions(Numeric(delta), DeliversTo(c, delta.Keys, p), u)
    {
      RoutedMentions(c, delta, filtered, routed, p, u);
    }
    forall u, d
      ensures IsTotal(Numeric(delta), DeliversTo(c, delta.Keys, p), flat, u, d)
    {
      assert IsTotal(Numeric(routed[p]), Matched(routed[p].Keys, ReportedBy(c, p)), flat, u, d);
      LiftTotal(c, delta, filtered, routed, p, u, d);
    }
  }

  lemma LiftTotal(c: Chain, delta: Deltas, filtered: Deltas, routed: Routed, p: nat, u: string, d: Direction)
    requires Filtered(c, delta, filtered) && RoutedTo(c, filtered, routed, p) && p in routed
    ensures Total(Numeric(routed[p]), Matched(routed[p].Keys, ReportedBy(c, p)), u, d)
            == Total(Numeric(delta), DeliversTo(c, delta.Keys, p), u, d)
  {
    NumericTotal(routed[p], Matched(routed[p].Keys, ReportedBy(c, p)), u, d);
    NumericTotal(delta, DeliversTo(c, delta.Keys, p), u, d);
    RoutedTotal(c, filtered, routed, p, u, d);
    FilteredTotal(c, delta, filtered, p, u, d);
  }

  lemma NumericTotal(delta: Deltas, tags: set<string>, u: string, d: Direction)
    ensures Total(Numeric(delta), tags, u, d) == if IsNumericUser(u) then Total(delta, tags, u, d) else 0
  {
    if IsNumericUser(u) {
      SumSame(tags, Carries(Numeric(delta), u, d), Carries(delta, u, d));
    } else {
      SumZero(tags, Carries(Numeric(delta), u, d));
    }
  }

  lemma FilteredTotal(c: Chain, delta: Deltas, filtered: Deltas, p: nat, u: string, d: Direction)
    requires Filtered(c, delta, filtered)
    ensures Total(filtered, DeliversTo(c, filtered.Keys, p), u, d) == Total(delta, DeliversTo(c, delta.Keys, p), u, d)
  {
    assert DeliversTo(c, filtered.Keys, p) == DeliversTo(c, delta.Keys, p);
    SumSame(DeliversTo(c, delta.Keys, p), Carries(filtered, u, d), Carries(delta, u, d));
  }

  // Adding up the rows of a panel that its client reports adds up the tags that
  // lead to those rows.
  lemma RoutedTotal(c: Chain, delta: Deltas, routed: Routed, p: nat, u: string, d: Direction)
    requires RoutedTo(c, delta, routed, p) && p in routed && forall t :: t in delta ==> !c.drops(t)
    ensures Total(routed[p], Matched(routed[p].Keys, ReportedBy(c, p)), u, d)
            == Total(delta, DeliversTo(c, delta.Keys, p), u, d)
  {
    var bases := Matched(routed[p].Keys, ReportedBy(c, p));
    var tags := DeliversTo(c, delta.Keys, p);
    forall t | t in tags
      ensures BaseOf(c)(t) in bases
    {
      DeliveredBase(c, delta, routed, p, t);
    }
    forall b | b in bases
      ensures Carries(routed[p], u, d)(b) == Sum(Members(tags, BaseOf(c), b), Carries(delta, u, d))
    {
      BaseTotal(c, delta, routed, p, b, u, d);
    }
    SumByClass(tags, bases, BaseOf(c), Carries(delta, u, d), Carries(routed[p], u, d));
  }

  function BaseOf(c: Chain): string -> string { tag => c.route(tag).1 }

  lemma DeliveredBase(c: Chain, delta: Deltas, routed: Routed, p: nat, t: string)
    requires RoutedTo(c, delta, routed, p) && t in DeliversTo(c, delta.Keys, p)
    ensures p in routed && BaseOf(c)(t) in Matched(routed[p].Keys, ReportedBy(c, p))
  {
    var b := BaseOf(c)(t);
    assert RoutedAt(delta, TagsTo(c, delta.Keys, p, b), routed, p, b);
    assert t in TagsTo(c, delta.Keys, p, b);
  }

  lemma BaseTotal(c: Chain, delta: Deltas, routed: Routed, p: nat, b: string, u: string, d: Direction)
    requires RoutedTo(c, delta, routed, p) && p in routed && forall t :: t in delta ==> !c.drops(t)
    requires b in Matched(routed[p].Keys, ReportedBy(c, p))
    ensures Carries(routed[p], u, d)(b)
            == Sum(Members(DeliversTo(c, delta.Keys, p), BaseOf(c), b), Carries(delta, u, d))
  {
    assert RoutedAt(delta, TagsTo(c, delta.Keys, p, b), routed, p, b);
    assert IsTotal(delta, TagsTo(c, delta.Keys, p, b), RowAt(routed, p, b), u, d);
    assert Members(DeliversTo(c, delta.Keys, p), BaseOf(c), b) == TagsTo(c, delta.Keys, p, b);
  }

  lemma RoutedMentions(c: Chain, delta: Deltas, filtered: Deltas, routed: Routed, p: nat, u: string)
    requires Filtered(c, delta, filtered) && RoutedTo(c, filtered, routed, p) && p in routed
    ensures Mentions(Numeric(routed[p]), Matched(routed[p].Keys, ReportedBy(c, p)), u)
            <==> Mentions(Numeric(delta), DeliversTo(c, delta.Keys, p), u)
  {
    if b :| b in Matched(routed[p].Keys, ReportedBy(c, p)) && u in Numeric(routed[p])[b] {
      var t := TagOfRow(c, filtered, routed, p, b, u);
      assert t in DeliversTo(c, delta.Keys, p) && u in Numeric(delta)[t];
    }
    if t :| t in DeliversTo(c, delta.Keys, p) && u in Numeric(delta)[t] {
      assert t in DeliversTo(c, filtered.Keys, p);
      DeliveredBase(c, filtered, routed, p, t);
      RowOfTag(c, filtered, routed, p, t, u);
      assert u in Numeric(routed[p])[BaseOf(c)(t)];
    }
  }

  lemma TagOfRow(c: Chain, delta: Deltas, routed: Routed, p: nat, b: string, u: string) returns (t: string)
    requires RoutedTo(c, delta, routed, p) && HasRow(routed, p, b) && u in routed[p][b]
    ensures LeadsTo(c, t, p, b) && t in delta && u in delta[t]
  {
    assert RoutedAt(delta, TagsTo(c, delta.Keys, p, b), routed, p, b);
    t :| t in TagsTo(c, delta.Keys, p, b) && t in delta && u in delta[t];
  }

  lemma RowOfTag(c: Chain, delta: Deltas, routed: Routed, p: nat, t: string, u: string)
    requires RoutedTo(c, delta, routed, p) && t in delta && u in delta[t] && LeadsTo(c, t, p, BaseOf(c)(t))
    ensures HasRow(routed, p, BaseOf(c)(t)) && u in routed[p][BaseOf(c)(t)]
  {
    var b := BaseOf(c)(t);
    assert RoutedAt(delta, TagsTo(c, delta.Keys, p, b), routed, p, b);
    assert t in TagsTo(c, delta.Keys, p, b);
  }

  lemma NoShare(c: Chain, delta: Deltas, filtered: Deltas, routed: Routed, p: nat)
    requires Filtered(c, delta, filtered) && RoutedTo(c, filtered, routed, p) && p !in routed
    ensures Share(delta, DeliversTo(c, delta.Keys, p), map[])
  {
    assert DeliversTo(c, delta.Keys, p) == {} by {
      forall t | t in DeliversTo(c, delta.Keys, p)
        ensures false
      {
        assert t in DeliversTo(c, filtered.Keys, p);
        DeliveredBase(c, filtered, routed, p, t);
      }
    }
    EmptyRow(Numeric(delta));
    assert FlatIs(delta, DeliversTo(c, delta.Keys, p), map[]) && Pays(map[], map[]);
  }

  lemma RefusedShare(c: Chain, delta: Deltas, filtered: Deltas, routed: Routed, p: nat)
    requires Filtered(c, delta, filtered) && RoutedTo(c, filtered, routed, p)
    requires p in routed && Sends(ReportedBy(c, p), routed[p])
    ensures DeliversTo(c, delta.Keys, p) != {}
  {
    var b, u :| b in routed[p] && ReportedBy(c, p)(b) && u in routed[p][b] && Fits(u);
    assert RoutedAt(filtered, TagsTo(c, filtered.Keys, p, b), routed, p, b);
    var t :| t in TagsTo(c, filtered.Keys, p, b);
    assert t in DeliversTo(c, delta.Keys, p);
  }

  // One push through a source filter and several clients, in order, up to the
  // first failure: each of the `n` clients reports the tags it matches itself. It
  // fails at a client that refuses and has something to send.
  method PushMulti(c: Chain, n: nat, delta: Deltas, accepts: nat -> bool) returns (ok: bool, got: seq<Payload>)
    ensures |got| <= n && (ok <==> |got| == n)
    ensures !ok ==> !accepts(|got|) && SendsTo(c, delta, |got|)
    ensures forall i :: 0 <= i < |got| ==> (accepts(i) || !SendsTo(c, delta, i)) && IsShareOf(c, delta, i, got[i])
  {
    var filtered := FilterTraffic(c, delta);
    got := [];
    for i := 0 to n
      invariant |got| == i
      invariant forall j :: 0 <= j < i ==> (accepts(j) || !SendsTo(c, delta, j)) && IsShareOf(c, delta, j, got[j])
    {
      var one, payload := PushFiltered(c, i, delta, filtered, accepts(i));
      if !one {
        return false, got;
      }
      got := got + [payload];
    }
    ok := true;
  }

  // What a client of several receives of a delta.
  ghost predicate IsShareOf(c: Chain, delta: Deltas, panel: nat, payload: Payload) {
    Share(delta, MatchedTags(c, delta.Keys, panel), payload)
  }

  // Some tag that a client of several matches has a user that a payload can carry.
  ghost predicate SendsTo(c: Chain, delta: Deltas, panel: nat) {
    exists t, u :: t in MatchedTags(c, delta.Keys, panel) && u in delta[t] && Fits(u)
  }

  method PushFiltered(c: Chain, panel: nat, ghost delta: Deltas, filtered: Deltas, accept: bool)
    returns (ok: bool, got: Payload)
    requires Filtered(c, delta, filtered)
    ensures ok <==> accept || !SendsTo(c, delta, panel)
    ensures ok ==> IsShareOf(c, delta, panel, got)
  {
    ok, got := ClientPush(ReportedBy(c, panel), filtered, accept);
    FilteredSends(c, delta, filtered, panel);
    if ok {
      FilteredShare(c, delta, filtered, panel, got);
    }
  }

  lemma FilteredSends(c: Chain, delta: Deltas, filtered: Deltas, panel: nat)
    requires Filtered(c, delta, filtered)
    ensures Sends(ReportedBy(c, panel), filtered) <==> SendsTo(c, delta, panel)
  {
    if t, u :| t in filtered && ReportedBy(c, panel)(t) && u in filtered[t] && Fits(u) {
      assert t in MatchedTags(c, delta.Keys, panel) && u in delta[t];
    }
    if t, u :| t in MatchedTags(c, delta.Keys, panel) && u in delta[t] && Fits(u) {
      assert t in filtered && ReportedBy(c, panel)(t) && u in filtered[t];
    }
  }

  ghost function MatchedTags(c: Chain, tags: set<string>, panel: nat): set<string> {
    set t | t in tags && !c.drops(t) && c.matches(panel, t)
  }

  lemma FilteredShare(c: Chain, delta: Deltas, filtered: Deltas, panel: nat, payload: Payload)
    requires Filtered(c, delta, filtered)
    requires Share(filtered, Matched(filtered.Keys, ReportedBy(c, panel)), payload)
    ensures Share(delta, MatchedTags(c, delta.Keys, panel), payload)
  {
    var tags := MatchedTags(c, delta.Keys, panel);
    assert tags == Matched(filtered.Keys, ReportedBy(c, panel));
    var flat :| FlatIs(filtered, tags, flat) && Pays(flat, payload);
    SameRows(Numeric(filtered), Numeric(delta), tags, flat);
    assert FlatIs(delta, tags, flat);
  }

  lemma SameRows(delta: Deltas, delta': Deltas, tags: set<string>, row: map<string, Usage>)
    requires forall t :: t in tags ==> t in delta && t in delta' && delta[t] == delta'[t]
    requires RowIs(delta, tags, row)
    ensures RowIs(delta', tags, row)
  {
    forall u
      ensures Mentions(delta', tags, u) <==> Mentions(delta, tags, u)
    {}
    forall u, d
      ensures IsTotal(delta', tags, row, u, d)
    {
      assert IsTotal(delta, tags, row, u, d);
      SumSame(tags, Carries(delta, u, d), Carries(delta', u, d));
    }
  }

  // ------------------------------------------------------------ conservation

  function Entry(payload: Payload, n: nat): Usage {
    if n in payload then payload[n] else Usage(0, 0)
  }

  // A numeric key for a number that some of the tags mention.
  ghost predicate Listed(delta: Deltas, tags: set<string>, u: string, n: nat) {
    Mentions(delta, tags, u) && IsNumericUser(u) && NumberOf(u) == n
  }

  ghost function KeysFor(delta: Deltas, n: nat): set<string> {
    set t, u | t in delta && u in delta[t] && IsNumericUser(u) && NumberOf(u) == n :: u
  }

  ghost function UsageIn(delta: Deltas, d: Direction): (string, string) -> int {
    (t, u) => DeltaAt(delta, t, u).Of(d)
  }

  // What some tags carry for a number, under whichever keys.
  ghost function Bytes(delta: Deltas, tags: set<string>, n: nat, d: Direction): int {
    Sum(tags, RowSum(KeysFor(delta, n), UsageIn(delta, d)))
  }

  ghost function TotalsIn(delta: Deltas, tags: set<string>, d: Direction): string -> int {
    u => Total(delta, tags, u, d)
  }

  lemma BytesByKey(delta: Deltas, tags: set<string>, n: nat, d: Direction)
    ensures Bytes(delta, tags, n, d) == Sum(KeysFor(delta, n), TotalsIn(delta, tags, d))
  {
    SumSwap(tags, KeysFor(delta, n), UsageIn(delta, d));
    forall u | u in KeysFor(delta, n)
      ensures ColumnSum(tags, UsageIn(delta, d))(u) == TotalsIn(delta, tags, d)(u)
    {
      SumSame(tags, Column(UsageIn(delta, d), u), Carries(delta, u, d));
    }
    SumSame(KeysFor(delta, n), ColumnSum(tags, UsageIn(delta, d)), TotalsIn(delta, tags, d));
  }

  // A key with bytes is the only one for its number, and the number is one that a
  // machine integer holds.
  ghost predicate OneKey(delta: Deltas, tags: set<string>, n: nat, d: Direction) {
    forall u, v :: Listed(delta, tags, u, n) && Listed(delta, tags, v, n) && Total(delta, tags, u, d) != 0 ==>
      u == v && n <= MAX
  }

  // An entry is what one of the keys for its number carries.
  lemma EntryIsOfAKey(delta: Deltas, tags: set<string>, payload: Payload, n: nat, d: Direction)
    requires Share(delta, tags, payload)
    ensures n in payload <==> n <= MAX && exists u :: Listed(delta, tags, u, n)
    ensures n in payload ==> exists u :: Listed(delta, tags, u, n) && payload[n].Of(d) == Total(delta, tags, u, d)
  {
    var flat :| FlatIs(delta, tags, flat) && Pays(flat, payload);
    forall u
      ensures Listed(delta, tags, u, n) && n <= MAX <==> Denotes(flat, u, n)
    {
      NumericMentions(delta, tags, u);
    }
    if n in payload {
      assert PaidFor(flat, n, payload[n]);
      var u :| Denotes(flat, u, n) && flat[u] == payload[n];
      FlatOf(delta, tags, flat, u, d);
    }
  }

  lemma NumericMentions(delta: Deltas, tags: set<string>, u: string)
    ensures Mentions(Numeric(delta), tags, u) <==> Mentions(delta, tags, u) && IsNumericUser(u)
  {
    if t :| t in tags && t in delta && u in delta[t] && IsNumericUser(u) {
      assert u in Numeric(delta)[t];
    }
  }

  lemma FlatOf(delta: Deltas, tags: set<string>, flat: map<string, Usage>, u: string, d: Direction)
    requires FlatIs(delta, tags, flat) && u in flat
    ensures flat[u].Of(d) == Total(delta, tags, u, d)
  {
    NumericMentions(delta, tags, u);
    assert IsTotal(Numeric(delta), tags, flat, u, d);
    NumericTotal(delta, tags, u, d);
  }

  // Keys that no tag mentions carry nothing.
  lemma NotListed(delta: Deltas, tags: set<string>, u: string, d: Direction)
    requires !Mentions(delta, tags, u)
    ensures Total(delta, tags, u, d) == 0
  {
    SumZero(tags, Carries(delta, u, d));
  }

  // With one key for the number, the entry has all that the tags carry for it.
  lemma ShareIsExact(delta: Deltas, tags: set<string>, payload: Payload, n: nat, d: Direction)
    requires OneKey(delta, tags, n, d) && Share(delta, tags, payload)
    ensures Entry(payload, n).Of(d) == Bytes(delta, tags, n, d)
  {
    BytesByKey(delta, tags, n, d);
    EntryIsOfAKey(delta, tags, payload, n, d);
    var f := TotalsIn(delta, tags, d);
    if u :| Listed(delta, tags, u, n) && f(u) != 0 {
      AllBut(delta, tags, u, n, d);
    } else {
      forall u | u in KeysFor(delta, n)
        ensures f(u) == 0
      {
        if !Mentions(delta, tags, u) {
          NotListed(delta, tags, u, d);
        }
      }
      SumZero(KeysFor(delta, n), f);
    }
  }

  lemma IsKey(delta: Deltas, tags: set<string>, u: string, n: nat)
    requires Listed(delta, tags, u, n)
    ensures u in KeysFor(delta, n)
  {}

  lemma AllBut(delta: Deltas, tags: set<string>, u: string, n: nat, d: Direction)
    requires OneKey(delta, tags, n, d) && Listed(delta, tags, u, n) && Total(delta, tags, u, d) != 0
    ensures Sum(KeysFor(delta, n), TotalsIn(delta, tags, d)) == Total(delta, tags, u, d)
  {
    IsKey(delta, tags, u, n);
    SumPick(KeysFor(delta, n), u, TotalsIn(delta, tags, d));
    forall v | v in KeysFor(delta, n) - {u}
      ensures TotalsIn(delta, tags, d)(v) == 0
    {
      if !Listed(delta, tags, v, n) {
        NotListed(delta, tags, v, d);
      }
    }
    SumZero(KeysFor(delta, n) - {u}, TotalsIn(delta, tags, d));
  }

  ghost predicate NonNegative(delta: Deltas) {
    forall t, u :: t in delta && u in delta[t] ==> delta[t][u].up >= 0 && delta[t][u].down >= 0
  }

  lemma TotalsAreCounts(delta: Deltas, tags: set<string>, u: string, d: Direction)
    requires NonNegative(delta)
    ensures Total(delta, tags, u, d) >= 0
  {
    SumNonNegative(tags, Carries(delta, u, d));
  }

  // An entry never has more than the tags carry.
  lemma EntryAtMost(delta: Deltas, tags: set<string>, payload: Payload, n: nat, d: Direction)
    requires NonNegative(delta) && Share(delta, tags, payload)
    ensures Entry(payload, n).Of(d) <= Bytes(delta, tags, n, d)
  {
    EntryIsOfAKey(delta, tags, payload, n, d);
    if n in payload {
      var u :| Listed(delta, tags, u, n) && payload[n].Of(d) == Total(delta, tags, u, d);
      KeysAtMost(delta, tags, {u}, n, d);
      SumOne(u, TotalsIn(delta, tags, d));
    } else {
      KeysAtMost(delta, tags, {}, n, d);
    }
  }

  lemma KeysAtMost(delta: Deltas, tags: set<string>, keys: set<string>, n: nat, d: Direction)
    requires NonNegative(delta) && keys <= KeysFor(delta, n)
    ensures Sum(keys, TotalsIn(delta, tags, d)) <= Bytes(delta, tags, n, d)
  {
    BytesByKey(delta, tags, n, d);
    forall u
      ensures TotalsIn(delta, tags, d)(u) >= 0
    {
      TotalsAreCounts(delta, tags, u, d);
    }
    SumSubset(keys, KeysFor(delta, n), TotalsIn(delta, tags, d));
  }

  lemma SomeRow(delta: Deltas, tags: set<string>) returns (row: map<string, Usage>)
    ensures RowIs(delta, tags, row)
  {
    var users := set t, u | t in tags && t in delta && u in delta[t] :: u;
    row := map u | u in users :: Usage(Total(delta, tags, u, Up), Total(delta, tags, u, Down));
    forall u, d
      ensures IsTotal(delta, tags, row, u, d)
    {
      if u !in users {
        NotListed(delta, tags, u, d);
      }
    }
  }

  lemma SomeShare(delta: Deltas, tags: set<string>) returns (payload: Payload)
    ensures Share(delta, tags, payload)
  {
    var flat := SomeRow(Numeric(delta), tags);
    payload := SomePayload(flat);
    assert FlatIs(delta, tags, flat);
  }

  // Without that, some payload has less.
  lemma SomeShareIsShort(delta: Deltas, tags: set<string>, n: nat, d: Direction) returns (payload: Payload)
    requires NonNegative(delta) && !OneKey(delta, tags, n, d)
    ensures Share(delta, tags, payload) && Entry(payload, n).Of(d) < Bytes(delta, tags, n, d)
  {
    var u, v :| Listed(delta, tags, u, n) && Listed(delta, tags, v, n) && Total(delta, tags, u, d) != 0
                && (u != v || n > MAX);
    TotalsAreCounts(delta, tags, u, d);
    payload := ShareWith(delta, tags, v, n, d);
    if u != v {
      TwoKeys(delta, tags, u, v, n, d);
      TotalsAreCounts(delta, tags, v, d);
    } else {
      IsKey(delta, tags, u, n);
      KeysAtMost(delta, tags, {u}, n, d);
      SumOne(u, TotalsIn(delta, tags, d));
    }
  }

  // A payload that takes the usage of this key, if it takes any.
  lemma ShareWith(delta: Deltas, tags: set<string>, u: string, n: nat, d: Direction) returns (payload: Payload)
    requires Listed(delta, tags, u, n)
    ensures Share(delta, tags, payload)
    ensures Entry(payload, n).Of(d) == if n <= MAX then Total(delta, tags, u, d) else 0
  {
    var flat := SomeRow(Numeric(delta), tags);
    payload := SomePayload(flat);
    if n <= MAX {
      NumericMentions(delta, tags, u);
      assert Denotes(flat, u, n);
      payload := payload[n := flat[u]];
      FlatOf(delta, tags, flat, u, d);
    }
    assert Pays(flat, payload);
  }

  lemma TwoKeys(delta: Deltas, tags: set<string>, u: string, v: string, n: nat, d: Direction)
    requires NonNegative(delta) && u != v && Listed(delta, tags, u, n) && Listed(delta, tags, v, n)
    ensures Total(delta, tags, u, d) + Total(delta, tags, v, d) <= Bytes(delta, tags, n, d)
  {
    IsKey(delta, tags, u, n);
    IsKey(delta, tags, v, n);
    KeysAtMost(delta, tags, {u} + {v}, n, d);
    SumTwo(u, v, TotalsIn(delta, tags, d));
  }

  // The keys that the agent hands out, printed ids in the range of a machine integer,
  // are alone for their number.
  lemma PrintedIdsAreAlone(delta: Deltas, tags: set<string>, n: nat, d: Direction)
    requires forall t, u :: t in delta && u in delta[t] && IsNumericUser(u) ==> Fits(u) && u == Decimal(NumberOf(u))
    ensures OneKey(delta, tags, n, d)
  {}

  ghost function Dropped(c: Chain, tags: set<string>): set<string> { set t | t in tags && c.drops(t) }

  ghost function Unrouted(c: Chain, tags: set<string>): set<string> {
    set t | t in tags && !c.drops(t) && c.route(t).0.None?
  }

  ghost function Unmatched(c: Chain, tags: set<string>): set<string> {
    set t | t in tags && !c.drops(t) && c.route(t).0.Some? && !c.matches(c.route(t).0.value, c.route(t).1)
  }

  ghost function Delivered(c: Chain, tags: set<string>): set<string> {
    set t | t in tags && !c.drops(t) && c.route(t).0.Some? && c.matches(c.route(t).0.value, c.route(t).1)
  }

  function PanelOfTag(c: Chain, tag: string): nat {
    if c.route(tag).0.Some? then c.route(tag).0.value else 0
  }

  ghost function PanelOf(c: Chain): string -> nat { t => PanelOfTag(c, t) }

  // What a panel received for a number.
  ghost function PaidTo(got: Receipts, n: nat, d: Direction): nat -> int {
    (p: nat) => Entry(ReceiptOf(got, p), n).Of(d)
  }

  ghost function ToPanel(c: Chain, tags: set<string>, f: string -> int): nat -> int {
    (p: nat) => Sum(DeliversTo(c, tags, p), f)
  }

  ghost function BytesTo(c: Chain, delta: Deltas, n: nat, d: Direction): nat -> int {
    ToPanel(c, delta.Keys, RowSum(KeysFor(delta, n), UsageIn(delta, d)))
  }

  // What a delta carries for a number is what the source filter dropped, plus what had
  // no panel or no client to report it, plus what the panels received.
  ghost predicate Accounted(c: Chain, delta: Deltas, got: Receipts, panels: set<nat>, n: nat, d: Direction) {
    Bytes(delta, delta.Keys, n, d)
    == Bytes(delta, Dropped(c, delta.Keys), n, d) + Bytes(delta, Unrouted(c, delta.Keys), n, d)
       + Bytes(delta, Unmatched(c, delta.Keys), n, d) + Sum(panels, PaidTo(got, n, d))
  }

  ghost predicate Covers(c: Chain, delta: Deltas, panels: set<nat>) {
    forall t :: t in delta && c.route(t).0.Some? ==> c.route(t).0.value in panels
  }

  // However the tags are weighted, they split into these parts.
  lemma TagsSplit(c: Chain, tags: set<string>, panels: set<nat>, f: string -> int)
    requires forall t :: t in tags && c.route(t).0.Some? ==> c.route(t).0.value in panels
    ensures Sum(tags, f) == Sum(Dropped(c, tags), f) + Sum(Unrouted(c, tags), f) + Sum(Unmatched(c, tags), f)
                            + Sum(panels, ToPanel(c, tags, f))
  {
    Parts(c, tags);
    SumDisjoint(Dropped(c, tags), Unrouted(c, tags), f);
    SumDisjoint(Dropped(c, tags) + Unrouted(c, tags), Unmatched(c, tags), f);
    SumDisjoint(Dropped(c, tags) + Unrouted(c, tags) + Unmatched(c, tags), Delivered(c, tags), f);
    forall p | p in panels
      ensures ToPanel(c, tags, f)(p) == Sum(Members(Delivered(c, tags), PanelOf(c), p), f)
    {
      assert Members(Delivered(c, tags), PanelOf(c), p) == DeliversTo(c, tags, p);
    }
    SumByClass(Delivered(c, tags), panels, PanelOf(c), f, ToPanel(c, tags, f));
  }

  lemma BytesSplit(c: Chain, delta: Deltas, got: Receipts, panels: set<nat>, n: nat, d: Direction)
    requires Covers(c, delta, panels)
    ensures Accounted(c, delta, got, panels, n, d)
            <==> Sum(panels, PaidTo(got, n, d)) == Sum(panels, BytesTo(c, delta, n, d))
  {
    TagsSplit(c, delta.Keys, panels, RowSum(KeysFor(delta, n), UsageIn(delta, d)));
  }

  // After a push that every panel accepted, every byte of a number is accounted for
  // if each panel gets it under one key.
  lemma EveryByteIsAccounted(c: Chain, delta: Deltas, got: Receipts, panels: set<nat>, n: nat, d: Direction)
    requires Covers(c, delta, panels) && AllShared(c, delta, got)
    requires forall p :: p in panels ==> OneKey(delta, DeliversTo(c, delta.Keys, p), n, d)
    ensures Accounted(c, delta, got, panels, n, d)
  {
    BytesSplit(c, delta, got, panels, n, d);
    forall p | p in panels
      ensures PaidTo(got, n, d)(p) == BytesTo(c, delta, n, d)(p)
    {
      ShareIsExact(delta, DeliversTo(c, delta.Keys, p), ReceiptOf(got, p), n, d);
    }
    SumSame(panels, PaidTo(got, n, d), BytesTo(c, delta, n, d));
  }

  // That is the exact condition, since the panels can receive anything their shares
  // allow.
  lemma AccountedIff(c: Chain, delta: Deltas, panels: set<nat>, n: nat, d: Direction)
    requires Covers(c, delta, panels) && NonNegative(delta)
    ensures (forall got :: AllShared(c, delta, got) ==> Accounted(c, delta, got, panels, n, d))
            <==> forall p :: p in panels ==> OneKey(delta, DeliversTo(c, delta.Keys, p), n, d)
  {
    if forall p :: p in panels ==> OneKey(delta, DeliversTo(c, delta.Keys, p), n, d) {
      forall got | AllShared(c, delta, got)
        ensures Accounted(c, delta, got, panels, n, d)
      {
        EveryByteIsAccounted(c, delta, got, panels, n, d);
      }
    }
    if p :| p in panels && !OneKey(delta, DeliversTo(c, delta.Keys, p), n, d) {
      var got := ShortReceipts(c, delta, panels, p, n, d);
    }
  }

  lemma ShortReceipts(c: Chain, delta: Deltas, panels: set<nat>, p: nat, n: nat, d: Direction) returns (got: Receipts)
    requires Covers(c, delta, panels) && NonNegative(delta)
    requires p in panels && !OneKey(delta, DeliversTo(c, delta.Keys, p), n, d)
    ensures AllShared(c, delta, got) && !Accounted(c, delta, got, panels, n, d)
  {
    var short := SomeShareIsShort(delta, DeliversTo(c, delta.Keys, p), n, d);
    got := ReceiptsWith(c, delta, panels, p, short);
    BytesSplit(c, delta, got, panels, n, d);
    forall q | q in panels
      ensures PaidTo(got, n, d)(q) <= BytesTo(c, delta, n, d)(q)
    {
      EntryAtMost(delta, DeliversTo(c, delta.Keys, q), ReceiptOf(got, q), n, d);
    }
    SumLess(panels, PaidTo(got, n, d), BytesTo(c, delta, n, d), p);
  }

  // Receipts in which one panel has this payload.
  lemma ReceiptsWith(c: Chain, delta: Deltas, panels: set<nat>, p: nat, payload: Payload) returns (got: Receipts)
    requires Covers(c, delta, panels) && p in panels && Share(delta, DeliversTo(c, delta.Keys, p), payload)
    ensures AllShared(c, delta, got) && ReceiptOf(got, p) == payload
  {
    var todo := panels - {p};
    got := map[p := payload];
    while todo != {}
      invariant todo <= panels && got.Keys == panels - todo
      invariant forall q :: q in got ==> Share(delta, DeliversTo(c, delta.Keys, q), got[q])
      invariant p in got && got[p] == payload
    {
      var q :| q in todo;
      var other := SomeShare(delta, DeliversTo(c, delta.Keys, q));
      got, todo := got[q := other], todo - {q};
    }
    forall q | q !in got
      ensures Share(delta, DeliversTo(c, delta.Keys, q), map[])
    {
      NothingFor(c, delta, panels, q);
    }
  }

  lemma NothingFor(c: Chain, delta: Deltas, panels: set<nat>, p: nat)
    requires Covers(c, delta, panels) && p !in panels
    ensures Share(delta, DeliversTo(c, delta.Keys, p), map[])
  {
    assert DeliversTo(c, delta.Keys, p) == {};
    EmptyRow(Numeric(delta));
    assert FlatIs(delta, {}, map[]) && Pays(map[], map[]);
  }

  lemma Parts(c: Chain, tags: set<string>)
    ensures tags == Dropped(c, tags) + Unrouted(c, tags) + Unmatched(c, tags) + Delivered(c, tags)
    ensures Dropped(c, tags) !! Unrouted(c, tags)
    ensures Dropped(c, tags) + Unrouted(c, tags) !! Unmatched(c, tags)
    ensures Dropped(c, tags) + Unrouted(c, tags) + Unmatched(c, tags) !! Delivered(c, tags)
  {}

  // What a push through the chain can come to: full shares for all panels when it
  // succeeds, and for those it reached when it fails.
  ghost predicate PushedAs(c: Chain, delta: Deltas, ok: bool, got: Receipts) {
    && (ok ==> AllShared(c, delta, got))
    && forall p :: p in got ==> Share(delta, DeliversTo(c, delta.Keys, p), got[p])
  }

  // One flush through the chain: snapshot, push, and a commit of every numeric
  // user only when every panel accepted.
  method FlushChain(hook: Hook, c: Chain, accepts: nat -> bool) returns (ok: bool, delta: Deltas, got: Receipts)
    requires hook.Valid()
    modifies hook.Storages()`committedUp, hook.Storages()`committedDown
    ensures PushedAs(c, delta, ok, got)
    ensures forall t, u :: hook.Registered(t, u) && IsNumericUser(u) ==>
              DeltaAt(delta, t, u) == Flushed(true, u, old(hook.StorageOf(t, u).Owed()))
    ensures forall t, u :: hook.Registered(t, u) ==>
              hook.StorageOf(t, u).CommittedUsage()
              == old(hook.StorageOf(t, u).CommittedUsage()).Add(Flushed(ok, u, old(hook.StorageOf(t, u).Owed())))
  {
    delta := hook.SnapshotDelta();
    ok, got := PushChain(c, delta, accepts);
    PushDelta(hook, delta, ok);
  }
}
