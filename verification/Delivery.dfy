/**
 The way of a traffic delta to the panels: dropped by source, routed by source,
 and summed per user by the client of each panel.
 */
module Delivery {
  import opened Text
  import opened Sums
  import opened Ledger
  import opened Counter
  import opened SourceTag

  // The chain of panels, by what it does with an inbound tag: whether the source
  // filter drops it, the panel and the base tag it is routed to, and whether the
  // client of a panel reports a base tag.
  datatype Chain = Chain(
    drops: string -> bool,
    route: string -> (Option<nat>, string),
    matches: (nat, string) -> bool)

  // ---------------------------------------------------------------- the loops

  method FilterTraffic(c: Chain, delta: Deltas) returns (out: Deltas)
    ensures forall t :: t in out <==> t in delta && !c.drops(t)
    ensures forall t :: t in out ==> out[t] == delta[t]
  {
    out := map[];
    var todo := delta.Keys;
    while todo != {}
      invariant todo <= delta.Keys
      invariant forall t :: t in out <==> t in delta && t !in todo && !c.drops(t)
      invariant forall t :: t in out ==> out[t] == delta[t]
    {
      var tag :| tag in todo;
      if !c.drops(tag) {
        out := out[tag := delta[tag]];
      }
      todo := todo - {tag};
    }
  }

  // A user's total after adding what `users` has for it.
  ghost predicate AddedAt(r: map<string, Usage>, total: map<string, Usage>, users: map<string, Usage>, u: string) {
    && Delta(r, u).up == Delta(total, u).up + Delta(users, u).up
    && Delta(r, u).down == Delta(total, u).down + Delta(users, u).down
    && (u in r <==> u in total || u in users)
  }

  method AddUsers(total: map<string, Usage>, users: map<string, Usage>) returns (r: map<string, Usage>)
    ensures forall u :: AddedAt(r, total, users, u)
  {
    r := total;
    var todo := users.Keys;
    while todo != {}
      invariant todo <= users.Keys
      invariant forall u :: u in users && u !in todo ==> AddedAt(r, total, users, u)
      invariant forall u :: u in todo || u !in users ==> Delta(r, u) == Delta(total, u) && (u in r <==> u in total)
    {
      var user :| user in todo;
      r := r[user := Delta(r, user).Add(users[user])];
      todo := todo - {user};
    }
  }

  // What a row has for a user in one direction.
  ghost function Part(row: map<string, Usage>, user: string, d: Direction): int { Delta(row, user).Of(d) }

  // What a tag of a delta carries for a user in one direction.
  ghost function Carries(delta: Deltas, user: string, d: Direction): string -> int {
    t => DeltaAt(delta, t, user).Of(d)
  }

  // What some tags carry together, whatever their order.
  ghost function Total(delta: Deltas, tags: set<string>, user: string, d: Direction): int {
    Sum(tags, Carries(delta, user, d))
  }

  lemma TotalAdd(delta: Deltas, tags: set<string>, tag: string, user: string, d: Direction)
    requires tag !in tags && tag in delta
    ensures Total(delta, tags + {tag}, user, d) == Total(delta, tags, user, d) + Part(delta[tag], user, d)
  {
    SumAdd(tags, tag, Carries(delta, user, d));
  }

  predicate LeadsTo(c: Chain, tag: string, panel: nat, base: string) {
    c.route(tag) == (Some(panel), base)
  }

  ghost function TagsTo(c: Chain, tags: set<string>, panel: nat, base: string): set<string> {
    set t | t in tags && LeadsTo(c, t, panel, base)
  }

  type Routed = map<nat, Deltas>

  predicate HasRow(out: Routed, panel: nat, base: string) { panel in out && base in out[panel] }

  function RowAt(out: Routed, panel: nat, base: string): map<string, Usage> {
    if HasRow(out, panel, base) then out[panel][base] else map[]
  }

  ghost predicate Mentions(delta: Deltas, tags: set<string>, user: string) {
    exists t :: t in tags && t in delta && user in delta[t]
  }

  ghost predicate IsTotal(delta: Deltas, tags: set<string>, row: map<string, Usage>, u: string, d: Direction) {
    Delta(row, u).Of(d) == Total(delta, tags, u, d)
  }

  // A row lists the users of some tags, each with the sum over those tags.
  ghost predicate RowIs(delta: Deltas, tags: set<string>, row: map<string, Usage>) {
    && (forall u :: u in row <==> Mentions(delta, tags, u))
    && (forall u, d :: IsTotal(delta, tags, row, u, d))
  }

  // One row of a routed delta is the sum over the tags that lead to it.
  ghost predicate RoutedAt(delta: Deltas, tags: set<string>, out: Routed, panel: nat, base: string) {
    (HasRow(out, panel, base) <==> tags != {}) && RowIs(delta, tags, RowAt(out, panel, base))
  }

  lemma EmptyRow(delta: Deltas)
    ensures RowIs(delta, {}, map[])
  {}

  lemma RowGrows(delta: Deltas, tags: set<string>, tag: string, row: map<string, Usage>, row': map<string, Usage>)
    requires RowIs(delta, tags, row) && tag !in tags && tag in delta
    requires forall u :: AddedAt(row', row, delta[tag], u)
    ensures RowIs(delta, tags + {tag}, row')
  {
    forall u
      ensures u in row' <==> Mentions(delta, tags + {tag}, u)
    {
      assert AddedAt(row', row, delta[tag], u);
      MentionsStep(delta, tags, tag, u);
    }
    forall u, d
      ensures IsTotal(delta, tags + {tag}, row', u, d)
    {
      TotalGrows(delta, tags, tag, row, row', u, d);
    }
  }

  lemma MentionsStep(delta: Deltas, tags: set<string>, tag: string, u: string)
    requires tag in delta
    ensures Mentions(delta, tags + {tag}, u) <==> Mentions(delta, tags, u) || u in delta[tag]
  {
    if u in delta[tag] {
      assert tag in tags + {tag};
    }
  }

  lemma TotalGrows(delta: Deltas, tags: set<string>, tag: string, row: map<string, Usage>, row': map<string, Usage>,
                   u: string, d: Direction)
    requires IsTotal(delta, tags, row, u, d) && tag !in tags && tag in delta
    requires AddedAt(row', row, delta[tag], u)
    ensures IsTotal(delta, tags + {tag}, row', u, d)
  {
    TotalAdd(delta, tags, tag, u, d);
    AddedOf(row, row', delta[tag], u, d);
  }

  lemma AddedOf(row: map<string, Usage>, row': map<string, Usage>, users: map<string, Usage>, u: string, d: Direction)
    requires AddedAt(row', row, users, u)
    ensures Part(row', u, d) == Part(row, u, d) + Part(users, u, d)
  {}

  lemma RouteStepAt(c: Chain, delta: Deltas, done: set<string>, tag: string, out: Routed, next: Routed, p: nat,
                    b: string)
    requires tag !in done && tag in delta && RoutedAt(delta, TagsTo(c, done, p, b), out, p, b)
    requires LeadsTo(c, tag, p, b) ==> HasRow(next, p, b)
    requires LeadsTo(c, tag, p, b) ==> forall u :: AddedAt(RowAt(next, p, b), RowAt(out, p, b), delta[tag], u)
    requires !LeadsTo(c, tag, p, b) ==>
               (HasRow(next, p, b) <==> HasRow(out, p, b)) && RowAt(next, p, b) == RowAt(out, p, b)
    ensures RoutedAt(delta, TagsTo(c, done + {tag}, p, b), next, p, b)
  {
    TagsToStep(c, done, tag, p, b);
    assert TagsTo(c, done, p, b) + {} == TagsTo(c, done, p, b);
    if LeadsTo(c, tag, p, b) {
      RowGrows(delta, TagsTo(c, done, p, b), tag, RowAt(out, p, b), RowAt(next, p, b));
    }
  }

  // Adds one tag's users to the row the tag leads to, making the row if needed.
  method RouteTag(c: Chain, out: Routed, tag: string, users: map<string, Usage>) returns (out': Routed)
    ensures forall p, b :: LeadsTo(c, tag, p, b) ==>
              HasRow(out', p, b) && forall u :: AddedAt(RowAt(out', p, b), RowAt(out, p, b), users, u)
    ensures forall p, b :: !LeadsTo(c, tag, p, b) ==>
              (HasRow(out', p, b) <==> HasRow(out, p, b)) && RowAt(out', p, b) == RowAt(out, p, b)
    ensures (forall p :: p in out ==> out[p] != map[]) ==> forall p :: p in out' ==> out'[p] != map[]
  {
    var (panel, base) := c.route(tag);
    if panel.None? {
      return out;
    }
    var row := AddUsers(RowAt(out, panel.value, base), users);
    var rows := if panel.value in out then out[panel.value] else map[];
    out' := out[panel.value := rows[base := row]];
  }

  method RouteTraffic(c: Chain, delta: Deltas) returns (out: Routed)
    ensures forall p, b :: RoutedAt(delta, TagsTo(c, delta.Keys, p, b), out, p, b)
    ensures forall p :: p in out ==> out[p] != map[]
  {
    out := map[];
    var todo := delta.Keys;
    ghost var done := {};
    while todo != {}
      invariant todo !! done && todo + done == delta.Keys
      invariant forall p, b :: RoutedAt(delta, TagsTo(c, done, p, b), out, p, b)
      invariant forall p :: p in out ==> out[p] != map[]
    {
      var tag :| tag in todo;
      var next := RouteTag(c, out, tag, delta[tag]);
      forall p: nat, b
        ensures RoutedAt(delta, TagsTo(c, done + {tag}, p, b), next, p, b)
      {
        assert RoutedAt(delta, TagsTo(c, done, p, b), out, p, b);
        RouteStepAt(c, delta, done, tag, out, next, p, b);
      }
      out, todo, done := next, todo - {tag}, done + {tag};
    }
  }

  lemma TagsToStep(c: Chain, tags: set<string>, tag: string, p: nat, b: string)
    requires tag !in tags
    ensures TagsTo(c, tags + {tag}, p, b) == TagsTo(c, tags, p, b) + if LeadsTo(c, tag, p, b) then {tag} else {}
    ensures tag !in TagsTo(c, tags, p, b)
  {}

  // ------------------------------------------------------- the configured chain

  // Which inbound tags the client of a node reports.
  predicate MatchesInbound(nodeType: string, tag: string) {
    var t := Lower(nodeType);
    if t == "vless" || t == "vless-reality" || t == "reality" then tag == "vless-in"
    else if t == "hy2" || t == "hysteria" || t == "hysteria2" then tag == "hy2-in"
    else if t == "ss" || t == "ss2022" || t == "shadowsocks" then tag == "ss-in"
    else Contains(Lower(tag), t)
  }

  predicate ShouldDrop(drops: set<string>, tag: string) {
    var source := SplitSourceInbound(tag).1;
    source != "" && source in drops
  }

  // None stands for a nil panel.
  function RouteForInbound(default: Option<nat>, routes: map<string, Option<nat>>, tag: string): (Option<nat>, string) {
    var (base, source) := SplitSourceInbound(tag);
    if source != "" && source in routes && routes[source].Some? then (routes[source], base) else (default, base)
  }

  // A source filter over a source map over the clients of some nodes.
  function Configured(drops: set<string>, default: Option<nat>, routes: map<string, Option<nat>>,
                      nodeTypes: nat -> string): Chain
  {
    Chain(tag => ShouldDrop(drops, tag), tag => RouteForInbound(default, routes, tag),
          (panel: nat, tag) => MatchesInbound(nodeTypes(panel), tag))
  }

  // A source filter directly over clients, which see the tags as they are.
  function Direct(drops: set<string>, nodeTypes: nat -> string): Chain {
    Chain(tag => ShouldDrop(drops, tag), tag => (Some(0), tag),
          (panel: nat, tag) => MatchesInbound(nodeTypes(panel), tag))
  }

  // A connection counted under a source label is dropped exactly when its label is,
  // and otherwise its inbound reaches the panel of the label, or the default one.
  lemma LabelDecides(drops: set<string>, default: Option<nat>, routes: map<string, Option<nat>>,
                     nodeTypes: nat -> string,
                     inbound: string, source: string)
    requires source != "" && '=' !in source
    ensures var c := Configured(drops, default, routes, nodeTypes);
            var tag := SourceInboundTag(inbound, source);
            && (c.drops(tag) <==> source in drops)
            && c.route(tag).0 == (if source in routes && routes[source].Some? then routes[source] else default)
            && c.route(tag).1 == NormalizeInbound(inbound)
  {
    LabelledRoundTrip(inbound, source);
  }
}
