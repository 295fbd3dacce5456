/**
 What the merge of custom routing puts out, item by item and field by field
 (cmd/star1ight-agent/xboard_config.go).
 */
module RoutingResult {
  import opened Sequences
  import opened Text
  import opened CustomRouting

  // ------------------------------------------------------------------ raw routes

  // The raw route at a position gives the DNS settings: nothing before has any.
  predicate GivesDns(start: Pass, raws: seq<RawRoute>, i: nat) {
    && i < |raws| && raws[i].dns.Some? && start.dns == map[]
    && forall j :: 0 <= j < i && raws[j].dns.Some? ==> raws[j].dns.value == map[]
  }

  // It gives the route options: nothing before has any.
  predicate GivesOptions(start: Pass, raws: seq<RawRoute>, i: nat) {
    && i < |raws| && !GivesDns(start, raws, i) && raws[i].options.Some? && start.options == map[]
    && forall j :: 0 <= j < i && !GivesDns(start, raws, j) && raws[j].options.Some? ==> raws[j].options.value == map[]
  }

  // All others are rules.
  predicate IsRawRule(start: Pass, raws: seq<RawRoute>, i: nat) {
    i < |raws| && !GivesDns(start, raws, i) && !GivesOptions(start, raws, i)
  }

  // The positions from `from` below `upto` that are rules, in ascending order.
  ghost predicate RawRulesAt(start: Pass, raws: seq<RawRoute>, from: nat, upto: nat, at: seq<nat>) {
    && (forall k :: 0 <= k < |at| ==> from <= at[k] < upto && IsRawRule(start, raws, at[k]))
    && (forall j, k :: 0 <= j < k < |at| ==> at[j] < at[k])
    && (forall i: nat :: from <= i < upto && IsRawRule(start, raws, i) ==> i in at)
  }

  // The bodies of the raw routes at some positions.
  ghost function RawItems(raws: seq<RawRoute>, at: seq<nat>): seq<Item>
    requires forall k :: 0 <= k < |at| ==> at[k] < |raws|
  {
    if at == [] then [] else RawItems(raws, at[..|at| - 1]) + [Raw(raws[at[|at| - 1]].body)]
  }

  // What the pass has before the raw route at a position.
  ghost predicate Before(start: Pass, raws: seq<RawRoute>, i: nat, p: Pass)
    requires i <= |raws|
  {
    && (p.dns == map[] <==>
        start.dns == map[] && forall j :: 0 <= j < i && raws[j].dns.Some? ==> raws[j].dns.value == map[])
    && (p.options == map[] <==>
        start.options == map[] &&
        forall j :: 0 <= j < i && !GivesDns(start, raws, j) && raws[j].options.Some? ==>
          raws[j].options.value == map[])
  }

  lemma OneRaw(start: Pass, raws: seq<RawRoute>, i: nat, p: Pass)
    requires i < |raws| && Before(start, raws, i, p)
    ensures Before(start, raws, i + 1, TakeRaw(p, raws[i]))
    ensures TakeRaw(p, raws[i]).items == p.items + if IsRawRule(start, raws, i) then [Raw(raws[i].body)] else []
  {}

  lemma RawRulesStep(start: Pass, raws: seq<RawRoute>, from: nat, upto: nat, at: seq<nat>)
    requires from <= upto && RawRulesAt(start, raws, from, upto, at)
    ensures RawRulesAt(start, raws, from, upto + 1, if IsRawRule(start, raws, upto) then at + [upto] else at)
  {
    if IsRawRule(start, raws, upto) {
      var more := at + [upto];
      assert more[|at|] == upto;
      forall i: nat | from <= i < upto && IsRawRule(start, raws, i)
        ensures i in more
      {
        var k :| 0 <= k < |at| && at[k] == i;
        assert more[k] == i;
      }
    }
  }

  lemma TakeNext(p: Pass, raws: seq<RawRoute>, from: nat, upto: nat)
    requires from <= upto < |raws|
    ensures TakeRaws(p, raws[from..upto + 1]) == TakeRaw(TakeRaws(p, raws[from..upto]), raws[upto])
  {
    var mine := raws[from..upto + 1];
    assert mine[..|mine| - 1] == raws[from..upto] && mine[|mine| - 1] == raws[upto];
  }

  lemma RawItemsStep(raws: seq<RawRoute>, at: seq<nat>, i: nat)
    requires i < |raws| && forall k :: 0 <= k < |at| ==> at[k] < |raws|
    ensures RawItems(raws, at + [i]) == RawItems(raws, at) + [Raw(raws[i].body)]
  {
    assert (at + [i])[..|at|] == at;
  }

  // `q` is the pass after the raw routes from `from` below `upto`, which added to `items`.
  ghost predicate Took(start: Pass, raws: seq<RawRoute>, from: nat, upto: nat, items: seq<Item>, q: Pass, at: seq<nat>)
    requires from <= upto <= |raws|
  {
    RawRulesAt(start, raws, from, upto, at) && Before(start, raws, upto, q) && q.items == items + RawItems(raws, at)
  }

  lemma TookRule(start: Pass, raws: seq<RawRoute>, from: nat, upto: nat, items: seq<Item>, q: Pass, at: seq<nat>)
    requires from <= upto < |raws| && Took(start, raws, from, upto, items, q, at) && IsRawRule(start, raws, upto)
    ensures Took(start, raws, from, upto + 1, items, TakeRaw(q, raws[upto]), at + [upto])
  {
    OneRaw(start, raws, upto, q);
    RawRulesStep(start, raws, from, upto, at);
    RawItemsStep(raws, at, upto);
    Associates(items, RawItems(raws, at), [Raw(raws[upto].body)]);
  }

  lemma Associates<T>(a: seq<T>, b: seq<T>, c: seq<T>)
    ensures a + b + c == a + (b + c)
  {}

  lemma TookSettings(start: Pass, raws: seq<RawRoute>, from: nat, upto: nat, items: seq<Item>, q: Pass, at: seq<nat>)
    requires from <= upto < |raws| && Took(start, raws, from, upto, items, q, at) && !IsRawRule(start, raws, upto)
    ensures Took(start, raws, from, upto + 1, items, TakeRaw(q, raws[upto]), at)
  {
    OneRaw(start, raws, upto, q);
    RawRulesStep(start, raws, from, upto, at);
  }

  ghost predicate TookAll(start: Pass, raws: seq<RawRoute>, from: nat, upto: nat, p: Pass, at: seq<nat>)
    requires from <= upto <= |raws|
  {
    Took(start, raws, from, upto, p.items, TakeRaws(p, raws[from..upto]), at)
  }

  lemma TookNext(start: Pass, raws: seq<RawRoute>, from: nat, n: nat, p: Pass, before: seq<nat>)
    returns (at: seq<nat>)
    requires from <= n < |raws| && TookAll(start, raws, from, n, p, before)
    ensures TookAll(start, raws, from, n + 1, p, at)
  {
    var q := TakeRaws(p, raws[from..n]);
    if IsRawRule(start, raws, n) {
      TookRule(start, raws, from, n, p.items, q, before);
      at := before + [n];
    } else {
      TookSettings(start, raws, from, n, p.items, q, before);
      at := before;
    }
    assert Took(start, raws, from, n + 1, p.items, TakeRaw(q, raws[n]), at);
    TakeNext(p, raws, from, n);
  }

  lemma TookNone(start: Pass, raws: seq<RawRoute>, from: nat, p: Pass)
    requires from <= |raws| && Before(start, raws, from, p)
    ensures TookAll(start, raws, from, from, p, [])
  {
    assert raws[from..from] == [];
  }

  // The raw routes of one configuration, which stand in `raws` from `from` below `upto`.
  lemma {:induction false} RawsOfOne(start: Pass, raws: seq<RawRoute>, from: nat, upto: nat, p: Pass)
    returns (at: seq<nat>)
    requires from <= upto <= |raws| && Before(start, raws, from, p)
    ensures TookAll(start, raws, from, upto, p, at)
    decreases upto
  {
    if upto == from {
      at := [];
      TookNone(start, raws, from, p);
    } else {
      var before := RawsOfOne(start, raws, from, upto - 1, p);
      at := TookNext(start, raws, from, upto - 1, p, before);
    }
  }

  // The items of the result, configuration by configuration: first its structured rules
  // and then its raw routes at the positions `at`, counted over all configurations.
  ghost function ItemsOf(configs: seq<NodeConfig>, raws: seq<RawRoute>, at: seq<seq<nat>>): seq<Item>
    requires |at| == |configs| && forall i, k :: 0 <= i < |at| && 0 <= k < |at[i]| ==> at[i][k] < |raws|
  {
    if configs == [] then []
    else
      var n := |configs| - 1;
      ItemsOf(configs[..n], raws, at[..n]) + Structureds(Kept(configs[n].rules)) + RawItems(raws, at[n])
  }

  function Offset(configs: seq<NodeConfig>, i: nat): nat
    requires i <= |configs|
  {
    |AllRaws(configs[..i])|
  }

  ghost predicate PositionsOf(start: Pass, configs: seq<NodeConfig>, raws: seq<RawRoute>, i: nat, at: seq<nat>)
    requires i < |configs|
  {
    RawRulesAt(start, raws, Offset(configs, i), Offset(configs, i + 1), at)
  }

  ghost predicate PositionsUpTo(start: Pass, configs: seq<NodeConfig>, raws: seq<RawRoute>, at: seq<seq<nat>>) {
    && |at| <= |configs| && (forall i :: 0 <= i < |at| ==> PositionsOf(start, configs, raws, i, at[i]))
    && (forall i, k :: 0 <= i < |at| && 0 <= k < |at[i]| ==> at[i][k] < |raws|)
  }

  lemma PositionsStep(start: Pass, configs: seq<NodeConfig>, raws: seq<RawRoute>, at: seq<seq<nat>>, mine: seq<nat>)
    requires PositionsUpTo(start, configs, raws, at) && |at| < |configs|
    requires PositionsOf(start, configs, raws, |at|, mine) && forall k :: 0 <= k < |mine| ==> mine[k] < |raws|
    ensures PositionsUpTo(start, configs, raws, at + [mine])
  {}

  // Every raw route that gives neither the DNS settings nor the route options is a rule of
  // the result, as it is and in its place: configurations come in order, and within one
  // the structured rules come before the raw ones.
  lemma ItemsOfMerge(start: Pass, configs: seq<NodeConfig>) returns (at: seq<seq<nat>>)
    requires start.items == []
    ensures |at| == |configs| && PositionsUpTo(start, configs, AllRaws(configs), at)
    ensures SecondPass(start, configs).items == ItemsOf(configs, AllRaws(configs), at)
  {
    assert configs[..|configs|] == configs;
    at := ItemsUpTo(start, configs, AllRaws(configs), |configs|);
  }

  // The first `n` configurations are in the pass.
  ghost predicate MergedUpTo(start: Pass, configs: seq<NodeConfig>, raws: seq<RawRoute>, n: nat, at: seq<seq<nat>>)
    requires n <= |configs| && Offset(configs, n) <= |raws|
  {
    && |at| == n && PositionsUpTo(start, configs, raws, at)
    && Before(start, raws, Offset(configs, n), SecondPass(start, configs[..n]))
    && SecondPass(start, configs[..n]).items == ItemsOf(configs[..n], raws, at)
  }

  lemma {:induction false} ItemsUpTo(start: Pass, configs: seq<NodeConfig>, raws: seq<RawRoute>, n: nat)
    returns (at: seq<seq<nat>>)
    requires start.items == [] && n <= |configs| && raws == AllRaws(configs)
    ensures Offset(configs, n) <= |raws| && MergedUpTo(start, configs, raws, n, at)
  {
    OffsetFits(configs, n);
    if n == 0 {
      at := [];
    } else {
      var before := ItemsUpTo(start, configs, raws, n - 1);
      at := OneConfig(start, configs, raws, n - 1, before);
    }
  }

  lemma OneConfig(start: Pass, configs: seq<NodeConfig>, raws: seq<RawRoute>, n: nat, before: seq<seq<nat>>)
    returns (at: seq<seq<nat>>)
    requires n < |configs| && raws == AllRaws(configs) && Offset(configs, n) <= |raws|
    requires MergedUpTo(start, configs, raws, n, before)
    ensures Offset(configs, n + 1) <= |raws| && MergedUpTo(start, configs, raws, n + 1, at)
  {
    OffsetStep(configs, n);
    var p := SecondPass(start, configs[..n]);
    var q := p.(items := p.items + Structureds(Kept(configs[n].rules)));
    var mine := RawsOfOne(start, raws, Offset(configs, n), Offset(configs, n + 1), q);
    at := before + [mine];
    PositionsStep(start, configs, raws, before, mine);
    SecondPassStep(start, configs, n);
    ItemsStep(configs, raws, n, before, mine);
  }

  lemma SecondPassStep(start: Pass, configs: seq<NodeConfig>, n: nat)
    requires n < |configs|
    ensures var p := SecondPass(start, configs[..n]);
            SecondPass(start, configs[..n + 1])
            == TakeRaws(p.(items := p.items + Structureds(Kept(configs[n].rules))), configs[n].rawRoutes)
  {
    assert configs[..n + 1][..n] == configs[..n];
  }

  lemma ItemsStep(configs: seq<NodeConfig>, raws: seq<RawRoute>, n: nat, at: seq<seq<nat>>, mine: seq<nat>)
    requires n < |configs| && |at| == n && forall k :: 0 <= k < |mine| ==> mine[k] < |raws|
    requires forall i, k :: 0 <= i < n && 0 <= k < |at[i]| ==> at[i][k] < |raws|
    ensures ItemsOf(configs[..n + 1], raws, at + [mine])
            == ItemsOf(configs[..n], raws, at) + Structureds(Kept(configs[n].rules)) + RawItems(raws, mine)
  {
    assert configs[..n + 1][..n] == configs[..n] && (at + [mine])[..n] == at;
  }

  lemma OffsetStep(configs: seq<NodeConfig>, i: nat)
    requires i < |configs|
    ensures Offset(configs, i + 1) == Offset(configs, i) + |configs[i].rawRoutes|
    ensures Offset(configs, i + 1) <= |AllRaws(configs)|
    ensures AllRaws(configs)[Offset(configs, i)..Offset(configs, i + 1)] == configs[i].rawRoutes
  {
    assert configs[..i + 1][..i] == configs[..i];
    OffsetFits(configs, i + 1);
    var all := AllRaws(configs[..i + 1]);
    assert AllRaws(configs)[..|all|] == all;
    assert all[Offset(configs, i)..] == configs[i].rawRoutes;
    assert AllRaws(configs)[Offset(configs, i)..|all|] == all[Offset(configs, i)..];
  }

  lemma {:induction false} OffsetFits(configs: seq<NodeConfig>, i: nat)
    requires i <= |configs|
    ensures AllRaws(configs[..i]) <= AllRaws(configs)
    decreases |configs|
  {
    if i == |configs| {
      assert configs[..i] == configs;
    } else {
      var n := |configs| - 1;
      OffsetFits(configs[..n], i);
      assert configs[..n][..i] == configs[..i];
    }
  }

  // ----------------------------------------------------------------- its other fields

  // Without an option "final" everything else goes out directly.
  lemma RouteIs(p: Pass)
    ensures RouteOf(p).None? <==> p.items == [] && p.options == map[]
    ensures RouteOf(p).Some? ==> RouteOf(p).value.items == p.items && RouteOf(p).value.options == p.options
    ensures RouteOf(p).Some? && "final" !in p.options ==> RouteOf(p).value.final == "direct"
    ensures RouteOf(p).Some? && "final" in p.options ==> RouteOf(p).value.final == p.options["final"]
  {}

  // An outbound needs a tag, a protocol and settings.
  lemma WellFormedIff(o: Outbound)
    ensures WellFormed(o) <==> Trim(o.tag) != "" && Trim(o.protocol) != "" && o.settings != map[]
  {}

  // What is emitted for it: the settings, with its tag, its protocol under the one name
  // that sing-box knows, and the tag of its proxy if it has one.
  lemma OutboundIs(o: Outbound)
    requires WellFormed(o)
    ensures var b, protocol := BuiltOf(o), Lower(Trim(o.protocol));
            && "tag" in b && b["tag"] == Trim(o.tag)
            && "type" in b
            && (protocol in {"hy2", "hysteria", "hysteria2"} ==> b["type"] == "hysteria2")
            && (protocol !in {"hy2", "hysteria", "hysteria2"} ==> b["type"] == protocol)
            && (Trim(o.proxyTag) != "" ==> "detour" in b && b["detour"] == Trim(o.proxyTag))
            && forall key :: key !in {"tag", "type"} && (key != "detour" || Trim(o.proxyTag) == "") ==>
                 (key in b <==> key in o.settings) && (key in b ==> b[key] == o.settings[key])
  {}

  ghost function Trimmed(values: seq<string>): nat -> string {
    (i: nat) => if i < |values| then Trim(values[i]) else ""
  }

  ghost function Filled(values: seq<string>): nat -> bool { (i: nat) => Trimmed(values)(i) != "" }

  // A list of texts keeps the trimmed ones that are not blank, in their order.
  lemma {:induction false} TextsKept(values: seq<string>, n: nat) returns (at: seq<nat>)
    requires n <= |values|
    ensures Chosen(n, Filled(values), at) && TakenAt(NonBlank(values[..n]), at, Trimmed(values))
  {
    if n == 0 {
      at := [];
    } else {
      var before := TextsKept(values, n - 1);
      TextsStep(values, n - 1);
      at := PickNext(Filled(values), Trimmed(values), n - 1, NonBlank(values[..n - 1]),
                     if Filled(values)(n - 1) then [Trimmed(values)(n - 1)] else [], before);
    }
  }

  lemma TextsStep(values: seq<string>, i: nat)
    requires i < |values|
    ensures NonBlank(values[..i + 1])
            == NonBlank(values[..i]) + if Filled(values)(i) then [Trimmed(values)(i)] else []
  {
    var v := Trim(values[i]);
    assert values[..i + 1][..i] == values[..i] && values[..i + 1][i] == values[i];
    assert NonBlank(values[..i + 1]) == NonBlank(values[..i]) + if v == "" then [] else [v];
    assert Trimmed(values)(i) == v;
  }

  // A port is a string of digits up to 65535.
  predicate IsPortNumber(value: string) { IsNumericUser(value) && NumberOf(value) <= 65535 }

  ghost function Numbers(values: seq<string>): nat -> bool { (i: nat) => IsPortNumber(Trimmed(values)(i)) }

  ghost function Others(values: seq<string>): nat -> bool {
    (i: nat) => Trimmed(values)(i) != "" && !IsPortNumber(Trimmed(values)(i))
  }

  ghost function NumberAt(values: seq<string>): nat -> nat {
    (i: nat) => PortOf(Trimmed(values)(i))
  }

  function PortOf(value: string): nat { if IsPortNumber(value) then NumberOf(value) else 0 }

  lemma IsPortIff(value: string)
    ensures IsPort(value) <==> IsPortNumber(value)
  {}

  lemma PortsStep(values: seq<string>, i: nat)
    requires i < |values|
    ensures PortNumbers(values[..i + 1])
            == PortNumbers(values[..i]) + if Numbers(values)(i) then [NumberAt(values)(i)] else []
    ensures PortRanges(values[..i + 1])
            == PortRanges(values[..i]) + if Others(values)(i) then [Trimmed(values)(i)] else []
  {
    var v := Trim(values[i]);
    assert values[..i + 1][..i] == values[..i] && values[..i + 1][i] == values[i];
    IsPortIff(v);
    assert PortNumbers(values[..i + 1]) == PortNumbers(values[..i]) + if IsPort(v) then [NumberOf(v)] else [];
    assert PortRanges(values[..i + 1]) == PortRanges(values[..i]) + if v == "" || IsPort(v) then [] else [v];
    assert Trimmed(values)(i) == v;
  }

  // A list of ports keeps the numbers among its values and, apart from them, the others
  // that are not blank, each in their order.
  lemma {:induction false} PortsKept(values: seq<string>, n: nat) returns (numbers: seq<nat>, others: seq<nat>)
    requires n <= |values|
    ensures Chosen(n, Numbers(values), numbers) && TakenAt(PortNumbers(values[..n]), numbers, NumberAt(values))
    ensures Chosen(n, Others(values), others) && TakenAt(PortRanges(values[..n]), others, Trimmed(values))
  {
    if n == 0 {
      numbers, others := [], [];
    } else {
      var m := n - 1;
      var before, otherwise := PortsKept(values, m);
      PortsStep(values, m);
      numbers := PickNext(Numbers(values), NumberAt(values), m, PortNumbers(values[..m]),
                          if Numbers(values)(m) then [NumberAt(values)(m)] else [], before);
      others := PickNext(Others(values), Trimmed(values), m, PortRanges(values[..m]),
                         if Others(values)(m) then [Trimmed(values)(m)] else [], otherwise);
    }
  }

  // A match has, under the name of each list that is not blank, what that list keeps.
  ghost predicate HasTexts(m: map<string, MatchValue>, key: string, values: seq<string>) {
    (key in m <==> !Blank(values)) && (key in m ==> m[key] == Texts(NonBlank(values)))
  }

  ghost predicate HasPorts(m: map<string, MatchValue>, key: string, values: seq<string>) {
    (key in m <==> !Blank(values)) && (key in m ==> m[key] == Ports(PortNumbers(values), PortRanges(values)))
  }

  // Only the entry under one key may differ.
  ghost predicate OnlyAt(m: map<string, MatchValue>, r: map<string, MatchValue>, key: string) {
    forall other :: other != key ==> (other in r <==> other in m) && (other in m ==> r[other] == m[other])
  }

  lemma TextsUnder(dst: map<string, MatchValue>, key: string, values: seq<string>)
    requires key !in dst
    ensures HasTexts(WithTexts(dst, key, values), key, values) && OnlyAt(dst, WithTexts(dst, key, values), key)
  {
    NonBlankIff(values);
  }

  lemma PortsUnder(dst: map<string, MatchValue>, key: string, values: seq<string>)
    requires key !in dst
    ensures HasPorts(WithPorts(dst, key, values), key, values) && OnlyAt(dst, WithPorts(dst, key, values), key)
  {
    NoPortsIff(values);
  }

  const KEYS := ["domain", "domain_suffix", "ip_cidr", "source_ip_cidr", "network", "port", "source_port"]

  lemma KeysDiffer()
    ensures forall i, j :: 0 <= i < j < |KEYS| ==> KEYS[i] != KEYS[j]
  {
    forall i, j | 0 <= i < j < |KEYS|
      ensures KEYS[i] != KEYS[j]
    {
      assert |KEYS[0]| == 6 && |KEYS[1]| == 13 && |KEYS[2]| == 7 && |KEYS[3]| == 14;
      assert |KEYS[4]| == 7 && |KEYS[5]| == 4 && |KEYS[6]| == 11;
      assert KEYS[2][0] == 'i' && KEYS[4][0] == 'n';
    }
  }

  // The list a match has under each key.
  function ListOf(m: Matcher, i: nat): seq<string>
    requires i < 7
  {
    [m.domains, m.domainSuffixes, m.ipCidrs, m.sourceCidrs, m.networks, m.ports, m.sourcePorts][i]
  }

  ghost predicate HasList(r: map<string, MatchValue>, m: Matcher, i: nat)
    requires i < 7
  {
    if i < 5 then HasTexts(r, KEYS[i], ListOf(m, i)) else HasPorts(r, KEYS[i], ListOf(m, i))
  }

  // The match after its first `n` lists.
  function MatchUpTo(m: Matcher, n: nat): map<string, MatchValue>
    requires n <= 7
  {
    if n == 0 then map[]
    else if n <= 5 then WithTexts(MatchUpTo(m, n - 1), KEYS[n - 1], ListOf(m, n - 1))
    else WithPorts(MatchUpTo(m, n - 1), KEYS[n - 1], ListOf(m, n - 1))
  }

  lemma LastList(m: Matcher, n: nat)
    requires n < 7 && KEYS[n] !in MatchUpTo(m, n)
    ensures HasList(MatchUpTo(m, n + 1), m, n) && OnlyAt(MatchUpTo(m, n), MatchUpTo(m, n + 1), KEYS[n])
  {
    if n < 5 {
      TextsUnder(MatchUpTo(m, n), KEYS[n], ListOf(m, n));
    } else {
      PortsUnder(MatchUpTo(m, n), KEYS[n], ListOf(m, n));
    }
  }

  lemma ListStays(r: map<string, MatchValue>, r': map<string, MatchValue>, m: Matcher, i: nat, key: string)
    requires i < 7 && HasList(r, m, i) && OnlyAt(r, r', key) && KEYS[i] != key
    ensures HasList(r', m, i)
  {}

  lemma {:induction false} MatchUpToIs(m: Matcher, n: nat)
    requires n <= 7 && forall i, j :: 0 <= i < j < |KEYS| ==> KEYS[i] != KEYS[j]
    ensures forall i :: 0 <= i < n ==> HasList(MatchUpTo(m, n), m, i)
    ensures forall i :: n <= i < 7 ==> KEYS[i] !in MatchUpTo(m, n)
  {
    if n > 0 {
      var k := n - 1;
      MatchUpToIs(m, k);
      LastList(m, k);
      forall i | 0 <= i < n
        ensures HasList(MatchUpTo(m, n), m, i)
      {
        if i < k {
          ListStays(MatchUpTo(m, k), MatchUpTo(m, n), m, i, KEYS[k]);
        }
      }
      forall i | n <= i < 7
        ensures KEYS[i] !in MatchUpTo(m, n)
      {
        assert KEYS[k] != KEYS[i];
      }
    }
  }

  lemma MatchIs(m: Matcher)
    ensures forall i :: 0 <= i < 7 ==> HasList(MatchOf(m), m, i)
  {
    KeysDiffer();
    MatchUpToIs(m, 7);
    assert MatchUpTo(m, 0) == map[];
    assert MatchUpTo(m, 1) == WithTexts(MatchUpTo(m, 0), "domain", m.domains);
    assert MatchUpTo(m, 2) == WithTexts(MatchUpTo(m, 1), "domain_suffix", m.domainSuffixes);
    assert MatchUpTo(m, 3) == WithTexts(MatchUpTo(m, 2), "ip_cidr", m.ipCidrs);
    assert MatchUpTo(m, 4) == WithTexts(MatchUpTo(m, 3), "source_ip_cidr", m.sourceCidrs);
    assert MatchUpTo(m, 5) == WithTexts(MatchUpTo(m, 4), "network", m.networks);
    assert MatchUpTo(m, 6) == WithPorts(MatchUpTo(m, 5), "port", m.ports);
    assert MatchUpTo(m, 7) == WithPorts(MatchUpTo(m, 6), "source_port", m.sourcePorts);
  }

  // ------------------------------------------------------------------ structured rules

  // A rule that counts: it is enabled and has something to match.
  ghost predicate Counts(rule: Rule) {
    var m := rule.matcher;
    && !rule.disabled
    && !(Blank(m.domains) && Blank(m.domainSuffixes) && Blank(m.ipCidrs) && Blank(m.sourceCidrs) &&
         Blank(m.networks) && Blank(m.ports) && Blank(m.sourcePorts))
  }

  // Where it sends traffic: to its target, or by its action directly or nowhere.
  ghost predicate GoesTo(rule: Rule, outbound: string) {
    var action := Lower(Trim(rule.action));
    if action == "direct" then outbound == "direct"
    else if action == "block" then outbound == "block"
    else (action == "" || action == "route") && outbound == Trim(rule.target)
  }

  lemma IdleIff(rule: Rule)
    ensures Idle(rule) <==> !Counts(rule)
  {
    MatchesNothingIff(rule.matcher);
  }

  // A rule is refused exactly when it counts and its action is unknown, or it has no
  // target or one that is not known in lower case.
  lemma RefusedIff(rule: Rule, known: set<string>)
    ensures Refused(rule, known)
            <==>
            Counts(rule) &&
            !exists outbound :: GoesTo(rule, outbound) &&
              (BuiltIn(Lower(Trim(rule.action))) || (outbound != "" && Lower(outbound) in known))
  {
    IdleIff(rule);
    assert GoesTo(rule, TargetOf(rule)) || !(Routes(rule) || BuiltIn(ActionOf(rule)));
  }

  ghost function Counting(rules: seq<Rule>): nat -> bool { (i: nat) => i < |rules| && Counts(rules[i]) }

  ghost predicate KeptAs(rule: Rule, built: BuiltRule) {
    built.matches == MatchOf(rule.matcher) && GoesTo(rule, built.outbound)
  }

  lemma KeptOne(rule: Rule, known: set<string>)
    requires !Refused(rule, known)
    ensures !Counts(rule) ==> KeptOf(rule) == []
    ensures Counts(rule) ==> |KeptOf(rule)| == 1 && KeptAs(rule, KeptOf(rule)[0])
  {
    IdleIff(rule);
  }

  // The built rules are those of the rules at some positions.
  ghost predicate KeptFrom(rules: seq<Rule>, built: seq<BuiltRule>, at: seq<nat>) {
    && |built| == |at|
    && forall k :: 0 <= k < |at| ==> at[k] < |rules| && KeptAs(rules[at[k]], built[k])
  }

  lemma KeptFromStep(rules: seq<Rule>, built: seq<BuiltRule>, at: seq<nat>, i: nat, more: BuiltRule)
    requires KeptFrom(rules, built, at) && i < |rules| && KeptAs(rules[i], more)
    ensures KeptFrom(rules, built + [more], at + [i])
  {}

  lemma RuleNext(rules: seq<Rule>, known: set<string>, i: nat, built: seq<BuiltRule>, before: seq<nat>)
    returns (at: seq<nat>)
    requires i < |rules| && !Refused(rules[i], known)
    requires Chosen(i, Counting(rules), before) && KeptFrom(rules, built, before)
    ensures Chosen(i + 1, Counting(rules), at) && KeptFrom(rules, built + KeptOf(rules[i]), at)
  {
    KeptOne(rules[i], known);
    ChosenStep(i, Counting(rules), before);
    if Counts(rules[i]) {
      at := before + [i];
      KeptFromStep(rules, built, before, i, KeptOf(rules[i])[0]);
      assert KeptOf(rules[i]) == [KeptOf(rules[i])[0]];
    } else {
      at := before;
      assert built + [] == built;
    }
  }

  // The rules that count among the first `n` are kept.
  ghost predicate KeptUpTo(rules: seq<Rule>, n: nat, at: seq<nat>)
    requires n <= |rules|
  {
    Chosen(n, Counting(rules), at) && KeptFrom(rules, Kept(rules[..n]), at)
  }

  lemma KeptUpToNext(rules: seq<Rule>, known: set<string>, i: nat, before: seq<nat>) returns (at: seq<nat>)
    requires i < |rules| && !Refused(rules[i], known) && KeptUpTo(rules, i, before)
    ensures KeptUpTo(rules, i + 1, at)
  {
    at := RuleNext(rules, known, i, Kept(rules[..i]), before);
    KeptStep(rules, i);
  }

  // The rules of a configuration that was not refused are those that count, in their
  // order, each with what it matches and where it goes.
  lemma {:induction false} RulesKept(rules: seq<Rule>, known: set<string>, n: nat) returns (at: seq<nat>)
    requires n <= |rules| && !AnyRefused(rules, known)
    ensures KeptUpTo(rules, n, at)
  {
    if n == 0 {
      at := [];
    } else {
      var before := RulesKept(rules, known, n - 1);
      at := KeptUpToNext(rules, known, n - 1, before);
    }
  }
}
