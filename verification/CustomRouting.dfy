/**
 The merge of custom outbounds and route rules of several node configurations
 (cmd/star1ight-agent/xboard_config.go): outbounds first, first come first served
 by lower-case tag, then the rules, each of which must refer to a known tag.
 */
module CustomRouting {
  import opened Sequences
  import opened Text

  datatype Outbound = Outbound(tag: string, protocol: string, settings: map<string, string>, proxyTag: string)

  // What a rule matches on; port lists can hold numbers and ranges.
  datatype Matcher = Matcher(
    domains: seq<string>, domainSuffixes: seq<string>, ipCidrs: seq<string>, sourceCidrs: seq<string>,
    networks: seq<string>, ports: seq<string>, sourcePorts: seq<string>)

  datatype Rule = Rule(name: string, disabled: bool, matcher: Matcher, action: string, target: string)

  // A part of a configuration that is passed on as it is; empty is as good as absent.
  type Opaque = map<string, string>

  // A raw route may carry DNS settings or route options instead of a rule.
  datatype RawRoute = RawRoute(dns: Option<Opaque>, options: Option<Opaque>, body: Opaque)

  datatype NodeConfig = NodeConfig(
    outbounds: seq<Outbound>, rules: seq<Rule>, dns: Opaque, options: Opaque, rawRoutes: seq<RawRoute>)

  // ------------------------------------------------------------------- outbounds

  function NormalizeProtocol(v: string): string {
    var p := Lower(Trim(v));
    if p == "hy2" || p == "hysteria" || p == "hysteria2" then "hysteria2" else p
  }

  type Built = map<string, string>

  // The sing-box form of an outbound and its tag.
  function BuildOutbound(o: Outbound): Result<(Built, string)> {
    var tag := Trim(o.tag);
    var protocol := NormalizeProtocol(o.protocol);
    if tag == "" then Err("tag is required")
    else if protocol == "" then Err("protocol is required")
    else if o.settings == map[] then Err("settings are required")
    else
      var settings := o.settings["type" := protocol]["tag" := tag];
      Ok((if Trim(o.proxyTag) == "" then settings else settings["detour" := Trim(o.proxyTag)], tag))
  }

  predicate WellFormed(o: Outbound) { BuildOutbound(o).Ok? }

  // The key outbounds are told apart by.
  function KeyOf(o: Outbound): string { Lower(Trim(Trim(o.tag))) }

  predicate BuiltIn(key: string) { key == "direct" || key == "block" }

  // The keys that are taken after some outbounds.
  function Known(list: seq<Outbound>): set<string> {
    {"direct", "block"} + set o | o in list :: KeyOf(o)
  }

  lemma KnownKey(list: seq<Outbound>, key: string)
    ensures key in Known(list) <==> BuiltIn(key) || exists i :: 0 <= i < |list| && KeyOf(list[i]) == key
  {
    if o :| o in list && KeyOf(o) == key {
      var i :| 0 <= i < |list| && list[i] == o;
      assert KeyOf(list[i]) == key;
    }
  }

  function BuiltOf(o: Outbound): Built { if WellFormed(o) then BuildOutbound(o).value.0 else map[] }

  // The outbounds that make it: those whose key nobody had before.
  function Emitted(list: seq<Outbound>): seq<Built> {
    if list == [] then []
    else
      var n := |list| - 1;
      Emitted(list[..n]) + if KeyOf(list[n]) in Known(list[..n]) then [] else [BuiltOf(list[n])]
  }

  // The first outbound with its key, which is not built in.
  predicate First(list: seq<Outbound>, i: int) {
    0 <= i < |list| && !BuiltIn(KeyOf(list[i])) && forall j :: 0 <= j < i ==> KeyOf(list[j]) != KeyOf(list[i])
  }

  // `idx` are the positions, in order, of the outbounds that make it.
  ghost predicate Picks(list: seq<Outbound>, out: seq<Built>, idx: seq<nat>) {
    && |idx| == |out|
    && (forall a, b :: 0 <= a < b < |idx| ==> idx[a] < idx[b])
    && (forall a :: 0 <= a < |idx| ==> First(list, idx[a]) && out[a] == BuiltOf(list[idx[a]]))
    && (forall i: nat :: First(list, i) ==> i in idx)
  }

  // The emitted outbounds are the first ones of each key, in their order.
  lemma {:induction false} FirstOnesWin(list: seq<Outbound>) returns (idx: seq<nat>)
    ensures Picks(list, Emitted(list), idx)
  {
    if list == [] {
      idx := [];
    } else {
      var n := |list| - 1;
      idx := FirstOnesWin(list[..n]);
      LastIsFirst(list);
      if First(list, n) {
        PickLast(list, Emitted(list[..n]), idx);
        idx := idx + [n];
      } else {
        SkipLast(list, Emitted(list[..n]), idx);
      }
    }
  }

  lemma LastIsFirst(list: seq<Outbound>)
    requires list != []
    ensures First(list, |list| - 1) <==> KeyOf(list[|list| - 1]) !in Known(list[..|list| - 1])
  {
    KnownKey(list[..|list| - 1], KeyOf(list[|list| - 1]));
  }

  lemma FirstInPrefix(list: seq<Outbound>, i: nat)
    requires i < |list| - 1
    ensures First(list, i) <==> First(list[..|list| - 1], i)
  {}

  lemma PickLast(list: seq<Outbound>, out: seq<Built>, idx: seq<nat>)
    requires list != [] && Picks(list[..|list| - 1], out, idx) && First(list, |list| - 1)
    ensures Picks(list, out + [BuiltOf(list[|list| - 1])], idx + [|list| - 1])
  {
    forall a | 0 <= a < |idx|
      ensures First(list, idx[a])
    {
      FirstInPrefix(list, idx[a]);
    }
    forall i: nat | First(list, i)
      ensures i in idx + [|list| - 1]
    {
      if i < |list| - 1 {
        FirstInPrefix(list, i);
      }
    }
  }

  lemma SkipLast(list: seq<Outbound>, out: seq<Built>, idx: seq<nat>)
    requires list != [] && Picks(list[..|list| - 1], out, idx) && !First(list, |list| - 1)
    ensures Picks(list, out, idx)
  {
    forall a | 0 <= a < |idx|
      ensures First(list, idx[a])
    {
      FirstInPrefix(list, idx[a]);
    }
    forall i: nat | First(list, i)
      ensures i in idx
    {
      FirstInPrefix(list, i);
    }
  }

  // ----------------------------------------------------------------------- rules

  function NonBlank(values: seq<string>): seq<string> {
    if values == [] then []
    else
      var v := Trim(values[|values| - 1]);
      NonBlank(values[..|values| - 1]) + if v == "" then [] else [v]
  }

  // A value of a port list that is a port, not a range or a name.
  predicate IsPort(value: string) {
    !('-' in value) && !(':' in value) && IsNumericUser(value) && NumberOf(value) <= 65535
  }

  datatype MatchValue = Texts(texts: seq<string>) | Ports(numbers: seq<nat>, ranges: seq<string>)

  // The numbers and the other values of a port list, each in their order.
  function PortNumbers(values: seq<string>): seq<nat> {
    if values == [] then []
    else
      var v := Trim(values[|values| - 1]);
      PortNumbers(values[..|values| - 1]) + if IsPort(v) then [NumberOf(v)] else []
  }

  function PortRanges(values: seq<string>): seq<string> {
    if values == [] then []
    else
      var v := Trim(values[|values| - 1]);
      PortRanges(values[..|values| - 1]) + if v == "" || IsPort(v) then [] else [v]
  }

  method AppendTexts(dst: map<string, MatchValue>, key: string, values: seq<string>)
    returns (r: map<string, MatchValue>)
    ensures r == WithTexts(dst, key, values)
  {
    var out := [];
    for i := 0 to |values|
      invariant out == NonBlank(values[..i])
    {
      assert values[..i + 1][..i] == values[..i];
      var value := Trim(values[i]);
      if value != "" {
        out := out + [value];
      }
    }
    assert values[..|values|] == values;
    r := if out == [] then dst else dst[key := Texts(out)];
  }

  function WithTexts(dst: map<string, MatchValue>, key: string, values: seq<string>): map<string, MatchValue> {
    if NonBlank(values) == [] then dst else dst[key := Texts(NonBlank(values))]
  }

  method AppendPorts(dst: map<string, MatchValue>, key: string, values: seq<string>)
    returns (r: map<string, MatchValue>)
    ensures r == WithPorts(dst, key, values)
  {
    var numbers, ranges := [], [];
    for i := 0 to |values|
      invariant numbers == PortNumbers(values[..i]) && ranges == PortRanges(values[..i])
    {
      assert values[..i + 1][..i] == values[..i];
      var value := Trim(values[i]);
      if value != "" {
        if '-' in value || ':' in value {
          ranges := ranges + [value];
        } else if IsNumericUser(value) && NumberOf(value) <= 65535 {
          numbers := numbers + [NumberOf(value)];
        } else {
          ranges := ranges + [value];
        }
      }
    }
    assert values[..|values|] == values;
    r := if numbers == [] && ranges == [] then dst else dst[key := Ports(numbers, ranges)];
  }

  function WithPorts(dst: map<string, MatchValue>, key: string, values: seq<string>): map<string, MatchValue> {
    if PortNumbers(values) == [] && PortRanges(values) == [] then dst
    else dst[key := Ports(PortNumbers(values), PortRanges(values))]
  }

  function MatchOf(m: Matcher): map<string, MatchValue> {
    var domains := WithTexts(WithTexts(map[], "domain", m.domains), "domain_suffix", m.domainSuffixes);
    var cidrs := WithTexts(WithTexts(domains, "ip_cidr", m.ipCidrs), "source_ip_cidr", m.sourceCidrs);
    var texts := WithTexts(cidrs, "network", m.networks);
    WithPorts(WithPorts(texts, "port", m.ports), "source_port", m.sourcePorts)
  }

  method BuildMatch(m: Matcher) returns (r: map<string, MatchValue>)
    ensures r == MatchOf(m)
  {
    r := map[];
    r := AppendTexts(r, "domain", m.domains);
    r := AppendTexts(r, "domain_suffix", m.domainSuffixes);
    r := AppendTexts(r, "ip_cidr", m.ipCidrs);
    r := AppendTexts(r, "source_ip_cidr", m.sourceCidrs);
    r := AppendTexts(r, "network", m.networks);
    r := AppendPorts(r, "port", m.ports);
    r := AppendPorts(r, "source_port", m.sourcePorts);
  }

  predicate Blank(values: seq<string>) { forall i :: 0 <= i < |values| ==> Trim(values[i]) == "" }

  lemma BlankStep(values: seq<string>)
    requires values != []
    ensures Blank(values) <==> Blank(values[..|values| - 1]) && Trim(values[|values| - 1]) == ""
  {}

  lemma {:induction false} NonBlankIff(values: seq<string>)
    ensures NonBlank(values) == [] <==> Blank(values)
  {
    if values != [] {
      NonBlankIff(values[..|values| - 1]);
      BlankStep(values);
    }
  }

  lemma {:induction false} NoPortsIff(values: seq<string>)
    ensures PortNumbers(values) == [] && PortRanges(values) == [] <==> Blank(values)
  {
    if values != [] {
      NoPortsIff(values[..|values| - 1]);
      BlankStep(values);
    }
  }

  lemma TextsEmptyIff(dst: map<string, MatchValue>, key: string, values: seq<string>)
    ensures WithTexts(dst, key, values) == map[] <==> dst == map[] && Blank(values)
  {
    NonBlankIff(values);
    if !Blank(values) {
      assert key in WithTexts(dst, key, values);
    }
  }

  lemma PortsEmptyIff(dst: map<string, MatchValue>, key: string, values: seq<string>)
    ensures WithPorts(dst, key, values) == map[] <==> dst == map[] && Blank(values)
  {
    NoPortsIff(values);
    if !Blank(values) {
      assert key in WithPorts(dst, key, values);
    }
  }

  // A rule matches nothing, and is left out, exactly when all its lists are blank.
  lemma MatchesNothingIff(m: Matcher)
    ensures MatchOf(m) == map[]
            <==>
            Blank(m.domains) && Blank(m.domainSuffixes) && Blank(m.ipCidrs) && Blank(m.sourceCidrs) &&
            Blank(m.networks) && Blank(m.ports) && Blank(m.sourcePorts)
  {
    var a := WithTexts(map[], "domain", m.domains);
    var b := WithTexts(a, "domain_suffix", m.domainSuffixes);
    var c := WithTexts(b, "ip_cidr", m.ipCidrs);
    var d := WithTexts(c, "source_ip_cidr", m.sourceCidrs);
    var e := WithTexts(d, "network", m.networks);
    TextsEmptyIff(map[], "domain", m.domains);
    TextsEmptyIff(a, "domain_suffix", m.domainSuffixes);
    TextsEmptyIff(b, "ip_cidr", m.ipCidrs);
    TextsEmptyIff(c, "source_ip_cidr", m.sourceCidrs);
    TextsEmptyIff(d, "network", m.networks);
    PortsEmptyIff(e, "port", m.ports);
    PortsEmptyIff(WithPorts(e, "port", m.ports), "source_port", m.sourcePorts);
  }

  datatype BuiltRule = BuiltRule(matches: map<string, MatchValue>, outbound: string)

  // A rule that is dropped because it is disabled or matches nothing.
  predicate Idle(rule: Rule) { rule.disabled || MatchOf(rule.matcher) == map[] }

  function ActionOf(rule: Rule): string { Lower(Trim(rule.action)) }

  predicate Routes(rule: Rule) { ActionOf(rule) == "" || ActionOf(rule) == "route" }

  // Where a rule sends what it matches.
  function TargetOf(rule: Rule): string { if Routes(rule) then Trim(rule.target) else ActionOf(rule) }

  // A rule the merge refuses, given the keys that are known.
  predicate Refused(rule: Rule, known: set<string>) {
    !Idle(rule) &&
    if Routes(rule) then Trim(rule.target) == "" || Lower(Trim(rule.target)) !in known
    else !BuiltIn(ActionOf(rule))
  }

  method BuildRule(rule: Rule, known: set<string>) returns (r: Result<Option<BuiltRule>>)
    requires !rule.disabled
    ensures r.Err? <==> Refused(rule, known)
    ensures r.Ok? ==> r.value == if Idle(rule) then None else Some(BuiltRule(MatchOf(rule.matcher), TargetOf(rule)))
  {
    var matches := BuildMatch(rule.matcher);
    if matches == map[] {
      return Ok(None);
    }
    var action := Lower(Trim(rule.action));
    if action == "" || action == "route" {
      var target := Trim(rule.target);
      if target == "" {
        return Err("route action requires target");
      }
      if Lower(target) !in known {
        return Err("unknown outbound");
      }
      return Ok(Some(BuiltRule(matches, target)));
    }
    if action == "direct" || action == "block" {
      return Ok(Some(BuiltRule(matches, action)));
    }
    return Err("action is not supported");
  }

  // The rules that are kept, in their order.
  function KeptOf(rule: Rule): seq<BuiltRule> {
    if Idle(rule) then [] else [BuiltRule(MatchOf(rule.matcher), TargetOf(rule))]
  }

  function Kept(rules: seq<Rule>): seq<BuiltRule> {
    if rules == [] then [] else Kept(rules[..|rules| - 1]) + KeptOf(rules[|rules| - 1])
  }

  // ----------------------------------------------------------------------- merge

  function AllOutbounds(configs: seq<NodeConfig>): seq<Outbound> {
    if configs == [] then [] else AllOutbounds(configs[..|configs| - 1]) + configs[|configs| - 1].outbounds
  }

  function AllRules(configs: seq<NodeConfig>): seq<Rule> {
    if configs == [] then [] else AllRules(configs[..|configs| - 1]) + configs[|configs| - 1].rules
  }

  ghost predicate AnyMalformed(list: seq<Outbound>) { exists i :: 0 <= i < |list| && !WellFormed(list[i]) }

  ghost predicate AnyRefused(rules: seq<Rule>, known: set<string>) {
    exists i :: 0 <= i < |rules| && Refused(rules[i], known)
  }

  lemma MalformedStep(list: seq<Outbound>, i: nat)
    requires i < |list|
    ensures AnyMalformed(list[..i + 1]) <==> AnyMalformed(list[..i]) || !WellFormed(list[i])
    ensures !WellFormed(list[i]) ==> AnyMalformed(list)
  {
    if !WellFormed(list[i]) {
      assert list[..i + 1][i] == list[i];
    }
    if j :| 0 <= j < i && !WellFormed(list[j]) {
      assert list[..i + 1][j] == list[..i][j] == list[j];
    }
  }

  lemma RefusedStep(rules: seq<Rule>, i: nat, known: set<string>)
    requires i < |rules|
    ensures AnyRefused(rules[..i + 1], known) <==> AnyRefused(rules[..i], known) || Refused(rules[i], known)
    ensures Refused(rules[i], known) ==> AnyRefused(rules, known)
  {
    if Refused(rules[i], known) {
      assert rules[..i + 1][i] == rules[i];
    }
    if j :| 0 <= j < i && Refused(rules[j], known) {
      assert rules[..i + 1][j] == rules[..i][j] == rules[j];
    }
  }

  // Adds the outbounds of one configuration to those of the earlier ones.
  method AddOutbounds(ghost before: seq<Outbound>, list: seq<Outbound>, out: seq<Built>, seen: set<string>)
    returns (ok: bool, out': seq<Built>, seen': set<string>)
    requires out == Emitted(before) && seen == Known(before)
    ensures ok <==> !AnyMalformed(list)
    ensures ok ==> out' == Emitted(before + list) && seen' == Known(before + list)
  {
    out', seen' := out, seen;
    assert before + list[..0] == before;
    for i := 0 to |list|
      invariant out' == Emitted(before + list[..i]) && seen' == Known(before + list[..i])
      invariant !AnyMalformed(list[..i])
    {
      MalformedStep(list, i);
      var built := BuildOutbound(list[i]);
      if built.Err? {
        return false, out', seen';
      }
      AddNext(before, list, i);
      var key := Lower(Trim(built.value.1));
      if key !in seen' {
        out', seen' := out' + [built.value.0], seen' + {key};
      }
    }
    assert list[..|list|] == list;
    ok := true;
  }

  lemma AddNext(before: seq<Outbound>, list: seq<Outbound>, i: nat)
    requires i < |list|
    ensures var o, had := list[i], before + list[..i];
            && Emitted(before + list[..i + 1]) == Emitted(had) + (if KeyOf(o) in Known(had) then [] else [BuiltOf(o)])
            && Known(before + list[..i + 1]) == Known(had) + {KeyOf(o)}
  {
    OneMore(before, list, i);
    AddStep(before + list[..i], list[i]);
  }

  lemma AddStep(list: seq<Outbound>, o: Outbound)
    ensures Emitted(list + [o]) == Emitted(list) + if KeyOf(o) in Known(list) then [] else [BuiltOf(o)]
    ensures Known(list + [o]) == Known(list) + {KeyOf(o)}
  {
    assert (list + [o])[..|list|] == list;
  }

  // Builds the rules of one configuration.
  method BuildRules(rules: seq<Rule>, known: set<string>) returns (ok: bool, out: seq<BuiltRule>)
    ensures ok <==> !AnyRefused(rules, known)
    ensures ok ==> out == Kept(rules)
  {
    out := [];
    for i := 0 to |rules|
      invariant out == Kept(rules[..i])
      invariant !AnyRefused(rules[..i], known)
    {
      KeptStep(rules, i);
      RefusedStep(rules, i, known);
      if !rules[i].disabled {
        var built := BuildRule(rules[i], known);
        if built.Err? {
          return false, out;
        }
        if built.value.Some? {
          out := out + [built.value.value];
        }
      }
    }
    assert rules[..|rules|] == rules;
    ok := true;
  }

  lemma KeptStep(rules: seq<Rule>, i: nat)
    requires i < |rules|
    ensures Kept(rules[..i + 1]) == Kept(rules[..i]) + KeptOf(rules[i])
  {
    assert rules[..i + 1][..i] == rules[..i];
  }

  // The first pass: outbounds, and the first DNS settings and route options there are.
  method MergeOutbounds(configs: seq<NodeConfig>) returns (ok: bool, outbounds: seq<Built>, seen: set<string>, p: Pass)
    ensures ok <==> !AnyMalformed(AllOutbounds(configs))
    ensures ok ==> outbounds == Emitted(AllOutbounds(configs)) && seen == Known(AllOutbounds(configs))
    ensures ok ==> p == FirstPass(configs)
  {
    outbounds, seen, p := [], {"direct", "block"}, Pass([], map[], map[]);
    for i := 0 to |configs|
      invariant outbounds == Emitted(AllOutbounds(configs[..i])) && seen == Known(AllOutbounds(configs[..i]))
      invariant p == FirstPass(configs[..i]) && !AnyMalformed(AllOutbounds(configs[..i]))
    {
      PrefixStep(configs, i, {});
      assert configs[..i + 1][..i] == configs[..i];
      p := p.(dns := Or(p.dns, configs[i].dns), options := Or(p.options, configs[i].options));
      ok, outbounds, seen := AddOutbounds(AllOutbounds(configs[..i]), configs[i].outbounds, outbounds, seen);
      if !ok {
        FaultsStay(configs, i + 1, {});
        return;
      }
    }
    assert configs[..|configs|] == configs;
    ok := true;
  }

  // One raw route: settings nobody gave before are taken, anything else is a rule.
  method AddRaw(p: Pass, raw: RawRoute) returns (r: Pass)
    ensures r == TakeRaw(p, raw)
  {
    if raw.dns.Some? && p.dns == map[] {
      return p.(dns := raw.dns.value);
    }
    if raw.options.Some? && p.options == map[] {
      return p.(options := raw.options.value);
    }
    r := p.(items := p.items + [Raw(raw.body)]);
  }

  method AddRaws(p: Pass, raws: seq<RawRoute>) returns (r: Pass)
    ensures r == TakeRaws(p, raws)
  {
    r := p;
    for i := 0 to |raws|
      invariant r == TakeRaws(p, raws[..i])
    {
      assert raws[..i + 1][..i] == raws[..i];
      r := AddRaw(r, raws[i]);
    }
    assert raws[..|raws|] == raws;
  }

  // The second pass: structured rules and raw routes, configuration by configuration.
  method MergeRules(configs: seq<NodeConfig>, known: set<string>, start: Pass) returns (ok: bool, p: Pass)
    ensures ok <==> !AnyRefused(AllRules(configs), known)
    ensures ok ==> p == SecondPass(start, configs)
  {
    p := start;
    for i := 0 to |configs|
      invariant p == SecondPass(start, configs[..i]) && !AnyRefused(AllRules(configs[..i]), known)
    {
      PrefixStep(configs, i, known);
      assert configs[..i + 1][..i] == configs[..i];
      var built;
      ok, built := BuildRules(configs[i].rules, known);
      if !ok {
        FaultsStay(configs, i + 1, known);
        return;
      }
      p := AddRaws(p.(items := p.items + Structureds(built)), configs[i].rawRoutes);
    }
    assert configs[..|configs|] == configs;
    ok := true;
  }

  // Merges the outbounds of all configurations and then their rules. It fails exactly
  // when an outbound is malformed or a rule that counts is refused; a rule may refer
  // to the outbound of any configuration.
  method Merge(configs: seq<NodeConfig>) returns (r: Result<Merged>)
    ensures r.Err? <==>
            AnyMalformed(AllOutbounds(configs)) || AnyRefused(AllRules(configs), Known(AllOutbounds(configs)))
    ensures r.Ok? ==> r.value.outbounds == Emitted(AllOutbounds(configs))
    ensures r.Ok? ==> r.value.route == RouteOf(SecondPass(FirstPass(configs), configs))
    ensures r.Ok? ==> r.value.dns == SecondPass(FirstPass(configs), configs).dns
  {
    var ok, outbounds, seen, start := MergeOutbounds(configs);
    if !ok {
      return Err("malformed outbound");
    }
    var done, p := MergeRules(configs, seen, start);
    if !done {
      return Err("refused rule");
    }
    r := Ok(Merged(outbounds, RouteOf(p), p.dns));
  }

  // ------------------------------------------------------------ what is passed on

  datatype Item = Structured(rule: BuiltRule) | Raw(body: Opaque)

  // The route of the result; without rules and options there is none.
  datatype Route = Route(options: Opaque, items: seq<Item>, final: string)

  datatype Merged = Merged(outbounds: seq<Built>, route: Option<Route>, dns: Opaque)

  // What the passes collect.
  datatype Pass = Pass(items: seq<Item>, dns: Opaque, options: Opaque)

  function Or(a: Opaque, b: Opaque): Opaque { if a != map[] then a else b }

  function FirstPass(configs: seq<NodeConfig>): Pass {
    if configs == [] then Pass([], map[], map[])
    else
      var p := FirstPass(configs[..|configs| - 1]);
      var c := configs[|configs| - 1];
      Pass([], Or(p.dns, c.dns), Or(p.options, c.options))
  }

  function Structureds(rules: seq<BuiltRule>): seq<Item> {
    if rules == [] then [] else Structureds(rules[..|rules| - 1]) + [Structured(rules[|rules| - 1])]
  }

  function TakeRaw(p: Pass, raw: RawRoute): Pass {
    if raw.dns.Some? && p.dns == map[] then p.(dns := raw.dns.value)
    else if raw.options.Some? && p.options == map[] then p.(options := raw.options.value)
    else p.(items := p.items + [Raw(raw.body)])
  }

  function TakeRaws(p: Pass, raws: seq<RawRoute>): Pass {
    if raws == [] then p else TakeRaw(TakeRaws(p, raws[..|raws| - 1]), raws[|raws| - 1])
  }

  function SecondPass(start: Pass, configs: seq<NodeConfig>): Pass {
    if configs == [] then start
    else
      var p := SecondPass(start, configs[..|configs| - 1]);
      var c := configs[|configs| - 1];
      TakeRaws(p.(items := p.items + Structureds(Kept(c.rules))), c.rawRoutes)
  }

  function RouteOf(p: Pass): Option<Route> {
    if p.items == [] && p.options == map[] then None
    else Some(Route(p.options, p.items, if "final" in p.options then p.options["final"] else "direct"))
  }

  // The structured rules among some items.
  function RulesIn(items: seq<Item>): seq<BuiltRule> {
    if items == [] then []
    else
      var last := items[|items| - 1];
      RulesIn(items[..|items| - 1]) + if last.Structured? then [last.rule] else []
  }

  lemma {:induction false} RulesInConcat(a: seq<Item>, b: seq<Item>)
    ensures RulesIn(a + b) == RulesIn(a) + RulesIn(b)
  {
    if b == [] {
      assert a + b == a;
    } else {
      assert (a + b)[..|a + b| - 1] == a + b[..|b| - 1];
      RulesInConcat(a, b[..|b| - 1]);
    }
  }

  lemma {:induction false} RulesInStructureds(rules: seq<BuiltRule>)
    ensures RulesIn(Structureds(rules)) == rules
  {
    if rules != [] {
      RulesInStructureds(rules[..|rules| - 1]);
      assert Structureds(rules)[..|Structureds(rules)| - 1] == Structureds(rules[..|rules| - 1]);
    }
  }

  lemma RawKeepsRules(p: Pass, raw: RawRoute)
    ensures RulesIn(TakeRaw(p, raw).items) == RulesIn(p.items)
  {
    assert (p.items + [Raw(raw.body)])[..|p.items|] == p.items;
  }

  lemma {:induction false} RawsKeepRules(p: Pass, raws: seq<RawRoute>)
    ensures RulesIn(TakeRaws(p, raws).items) == RulesIn(p.items)
  {
    if raws != [] {
      RawsKeepRules(p, raws[..|raws| - 1]);
      RawKeepsRules(TakeRaws(p, raws[..|raws| - 1]), raws[|raws| - 1]);
    }
  }

  lemma {:induction false} KeptConcat(a: seq<Rule>, b: seq<Rule>)
    ensures Kept(a + b) == Kept(a) + Kept(b)
  {
    if b == [] {
      assert a + b == a;
    } else {
      var last := b[|b| - 1];
      assert (a + b)[..|a + b| - 1] == a + b[..|b| - 1] && (a + b)[|a + b| - 1] == last;
      KeptConcat(a, b[..|b| - 1]);
      assert Kept(a) + (Kept(b[..|b| - 1]) + KeptOf(last)) == Kept(a) + Kept(b[..|b| - 1]) + KeptOf(last);
    }
  }

  // Whatever raw routes stand between them, the structured rules of the result are the
  // active rules of all configurations in their order.
  lemma {:induction false} RulesOfMerge(start: Pass, configs: seq<NodeConfig>)
    requires start.items == []
    ensures RulesIn(SecondPass(start, configs).items) == Kept(AllRules(configs))
  {
    if configs != [] {
      var n := |configs| - 1;
      var p := SecondPass(start, configs[..n]);
      RulesOfMerge(start, configs[..n]);
      var rules := Structureds(Kept(configs[n].rules));
      RawsKeepRules(p.(items := p.items + rules), configs[n].rawRoutes);
      RulesInConcat(p.items, rules);
      RulesInStructureds(Kept(configs[n].rules));
      KeptConcat(AllRules(configs[..n]), configs[n].rules);
    }
  }

  function AllRaws(configs: seq<NodeConfig>): seq<RawRoute> {
    if configs == [] then [] else AllRaws(configs[..|configs| - 1]) + configs[|configs| - 1].rawRoutes
  }

  // The first DNS settings that some raw route carries.
  function FirstDns(raws: seq<RawRoute>): Opaque {
    if raws == [] then map[]
    else
      var last := raws[|raws| - 1];
      Or(FirstDns(raws[..|raws| - 1]), if last.dns.Some? then last.dns.value else map[])
  }

  lemma {:induction false} FirstDnsConcat(a: seq<RawRoute>, b: seq<RawRoute>)
    ensures FirstDns(a + b) == Or(FirstDns(a), FirstDns(b))
  {
    if b == [] {
      assert a + b == a;
    } else {
      assert (a + b)[..|a + b| - 1] == a + b[..|b| - 1];
      FirstDnsConcat(a, b[..|b| - 1]);
    }
  }

  lemma {:induction false} DnsOfRaws(p: Pass, raws: seq<RawRoute>)
    ensures TakeRaws(p, raws).dns == Or(p.dns, FirstDns(raws))
  {
    if raws != [] {
      DnsOfRaws(p, raws[..|raws| - 1]);
    }
  }

  // The DNS settings of the result are the first ones that a configuration has, or
  // else the first ones that a raw route carries.
  lemma {:induction false} DnsOfMerge(start: Pass, configs: seq<NodeConfig>)
    ensures SecondPass(start, configs).dns == Or(start.dns, FirstDns(AllRaws(configs)))
  {
    if configs != [] {
      var n := |configs| - 1;
      var p := SecondPass(start, configs[..n]);
      DnsOfMerge(start, configs[..n]);
      DnsOfRaws(p.(items := p.items + Structureds(Kept(configs[n].rules))), configs[n].rawRoutes);
      FirstDnsConcat(AllRaws(configs[..n]), configs[n].rawRoutes);
    }
  }

  // The route options that a raw route gives when `dns` are the DNS settings there are
  // by then: none if its own DNS settings are taken.
  function OptionsOf(dns: Opaque, raw: RawRoute): Opaque {
    if raw.options.Some? && !(raw.dns.Some? && dns == map[]) then raw.options.value else map[]
  }

  // The first route options that some raw route gives.
  function FirstOptions(dns: Opaque, raws: seq<RawRoute>): Opaque {
    if raws == [] then map[]
    else
      var before := raws[..|raws| - 1];
      Or(FirstOptions(dns, before), OptionsOf(Or(dns, FirstDns(before)), raws[|raws| - 1]))
  }

  lemma {:induction false} FirstOptionsConcat(dns: Opaque, a: seq<RawRoute>, b: seq<RawRoute>)
    ensures FirstOptions(dns, a + b) == Or(FirstOptions(dns, a), FirstOptions(Or(dns, FirstDns(a)), b))
  {
    if b == [] {
      assert a + b == a;
    } else {
      var before := b[..|b| - 1];
      assert (a + b)[..|a + b| - 1] == a + before && (a + b)[|a + b| - 1] == b[|b| - 1];
      FirstOptionsConcat(dns, a, before);
      FirstDnsConcat(a, before);
    }
  }

  lemma {:induction false} OptionsOfRaws(p: Pass, raws: seq<RawRoute>)
    ensures TakeRaws(p, raws).options == Or(p.options, FirstOptions(p.dns, raws))
  {
    if raws != [] {
      OptionsOfRaws(p, raws[..|raws| - 1]);
      DnsOfRaws(p, raws[..|raws| - 1]);
    }
  }

  // The route options of the result are the first ones that a configuration has, or
  // else the first ones that a raw route gives.
  lemma {:induction false} OptionsOfMerge(start: Pass, configs: seq<NodeConfig>)
    ensures SecondPass(start, configs).options == Or(start.options, FirstOptions(start.dns, AllRaws(configs)))
  {
    if configs != [] {
      var n := |configs| - 1;
      var p := SecondPass(start, configs[..n]);
      OptionsOfMerge(start, configs[..n]);
      DnsOfMerge(start, configs[..n]);
      OptionsOfRaws(p.(items := p.items + Structureds(Kept(configs[n].rules))), configs[n].rawRoutes);
      FirstOptionsConcat(start.dns, AllRaws(configs[..n]), configs[n].rawRoutes);
    }
  }

  // What the first pass brings: the first settings and options that a configuration has.
  lemma {:induction false} FirstPassFinds(configs: seq<NodeConfig>, i: nat)
    requires i < |configs|
    ensures (forall j :: 0 <= j < i ==> configs[j].dns == map[]) && configs[i].dns != map[] ==>
              FirstPass(configs).dns == configs[i].dns
    ensures (forall j :: 0 <= j < i ==> configs[j].options == map[]) && configs[i].options != map[] ==>
              FirstPass(configs).options == configs[i].options
  {
    var n := |configs| - 1;
    if i < n {
      FirstPassFinds(configs[..n], i);
    } else {
      NothingFound(configs[..n]);
    }
  }

  lemma {:induction false} NothingFound(configs: seq<NodeConfig>)
    ensures (forall c :: c in configs ==> c.dns == map[]) <==> FirstPass(configs).dns == map[]
    ensures (forall c :: c in configs ==> c.options == map[]) <==> FirstPass(configs).options == map[]
  {
    if configs != [] {
      var n := |configs| - 1;
      NothingFound(configs[..n]);
      assert configs == configs[..n] + [configs[n]];
    }
  }

  // -------------------------------------------------------------- many configurations

  lemma PrefixStep(configs: seq<NodeConfig>, i: nat, known: set<string>)
    requires i < |configs|
    ensures AllOutbounds(configs[..i + 1]) == AllOutbounds(configs[..i]) + configs[i].outbounds
    ensures AllRules(configs[..i + 1]) == AllRules(configs[..i]) + configs[i].rules
    ensures AnyMalformed(AllOutbounds(configs[..i + 1]))
            <==> AnyMalformed(AllOutbounds(configs[..i])) || AnyMalformed(configs[i].outbounds)
    ensures AnyRefused(AllRules(configs[..i + 1]), known)
            <==> AnyRefused(AllRules(configs[..i]), known) || AnyRefused(configs[i].rules, known)
  {
    assert configs[..i + 1][..i] == configs[..i];
    MalformedConcat(AllOutbounds(configs[..i]), configs[i].outbounds);
    RefusedConcat(AllRules(configs[..i]), configs[i].rules, known);
  }

  lemma MalformedConcat(a: seq<Outbound>, b: seq<Outbound>)
    ensures AnyMalformed(a + b) <==> AnyMalformed(a) || AnyMalformed(b)
  {
    if i :| 0 <= i < |a| && !WellFormed(a[i]) {
      assert (a + b)[i] == a[i];
    }
    if i :| 0 <= i < |b| && !WellFormed(b[i]) {
      assert (a + b)[|a| + i] == b[i];
    }
  }

  lemma RefusedConcat(a: seq<Rule>, b: seq<Rule>, known: set<string>)
    ensures AnyRefused(a + b, known) <==> AnyRefused(a, known) || AnyRefused(b, known)
  {
    if i :| 0 <= i < |a| && Refused(a[i], known) {
      assert (a + b)[i] == a[i];
    }
    if i :| 0 <= i < |b| && Refused(b[i], known) {
      assert (a + b)[|a| + i] == b[i];
    }
  }

  lemma {:induction false} FaultsStay(configs: seq<NodeConfig>, i: nat, known: set<string>)
    requires i <= |configs|
    ensures AnyMalformed(AllOutbounds(configs[..i])) ==> AnyMalformed(AllOutbounds(configs))
    ensures AnyRefused(AllRules(configs[..i]), known) ==> AnyRefused(AllRules(configs), known)
    decreases |configs| - i
  {
    if i == |configs| {
      assert configs[..i] == configs;
    } else {
      PrefixStep(configs, i, known);
      FaultsStay(configs, i + 1, known);
    }
  }

  // ------------------------------------------------------------------ what it gives

  function TagOf(b: Built): string { if "tag" in b then b["tag"] else "" }

  // The emitted tags differ from each other and from the built-in ones, ignoring case.
  lemma EmittedTagsDiffer(list: seq<Outbound>)
    requires !AnyMalformed(list)
    ensures forall b :: b in Emitted(list) ==> !BuiltIn(Lower(TagOf(b)))
    ensures forall a, b :: 0 <= a < b < |Emitted(list)| ==>
              Lower(TagOf(Emitted(list)[a])) != Lower(TagOf(Emitted(list)[b]))
  {
    var idx := FirstOnesWin(list);
    forall a | 0 <= a < |idx|
      ensures Lower(TagOf(Emitted(list)[a])) == KeyOf(list[idx[a]])
    {
      BuiltTag(list[idx[a]]);
    }
  }

  lemma BuiltTag(o: Outbound)
    requires WellFormed(o)
    ensures TagOf(BuiltOf(o)) == Trim(o.tag) && Lower(TagOf(BuiltOf(o))) == KeyOf(o)
  {
    TrimTwice(o.tag);
  }

  // Every kept rule sends its traffic to an emitted tag or a built-in one, ignoring
  // case.
  lemma KeptRulesHaveTargets(list: seq<Outbound>, rules: seq<Rule>, k: nat)
    requires !AnyMalformed(list) && !AnyRefused(rules, Known(list)) && k < |Kept(rules)|
    ensures var target := Lower(Kept(rules)[k].outbound);
            BuiltIn(target) || exists b :: b in Emitted(list) && Lower(TagOf(b)) == target
  {
    var i := RuleBehind(rules, k);
    var target := Lower(TargetOf(rules[i]));
    TargetIsKnown(rules[i], Known(list));
    KnownKey(list, target);
    if !BuiltIn(target) {
      FirstIsEmitted(list, target);
    }
  }

  lemma TargetIsKnown(rule: Rule, known: set<string>)
    requires !Idle(rule) && !Refused(rule, known)
    ensures BuiltIn(Lower(TargetOf(rule))) || Lower(TargetOf(rule)) in known
  {
    if !Routes(rule) {
      LowerKeepsBuiltIn(ActionOf(rule));
    }
  }

  lemma LowerKeepsBuiltIn(key: string)
    requires BuiltIn(key)
    ensures Lower(key) == key
  {
    assert Lower("direct") == "direct" && Lower("block") == "block";
  }

  lemma {:induction false} RuleBehind(rules: seq<Rule>, k: nat) returns (i: nat)
    requires k < |Kept(rules)|
    ensures i < |rules| && !Idle(rules[i])
    ensures Kept(rules)[k] == BuiltRule(MatchOf(rules[i].matcher), TargetOf(rules[i]))
  {
    var n := |rules| - 1;
    if k < |Kept(rules[..n])| {
      i := RuleBehind(rules[..n], k);
    } else {
      i := n;
    }
  }

  lemma FirstIsEmitted(list: seq<Outbound>, key: string)
    requires !AnyMalformed(list) && !BuiltIn(key) && HasKey(list, key)
    ensures exists b :: b in Emitted(list) && Lower(TagOf(b)) == key
  {
    var any: nat :| any < |list| && KeyOf(list[any]) == key;
    var i := FirstWith(list, key, any);
    assert First(list, i);
    var idx := FirstOnesWin(list);
    var a :| 0 <= a < |idx| && idx[a] == i;
    BuiltTag(list[i]);
    assert Emitted(list)[a] in Emitted(list);
  }

  predicate HasKey(list: seq<Outbound>, key: string) { exists i :: 0 <= i < |list| && KeyOf(list[i]) == key }

  lemma {:induction false} FirstWith(list: seq<Outbound>, key: string, i: nat) returns (k: nat)
    requires i < |list| && KeyOf(list[i]) == key
    ensures k < |list| && KeyOf(list[k]) == key && forall j :: 0 <= j < k ==> KeyOf(list[j]) != key
    decreases i
  {
    if j: nat :| j < i && KeyOf(list[j]) == key {
      k := FirstWith(list, key, j);
    } else {
      k := i;
    }
  }

  // A tag that sing-box finds as it stands.
  ghost predicate Emits(list: seq<Outbound>, tag: string) {
    BuiltIn(tag) || exists b :: b in Emitted(list) && TagOf(b) == tag
  }

  // A built-in tag, or the tag of an outbound that makes it.
  ghost predicate Exists(list: seq<Outbound>, tag: string) {
    BuiltIn(tag) || exists i :: First(list, i) && Trim(list[i].tag) == tag
  }

  // The emitted tags are those of the outbounds that make it.
  lemma ExistsIff(list: seq<Outbound>, tag: string)
    requires !AnyMalformed(list)
    ensures Exists(list, tag) <==> Emits(list, tag)
  {
    var idx := FirstOnesWin(list);
    if b :| b in Emitted(list) && TagOf(b) == tag {
      var a :| 0 <= a < |Emitted(list)| && Emitted(list)[a] == b;
      BuiltTag(list[idx[a]]);
    }
    if i :| First(list, i) && Trim(list[i].tag) == tag {
      var a :| 0 <= a < |idx| && idx[a] == i;
      BuiltTag(list[i]);
      assert Emitted(list)[a] in Emitted(list);
    }
  }

  lemma {:induction false} RuleIsThere(rules: seq<Rule>, i: nat)
    requires i < |rules| && !Idle(rules[i])
    ensures BuiltRule(MatchOf(rules[i].matcher), TargetOf(rules[i])) in Kept(rules)
  {
    if i < |rules| - 1 {
      RuleIsThere(rules[..|rules| - 1], i);
    }
  }

  // The rules whose action is to route, as they are written.
  predicate Sends(rule: Rule) { !Idle(rule) && Routes(rule) }

  // The reference check ignores case, but sing-box tags do not. After a successful
  // merge every rule's outbound exists as it stands exactly when every active routing
  // rule was written with the very tag of an outbound that made it, or with a built-in
  // one in lower case.
  lemma TargetsExistIff(list: seq<Outbound>, rules: seq<Rule>)
    requires !AnyMalformed(list) && !AnyRefused(rules, Known(list))
    ensures (forall r :: r in Kept(rules) ==> Emits(list, r.outbound))
            <==> (forall i :: 0 <= i < |rules| && Sends(rules[i]) ==> Exists(list, Trim(rules[i].target)))
  {
    if forall r :: r in Kept(rules) ==> Emits(list, r.outbound) {
      forall i | 0 <= i < |rules| && Sends(rules[i])
        ensures Exists(list, Trim(rules[i].target))
      {
        RuleIsThere(rules, i);
        ExistsIff(list, Trim(rules[i].target));
      }
    }
    if forall i :: 0 <= i < |rules| && Sends(rules[i]) ==> Exists(list, Trim(rules[i].target)) {
      forall r | r in Kept(rules)
        ensures Emits(list, r.outbound)
      {
        var k :| 0 <= k < |Kept(rules)| && Kept(rules)[k] == r;
        var i := RuleBehind(rules, k);
        assert !Refused(rules[i], Known(list));
        ExistsIff(list, r.outbound);
      }
    }
  }

  const PROXY := Outbound("Proxy", "vless", map["server" := "s"], "")
  const TO_PROXY := Rule("r", false, Matcher(["a.example"], [], [], [], [], [], []), "route", "proxy")

  // For example, a rule for "proxy" passes when only "Proxy" exists.
  lemma CaseIsNotChecked()
    ensures !AnyMalformed([PROXY]) && !AnyRefused([TO_PROXY], Known([PROXY]))
    ensures |Kept([TO_PROXY])| == 1 && Kept([TO_PROXY])[0].outbound == "proxy"
    ensures forall b :: b in Emitted([PROXY]) ==> TagOf(b) != "proxy"
  {
    ProxyIsEmitted();
    RuleIsKept();
  }

  lemma ProxyIsEmitted()
    ensures WellFormed(PROXY) && Emitted([PROXY]) == [BuiltOf(PROXY)] && TagOf(BuiltOf(PROXY)) == "Proxy"
    ensures "proxy" in Known([PROXY])
  {
    assert Trim("Proxy") == "Proxy" && Trim("vless") == "vless";
    assert Lower("Proxy") == "proxy" && Lower("vless") == "vless";
    assert "server" in PROXY.settings;
    assert [PROXY][..0] == [];
    assert PROXY in [PROXY];
    BuiltTag(PROXY);
  }

  lemma RuleIsKept()
    ensures !Idle(TO_PROXY) && Routes(TO_PROXY) && TargetOf(TO_PROXY) == "proxy" && Lower("proxy") == "proxy"
    ensures |Kept([TO_PROXY])| == 1 && Kept([TO_PROXY])[0].outbound == "proxy"
  {
    assert Trim("proxy") == "proxy" && Lower("proxy") == "proxy";
    assert Trim("route") == "route" && Lower("route") == "route";
    assert Trim("a.example") == "a.example";
    MatchesNothingIff(TO_PROXY.matcher);
    assert TO_PROXY.matcher.domains[0] == "a.example";
    assert [TO_PROXY][..0] == [];
  }
}
