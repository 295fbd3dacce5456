/**
 Source buckets: `label=cidr[,cidr...]` rules and the classification of a peer
 address by the first rule that contains it.
 */
module SourceClassifier {
  import opened Text

  // A masked network prefix.
  type Prefix = string

  // The address arithmetic of net and net/netip, which is not modelled: the
  // canonical form of a literal address, the host part of host:port, the masked
  // prefix of a CIDR or an address, and whether a prefix contains an address.
  datatype Net = Net(
    canonical: string -> Option<string>,
    host: string -> Option<string>,
    prefix: string -> Option<Prefix>,
    contains: (Prefix, string) -> bool)

  datatype Rule = Rule(bucket: string, prefixes: seq<Prefix>)

  // ------------------------------------------------------------------ parsing

  // A blank candidate is skipped, any other must be a prefix or an address.
  predicate Parses(net: Net, candidate: string) { Trim(candidate) == "" || net.prefix(Trim(candidate)).Some? }

  function PrefixOf(net: Net, candidate: string): seq<Prefix> {
    if Trim(candidate) == "" then []
    else
      match net.prefix(Trim(candidate))
      case None => []
      case Some(p) => [p]
  }

  function PrefixesIn(net: Net, candidates: seq<string>): seq<Prefix> {
    if candidates == [] then []
    else PrefixesIn(net, candidates[..|candidates| - 1]) + PrefixOf(net, candidates[|candidates| - 1])
  }

  function ParsePrefixes(net: Net, candidates: seq<string>): Result<seq<Prefix>> {
    if forall c :: c in candidates ==> Parses(net, c) then Ok(PrefixesIn(net, candidates)) else Err("bad prefix")
  }

  function ParseRule(net: Net, raw: string): Result<Rule> {
    var i := IndexOf(raw, '=');
    if i == |raw| then Err("must use label=cidr[,cidr...]")
    else
      var bucket := Trim(raw[..i]);
      if bucket == "" then Err("missing a label")
      else
        match ParsePrefixes(net, Split(raw[i + 1..], ','))
        case Err(m) => Err(m)
        case Ok(prefixes) => if prefixes == [] then Err("does not contain any CIDR") else Ok(Rule(bucket, prefixes))
  }

  // The rules that `specs` adds to `rules`; blank specifications are skipped.
  function ParseBuckets(net: Net, specs: seq<string>, rules: seq<Rule>): Result<seq<Rule>>
    decreases |specs|
  {
    if specs == [] then Ok(rules)
    else
      var raw := Trim(specs[0]);
      if raw == "" then ParseBuckets(net, specs[1..], rules)
      else
        match ParseRule(net, raw)
        case Err(m) => Err(m)
        case Ok(rule) => ParseBuckets(net, specs[1..], rules + [rule])
  }

  ghost predicate AllParse(net: Net, candidates: seq<string>, n: nat)
    requires n <= |candidates|
  {
    forall i :: 0 <= i < n ==> Parses(net, candidates[i])
  }

  // The prefixes are those of the candidates at the positions `at`.
  ghost predicate TakenFrom(net: Net, candidates: seq<string>, prefixes: seq<Prefix>, at: seq<nat>) {
    && |at| == |prefixes|
    && forall k :: 0 <= k < |at| ==> at[k] < |candidates| && net.prefix(Trim(candidates[at[k]])) == Some(prefixes[k])
  }

  // The positions below `n` of the candidates that are not blank, in ascending order.
  ghost predicate NotBlank(candidates: seq<string>, n: nat, at: seq<nat>)
    requires n <= |candidates|
  {
    Ascending(at, n) && forall i :: 0 <= i < n ==> (i in at <==> Trim(candidates[i]) != "")
  }

  ghost predicate Ascending(at: seq<nat>, n: nat) {
    (forall k :: 0 <= k < |at| ==> at[k] < n) && (forall j, k :: 0 <= j < k < |at| ==> at[j] < at[k])
  }

  lemma AscendingStep(at: seq<nat>, n: nat)
    requires Ascending(at, n)
    ensures Ascending(at + [n], n + 1) && Ascending(at, n + 1) && n !in at
  {}

  lemma MemberStep(at: seq<nat>, n: nat, i: nat)
    ensures i in at + [n] <==> i in at || i == n
  {
    assert (at + [n])[|at|] == n;
    if i in at {
      var k :| 0 <= k < |at| && at[k] == i;
      assert (at + [n])[k] == i;
    }
  }

  lemma NotBlankStep(candidates: seq<string>, i: nat, at: seq<nat>)
    requires i < |candidates| && NotBlank(candidates, i, at)
    ensures NotBlank(candidates, i + 1, if Trim(candidates[i]) == "" then at else at + [i])
  {
    AscendingStep(at, i);
    forall j: nat | j <= i
      ensures j in at + [i] <==> j in at || j == i
    {
      MemberStep(at, i, j);
    }
  }

  lemma TakenStep(net: Net, candidates: seq<string>, prefixes: seq<Prefix>, i: nat, at: seq<nat>)
    requires i < |candidates| && TakenFrom(net, candidates, prefixes, at) && Parses(net, candidates[i])
    ensures TakenFrom(net, candidates, prefixes + PrefixOf(net, candidates[i]),
                      if Trim(candidates[i]) == "" then at else at + [i])
  {}

  // The prefixes of a list are those of its candidates that are not blank, in order.
  lemma {:induction false} PrefixesInOrder(net: Net, candidates: seq<string>, n: nat) returns (at: seq<nat>)
    requires n <= |candidates| && AllParse(net, candidates, n)
    ensures TakenFrom(net, candidates, PrefixesIn(net, candidates[..n]), at) && NotBlank(candidates, n, at)
  {
    if n == 0 {
      at := [];
    } else {
      var before := PrefixesInOrder(net, candidates, n - 1);
      PrefixesStep(net, candidates, n - 1);
      NotBlankStep(candidates, n - 1, before);
      TakenStep(net, candidates, PrefixesIn(net, candidates[..n - 1]), n - 1, before);
      at := if Trim(candidates[n - 1]) == "" then before else before + [n - 1];
    }
  }

  lemma PrefixesStep(net: Net, candidates: seq<string>, i: nat)
    requires i < |candidates|
    ensures PrefixesIn(net, candidates[..i + 1]) == PrefixesIn(net, candidates[..i]) + PrefixOf(net, candidates[i])
  {
    assert candidates[..i + 1][..i] == candidates[..i];
  }

  // The list is accepted exactly when every candidate that is not blank parses.
  lemma AcceptedIff(net: Net, candidates: seq<string>)
    ensures ParsePrefixes(net, candidates).Ok? <==> AllParse(net, candidates, |candidates|)
  {
    forall c | c in candidates && AllParse(net, candidates, |candidates|)
      ensures Parses(net, c)
    {
      var i :| 0 <= i < |candidates| && candidates[i] == c;
    }
  }

  // And then the result is their prefixes in their order.
  method ParsePrefixList(net: Net, candidates: seq<string>) returns (r: Result<seq<Prefix>>, ghost at: seq<nat>)
    ensures r.Ok? <==> AllParse(net, candidates, |candidates|)
    ensures r.Ok? ==> TakenFrom(net, candidates, r.value, at) && NotBlank(candidates, |candidates|, at)
    ensures r == ParsePrefixes(net, candidates)
  {
    AcceptedIff(net, candidates);
    var found := [];
    at := [];
    for i := 0 to |candidates|
      invariant found == PrefixesIn(net, candidates[..i]) && AllParse(net, candidates, i)
    {
      PrefixesStep(net, candidates, i);
      var candidate := Trim(candidates[i]);
      if candidate != "" {
        match net.prefix(candidate)
        case None =>
          return Err("bad prefix"), at;
        case Some(p) =>
          found := found + [p];
      }
    }
    assert candidates[..|candidates|] == candidates;
    at := PrefixesInOrder(net, candidates, |candidates|);
    r := Ok(found);
  }

  // A specification with a label and at least one prefix, and nothing that is none.
  ghost predicate IsRule(net: Net, spec: string) {
    var raw := Trim(spec);
    var i := IndexOf(raw, '=');
    i < |raw| && Trim(raw[..i]) != "" && ListsPrefixes(net, Split(raw[i + 1..], ','))
  }

  ghost predicate ListsPrefixes(net: Net, candidates: seq<string>) {
    AllParse(net, candidates, |candidates|) && exists i :: 0 <= i < |candidates| && Trim(candidates[i]) != ""
  }

  // The rule of such a specification.
  function RuleOf(net: Net, spec: string): Rule {
    var raw := Trim(spec);
    var i := IndexOf(raw, '=');
    if i == |raw| then Rule("", []) else Rule(Trim(raw[..i]), PrefixesIn(net, Split(raw[i + 1..], ',')))
  }

  lemma ListsPrefixesIff(net: Net, candidates: seq<string>)
    ensures ListsPrefixes(net, candidates)
            <==> ParsePrefixes(net, candidates).Ok? && ParsePrefixes(net, candidates).value != []
  {
    AcceptedIff(net, candidates);
    if AllParse(net, candidates, |candidates|) {
      var at := PrefixesInOrder(net, candidates, |candidates|);
      assert candidates[..|candidates|] == candidates;
      assert at != [] ==> at[0] in at;
    }
  }

  lemma RuleAccepted(net: Net, spec: string)
    ensures ParseRule(net, Trim(spec)).Ok? <==> IsRule(net, spec)
    ensures IsRule(net, spec) ==> ParseRule(net, Trim(spec)).value == RuleOf(net, spec)
  {
    var raw := Trim(spec);
    var i := IndexOf(raw, '=');
    if i < |raw| {
      ListsPrefixesIff(net, Split(raw[i + 1..], ','));
    }
  }

  ghost predicate AllRules(net: Net, specs: seq<string>, n: nat)
    requires n <= |specs|
  {
    forall i :: 0 <= i < n && Trim(specs[i]) != "" ==> IsRule(net, specs[i])
  }

  // The rules are those of the specifications at the positions `at`.
  ghost predicate RulesFrom(net: Net, specs: seq<string>, rules: seq<Rule>, at: seq<nat>) {
    |at| == |rules| && forall k :: 0 <= k < |at| ==> at[k] < |specs| && rules[k] == RuleOf(net, specs[at[k]])
  }

  lemma RulesStep(net: Net, specs: seq<string>, i: nat, rules: seq<Rule>, at: seq<nat>)
    requires i < |specs| && RulesFrom(net, specs, rules, at)
    ensures RulesFrom(net, specs, rules + [RuleOf(net, specs[i])], at + [i])
  {}

  method ParseOne(net: Net, raw: string) returns (r: Result<Rule>)
    ensures r == ParseRule(net, raw)
  {
    var at := IndexOf(raw, '=');
    if at == |raw| {
      return Err("must use label=cidr[,cidr...]");
    }
    var bucket := Trim(raw[..at]);
    if bucket == "" {
      return Err("missing a label");
    }
    var parsed, _ := ParsePrefixList(net, Split(raw[at + 1..], ','));
    if parsed.Err? {
      return Err(parsed.message);
    }
    if parsed.value == [] {
      return Err("does not contain any CIDR");
    }
    r := Ok(Rule(bucket, parsed.value));
  }

  // The list is accepted exactly when every specification that is not blank is a rule,
  // and then the result is their rules in their order.
  method ParseSourceBuckets(net: Net, specs: seq<string>) returns (r: Result<seq<Rule>>, ghost at: seq<nat>)
    ensures r.Ok? <==> AllRules(net, specs, |specs|)
    ensures r.Ok? ==> RulesFrom(net, specs, r.value, at) && NotBlank(specs, |specs|, at)
    ensures r == ParseBuckets(net, specs, [])
    ensures r.Ok? ==> forall rule :: rule in r.value ==> CleanRule(rule)
  {
    AcceptedRulesAreClean(net, specs, []);
    var rules := [];
    at := [];
    for i := 0 to |specs|
      invariant ParseBuckets(net, specs[i..], rules) == ParseBuckets(net, specs, [])
      invariant RulesFrom(net, specs, rules, at) && NotBlank(specs, i, at) && AllRules(net, specs, i)
    {
      assert specs[i..][0] == specs[i] && specs[i..][1..] == specs[i + 1..];
      RuleAccepted(net, specs[i]);
      NotBlankStep(specs, i, at);
      var raw := Trim(specs[i]);
      if raw != "" {
        var parsed := ParseOne(net, raw);
        if parsed.Err? {
          return Err(parsed.message), at;
        }
        RulesStep(net, specs, i, rules, at);
        rules, at := rules + [parsed.value], at + [i];
      }
    }
    r := Ok(rules);
  }

  // A label that can be printed into a tag and read back: see SourceTag.
  predicate CleanRule(rule: Rule) {
    rule.bucket != "" && '=' !in rule.bucket && rule.prefixes != []
  }

  lemma {:induction false} AcceptedRulesAreClean(net: Net, specs: seq<string>, rules: seq<Rule>)
    requires forall rule :: rule in rules ==> CleanRule(rule)
    ensures var r := ParseBuckets(net, specs, rules);
            r.Ok? ==> forall rule :: rule in r.value ==> CleanRule(rule)
    decreases |specs|
  {
    if specs != [] {
      var raw := Trim(specs[0]);
      if raw == "" {
        AcceptedRulesAreClean(net, specs[1..], rules);
      } else {
        TrimKeeps(raw[..IndexOf(raw, '=')], '=');
        match ParseRule(net, raw)
        case Err(_) =>
        case Ok(rule) => AcceptedRulesAreClean(net, specs[1..], rules + [rule]);
      }
    }
  }

  // ----------------------------------------------------------- classification

  function NormalizePeerIP(net: Net, value: string): string {
    var v := Trim(value);
    if v == "" then ""
    else
      match net.canonical(v)
      case Some(address) => address
      case None =>
        match net.host(v)
        case None => v
        case Some(h) =>
          match net.canonical(h)
          case Some(address) => address
          case None => h
  }

  predicate Matches(net: Net, rule: Rule, ip: string) {
    exists p :: p in rule.prefixes && net.contains(p, ip)
  }

  function FirstMatch(net: Net, rules: seq<Rule>, ip: string): string {
    if rules == [] then ip
    else if Matches(net, rules[0], ip) then rules[0].bucket
    else FirstMatch(net, rules[1..], ip)
  }

  // The bucket of a peer, or its address when no rule contains it. Without a
  // classifier, or when the peer is no address, that is always the address.
  function Classify(net: Net, classifier: Option<seq<Rule>>, source: string): string {
    var ip := NormalizePeerIP(net, source);
    if ip == "" then ""
    else if classifier.None? || net.canonical(ip).None? then ip
    else FirstMatch(net, classifier.value, ip)
  }

  // A prefix of the rule at some position contains the address.
  ghost predicate ContainedAt(net: Net, rules: seq<Rule>, i: nat, ip: string) {
    i < |rules| && exists k :: 0 <= k < |rules[i].prefixes| && net.contains(rules[i].prefixes[k], ip)
  }

  // No earlier rule contains it.
  ghost predicate FirstContaining(net: Net, rules: seq<Rule>, i: nat, ip: string) {
    ContainedAt(net, rules, i, ip) && forall j: nat :: j < i ==> !ContainedAt(net, rules, j, ip)
  }

  lemma {:induction false} FirstMatchIs(net: Net, rules: seq<Rule>, ip: string)
    ensures forall i: nat :: FirstContaining(net, rules, i, ip) ==> FirstMatch(net, rules, ip) == rules[i].bucket
    ensures (forall i: nat :: !ContainedAt(net, rules, i, ip)) ==> FirstMatch(net, rules, ip) == ip
  {
    if rules != [] {
      FirstMatchIs(net, rules[1..], ip);
      MatchesIffContained(net, rules, ip);
      forall i: nat | 0 < i < |rules|
        ensures ContainedAt(net, rules, i, ip) <==> ContainedAt(net, rules[1..], i - 1, ip)
      {
        assert rules[i] == rules[1..][i - 1];
      }
      forall i: nat | FirstContaining(net, rules, i, ip)
        ensures FirstMatch(net, rules, ip) == rules[i].bucket
      {
        if i > 0 {
          assert !ContainedAt(net, rules, 0, ip);
          TailFirst(net, rules, i, ip);
        }
      }
      if forall i: nat :: !ContainedAt(net, rules, i, ip) {
        forall i: nat
          ensures !ContainedAt(net, rules[1..], i, ip)
        {
          assert !ContainedAt(net, rules, i + 1, ip);
        }
        assert !ContainedAt(net, rules, 0, ip);
      }
    }
  }

  lemma MatchesIffContained(net: Net, rules: seq<Rule>, ip: string)
    requires rules != []
    ensures Matches(net, rules[0], ip) <==> ContainedAt(net, rules, 0, ip)
  {
    if p :| p in rules[0].prefixes && net.contains(p, ip) {
      var k :| 0 <= k < |rules[0].prefixes| && rules[0].prefixes[k] == p;
    }
  }

  lemma TailFirst(net: Net, rules: seq<Rule>, i: nat, ip: string)
    requires 0 < i && FirstContaining(net, rules, i, ip)
    ensures FirstContaining(net, rules[1..], i - 1, ip) && rules[1..][i - 1] == rules[i]
  {
    forall j: nat | j < i - 1
      ensures !ContainedAt(net, rules[1..], j, ip)
    {
      assert !ContainedAt(net, rules, j + 1, ip);
    }
  }

  // With a classifier, a peer that is an address is counted under the label of the first
  // rule that contains it, and under its address when no rule does.
  lemma ClassifyIsFirst(net: Net, rules: seq<Rule>, source: string)
    requires NormalizePeerIP(net, source) != "" && net.canonical(NormalizePeerIP(net, source)).Some?
    ensures var ip := NormalizePeerIP(net, source);
            && (forall i: nat :: FirstContaining(net, rules, i, ip) ==>
                  Classify(net, Some(rules), source) == rules[i].bucket)
            && ((forall i: nat :: !ContainedAt(net, rules, i, ip)) ==> Classify(net, Some(rules), source) == ip)
  {
    FirstMatchIs(net, rules, NormalizePeerIP(net, source));
  }

  // It is its address exactly when no rule contains it, or the first one that does has
  // the address for a label.
  lemma ClassifiedAsAddressIff(net: Net, rules: seq<Rule>, source: string)
    requires NormalizePeerIP(net, source) != "" && net.canonical(NormalizePeerIP(net, source)).Some?
    ensures var ip := NormalizePeerIP(net, source);
            Classify(net, Some(rules), source) == ip
            <==> forall i: nat :: FirstContaining(net, rules, i, ip) ==> rules[i].bucket == ip
  {
    var ip := NormalizePeerIP(net, source);
    ClassifyIsFirst(net, rules, source);
    if i: nat :| ContainedAt(net, rules, i, ip) {
      var first := LeastContaining(net, rules, i, ip);
      assert FirstContaining(net, rules, first, ip);
    }
  }

  lemma {:induction false} LeastContaining(net: Net, rules: seq<Rule>, i: nat, ip: string) returns (first: nat)
    requires ContainedAt(net, rules, i, ip)
    ensures FirstContaining(net, rules, first, ip)
    decreases i
  {
    if j: nat :| j < i && ContainedAt(net, rules, j, ip) {
      first := LeastContaining(net, rules, j, ip);
    } else {
      first := i;
    }
  }

  // Without a classifier, or as no address, a peer is counted as itself.
  lemma UnclassifiedIsAddress(net: Net, classifier: Option<seq<Rule>>, source: string)
    requires classifier.None? || net.canonical(NormalizePeerIP(net, source)).None?
    ensures Classify(net, classifier, source) == NormalizePeerIP(net, source)
  {}

  // A peer with a port is the same peer as its host alone, and an address is the same
  // peer in any of its forms.
  lemma PortIsDropped(net: Net, peer: string, host: string)
    requires Trim(peer) == peer != "" && Trim(host) == host != ""
    requires net.canonical(peer).None? && net.host(peer) == Some(host) && net.canonical(host).Some?
    ensures NormalizePeerIP(net, peer) == NormalizePeerIP(net, host)
  {}

  lemma FormsAgree(net: Net, a: string, b: string)
    requires Trim(a) != "" && Trim(b) != ""
    requires net.canonical(Trim(a)).Some? && net.canonical(Trim(a)) == net.canonical(Trim(b))
    ensures NormalizePeerIP(net, a) == NormalizePeerIP(net, b) == net.canonical(Trim(a)).value
  {}

  // What ParseSourceBuckets guarantees of a classifier.
  ghost predicate CleanClassifier(classifier: Option<seq<Rule>>) {
    classifier.Some? ==> forall rule :: rule in classifier.value ==> CleanRule(rule)
  }

  // A classification is the peer address or a label that can be printed and
  // read back, and it is empty only when the address is.
  lemma {:induction false} FirstMatchIsClean(net: Net, rules: seq<Rule>, ip: string)
    requires forall rule :: rule in rules ==> CleanRule(rule)
    ensures var r := FirstMatch(net, rules, ip); r == ip || (r != "" && '=' !in r)
  {
    if rules != [] {
      assert rules[0] in rules;
      FirstMatchIsClean(net, rules[1..], ip);
    }
  }

  lemma ClassificationIsClean(net: Net, classifier: Option<seq<Rule>>, source: string)
    requires CleanClassifier(classifier)
    ensures var ip, r := NormalizePeerIP(net, source), Classify(net, classifier, source);
            && (r == "" <==> ip == "")
            && (r == ip || '=' !in r)
  {
    if classifier.Some? {
      FirstMatchIsClean(net, classifier.value, NormalizePeerIP(net, source));
    }
  }
}
