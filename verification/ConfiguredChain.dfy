/**
 Who receives what a connection counts, in terms of the configuration: the source
 labels that are dropped, the panels of the source map and the node types of their
 clients (panelapi/source_filter.go, panelapi/source_map.go, panelapi/client.go).
 */
module ConfiguredChain {
  import opened Text
  import opened SourceTag
  import opened Delivery
  import opened Panels

  // The names of the node types that serve one inbound, in lower case.
  const VLESS_NAMES: set<string> := {"vless", "vless-reality", "reality"}
  const HYSTERIA_NAMES: set<string> := {"hy2", "hysteria", "hysteria2"}
  const SHADOWSOCKS_NAMES: set<string> := {"ss", "ss2022", "shadowsocks"}

  // Whether a connection with this label is dropped.
  predicate IsDropped(drops: set<string>, source: string) { source != "" && source in drops }

  // The panel a connection with this label is routed to.
  function PanelFor(default: Option<nat>, routes: map<string, Option<nat>>, source: string): Option<nat> {
    if source != "" && source in routes && routes[source].Some? then routes[source] else default
  }

  // The tag of a connection can be split again: it has a clean label, or none and an
  // inbound without the marker.
  ghost predicate Splits(inbound: string, source: string) {
    '=' !in source && (source == "" ==> forall i: nat :: i <= |inbound| ==> !MarkerAt(inbound, i))
  }

  lemma PrintedSplits(inbound: string, source: string)
    requires Splits(inbound, source)
    ensures SplitSourceInbound(SourceInboundTag(inbound, source)) == (NormalizeInbound(inbound), source)
  {
    if source == "" {
      UnlabelledRoundTrip(inbound);
    } else {
      LabelledRoundTrip(inbound, source);
    }
  }

  // The printed tag is delivered to a panel exactly when it is not dropped, routed there
  // and matched by the panel's client as its base tag.
  lemma DeliveredIff(drops: set<string>, default: Option<nat>, routes: map<string, Option<nat>>,
                     nodeTypes: nat -> string, tags: set<string>, inbound: string, source: string, p: nat)
    requires Splits(inbound, source)
    ensures var tag := SourceInboundTag(inbound, source);
            tag in DeliversTo(Configured(drops, default, routes, nodeTypes), tags, p)
            <==>
            tag in tags && !IsDropped(drops, source) && PanelFor(default, routes, source) == Some(p) &&
            MatchesInbound(nodeTypes(p), NormalizeInbound(inbound))
  {
    PrintedSplits(inbound, source);
  }

  lemma NamedTag(inbound: string)
    requires inbound == "vless-in" || inbound == "hy2-in" || inbound == "ss-in"
    ensures NormalizeInbound(inbound) == inbound && forall i: nat :: i <= |inbound| ==> !MarkerAt(inbound, i)
  {
    assert Trim("vless-in") == "vless-in" && Trim("hy2-in") == "hy2-in" && Trim("ss-in") == "ss-in";
    forall i: nat | i <= |inbound|
      ensures !MarkerAt(inbound, i)
    {
      assert i + |MARKER| <= |inbound| ==> inbound[i..i + |MARKER|][0] == inbound[i] && MARKER[0] == '@';
    }
  }

  // What the client of a node type, given in lower case, reports: a named type one
  // inbound of the agent, any other type the inbounds whose tags contain it.
  ghost predicate Reports(t: string, base: string) {
    if t in VLESS_NAMES then base == "vless-in"
    else if t in HYSTERIA_NAMES then base == "hy2-in"
    else if t in SHADOWSOCKS_NAMES then base == "ss-in"
    else exists before, after :: Lower(base) == before + t + after
  }

  lemma MatchesIff(nodeType: string, base: string)
    ensures MatchesInbound(nodeType, base) <==> Reports(Lower(nodeType), base)
  {
    ContainsIff(Lower(base), Lower(nodeType));
  }

  // A connection that is not dropped and routed to a panel is delivered there exactly
  // when the panel's node type reports its inbound. A label makes no difference.
  lemma InboundIsDeliveredIff(drops: set<string>, default: Option<nat>, routes: map<string, Option<nat>>,
                              nodeTypes: nat -> string, tags: set<string>, inbound: string, source: string, p: nat)
    requires Splits(inbound, source) && !IsDropped(drops, source) && PanelFor(default, routes, source) == Some(p)
    requires SourceInboundTag(inbound, source) in tags
    ensures SourceInboundTag(inbound, source) in DeliversTo(Configured(drops, default, routes, nodeTypes), tags, p)
            <==> Reports(Lower(nodeTypes(p)), NormalizeInbound(inbound))
  {
    DeliveredIff(drops, default, routes, nodeTypes, tags, inbound, source, p);
    MatchesIff(nodeTypes(p), NormalizeInbound(inbound));
  }

  // So a client with a name of its inbound's node type receives the connections on
  // "vless-in", "hy2-in" and "ss-in", and clients with names of the others do not.
  lemma NamedInboundIsDeliveredIff(drops: set<string>, default: Option<nat>, routes: map<string, Option<nat>>,
                                   nodeTypes: nat -> string, tags: set<string>, inbound: string, source: string,
                                   p: nat)
    requires inbound == "vless-in" || inbound == "hy2-in" || inbound == "ss-in"
    requires '=' !in source && !IsDropped(drops, source) && PanelFor(default, routes, source) == Some(p)
    requires SourceInboundTag(inbound, source) in tags
    requires Lower(nodeTypes(p)) in VLESS_NAMES + HYSTERIA_NAMES + SHADOWSOCKS_NAMES
    ensures SourceInboundTag(inbound, source) in DeliversTo(Configured(drops, default, routes, nodeTypes), tags, p)
            <==> Lower(nodeTypes(p)) in NamesOf(inbound)
  {
    NamedTag(inbound);
    InboundIsDeliveredIff(drops, default, routes, nodeTypes, tags, inbound, source, p);
    NamesApart(Lower(nodeTypes(p)));
  }

  function NamesOf(inbound: string): set<string> {
    if inbound == "vless-in" then VLESS_NAMES else if inbound == "hy2-in" then HYSTERIA_NAMES else SHADOWSOCKS_NAMES
  }

  // No name belongs to two node types.
  lemma NamesApart(t: string)
    ensures !(t in VLESS_NAMES && t in HYSTERIA_NAMES) && !(t in VLESS_NAMES && t in SHADOWSOCKS_NAMES)
    ensures !(t in HYSTERIA_NAMES && t in SHADOWSOCKS_NAMES)
  {}

  // What is dropped, or has no panel, is delivered nowhere; what has one is delivered
  // nowhere else.
  lemma DeliveredOnlyThere(drops: set<string>, default: Option<nat>, routes: map<string, Option<nat>>,
                           nodeTypes: nat -> string, tags: set<string>, inbound: string, source: string, p: nat)
    requires Splits(inbound, source)
    requires IsDropped(drops, source) || PanelFor(default, routes, source) != Some(p)
    ensures SourceInboundTag(inbound, source) !in DeliversTo(Configured(drops, default, routes, nodeTypes), tags, p)
  {
    DeliveredIff(drops, default, routes, nodeTypes, tags, inbound, source, p);
  }

  // Without a source map every client sees all tags that are not dropped, as they are
  // printed, and reports those that its node type reports.
  lemma DirectReportsIff(drops: set<string>, nodeTypes: nat -> string, tags: set<string>, inbound: string,
                         source: string, p: nat)
    requires Splits(inbound, source)
    ensures var tag := SourceInboundTag(inbound, source);
            tag in MatchedTags(Direct(drops, nodeTypes), tags, p)
            <==> tag in tags && !IsDropped(drops, source) && Reports(Lower(nodeTypes(p)), tag)
  {
    PrintedSplits(inbound, source);
    MatchesIff(nodeTypes(p), SourceInboundTag(inbound, source));
  }

  // A source filter over one client delivers to that client alone what it reports.
  lemma DirectDeliversIff(drops: set<string>, nodeTypes: nat -> string, tags: set<string>, tag: string, p: nat)
    ensures tag in DeliversTo(Direct(drops, nodeTypes), tags, p)
            <==> p == 0 && tag in MatchedTags(Direct(drops, nodeTypes), tags, 0)
  {}

  // Without a source map no client of a named node type reports a labelled tag:
  // what the filter lets through under a label is pushed and then ignored.
  lemma DirectIgnoresLabels(drops: set<string>, nodeTypes: nat -> string, panel: nat, inbound: string, source: string)
    requires source != "" && Lower(nodeTypes(panel)) in VLESS_NAMES + HYSTERIA_NAMES + SHADOWSOCKS_NAMES
    ensures !Direct(drops, nodeTypes).matches(panel, SourceInboundTag(inbound, source))
  {
    var tag := SourceInboundTag(inbound, source);
    assert tag[|NormalizeInbound(inbound)|] == '@';
    MatchesIff(nodeTypes(panel), tag);
  }
}
