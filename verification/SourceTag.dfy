/**
 The "@source=" suffix that the hook prints on an inbound tag
 (cmd/star1ight-agent/main.go) and the panel chain takes off again
 (panelapi/source_map.go).
 */
module SourceTag {
  import opened Text
  import opened SourceClassifier

  const MARKER := "@source="

  predicate MarkerAt(s: string, i: nat) {
    i + |MARKER| <= |s| && s[i..i + |MARKER|] == MARKER
  }

  // The last position of the marker at or below `upto`.
  function LastMarker(s: string, upto: nat): (r: Option<nat>)
    ensures r.Some? ==> r.value <= upto && MarkerAt(s, r.value)
    ensures forall i: nat :: (if r.Some? then r.value < i <= upto else i <= upto) ==> !MarkerAt(s, i)
  {
    if MarkerAt(s, upto) then Some(upto)
    else if upto == 0 then None
    else LastMarker(s, upto - 1)
  }

  // A blank inbound tag stands for the default one.
  function NormalizeInbound(tag: string): string {
    if Trim(tag) == "" then "default" else tag
  }

  // Exactly the tags of white space are normalised, all to the same one.
  lemma NormalizeIs(tag: string)
    ensures AllSpace(tag) ==> NormalizeInbound(tag) == "default"
    ensures !AllSpace(tag) ==> NormalizeInbound(tag) == tag
  {
    BlankIff(tag);
  }

  function SplitSourceInbound(tag: string): (string, string) {
    match LastMarker(tag, |tag|)
    case None => (NormalizeInbound(tag), "")
    case Some(i) => (NormalizeInbound(tag[..i]), tag[i + |MARKER|..])
  }

  // The tag the hook counts a connection under; an empty source label means none.
  function SourceInboundTag(inbound: string, source: string): string {
    if source == "" then NormalizeInbound(inbound)
    else NormalizeInbound(inbound) + MARKER + source
  }

  lemma PrintedIs(inbound: string, source: string)
    requires source != ""
    ensures SourceInboundTag(inbound, source) == NormalizeInbound(inbound) + "@source=" + source
  {}

  // "default" is not blank, so normalising twice is normalising once.
  lemma NormalizeTwice(tag: string)
    ensures NormalizeInbound(NormalizeInbound(tag)) == NormalizeInbound(tag)
    ensures Trim(NormalizeInbound(tag)) != ""
  {
    assert Trim("default") == "default";
  }

  // Splitting a printed tag gives back the normalised inbound and the source
  // label, for every inbound, even one that contains the marker: a label has no '='.
  lemma LabelledRoundTrip(inbound: string, source: string)
    requires source != "" && '=' !in source
    ensures SplitSourceInbound(SourceInboundTag(inbound, source)) == (NormalizeInbound(inbound), source)
  {
    var base := NormalizeInbound(inbound);
    var tag := SourceInboundTag(inbound, source);
    assert MarkerAt(tag, |base|) by {
      assert tag[|base|..|base| + |MARKER|] == MARKER;
    }
    forall i: nat | |base| < i <= |tag|
      ensures !MarkerAt(tag, i)
    {
      assert i + |MARKER| <= |tag| ==>
          tag[i..i + |MARKER|][7] == source[i + 7 - |base| - |MARKER|] && MARKER[7] == '=';
    }
    assert tag[..|base|] == base && tag[|base| + |MARKER|..] == source;
    NormalizeTwice(inbound);
  }

  // Two connections share a printed labelled tag only if they share both parts.
  lemma LabelledTagsDiffer(inbound: string, source: string, inbound': string, source': string)
    requires source != "" && '=' !in source && source' != "" && '=' !in source'
    requires SourceInboundTag(inbound, source) == SourceInboundTag(inbound', source')
    ensures NormalizeInbound(inbound) == NormalizeInbound(inbound') && source == source'
  {
    LabelledRoundTrip(inbound, source);
    LabelledRoundTrip(inbound', source');
  }

  // The tag Hook.sourceInboundTag counts a connection under.
  function HookTag(net: Net, classifier: Option<seq<Rule>>, sourceTraffic: bool, inbound: string,
                   peer: string): string
  {
    var bucket := if classifier.None? then "" else Classify(net, classifier, peer);
    SourceInboundTag(inbound, if !sourceTraffic || bucket == NormalizePeerIP(net, peer) then "" else bucket)
  }

  // With a classifier that ParseSourceBuckets accepted, the panel chain reads
  // back the bucket of every peer that is counted under one.
  lemma HookTagRoundTrip(net: Net, classifier: Option<seq<Rule>>, inbound: string, peer: string)
    requires CleanClassifier(classifier) && classifier.Some?
    requires Classify(net, classifier, peer) != NormalizePeerIP(net, peer)
    ensures SplitSourceInbound(HookTag(net, classifier, true, inbound, peer))
            == (NormalizeInbound(inbound), Classify(net, classifier, peer))
  {
    ClassificationIsClean(net, classifier, peer);
    LabelledRoundTrip(inbound, Classify(net, classifier, peer));
  }

  // Source traffic that is switched off, or a peer without a bucket of its own, leaves
  // no label; otherwise the bucket is the label.
  lemma HookTagLabel(net: Net, classifier: Option<seq<Rule>>, sourceTraffic: bool, inbound: string, peer: string)
    requires CleanClassifier(classifier) && forall i: nat :: i <= |inbound| ==> !MarkerAt(inbound, i)
    ensures var (base, printed) := SplitSourceInbound(HookTag(net, classifier, sourceTraffic, inbound, peer));
            var bucket := Classify(net, classifier, peer);
            && base == NormalizeInbound(inbound)
            && (printed == "" <==> !sourceTraffic || classifier.None? || bucket == NormalizePeerIP(net, peer))
            && (printed != "" ==> printed == bucket)
  {
    if sourceTraffic && classifier.Some? && Classify(net, classifier, peer) != NormalizePeerIP(net, peer) {
      ClassificationIsClean(net, classifier, peer);
      HookTagRoundTrip(net, classifier, inbound, peer);
    } else {
      UnlabelledRoundTrip(inbound);
    }
  }

  // A tag printed without a source label survives exactly when the inbound does not
  // contain the marker itself.
  lemma UnlabelledRoundTrip(inbound: string)
    ensures SplitSourceInbound(SourceInboundTag(inbound, "")) == (NormalizeInbound(inbound), "")
            <==> forall i: nat :: i <= |inbound| ==> !MarkerAt(inbound, i)
  {
    var base := NormalizeInbound(inbound);
    NormalizeTwice(inbound);
    assert forall i: nat :: !MarkerAt("default", i);
    if base != inbound {
      BlankRight(TrimLeft(inbound));
      BlankLeft(inbound, TrimLeft(inbound));
      forall i: nat | i <= |inbound|
        ensures !MarkerAt(inbound, i)
      {
        assert i + |MARKER| <= |inbound| ==> inbound[i..i + |MARKER|][0] == inbound[i] && MARKER[0] == '@';
      }
    } else {
      match LastMarker(base, |base|)
      case None =>
      case Some(i) => assert |base[..i]| < |base|;
    }
  }

  // A string that trims to nothing holds only white space.
  lemma {:induction false} BlankLeft(s: string, rest: string)
    requires rest == TrimLeft(s) && forall j :: 0 <= j < |rest| ==> IsSpace(rest[j])
    ensures forall j :: 0 <= j < |s| ==> IsSpace(s[j])
  {
    if s != [] && IsSpace(s[0]) {
      BlankLeft(s[1..], rest);
    }
  }

  lemma {:induction false} BlankRight(s: string)
    requires TrimRight(s) == ""
    ensures forall j :: 0 <= j < |s| ==> IsSpace(s[j])
  {
    if s != [] {
      BlankRight(s[..|s| - 1]);
    }
  }
}
