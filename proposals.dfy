/** The topics an analysis proposes and the records ingestion writes for
    them (backend/app/services/graph_service.py). */
module Proposals {
  import opened Text
  import opened TopicStore
  import opened TopicIds

  datatype ProposedTopic = ProposedTopic(
    topicId: string,
    displayName: Option<string>,
    shortDescription: Option<string>,
    prerequisites: seq<string>)

  /** Python truthiness of find_similar_topic's answer: None and "" are both false. */
  predicate Found(r: Option<string>) { r.Some? && r.value != "" }

  // ---------------------------------------------------------------------------
  // Which labels are taken up

  /** The skip test as written: only an empty raw label is passed over. */
  predicate SkippedAsWritten(raw: string) { raw == "" }

  /** The skip test the model uses: a label whose normalised id is empty. */
  predicate Skipped(raw: string) { NormalizeTopicId(raw) == "" }

  /** As written, "!!!" is not skipped although it normalises to "", and ""
      then matches the first stored topic, whatever it is; the corrected test
      skips it, and skips everything the written test skips. */
  lemma SkippedAsWrittenAdmitsEmptyId(order: seq<string>, existing: map<string, TopicRec>)
    requires |order| > 0 && order[0] in existing && "" !in existing
    ensures !SkippedAsWritten("!!!") && Skipped("!!!")
    ensures FindSimilarTopic(NormalizeTopicId("!!!"), order, existing) == Some(order[0])
    ensures forall raw :: SkippedAsWritten(raw) ==> Skipped(raw)
  {
    assert NormalizeTopicId("!!!") == "" by {
      assert "!!!"[1..] == "!!" && "!!"[1..] == "!" && "!"[1..] == "";
    }
    FindSimilarEmptyInput(order, existing);
  }

  /** The normalised labels of the proposals that are taken up, in order. */
  function Labels(ps: seq<ProposedTopic>): (r: seq<string>)
    ensures |r| <= |ps|
    ensures forall i :: 0 <= i < |r| ==> r[i] != "" && NormalizeTopicId(r[i]) == r[i]
    ensures forall x :: x in r <==> exists p :: p in ps && !Skipped(p.topicId) && x == NormalizeTopicId(p.topicId)
    decreases |ps|
  {
    if ps == [] then []
    else
      var init := ps[..|ps| - 1];
      var last := ps[|ps| - 1];
      assert ps == init + [last];
      assert forall p :: p in ps <==> p in init || p == last;
      NormalizeIdempotent(last.topicId);
      Labels(init) + (if Skipped(last.topicId) then [] else [NormalizeTopicId(last.topicId)])
  }

  /** The labels follow the proposals: the k-th label is the normal form of
      the proposal at the k-th of a rising run of indices, and that run holds
      every proposal the skip rule keeps, so there is one label per kept
      proposal. */
  function LabelsAt(ps: seq<ProposedTopic>): (idx: seq<nat>)
    ensures |idx| == |Labels(ps)|
    ensures forall k :: 0 <= k < |idx| ==>
              idx[k] < |ps| && !Skipped(ps[idx[k]].topicId) && Labels(ps)[k] == NormalizeTopicId(ps[idx[k]].topicId)
    ensures forall k, l :: 0 <= k < l < |idx| ==> idx[k] < idx[l]
    ensures forall j :: 0 <= j < |ps| && !Skipped(ps[j].topicId) ==> j in idx
    decreases |ps|
  {
    if ps == [] then []
    else
      var n := |ps| - 1;
      var prev := LabelsAt(ps[..n]);
      LabelRunSnoc(ps, Labels(ps[..n]), prev);
      if Skipped(ps[n].topicId) then prev else prev + [n]
  }

  /** The index run of the labels of all proposals but the last, extended by
      the last. */
  lemma LabelRunSnoc(ps: seq<ProposedTopic>, labels: seq<string>, prev: seq<nat>)
    requires |ps| > 0
    requires |prev| == |labels|
    requires forall k :: 0 <= k < |prev| ==>
               prev[k] < |ps| - 1 && !Skipped(ps[prev[k]].topicId) && labels[k] == NormalizeTopicId(ps[prev[k]].topicId)
    requires forall k, l :: 0 <= k < l < |prev| ==> prev[k] < prev[l]
    requires forall j :: 0 <= j < |ps| - 1 && !Skipped(ps[j].topicId) ==> j in prev
    ensures var n := |ps| - 1;
            var labels' := labels + (if Skipped(ps[n].topicId) then [] else [NormalizeTopicId(ps[n].topicId)]);
            var idx := if Skipped(ps[n].topicId) then prev else prev + [n];
            && |idx| == |labels'|
            && (forall k :: 0 <= k < |idx| ==>
                  idx[k] < |ps| && !Skipped(ps[idx[k]].topicId) && labels'[k] == NormalizeTopicId(ps[idx[k]].topicId))
            && (forall k, l :: 0 <= k < l < |idx| ==> idx[k] < idx[l])
            && (forall j :: 0 <= j < |ps| && !Skipped(ps[j].topicId) ==> j in idx)
  {
    var n := |ps| - 1;
    var labels' := labels + (if Skipped(ps[n].topicId) then [] else [NormalizeTopicId(ps[n].topicId)]);
    var idx := if Skipped(ps[n].topicId) then prev else prev + [n];
    forall k | 0 <= k < |idx|
      ensures idx[k] < |ps| && !Skipped(ps[idx[k]].topicId) && labels'[k] == NormalizeTopicId(ps[idx[k]].topicId)
    {
      if k < |prev| {
        assert idx[k] == prev[k] && labels'[k] == labels[k];
      }
    }
    forall j | 0 <= j < |ps| && !Skipped(ps[j].topicId)
      ensures j in idx
    {
      if j < n {
        assert j in prev;
      }
    }
  }

  // ---------------------------------------------------------------------------
  // The records ingestion writes

  /** str.title() over the ASCII letters: the first letter of each run of
      letters upper-cased, the others lower-cased, everything else kept. */
  function TitleFrom(s: string, inWord: bool): (r: string)
    ensures |r| == |s|
    ensures forall i :: 0 <= i < |s| && !IsUpper(s[i]) && !IsLower(s[i]) ==> r[i] == s[i]
    decreases |s|
  {
    if s == [] then []
    else
      var c := s[0];
      var letter := IsUpper(c) || IsLower(c);
      [if !letter then c else if inWord then ToLower(c) else ToUpper(c)] + TitleFrom(s[1..], letter)
  }

  function TitleCase(s: string): string { TitleFrom(s, false) }

  /** The record of a proposal that matched nothing, before its prerequisites. */
  function NewTopic(p: ProposedTopic, normId: string, pid: string): TopicRec {
    TopicRec(normId, p.displayName.GetOr(normId), NotLearned, [], p.shortDescription.GetOr(""), [pid])
  }

  /** The record of a prerequisite that matched nothing. */
  function Placeholder(raw: string, pid: string): TopicRec {
    TopicRec(NormalizeTopicId(raw), TitleCase(ReplaceChar(raw, '_', " ")), NotLearned, [], "", [pid])
  }

  /** A proposal's description fills an empty one and replaces nothing else. */
  function FillDescription(t: TopicRec, p: ProposedTopic): TopicRec {
    if p.shortDescription.Some? && t.shortDescription == "" then t.(shortDescription := p.shortDescription.value) else t
  }

  /** How ingestion may change a record that existed before: only an empty
      description may be filled, and `pid` may be appended to its projects. */
  predicate Evolved(o: TopicRec, n: TopicRec, pid: string) {
    && n.topicId == o.topicId && n.displayName == o.displayName
    && n.status == o.status && n.prerequisites == o.prerequisites
    && (n.shortDescription == o.shortDescription || o.shortDescription == "")
    && (n.projects == o.projects || (pid !in o.projects && n.projects == o.projects + [pid]))
  }

  /** What ingestion may do to a stored record that existed before: as
      Evolved, and nothing at all to a record already listing `pid`. */
  predicate Persisted(o: TopicRec, n: TopicRec, pid: string) {
    Evolved(o, n, pid) && (pid in o.projects ==> n == o)
  }
}
