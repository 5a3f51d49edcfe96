/** process_topics_from_gemini (backend/app/services/graph_service.py) over
    the store: every step is proved to do what the Batch functions say, so
    the properties proved there hold of the store after a call. */
module Ingestion {
  import opened Text
  import opened TopicStore
  import opened TopicIds
  import opened Proposals
  import opened Batch
  import opened GraphRebuild

  /** The batch's local copy of the topics holds records filed under their own ids. */
  predicate LocalWellFormed(existing: map<string, TopicRec>) {
    forall k :: k in existing ==> WellFormed(k, existing[k])
  }

  /** One prerequisite of the new topic `topic`. */
  method IngestPrerequisite(db: Store, pid: string, raw: string, existing: map<string, TopicRec>, topic: TopicRec)
    returns (existing': map<string, TopicRec>, topic': TopicRec)
    requires db.Valid() && LocalWellFormed(existing) && NoDup(topic.prerequisites)
    modifies db
    ensures db.Valid() && LocalWellFormed(existing') && NoDup(topic'.prerequisites)
    ensures topic'.(prerequisites := topic.prerequisites) == topic
    ensures existing.Keys <= existing'.Keys
    ensures Work(Snap(db), existing', topic') == PrereqStep(Work(old(Snap(db)), existing, topic), raw, pid)
  {
    existing', topic' := existing, topic;
    if Skipped(raw) {
      return;
    }
    var nid := NormalizeTopicId(raw);
    var similar := FindSimilar(nid, db.topicOrder, existing);
    if Found(similar) {
      ghost var s0 := Snap(db);
      topic' := AddPrereq(topic, similar.value);
      AddPrereqNoDup(topic, similar.value);
      var attached := db.AddTopicToProject(pid, similar.value);
      assert Snap(db) == Attach(s0, pid, similar.value);
    } else {
      existing' := IngestPlaceholder(db, pid, raw, existing);
      topic' := AddPrereq(topic, nid);
      AddPrereqNoDup(topic, nid);
    }
  }

  /** A prerequisite that matched nothing: a placeholder topic is saved,
      attached, and remembered in the local copy. */
  method IngestPlaceholder(db: Store, pid: string, raw: string, existing: map<string, TopicRec>)
    returns (existing': map<string, TopicRec>)
    requires db.Valid() && LocalWellFormed(existing)
    modifies db
    ensures db.Valid() && LocalWellFormed(existing')
    ensures Snap(db) == Attach(Save(old(Snap(db)), NormalizeTopicId(raw), Placeholder(raw, pid)), pid, NormalizeTopicId(raw))
    ensures existing' == existing[NormalizeTopicId(raw) := Placeholder(raw, pid)]
  {
    ghost var s0 := Snap(db);
    var nid := NormalizeTopicId(raw);
    var placeholder := Placeholder(raw, pid);
    db.SaveTopic(nid, placeholder);
    ghost var s1 := Snap(db);
    assert s1 == Save(s0, nid, placeholder);
    var attached := db.AddTopicToProject(pid, nid);
    existing' := existing[nid := placeholder];
  }

  /** A proposal matched to the stored topic `id`: the local copy's empty
      description is filled, `pid` appended and the copy saved when it was
      missing, and the topic attached. */
  method IngestMatch(db: Store, pid: string, p: ProposedTopic, existing: map<string, TopicRec>, id: string, ghost ids: seq<string>)
    returns (existing': map<string, TopicRec>)
    requires db.Valid() && LocalWellFormed(existing)
    requires id in existing
    modifies db
    ensures db.Valid() && LocalWellFormed(existing')
    ensures existing'.Keys == existing.Keys
    ensures Outcome(Snap(db), existing', ids + [id]) == MatchStep(Outcome(old(Snap(db)), existing, ids), p, pid, id)
  {
    ghost var s0 := Snap(db);
    var t := FillDescription(existing[id], p);
    if pid !in t.projects {
      NoDupAppend(t.projects, pid);
      t := t.(projects := t.projects + [pid]);
      db.SaveTopic(id, t);
      assert Snap(db) == Save(s0, id, t);
    }
    ghost var s1 := Snap(db);
    var attached := db.AddTopicToProject(pid, id);
    assert Snap(db) == Attach(s1, pid, id);
    existing' := existing[id := t];
  }

  /** A proposal that matched nothing: the new topic is built, its
      prerequisites resolved in order, and it is saved and attached. */
  method IngestNew(db: Store, pid: string, p: ProposedTopic, existing: map<string, TopicRec>, ghost ids: seq<string>)
    returns (existing': map<string, TopicRec>, id: string)
    requires db.Valid() && LocalWellFormed(existing)
    modifies db
    ensures db.Valid() && LocalWellFormed(existing')
    ensures existing.Keys <= existing'.Keys && id in existing'
    ensures Outcome(Snap(db), existing', ids + [id]) == NewStep(Outcome(old(Snap(db)), existing, ids), p, pid)
  {
    var normId := NormalizeTopicId(p.topicId);
    var topic := NewTopic(p, normId, pid);
    ghost var s0 := Snap(db);
    existing', topic := IngestPrerequisites(db, pid, p.prerequisites, existing, topic);
    ghost var s1 := Snap(db);
    db.SaveTopic(normId, topic);
    ghost var s2 := Snap(db);
    assert s2 == Save(s1, normId, topic);
    var attached := db.AddTopicToProject(pid, normId);
    assert Snap(db) == Attach(s2, pid, normId);
    existing' := existing'[normId := topic];
    id := normId;
  }

  /** The prerequisites of a new topic, in order. */
  method IngestPrerequisites(db: Store, pid: string, prs: seq<string>, existing: map<string, TopicRec>, topic: TopicRec)
    returns (existing': map<string, TopicRec>, topic': TopicRec)
    requires db.Valid() && LocalWellFormed(existing) && NoDup(topic.prerequisites)
    modifies db
    ensures db.Valid() && LocalWellFormed(existing') && NoDup(topic'.prerequisites)
    ensures topic'.(prerequisites := topic.prerequisites) == topic
    ensures existing.Keys <= existing'.Keys
    ensures Work(Snap(db), existing', topic') == PrereqFold(Work(old(Snap(db)), existing, topic), prs, pid)
  {
    ghost var w0 := Work(Snap(db), existing, topic);
    existing', topic' := existing, topic;
    var j := 0;
    while j < |prs|
      invariant 0 <= j <= |prs|
      invariant db.Valid() && LocalWellFormed(existing') && NoDup(topic'.prerequisites)
      invariant existing.Keys <= existing'.Keys
      invariant topic'.(prerequisites := topic.prerequisites) == topic
      invariant Work(Snap(db), existing', topic') == PrereqFold(w0, prs[..j], pid)
    {
      PrereqFoldStep(w0, prs, j, pid);
      existing', topic' := IngestPrerequisite(db, pid, prs[j], existing', topic');
      j := j + 1;
    }
    assert prs[..j] == prs;
  }

  /** One proposal taken up: matched or stored as new. */
  method IngestProposal(db: Store, pid: string, p: ProposedTopic, existing: map<string, TopicRec>, ghost ids: seq<string>)
    returns (existing': map<string, TopicRec>, id: string)
    requires db.Valid() && LocalWellFormed(existing)
    modifies db
    ensures db.Valid() && LocalWellFormed(existing')
    ensures existing.Keys <= existing'.Keys && id in existing'
    ensures Outcome(Snap(db), existing', ids + [id]) == ProposalStep(Outcome(old(Snap(db)), existing, ids), p, pid)
  {
    var similar := FindSimilar(NormalizeTopicId(p.topicId), db.topicOrder, existing);
    if Found(similar) {
      id := similar.value;
      existing' := IngestMatch(db, pid, p, existing, id, ids);
    } else {
      existing', id := IngestNew(db, pid, p, existing, ids);
    }
  }

  /** process_topics_from_gemini for a stored project (its caller rejects
      unknown projects): the store ends as Ingest says, whose properties
      BatchResult and BatchStore state; the result holds, per label taken
      up, the local record of its topic as it stands at the end of the batch;
      the graphs are then rebuilt from the final store. */
  method ProcessTopicsFromGemini(db: Store, pid: string, proposals: seq<ProposedTopic>) returns (result: seq<TopicRec>)
    requires db.Valid()
    requires pid in db.projects
    modifies db
    ensures db.Valid()
    ensures var o := Ingest(old(Snap(db)), proposals, pid);
            && db.topics == o.s.topics && db.topicOrder == o.s.order && db.projects == o.s.projects
            && |result| == |o.ids|
            && forall i :: 0 <= i < |result| ==> o.ids[i] in o.existing && result[i] == o.existing[o.ids[i]]
    ensures pid in db.projects
    ensures db.projectGraphs == old(db.projectGraphs)[pid := RuleGraph(StoredSet(db.projects[pid].topicIds, db.topics), db.topics)]
    ensures db.masterBrain == RuleGraph(db.topics.Keys, db.topics)
  {
    ghost var st := Snap(db);
    var existing := db.topics;
    var ids: seq<string> := [];
    var n := 0;
    while n < |proposals|
      invariant 0 <= n <= |proposals|
      invariant db.Valid() && LocalWellFormed(existing)
      invariant forall i :: 0 <= i < |ids| ==> ids[i] in existing
      invariant Outcome(Snap(db), existing, ids) == BatchFold(Outcome(st, st.topics, []), proposals[..n], pid)
    {
      var p := proposals[n];
      assert proposals[..n + 1][..n] == proposals[..n];
      if !Skipped(p.topicId) {
        var id;
        existing, id := IngestProposal(db, pid, p, existing, ids);
        ids := ids + [id];
      }
      n := n + 1;
    }
    assert proposals[..n] == proposals;
    BatchStore(st, proposals, pid);
    UpdateGraphStructures(db, pid);
    result := seq(|ids|, i requires 0 <= i < |ids| => existing[ids[i]]);
  }
}
