/** process_topics_from_gemini (backend/app/services/graph_service.py) as a
    function of the store's state, the invariant every step of it keeps, and
    what the whole batch therefore guarantees. */
module Batch {
  import opened Text
  import opened TopicStore
  import opened TopicIds
  import opened Proposals

  // ---------------------------------------------------------------------------
  // The store's state as a value, and its two updates

  datatype Snapshot = Snapshot(
    topics: map<string, TopicRec>,
    order: seq<string>,
    projects: map<string, ProjectRec>,
    projectGraphs: map<string, Graph>,
    masterBrain: Graph)

  ghost function Snap(db: Store): Snapshot
    reads db
  {
    Snapshot(db.topics, db.topicOrder, db.projects, db.projectGraphs, db.masterBrain)
  }

  /** save_topic on the state. */
  function Save(s: Snapshot, id: string, rec: TopicRec): Snapshot {
    s.(topics := s.topics[id := rec], order := if id in s.topics then s.order else s.order + [id])
  }

  /** add_topic_to_project on the state. */
  function Attach(s: Snapshot, pid: string, tid: string): Snapshot {
    if pid !in s.projects then s
    else
      var project := s.projects[pid];
      s.(projects := s.projects[pid := WithTopic(project, tid)],
         topics := if tid !in project.topicIds && tid in s.topics then s.topics[tid := WithProject(s.topics[tid], pid)] else s.topics)
  }

  // ---------------------------------------------------------------------------
  // The batch, step by step

  /** The state while a new topic's prerequisites are resolved. */
  datatype Work = Work(s: Snapshot, existing: map<string, TopicRec>, topic: TopicRec)

  /** The state between two proposals, with the ids filed so far. */
  datatype Outcome = Outcome(s: Snapshot, existing: map<string, TopicRec>, ids: seq<string>)

  /** Lists `q` among the prerequisites unless it is there. */
  function AddPrereq(t: TopicRec, q: string): TopicRec {
    if q in t.prerequisites then t else t.(prerequisites := t.prerequisites + [q])
  }

  /** Listing a prerequisite keeps the list free of duplicates and leaves the
      rest of the record alone. */
  lemma AddPrereqNoDup(t: TopicRec, q: string)
    requires NoDup(t.prerequisites)
    ensures NoDup(AddPrereq(t, q).prerequisites)
    ensures q in AddPrereq(t, q).prerequisites
    ensures AddPrereq(t, q).(prerequisites := t.prerequisites) == t
  {
    if q !in t.prerequisites {
      NoDupAppend(t.prerequisites, q);
    }
  }

  /** One prerequisite of a new topic: skipped when its id normalises to "";
      a match is attached to the project and listed once; otherwise a
      placeholder topic is saved, attached, listed once and remembered. */
  function PrereqStep(w: Work, raw: string, pid: string): Work {
    if Skipped(raw) then w
    else
      var nid := NormalizeTopicId(raw);
      var similar := FindSimilarTopic(nid, w.s.order, w.existing);
      if Found(similar) then
        Work(Attach(w.s, pid, similar.value), w.existing, AddPrereq(w.topic, similar.value))
      else
        var placeholder := Placeholder(raw, pid);
        Work(Attach(Save(w.s, nid, placeholder), pid, nid), w.existing[nid := placeholder], AddPrereq(w.topic, nid))
  }

  function PrereqFold(w: Work, prs: seq<string>, pid: string): Work
    decreases |prs|
  {
    if prs == [] then w
    else PrereqStep(PrereqFold(w, prs[..|prs| - 1], pid), prs[|prs| - 1], pid)
  }

  /** The fold over one more prerequisite is one more step. */
  lemma PrereqFoldStep(w: Work, prs: seq<string>, j: nat, pid: string)
    requires j < |prs|
    ensures PrereqFold(w, prs[..j + 1], pid) == PrereqStep(PrereqFold(w, prs[..j], pid), prs[j], pid)
  {
    assert prs[..j + 1][..j] == prs[..j];
  }

  /** A proposal matched to the stored topic `id`: an empty description is
      filled in the local copy and `pid` added, the copy being saved only
      when `pid` was missing; the topic is attached. */
  function MatchStep(o: Outcome, p: ProposedTopic, pid: string, id: string): Outcome
    requires id in o.existing
  {
    var t := FillDescription(o.existing[id], p);
    if pid !in t.projects then
      var t' := t.(projects := t.projects + [pid]);
      Outcome(Attach(Save(o.s, id, t'), pid, id), o.existing[id := t'], o.ids + [id])
    else
      Outcome(Attach(o.s, pid, id), o.existing[id := t], o.ids + [id])
  }

  /** A proposal that matched nothing: the new topic is built, its
      prerequisites resolved in order, and it is saved and attached. */
  function NewStep(o: Outcome, p: ProposedTopic, pid: string): Outcome {
    var normId := NormalizeTopicId(p.topicId);
    var w := PrereqFold(Work(o.s, o.existing, NewTopic(p, normId, pid)), p.prerequisites, pid);
    Outcome(Attach(Save(w.s, normId, w.topic), pid, normId), w.existing[normId := w.topic], o.ids + [normId])
  }

  /** One proposal that is taken up. */
  function ProposalStep(o: Outcome, p: ProposedTopic, pid: string): Outcome {
    var similar := FindSimilarTopic(NormalizeTopicId(p.topicId), o.s.order, o.existing);
    if Found(similar) then MatchStep(o, p, pid, similar.value) else NewStep(o, p, pid)
  }

  /** The proposals in order, skipped ones passed over. */
  function BatchFold(o: Outcome, ps: seq<ProposedTopic>, pid: string): Outcome
    decreases |ps|
  {
    if ps == [] then o
    else
      var prev := BatchFold(o, ps[..|ps| - 1], pid);
      var p := ps[|ps| - 1];
      if Skipped(p.topicId) then prev else ProposalStep(prev, p, pid)
  }

  // ---------------------------------------------------------------------------
  // The invariant

  /** The local copy has the store's keys, well-formed records and the
      store's display names. */
  ghost predicate InvLocal(s: Snapshot, existing: map<string, TopicRec>) {
    && existing.Keys == s.topics.Keys
    && forall k :: k in existing ==> WellFormed(k, existing[k]) && existing[k].displayName == s.topics[k].displayName
  }

  /** A record the batch started with has only Evolved, in the store and in the copy. */
  ghost predicate InvOld(s: Snapshot, pid: string, existing: map<string, TopicRec>, st: Snapshot) {
    && st.topics.Keys <= s.topics.Keys
    && st.topics.Keys <= existing.Keys
    && forall k :: k in st.topics ==> Persisted(st.topics[k], s.topics[k], pid) && Evolved(st.topics[k], existing[k], pid)
  }

  /** A record the batch did not start with is a NOT_LEARNED topic of `pid`
      alone, attached to `pid`, whose prerequisites are stored. */
  ghost predicate InvNew(s: Snapshot, pid: string, existing: map<string, TopicRec>, st: Snapshot) {
    && pid in s.projects
    && forall k :: k in s.topics && k !in st.topics ==>
         && k != ""
         && s.topics[k].status == NotLearned
         && s.topics[k].projects == [pid]
         && k in existing && existing[k].projects == [pid]
         && k in s.projects[pid].topicIds
         && (forall q :: q in s.topics[k].prerequisites ==> q in s.topics)
  }

  /** Only the topic_ids of `pid` have changed, and only at their end. */
  ghost predicate InvProjects(s: Snapshot, pid: string, st: Snapshot) {
    && pid in st.projects
    && s.projects.Keys == st.projects.Keys
    && (forall q :: q in st.projects && q != pid ==> s.projects[q] == st.projects[q])
    && s.projects[pid].(topicIds := st.projects[pid].topicIds) == st.projects[pid]
    && st.projects[pid].topicIds <= s.projects[pid].topicIds
  }

  /** What holds between two store calls of a batch for project `pid` begun
      in state `st`, with `existing` the batch's local copy of the topics. */
  ghost predicate Inv(s: Snapshot, pid: string, existing: map<string, TopicRec>, st: Snapshot) {
    && InvLocal(s, existing)
    && InvOld(s, pid, existing, st)
    && InvNew(s, pid, existing, st)
    && InvProjects(s, pid, st)
    && OrderOf(s.order, s.topics)
    && st.order <= s.order
    && s.projectGraphs == st.projectGraphs
    && s.masterBrain == st.masterBrain
  }

  /** Replacing one stored record and its local copy, then attaching it:
      the invariant is kept when the local copy stays well formed with the
      store's display name, a record the batch started with has only Evolved,
      and a record it did not start with is untouched in the store. */
  lemma InvSwapAttach(s: Snapshot, pid: string, e: map<string, TopicRec>, st: Snapshot, s2: Snapshot, e2: map<string, TopicRec>,
                      k0: string, x: TopicRec, y: TopicRec)
    requires Inv(s, pid, e, st) && k0 in s.topics
    requires s2.topics == s.topics[k0 := x] && e2 == e[k0 := y]
    requires s2.order == s.order && s2.projectGraphs == s.projectGraphs && s2.masterBrain == s.masterBrain
    requires s2.projects == s.projects[pid := WithTopic(s.projects[pid], k0)]
    requires WellFormed(k0, y) && x.displayName == s.topics[k0].displayName && y.displayName == x.displayName
    requires k0 in st.topics ==> Persisted(st.topics[k0], x, pid) && Evolved(st.topics[k0], y, pid)
    requires k0 !in st.topics ==> x == s.topics[k0] && y.projects == e[k0].projects
    ensures Inv(s2, pid, e2, st)
    ensures s.projects[pid].topicIds <= s2.projects[pid].topicIds
    ensures k0 in s2.projects[pid].topicIds
  {
    LocalSwap(s, e, s2, e2, k0, x, y);
    OldSwap(s, pid, e, st, s2, e2, k0, x, y);
    AddNewProjects(s, pid, k0, st, s2);
    NewSwap(s, pid, e, st, s2, e2, k0, x, y);
  }

  /** Attaching a stored topic keeps the invariant and grows topic_ids at the end. */
  lemma InvAttach(s: Snapshot, pid: string, tid: string, existing: map<string, TopicRec>, st: Snapshot)
    requires Inv(s, pid, existing, st)
    requires tid in s.topics
    ensures Inv(Attach(s, pid, tid), pid, existing, st)
    ensures s.projects[pid].topicIds <= Attach(s, pid, tid).projects[pid].topicIds
    ensures tid in Attach(s, pid, tid).projects[pid].topicIds
    ensures Attach(s, pid, tid).order == s.order
  {
    var x := if tid in s.projects[pid].topicIds then s.topics[tid] else WithProject(s.topics[tid], pid);
    AttachShape(s, pid, tid);
    assert existing[tid := existing[tid]] == existing;
    if tid in st.topics {
      PersistedWithProject(st.topics[tid], s.topics[tid], pid);
    }
    InvSwapAttach(s, pid, existing, st, Attach(s, pid, tid), existing, tid, x, existing[tid]);
  }

  /** add_topic_to_project on a stored project and topic: the project gains
      the id and the record gains the project, both only when missing. */
  lemma AttachShape(s: Snapshot, pid: string, tid: string)
    requires pid in s.projects && tid in s.topics
    ensures var s' := Attach(s, pid, tid);
            && s'.topics == s.topics[tid := if tid in s.projects[pid].topicIds then s.topics[tid] else WithProject(s.topics[tid], pid)]
            && s'.order == s.order
            && s'.projects == s.projects[pid := WithTopic(s.projects[pid], tid)]
            && s'.projectGraphs == s.projectGraphs && s'.masterBrain == s.masterBrain
  {
  }

  /** A record that has only Evolved and then gains `pid` has still only Evolved. */
  lemma PersistedWithProject(o: TopicRec, x: TopicRec, pid: string)
    requires Persisted(o, x, pid)
    ensures Persisted(o, WithProject(x, pid), pid)
  {
    if pid !in x.projects {
      assert x.projects == o.projects;
    }
  }

  // The invariant's parts, when one record of the store and of the local copy is replaced.

  lemma LocalSwap(s: Snapshot, e: map<string, TopicRec>, s2: Snapshot, e2: map<string, TopicRec>,
                  k0: string, x: TopicRec, y: TopicRec)
    requires InvLocal(s, e) && k0 in s.topics
    requires s2.topics == s.topics[k0 := x] && e2 == e[k0 := y]
    requires WellFormed(k0, y) && x.displayName == s.topics[k0].displayName && y.displayName == x.displayName
    ensures InvLocal(s2, e2)
  {
  }

  lemma OldSwap(s: Snapshot, pid: string, e: map<string, TopicRec>, st: Snapshot, s2: Snapshot, e2: map<string, TopicRec>,
                k0: string, x: TopicRec, y: TopicRec)
    requires InvOld(s, pid, e, st) && k0 in s.topics
    requires s2.topics == s.topics[k0 := x] && e2 == e[k0 := y]
    requires k0 in st.topics ==> Persisted(st.topics[k0], x, pid) && Evolved(st.topics[k0], y, pid)
    ensures InvOld(s2, pid, e2, st)
  {
  }

  lemma NewSwap(s: Snapshot, pid: string, e: map<string, TopicRec>, st: Snapshot, s2: Snapshot, e2: map<string, TopicRec>,
                k0: string, x: TopicRec, y: TopicRec)
    requires InvNew(s, pid, e, st) && k0 in s.topics
    requires s2.topics == s.topics[k0 := x] && e2 == e[k0 := y]
    requires k0 !in st.topics ==> x == s.topics[k0] && y.projects == e[k0].projects
    requires pid in s2.projects && s.projects[pid].topicIds <= s2.projects[pid].topicIds
    ensures InvNew(s2, pid, e2, st)
  {
    forall k | k in s2.topics && k !in st.topics
      ensures k in s2.projects[pid].topicIds
    {
      assert k in s.projects[pid].topicIds;
    }
  }

  /** Storing and attaching a record under an id the batch did not start
      with: a NOT_LEARNED topic of `pid` alone whose prerequisites are stored. */
  lemma InvAddNew(s: Snapshot, pid: string, id: string, rec: TopicRec, existing: map<string, TopicRec>, st: Snapshot)
    requires Inv(s, pid, existing, st)
    requires id !in st.topics && id != ""
    requires WellFormed(id, rec) && rec.status == NotLearned && rec.projects == [pid]
    requires forall q :: q in rec.prerequisites ==> q in s.topics
    ensures Inv(Attach(Save(s, id, rec), pid, id), pid, existing[id := rec], st)
    ensures s.projects[pid].topicIds <= Attach(Save(s, id, rec), pid, id).projects[pid].topicIds
    ensures id in Attach(Save(s, id, rec), pid, id).projects[pid].topicIds
    ensures s.order <= Attach(Save(s, id, rec), pid, id).order
  {
    var s2 := Attach(Save(s, id, rec), pid, id);
    AddNewShape(s, pid, id, rec);
    SaveKeepsOrder(s, id, rec);
    AddNewLocal(s, id, rec, existing, s2);
    AddNewOld(s, pid, id, rec, existing, st, s2);
    AddNewNew(s, pid, id, rec, existing, st, s2);
    AddNewProjects(s, pid, id, st, s2);
  }

  /** Attaching a freshly saved record to a stored project: the record stays
      as saved, and only that project's topic_ids grow, by `id` at most. */
  lemma AddNewShape(s: Snapshot, pid: string, id: string, rec: TopicRec)
    requires pid in s.projects && rec.projects == [pid]
    ensures var s2 := Attach(Save(s, id, rec), pid, id);
            && s2.topics == s.topics[id := rec]
            && s2.order == Save(s, id, rec).order
            && s2.projects == s.projects[pid := WithTopic(s.projects[pid], id)]
            && s2.projectGraphs == s.projectGraphs && s2.masterBrain == s.masterBrain
  {
  }

  lemma AddNewLocal(s: Snapshot, id: string, rec: TopicRec, existing: map<string, TopicRec>, s2: Snapshot)
    requires InvLocal(s, existing)
    requires WellFormed(id, rec)
    requires s2.topics == s.topics[id := rec]
    ensures InvLocal(s2, existing[id := rec])
  {
  }

  lemma AddNewProjects(s: Snapshot, pid: string, id: string, st: Snapshot, s2: Snapshot)
    requires InvProjects(s, pid, st)
    requires s2.projects == s.projects[pid := WithTopic(s.projects[pid], id)]
    ensures InvProjects(s2, pid, st)
    ensures s.projects[pid].topicIds <= s2.projects[pid].topicIds
    ensures id in s2.projects[pid].topicIds
  {
  }

  lemma AddNewOld(s: Snapshot, pid: string, id: string, rec: TopicRec, existing: map<string, TopicRec>, st: Snapshot, s2: Snapshot)
    requires InvOld(s, pid, existing, st)
    requires id !in st.topics
    requires s2.topics == s.topics[id := rec]
    ensures InvOld(s2, pid, existing[id := rec], st)
  {
  }

  lemma AddNewNew(s: Snapshot, pid: string, id: string, rec: TopicRec, existing: map<string, TopicRec>, st: Snapshot, s2: Snapshot)
    requires InvNew(s, pid, existing, st)
    requires id !in st.topics && id != ""
    requires rec.status == NotLearned && rec.projects == [pid]
    requires forall q :: q in rec.prerequisites ==> q in s.topics
    requires s2.topics == s.topics[id := rec]
    requires s2.projects == s.projects[pid := WithTopic(s.projects[pid], id)]
    ensures InvNew(s2, pid, existing[id := rec], st)
  {
    forall k | k in s2.topics && k !in st.topics
      ensures k in s2.projects[pid].topicIds
      ensures forall q :: q in s2.topics[k].prerequisites ==> q in s2.topics
    {
      if k != id {
        assert k in s.projects[pid].topicIds;
      }
    }
  }

  lemma SaveKeepsOrder(s: Snapshot, id: string, rec: TopicRec)
    requires OrderOf(s.order, s.topics)
    ensures OrderOf(Save(s, id, rec).order, Save(s, id, rec).topics)
    ensures s.order <= Save(s, id, rec).order
  {
    if id !in s.topics {
      NoDupAppend(s.order, id);
    }
  }

  /** Each label taken up so far resolves to the topic it was filed under. */
  ghost predicate Resolves(order: seq<string>, existing: map<string, TopicRec>, labels: seq<string>, ids: seq<string>) {
    && |ids| == |labels|
    && forall i :: 0 <= i < |labels| ==>
         && labels[i] != "" && NormalizeTopicId(labels[i]) == labels[i] && ids[i] != ""
         && FindSimilarTopic(labels[i], order, existing) == Some(ids[i])
  }

  /** Keys kept, display names kept: every resolution is kept. */
  lemma ResolvesSameKeys(order: seq<string>, m: map<string, TopicRec>, m': map<string, TopicRec>,
                         labels: seq<string>, ids: seq<string>)
    requires Resolves(order, m, labels, ids)
    requires m.Keys == m'.Keys
    requires forall k :: k in m ==> m[k].displayName == m'[k].displayName
    ensures Resolves(order, m', labels, ids)
  {
    assert order + [] == order;
    forall i | 0 <= i < |labels|
      ensures FindSimilarTopic(labels[i], order, m') == Some(ids[i])
    {
      FindSimilarStable(labels[i], order, m, [], m');
    }
  }

  /** While a new topic is built, the local map only gains keys, appended to
      the order, and none of them is a label taken up earlier. */
  ghost predicate Growing(order: seq<string>, existing: map<string, TopicRec>,
                          o0: seq<string>, e0: map<string, TopicRec>, labels: seq<string>) {
    && o0 <= order
    && OrderOf(o0, e0)
    && (forall k :: k in e0 ==> k in existing && existing[k] == e0[k])
    && (forall i :: 0 <= i < |labels| ==> labels[i] in e0 || labels[i] !in existing)
  }

  lemma ResolvesGrowing(order: seq<string>, existing: map<string, TopicRec>,
                        o0: seq<string>, e0: map<string, TopicRec>, labels: seq<string>, ids: seq<string>)
    requires Resolves(o0, e0, labels, ids)
    requires Growing(order, existing, o0, e0, labels)
    ensures Resolves(order, existing, labels, ids)
  {
    var extra := order[|o0|..];
    assert o0 + extra == order;
    forall i | 0 <= i < |labels|
      ensures FindSimilarTopic(labels[i], order, existing) == Some(ids[i])
    {
      FindSimilarStable(labels[i], o0, e0, extra, existing);
    }
  }

  /** The new topic under construction: no duplicate prerequisite, each one stored. */
  ghost predicate Building(topic: TopicRec, existing: map<string, TopicRec>) {
    NoDup(topic.prerequisites) && forall q :: q in topic.prerequisites ==> q in existing
  }

  // ---------------------------------------------------------------------------
  // Every step keeps the invariant

  /** A key new to the local copy, other than every label taken up, keeps it growing. */
  lemma GrowingAdd(order: seq<string>, existing: map<string, TopicRec>, o0: seq<string>, e0: map<string, TopicRec>,
                   labels: seq<string>, order': seq<string>, nid: string, rec: TopicRec)
    requires Growing(order, existing, o0, e0, labels)
    requires order <= order' && nid !in e0
    requires forall i :: 0 <= i < |labels| ==> labels[i] != nid
    ensures Growing(order', existing[nid := rec], o0, e0, labels)
  {
  }

  /** An id that resolves to nothing is neither a key nor a label taken up. */
  lemma FreshLabel(order: seq<string>, existing: map<string, TopicRec>, labels: seq<string>, ids: seq<string>, nid: string)
    requires Resolves(order, existing, labels, ids)
    requires nid != "" && NormalizeTopicId(nid) == nid && !Found(FindSimilarTopic(nid, order, existing))
    ensures nid !in existing
    ensures forall i :: 0 <= i < |labels| ==> labels[i] != nid
  {
    forall i | 0 <= i < |labels| ensures labels[i] != nid {
      assert FindSimilarTopic(labels[i], order, existing) == Some(ids[i]);
    }
  }

  /** Listing a stored id once keeps the topic under construction consistent. */
  lemma BuildingAdd(topic: TopicRec, existing: map<string, TopicRec>, q: string, existing': map<string, TopicRec>)
    requires Building(topic, existing)
    requires existing.Keys <= existing'.Keys && q in existing'
    ensures Building(AddPrereq(topic, q), existing')
    ensures AddPrereq(topic, q).(prerequisites := topic.prerequisites) == topic
  {
    if q !in topic.prerequisites {
      NoDupAppend(topic.prerequisites, q);
    }
  }

  /** A prerequisite matching a stored topic: the topic is attached and listed. */
  lemma PrereqMatchKeeps(w: Work, raw: string, pid: string, st: Snapshot,
                         o0: seq<string>, e0: map<string, TopicRec>, labels: seq<string>)
    requires Inv(w.s, pid, w.existing, st)
    requires Growing(w.s.order, w.existing, o0, e0, labels)
    requires Building(w.topic, w.existing)
    requires !Skipped(raw) && Found(FindSimilarTopic(NormalizeTopicId(raw), w.s.order, w.existing))
    ensures var w' := PrereqStep(w, raw, pid);
            && Inv(w'.s, pid, w'.existing, st)
            && Growing(w'.s.order, w'.existing, o0, e0, labels)
            && Building(w'.topic, w'.existing)
            && w'.topic.(prerequisites := w.topic.prerequisites) == w.topic
            && w.s.projects[pid].topicIds <= w'.s.projects[pid].topicIds
  {
    var id := FindSimilarTopic(NormalizeTopicId(raw), w.s.order, w.existing).value;
    assert PrereqStep(w, raw, pid) == Work(Attach(w.s, pid, id), w.existing, AddPrereq(w.topic, id));
    InvAttach(w.s, pid, id, w.existing, st);
    BuildingAdd(w.topic, w.existing, id, w.existing);
  }

  /** A prerequisite matching nothing: a placeholder is stored, attached and listed. */
  lemma PrereqNewKeeps(w: Work, raw: string, pid: string, st: Snapshot,
                       o0: seq<string>, e0: map<string, TopicRec>, labels: seq<string>, ids: seq<string>)
    requires Inv(w.s, pid, w.existing, st)
    requires Growing(w.s.order, w.existing, o0, e0, labels)
    requires Resolves(o0, e0, labels, ids)
    requires Building(w.topic, w.existing)
    requires !Skipped(raw) && !Found(FindSimilarTopic(NormalizeTopicId(raw), w.s.order, w.existing))
    ensures var w' := PrereqStep(w, raw, pid);
            && Inv(w'.s, pid, w'.existing, st)
            && Growing(w'.s.order, w'.existing, o0, e0, labels)
            && Building(w'.topic, w'.existing)
            && w'.topic.(prerequisites := w.topic.prerequisites) == w.topic
            && w.s.projects[pid].topicIds <= w'.s.projects[pid].topicIds
  {
    var nid := NormalizeTopicId(raw);
    NormalizeIdempotent(raw);
    ResolvesGrowing(w.s.order, w.existing, o0, e0, labels, ids);
    FreshLabel(w.s.order, w.existing, labels, ids, nid);
    var placeholder := Placeholder(raw, pid);
    InvAddNew(w.s, pid, nid, placeholder, w.existing, st);
    var w' := PrereqStep(w, raw, pid);
    assert w' == Work(Attach(Save(w.s, nid, placeholder), pid, nid), w.existing[nid := placeholder], AddPrereq(w.topic, nid));
    GrowingAdd(w.s.order, w.existing, o0, e0, labels, w'.s.order, nid, placeholder);
    BuildingAdd(w.topic, w.existing, nid, w'.existing);
  }

  lemma PrereqStepKeeps(w: Work, raw: string, pid: string, st: Snapshot,
                        o0: seq<string>, e0: map<string, TopicRec>, labels: seq<string>, ids: seq<string>)
    requires Inv(w.s, pid, w.existing, st)
    requires Growing(w.s.order, w.existing, o0, e0, labels)
    requires Resolves(o0, e0, labels, ids)
    requires Building(w.topic, w.existing)
    ensures var w' := PrereqStep(w, raw, pid);
            && Inv(w'.s, pid, w'.existing, st)
            && Growing(w'.s.order, w'.existing, o0, e0, labels)
            && Building(w'.topic, w'.existing)
            && w'.topic.(prerequisites := w.topic.prerequisites) == w.topic
            && w.s.projects[pid].topicIds <= w'.s.projects[pid].topicIds
  {
    if Skipped(raw) {
      assert PrereqStep(w, raw, pid) == w;
    } else if Found(FindSimilarTopic(NormalizeTopicId(raw), w.s.order, w.existing)) {
      PrereqMatchKeeps(w, raw, pid, st, o0, e0, labels);
    } else {
      PrereqNewKeeps(w, raw, pid, st, o0, e0, labels, ids);
    }
  }

  lemma {:induction false} PrereqFoldKeeps(w: Work, prs: seq<string>, pid: string, st: Snapshot,
                                           o0: seq<string>, e0: map<string, TopicRec>, labels: seq<string>, ids: seq<string>)
    requires Inv(w.s, pid, w.existing, st)
    requires Growing(w.s.order, w.existing, o0, e0, labels)
    requires Resolves(o0, e0, labels, ids)
    requires Building(w.topic, w.existing)
    ensures var w' := PrereqFold(w, prs, pid);
            && Inv(w'.s, pid, w'.existing, st)
            && Growing(w'.s.order, w'.existing, o0, e0, labels)
            && Building(w'.topic, w'.existing)
            && w'.topic.(prerequisites := w.topic.prerequisites) == w.topic
            && w.s.projects[pid].topicIds <= w'.s.projects[pid].topicIds
    decreases |prs|
  {
    if prs != [] {
      var init := prs[..|prs| - 1];
      PrereqFoldKeeps(w, init, pid, st, o0, e0, labels, ids);
      PrereqStepKeeps(PrereqFold(w, init, pid), prs[|prs| - 1], pid, st, o0, e0, labels, ids);
    }
  }

  /** Each label taken up has been filed under a topic attached to `pid`
      whose id overlaps it. */
  ghost predicate Filed(s: Snapshot, pid: string, labels: seq<string>, ids: seq<string>) {
    && pid in s.projects
    && |ids| == |labels|
    && forall i :: 0 <= i < |ids| ==> ids[i] in s.projects[pid].topicIds && Overlap(labels[i], ids[i])
  }

  lemma ResolvesExtend(order: seq<string>, m: map<string, TopicRec>, labels: seq<string>, ids: seq<string>,
                       x: string, id: string)
    requires Resolves(order, m, labels, ids)
    requires x != "" && NormalizeTopicId(x) == x && id != ""
    requires FindSimilarTopic(x, order, m) == Some(id)
    ensures Resolves(order, m, labels + [x], ids + [id])
  {
  }

  lemma FiledExtend(s: Snapshot, s': Snapshot, pid: string, labels: seq<string>, ids: seq<string>, x: string, id: string)
    requires Filed(s, pid, labels, ids)
    requires pid in s'.projects && s.projects[pid].topicIds <= s'.projects[pid].topicIds
    requires id in s'.projects[pid].topicIds && Overlap(x, id)
    ensures Filed(s', pid, labels + [x], ids + [id])
  {
    forall i | 0 <= i < |ids| ensures ids[i] in s'.projects[pid].topicIds {
      assert ids[i] in s.projects[pid].topicIds;
    }
  }

  /** A matched proposal changes one record, keeps the order, the local keys
      and their display names, and files the match. */
  lemma MatchShape(o: Outcome, p: ProposedTopic, pid: string, id: string)
    requires id in o.existing && id in o.s.topics && pid in o.s.projects
    ensures var o' := MatchStep(o, p, pid, id);
            var t := FillDescription(o.existing[id], p);
            && o'.s.order == o.s.order
            && o'.s.projectGraphs == o.s.projectGraphs && o'.s.masterBrain == o.s.masterBrain
            && o'.s.projects == o.s.projects[pid := WithTopic(o.s.projects[pid], id)]
            && o'.ids == o.ids + [id]
            && (pid !in o.existing[id].projects ==>
                  && o'.existing == o.existing[id := t.(projects := t.projects + [pid])]
                  && o'.s.topics == o.s.topics[id := t.(projects := t.projects + [pid])])
            && (pid in o.existing[id].projects ==>
                  && o'.existing == o.existing[id := t]
                  && o'.s.topics == o.s.topics[id := if id in o.s.projects[pid].topicIds then o.s.topics[id] else WithProject(o.s.topics[id], pid)])
  {
    var t := FillDescription(o.existing[id], p);
    if pid !in o.existing[id].projects {
      AttachShape(Save(o.s, id, t.(projects := t.projects + [pid])), pid, id);
    } else {
      AttachShape(o.s, pid, id);
    }
  }

  /** A matched proposal keeps the invariant and attaches its topic. */
  lemma MatchKeeps(o: Outcome, p: ProposedTopic, pid: string, id: string, st: Snapshot)
    requires Inv(o.s, pid, o.existing, st)
    requires id in o.existing
    ensures var o' := MatchStep(o, p, pid, id);
            && Inv(o'.s, pid, o'.existing, st)
            && o.s.projects[pid].topicIds <= o'.s.projects[pid].topicIds
            && id in o'.s.projects[pid].topicIds
  {
    var o' := MatchStep(o, p, pid, id);
    var t := FillDescription(o.existing[id], p);
    MatchShape(o, p, pid, id);
    if pid !in o.existing[id].projects {
      // only a record the batch started with can lack `pid`
      assert id in st.topics;
      assert o.existing[id].projects == st.topics[id].projects;
      InvSwapAttach(o.s, pid, o.existing, st, o'.s, o'.existing, id, t.(projects := t.projects + [pid]), t.(projects := t.projects + [pid]));
    } else {
      if id in st.topics {
        PersistedWithProject(st.topics[id], o.s.topics[id], pid);
      }
      var x := if id in o.s.projects[pid].topicIds then o.s.topics[id] else WithProject(o.s.topics[id], pid);
      InvSwapAttach(o.s, pid, o.existing, st, o'.s, o'.existing, id, x, t);
    }
  }

  /** A new topic keeps the invariant, grows the local copy by fresh keys
      only, and is attached. */
  lemma NewKeeps(o: Outcome, p: ProposedTopic, pid: string, st: Snapshot, labels: seq<string>)
    requires Inv(o.s, pid, o.existing, st)
    requires Resolves(o.s.order, o.existing, labels, o.ids)
    requires !Skipped(p.topicId)
    requires NormalizeTopicId(p.topicId) !in o.existing
    requires forall i :: 0 <= i < |labels| ==> labels[i] != NormalizeTopicId(p.topicId)
    ensures var o' := NewStep(o, p, pid);
            && Inv(o'.s, pid, o'.existing, st)
            && Growing(o'.s.order, o'.existing, o.s.order, o.existing, labels)
            && o.s.projects[pid].topicIds <= o'.s.projects[pid].topicIds
            && NormalizeTopicId(p.topicId) in o'.existing
            && o'.ids == o.ids + [NormalizeTopicId(p.topicId)]
            && NormalizeTopicId(p.topicId) in o'.s.projects[pid].topicIds
  {
    var normId := NormalizeTopicId(p.topicId);
    var w0 := Work(o.s, o.existing, NewTopic(p, normId, pid));
    assert Growing(o.s.order, o.existing, o.s.order, o.existing, labels);
    PrereqFoldKeeps(w0, p.prerequisites, pid, st, o.s.order, o.existing, labels, o.ids);
    var w := PrereqFold(w0, p.prerequisites, pid);
    InvAddNew(w.s, pid, normId, w.topic, w.existing, st);
    var o' := NewStep(o, p, pid);
    GrowingAdd(w.s.order, w.existing, o.s.order, o.existing, labels, o'.s.order, normId, w.topic);
  }

  /** A label matched to a stored topic resolves to it, and so does every
      earlier label, once that topic's local copy is replaced by one with the
      same display name. */
  lemma ResolvesMatch(order: seq<string>, m: map<string, TopicRec>, labels: seq<string>, ids: seq<string>,
                      x: string, id: string, y: TopicRec)
    requires Resolves(order, m, labels, ids)
    requires x != "" && NormalizeTopicId(x) == x
    requires Found(FindSimilarTopic(x, order, m)) && FindSimilarTopic(x, order, m).value == id
    requires id in m && y.displayName == m[id].displayName
    ensures Resolves(order, m[id := y], labels + [x], ids + [id])
  {
    ResolvesExtend(order, m, labels, ids, x, id);
    ResolvesSameKeys(order, m, m[id := y], labels + [x], ids + [id]);
  }

  lemma ProposalMatchKeeps(o: Outcome, p: ProposedTopic, pid: string, st: Snapshot, labels: seq<string>)
    requires Inv(o.s, pid, o.existing, st)
    requires Resolves(o.s.order, o.existing, labels, o.ids)
    requires Filed(o.s, pid, labels, o.ids)
    requires !Skipped(p.topicId)
    requires Found(FindSimilarTopic(NormalizeTopicId(p.topicId), o.s.order, o.existing))
    ensures var o' := ProposalStep(o, p, pid);
            var labels' := labels + [NormalizeTopicId(p.topicId)];
            && Inv(o'.s, pid, o'.existing, st)
            && Resolves(o'.s.order, o'.existing, labels', o'.ids)
            && Filed(o'.s, pid, labels', o'.ids)
  {
    var normId := NormalizeTopicId(p.topicId);
    NormalizeIdempotent(p.topicId);
    var id := FindSimilarTopic(normId, o.s.order, o.existing).value;
    FindSimilarOverlaps(normId, o.s.order, o.existing);
    var o' := ProposalStep(o, p, pid);
    assert o' == MatchStep(o, p, pid, id);
    MatchShape(o, p, pid, id);
    MatchKeeps(o, p, pid, id, st);
    var t := FillDescription(o.existing[id], p);
    var y := if pid !in o.existing[id].projects then t.(projects := t.projects + [pid]) else t;
    ResolvesMatch(o.s.order, o.existing, labels, o.ids, normId, id, y);
    FiledExtend(o.s, o'.s, pid, labels, o.ids, normId, id);
  }

  lemma ProposalNewKeeps(o: Outcome, p: ProposedTopic, pid: string, st: Snapshot, labels: seq<string>)
    requires Inv(o.s, pid, o.existing, st)
    requires Resolves(o.s.order, o.existing, labels, o.ids)
    requires Filed(o.s, pid, labels, o.ids)
    requires !Skipped(p.topicId)
    requires !Found(FindSimilarTopic(NormalizeTopicId(p.topicId), o.s.order, o.existing))
    ensures var o' := ProposalStep(o, p, pid);
            var labels' := labels + [NormalizeTopicId(p.topicId)];
            && Inv(o'.s, pid, o'.existing, st)
            && Resolves(o'.s.order, o'.existing, labels', o'.ids)
            && Filed(o'.s, pid, labels', o'.ids)
  {
    var normId := NormalizeTopicId(p.topicId);
    NormalizeIdempotent(p.topicId);
    FreshLabel(o.s.order, o.existing, labels, o.ids, normId);
    var o' := ProposalStep(o, p, pid);
    assert o' == NewStep(o, p, pid);
    NewKeeps(o, p, pid, st, labels);
    ResolvesGrowing(o'.s.order, o'.existing, o.s.order, o.existing, labels, o.ids);
    SubstringOfSelf(normId);
    ResolvesExtend(o'.s.order, o'.existing, labels, o.ids, normId, normId);
    FiledExtend(o.s, o'.s, pid, labels, o.ids, normId, normId);
  }

  lemma ProposalStepKeeps(o: Outcome, p: ProposedTopic, pid: string, st: Snapshot, labels: seq<string>)
    requires Inv(o.s, pid, o.existing, st)
    requires Resolves(o.s.order, o.existing, labels, o.ids)
    requires Filed(o.s, pid, labels, o.ids)
    requires !Skipped(p.topicId)
    ensures var o' := ProposalStep(o, p, pid);
            var labels' := labels + [NormalizeTopicId(p.topicId)];
            && Inv(o'.s, pid, o'.existing, st)
            && Resolves(o'.s.order, o'.existing, labels', o'.ids)
            && Filed(o'.s, pid, labels', o'.ids)
  {
    if Found(FindSimilarTopic(NormalizeTopicId(p.topicId), o.s.order, o.existing)) {
      ProposalMatchKeeps(o, p, pid, st, labels);
    } else {
      ProposalNewKeeps(o, p, pid, st, labels);
    }
  }

  /** The state a batch starts from: a consistent store and a stored project. */
  ghost predicate Start(st: Snapshot, pid: string) {
    && OrderOf(st.order, st.topics)
    && (forall k :: k in st.topics ==> WellFormed(k, st.topics[k]))
    && pid in st.projects
  }

  lemma {:induction false} BatchFoldKeeps(st: Snapshot, ps: seq<ProposedTopic>, pid: string)
    requires Start(st, pid)
    ensures var o := BatchFold(Outcome(st, st.topics, []), ps, pid);
            && Inv(o.s, pid, o.existing, st)
            && Resolves(o.s.order, o.existing, Labels(ps), o.ids)
            && Filed(o.s, pid, Labels(ps), o.ids)
    decreases |ps|
  {
    if ps == [] {
      assert Inv(st, pid, st.topics, st);
    } else {
      var init := ps[..|ps| - 1];
      var p := ps[|ps| - 1];
      BatchFoldKeeps(st, init, pid);
      if !Skipped(p.topicId) {
        ProposalStepKeeps(BatchFold(Outcome(st, st.topics, []), init, pid), p, pid, st, Labels(init));
      }
    }
  }

  // ---------------------------------------------------------------------------
  // What a batch guarantees

  /** process_topics_from_gemini up to the graph rebuild, from state `st`
      with the local copy read from the store. */
  function Ingest(st: Snapshot, ps: seq<ProposedTopic>, pid: string): Outcome {
    BatchFold(Outcome(st, st.topics, []), ps, pid)
  }

  /** The result of a batch: one id per label taken up, in order, each
      stored, attached to the project, overlapping its label and what the
      label resolves to in the final store; equal labels get equal ids. */
  lemma BatchResult(st: Snapshot, ps: seq<ProposedTopic>, pid: string)
    requires Start(st, pid)
    ensures var o := Ingest(st, ps, pid);
            var labels := Labels(ps);
            && pid in o.s.projects
            && |o.ids| == |labels|
            && (forall i :: 0 <= i < |labels| ==>
                  && o.ids[i] in o.s.topics
                  && o.ids[i] in o.s.projects[pid].topicIds
                  && Overlap(labels[i], o.ids[i])
                  && FindSimilarTopic(labels[i], o.s.order, o.s.topics) == Some(o.ids[i]))
            && (forall i, j :: 0 <= i < |labels| && 0 <= j < |labels| && labels[i] == labels[j] ==> o.ids[i] == o.ids[j])
  {
    var o := Ingest(st, ps, pid);
    BatchFoldKeeps(st, ps, pid);
    ResolvesSameKeys(o.s.order, o.existing, o.s.topics, Labels(ps), o.ids);
    ResolvesFunctional(o.s.order, o.s.topics, Labels(ps), o.ids);
  }

  /** Resolution is a function of the label. */
  lemma ResolvesFunctional(order: seq<string>, m: map<string, TopicRec>, labels: seq<string>, ids: seq<string>)
    requires Resolves(order, m, labels, ids)
    ensures forall i, j :: 0 <= i < |labels| && 0 <= j < |labels| && labels[i] == labels[j] ==> ids[i] == ids[j]
  {
    forall i, j | 0 <= i < |labels| && 0 <= j < |labels| && labels[i] == labels[j]
      ensures ids[i] == ids[j]
    {
      assert FindSimilarTopic(labels[i], order, m) == Some(ids[i]);
    }
  }

  /** The store after a batch: the key order only grew at its end; records
      that existed only Evolved; new records are NOT_LEARNED topics of `pid`
      alone, attached to it, whose prerequisites are stored; of the projects
      only the topic_ids of `pid` grew; the graphs are not yet touched. */
  lemma BatchStore(st: Snapshot, ps: seq<ProposedTopic>, pid: string)
    requires Start(st, pid)
    ensures var o := Ingest(st, ps, pid);
            && o.s.projects.Keys == st.projects.Keys
            && OrderOf(o.s.order, o.s.topics)
            && st.order <= o.s.order
            && (forall k :: k in st.topics ==> k in o.s.topics && Persisted(st.topics[k], o.s.topics[k], pid))
            && (forall k :: k in o.s.topics && k !in st.topics ==>
                  && k != ""
                  && o.s.topics[k].status == NotLearned
                  && o.s.topics[k].projects == [pid]
                  && k in o.s.projects[pid].topicIds
                  && forall q :: q in o.s.topics[k].prerequisites ==> q in o.s.topics)
            && (forall q :: q in st.projects && q != pid ==> o.s.projects[q] == st.projects[q])
            && o.s.projects[pid].(topicIds := st.projects[pid].topicIds) == st.projects[pid]
            && st.projects[pid].topicIds <= o.s.projects[pid].topicIds
            && o.s.projectGraphs == st.projectGraphs
            && o.s.masterBrain == st.masterBrain
  {
    BatchFoldKeeps(st, ps, pid);
  }

  /** The new topic keeps everything but its prerequisites through the loop. */
  lemma {:induction false} PrereqFoldTopic(w: Work, prs: seq<string>, pid: string)
    ensures PrereqFold(w, prs, pid).topic.(prerequisites := w.topic.prerequisites) == w.topic
    decreases |prs|
  {
    if prs != [] {
      PrereqFoldTopic(w, prs[..|prs| - 1], pid);
    }
  }

  /** The record stored for a proposal that matched nothing is built from the
      proposal: NOT_LEARNED, of `pid` alone, named by its display name or else
      its id, described by its description or else "". */
  lemma NewStepRecord(o: Outcome, p: ProposedTopic, pid: string)
    ensures var normId := NormalizeTopicId(p.topicId);
            var o' := NewStep(o, p, pid);
            var r := o'.s.topics[normId];
            && normId in o'.s.topics && normId in o'.existing
            && o'.existing[normId] == r
            && r.topicId == normId
            && r.status == NotLearned
            && r.projects == [pid]
            && r.displayName == (if p.displayName.Some? then p.displayName.value else normId)
            && r.shortDescription == (if p.shortDescription.Some? then p.shortDescription.value else "")
  {
    var normId := NormalizeTopicId(p.topicId);
    var w0 := Work(o.s, o.existing, NewTopic(p, normId, pid));
    PrereqFoldTopic(w0, p.prerequisites, pid);
  }

  /** A proposal listing itself as its only prerequisite, when nothing
      matches it, is stored with itself as prerequisite: the placeholder made
      for the prerequisite is overwritten by the topic. */
  lemma NewStepSelfLoop(o: Outcome, p: ProposedTopic, pid: string)
    requires !Skipped(p.topicId) && p.prerequisites == [p.topicId]
    requires !Found(FindSimilarTopic(NormalizeTopicId(p.topicId), o.s.order, o.existing))
    ensures NewStep(o, p, pid).s.topics[NormalizeTopicId(p.topicId)].prerequisites == [NormalizeTopicId(p.topicId)]
  {
    var normId := NormalizeTopicId(p.topicId);
    NormalizeIdempotent(p.topicId);
    var w0 := Work(o.s, o.existing, NewTopic(p, normId, pid));
    assert p.prerequisites[..0] == [];
    assert PrereqFold(w0, p.prerequisites, pid) == PrereqStep(w0, p.topicId, pid);
  }

  /** A match whose local copy already lists `pid` fills an empty description
      in the local copy only: the store keeps its description. */
  lemma MatchLosesDescription(o: Outcome, p: ProposedTopic, pid: string, id: string)
    requires id in o.existing && id in o.s.topics && pid in o.existing[id].projects
    ensures MatchStep(o, p, pid, id).s.topics[id].shortDescription == o.s.topics[id].shortDescription
    ensures MatchStep(o, p, pid, id).existing[id].shortDescription
              == if p.shortDescription.Some? && o.existing[id].shortDescription == "" then p.shortDescription.value
                 else o.existing[id].shortDescription
  {
  }
}
