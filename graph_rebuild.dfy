/** update_graph_structures (backend/app/services/graph_service.py): the
    project graph and the master graph rebuilt from the stored topics. */
module GraphRebuild {
  import opened Text
  import opened TopicStore

  // ---------------------------------------------------------------------------
  // update_graph_structures

  /** The ids of the prerequisites of `prs` that are in `members`. */
  function PresentSet(prs: seq<string>, members: set<string>): set<string> {
    set p | p in prs && p in members
  }

  /** One topic of the rebuild: its node, then an edge (and node) for each of
      its prerequisites among `members`. */
  function RuleStep(g: Graph, rec: TopicRec, members: set<string>): Graph {
    var g1 := AddNode(g, rec.topicId, rec);
    g1.(nodes := g1.nodes + PresentSet(rec.prerequisites, members),
        edges := g1.edges + PrereqEdges(rec.prerequisites, rec.topicId, members))
  }

  /** The rebuild loops over `recs` in order, from an empty graph. */
  function BuildRule(recs: seq<TopicRec>, members: set<string>): Graph
    decreases |recs|
  {
    if recs == [] then EmptyGraph
    else RuleStep(BuildRule(recs[..|recs| - 1], members), recs[|recs| - 1], members)
  }

  /** The ids of the records. */
  function IdsOf(recs: seq<TopicRec>): set<string> {
    set r | r in recs :: r.topicId
  }

  /** The prerequisites of `rec` among `members`, as nodes. */
  function PrereqNodes(recs: seq<TopicRec>, members: set<string>): set<string> {
    set r, p | r in recs && p in r.prerequisites && p in members :: p
  }

  /** The edges from the prerequisites among `members` of each record. */
  function PrereqEdgeSet(recs: seq<TopicRec>, members: set<string>): set<(string, string)> {
    set r, p | r in recs && p in r.prerequisites && p in members :: (p, r.topicId)
  }

  lemma PrereqSetsSnoc(init: seq<TopicRec>, last: TopicRec, members: set<string>)
    ensures PrereqNodes(init + [last], members) == PrereqNodes(init, members) + PresentSet(last.prerequisites, members)
    ensures PrereqEdgeSet(init + [last], members)
              == PrereqEdgeSet(init, members) + PrereqEdges(last.prerequisites, last.topicId, members)
  {
    forall e ensures e in PrereqEdges(last.prerequisites, last.topicId, members)
                     <==> e.1 == last.topicId && e.0 in last.prerequisites && e.0 in members
    {
      PrereqEdgesMember(last.prerequisites, last.topicId, members, e);
    }
  }

  /** The rebuild gives each record's id as a node and each prerequisite among
      `members` as a node, and exactly the edges from those prerequisites. */
  lemma {:induction false} BuildRuleShape(recs: seq<TopicRec>, members: set<string>)
    ensures BuildRule(recs, members).nodes == IdsOf(recs) + PrereqNodes(recs, members)
    ensures BuildRule(recs, members).edges == PrereqEdgeSet(recs, members)
    decreases |recs|
  {
    if recs != [] {
      var init := recs[..|recs| - 1];
      var last := recs[|recs| - 1];
      assert recs == init + [last];
      BuildRuleShape(init, members);
      PrereqSetsSnoc(init, last, members);
      assert IdsOf(recs) == IdsOf(init) + {last.topicId};
    }
  }

  /** Over records that agree with `topics`, each node of a record carries it. */
  lemma {:induction false} BuildRuleAttrs(recs: seq<TopicRec>, members: set<string>, topics: map<string, TopicRec>)
    requires forall r :: r in recs ==> r.topicId in topics && topics[r.topicId] == r
    ensures BuildRule(recs, members).attrs == map k | k in IdsOf(recs) :: topics[k]
    decreases |recs|
  {
    if recs != [] {
      var init := recs[..|recs| - 1];
      var last := recs[|recs| - 1];
      assert recs == init + [last];
      BuildRuleAttrs(init, members, topics);
      assert IdsOf(recs) == IdsOf(init) + {last.topicId};
    }
  }

  /** Over the records of exactly the members, the rebuild is RuleGraph. */
  lemma BuildRuleIsRuleGraph(recs: seq<TopicRec>, members: set<string>, topics: map<string, TopicRec>)
    requires forall r :: r in recs ==> r.topicId in topics && topics[r.topicId] == r
    requires IdsOf(recs) == members
    ensures members <= topics.Keys
    ensures BuildRule(recs, members) == RuleGraph(members, topics)
  {
    BuildRuleShape(recs, members);
    BuildRuleAttrs(recs, members, topics);
    var g := BuildRule(recs, members);
    var rg := RuleGraph(members, topics);
    assert g.nodes == rg.nodes;
    assert g.attrs == rg.attrs;
    forall e | e in rg.edges ensures e in g.edges {
      var t, p :| t in members && p in topics[t].prerequisites && p in members && e == (p, t);
      var r :| r in recs && r.topicId == t;
    }
  }

  lemma PrereqSnoc(prs: seq<string>, p: string, id: string, members: set<string>)
    ensures PresentSet(prs + [p], members) == PresentSet(prs, members) + (if p in members then {p} else {})
    ensures PrereqEdges(prs + [p], id, members) == PrereqEdges(prs, id, members) + (if p in members then {(p, id)} else {})
  {
    assert (prs + [p])[..|prs|] == prs;
  }

  /** The inner loop of update_graph_structures: an edge, with its source
      node, from each prerequisite of `rec` among `members`. */
  method AddPrereqEdges(g0: Graph, rec: TopicRec, members: set<string>) returns (g: Graph)
    requires rec.topicId in g0.nodes
    ensures g == g0.(nodes := g0.nodes + PresentSet(rec.prerequisites, members),
                     edges := g0.edges + PrereqEdges(rec.prerequisites, rec.topicId, members))
  {
    g := g0;
    var j := 0;
    while j < |rec.prerequisites|
      invariant 0 <= j <= |rec.prerequisites|
      invariant g.attrs == g0.attrs
      invariant g.nodes == g0.nodes + PresentSet(rec.prerequisites[..j], members)
      invariant g.edges == g0.edges + PrereqEdges(rec.prerequisites[..j], rec.topicId, members)
    {
      var p := rec.prerequisites[j];
      assert rec.prerequisites[..j + 1] == rec.prerequisites[..j] + [p];
      PrereqSnoc(rec.prerequisites[..j], p, rec.topicId, members);
      if p in members {
        g := AddEdge(g, p, rec.topicId);
      }
      j := j + 1;
    }
    assert rec.prerequisites[..j] == rec.prerequisites;
  }

  /** The loops of update_graph_structures over `recs`. */
  method BuildByRule(recs: seq<TopicRec>, members: set<string>) returns (g: Graph)
    ensures g == BuildRule(recs, members)
  {
    g := EmptyGraph;
    var i := 0;
    while i < |recs|
      invariant 0 <= i <= |recs|
      invariant g == BuildRule(recs[..i], members)
    {
      var rec := recs[i];
      assert recs[..i + 1][..i] == recs[..i];
      g := AddNode(g, rec.topicId, rec);
      g := AddPrereqEdges(g, rec, members);
      i := i + 1;
    }
    assert recs[..i] == recs;
  }

  /** update_graph_structures: the project's graph is rebuilt from its stored
      topics (an unknown project gets an empty graph) and the master graph
      from all topics; an edge joins two topics exactly when one lists the
      other as a prerequisite, whatever the order of insertion. */
  method UpdateGraphStructures(db: Store, pid: string)
    requires db.Valid()
    modifies db
    ensures db.Valid()
    ensures db.projectGraphs == old(db.projectGraphs)[pid :=
              RuleGraph(if pid in db.projects then StoredSet(db.projects[pid].topicIds, db.topics) else {}, db.topics)]
    ensures db.masterBrain == RuleGraph(db.topics.Keys, db.topics)
    ensures db.topics == old(db.topics) && db.topicOrder == old(db.topicOrder) && db.projects == old(db.projects)
  {
    var projectTopics := db.GetProjectTopics(pid);
    if pid in db.projects {
      StoredRecordsIds(db.projects[pid].topicIds, db.topics);
    } else {
      assert IdsOf(projectTopics) == {};
    }
    var projectGraph := Rebuild(projectTopics, db.topics);
    var allTopics := AllRecords(db.topicOrder, db.topics);
    var masterBrain := Rebuild(allTopics, db.topics);
    db.projectGraphs := db.projectGraphs[pid := projectGraph];
    db.masterBrain := masterBrain;
  }

  /** The records in iteration order: all_topics.items(). */
  function AllRecords(order: seq<string>, topics: map<string, TopicRec>): (r: seq<TopicRec>)
    requires OrderOf(order, topics)
    requires forall k :: k in topics ==> WellFormed(k, topics[k])
    ensures forall x :: x in r ==> x.topicId in topics && topics[x.topicId] == x
    ensures IdsOf(r) == topics.Keys
  {
    var r := seq(|order|, i requires 0 <= i < |order| => topics[order[i]]);
    assert forall x :: x in r ==> x.topicId in topics && topics[x.topicId] == x by {
      forall x | x in r ensures x.topicId in topics && topics[x.topicId] == x {
        var i :| 0 <= i < |r| && r[i] == x;
        assert WellFormed(order[i], topics[order[i]]);
      }
    }
    assert forall k :: k in topics ==> k in IdsOf(r) by {
      forall k | k in topics ensures k in IdsOf(r) {
        var i :| 0 <= i < |order| && order[i] == k;
        assert WellFormed(k, topics[k]) && r[i] == topics[k];
      }
    }
    r
  }

  /** The ids of a project's stored records are the stored ids it lists. */
  lemma StoredRecordsIds(ids: seq<string>, topics: map<string, TopicRec>)
    requires forall k :: k in topics ==> WellFormed(k, topics[k])
    ensures IdsOf(StoredRecords(ids, topics)) == StoredSet(ids, topics)
    ensures forall x :: x in StoredRecords(ids, topics) ==> x.topicId in topics && topics[x.topicId] == x
  {
    var recs := StoredRecords(ids, topics);
    var sid := StoredIds(ids, topics);
    forall k | k in StoredSet(ids, topics) ensures k in IdsOf(recs) {
      var i :| 0 <= i < |sid| && sid[i] == k;
      assert recs[i].topicId == k;
    }
  }

  /** The rebuild of a graph from records that agree with the store: the
      graph of their ids under the rule, closed. */
  method Rebuild(recs: seq<TopicRec>, topics: map<string, TopicRec>) returns (g: Graph)
    requires forall r :: r in recs ==> r.topicId in topics && topics[r.topicId] == r
    ensures IdsOf(recs) <= topics.Keys
    ensures g == RuleGraph(IdsOf(recs), topics)
    ensures Closed(g)
  {
    var members := IdsOf(recs);
    g := BuildByRule(recs, members);
    BuildRuleIsRuleGraph(recs, members, topics);
    RuleGraphClosed(members, topics);
  }
}
