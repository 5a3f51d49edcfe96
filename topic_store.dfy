/** The FastAPI backend's store (backend/app/database/db.py): topics keyed by
    topic id, projects keyed by project id, and the derived prerequisite graphs
    (one per project plus the global "master brain"). SqliteDict, JSON and
    networkx are abstracted: a keyed collection is a map plus, for topics, the
    sequence giving its iteration order; a graph is a node set, node attributes
    and a set of (prerequisite, topic) edges. */
module TopicStore {
  import opened Text

  const NotLearned: string := "NOT_LEARNED"

  datatype TopicRec = TopicRec(
    topicId: string,
    displayName: string,
    status: string,
    prerequisites: seq<string>,
    shortDescription: string,
    projects: seq<string>)

  datatype ProjectRec = ProjectRec(projectId: string, name: string, topicIds: seq<string>)

  /** A directed graph as networkx keeps it: nodes, the attribute record of each
      node, and edges from a prerequisite to the topic that needs it. */
  datatype Graph = Graph(nodes: set<string>, attrs: map<string, TopicRec>, edges: set<(string, string)>)

  const EmptyGraph: Graph := Graph({}, map[], {})

  /** Every node carries its record and no edge leaves the node set. */
  predicate Closed(g: Graph) {
    && g.attrs.Keys == g.nodes
    && forall e :: e in g.edges ==> e.0 in g.nodes && e.1 in g.nodes
  }

  /** `order` lists the keys of `m`, each once: a dict's iteration order. */
  predicate OrderOf<V>(order: seq<string>, m: map<string, V>) {
    && NoDup(order)
    && (forall k :: k in order ==> k in m)
    && (forall k :: k in m ==> k in order)
  }

  /** A stored topic record: filed under its own id, no id listed twice. */
  predicate WellFormed(k: string, t: TopicRec) {
    t.topicId == k && NoDup(t.prerequisites) && NoDup(t.projects)
  }

  // ---------------------------------------------------------------------------
  // Record-level updates used by add_topic_to_project

  /** Appends the project id to a topic's `projects` unless it is there. */
  function WithProject(t: TopicRec, pid: string): (r: TopicRec)
    ensures pid in r.projects
    ensures r.(projects := t.projects) == t
    ensures pid in t.projects ==> r == t
    ensures pid !in t.projects ==> r.projects == t.projects + [pid]
    ensures NoDup(t.projects) ==> NoDup(r.projects)
  {
    if pid in t.projects then t else t.(projects := t.projects + [pid])
  }

  /** Appends the topic id to a project's `topic_ids` unless it is there. */
  function WithTopic(p: ProjectRec, tid: string): (r: ProjectRec)
    ensures tid in r.topicIds
    ensures r.(topicIds := p.topicIds) == p
    ensures tid in p.topicIds ==> r == p
    ensures tid !in p.topicIds ==> r.topicIds == p.topicIds + [tid]
    ensures NoDup(p.topicIds) ==> NoDup(r.topicIds)
  {
    if tid in p.topicIds then p else p.(topicIds := p.topicIds + [tid])
  }

  // ---------------------------------------------------------------------------
  // Graph operations (networkx add_node / add_edge / node attribute update)

  /** add_node(id, **rec): adds the node or overwrites its attributes. */
  function AddNode(g: Graph, id: string, rec: TopicRec): Graph {
    g.(nodes := g.nodes + {id}, attrs := g.attrs[id := rec])
  }

  /** add_edge(u, v): adds the edge and, as networkx does, both endpoints. */
  function AddEdge(g: Graph, u: string, v: string): Graph {
    g.(nodes := g.nodes + {u, v}, edges := g.edges + {(u, v)})
  }

  /** graph.nodes[id]["status"] = status, on a node that is present. */
  function SetNodeStatus(g: Graph, id: string, status: string): (r: Graph)
    ensures r.nodes == g.nodes && r.edges == g.edges && r.attrs.Keys == g.attrs.Keys
    ensures forall k :: k in r.attrs && k != id ==> r.attrs[k] == g.attrs[k]
    ensures id in g.attrs ==> r.attrs[id] == g.attrs[id].(status := status)
    ensures Closed(g) ==> Closed(r)
  {
    if id in g.attrs then g.(attrs := g.attrs[id := g.attrs[id].(status := status)]) else g
  }

  /** The status mirror of update_topic_status over the graphs of `pids`,
      in that order: each existing graph holding the topic gets the status. */
  function MirrorStatus(graphs: map<string, Graph>, pids: seq<string>, tid: string, status: string): map<string, Graph>
    decreases |pids|
  {
    if pids == [] then graphs
    else
      var prev := MirrorStatus(graphs, pids[..|pids| - 1], tid, status);
      var p := pids[|pids| - 1];
      if p in prev && tid in prev[p].nodes then prev[p := SetNodeStatus(prev[p], tid, status)] else prev
  }

  lemma MirrorStatusSnoc(graphs: map<string, Graph>, pids: seq<string>, p: string, tid: string, status: string)
    ensures var prev := MirrorStatus(graphs, pids, tid, status);
            MirrorStatus(graphs, pids + [p], tid, status)
              == if p in prev && tid in prev[p].nodes then prev[p := SetNodeStatus(prev[p], tid, status)] else prev
  {
    assert (pids + [p])[..|pids|] == pids;
  }

  /** The mirror touches only the graphs of the listed projects, gives each the
      new status on the topic's node, and keeps every graph closed. */
  lemma {:induction false} MirrorStatusClosed(graphs: map<string, Graph>, pids: seq<string>, tid: string, status: string)
    requires forall p :: p in graphs ==> Closed(graphs[p])
    ensures MirrorStatus(graphs, pids, tid, status).Keys == graphs.Keys
    ensures forall p :: p in graphs ==>
              MirrorStatus(graphs, pids, tid, status)[p]
                == if p in pids then SetNodeStatus(graphs[p], tid, status) else graphs[p]
    ensures forall p :: p in graphs ==> Closed(MirrorStatus(graphs, pids, tid, status)[p])
    decreases |pids|
  {
    if pids != [] {
      var init := pids[..|pids| - 1];
      var q := pids[|pids| - 1];
      MirrorStatusClosed(graphs, init, tid, status);
      assert pids == init + [q];
      forall p | p in graphs
        ensures MirrorStatus(graphs, pids, tid, status)[p]
                  == if p in pids then SetNodeStatus(graphs[p], tid, status) else graphs[p]
      {
        if p == q && q in init {
          SetNodeStatusTwice(graphs[p], tid, status);
        }
      }
    }
  }

  lemma SetNodeStatusTwice(g: Graph, id: string, status: string)
    ensures SetNodeStatus(SetNodeStatus(g, id, status), id, status) == SetNodeStatus(g, id, status)
  {
  }

  // ---------------------------------------------------------------------------
  // The loaders of load_graphs and get_project_graph_data: topics are inserted
  // in order and an edge is added only when its prerequisite is already a node.

  /** The edges (p, id) for the prerequisites p of `prs` found in `present`. */
  function PrereqEdges(prs: seq<string>, id: string, present: set<string>): (r: set<(string, string)>)
    decreases |prs|
  {
    if prs == [] then {}
    else PrereqEdges(prs[..|prs| - 1], id, present)
         + (if prs[|prs| - 1] in present then {(prs[|prs| - 1], id)} else {})
  }

  lemma {:induction false} PrereqEdgesMember(prs: seq<string>, id: string, present: set<string>, e: (string, string))
    ensures e in PrereqEdges(prs, id, present) <==> e.1 == id && e.0 in prs && e.0 in present
    decreases |prs|
  {
    if prs != [] {
      var init := prs[..|prs| - 1];
      PrereqEdgesMember(init, id, present, e);
      assert prs == init + [prs[|prs| - 1]];
    }
  }

  /** One step of the loader: the node, then its edges to present prerequisites. */
  function LoadTopic(g: Graph, id: string, rec: TopicRec): Graph {
    var g1 := AddNode(g, id, rec);
    g1.(edges := g1.edges + PrereqEdges(rec.prerequisites, id, g1.nodes))
  }

  /** The loader over `ids` in order; ids with no stored record are skipped. */
  function LoadInOrder(g: Graph, ids: seq<string>, topics: map<string, TopicRec>): Graph
    decreases |ids|
  {
    if ids == [] then g
    else
      var prev := LoadInOrder(g, ids[..|ids| - 1], topics);
      var id := ids[|ids| - 1];
      if id in topics then LoadTopic(prev, id, topics[id]) else prev
  }

  /** The ids of `ids` that have a stored record. */
  function StoredSet(ids: seq<string>, topics: map<string, TopicRec>): set<string> {
    set k | k in ids && k in topics
  }

  /** The graph update_graph_structures builds: the members as nodes, and an
      edge (p, t) exactly when t lists p and both are members. */
  function RuleGraph(members: set<string>, topics: map<string, TopicRec>): (r: Graph)
    requires members <= topics.Keys
  {
    Graph(members,
          map k | k in members :: topics[k],
          set t, p | t in members && p in topics[t].prerequisites && p in members :: (p, t))
  }

  lemma RuleGraphClosed(members: set<string>, topics: map<string, TopicRec>)
    requires members <= topics.Keys
    ensures Closed(RuleGraph(members, topics))
  {
  }

  /** The loader keeps a closed graph closed and adds exactly the stored ids
      as nodes, each carrying its stored record. */
  lemma {:induction false} LoadInOrderClosed(g: Graph, ids: seq<string>, topics: map<string, TopicRec>)
    requires Closed(g)
    ensures Closed(LoadInOrder(g, ids, topics))
    ensures LoadInOrder(g, ids, topics).nodes == g.nodes + StoredSet(ids, topics)
    ensures forall k :: k in StoredSet(ids, topics) ==> LoadInOrder(g, ids, topics).attrs[k] == topics[k]
    decreases |ids|
  {
    if ids != [] {
      var init := ids[..|ids| - 1];
      var id := ids[|ids| - 1];
      LoadInOrderClosed(g, init, topics);
      assert ids == init + [id];
      var prev := LoadInOrder(g, init, topics);
      if id in topics {
        var g1 := AddNode(prev, id, topics[id]);
        forall e | e in PrereqEdges(topics[id].prerequisites, id, g1.nodes)
          ensures e.0 in g1.nodes && e.1 in g1.nodes
        {
          PrereqEdgesMember(topics[id].prerequisites, id, g1.nodes, e);
        }
      }
    }
  }

  /** Loading from an empty graph never finds an edge that the rule of
      update_graph_structures would not: the loaders' edges are a subset. */
  lemma {:induction false} LoadInOrderWithinRule(ids: seq<string>, topics: map<string, TopicRec>)
    ensures LoadInOrder(EmptyGraph, ids, topics).edges <= RuleGraph(StoredSet(ids, topics), topics).edges
    decreases |ids|
  {
    if ids != [] {
      var init := ids[..|ids| - 1];
      var id := ids[|ids| - 1];
      assert ids == init + [id];
      LoadInOrderWithinRule(init, topics);
      LoadInOrderClosed(EmptyGraph, init, topics);
      var prev := LoadInOrder(EmptyGraph, init, topics);
      var full := RuleGraph(StoredSet(ids, topics), topics);
      assert RuleGraph(StoredSet(init, topics), topics).edges <= full.edges;
      if id in topics {
        var g1 := AddNode(prev, id, topics[id]);
        forall e | e in PrereqEdges(topics[id].prerequisites, id, g1.nodes)
          ensures e in full.edges
        {
          PrereqEdgesMember(topics[id].prerequisites, id, g1.nodes, e);
          assert e.0 in StoredSet(ids, topics);
        }
      }
    }
  }

  /** The loaders depend on order: a prerequisite stored after the topic that
      needs it gives no edge, although the rule of update_graph_structures has it. */
  lemma LoadMissesLaterPrerequisite()
    ensures var topics := map["b" := TopicRec("b", "b", NotLearned, ["a"], "", []),
                              "a" := TopicRec("a", "a", NotLearned, [], "", [])];
            && LoadInOrder(EmptyGraph, ["b", "a"], topics).edges == {}
            && ("a", "b") in RuleGraph({"a", "b"}, topics).edges
  {
    var topics := map["b" := TopicRec("b", "b", NotLearned, ["a"], "", []),
                      "a" := TopicRec("a", "a", NotLearned, [], "", [])];
    var ids := ["b", "a"];
    assert ids[..1] == ["b"] && ids[..1][..0] == [];
    var g1 := LoadInOrder(EmptyGraph, ids[..1], topics);
    assert g1.nodes == {"b"} by {
      assert LoadInOrder(EmptyGraph, [], topics) == EmptyGraph;
    }
    forall e | e in PrereqEdges(["a"], "b", {"b"}) ensures false {
      PrereqEdgesMember(["a"], "b", {"b"}, e);
    }
    assert g1.edges == {};
    forall e | e in PrereqEdges([], "a", g1.nodes + {"a"}) ensures false {
      PrereqEdgesMember([], "a", g1.nodes + {"a"}, e);
    }
  }

  // ---------------------------------------------------------------------------
  // get_project_topics

  /** The ids of `ids` that have a stored record, in their order. */
  function StoredIds(ids: seq<string>, topics: map<string, TopicRec>): (r: seq<string>)
    ensures |r| <= |ids|
    ensures forall x :: x in r <==> x in ids && x in topics
    ensures NoDup(ids) ==> NoDup(r)
    decreases |ids|
  {
    if ids == [] then []
    else
      var rest := StoredIds(ids[1..], topics);
      if ids[0] in topics then [ids[0]] + rest else rest
  }

  /** An id appended to the list is kept after the others when it is stored. */
  lemma {:induction false} StoredIdsSnoc(ids: seq<string>, x: string, topics: map<string, TopicRec>)
    ensures StoredIds(ids + [x], topics) == StoredIds(ids, topics) + (if x in topics then [x] else [])
    decreases |ids|
  {
    if ids == [] {
      assert ids + [x] == [x];
    } else {
      assert (ids + [x])[1..] == ids[1..] + [x];
      StoredIdsSnoc(ids[1..], x, topics);
    }
  }

  /** The last id is kept after the others when it is stored. */
  lemma StoredIdsLast(ids: seq<string>, topics: map<string, TopicRec>)
    requires |ids| > 0
    ensures var n := |ids| - 1;
            StoredIds(ids, topics) == StoredIds(ids[..n], topics) + (if ids[n] in topics then [ids[n]] else [])
  {
    var n := |ids| - 1;
    assert ids[..n] + [ids[n]] == ids;
    StoredIdsSnoc(ids[..n], ids[n], topics);
  }

  /** The index run of the stored ids among all but the last of `ids`,
      extended by the last: it still points at the kept ids, in order. */
  lemma IndexRunSnoc(ids: seq<string>, topics: map<string, TopicRec>, kept: seq<string>, prev: seq<nat>)
    requires |ids| > 0
    requires |prev| == |kept|
    requires forall k :: 0 <= k < |prev| ==> prev[k] < |ids| - 1 && kept[k] == ids[prev[k]]
    requires forall k, l :: 0 <= k < l < |prev| ==> prev[k] < prev[l]
    ensures var n := |ids| - 1;
            var kept' := kept + (if ids[n] in topics then [ids[n]] else []);
            var idx := if ids[n] in topics then prev + [n] else prev;
            && |idx| == |kept'|
            && (forall k :: 0 <= k < |idx| ==> idx[k] < |ids| && kept'[k] == ids[idx[k]])
            && (forall k, l :: 0 <= k < l < |idx| ==> idx[k] < idx[l])
  {
    var n := |ids| - 1;
    var kept' := kept + (if ids[n] in topics then [ids[n]] else []);
    var idx := if ids[n] in topics then prev + [n] else prev;
    forall k | 0 <= k < |idx|
      ensures idx[k] < |ids| && kept'[k] == ids[idx[k]]
    {
      if k < |prev| {
        assert idx[k] == prev[k] && kept'[k] == kept[k];
      }
    }
  }

  /** The kept ids follow `ids`: the k-th is the id at the k-th of a rising
      run of indices. */
  function StoredIdsAt(ids: seq<string>, topics: map<string, TopicRec>): (idx: seq<nat>)
    ensures |idx| == |StoredIds(ids, topics)|
    ensures forall k :: 0 <= k < |idx| ==> idx[k] < |ids| && StoredIds(ids, topics)[k] == ids[idx[k]]
    ensures forall k, l :: 0 <= k < l < |idx| ==> idx[k] < idx[l]
    decreases |ids|
  {
    if ids == [] then []
    else
      var n: nat := |ids| - 1;
      var prev := StoredIdsAt(ids[..n], topics);
      StoredIdsLast(ids, topics);
      IndexRunSnoc(ids, topics, StoredIds(ids[..n], topics), prev);
      if ids[n] in topics then prev + [n] else prev
  }

  /** The stored records of `ids` in their order. */
  function StoredRecords(ids: seq<string>, topics: map<string, TopicRec>): (r: seq<TopicRec>)
    ensures |r| == |StoredIds(ids, topics)|
    ensures forall i :: 0 <= i < |r| ==> StoredIds(ids, topics)[i] in topics && r[i] == topics[StoredIds(ids, topics)[i]]
  {
    var sid := StoredIds(ids, topics);
    seq(|sid|, i requires 0 <= i < |sid| => topics[sid[i]])
  }

  // ---------------------------------------------------------------------------
  // The store

  class Store {
    var topics: map<string, TopicRec>
    /** iteration order of the topics collection */
    var topicOrder: seq<string>
    var projects: map<string, ProjectRec>
    var projectGraphs: map<string, Graph>
    var masterBrain: Graph

    ghost predicate Valid()
      reads this
    {
      && OrderOf(topicOrder, topics)
      && (forall k :: k in topics ==> WellFormed(k, topics[k]))
      && (forall p :: p in projects ==> NoDup(projects[p].topicIds))
      && Closed(masterBrain)
      && (forall p :: p in projectGraphs ==> Closed(projectGraphs[p]))
    }

    /** The store as persisted, before any graph is loaded. */
    constructor (topics0: map<string, TopicRec>, order0: seq<string>, projects0: map<string, ProjectRec>)
      requires OrderOf(order0, topics0)
      requires forall k :: k in topics0 ==> WellFormed(k, topics0[k])
      requires forall p :: p in projects0 ==> NoDup(projects0[p].topicIds)
      ensures Valid()
      ensures topics == topics0 && topicOrder == order0 && projects == projects0
      ensures projectGraphs == map[] && masterBrain == EmptyGraph
    {
      topics, topicOrder, projects := topics0, order0, projects0;
      projectGraphs, masterBrain := map[], EmptyGraph;
    }

    /** save_topic: a new id joins the end of the iteration order; an existing
        id keeps its place. */
    method SaveTopic(id: string, rec: TopicRec)
      requires Valid() && WellFormed(id, rec)
      modifies this
      ensures Valid()
      ensures topics == old(topics)[id := rec]
      ensures topicOrder == if id in old(topics) then old(topicOrder) else old(topicOrder) + [id]
      ensures projects == old(projects)
      ensures projectGraphs == old(projectGraphs) && masterBrain == old(masterBrain)
    {
      if id !in topics {
        topicOrder := topicOrder + [id];
      }
      topics := topics[id := rec];
    }

    /** add_topic_to_project: False and no change for an unknown project;
        otherwise the topic id is appended to the project's topic_ids if absent
        and, on that fresh attach only, the project id is appended to the
        stored topic's projects if absent. */
    method AddTopicToProject(pid: string, tid: string) returns (ok: bool)
      requires Valid()
      modifies this
      ensures Valid()
      ensures ok <==> pid in old(projects)
      ensures !ok ==> projects == old(projects) && topics == old(topics)
      ensures ok ==> projects == old(projects)[pid := WithTopic(old(projects)[pid], tid)]
      ensures topics == if ok && tid !in old(projects)[pid].topicIds && tid in old(topics)
                        then old(topics)[tid := WithProject(old(topics)[tid], pid)]
                        else old(topics)
      ensures topicOrder == old(topicOrder)
      ensures projectGraphs == old(projectGraphs) && masterBrain == old(masterBrain)
    {
      if pid !in projects {
        return false;
      }
      var project := projects[pid];
      if tid !in project.topicIds {
        projects := projects[pid := WithTopic(project, tid)];
        if tid in topics {
          topics := topics[tid := WithProject(topics[tid], pid)];
        }
      }
      return true;
    }

    function GetProject(pid: string): (r: Option<ProjectRec>)
      reads this
      ensures r.Some? <==> pid in projects
      ensures r.Some? ==> r.value == projects[pid]
    {
      if pid in projects then Some(projects[pid]) else None
    }

    function GetTopic(tid: string): (r: Option<TopicRec>)
      reads this
      ensures r.Some? <==> tid in topics
      ensures r.Some? ==> r.value == topics[tid]
    {
      if tid in topics then Some(topics[tid]) else None
    }

    /** get_project_topics: [] for an unknown project; otherwise the stored
        records of its topic_ids, in that order, skipping ids with no record. */
    function GetProjectTopics(pid: string): (r: seq<TopicRec>)
      reads this
      ensures pid !in projects ==> r == []
      ensures pid in projects ==>
        && |r| == |StoredIds(projects[pid].topicIds, topics)|
        && forall i :: 0 <= i < |r| ==>
             var id := StoredIds(projects[pid].topicIds, topics)[i];
             id in projects[pid].topicIds && id in topics && r[i] == topics[id]
    {
      match GetProject(pid)
      case None => []
      case Some(project) => StoredRecords(project.topicIds, topics)
    }

    /** update_topic_status: False for an unknown topic; otherwise only the
        stored status changes, and it is mirrored into the master-graph node and
        into the node of each existing graph of the topic's projects. */
    method UpdateTopicStatus(tid: string, status: string) returns (ok: bool)
      requires Valid()
      modifies this
      ensures Valid()
      ensures ok <==> tid in old(topics)
      ensures !ok ==> topics == old(topics) && masterBrain == old(masterBrain) && projectGraphs == old(projectGraphs)
      ensures ok ==> topics == old(topics)[tid := old(topics)[tid].(status := status)]
      ensures ok ==> masterBrain == SetNodeStatus(old(masterBrain), tid, status)
      ensures ok ==> projectGraphs == MirrorStatus(old(projectGraphs), old(topics)[tid].projects, tid, status)
      ensures topicOrder == old(topicOrder) && projects == old(projects)
    {
      if tid !in topics {
        return false;
      }
      var topic := topics[tid];
      topics := topics[tid := topic.(status := status)];
      if tid in masterBrain.nodes {
        masterBrain := SetNodeStatus(masterBrain, tid, status);
      }
      projectGraphs := MirrorInto(projectGraphs, topic.projects, tid, status);
      MirrorStatusClosed(old(projectGraphs), topic.projects, tid, status);
      return true;
    }

    /** get_master_brain_data: the master graph's nodes and edges; every edge
        joins two listed nodes. */
    function GetMasterBrainData(): (r: Graph)
      reads this
      requires Valid()
      ensures forall e :: e in r.edges ==> e.0 in r.nodes && e.1 in r.nodes
      ensures r.attrs.Keys == r.nodes
    {
      masterBrain
    }

    /** load_graphs: the master graph gets every stored topic in iteration
        order, and each project a fresh graph of its stored topics in
        topic_ids order, each edge only to an already inserted prerequisite. */
    method LoadGraphs()
      requires Valid()
      modifies this
      ensures Valid()
      ensures masterBrain == LoadInOrder(old(masterBrain), topicOrder, topics)
      ensures projectGraphs.Keys == old(projectGraphs).Keys + projects.Keys
      ensures forall p :: p in projects ==> projectGraphs[p] == LoadInOrder(EmptyGraph, projects[p].topicIds, topics)
      ensures forall p :: p in old(projectGraphs) && p !in projects ==> projectGraphs[p] == old(projectGraphs)[p]
      ensures topics == old(topics) && topicOrder == old(topicOrder) && projects == old(projects)
    {
      masterBrain := BuildInOrder(masterBrain, topicOrder, topics);
      LoadInOrderClosed(old(masterBrain), topicOrder, topics);
      projectGraphs := LoadProjectGraphs(projectGraphs, projects, topics);
    }

    /** get_project_graph_data: an existing project graph as it is; for a
        stored project with no graph yet, one is built by the loader and kept;
        for an unknown project, empty nodes and edges and no change. */
    method GetProjectGraphData(pid: string) returns (data: Graph)
      requires Valid()
      modifies this
      ensures Valid()
      ensures Closed(data)
      ensures pid in old(projectGraphs) ==> data == old(projectGraphs)[pid] && projectGraphs == old(projectGraphs)
      ensures pid !in old(projectGraphs) && pid in projects ==>
                && data == LoadInOrder(EmptyGraph, projects[pid].topicIds, topics)
                && projectGraphs == old(projectGraphs)[pid := data]
      ensures pid !in old(projectGraphs) && pid !in projects ==> data == EmptyGraph && projectGraphs == old(projectGraphs)
      ensures topics == old(topics) && topicOrder == old(topicOrder) && projects == old(projects)
      ensures masterBrain == old(masterBrain)
    {
      if pid !in projectGraphs {
        if pid in projects {
          var g := BuildInOrder(EmptyGraph, projects[pid].topicIds, topics);
          LoadInOrderClosed(EmptyGraph, projects[pid].topicIds, topics);
          projectGraphs := projectGraphs[pid := g];
        } else {
          return EmptyGraph;
        }
      }
      data := projectGraphs[pid];
    }
  }

  /** The nested insertion loops shared by load_graphs and
      get_project_graph_data, starting from graph `g0`. */
  method BuildInOrder(g0: Graph, ids: seq<string>, topics: map<string, TopicRec>) returns (g: Graph)
    ensures g == LoadInOrder(g0, ids, topics)
  {
    g := g0;
    var i := 0;
    while i < |ids|
      invariant 0 <= i <= |ids|
      invariant g == LoadInOrder(g0, ids[..i], topics)
    {
      var id := ids[i];
      assert ids[..i + 1][..i] == ids[..i];
      if id in topics {
        var rec := topics[id];
        g := AddNode(g, id, rec);
        var g1 := g;
        var j := 0;
        while j < |rec.prerequisites|
          invariant 0 <= j <= |rec.prerequisites|
          invariant g == g1.(edges := g1.edges + PrereqEdges(rec.prerequisites[..j], id, g1.nodes))
        {
          var p := rec.prerequisites[j];
          assert rec.prerequisites[..j + 1][..j] == rec.prerequisites[..j];
          if p in g.nodes {
            g := AddEdge(g, p, id);
          }
          j := j + 1;
        }
        assert rec.prerequisites[..j] == rec.prerequisites;
      }
      i := i + 1;
    }
    assert ids[..i] == ids;
  }
  /** The status loop of update_topic_status over the graphs of `pids`. */
  method MirrorInto(graphs: map<string, Graph>, pids: seq<string>, tid: string, status: string)
    returns (graphs': map<string, Graph>)
    ensures graphs' == MirrorStatus(graphs, pids, tid, status)
  {
    graphs' := graphs;
    var i := 0;
    while i < |pids|
      invariant 0 <= i <= |pids|
      invariant graphs' == MirrorStatus(graphs, pids[..i], tid, status)
    {
      var pid := pids[i];
      if pid in graphs' && tid in graphs'[pid].nodes {
        graphs' := graphs'[pid := SetNodeStatus(graphs'[pid], tid, status)];
      }
      MirrorStatusSnoc(graphs, pids[..i], pid, tid, status);
      assert pids[..i + 1] == pids[..i] + [pid];
      i := i + 1;
    }
    assert pids[..i] == pids;
  }

  /** The project loop of load_graphs: every project gets a fresh graph of its
      stored topics, loaded in topic_ids order; other graphs are kept. */
  method LoadProjectGraphs(graphs: map<string, Graph>, ps: map<string, ProjectRec>, ts: map<string, TopicRec>)
    returns (graphs': map<string, Graph>)
    requires forall p :: p in graphs ==> Closed(graphs[p])
    ensures graphs'.Keys == graphs.Keys + ps.Keys
    ensures forall p :: p in ps ==> graphs'[p] == LoadInOrder(EmptyGraph, ps[p].topicIds, ts)
    ensures forall p :: p in graphs && p !in ps ==> graphs'[p] == graphs[p]
    ensures forall p :: p in graphs' ==> Closed(graphs'[p])
  {
    graphs' := graphs;
    var todo := ps.Keys;
    while todo != {}
      invariant todo <= ps.Keys
      invariant graphs'.Keys == graphs.Keys + (ps.Keys - todo)
      invariant forall p :: p in ps && p !in todo ==> graphs'[p] == LoadInOrder(EmptyGraph, ps[p].topicIds, ts)
      invariant forall p :: p in graphs && (p !in ps || p in todo) ==> graphs'[p] == graphs[p]
      invariant forall p :: p in graphs' ==> Closed(graphs'[p])
      decreases todo
    {
      var pid :| pid in todo;
      var g := BuildInOrder(EmptyGraph, ps[pid].topicIds, ts);
      LoadInOrderClosed(EmptyGraph, ps[pid].topicIds, ts);
      graphs' := graphs'[pid := g];
      todo := todo - {pid};
    }
  }

}
