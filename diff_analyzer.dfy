/** DiffAnalyzer (backend/code_analyzer/diff_analyzer.py): the filter that
    drops binary and vendored files from a diff, and the merge that saves an
    extracted topic into a store keyed by title and project. */
module DiffAnalyzer {
  import opened Text

  // ---------------------------------------------------------------------------
  // _filter_diff

  const BinaryExtensions: seq<string> := [".jpg", ".png", ".gif", ".pdf", ".zip"]
  const ExcludedPatterns: seq<string> :=
    ["node_modules/", "/dist/", "/build/", "/.git/", "/__pycache__/", "/venv/", ".min.js", ".lock"]

  /** Python's `any(p in line for p in pats)`. */
  predicate AnyIn(line: string, pats: seq<string>)
    decreases |pats|
  {
    |pats| > 0 && (Contains(line, pats[0]) || AnyIn(line, pats[1..]))
  }

  /** A line that starts skipping whatever the state: a "Binary files" line,
      or a `diff --git` line naming a binary extension. */
  predicate BinaryMarker(line: string) {
    Contains(line, "Binary files") || (Contains(line, "diff --git") && AnyIn(line, BinaryExtensions))
  }

  predicate Excluded(line: string) { AnyIn(line, ExcludedPatterns) }

  predicate FileHeader(line: string) { StartsWith(line, "diff --git") }

  /** The loop's state: the skip flag and the lines kept so far. */
  datatype Scan = Scan(skip: bool, kept: seq<string>)

  /** One line of the loop. */
  function FilterStep(sc: Scan, line: string): Scan {
    if BinaryMarker(line) then Scan(true, sc.kept)
    else
      var skip := if FileHeader(line) then false else sc.skip;
      if skip then Scan(true, sc.kept)
      else if Excluded(line) then Scan(true, sc.kept)
      else Scan(false, sc.kept + [line])
  }

  function FilterRun(lines: seq<string>): Scan
    decreases |lines|
  {
    if lines == [] then Scan(false, [])
    else FilterStep(FilterRun(lines[..|lines| - 1]), lines[|lines| - 1])
  }

  function FilterLines(lines: seq<string>): seq<string> { FilterRun(lines).kept }

  /** What _filter_diff returns for a diff. */
  function FilteredText(diff: string): string { Join(FilterLines(Split(diff, '\n')), '\n') }

  /** _filter_diff */
  method FilterDiff(diffContent: string) returns (filtered: string)
    ensures filtered == FilteredText(diffContent)
  {
    var lines := Split(diffContent, '\n');
    var filteredLines: seq<string> := [];
    var skipCurrentFile := false;
    for i := 0 to |lines|
      invariant FilterRun(lines[..i]) == Scan(skipCurrentFile, filteredLines)
    {
      assert lines[..i + 1][..i] == lines[..i];
      var line := lines[i];
      if BinaryMarker(line) {
        skipCurrentFile := true;
        continue;
      }
      if FileHeader(line) {
        skipCurrentFile := false;
      }
      if skipCurrentFile {
        continue;
      }
      if Excluded(line) {
        skipCurrentFile := true;
        continue;
      }
      filteredLines := filteredLines + [line];
    }
    assert lines[..|lines|] == lines;
    filtered := Join(filteredLines, '\n');
  }

  /** The kept lines are an order-preserving subsequence of the input: the
      k-th kept line is the input line at the k-th of a rising run of indices. */
  function {:induction false} KeptAt(lines: seq<string>): (idx: seq<nat>)
    ensures |idx| == |FilterLines(lines)|
    ensures forall k :: 0 <= k < |idx| ==> idx[k] < |lines| && FilterLines(lines)[k] == lines[idx[k]]
    ensures forall k, l :: 0 <= k < l < |idx| ==> idx[k] < idx[l]
    decreases |lines|
  {
    if lines == [] then []
    else
      var init := lines[..|lines| - 1];
      var prev := KeptAt(init);
      if |FilterLines(lines)| == |FilterLines(init)| then prev else prev + [|lines| - 1]
  }

  /** No kept line is a binary marker or names an excluded path. */
  lemma {:induction false} FilterKeptClean(lines: seq<string>)
    ensures forall k :: 0 <= k < |FilterLines(lines)| ==>
              !BinaryMarker(FilterLines(lines)[k]) && !Excluded(FilterLines(lines)[k])
    decreases |lines|
  {
    if lines != [] {
      var init := lines[..|lines| - 1];
      var line := lines[|lines| - 1];
      FilterKeptClean(init);
      var sc := FilterRun(init);
      assert FilterLines(init) == sc.kept;
      assert FilterLines(lines) == FilterStep(sc, line).kept;
      if FilterStep(sc, line).kept != sc.kept {
        assert FilterStep(sc, line).kept == sc.kept + [line] && !BinaryMarker(line) && !Excluded(line);
      }
    }
  }

  /** A skip begun by a binary marker or an excluded path lasts until the next
      line that starts with `diff --git`: nothing in between is kept. */
  lemma {:induction false} SkipUntilHeader(lines: seq<string>, i: nat, j: nat)
    requires i < j <= |lines|
    requires BinaryMarker(lines[i]) || Excluded(lines[i])
    requires forall m :: i < m < j ==> !FileHeader(lines[m])
    ensures FilterRun(lines[..j]) == Scan(true, FilterRun(lines[..i]).kept)
    decreases j
  {
    if j == i + 1 {
      assert lines[..i + 1][..i] == lines[..i];
      SkipStarts(FilterRun(lines[..i]), lines[i]);
    } else {
      SkipUntilHeader(lines, i, j - 1);
      assert lines[..j][..j - 1] == lines[..j - 1];
      SkipPersists(FilterRun(lines[..j - 1]), lines[j - 1]);
    }
  }

  lemma SkipStarts(sc: Scan, line: string)
    requires BinaryMarker(line) || Excluded(line)
    ensures FilterStep(sc, line) == Scan(true, sc.kept)
  {
  }

  lemma SkipPersists(sc: Scan, line: string)
    requires sc.skip && !FileHeader(line)
    ensures FilterStep(sc, line) == Scan(true, sc.kept)
  {
  }

  /** A run of lines none of which is a marker or excluded keeps everything. */
  lemma {:induction false} CleanRun(lines: seq<string>)
    requires forall k :: 0 <= k < |lines| ==> !BinaryMarker(lines[k]) && !Excluded(lines[k])
    ensures FilterRun(lines) == Scan(false, lines)
    decreases |lines|
  {
    if lines != [] {
      var init := lines[..|lines| - 1];
      var last := lines[|lines| - 1];
      assert init + [last] == lines;
      assert forall k :: 0 <= k < |init| ==> init[k] == lines[k];
      CleanRun(init);
      CleanStep(init, last);
    }
  }

  /** A clean line after a clean run is kept. */
  lemma CleanStep(kept: seq<string>, line: string)
    requires !BinaryMarker(line) && !Excluded(line)
    ensures FilterStep(Scan(false, kept), line) == Scan(false, kept + [line])
  {
  }

  lemma {:induction false} AnyInEmpty(pats: seq<string>)
    requires forall k :: 0 <= k < |pats| ==> pats[k] != ""
    ensures !AnyIn("", pats)
    decreases |pats|
  {
    if pats != [] {
      if IsSubstring(pats[0], "") {
        SubstringLength(pats[0], "");
      }
      AnyInEmpty(pats[1..]);
    }
  }

  lemma EmptyLineClean()
    ensures !BinaryMarker("") && !Excluded("")
  {
    if IsSubstring("Binary files", "") {
      SubstringLength("Binary files", "");
    }
    AnyInEmpty(ExcludedPatterns);
  }

  /** Filtering a filtered diff changes nothing: kept lines never start a skip. */
  lemma FilterIdempotent(diff: string)
    ensures FilteredText(FilteredText(diff)) == FilteredText(diff)
  {
    var lines := Split(diff, '\n');
    var kept := FilterLines(lines);
    var idx := KeptAt(lines);
    FilterKeptClean(lines);
    if kept == [] {
      EmptyLineClean();
      CleanRun([""]);
    } else {
      forall k | 0 <= k < |kept|
        ensures '\n' !in kept[k]
      {
        assert kept[k] == lines[idx[k]];
      }
      SplitJoin(kept, '\n');
      CleanRun(kept);
    }
  }

  // ---------------------------------------------------------------------------
  // _save_topic over a store of topics keyed by title and project

  const ToLearn: string := "to_learn"

  /** A stored topic; its id is its position in the table. */
  datatype StoredTopic = StoredTopic(title: string, description: string, projectId: string, status: string, prerequisites: seq<nat>)

  /** The extracted topic handed to _save_topic. */
  datatype TopicData = TopicData(title: string, description: string, prerequisites: seq<string>)

  predicate Titled(t: StoredTopic, title: string, pid: string) { t.title == title && t.projectId == pid }

  /** get_by_title_and_project(...)[0]: the first topic, in id order, with
      this title in this project. */
  function FindByTitle(rows: seq<StoredTopic>, title: string, pid: string): (r: Option<nat>)
    ensures r.Some? ==> r.value < |rows| && Titled(rows[r.value], title, pid)
    ensures r.Some? ==> forall j :: 0 <= j < r.value ==> !Titled(rows[j], title, pid)
    ensures r.None? ==> forall j :: 0 <= j < |rows| ==> !Titled(rows[j], title, pid)
    decreases |rows|
  {
    if rows == [] then None
    else if Titled(rows[0], title, pid) then Some(0)
    else match FindByTitle(rows[1..], title, pid)
      case Some(i) => Some(i + 1)
      case None => None
  }

  /** A table of topics, with the two writes _save_topic makes. */
  class TopicTable {
    var rows: seq<StoredTopic>

    constructor (rows0: seq<StoredTopic>)
      ensures rows == rows0
    {
      rows := rows0;
    }

    /** save() of a new topic: it is stored under the next id. */
    method Create(t: StoredTopic) returns (id: nat)
      modifies this
      ensures rows == old(rows) + [t] && id == |old(rows)|
    {
      id := |rows|;
      rows := rows + [t];
    }

    /** save() of a topic already stored. */
    method Update(id: nat, t: StoredTopic)
      requires id < |rows|
      modifies this
      ensures rows == old(rows)[id := t]
    {
      rows := rows[id := t];
    }
  }

  /** The table after resolving prerequisite titles, with their ids. */
  datatype Resolved = Resolved(rows: seq<StoredTopic>, ids: seq<nat>)

  /** The record created for a prerequisite title that is not stored. */
  function MissingPrerequisite(name: string, pid: string): StoredTopic {
    StoredTopic(name, "", pid, ToLearn, [])
  }

  /** One prerequisite title: its first stored topic in the project, or a
      new one. */
  function ResolveOne(rows: seq<StoredTopic>, pid: string, name: string): Resolved {
    match FindByTitle(rows, name, pid)
    case Some(i) => Resolved(rows, [i])
    case None => Resolved(rows + [MissingPrerequisite(name, pid)], [|rows|])
  }

  /** The prerequisite titles in order. */
  function ResolveAll(rows: seq<StoredTopic>, pid: string, names: seq<string>): (r: Resolved)
    ensures rows <= r.rows
    decreases |names|
  {
    if names == [] then Resolved(rows, [])
    else
      var prev := ResolveAll(rows, pid, names[..|names| - 1]);
      var last := ResolveOne(prev.rows, pid, names[|names| - 1]);
      Resolved(last.rows, prev.ids + last.ids)
  }

  /** The table after _save_topic, with the id of the saved topic. */
  datatype Saved = Saved(rows: seq<StoredTopic>, id: nat)

  /** _save_topic: an existing topic of the same title and project gets the
      new description when its own is empty, and its prerequisites replaced
      by the resolved titles when any are given; otherwise a `to_learn` topic
      is created, and then given its resolved prerequisites. */
  function SaveSpec(rows: seq<StoredTopic>, pid: string, data: TopicData): Saved {
    match FindByTitle(rows, data.title, pid)
    case Some(i) =>
      var t := rows[i];
      var t1 := if data.description != "" && t.description == "" then t.(description := data.description) else t;
      if data.prerequisites != [] then
        var r := ResolveAll(rows, pid, data.prerequisites);
        Saved(r.rows[i := t1.(prerequisites := r.ids)], i)
      else Saved(rows[i := t1], i)
    case None =>
      var t := StoredTopic(data.title, data.description, pid, ToLearn, []);
      var id := |rows|;
      if data.prerequisites != [] then
        var r := ResolveAll(rows + [t], pid, data.prerequisites);
        Saved(r.rows[id := t.(prerequisites := r.ids)], id)
      else Saved(rows + [t], id)
  }

  /** The prerequisite loop of _save_topic. */
  method ResolvePrerequisites(db: TopicTable, pid: string, names: seq<string>) returns (ids: seq<nat>)
    modifies db
    ensures Resolved(db.rows, ids) == ResolveAll(old(db.rows), pid, names)
  {
    ids := [];
    for k := 0 to |names|
      invariant Resolved(db.rows, ids) == ResolveAll(old(db.rows), pid, names[..k])
    {
      assert names[..k + 1][..k] == names[..k];
      var found := FindByTitle(db.rows, names[k], pid);
      if found.None? {
        var id := db.Create(MissingPrerequisite(names[k], pid));
        ids := ids + [id];
      } else {
        ids := ids + [found.value];
      }
    }
    assert names[..|names|] == names;
  }

  /** _save_topic */
  method SaveTopic(db: TopicTable, pid: string, data: TopicData) returns (id: nat)
    modifies db
    ensures Saved(db.rows, id) == SaveSpec(old(db.rows), pid, data)
  {
    var existing := FindByTitle(db.rows, data.title, pid);
    if existing.Some? {
      id := existing.value;
      var topic := db.rows[id];
      if data.description != "" && topic.description == "" {
        topic := topic.(description := data.description);
      }
      if data.prerequisites != [] {
        var prereqIds := ResolvePrerequisites(db, pid, data.prerequisites);
        topic := topic.(prerequisites := prereqIds);
      }
      db.Update(id, topic);
    } else {
      var topic := StoredTopic(data.title, data.description, pid, ToLearn, []);
      id := db.Create(topic);
      if data.prerequisites != [] {
        var prereqIds := ResolvePrerequisites(db, pid, data.prerequisites);
        topic := topic.(prerequisites := prereqIds);
        db.Update(id, topic);
      }
    }
  }

  // Properties of the merge

  /** A first match stays the first match when rows are appended. */
  lemma {:induction false} FindByTitleAppend(rows: seq<StoredTopic>, extra: seq<StoredTopic>, title: string, pid: string)
    requires FindByTitle(rows, title, pid).Some?
    ensures FindByTitle(rows + extra, title, pid) == FindByTitle(rows, title, pid)
    decreases |rows|
  {
    assert (rows + extra)[0] == rows[0];
    if !Titled(rows[0], title, pid) {
      assert (rows + extra)[1..] == rows[1..] + extra;
      FindByTitleAppend(rows[1..], extra, title, pid);
    }
  }

  /** A title with no match is matched by a row appended for it. */
  lemma {:induction false} FindByTitleCreated(rows: seq<StoredTopic>, t: StoredTopic, title: string, pid: string)
    requires FindByTitle(rows, title, pid).None? && Titled(t, title, pid)
    ensures FindByTitle(rows + [t], title, pid) == Some(|rows|)
    decreases |rows|
  {
    if rows == [] {
      assert rows + [t] == [t];
    } else {
      assert (rows + [t])[0] == rows[0];
      assert (rows + [t])[1..] == rows[1..] + [t];
      FindByTitleCreated(rows[1..], t, title, pid);
    }
  }

  /** One title gets the first topic of that title in the project, created
      when missing. */
  lemma ResolveOneFinds(rows: seq<StoredTopic>, pid: string, name: string)
    ensures var o := ResolveOne(rows, pid, name);
            && |o.ids| == 1 && o.ids[0] < |o.rows|
            && FindByTitle(o.rows, name, pid) == Some(o.ids[0])
  {
    if FindByTitle(rows, name, pid).None? {
      FindByTitleCreated(rows, MissingPrerequisite(name, pid), name, pid);
    }
  }

  /** Resolving titles keeps the table and only appends `to_learn` topics of
      the project with an empty description and no prerequisites. */
  lemma {:induction false} ResolveAllAppends(rows: seq<StoredTopic>, pid: string, names: seq<string>)
    ensures var r := ResolveAll(rows, pid, names);
            && |r.ids| == |names|
            && forall j :: |rows| <= j < |r.rows| ==> r.rows[j] == MissingPrerequisite(r.rows[j].title, pid)
    decreases |names|
  {
    if names != [] {
      ResolveAllAppends(rows, pid, names[..|names| - 1]);
    }
  }

  /** Every title gets the first topic of that title in the project. */
  lemma {:induction false} ResolveAllFinds(rows: seq<StoredTopic>, pid: string, names: seq<string>)
    ensures var r := ResolveAll(rows, pid, names);
            && |r.ids| == |names|
            && forall k :: 0 <= k < |names| ==> r.ids[k] < |r.rows| && FindByTitle(r.rows, names[k], pid) == Some(r.ids[k])
    decreases |names|
  {
    if names != [] {
      var init := names[..|names| - 1];
      var name := names[|names| - 1];
      ResolveAllFinds(rows, pid, init);
      var prev := ResolveAll(rows, pid, init);
      var one := ResolveOne(prev.rows, pid, name);
      ResolveOneFinds(prev.rows, pid, name);
      var r := ResolveAll(rows, pid, names);
      assert r == Resolved(one.rows, prev.ids + one.ids);
      var extra := one.rows[|prev.rows|..];
      assert one.rows == prev.rows + extra;
      forall k | 0 <= k < |names|
        ensures r.ids[k] < |r.rows| && FindByTitle(r.rows, names[k], pid) == Some(r.ids[k])
      {
        if k < |init| {
          assert names[k] == init[k] && r.ids[k] == prev.ids[k];
          FindByTitleAppend(prev.rows, extra, init[k], pid);
        } else {
          assert names[k] == name && r.ids[k] == one.ids[0];
        }
      }
    }
  }

  /** A topic already stored in the project keeps its title, project and
      status; its description is replaced only when it was empty and the new
      one is not; its prerequisites are replaced, not merged, by the resolved
      titles when any are given, and kept otherwise. */
  lemma SaveExisting(rows: seq<StoredTopic>, pid: string, data: TopicData)
    requires FindByTitle(rows, data.title, pid).Some?
    ensures var i := FindByTitle(rows, data.title, pid).value;
            var s := SaveSpec(rows, pid, data);
            && s.id == i && i < |s.rows|
            && s.rows[i].title == rows[i].title && s.rows[i].projectId == pid && s.rows[i].status == rows[i].status
            && s.rows[i].description == (if data.description != "" && rows[i].description == "" then data.description else rows[i].description)
            && (data.prerequisites == [] ==> s.rows[i].prerequisites == rows[i].prerequisites)
            && (data.prerequisites != [] ==>
                  && |s.rows[i].prerequisites| == |data.prerequisites|
                  && forall k :: 0 <= k < |data.prerequisites| ==>
                       var q := s.rows[i].prerequisites[k];
                       q < |s.rows| && Titled(s.rows[q], data.prerequisites[k], pid))
            && |rows| <= |s.rows|
            && (forall j :: 0 <= j < |rows| && j != i ==> s.rows[j] == rows[j])
            && (forall j :: |rows| <= j < |s.rows| ==> s.rows[j] == MissingPrerequisite(s.rows[j].title, pid))
  {
    var i := FindByTitle(rows, data.title, pid).value;
    if data.prerequisites != [] {
      ResolveAllAppends(rows, pid, data.prerequisites);
      ResolveAllFinds(rows, pid, data.prerequisites);
      var r := ResolveAll(rows, pid, data.prerequisites);
      var s := SaveSpec(rows, pid, data);
      forall k | 0 <= k < |data.prerequisites|
        ensures Titled(s.rows[r.ids[k]], data.prerequisites[k], pid)
      {
        assert FindByTitle(r.rows, data.prerequisites[k], pid) == Some(r.ids[k]);
        if r.ids[k] == i {
          assert Titled(rows[i], data.title, pid);
          assert r.rows[i] == rows[i];
        }
      }
    }
  }

  /** A topic not stored in the project is created `to_learn` under the next
      id, with the given title and description, and the resolved titles as
      prerequisites. */
  lemma SaveNew(rows: seq<StoredTopic>, pid: string, data: TopicData)
    requires FindByTitle(rows, data.title, pid).None?
    ensures var s := SaveSpec(rows, pid, data);
            && s.id == |rows| && s.id < |s.rows|
            && rows <= s.rows
            && s.rows[s.id].title == data.title && s.rows[s.id].projectId == pid
            && s.rows[s.id].status == ToLearn && s.rows[s.id].description == data.description
            && |s.rows[s.id].prerequisites| == |data.prerequisites|
            && (forall k :: 0 <= k < |data.prerequisites| ==>
                  var q := s.rows[s.id].prerequisites[k];
                  q < |s.rows| && Titled(s.rows[q], data.prerequisites[k], pid))
            && (forall j :: |rows| < j < |s.rows| ==> s.rows[j] == MissingPrerequisite(s.rows[j].title, pid))
  {
    var t := StoredTopic(data.title, data.description, pid, ToLearn, []);
    if data.prerequisites != [] {
      ResolveAllAppends(rows + [t], pid, data.prerequisites);
      ResolveAllFinds(rows + [t], pid, data.prerequisites);
      var r := ResolveAll(rows + [t], pid, data.prerequisites);
      var s := SaveSpec(rows, pid, data);
      assert (rows + [t])[..|rows|] == rows;
      forall k | 0 <= k < |data.prerequisites|
        ensures Titled(s.rows[r.ids[k]], data.prerequisites[k], pid)
      {
        assert FindByTitle(r.rows, data.prerequisites[k], pid) == Some(r.ids[k]);
        if r.ids[k] == |rows| {
          assert r.rows[|rows|] == t;
        }
      }
    }
  }
}
