/** parse_diff_summary (backend/code_tracker/utils/git_utils.py): file,
    insertion and deletion counts of a unified diff, line by line. */
module GitUtils {
  import opened Text

  datatype FileSummary = FileSummary(file: string, insertions: nat, deletions: nat)

  datatype DiffSummary = DiffSummary(filesChanged: nat, insertions: nat, deletions: nat, fileSummaries: seq<FileSummary>)

  const HeaderPrefix: string := "diff --git a/"

  /** The last position at or before `i` where `pat` starts in `s`. */
  function LastFrom(s: string, pat: string, i: nat): (r: Option<nat>)
    requires i <= |s|
    ensures r.Some? ==> r.value <= i && StartsWith(s[r.value..], pat)
    ensures r.Some? ==> forall j :: r.value < j <= i ==> !StartsWith(s[j..], pat)
    ensures r.None? ==> forall j :: 0 <= j <= i ==> !StartsWith(s[j..], pat)
    decreases i
  {
    if StartsWith(s[i..], pat) then Some(i)
    else if i == 0 then None
    else LastFrom(s, pat, i - 1)
  }

  /** `j` is the last position after the header prefix where " b/" starts. */
  predicate LastSeparator(line: string, j: int) {
    && |HeaderPrefix| <= j <= |line| - 3
    && StartsWith(line[j..], " b/")
    && forall m :: j < m <= |line| ==> !StartsWith(line[m..], " b/")
  }

  /** The `b` path of a header line, as `re.match(r'diff --git a/(.*) b/(.*)', line).group(2)`:
      the greedy first group leaves the text after the LAST " b/" that
      follows the prefix. */
  function HeaderFile(line: string): (r: Option<string>)
    ensures r.Some? <==> StartsWith(line, HeaderPrefix) && exists j :: |HeaderPrefix| <= j <= |line| && StartsWith(line[j..], " b/")
    ensures r.Some? ==> exists j :: LastSeparator(line, j) && r.value == line[j + 3..]
  {
    if !StartsWith(line, HeaderPrefix) then None
    else
      var rest := line[|HeaderPrefix|..];
      var last := LastFrom(rest, " b/", |rest|);
      if last.None? then
        assert forall j :: |HeaderPrefix| <= j <= |line| ==> line[j..] == rest[j - |HeaderPrefix|..];
        None
      else
        var i := last.value;
        var j := |HeaderPrefix| + i;
        assert line[j..] == rest[i..];
        assert forall m :: j < m <= |line| ==> line[m..] == rest[m - |HeaderPrefix|..];
        assert LastSeparator(line, j);
        Some(rest[i + 3..])
  }

  predicate IsInsertion(line: string) { StartsWith(line, "+") && !StartsWith(line, "+++") }
  predicate IsDeletion(line: string) { StartsWith(line, "-") && !StartsWith(line, "---") }

  /** The loop's state; `current` is the most recent header's file. */
  datatype Tally = Tally(filesChanged: nat, insertions: nat, deletions: nat, files: seq<FileSummary>, current: Option<string>)

  /** Python truthiness of `current_file`: None and "" are both false. */
  predicate Attributed(t: Tally) { t.current.Some? && t.current.value != "" && |t.files| > 0 }

  function BumpInsertions(files: seq<FileSummary>): seq<FileSummary>
    requires |files| > 0
  {
    var last := files[|files| - 1];
    files[|files| - 1 := last.(insertions := last.insertions + 1)]
  }

  function BumpDeletions(files: seq<FileSummary>): seq<FileSummary>
    requires |files| > 0
  {
    var last := files[|files| - 1];
    files[|files| - 1 := last.(deletions := last.deletions + 1)]
  }

  /** One line: a header opens a new file summary; an insertion or deletion
      is counted in the totals and, when a file is current, in the last
      summary. */
  /** A header line opens a summary for its file and makes it current. */
  function OpenHeader(t: Tally, line: string): Tally {
    var f := HeaderFile(line);
    if f.Some? then t.(filesChanged := t.filesChanged + 1, files := t.files + [FileSummary(f.value, 0, 0)], current := f)
    else t
  }

  function TallyStep(t: Tally, line: string): Tally {
    var t1 := OpenHeader(t, line);
    if IsInsertion(line) then
      t1.(insertions := t1.insertions + 1, files := if Attributed(t1) then BumpInsertions(t1.files) else t1.files)
    else if IsDeletion(line) then
      t1.(deletions := t1.deletions + 1, files := if Attributed(t1) then BumpDeletions(t1.files) else t1.files)
    else t1
  }

  function TallyRun(lines: seq<string>): Tally
    decreases |lines|
  {
    if lines == [] then Tally(0, 0, 0, [], None)
    else TallyStep(TallyRun(lines[..|lines| - 1]), lines[|lines| - 1])
  }

  /** What parse_diff_summary returns. */
  function Summary(diff: string): DiffSummary {
    if diff == "" then DiffSummary(0, 0, 0, [])
    else
      var t := TallyRun(Split(diff, '\n'));
      DiffSummary(t.filesChanged, t.insertions, t.deletions, t.files)
  }

  /** parse_diff_summary */
  method ParseDiffSummary(diffContent: string) returns (summary: DiffSummary)
    ensures summary == Summary(diffContent)
  {
    if diffContent == "" {
      return DiffSummary(0, 0, 0, []);
    }
    var lines := Split(diffContent, '\n');
    var t := CountLines(lines);
    summary := DiffSummary(t.filesChanged, t.insertions, t.deletions, t.files);
  }

  /** The counting loop over the lines. */
  method CountLines(lines: seq<string>) returns (t: Tally)
    ensures t == TallyRun(lines)
  {
    var filesChanged := 0;
    var totalInsertions := 0;
    var totalDeletions := 0;
    var fileSummaries: seq<FileSummary> := [];
    var currentFile: Option<string> := None;
    for i := 0 to |lines|
      invariant TallyRun(lines[..i]) == Tally(filesChanged, totalInsertions, totalDeletions, fileSummaries, currentFile)
    {
      assert lines[..i + 1][..i] == lines[..i];
      var line := lines[i];
      ghost var next := TallyStep(TallyRun(lines[..i]), line);
      assert TallyRun(lines[..i + 1]) == next;
      var fileMatch := HeaderFile(line);
      if fileMatch.Some? {
        filesChanged := filesChanged + 1;
        currentFile := fileMatch;
        fileSummaries := fileSummaries + [FileSummary(fileMatch.value, 0, 0)];
      }
      ghost var t1 := Tally(filesChanged, totalInsertions, totalDeletions, fileSummaries, currentFile);
      assert t1 == OpenHeader(TallyRun(lines[..i]), line);
      if IsInsertion(line) {
        totalInsertions := totalInsertions + 1;
        if currentFile.Some? && currentFile.value != "" && |fileSummaries| > 0 {
          var last := fileSummaries[|fileSummaries| - 1];
          fileSummaries := fileSummaries[|fileSummaries| - 1 := last.(insertions := last.insertions + 1)];
        }
      } else if IsDeletion(line) {
        totalDeletions := totalDeletions + 1;
        if currentFile.Some? && currentFile.value != "" && |fileSummaries| > 0 {
          var last := fileSummaries[|fileSummaries| - 1];
          fileSummaries := fileSummaries[|fileSummaries| - 1 := last.(deletions := last.deletions + 1)];
        }
      }
      assert Tally(filesChanged, totalInsertions, totalDeletions, fileSummaries, currentFile) == next;
    }
    assert lines[..|lines|] == lines;
    t := Tally(filesChanged, totalInsertions, totalDeletions, fileSummaries, currentFile);
  }

  // ---------------------------------------------------------------------------
  // Independent counts the tally is checked against

  /** The `b` paths of the header lines, in order. */
  function HeaderFiles(lines: seq<string>): seq<string>
    decreases |lines|
  {
    if lines == [] then []
    else
      var last := lines[|lines| - 1];
      HeaderFiles(lines[..|lines| - 1]) + (if HeaderFile(last).Some? then [HeaderFile(last).value] else [])
  }

  function CountInsertions(lines: seq<string>): nat
    decreases |lines|
  {
    if lines == [] then 0
    else CountInsertions(lines[..|lines| - 1]) + (if IsInsertion(lines[|lines| - 1]) then 1 else 0)
  }

  function CountDeletions(lines: seq<string>): nat
    decreases |lines|
  {
    if lines == [] then 0
    else CountDeletions(lines[..|lines| - 1]) + (if IsDeletion(lines[|lines| - 1]) then 1 else 0)
  }

  function SumInsertions(files: seq<FileSummary>): nat
    decreases |files|
  {
    if files == [] then 0 else SumInsertions(files[..|files| - 1]) + files[|files| - 1].insertions
  }

  function SumDeletions(files: seq<FileSummary>): nat
    decreases |files|
  {
    if files == [] then 0 else SumDeletions(files[..|files| - 1]) + files[|files| - 1].deletions
  }

  lemma SumsBump(files: seq<FileSummary>)
    requires |files| > 0
    ensures SumInsertions(BumpInsertions(files)) == SumInsertions(files) + 1
    ensures SumDeletions(BumpInsertions(files)) == SumDeletions(files)
    ensures SumInsertions(BumpDeletions(files)) == SumInsertions(files)
    ensures SumDeletions(BumpDeletions(files)) == SumDeletions(files) + 1
  {
    var n := |files| - 1;
    assert BumpInsertions(files)[..n] == files[..n];
    assert BumpDeletions(files)[..n] == files[..n];
  }

  /** One summary per header line, in order, naming its `b` path;
      files_changed is their number. */
  lemma {:induction false} TallyFiles(lines: seq<string>)
    ensures var t := TallyRun(lines);
            && t.filesChanged == |t.files| == |HeaderFiles(lines)|
            && forall k :: 0 <= k < |t.files| ==> t.files[k].file == HeaderFiles(lines)[k]
    decreases |lines|
  {
    if lines != [] {
      TallyFiles(lines[..|lines| - 1]);
    }
  }

  /** One line adds one to a total exactly when it is an insertion or a
      deletion, and to the per-file sums at most that. */
  lemma TallyStepCounts(t: Tally, line: string)
    requires SumInsertions(t.files) <= t.insertions && SumDeletions(t.files) <= t.deletions
    ensures var t' := TallyStep(t, line);
            && t'.insertions == t.insertions + (if IsInsertion(line) then 1 else 0)
            && t'.deletions == t.deletions + (if IsDeletion(line) then 1 else 0)
            && SumInsertions(t'.files) <= t'.insertions
            && SumDeletions(t'.files) <= t'.deletions
  {
    var t1 := OpenHeader(t, line);
    if HeaderFile(line).Some? {
      assert t1.files[..|t.files|] == t.files;
    }
    assert SumInsertions(t1.files) == SumInsertions(t.files) && SumDeletions(t1.files) == SumDeletions(t.files);
    if |t1.files| > 0 {
      SumsBump(t1.files);
    }
  }

  /** The totals count exactly the insertion and deletion lines, and the
      per-file counts sum to at most the totals. */
  lemma {:induction false} TallyCounts(lines: seq<string>)
    ensures var t := TallyRun(lines);
            && t.insertions == CountInsertions(lines)
            && t.deletions == CountDeletions(lines)
            && SumInsertions(t.files) <= t.insertions
            && SumDeletions(t.files) <= t.deletions
    decreases |lines|
  {
    if lines != [] {
      TallyCounts(lines[..|lines| - 1]);
      TallyStepCounts(TallyRun(lines[..|lines| - 1]), lines[|lines| - 1]);
    }
  }

  /** Lines before the first header count toward the totals only. */
  lemma {:induction false} TallyBeforeHeaders(lines: seq<string>)
    requires forall k :: 0 <= k < |lines| ==> HeaderFile(lines[k]).None?
    ensures TallyRun(lines) == Tally(0, CountInsertions(lines), CountDeletions(lines), [], None)
    decreases |lines|
  {
    if lines != [] {
      TallyBeforeHeaders(lines[..|lines| - 1]);
    }
  }

  // ---------------------------------------------------------------------------
  // Attribution of the per-file counts

  /** A header line is neither an insertion nor a deletion. */
  lemma HeaderNotCounted(h: string)
    requires HeaderFile(h).Some?
    ensures !IsInsertion(h) && !IsDeletion(h)
  {
    assert h[..|HeaderPrefix|] == HeaderPrefix;
    assert h[0] == 'd';
  }

  /** What a header's summary holds after the lines `seg` that follow it:
      the insertions and deletions of `seg` when the file name is non-empty,
      and zeros when it is "", which Python takes as false. */
  function SegmentSummary(f: string, seg: seq<string>): FileSummary {
    if f != "" then FileSummary(f, CountInsertions(seg), CountDeletions(seg)) else FileSummary(f, 0, 0)
  }

  /** A header followed by lines that are not headers: the header opens one
      summary, and the counts of those lines go to it and to the totals. */
  lemma {:induction false} TallySegment(pre: seq<string>, h: string, seg: seq<string>)
    requires HeaderFile(h).Some?
    requires forall k :: 0 <= k < |seg| ==> HeaderFile(seg[k]).None?
    ensures var t0 := TallyRun(pre);
            var f := HeaderFile(h).value;
            TallyRun(pre + [h] + seg)
              == Tally(t0.filesChanged + 1, t0.insertions + CountInsertions(seg), t0.deletions + CountDeletions(seg),
                       t0.files + [SegmentSummary(f, seg)], Some(f))
    decreases |seg|
  {
    var f := HeaderFile(h).value;
    if seg == [] {
      assert pre + [h] + seg == pre + [h];
      assert (pre + [h])[..|pre|] == pre;
      HeaderNotCounted(h);
    } else {
      var init := seg[..|seg| - 1];
      var x := seg[|seg| - 1];
      var lines := pre + [h] + init;
      assert pre + [h] + seg == lines + [x];
      assert (lines + [x])[..|lines|] == lines;
      TallySegment(pre, h, init);
      var t := TallyRun(lines);
      var t0 := TallyRun(pre);
      assert HeaderFile(x).None?;
      assert OpenHeader(t, x) == t;
      assert TallyRun(pre + [h] + seg) == TallyStep(t, x);
      assert CountInsertions(seg) == CountInsertions(init) + (if IsInsertion(x) then 1 else 0);
      assert CountDeletions(seg) == CountDeletions(init) + (if IsDeletion(x) then 1 else 0);
      if f != "" && IsInsertion(x) {
        assert BumpInsertions(t.files) == t0.files + [SegmentSummary(f, seg)];
      } else if f != "" && IsDeletion(x) {
        assert BumpDeletions(t.files) == t0.files + [SegmentSummary(f, seg)];
      }
    }
  }

  /** A step changes no summary but the last it started with. */
  lemma TallyStepKeepsEarlier(t: Tally, line: string)
    ensures |TallyStep(t, line).files| >= |t.files|
    ensures forall k :: 0 <= k < |t.files| - 1 ==> TallyStep(t, line).files[k] == t.files[k]
  {
  }

  /** Every summary except the last one of a prefix is final. */
  lemma {:induction false} TallyKeepsEarlier(lines: seq<string>, m: nat)
    requires m <= |lines|
    ensures |TallyRun(lines[..m]).files| <= |TallyRun(lines).files|
    ensures forall k :: 0 <= k < |TallyRun(lines[..m]).files| - 1 ==> TallyRun(lines).files[k] == TallyRun(lines[..m]).files[k]
    decreases |lines| - m
  {
    if m == |lines| {
      assert lines[..m] == lines;
    } else {
      TallyKeepsEarlier(lines, m + 1);
      assert lines[..m + 1][..m] == lines[..m];
      TallyStepKeepsEarlier(TallyRun(lines[..m]), lines[m]);
    }
  }

  /** Line `i` is a header and `j` is the next header, or the end. */
  predicate HeaderSegment(lines: seq<string>, i: int, j: int) {
    && 0 <= i < j <= |lines|
    && HeaderFile(lines[i]).Some?
    && (forall k :: i < k < j ==> HeaderFile(lines[k]).None?)
    && (j < |lines| ==> HeaderFile(lines[j]).Some?)
  }

  /** A later header leaves every summary before it final. */
  lemma HeaderKeepsEarlier(xs: seq<string>, h: string, ys: seq<string>)
    requires HeaderFile(h).Some?
    ensures |TallyRun(xs).files| < |TallyRun(xs + [h] + ys).files|
    ensures forall k :: 0 <= k < |TallyRun(xs).files| ==> TallyRun(xs + [h] + ys).files[k] == TallyRun(xs).files[k]
  {
    var lines := xs + [h] + ys;
    var m := |xs| + 1;
    assert lines[..m] == xs + [h];
    assert (xs + [h])[..|xs|] == xs;
    HeaderNotCounted(h);
    assert TallyRun(xs + [h]) == OpenHeader(TallyRun(xs), h);
    TallyKeepsEarlier(lines, m);
  }

  /** The per-file counts go to the most recent header: the summary a header
      opens, the one after all summaries of earlier headers, ends with the
      counts of the lines up to the next header. */
  lemma FileCountsAttributed(lines: seq<string>, i: nat, j: nat)
    requires HeaderSegment(lines, i, j)
    ensures var n := |HeaderFiles(lines[..i])|;
            n < |TallyRun(lines).files|
            && TallyRun(lines).files[n] == SegmentSummary(HeaderFile(lines[i]).value, lines[i + 1..j])
  {
    var pre, h, seg, post := lines[..i], lines[i], lines[i + 1..j], lines[j..];
    SplitAround(lines, i, j, seg);
    TallySegment(pre, h, seg);
    TallyFiles(pre);
    var n := |HeaderFiles(pre)|;
    var xs := pre + [h] + seg;
    var a := TallyRun(xs);
    assert a.files[n] == SegmentSummary(HeaderFile(h).value, seg);
    if post == [] {
      assert lines == xs;
    } else {
      SplitFirst(xs, post);
      HeaderKeepsEarlier(xs, post[0], post[1..]);
    }
  }

  lemma SplitAround(lines: seq<string>, i: nat, j: nat, seg: seq<string>)
    requires i < j <= |lines| && seg == lines[i + 1..j]
    ensures lines == lines[..i] + [lines[i]] + seg + lines[j..]
    ensures forall k :: 0 <= k < |seg| ==> seg[k] == lines[i + 1 + k]
  {
  }

  lemma SplitFirst(xs: seq<string>, post: seq<string>)
    requires post != []
    ensures xs + post == xs + [post[0]] + post[1..]
  {
    assert post == [post[0]] + post[1..];
  }

  /** The summary of an empty diff is all zeros, and of any diff it agrees
      with the independent counts. */
  lemma SummaryProperties(diff: string)
    ensures diff == "" ==> Summary(diff) == DiffSummary(0, 0, 0, [])
    ensures diff != "" ==>
              var lines := Split(diff, '\n');
              var s := Summary(diff);
              && s.filesChanged == |s.fileSummaries| == |HeaderFiles(lines)|
              && (forall k :: 0 <= k < |s.fileSummaries| ==> s.fileSummaries[k].file == HeaderFiles(lines)[k])
              && s.insertions == CountInsertions(lines) && s.deletions == CountDeletions(lines)
              && SumInsertions(s.fileSummaries) <= s.insertions && SumDeletions(s.fileSummaries) <= s.deletions
              && forall i, j :: HeaderSegment(lines, i, j) ==>
                   |HeaderFiles(lines[..i])| < |s.fileSummaries|
                   && s.fileSummaries[|HeaderFiles(lines[..i])|] == SegmentSummary(HeaderFile(lines[i]).value, lines[i + 1..j])
  {
    if diff != "" {
      var lines := Split(diff, '\n');
      TallyFiles(lines);
      TallyCounts(lines);
      forall i, j | HeaderSegment(lines, i, j)
        ensures |HeaderFiles(lines[..i])| < |TallyRun(lines).files|
                && TallyRun(lines).files[|HeaderFiles(lines[..i])|] == SegmentSummary(HeaderFile(lines[i]).value, lines[i + 1..j])
      {
        FileCountsAttributed(lines, i, j);
      }
    }
  }
}
