/** GeminiTopicAnalyzer._parse_gemini_response
    (backend/code_analyzer/gemini_analyzer.py): the model's free-text answer,
    a list of "Title:", "Description:", "Prerequisites:" and
    "Code_References:" lines, read into topic records line by line. */
module GeminiAnalyzer {
  import opened Text

  datatype Topic = Topic(title: string, description: string, prerequisites: seq<string>, codeReferences: string)

  /** The loop's state: the finished topics and the one being read. */
  datatype Parse = Parse(topics: seq<Topic>, current: Option<Topic>)

  /** The position of the first `c` in `s`. */
  function FirstIndex(s: string, c: char): (i: nat)
    requires c in s
    ensures i < |s| && s[i] == c
    ensures forall j :: 0 <= j < i ==> s[j] != c
    decreases |s|
  {
    if s[0] == c then 0 else 1 + FirstIndex(s[1..], c)
  }

  /** A field line carries its tag with or without a leading "- ". */
  predicate Labelled(line: string, tag: string) {
    StartsWith(line, "- " + tag) || StartsWith(line, tag)
  }

  predicate IsTitleLine(line: string) { Labelled(line, "Title:") }

  /** A labelled line's value: the text after the first ':', stripped. */
  function Value(line: string): string {
    if ':' in line then Strip(line[FirstIndex(line, ':') + 1..]) else ""
  }

  /** `[p.strip() for p in parts]` */
  function StripAll(parts: seq<string>): seq<string>
  {
    seq(|parts|, k requires 0 <= k < |parts| => Strip(parts[k]))
  }

  /** The Prerequisites value read as a list, or None when it is empty or
      "none" in any case and leaves the field as it was. */
  function PrerequisiteList(v: string): Option<seq<string>> {
    if v != "" && Lower(v) != "none" then Some(StripAll(Split(v, ','))) else None
  }

  /** An unlabelled line continues the description while nothing follows it,
      else the code references when they are set, else is dropped. */
  function Continue(t: Topic, line: string): Topic {
    if t.description != "" && t.prerequisites == [] && t.codeReferences == "" then
      t.(description := t.description + " " + line)
    else if t.codeReferences != "" then
      t.(codeReferences := t.codeReferences + " " + line)
    else t
  }

  function Finished(st: Parse): seq<Topic> {
    if st.current.Some? then st.topics + [st.current.value] else st.topics
  }

  /** A non-title line read into the current topic. */
  function FieldStep(t: Topic, line: string): Topic {
    if Labelled(line, "Description:") then t.(description := Value(line))
    else if Labelled(line, "Prerequisites:") then
      var ps := PrerequisiteList(Value(line));
      if ps.Some? then t.(prerequisites := ps.value) else t
    else if Labelled(line, "Code_References:") then t.(codeReferences := Value(line))
    else Continue(t, line)
  }

  /** One stripped line: blank lines and lines before the first title are
      skipped. */
  function Step(st: Parse, line: string): Parse {
    if line == "" then st
    else if IsTitleLine(line) then Parse(Finished(st), Some(Topic(Value(line), "", [], "")))
    else if st.current.None? then st
    else st.(current := Some(FieldStep(st.current.value, line)))
  }

  function Run(lines: seq<string>): Parse
    decreases |lines|
  {
    if lines == [] then Parse([], None)
    else Step(Run(lines[..|lines| - 1]), Strip(lines[|lines| - 1]))
  }

  function Lines(text: string): seq<string> { Split(Strip(text), '\n') }

  /** What _parse_gemini_response returns. */
  function Parsed(text: string): seq<Topic> { Finished(Run(Lines(text))) }

  /** _parse_gemini_response */
  method ParseGeminiResponse(responseText: string) returns (topics: seq<Topic>)
    ensures topics == Parsed(responseText)
  {
    var lines := Split(Strip(responseText), '\n');
    var currentTopic;
    topics, currentTopic := ReadLines(lines);
    if currentTopic.Some? {
      topics := topics + [currentTopic.value];
    }
  }

  /** The loop over the lines: the finished topics and the one being read. */
  method ReadLines(lines: seq<string>) returns (topics: seq<Topic>, currentTopic: Option<Topic>)
    ensures Parse(topics, currentTopic) == Run(lines)
  {
    topics := [];
    currentTopic := None;
    for i := 0 to |lines|
      invariant Run(lines[..i]) == Parse(topics, currentTopic)
    {
      assert lines[..i + 1][..i] == lines[..i];
      topics, currentTopic := ReadLine(topics, currentTopic, Strip(lines[i]));
    }
    assert lines[..|lines|] == lines;
  }

  /** The loop body for one stripped line. */
  method ReadLine(topics: seq<Topic>, currentTopic: Option<Topic>, line: string)
    returns (topics': seq<Topic>, currentTopic': Option<Topic>)
    ensures Parse(topics', currentTopic') == Step(Parse(topics, currentTopic), line)
  {
    topics', currentTopic' := topics, currentTopic;
    if line == "" {
      return;
    }
    if IsTitleLine(line) {
      if currentTopic.Some? {
        topics' := topics + [currentTopic.value];
      }
      currentTopic' := Some(Topic(Value(line), "", [], ""));
    } else if currentTopic.Some? {
      var t := ReadField(currentTopic.value, line);
      currentTopic' := Some(t);
    }
  }

  /** The elif chain after the title test, for a line inside a topic. */
  method ReadField(t: Topic, line: string) returns (u: Topic)
    ensures u == FieldStep(t, line)
  {
    u := t;
    if Labelled(line, "Description:") {
      u := t.(description := Value(line));
    } else if Labelled(line, "Prerequisites:") {
      var prereqText := Value(line);
      if prereqText != "" && Lower(prereqText) != "none" {
        var prereqs := StripAll(Split(prereqText, ','));
        u := t.(prerequisites := prereqs);
      }
    } else if Labelled(line, "Code_References:") {
      u := t.(codeReferences := Value(line));
    } else if t.description != "" && t.prerequisites == [] && t.codeReferences == "" {
      u := t.(description := t.description + " " + line);
    } else if t.codeReferences != "" {
      u := t.(codeReferences := t.codeReferences + " " + line);
    }
  }

  // ---------------------------------------------------------------------------
  // Properties

  /** The titles of the title lines, in order. */
  function TitleLines(lines: seq<string>): seq<string>
    decreases |lines|
  {
    if lines == [] then []
    else
      var line := Strip(lines[|lines| - 1]);
      TitleLines(lines[..|lines| - 1]) + (if IsTitleLine(line) then [Value(line)] else [])
  }

  function Titles(ts: seq<Topic>): seq<string>
    decreases |ts|
  {
    if ts == [] then [] else Titles(ts[..|ts| - 1]) + [ts[|ts| - 1].title]
  }

  lemma TitlesAppend(ts: seq<Topic>, t: Topic)
    ensures Titles(ts + [t]) == Titles(ts) + [t.title]
  {
    assert (ts + [t])[..|ts|] == ts;
  }

  lemma {:induction false} TitlesAt(ts: seq<Topic>)
    ensures |Titles(ts)| == |ts|
    ensures forall k :: 0 <= k < |ts| ==> Titles(ts)[k] == ts[k].title
    decreases |ts|
  {
    if ts != [] {
      TitlesAt(ts[..|ts| - 1]);
    }
  }

  /** A non-title line neither starts a topic nor changes a title. */
  lemma StepKeepsTitles(st: Parse, line: string)
    requires !(line != "" && IsTitleLine(line))
    ensures Titles(Finished(Step(st, line))) == Titles(Finished(st))
    ensures Step(st, line).current.None? <==> st.current.None?
  {
    if line != "" && st.current.Some? {
      var t := st.current.value;
      var u := FieldStep(t, line);
      assert u.title == t.title;
      TitlesAppend(st.topics, t);
      TitlesAppend(st.topics, u);
    }
  }

  /** The topics read so far, the current one included, are one per title
      line, in order, titled by the line's value. */
  lemma {:induction false} RunTitles(lines: seq<string>)
    ensures Titles(Finished(Run(lines))) == TitleLines(lines)
    ensures Run(lines).current.None? <==> TitleLines(lines) == []
    decreases |lines|
  {
    if lines != [] {
      var init := lines[..|lines| - 1];
      var line := Strip(lines[|lines| - 1]);
      assert Run(lines) == Step(Run(init), line);
      assert TitleLines(lines) == TitleLines(init) + (if IsTitleLine(line) then [Value(line)] else []);
      RunTitles(init);
      if line != "" && IsTitleLine(line) {
        StepStartsTitle(Run(init), line);
      } else {
        StepKeepsTitles(Run(init), line);
      }
    }
  }

  /** A title line finishes the current topic and starts one with its title. */
  lemma StepStartsTitle(st: Parse, line: string)
    requires line != "" && IsTitleLine(line)
    ensures Titles(Finished(Step(st, line))) == Titles(Finished(st)) + [Value(line)]
    ensures Step(st, line).current.Some?
  {
    TitlesAppend(Finished(st), Topic(Value(line), "", [], ""));
  }

  /** Exactly one topic per title line, in order. */
  lemma ParsedTitles(text: string)
    ensures |Parsed(text)| == |TitleLines(Lines(text))|
    ensures forall k :: 0 <= k < |Parsed(text)| ==> Parsed(text)[k].title == TitleLines(Lines(text))[k]
  {
    RunTitles(Lines(text));
    TitlesAt(Parsed(text));
  }

  /** Lines before the first title line change nothing. */
  lemma {:induction false} LeadingLinesIgnored(pre: seq<string>, rest: seq<string>)
    requires forall k :: 0 <= k < |pre| ==> !IsTitleLine(Strip(pre[k]))
    ensures Run(pre + rest) == Run(rest)
    decreases |rest|
  {
    if rest == [] {
      assert pre + rest == pre;
      NoTitleNoTopic(pre);
    } else {
      assert (pre + rest)[..|pre + rest| - 1] == pre + rest[..|rest| - 1];
      LeadingLinesIgnored(pre, rest[..|rest| - 1]);
    }
  }

  lemma {:induction false} NoTitleNoTopic(lines: seq<string>)
    requires forall k :: 0 <= k < |lines| ==> !IsTitleLine(Strip(lines[k]))
    ensures Run(lines) == Parse([], None)
    decreases |lines|
  {
    if lines != [] {
      NoTitleNoTopic(lines[..|lines| - 1]);
    }
  }

  /** The lines that are not blank once stripped. */
  function NonBlank(lines: seq<string>): seq<string>
    decreases |lines|
  {
    if lines == [] then []
    else NonBlank(lines[..|lines| - 1]) + (if Strip(lines[|lines| - 1]) == "" then [] else [lines[|lines| - 1]])
  }

  /** Blank lines are skipped: dropping them reads the same topics. */
  lemma {:induction false} BlankLinesIgnored(lines: seq<string>)
    ensures Run(NonBlank(lines)) == Run(lines)
    decreases |lines|
  {
    if lines != [] {
      var init := lines[..|lines| - 1];
      var last := lines[|lines| - 1];
      BlankLinesIgnored(init);
      assert Run(lines) == Step(Run(init), Strip(last));
      if Strip(last) != "" {
        var kept := NonBlank(init) + [last];
        assert NonBlank(lines) == kept;
        assert kept[..|kept| - 1] == NonBlank(init);
        assert Run(kept) == Step(Run(NonBlank(init)), Strip(last));
        assert Run(NonBlank(init)) == Run(init);
      } else {
        assert NonBlank(lines) == NonBlank(init);
      }
    }
  }

  /** A field's value is what follows its tag, stripped, when the tag's
      only ':' is its last character. */
  lemma LabelValue(line: string, tag: string)
    requires StartsWith(line, tag) && |tag| > 0 && tag[|tag| - 1] == ':'
    requires ':' !in tag[..|tag| - 1]
    ensures Value(line) == Strip(line[|tag|..])
  {
    var n := |tag| - 1;
    assert line[..|tag|] == tag;
    assert line[n] == ':';
    var i := FirstIndex(line, ':');
    assert i == n;
  }

  /** A Prerequisites value that is empty or "none" in any case leaves the
      list as it was; any other is split at commas into stripped items,
      none holding a comma. */
  lemma PrerequisiteListProperties(v: string)
    ensures PrerequisiteList(v).None? <==> v == "" || Lower(v) == "none"
    ensures PrerequisiteList(v).Some? ==>
              var ps := PrerequisiteList(v).value;
              && |ps| == |Split(v, ',')|
              && forall k :: 0 <= k < |ps| ==> ',' !in ps[k] && Strip(ps[k]) == ps[k]
  {
    if PrerequisiteList(v).Some? {
      var parts := Split(v, ',');
      var ps := StripAll(parts);
      forall k | 0 <= k < |ps|
        ensures ',' !in ps[k] && Strip(ps[k]) == ps[k]
      {
        StripSubsequence(parts[k]);
        StripFixed(parts[k]);
      }
    }
  }

  /** Stripping only removes characters from the ends. */
  lemma StripSubsequence(s: string)
    ensures forall c :: c in Strip(s) ==> c in s
  {
    var l := TrimLeft(s);
    assert l == s[|s| - |l|..];
    var r := TrimRight(l);
    assert r == l[..|r|];
  }

  /** Every topic starts with the default description, prerequisites and
      code references: a response of one title line reads as one bare topic. */
  lemma TitleOnly(line: string)
    requires IsTitleLine(Strip(line))
    ensures Run([line]) == Parse([], Some(Topic(Value(Strip(line)), "", [], "")))
  {
    assert [line][..0] == [];
  }

  /** An unlabelled line grows the description only while the description
      is set and no prerequisites or code references follow it; otherwise it
      grows the code references when they are set, or is dropped. Title and
      prerequisites never change. */
  lemma ContinuationLine(t: Topic, line: string)
    ensures var u := Continue(t, line);
            && u.title == t.title && u.prerequisites == t.prerequisites
            && (u.description != t.description <==> t.description != "" && t.prerequisites == [] && t.codeReferences == "")
            && (u.codeReferences != t.codeReferences <==> !(t.description != "" && t.prerequisites == [] && t.codeReferences == "") && t.codeReferences != "")
            && (u.description != t.description ==> u.description == t.description + " " + line)
            && (u.codeReferences != t.codeReferences ==> u.codeReferences == t.codeReferences + " " + line)
  {
    var u := Continue(t, line);
    if t.description != "" && t.prerequisites == [] && t.codeReferences == "" {
      assert |u.description| > |t.description|;
    } else if t.codeReferences != "" {
      assert |u.codeReferences| > |t.codeReferences|;
    }
  }
}
