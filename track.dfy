/** load_ignore_patterns (cli/brainvibe/commands/track.py): the fixed
    default patterns, followed by one regular expression per usable line of
    the ignore file, each line read as a glob. The file is an input: None
    when it does not exist, otherwise its lines in order. */
module Track {
  import opened Text

  /** The default patterns, as the raw regular-expression strings. */
  const DefaultPatterns: seq<string> := [
    ".*node_modules/.*",
    ".*\\.git/.*",
    ".*\\.brainvibe/.*",
    ".*__pycache__/.*",
    ".*venv/.*",
    ".*\\.env.*",
    ".*\\.md$",
    ".*\\.txt$",
    ".*package-lock\\.json$",
    ".*\\.lock$",
    ".*\\.jpg$",
    ".*\\.jpeg$",
    ".*\\.png$",
    ".*\\.gif$",
    ".*\\.pdf$",
    ".*\\.exe$",
    ".*\\.dll$",
    ".*\\.bin$"
  ]

  /** A stripped line that is neither empty nor a comment. */
  predicate Kept(line: string) {
    var t := Strip(line);
    t != "" && !StartsWith(t, "#")
  }

  /** `line.replace('.', '\\.').replace('*', '.*')` */
  function Glob(line: string): string {
    ReplaceChar(ReplaceChar(line, '.', "\\."), '*', ".*")
  }

  /** `f'.*{pattern}.*'` for the stripped line. */
  function ToPattern(line: string): string {
    ".*" + Glob(Strip(line)) + ".*"
  }

  /** The patterns the file's lines contribute, in file order. */
  function Converted(lines: seq<string>): seq<string>
    decreases |lines|
  {
    if lines == [] then []
    else
      var last := lines[|lines| - 1];
      Converted(lines[..|lines| - 1]) + (if Kept(last) then [ToPattern(last)] else [])
  }

  /** The prefix of `lines` one line longer adds that line's pattern, if any. */
  lemma ConvertedStep(lines: seq<string>, i: nat)
    requires i < |lines|
    ensures Converted(lines[..i + 1]) == Converted(lines[..i]) + (if Kept(lines[i]) then [ToPattern(lines[i])] else [])
  {
    assert lines[..i + 1][..i] == lines[..i];
  }

  /** What load_ignore_patterns returns: the defaults always come first,
      in their order, and without a file they are all. */
  function Patterns(ignoreFile: Option<seq<string>>): (r: seq<string>)
    ensures |r| >= |DefaultPatterns| == 18 && r[..18] == DefaultPatterns
    ensures ignoreFile.None? ==> r == DefaultPatterns
  {
    DefaultPatterns + (if ignoreFile.Some? then Converted(ignoreFile.value) else [])
  }

  /** The body of load_ignore_patterns' loop for one line: strip it, skip
      it when blank or a comment, otherwise turn its glob into a regex. */
  method LinePattern(raw: string) returns (keep: bool, pattern: string)
    ensures keep == Kept(raw)
    ensures keep ==> pattern == ToPattern(raw)
  {
    var line := Strip(raw);
    keep := line != "" && !StartsWith(line, "#");
    pattern := "";
    if keep {
      var glob := ReplaceChar(ReplaceChar(line, '.', "\\."), '*', ".*");
      pattern := ".*" + glob + ".*";
    }
  }

  /** load_ignore_patterns, with the ignore file's lines given. */
  method LoadIgnorePatterns(ignoreFile: Option<seq<string>>) returns (patterns: seq<string>)
    ensures patterns == Patterns(ignoreFile)
  {
    patterns := DefaultPatterns;
    if ignoreFile.None? {
      return;
    }
    var lines := ignoreFile.value;
    for i := 0 to |lines|
      invariant patterns == DefaultPatterns + Converted(lines[..i])
    {
      ConvertedStep(lines, i);
      var keep, pattern := LinePattern(lines[i]);
      if keep {
        patterns := patterns + [pattern];
      }
    }
    assert lines[..|lines|] == lines;
  }

  // ---------------------------------------------------------------------------
  // Properties

  /** The file's lines contribute line by line: the patterns of two runs of
      lines are those of the first followed by those of the second. */
  lemma {:induction false} ConvertedAppend(a: seq<string>, b: seq<string>)
    ensures Converted(a + b) == Converted(a) + Converted(b)
    decreases |b|
  {
    if b == [] {
      assert a + b == a;
    } else {
      var init := b[..|b| - 1];
      assert (a + b)[..|a + b| - 1] == a + init;
      ConvertedAppend(a, init);
    }
  }

  /** One usable line gives exactly its pattern; a blank or comment line
      gives nothing. */
  lemma ConvertedLine(line: string)
    ensures Kept(line) ==> Converted([line]) == [ToPattern(line)]
    ensures !Kept(line) ==> Converted([line]) == []
  {
    assert [line][..0] == [];
  }

  /** The number of usable lines. */
  function KeptCount(lines: seq<string>): nat
    decreases |lines|
  {
    if lines == [] then 0 else KeptCount(lines[..|lines| - 1]) + (if Kept(lines[|lines| - 1]) then 1 else 0)
  }

  /** One pattern per usable line, each wrapped in `.*` on both sides. */
  lemma {:induction false} ConvertedShape(lines: seq<string>)
    ensures |Converted(lines)| == KeptCount(lines)
    ensures forall k :: 0 <= k < |Converted(lines)| ==>
              StartsWith(Converted(lines)[k], ".*") && Converted(lines)[k][|Converted(lines)[k]| - 2..] == ".*"
    decreases |lines|
  {
    if lines != [] {
      ConvertedShape(lines[..|lines| - 1]);
    }
  }

  /** A character of the glob, translated on its own: a dot is escaped, a
      star becomes `.*`, anything else stands for itself. */
  function GlobChar(c: char): string {
    if c == '.' then "\\." else if c == '*' then ".*" else [c]
  }

  /** The glob translated character by character. */
  function GlobEach(s: string): string
    decreases |s|
  {
    if s == [] then [] else GlobChar(s[0]) + GlobEach(s[1..])
  }

  /** Escaping runs before wildcard expansion, so the two replacements
      amount to translating each character on its own: the dot a star
      introduces is not escaped. */
  lemma {:induction false} GlobPerChar(s: string)
    ensures Glob(s) == GlobEach(s)
    decreases |s|
  {
    if s != [] {
      var head := if s[0] == '.' then "\\." else [s[0]];
      assert ReplaceChar(s, '.', "\\.") == head + ReplaceChar(s[1..], '.', "\\.");
      ReplaceCharConcat(head, ReplaceChar(s[1..], '.', "\\."), '*', ".*");
      if s[0] == '*' {
        assert ReplaceChar(head, '*', ".*") == ".*" + ReplaceChar([], '*', ".*");
      }
      GlobPerChar(s[1..]);
    }
  }

  /** The other order would escape the star's dot: `*` becomes `\.*` instead
      of `.*`. */
  lemma OrderMatters()
    ensures Glob("*") == ".*"
    ensures ReplaceChar(ReplaceChar("*", '*', ".*"), '.', "\\.") == "\\.*"
  {
    GlobPerChar("*");
    assert ReplaceChar("*", '*', ".*") == ".*" + ReplaceChar([], '*', ".*");
    assert ReplaceChar(".*", '.', "\\.") == "\\." + ReplaceChar("*", '.', "\\.");
  }
}
