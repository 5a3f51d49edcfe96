/** Topic identifier normalisation and similarity matching
    (backend/app/services/gemini_service.py). */
module TopicIds {
  import opened Text
  import opened TopicStore

  /** The characters a normalised id may hold. */
  predicate IdChar(c: char) { IsAlnum(c) || c == '_' }

  /** lower() followed by replace(" ", "_"), on one character. */
  function NormChar(c: char): char {
    var d := ToLower(c);
    if d == ' ' then '_' else d
  }

  /** normalize_topic_id: lower-case, spaces to `_`, then drop every
      character that is neither alphanumeric nor `_`. */
  function NormalizeTopicId(s: string): (r: string)
    ensures |r| <= |s|
    ensures forall i :: 0 <= i < |r| ==> IdChar(r[i]) && !IsUpper(r[i]) && r[i] != ' '
    decreases |s|
  {
    if s == [] then []
    else
      var c := NormChar(s[0]);
      (if IdChar(c) then [c] else []) + NormalizeTopicId(s[1..])
  }

  /** Normalisation works character by character. */
  lemma {:induction false} NormalizeConcat(a: string, b: string)
    ensures NormalizeTopicId(a + b) == NormalizeTopicId(a) + NormalizeTopicId(b)
    decreases |a|
  {
    if a == [] {
      assert a + b == b;
    } else {
      assert (a + b)[0] == a[0];
      assert (a + b)[1..] == a[1..] + b;
      NormalizeConcat(a[1..], b);
    }
  }

  /** A space becomes exactly one `_`; any other whitespace is dropped. */
  lemma NormalizeWhitespace(a: string, c: char, b: string)
    requires IsSpace(c)
    ensures NormalizeTopicId(a + [c] + b)
              == NormalizeTopicId(a) + (if c == ' ' then "_" else "") + NormalizeTopicId(b)
  {
    NormalizeConcat(a + [c], b);
    NormalizeConcat(a, [c]);
    assert [c][1..] == [];
  }

  /** Upper-case letters come out lower-cased; nothing else about them changes. */
  lemma NormalizeUpper(a: string, c: char, b: string)
    requires IsUpper(c)
    ensures NormalizeTopicId(a + [c] + b) == NormalizeTopicId(a) + [ToLower(c)] + NormalizeTopicId(b)
  {
    NormalizeConcat(a + [c], b);
    NormalizeConcat(a, [c]);
    assert [c][1..] == [];
  }

  /** A string already made of lower-case id characters is its own normal form. */
  lemma {:induction false} NormalizeFixed(s: string)
    requires forall i :: 0 <= i < |s| ==> IdChar(s[i]) && !IsUpper(s[i])
    ensures NormalizeTopicId(s) == s
    decreases |s|
  {
    if s != [] {
      NormalizeFixed(s[1..]);
      assert [s[0]] + s[1..] == s;
    }
  }

  /** normalize_topic_id is idempotent. */
  lemma NormalizeIdempotent(s: string)
    ensures NormalizeTopicId(NormalizeTopicId(s)) == NormalizeTopicId(s)
  {
    NormalizeFixed(NormalizeTopicId(s));
  }

  // ---------------------------------------------------------------------------
  // find_similar_topic

  /** The display form of the argument: `_` to space, lower-cased. */
  function Display(s: string): string {
    Lower(ReplaceChar(s, '_', " "))
  }

  /** Python's `a in b or b in a`. */
  predicate Overlap(a: string, b: string) {
    IsSubstring(a, b) || IsSubstring(b, a)
  }

  /** The test of the scan: the ids overlap and so do the display forms. */
  predicate SimilarTo(topicId: string, existing: map<string, TopicRec>, k: string) {
    && k in existing
    && Overlap(NormalizeTopicId(topicId), k)
    && Overlap(Display(topicId), Lower(existing[k].displayName))
  }

  /** The index of the first similar key of `order`, or |order| if none is. */
  function FirstSimilar(topicId: string, order: seq<string>, existing: map<string, TopicRec>): (i: nat)
    ensures i <= |order|
    ensures forall j :: 0 <= j < i ==> !SimilarTo(topicId, existing, order[j])
    ensures i < |order| ==> SimilarTo(topicId, existing, order[i])
    decreases |order|
  {
    if order == [] then 0
    else if SimilarTo(topicId, existing, order[0]) then 0
    else 1 + FirstSimilar(topicId, order[1..], existing)
  }

  /** find_similar_topic over `existing`, iterated in `order`: the normalised id
      itself when it is a key; otherwise the first key in order that is similar;
      otherwise None. */
  function FindSimilarTopic(topicId: string, order: seq<string>, existing: map<string, TopicRec>): (r: Option<string>)
    ensures r.Some? ==> r.value in existing
    ensures NormalizeTopicId(topicId) in existing ==> r == Some(NormalizeTopicId(topicId))
    ensures NormalizeTopicId(topicId) !in existing && r.Some? ==>
              exists i :: 0 <= i < |order| && order[i] == r.value && SimilarTo(topicId, existing, order[i])
                          && forall j :: 0 <= j < i ==> !SimilarTo(topicId, existing, order[j])
    ensures NormalizeTopicId(topicId) !in existing && r.None? ==>
              forall j :: 0 <= j < |order| ==> !SimilarTo(topicId, existing, order[j])
  {
    var nid := NormalizeTopicId(topicId);
    if nid in existing then Some(nid)
    else
      var i := FirstSimilar(topicId, order, existing);
      if i < |order| then Some(order[i]) else None
  }

  /** find_similar_topic as the source runs it: the exact-key test, then a
      scan of the keys in order that returns at the first similar one. */
  method FindSimilar(topicId: string, order: seq<string>, existing: map<string, TopicRec>) returns (r: Option<string>)
    ensures r == FindSimilarTopic(topicId, order, existing)
  {
    var normalizedId := NormalizeTopicId(topicId);
    if normalizedId in existing {
      return Some(normalizedId);
    }
    var k := 0;
    while k < |order|
      invariant 0 <= k <= |order|
      invariant forall j :: 0 <= j < k ==> !SimilarTo(topicId, existing, order[j])
    {
      var existingId := order[k];
      if existingId in existing && Overlap(normalizedId, existingId) {
        var targetDisplay := Display(topicId);
        var existingDisplay := Lower(existing[existingId].displayName);
        if Overlap(targetDisplay, existingDisplay) {
          assert SimilarTo(topicId, existing, order[k]);
          return Some(existingId);
        }
      }
      k := k + 1;
    }
    return None;
  }

  /** A match always shares a slice of its id with the normalised input. */
  lemma FindSimilarOverlaps(topicId: string, order: seq<string>, existing: map<string, TopicRec>)
    requires FindSimilarTopic(topicId, order, existing).Some?
    ensures Overlap(NormalizeTopicId(topicId), FindSimilarTopic(topicId, order, existing).value)
  {
    SubstringOfSelf(NormalizeTopicId(topicId));
  }

  /** An empty input matches the first key in order (unless "" is a key),
      since "" is a substring of everything. */
  lemma FindSimilarEmptyInput(order: seq<string>, existing: map<string, TopicRec>)
    requires |order| > 0 && order[0] in existing
    ensures FindSimilarTopic("", order, existing) == Some(if "" in existing then "" else order[0])
  {
    EmptyIsSubstring(order[0]);
    EmptyIsSubstring(Lower(existing[order[0]].displayName));
  }

  /** An example of over-merging: "react" is taken for "react_router". */
  lemma FindSimilarOverMerges()
    ensures FindSimilarTopic("react", ["react_router"],
              map["react_router" := TopicRec("react_router", "React Router", NotLearned, [], "", [])])
            == Some("react_router")
  {
    var existing := map["react_router" := TopicRec("react_router", "React Router", NotLearned, [], "", [])];
    ReactForms();
    ReactRouterDisplay();
    ReactRouterId();
    assert IsSubstring(Display("react"), Lower(existing["react_router"].displayName));
    assert SimilarTo("react", existing, "react_router");
    assert FirstSimilar("react", ["react_router"], existing) == 0;
  }

  lemma ReactForms()
    ensures NormalizeTopicId("react") == "react" && Display("react") == "react"
  {
    NormalizeFixed("react");
    assert ReplaceChar("react", '_', " ") == "react";
  }

  lemma ReactRouterId()
    ensures IsSubstring("react", "react_router")
  {
    var s := "react_router";
    assert s[..5] == "react";
    assert StartsWith(s, "react");
  }

  lemma ReactRouterDisplay()
    ensures StartsWith(Lower("React Router"), "react")
  {
    var d := Lower("React Router");
    assert d[0] == 'r' && d[1] == 'e' && d[2] == 'a' && d[3] == 'c' && d[4] == 't';
    assert d[..5] == "react";
  }

  /** A first match found within a prefix stays the first match after more
      keys are appended. */
  lemma {:induction false} FirstSimilarPrefix(topicId: string, p: seq<string>, q: seq<string>, existing: map<string, TopicRec>)
    requires FirstSimilar(topicId, p, existing) < |p|
    ensures FirstSimilar(topicId, p + q, existing) == FirstSimilar(topicId, p, existing)
    decreases |p|
  {
    assert (p + q)[0] == p[0];
    if !SimilarTo(topicId, existing, p[0]) {
      assert (p + q)[1..] == p[1..] + q;
      FirstSimilarPrefix(topicId, p[1..], q, existing);
    }
  }

  /** The scan only looks at the keys of `order` and their display names. */
  lemma {:induction false} FirstSimilarFrame(topicId: string, order: seq<string>, m: map<string, TopicRec>, m': map<string, TopicRec>)
    requires forall k :: k in order ==> (k in m <==> k in m')
    requires forall k :: k in order && k in m ==> m[k].displayName == m'[k].displayName
    ensures FirstSimilar(topicId, order, m) == FirstSimilar(topicId, order, m')
    decreases |order|
  {
    if order != [] {
      FirstSimilarFrame(topicId, order[1..], m, m');
    }
  }

  /** Resolution is stable as the store grows: appending new keys and changing
      anything but the display names of the keys already there keeps a match,
      provided the normalised input itself has not become a key. */
  lemma FindSimilarStable(topicId: string, order: seq<string>, m: map<string, TopicRec>,
                          extra: seq<string>, m': map<string, TopicRec>)
    requires FindSimilarTopic(topicId, order, m).Some?
    requires m.Keys <= m'.Keys
    requires forall k :: k in order ==> (k in m <==> k in m')
    requires forall k :: k in order && k in m ==> m[k].displayName == m'[k].displayName
    requires NormalizeTopicId(topicId) in m || NormalizeTopicId(topicId) !in m'
    ensures FindSimilarTopic(topicId, order + extra, m') == FindSimilarTopic(topicId, order, m)
  {
    if NormalizeTopicId(topicId) !in m {
      FirstSimilarFrame(topicId, order, m, m');
      FirstSimilarPrefix(topicId, order, extra, m');
    }
  }
}
