/** validate_topic (backend/code_tracker/utils/llm_utils.py): a topic
    dictionary from the model is rejected when a required field is missing,
    and otherwise repaired in place: a malformed id is lower-cased with
    spaces turned into hyphens, and non-list prerequisites become []. */
module LlmUtils {
  import opened Text

  /** The values the checks tell apart. */
  datatype Value = Str(s: string) | List(items: seq<Value>) | Other

  const RequiredFields: seq<string> := ["topic_id", "title", "description"]

  /** The dictionary the function receives and mutates. */
  class TopicDict {
    var fields: map<string, Value>

    constructor (fields: map<string, Value>)
      ensures this.fields == fields
    {
      this.fields := fields;
    }
  }

  /** `c.islower() or c.isdigit() or c == '-'` */
  predicate IdChar(c: char) { IsLower(c) || IsDigit(c) || c == '-' }

  predicate ValidId(id: string) { forall i :: 0 <= i < |id| ==> IdChar(id[i]) }

  /** `topic_id.lower().replace(' ', '-')` */
  function FixTopicId(id: string): string { ReplaceChar(Lower(id), ' ', "-") }

  predicate HasRequired(fields: map<string, Value>)
    ensures HasRequired(fields) ==> "topic_id" in fields
  {
    assert RequiredFields[0] == "topic_id";
    forall k :: 0 <= k < |RequiredFields| ==> RequiredFields[k] in fields
  }

  /** The repaired dictionary, for one holding every required field. */
  function Repaired(fields: map<string, Value>): map<string, Value>
    requires "topic_id" in fields && fields["topic_id"].Str?
  {
    var id := fields["topic_id"].s;
    var f := if ValidId(id) then fields else fields["topic_id" := Str(FixTopicId(id))];
    if "prerequisites" in f && !f["prerequisites"].List? then f["prerequisites" := List([])] else f
  }

  /** validate_topic: null (None) when a required field is missing, the
      dictionary untouched; otherwise the same dictionary, repaired. The
      id is taken to be a string, as the caller's JSON supplies it. */
  method ValidateTopic(topic: TopicDict) returns (r: TopicDict?)
    requires "topic_id" in topic.fields ==> topic.fields["topic_id"].Str?
    modifies topic
    ensures !HasRequired(old(topic.fields)) ==> r == null && topic.fields == old(topic.fields)
    ensures HasRequired(old(topic.fields)) ==> r == topic && topic.fields == Repaired(old(topic.fields))
  {
    for n := 0 to |RequiredFields|
      invariant forall k :: 0 <= k < n ==> RequiredFields[k] in topic.fields
    {
      if RequiredFields[n] !in topic.fields {
        return null;
      }
    }
    assert RequiredFields[0] in topic.fields;
    var topicId := topic.fields["topic_id"].s;
    if !ValidId(topicId) {
      var fixedTopicId := FixTopicId(topicId);
      topic.fields := topic.fields["topic_id" := Str(fixedTopicId)];
    }
    if "prerequisites" in topic.fields && !topic.fields["prerequisites"].List? {
      topic.fields := topic.fields["prerequisites" := List([])];
    }
    r := topic;
  }

  // ---------------------------------------------------------------------------
  // Properties

  /** Replacing ' ' by the one character '-' works character by character. */
  lemma {:induction false} ReplaceSpaceAt(s: string)
    ensures |ReplaceChar(s, ' ', "-")| == |s|
    ensures forall i :: 0 <= i < |s| ==> ReplaceChar(s, ' ', "-")[i] == (if s[i] == ' ' then '-' else s[i])
    decreases |s|
  {
    if s != [] {
      ReplaceSpaceAt(s[1..]);
    }
  }

  /** The repaired id keeps its length and has no upper-case letter and no
      space; each character is the lower-cased original, a space becoming '-'. */
  lemma FixTopicIdShape(id: string)
    ensures |FixTopicId(id)| == |id|
    ensures forall i :: 0 <= i < |id| ==> FixTopicId(id)[i] == (if id[i] == ' ' then '-' else ToLower(id[i]))
    ensures forall i :: 0 <= i < |id| ==> !IsUpper(FixTopicId(id)[i]) && FixTopicId(id)[i] != ' '
  {
    ReplaceSpaceAt(Lower(id));
  }

  /** The repair yields a valid id exactly when every character was a
      letter, a digit, a space or a hyphen: any other character survives it. */
  lemma FixTopicIdValid(id: string)
    ensures ValidId(FixTopicId(id)) <==> forall i :: 0 <= i < |id| ==> IsAlnum(id[i]) || id[i] == ' ' || id[i] == '-'
  {
    FixTopicIdShape(id);
    if ValidId(FixTopicId(id)) {
      forall i | 0 <= i < |id|
        ensures IsAlnum(id[i]) || id[i] == ' ' || id[i] == '-'
      {
        assert IdChar(FixTopicId(id)[i]);
      }
    }
  }

  /** A valid id is left as it is by the repair, and the repair is idempotent. */
  lemma FixTopicIdFixed(id: string)
    ensures ValidId(id) ==> FixTopicId(id) == id
    ensures FixTopicId(FixTopicId(id)) == FixTopicId(id)
  {
    FixTopicIdShape(id);
    FixTopicIdShape(FixTopicId(id));
  }

  /** Repair keeps the keys, touches only topic_id and prerequisites, leaves
      a valid id and list prerequisites, and repairing twice is repairing once. */
  lemma RepairedProperties(fields: map<string, Value>)
    requires "topic_id" in fields && fields["topic_id"].Str?
    ensures Repaired(fields).Keys == fields.Keys
    ensures forall k :: k in fields && k != "topic_id" && k != "prerequisites" ==> Repaired(fields)[k] == fields[k]
    ensures "prerequisites" in fields ==> Repaired(fields)["prerequisites"].List?
    ensures "prerequisites" in fields && fields["prerequisites"].List? ==> Repaired(fields)["prerequisites"] == fields["prerequisites"]
    ensures ValidId(fields["topic_id"].s) ==> Repaired(fields)["topic_id"] == fields["topic_id"]
    ensures Repaired(fields)["topic_id"] == Str(FixTopicId(fields["topic_id"].s)) || ValidId(fields["topic_id"].s)
    ensures Repaired(Repaired(fields)) == Repaired(fields)
  {
    FixTopicIdFixed(fields["topic_id"].s);
  }
}
