/**
 * Conversation turns and the request schema of the hosted chat-completion
 * service (`GroqClient._convert_langchain_messages` and the shared request
 * fields).  A role/content record is a Python `dict`, modelled as a map from
 * string keys to string values, so that a missing key falls back to the
 * default that `dict.get` is given.
 */
module Messages {

  type Dict = map<string, string>

  /** `d.get(key, default)` */
  function Get(d: Dict, key: string, default: string): string
  {
    if key in d then d[key] else default
  }

  /** The record `{"role": role, "content": content}`. */
  function RoleContent(role: string, content: string): (d: Dict)
    ensures d.Keys == {"role", "content"}
    ensures Get(d, "role", "") == role && Get(d, "content", "") == content
  {
    map["role" := role, "content" := content]
  }

  /**
   * A turn as a caller may hand it over: one of the three tagged message
   * classes, a plain role/content dict, or any other value, which is carried
   * here by its `str()` form.
   */
  datatype Turn =
    | SystemMessage(content: string)
    | HumanMessage(content: string)
    | AIMessage(content: string)
    | RawDict(fields: Dict)
    | Other(text: string)

  /** The roles a converted tagged message can carry. */
  const Roles: set<string> := {"system", "user", "assistant"}

  /** One step of the conversion loop. */
  function ConvertTurn(t: Turn): (d: Dict)
    ensures t.RawDict? ==> d == t.fields
    ensures !t.RawDict? ==> d.Keys == {"role", "content"} && d["role"] in Roles
    ensures !t.RawDict? ==> d["content"] == (if t.Other? then t.text else t.content)
    ensures !t.RawDict? ==> (d["role"] == "system" <==> t.SystemMessage?)
    ensures !t.RawDict? ==> (d["role"] == "assistant" <==> t.AIMessage?)
  {
    match t
    case SystemMessage(c) => RoleContent("system", c)
    case HumanMessage(c) => RoleContent("user", c)
    case AIMessage(c) => RoleContent("assistant", c)
    case RawDict(d) => d
    case Other(text) => RoleContent("user", text)
  }

  /** The converted list, element by element. */
  function Converted(messages: seq<Turn>): seq<Dict>
  {
    seq(|messages|, i requires 0 <= i < |messages| => ConvertTurn(messages[i]))
  }

  /** `_convert_langchain_messages`: appends one record per input turn. */
  method ConvertMessages(messages: seq<Turn>) returns (converted: seq<Dict>)
    ensures |converted| == |messages|
    ensures forall i :: 0 <= i < |messages| ==> converted[i] == ConvertTurn(messages[i])
    ensures converted == Converted(messages)
  {
    converted := [];
    for i := 0 to |messages|
      invariant |converted| == i
      invariant forall k :: 0 <= k < i ==> converted[k] == ConvertTurn(messages[k])
    {
      var msg := messages[i];
      var record: Dict;
      match msg {
        case SystemMessage(c) => record := RoleContent("system", c);
        case HumanMessage(c) => record := RoleContent("user", c);
        case AIMessage(c) => record := RoleContent("assistant", c);
        case RawDict(d) => record := d;
        case Other(text) => record := RoleContent("user", text);
      }
      converted := converted + [record];
    }
  }

  /** Dicts handed over as they are. */
  function AsTurns(records: seq<Dict>): (turns: seq<Turn>)
    ensures |turns| == |records|
    ensures forall i :: 0 <= i < |records| ==> turns[i] == RawDict(records[i])
  {
    seq(|records|, i requires 0 <= i < |records| => RawDict(records[i]))
  }

  /** Dicts pass through the conversion untouched. */
  lemma {:induction false} ConvertDicts(records: seq<Dict>)
    ensures Converted(AsTurns(records)) == records
  {
  }

  /** Converting an already converted list changes nothing. */
  lemma {:induction false} ConvertIdempotent(messages: seq<Turn>)
    ensures Converted(AsTurns(Converted(messages))) == Converted(messages)
  {
    ConvertDicts(Converted(messages));
  }

  /** The model identifier every request names. */
  const Model: string := "llama-3.3-70b-versatile"

  /** Output limit of the chat requests (the routing request uses 20). */
  const ChatMaxTokens: nat := 8192

  /** The part of an outbound request that this client decides (sampling knobs aside). */
  datatype Request = Request(model: string, messages: seq<Dict>, stream: bool, maxTokens: nat)

  /** What the remote service answers to a non-streaming request: the first choice's text, or the raised error's text. */
  datatype Completion = Completed(content: string) | Failed(error: string)
}
