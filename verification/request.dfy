/**
  The chat-completions request the lab-report tool posts to the local inference
  server: the model identifier, two messages (the fixed system prompt, then the
  user's lab text), the output-length bound and the sampling temperature.
*/
module Request {
  import opened Wrappers

  /** The model the local server is asked to run. */
  const ModelId: string := "Phi-4-mini-instruct-cuda-gpu:5"

  /** Upper bound on the number of tokens in the reply. */
  const MaxTokens: nat := 256

  /** Sampling temperature, as the decimal the request's JSON carries. */
  const Temperature: real := 0.2

  const SystemRole: string := "system"
  const UserRole: string := "user"

  datatype Message = Message(role: string, content: string)

  datatype Payload = Payload(model: string, messages: seq<Message>, maxTokens: nat, temperature: real)

  /** The request body for one lab text. The system prompt is configuration
      and is passed in. */
  function BuildPayload(systemPrompt: string, labText: string): (p: Payload)
    ensures |p.messages| == 2
    ensures p.messages[0].role == SystemRole && p.messages[0].content == systemPrompt
    ensures p.messages[1].role == UserRole && p.messages[1].content == labText
    ensures p.model == ModelId && p.maxTokens == MaxTokens && p.temperature == Temperature
  {
    Payload(ModelId, [Message(SystemRole, systemPrompt), Message(UserRole, labText)], MaxTokens, Temperature)
  }

  /** Where the first message with the given role sits, if any: how a server
      reading the request finds the instruction and the user text. */
  function RoleIndex(messages: seq<Message>, role: string): (r: Option<nat>)
    ensures r.Some? ==> r.value < |messages| && messages[r.value].role == role
    ensures r.Some? ==> forall j :: 0 <= j < r.value ==> messages[j].role != role
    ensures r.None? ==> forall j :: 0 <= j < |messages| ==> messages[j].role != role
  {
    if messages == [] then None
    else if messages[0].role == role then Some(0)
    else match RoleIndex(messages[1..], role)
      case None => None
      case Some(i) => Some(i + 1)
  }

  /** The content of the first message with the given role. */
  function ContentOf(messages: seq<Message>, role: string): Option<string> {
    match RoleIndex(messages, role)
    case None => None
    case Some(i) => Some(messages[i].content)
  }

  /** The request carries the lab text verbatim, and the system prompt, and
      nothing can be confused with either: each role occurs exactly once. */
  lemma PayloadRecoversInputs(systemPrompt: string, labText: string)
    ensures ContentOf(BuildPayload(systemPrompt, labText).messages, UserRole) == Some(labText)
    ensures ContentOf(BuildPayload(systemPrompt, labText).messages, SystemRole) == Some(systemPrompt)
  {
    var m := BuildPayload(systemPrompt, labText).messages;
    assert m[0].role != UserRole;
    assert m[1..][0] == m[1];
  }

  /** The system message comes first and the user message second. */
  lemma SystemBeforeUser(systemPrompt: string, labText: string)
    ensures RoleIndex(BuildPayload(systemPrompt, labText).messages, SystemRole) == Some(0)
    ensures RoleIndex(BuildPayload(systemPrompt, labText).messages, UserRole) == Some(1)
  {
    var m := BuildPayload(systemPrompt, labText).messages;
    assert m[0].role != UserRole;
    assert m[1..][0] == m[1];
  }

  /** Different lab texts give different requests; the same prompt and text
      always give the same request. */
  lemma PayloadInjective(systemPrompt: string, a: string, b: string)
    ensures BuildPayload(systemPrompt, a) == BuildPayload(systemPrompt, b) <==> a == b
  {
    if BuildPayload(systemPrompt, a) == BuildPayload(systemPrompt, b) {
      assert BuildPayload(systemPrompt, a).messages[1].content == a;
    }
  }
}
