/**
 * The chat-completion request both hooks build in `make_api_request`
 * (prepare-commit-msg.py:173-187, keep-a-changelog.py:170-184).
 */
module Request {
  import opened Wrappers

  const Url: string := "https://openrouter.ai/api/v1/chat/completions"

  datatype Message = Message(role: string, content: string)

  /** The JSON body: `stream`, `transforms`, `model` and `messages`. */
  datatype Payload = Payload(stream: bool, transforms: seq<string>, model: string, messages: seq<Message>)

  /** The `Authorization` header value. */
  function Bearer(apiKey: string): string {
    "Bearer " + apiKey
  }

  /** The content of the first message with the given role, as a reader of the request finds it. */
  function ContentOf(msgs: seq<Message>, role: string): Option<string>
  {
    if msgs == [] then None
    else if msgs[0].role == role then Some(msgs[0].content)
    else ContentOf(msgs[1..], role)
  }

  /** The roles of the messages, in order. */
  function Roles(msgs: seq<Message>): (rs: seq<string>)
    ensures |rs| == |msgs| && forall i :: 0 <= i < |msgs| ==> rs[i] == msgs[i].role
  {
    if msgs == [] then [] else [msgs[0].role] + Roles(msgs[1..])
  }

  /**
   * The payload dict: never streamed, the `middle-out` transform, and two messages whose
   * user slot carries `user` (the diff prompt) and system slot `system`, in that order.
   */
  function BuildPayload(model: string, user: string, system: string): (p: Payload)
    ensures !p.stream && p.transforms == ["middle-out"] && p.model == model
    ensures Roles(p.messages) == ["user", "system"]
    ensures ContentOf(p.messages, "user") == Some(user)
    ensures ContentOf(p.messages, "system") == Some(system)
  {
    Payload(false, ["middle-out"], model, [Message("user", user), Message("system", system)])
  }
}
