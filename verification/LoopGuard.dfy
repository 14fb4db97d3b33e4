/**
 The guard against repeated tool calls: two backward scans over the history and
 the two hooks that use them.
 */
module LoopGuard {
  import opened Wrappers

  // `args` stands for the rendering of the arguments with sorted keys.
  datatype Call = Call(id: Option<string>, name: Option<string>, args: int)
  {
    function Key(): Signature { Signature(name, args) }
    predicate Identified() { id.Some? && id.value != "" }
  }

  datatype Signature = Signature(name: Option<string>, args: int)

  // `Stopped` is the AI message that ends a run; its count includes the call
  // that was executed.
  datatype Message =
    | Human
    | Ai(calls: seq<Call>)
    | Stopped(count: nat, about: string)
    | Tool(callId: string, tool: Option<string>, refusal: bool)
  {
    predicate IsAi() { Ai? || Stopped? }
    predicate Issues() { Ai? && calls != [] }
  }

  // Python's `name or fallback`.
  function Or(name: Option<string>, fallback: string): string {
    if name.None? || name.value == "" then fallback else name.value
  }

  // ---- The two scans ----

  function FindCall(calls: seq<Call>, id: string): Option<Signature> {
    if calls == [] then None
    else if calls[0].id == Some(id) then Some(calls[0].Key())
    else FindCall(calls[1..], id)
  }

  // The call `id` in the nearest message that issues calls.
  function Issued(messages: seq<Message>, id: string): Option<Signature> {
    if messages == [] then None
    else
      var last := messages[|messages| - 1];
      if last.Issues() then FindCall(last.calls, id) else Issued(messages[..|messages| - 1], id)
  }

  function Previous(messages: seq<Message>): Option<Signature> {
    if messages == [] then None
    else
      var front, last := messages[..|messages| - 1], messages[|messages| - 1];
      if last.Tool? then Issued(front, last.callId) else Previous(front)
  }

  // The refusals that close the history, after `count` of them and with the name so far.
  function Trailing(messages: seq<Message>, count: nat, name: string): (nat, string) {
    if messages == [] then (count, name)
    else
      var front, last := messages[..|messages| - 1], messages[|messages| - 1];
      if last.IsAi() then Trailing(front, count, name)
      else if last.Tool? && last.refusal then Trailing(front, count + 1, Or(last.tool, name))
      else (count, name)
  }

  method PreviousSignature(messages: seq<Message>) returns (signature: Option<Signature>)
    ensures signature == Previous(messages)
  {
    var index: nat := |messages|;
    assert messages[..index] == messages;
    while index > 0
      invariant index <= |messages| && Previous(messages[..index]) == Previous(messages)
    {
      assert messages[..index][..index - 1] == messages[..index - 1];
      index := index - 1;
      if messages[index].Tool? {
        signature := IssuedBefore(messages, index, messages[index].callId);
        return;
      }
    }
    return None;
  }

  // The inner scan, over the messages before a tool result.
  method IssuedBefore(messages: seq<Message>, index: nat, id: string) returns (signature: Option<Signature>)
    requires index <= |messages|
    ensures signature == Issued(messages[..index], id)
  {
    var j: nat := index;
    while j > 0
      invariant j <= index && Issued(messages[..j], id) == Issued(messages[..index], id)
    {
      assert messages[..j][..j - 1] == messages[..j - 1];
      j := j - 1;
      if messages[j].Issues() {
        var calls := messages[j].calls;
        for k := 0 to |calls|
          invariant FindCall(calls[k..], id) == FindCall(calls, id)
        {
          assert calls[k..][1..] == calls[k + 1..];
          if calls[k].id == Some(id) {
            return Some(calls[k].Key());
          }
        }
        return None;
      }
    }
    return None;
  }

  method TrailingRefusals(messages: seq<Message>) returns (count: nat, name: string)
    ensures (count, name) == Trailing(messages, 0, "tool")
  {
    count, name := 0, "tool";
    var index: nat := |messages|;
    assert messages[..index] == messages;
    while index > 0
      invariant index <= |messages|
      invariant Trailing(messages[..index], count, name) == Trailing(messages, 0, "tool")
    {
      assert messages[..index][..index - 1] == messages[..index - 1];
      var message := messages[index - 1];
      index := index - 1;
      if message.IsAi() {
        continue;
      }
      if message.Tool? && message.refusal {
        count := count + 1;
        name := Or(message.tool, name);
        continue;
      }
      break;
    }
  }

  // ---- The hooks ----

  function Refusal(call: Call): Message {
    Tool(Or(call.id, "repeated-tool-call"), Some(Or(call.name, "tool")), true)
  }

  function BlockedSpec(messages: seq<Message>, call: Call): Option<Message> {
    if Previous(messages) == Some(call.Key()) then Some(Refusal(call)) else None
  }

  method Blocked(messages: seq<Message>, call: Call) returns (refusal: Option<Message>)
    ensures refusal == BlockedSpec(messages, call)
  {
    var previous := PreviousSignature(messages);
    if previous != Some(call.Key()) {
      return None;
    }
    return Some(Refusal(call));
  }

  // The message that ends the run, if the run ends here.
  function StopSpec(messages: seq<Message>, limit: nat): Option<Message> {
    var (count, name) := Trailing(messages, 0, "tool");
    if count < limit then None else Some(Stopped(count + 1, name))
  }

  method BeforeModel(messages: seq<Message>, limit: nat) returns (stop: Option<Message>)
    ensures stop == StopSpec(messages, limit)
  {
    var count, name := TrailingRefusals(messages);
    if count < limit {
      return None;
    }
    return Some(Stopped(count + 1, name));
  }
}
