/**
 The client's transcript while a stream is folded into it: a message that was
 sent before is overwritten where it stands, any other one is appended.
 */
module StreamFold {
  import opened Wrappers

  // An empty identifier is the source's absent one.
  datatype Chunk = Chunk(id: string, content: string)

  // The first message with the identifier, if any.
  function Slot(messages: seq<Chunk>, id: string): (i: Option<nat>)
    ensures i.Some? ==> i.value < |messages| && messages[i.value].id == id
    ensures i.None? <==> forall m | m in messages :: m.id != id
  {
    if messages == [] then None
    else if messages[0].id == id then Some(0)
    else
      var rest := Slot(messages[1..], id);
      assert messages == [messages[0]] + messages[1..];
      if rest.Some? then Some(rest.value + 1) else None
  }

  function FoldOne(messages: seq<Chunk>, chunk: Chunk): seq<Chunk> {
    var i := if chunk.id == "" then None else Slot(messages, chunk.id);
    if i.Some? then messages[i.value := chunk] else messages + [chunk]
  }

  method ReplaceById(messages: seq<Chunk>, chunk: Chunk) returns (after: seq<Chunk>, found: bool)
    ensures found <==> chunk.id != "" && exists m | m in messages :: m.id == chunk.id
    ensures after == if found then FoldOne(messages, chunk) else messages
  {
    if chunk.id == "" {
      return messages, false;
    }
    for i := 0 to |messages|
      invariant forall j | 0 <= j < i :: messages[j].id != chunk.id
    {
      if messages[i].id == chunk.id {
        SlotIs(messages, chunk.id, i);
        return messages[i := chunk], true;
      }
    }
    return messages, false;
  }

  lemma {:induction false} SlotIs(messages: seq<Chunk>, id: string, i: nat)
    requires i < |messages| && messages[i].id == id && forall j | 0 <= j < i :: messages[j].id != id
    ensures Slot(messages, id) == Some(i)
  {
    if i > 0 {
      SlotIs(messages[1..], id, i - 1);
    }
  }

  method Fold(messages: seq<Chunk>, chunk: Chunk) returns (after: seq<Chunk>)
    ensures after == FoldOne(messages, chunk)
  {
    var found;
    after, found := ReplaceById(messages, chunk);
    if !found {
      after := after + [chunk];
    }
  }

  // ---- A whole stream ----

  function FoldAll(chunks: seq<Chunk>): seq<Chunk> {
    if chunks == [] then [] else FoldOne(FoldAll(chunks[..|chunks| - 1]), chunks[|chunks| - 1])
  }

  // The chunks that nobody with their identifier came before.
  function Firsts(chunks: seq<Chunk>): seq<Chunk> {
    if chunks == [] then []
    else
      var front, last := chunks[..|chunks| - 1], chunks[|chunks| - 1];
      if Repeats(front, last) then Firsts(front) else Firsts(front) + [last]
  }

  // The last version of `c` in the stream.
  function Latest(chunks: seq<Chunk>, c: Chunk): Chunk {
    if chunks == [] || c.id == "" then c
    else if chunks[|chunks| - 1].id == c.id then chunks[|chunks| - 1]
    else Latest(chunks[..|chunks| - 1], c)
  }

  function Current(chunks: seq<Chunk>, firsts: seq<Chunk>): seq<Chunk> {
    seq(|firsts|, i requires 0 <= i < |firsts| => Latest(chunks, firsts[i]))
  }

  predicate Repeats(front: seq<Chunk>, last: Chunk) {
    last.id != "" && exists c | c in front :: c.id == last.id
  }

  ghost predicate DistinctIds(messages: seq<Chunk>) {
    forall i, j | 0 <= i < j < |messages| && messages[i].id != "" :: messages[i].id != messages[j].id
  }

  lemma {:induction false} FirstsIds(chunks: seq<Chunk>, id: string)
    requires id != ""
    ensures (exists f | f in Firsts(chunks) :: f.id == id) <==> exists c | c in chunks :: c.id == id
  {
    if chunks != [] {
      var front, last := chunks[..|chunks| - 1], chunks[|chunks| - 1];
      FirstsIds(front, id);
      assert chunks == front + [last];
      if last.id == id {
        assert last in chunks;
        if !Repeats(front, last) {
          assert last in Firsts(chunks);
        }
      }
    }
  }

  lemma {:induction false} FirstsDistinct(chunks: seq<Chunk>)
    ensures DistinctIds(Firsts(chunks))
  {
    if chunks != [] {
      var front, last := chunks[..|chunks| - 1], chunks[|chunks| - 1];
      FirstsDistinct(front);
      if last.id != "" && !Repeats(front, last) {
        FirstsIds(front, last.id);
        assert forall f | f in Firsts(front) :: f.id != last.id;
      }
    }
  }

  lemma {:induction false} LatestKeepsId(chunks: seq<Chunk>, c: Chunk)
    ensures Latest(chunks, c).id == c.id
  {
    if chunks != [] {
      LatestKeepsId(chunks[..|chunks| - 1], c);
    }
  }

  lemma LatestOfNew(front: seq<Chunk>, last: Chunk)
    ensures Latest(front + [last], last) == last
    ensures forall c: Chunk | c.id == "" || c.id != last.id :: Latest(front + [last], c) == Latest(front, c)
    ensures forall c: Chunk | c.id != "" && c.id == last.id :: Latest(front + [last], c) == last
  {
    assert (front + [last])[..|front|] == front;
  }

  lemma CurrentIds(chunks: seq<Chunk>, firsts: seq<Chunk>)
    ensures forall i | 0 <= i < |firsts| :: Current(chunks, firsts)[i].id == firsts[i].id
    ensures DistinctIds(firsts) ==> DistinctIds(Current(chunks, firsts))
  {
    forall i | 0 <= i < |firsts|
      ensures Current(chunks, firsts)[i].id == firsts[i].id
    {
      LatestKeepsId(chunks, firsts[i]);
    }
  }

  lemma ReplacedVersion(front: seq<Chunk>, last: Chunk, firsts: seq<Chunk>, i: nat)
    requires DistinctIds(firsts) && i < |firsts| && firsts[i].id == last.id != ""
    ensures FoldOne(Current(front, firsts), last) == Current(front + [last], firsts)
  {
    LatestOfNew(front, last);
    CurrentIds(front, firsts);
    SlotIs(Current(front, firsts), last.id, i);
  }

  lemma AppendedVersion(front: seq<Chunk>, last: Chunk, firsts: seq<Chunk>)
    requires last.id == "" || forall f | f in firsts :: f.id != last.id
    ensures FoldOne(Current(front, firsts), last) == Current(front + [last], firsts + [last])
  {
    LatestOfNew(front, last);
    CurrentIds(front, firsts);
  }

  /** Each identified message has one place, where it first came up, and holds its last version. */
  lemma {:induction false} OnePlacePerMessage(chunks: seq<Chunk>)
    ensures FoldAll(chunks) == Current(chunks, Firsts(chunks)) && DistinctIds(FoldAll(chunks))
  {
    FirstsDistinct(chunks);
    CurrentIds(chunks, Firsts(chunks));
    if chunks != [] {
      var front, last := chunks[..|chunks| - 1], chunks[|chunks| - 1];
      assert chunks == front + [last];
      OnePlacePerMessage(front);
      if last.id != "" {
        FirstsIds(front, last.id);
      }
      if Repeats(front, last) {
        var i :| 0 <= i < |Firsts(front)| && Firsts(front)[i].id == last.id;
        FirstsDistinct(front);
        ReplacedVersion(front, last, Firsts(front), i);
      } else {
        AppendedVersion(front, last, Firsts(front));
      }
    }
  }
}
