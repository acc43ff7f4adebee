/** Messages on a byte stream, each ended by the byte ETX. */
module Framing {

  type Byte = b: int | 0 <= b < 256

  const ETX: Byte := 3

  type Bytes = seq<Byte>

  predicate IsSpace(b: Byte) {
    b == 32 || 9 <= b <= 13
  }

  /** Nothing is left of it once stripped. */
  predicate IsBlank(bytes: Bytes) {
    forall i :: 0 <= i < |bytes| ==> IsSpace(bytes[i])
  }

  predicate NoEtx(bytes: Bytes) {
    forall i :: 0 <= i < |bytes| ==> bytes[i] != ETX
  }

  function Frame(message: Bytes): Bytes {
    message + [ETX]
  }

  function Frames(messages: seq<Bytes>): Bytes {
    if messages == [] then [] else Frame(messages[0]) + Frames(messages[1..])
  }

  /** Where the first ETX is, or the length. */
  function FindEtx(bytes: Bytes): (k: nat)
    ensures k <= |bytes| && NoEtx(bytes[..k]) && (k < |bytes| ==> bytes[k] == ETX)
  {
    if bytes == [] || bytes[0] == ETX then 0 else FindEtx(bytes[1..]) + 1
  }

  /** A blank message is dropped. */
  function Kept(chunk: Bytes): seq<Bytes> {
    if IsBlank(chunk) then [] else [chunk]
  }

  /** The complete messages in a stream, blank ones left out. */
  function Messages(bytes: Bytes): seq<Bytes>
    decreases |bytes|
  {
    var k := FindEtx(bytes);
    if k == |bytes| then [] else Kept(bytes[..k]) + Messages(bytes[k + 1..])
  }

  /** What comes after the last complete message. */
  function Tail(bytes: Bytes): Bytes
    decreases |bytes|
  {
    var k := FindEtx(bytes);
    if k == |bytes| then bytes else Tail(bytes[k + 1..])
  }

  class Reader {
    var buffer: Bytes

    constructor ()
      ensures buffer == []
    {
      buffer := [];
    }

    method Unframe() returns (out: seq<Bytes>)
      modifies this
      ensures out == Messages(old(buffer)) && buffer == Tail(old(buffer))
    {
      hide Messages, Tail, FindEtx, NoEtx, IsBlank;
      out := [];
      assert out + Messages(buffer) == Messages(buffer);
      while true
        invariant out + Messages(buffer) == Messages(old(buffer))
        invariant Tail(buffer) == Tail(old(buffer))
        decreases |buffer|
      {
        FirstMessage(buffer);
        var k := FindEtx(buffer);
        if k == |buffer| {
          return;
        }
        var chunk := buffer[..k];
        Regrouped(out, Kept(chunk), Messages(buffer[k + 1..]));
        buffer := buffer[k + 1..];
        if !IsBlank(chunk) {
          out := out + [chunk];
        }
      }
    }

    /** The reading loop: every chunk that arrives is appended, and what is complete is handed on. */
    method ReadLoop(chunks: seq<Bytes>) returns (received: seq<Bytes>)
      requires NoEtx(buffer)
      modifies this
      ensures received == Messages(old(buffer) + Joined(chunks))
      ensures buffer == Tail(old(buffer) + Joined(chunks)) && NoEtx(buffer)
    {
      ghost var start := buffer;
      received := [];
      Untouched(buffer);
      assert start + Joined(chunks[..0]) == start;
      hide Messages, Tail, Joined;
      for i := 0 to |chunks|
        invariant received == Messages(start + Joined(chunks[..i]))
        invariant buffer == Tail(start + Joined(chunks[..i]))
      {
        ReadMore(start, chunks, i);
        buffer := buffer + chunks[i];
        var out := Unframe();
        received := received + out;
      }
      assert chunks[..|chunks|] == chunks;
      TailHasNoEtx(start + Joined(chunks));
    }
  }

  /** One more chunk after what has been read. */
  lemma ReadMore(start: Bytes, chunks: seq<Bytes>, i: nat)
    requires i < |chunks|
    ensures var before, after := start + Joined(chunks[..i]), start + Joined(chunks[..i + 1]);
      && Messages(after) == Messages(before) + Messages(Tail(before) + chunks[i])
      && Tail(after) == Tail(Tail(before) + chunks[i])
  {
    hide Messages, Tail;
    var before := start + Joined(chunks[..i]);
    MessagesConcat(before, chunks[i]);
    assert chunks[..i + 1] == chunks[..i] + [chunks[i]];
    JoinedSnoc(chunks[..i], chunks[i]);
    assert start + Joined(chunks[..i + 1]) == before + chunks[i];
  }

  function Joined(chunks: seq<Bytes>): Bytes {
    if chunks == [] then [] else Joined(chunks[..|chunks| - 1]) + chunks[|chunks| - 1]
  }

  lemma {:induction false} JoinedSnoc(chunks: seq<Bytes>, chunk: Bytes)
    ensures Joined(chunks + [chunk]) == Joined(chunks) + chunk
  {
    assert (chunks + [chunk])[..|chunks|] == chunks;
  }

  lemma {:induction false} FindEtxIs(bytes: Bytes, k: nat)
    requires k < |bytes| && bytes[k] == ETX && NoEtx(bytes[..k])
    ensures FindEtx(bytes) == k
  {
    var found := FindEtx(bytes);
    assert forall i :: 0 <= i < k ==> bytes[i] == bytes[..k][i];
    assert forall i :: 0 <= i < found ==> bytes[i] == bytes[..found][i];
  }

  lemma {:induction false} Untouched(bytes: Bytes)
    requires NoEtx(bytes)
    ensures FindEtx(bytes) == |bytes| && Messages(bytes) == [] && Tail(bytes) == bytes
  {
  }

  lemma {:induction false} TailHasNoEtx(bytes: Bytes)
    ensures NoEtx(Tail(bytes))
    decreases |bytes|
  {
    var k := FindEtx(bytes);
    if k < |bytes| {
      TailHasNoEtx(bytes[k + 1..]);
    } else {
      assert bytes[..k] == bytes;
    }
  }

  /** Reading a stream in two parts, the rest of the first before the second, is reading it whole. */
  lemma {:induction false} MessagesConcat(a: Bytes, b: Bytes)
    ensures Messages(a + b) == Messages(a) + Messages(Tail(a) + b)
    ensures Tail(a + b) == Tail(Tail(a) + b)
    decreases |a|
  {
    hide FindEtx, NoEtx, Kept, Messages, Tail;
    var k := FindEtx(a);
    FirstMessage(a);
    if k < |a| {
      FirstOf(a, b);
      FirstMessage(a + b);
      MessagesConcat(a[k + 1..], b);
      Regrouped(Kept(a[..k]), Messages(a[k + 1..]), Messages(Tail(a) + b));
    } else {
      assert [] + Messages(a + b) == Messages(a + b);
    }
  }

  lemma Regrouped<T>(x: seq<T>, y: seq<T>, z: seq<T>)
    ensures x + (y + z) == x + y + z
  {
  }

  lemma {:induction false} FirstMessage(bytes: Bytes)
    ensures var k := FindEtx(bytes);
      if k == |bytes| then Messages(bytes) == [] && Tail(bytes) == bytes
      else Messages(bytes) == Kept(bytes[..k]) + Messages(bytes[k + 1..]) && Tail(bytes) == Tail(bytes[k + 1..])
  {
    hide Kept, NoEtx;
  }

  lemma {:induction false} FirstOf(a: Bytes, b: Bytes)
    requires FindEtx(a) < |a|
    ensures var k := FindEtx(a);
      FindEtx(a + b) == k && (a + b)[..k] == a[..k] && (a + b)[k + 1..] == a[k + 1..] + b
  {
    var k := FindEtx(a);
    assert (a + b)[..k] == a[..k];
    FindEtxIs(a + b, k);
  }

  // ---- what is sent is what arrives ----

  /** It holds something other than white space. */
  ghost predicate Says(message: Bytes) {
    exists i :: 0 <= i < |message| && message[i] !in {9, 10, 11, 12, 13, 32}
  }

  ghost function Saying(messages: seq<Bytes>): seq<Bytes> {
    if messages == [] then []
    else (if Says(messages[0]) then [messages[0]] else []) + Saying(messages[1..])
  }

  lemma KeptIf(message: Bytes)
    ensures Kept(message) == if Says(message) then [message] else []
  {
    assert forall i :: 0 <= i < |message| ==> (IsSpace(message[i]) <==> message[i] in {9, 10, 11, 12, 13, 32});
  }

  /** Whatever messages without the byte 3 are sent, each with that byte behind it, those that are more than white
      space are read back in order, and the beginning of the next one is kept for later. */
  lemma {:induction false} FramesReadBack(messages: seq<Bytes>, partial: Bytes)
    requires forall i :: 0 <= i < |messages| ==> 3 !in messages[i]
    requires 3 !in partial
    ensures Messages(Frames(messages) + partial) == Saying(messages)
    ensures Tail(Frames(messages) + partial) == partial
    ensures messages != [] ==> Frames(messages) == messages[0] + [3] + Frames(messages[1..])
  {
    if messages == [] {
      assert Frames(messages) + partial == partial;
      Untouched(partial);
    } else {
      var m := messages[0];
      var all := Frames(messages) + partial;
      assert all == m + [ETX] + (Frames(messages[1..]) + partial);
      assert all[..|m|] == m && all[|m| + 1..] == Frames(messages[1..]) + partial;
      assert NoEtx(m);
      FindEtxIs(all, |m|);
      FramesReadBack(messages[1..], partial);
      KeptIf(m);
    }
  }

  /** So for every way to cut such a stream into chunks, a fresh reader delivers exactly those messages. */
  method ReadFramed(messages: seq<Bytes>, partial: Bytes, chunks: seq<Bytes>) returns (received: seq<Bytes>)
    requires forall i :: 0 <= i < |messages| ==> 3 !in messages[i]
    requires 3 !in partial && Joined(chunks) == Frames(messages) + partial
    ensures received == Saying(messages)
  {
    var reader := new Reader();
    received := reader.ReadLoop(chunks);
    FramesReadBack(messages, partial);
    assert [] + Joined(chunks) == Joined(chunks);
  }
}
