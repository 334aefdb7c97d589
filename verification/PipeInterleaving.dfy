/** The two ends of a pipe at work at the same time: a writer that sends messages one after
    the other and a reader, with their system calls interleaved in any way. A frame may be
    larger than what the pipe holds at once. */
module PipeInterleaving {
  import opened Options
  import opened PipeFraming

  /** One system call: a write that finds room, an interrupted write, which is tried again, a
      read, which waits if there is nothing, or a read that fails or is interrupted, which
      makes the reader give up the message it has begun. */
  datatype Call = WriteSome(room: nat) | WriteInterrupted | ReadSome(most: nat) | ReadFails

  /** The writer has written `at` bytes of the frame of message `current`; the reader has
      `header` and `body` of a message it has begun, and has returned `got`. */
  datatype Wire = Wire(
    current: nat, at: nat, bytes: seq<Byte>, header: seq<Byte>, body: seq<Byte>, got: seq<seq<Byte>>)

  const START := Wire(0, 0, [], [], [], [])

  predicate Shape(messages: seq<seq<Byte>>, w: Wire) {
    && w.current <= |messages|
    && w.at < (if w.current < |messages| then |Framed(messages[w.current])| else 1)
    && |w.header| <= 4
    && (|w.header| < 4 ==> w.body == [])
    && (|w.header| == 4 ==> |w.body| < Length(w.header))
  }

  /** What is still to be written. */
  function Unwritten(messages: seq<seq<Byte>>, w: Wire): seq<Byte>
    requires Shape(messages, w)
  {
    if w.current == |messages| then []
    else Framed(messages[w.current])[w.at..] + FramedAll(messages[w.current + 1..])
  }

  function Written(messages: seq<seq<Byte>>, w: Wire, room: nat): (w': Wire)
    requires Shape(messages, w)
    ensures Shape(messages, w')
  {
    if w.current == |messages| then w
    else
      var frame := Framed(messages[w.current]);
      var n := Min(room, |frame| - w.at);
      var sent := w.(bytes := w.bytes + frame[w.at..w.at + n]);
      if w.at + n == |frame| then sent.(current := w.current + 1, at := 0) else sent.(at := w.at + n)
  }

  /** Takes `n` bytes into the header or the body. */
  function Taken(w: Wire, n: nat): Wire
    requires n <= |w.bytes|
  {
    var rest := w.(bytes := w.bytes[n..]);
    if |w.header| < 4 then rest.(header := w.header + w.bytes[..n]) else rest.(body := w.body + w.bytes[..n])
  }

  /** Returns the message once it is complete. */
  function Delivered(w: Wire): Wire
    requires |w.header| <= 4
  {
    if |w.header| == 4 && |w.body| == Length(w.header) then w.(header := [], body := [], got := w.got + [w.body]) else w
  }

  function Need(w: Wire): nat
    requires |w.header| < 4 || (|w.header| == 4 && |w.body| < Length(w.header))
  {
    if |w.header| < 4 then 4 - |w.header| else Length(w.header) - |w.body|
  }

  function Step(messages: seq<seq<Byte>>, w: Wire, call: Call): (w': Wire)
    requires Shape(messages, w)
    ensures Shape(messages, w')
  {
    match call
    case WriteSome(room) => Written(messages, w, room)
    case WriteInterrupted => w
    case ReadSome(most) => Delivered(Taken(w, Min(Min(most, |w.bytes|), Need(w))))
    case ReadFails => w.(header := [], body := [])
  }

  function After(messages: seq<seq<Byte>>, calls: seq<Call>): (w: Wire)
    ensures Shape(messages, w)
  {
    if calls == [] then START
    else Step(messages, After(messages, calls[..|calls| - 1]), calls[|calls| - 1])
  }

  /** What has been returned is the first messages, and what is begun, in the pipe and still
      to be written is exactly the frames of the others. */
  ghost predicate Aligned(messages: seq<seq<Byte>>, w: Wire)
    requires Shape(messages, w)
  {
    && |w.got| <= |messages| && w.got == messages[..|w.got|]
    && FramedAll(messages[|w.got|..]) == w.header + w.body + (w.bytes + Unwritten(messages, w))
  }

  lemma StartAligned(messages: seq<seq<Byte>>)
    ensures Aligned(messages, START)
  {
    assert messages[0..] == messages;
  }

  lemma WriteMoves(messages: seq<seq<Byte>>, w: Wire, room: nat)
    requires Shape(messages, w)
    ensures var w' := Written(messages, w, room);
            w'.bytes + Unwritten(messages, w') == w.bytes + Unwritten(messages, w)
  {
    hide FramedAll, Framed, Length;
    if w.current < |messages| {
      var frame, rest := Framed(messages[w.current]), FramedAll(messages[w.current + 1..]);
      var n := Min(room, |frame| - w.at);
      MoveBytes(w.bytes, frame, w.at, n, rest);
      if w.at + n == |frame| { NextUnwritten(messages, Written(messages, w, room)); }
    }
  }

  lemma NextUnwritten(messages: seq<seq<Byte>>, w: Wire)
    requires Shape(messages, w) && w.at == 0
    ensures Unwritten(messages, w) == FramedAll(messages[w.current..])
  {
    hide Framed, FramedAll;
    NextFrame(messages, w.current);
  }

  lemma MoveBytes(bytes: seq<Byte>, frame: seq<Byte>, at: nat, n: nat, rest: seq<Byte>)
    requires at + n <= |frame|
    ensures bytes + frame[at..at + n] + (frame[at + n..] + rest) == bytes + (frame[at..] + rest)
    ensures at + n == |frame| ==> bytes + frame[at..at + n] + rest == bytes + (frame[at..] + rest)
  {
  }

  lemma NextFrame(messages: seq<seq<Byte>>, k: nat)
    requires k <= |messages|
    ensures FramedAll(messages[k..])
         == if k == |messages| then [] else Framed(messages[k])[0..] + FramedAll(messages[k + 1..])
  {
    if k < |messages| { assert messages[k..][1..] == messages[k + 1..]; }
  }

  lemma WriteKeeps(messages: seq<seq<Byte>>, w: Wire, room: nat)
    requires Shape(messages, w) && Aligned(messages, w)
    ensures Aligned(messages, Written(messages, w, room))
  {
    hide FramedAll, Unwritten;
    WriteMoves(messages, w, room);
  }

  /** A complete message at the front of the frames is the first one. */
  lemma FirstIs(messages: seq<seq<Byte>>, header: seq<Byte>, body: seq<Byte>, rest: seq<Byte>)
    requires |header| == 4 && |body| == Length(header) && FramedAll(messages) == header + body + rest
    requires forall m <- messages :: |m| < 0x1_0000_0000
    ensures messages != [] && body == messages[0] && rest == FramedAll(messages[1..])
  {
    var stream := header + body + rest;
    assert stream[..4] == header && stream[4..4 + |body|] == body && stream[4 + |body|..] == rest;
    assert FirstMessage(stream) == Some((body, rest));
    NothingFramed();
    assert messages[0..] == messages;
    ReadsFirst(messages, 0);
  }

  lemma TakeKeeps(messages: seq<seq<Byte>>, w: Wire, n: nat)
    requires Shape(messages, w) && n <= |w.bytes| && n <= Need(w)
    ensures var t := Taken(w, n);
            t.header + t.body + t.bytes == w.header + w.body + w.bytes && t.got == w.got
    ensures |Taken(w, n).header| < 4 ==> Taken(w, n).body == []
  {
    assert w.bytes == w.bytes[..n] + w.bytes[n..];
  }

  lemma Regroup(a: seq<Byte>, b: seq<Byte>, c: seq<Byte>, x: seq<Byte>, y: seq<Byte>, z: seq<Byte>, u: seq<Byte>)
    requires a + b + c == x + y + z
    ensures a + b + (c + u) == x + y + (z + u)
  {
    assert a + b + (c + u) == a + b + c + u && x + y + (z + u) == x + y + z + u;
  }

  lemma DeliverKeeps(messages: seq<seq<Byte>>, t: Wire, unwritten: seq<Byte>)
    requires |t.header| <= 4 && |t.got| <= |messages| && t.got == messages[..|t.got|]
    requires FramedAll(messages[|t.got|..]) == t.header + t.body + (t.bytes + unwritten)
    requires forall m <- messages :: |m| < 0x1_0000_0000
    ensures var w' := Delivered(t);
            && |w'.got| <= |messages| && w'.got == messages[..|w'.got|]
            && FramedAll(messages[|w'.got|..]) == w'.header + w'.body + (w'.bytes + unwritten)
  {
    hide FramedAll, Length;
    if |t.header| == 4 && |t.body| == Length(t.header) {
      var r := |t.got|;
      FirstIs(messages[r..], t.header, t.body, t.bytes + unwritten);
      assert messages[r..][1..] == messages[r + 1..] && messages[..r + 1] == messages[..r] + [messages[r]];
      assert [] + [] + (t.bytes + unwritten) == t.bytes + unwritten;
    }
  }

  lemma ReadKeeps(messages: seq<seq<Byte>>, w: Wire, most: nat)
    requires Shape(messages, w) && Aligned(messages, w) && forall m <- messages :: |m| < 0x1_0000_0000
    ensures Aligned(messages, Step(messages, w, ReadSome(most)))
  {
    hide FramedAll, Unwritten, Length, Framed;
    var n := Min(Min(most, |w.bytes|), Need(w));
    var t, unwritten := Taken(w, n), Unwritten(messages, w);
    TakeKeeps(messages, w, n);
    SameUnwritten(messages, w, Delivered(t));
    Regroup(t.header, t.body, t.bytes, w.header, w.body, w.bytes, unwritten);
    DeliverKeeps(messages, t, unwritten);
  }

  lemma SameUnwritten(messages: seq<seq<Byte>>, w: Wire, w': Wire)
    requires Shape(messages, w) && Shape(messages, w') && w'.current == w.current && w'.at == w.at
    ensures Unwritten(messages, w') == Unwritten(messages, w)
  {
  }

  /** A failed read leaves the pipe at a frame boundary if and only if the reader had taken
      nothing of the message yet. */
  lemma FailedReadExactly(messages: seq<seq<Byte>>, w: Wire)
    requires Shape(messages, w) && Aligned(messages, w)
    ensures Aligned(messages, Step(messages, w, Call.ReadFails)) <==> w.header == []
  {
    hide FramedAll, Unwritten;
    SameUnwritten(messages, w, Step(messages, w, Call.ReadFails));
    var rest := w.bytes + Unwritten(messages, w);
    assert |w.header + w.body + rest| == |w.header| + |w.body| + |rest|;
    assert [] + [] + rest == rest;
  }

  /** Reads fail only between messages. */
  ghost predicate FailsBetween(messages: seq<seq<Byte>>, calls: seq<Call>) {
    forall i | 0 <= i < |calls| && calls[i].ReadFails? :: After(messages, calls[..i]).header == []
  }

  /** Under every interleaving of the two sides' system calls the messages returned are the
      first ones sent, unchanged and in order, and everything else is on its way. */
  lemma {:induction false} EveryInterleaving(messages: seq<seq<Byte>>, calls: seq<Call>)
    requires (forall m <- messages :: |m| < 0x1_0000_0000) && FailsBetween(messages, calls)
    ensures Aligned(messages, After(messages, calls))
  {
    hide Aligned, Step;
    if calls == [] {
      StartAligned(messages);
    } else {
      var n := |calls| - 1;
      assert forall i | 0 <= i < n :: calls[..n][..i] == calls[..i];
      EveryInterleaving(messages, calls[..n]);
      CallKeeps(messages, After(messages, calls[..n]), calls[n]);
    }
  }

  lemma CallKeeps(messages: seq<seq<Byte>>, w: Wire, call: Call)
    requires Shape(messages, w) && Aligned(messages, w) && forall m <- messages :: |m| < 0x1_0000_0000
    requires call.ReadFails? ==> w.header == []
    ensures Aligned(messages, Step(messages, w, call))
  {
    hide Aligned;
    match call
    case WriteSome(room) => WriteKeeps(messages, w, room);
    case WriteInterrupted =>
    case ReadSome(most) => ReadKeeps(messages, w, most);
    case ReadFails => FailedReadExactly(messages, w);
  }

  /** When everything has been written and read, every message has arrived. */
  lemma AllArrive(messages: seq<seq<Byte>>, calls: seq<Call>)
    requires (forall m <- messages :: |m| < 0x1_0000_0000) && FailsBetween(messages, calls)
    requires var w := After(messages, calls); w.current == |messages| && w.bytes == [] && w.header == []
    ensures After(messages, calls).got == messages
  {
    EveryInterleaving(messages, calls);
    var w := After(messages, calls);
    NextFrame(messages, |w.got|);
    assert messages[..|messages|] == messages;
  }
}
