/** internal/rpicamera/pipe.go: messages with a four-byte little-endian length over a
    kernel pipe. The pipe is the bytes written and not yet read. What each system call
    does is given from outside as a schedule: calls may transfer any part of what was
    asked for, may be interrupted, and may fail. */
module PipeFraming {
  import opened Options

  type Byte = b: int | 0 <= b < 256

  /** One write call: interrupted, failed, or room for `room` more bytes. */
  datatype WriteCall = Interrupted | WriteFails | Room(room: nat)

  /** One read call: failed, or at most `most` bytes of what is there. */
  datatype ReadCall = ReadFails | AtMost(most: nat)

  /** Waiting means that the schedule ended first. */
  datatype Status = Finished | Failed | EndOfFile | Waiting

  function Min(a: nat, b: nat): nat { if a <= b then a else b }

  /** The header written for a length: its low 32 bits, least byte first. */
  function Header(n: nat): seq<Byte> {
    [n % 256, n / 0x100 % 256, n / 0x1_0000 % 256, n / 0x100_0000 % 256]
  }

  function Length(header: seq<Byte>): nat
    requires |header| == 4
  {
    header[3] as int * 0x100_0000 + header[2] as int * 0x1_0000 + header[1] as int * 0x100 + header[0] as int
  }

  function Framed(message: seq<Byte>): seq<Byte> { Header(|message|) + message }

  /** The first message of a stream, and what follows it. */
  function FirstMessage(stream: seq<Byte>): Option<(seq<Byte>, seq<Byte>)> {
    if |stream| < 4 then None
    else
      var n := Length(stream[..4]);
      if |stream| < 4 + n then None else Some((stream[4..4 + n], stream[4 + n..]))
  }

  /** How many bytes the schedule is sure to transfer, if nothing fails. */
  function Progress(calls: seq<WriteCall>): nat {
    if calls == [] then 0
    else Progress(calls[..|calls| - 1]) + if calls[|calls| - 1].Room? then calls[|calls| - 1].room else 0
  }

  /** Every read call transfers something, if there is something. */
  predicate Progressing(calls: seq<ReadCall>) { forall c <- calls :: c.AtMost? && c.most > 0 }

  /** The first call transfers something. */
  predicate Transfers(calls: seq<ReadCall>, bytes: seq<Byte>) {
    calls != [] && calls[0].AtMost? && calls[0].most > 0 && bytes != []
  }

  predicate Failing(calls: seq<WriteCall>) { exists c <- calls :: c.WriteFails? }

  class Pipe {
    var bytes: seq<Byte>

    constructor ()
      ensures bytes == []
    {
      bytes := [];
    }

    /** Writes the whole frame, however the kernel splits and interrupts the writes: what
        has been written is always a prefix of it, and all of it when Write returns. A
        schedule without failures and with enough room does let it return. */
    method Write(message: seq<Byte>, calls: seq<WriteCall>) returns (status: Status)
      modifies this
      ensures old(bytes) <= bytes <= old(bytes) + Framed(message)
      ensures status.Finished? <==> bytes == old(bytes) + Framed(message)
      ensures !Failing(calls) && Progress(calls) >= |Framed(message)| ==> status.Finished?
    {
      var msg := Framed(message);
      var written := 0;
      for k := 0 to |calls|
        invariant 0 <= written < |msg|
        invariant bytes == old(bytes) + msg[..written]
        invariant written >= Min(|msg|, Progress(calls[..k]))
      {
        assert calls[..k + 1][..k] == calls[..k];
        assert calls[k] in calls;
        match calls[k] {
          case Interrupted =>
          case WriteFails =>
            return Failed;
          case Room(room) =>
            var n := Min(room, |msg| - written);
            bytes := bytes + msg[written..written + n];
            written := written + n;
            if written == |msg| {
              return Finished;
            }
        }
      }
      assert calls[..|calls|] == calls;
      status := Waiting;
    }

    /** Fills a buffer of `size` bytes from the front of the pipe, in pieces. */
    method ReadFully(size: nat, calls: seq<ReadCall>) returns (status: Status, buf: seq<Byte>, used: nat)
      modifies this
      ensures used <= |calls|
      ensures old(bytes) == buf + bytes && |buf| <= size
      ensures status.Finished? <==> |buf| == size
      ensures size > 0 ==> (buf != [] <==> Transfers(calls, old(bytes)))
      ensures Progressing(calls) && |old(bytes)| >= size ==> used <= |buf|
      ensures Progressing(calls) && |calls| >= size && |old(bytes)| >= size ==> status.Finished?
    {
      buf, used := [], 0;
      while |buf| < size
        invariant used <= |calls| && |buf| <= size
        invariant old(bytes) == buf + bytes
        invariant used <= |buf| && (used == 0 ==> buf == [])
        invariant used > 0 ==> Transfers(calls, old(bytes))
        decreases |calls| - used
      {
        if used == |calls| {
          return Waiting, buf, used;
        }
        var call := calls[used];
        assert call in calls;
        used := used + 1;
        if call.ReadFails? {
          return Failed, buf, used;
        }
        var n := Min(Min(call.most, |bytes|), size - |buf|);
        if n == 0 {
          return EndOfFile, buf, used;
        }
        buf := buf + bytes[..n];
        bytes := bytes[n..];
      }
      status := Finished;
    }

    /** Reads one message. When it returns, it is the first message in the pipe, and the
        pipe holds exactly what followed it. When it fails, or has to wait, it has taken less
        than that message, and nothing exactly if its first call transferred nothing. */
    method Read(calls: seq<ReadCall>) returns (status: Status, message: seq<Byte>)
      modifies this
      ensures status.Finished? ==> FirstMessage(old(bytes)) == Some((message, bytes))
      ensures var first := FirstMessage(old(bytes));
              Progressing(calls) && first.Some? && |calls| >= |Framed(first.value.0)| ==> status.Finished?
      ensures !status.Finished? ==>
                && |bytes| <= |old(bytes)| && bytes == old(bytes)[|old(bytes)| - |bytes|..]
                && (var first := FirstMessage(old(bytes));
                    first.Some? ==> |old(bytes)| - |bytes| < |Framed(first.value.0)|)
                && (bytes == old(bytes) <==> !Transfers(calls, old(bytes)))
    {
      ghost var before := bytes;
      var header: seq<Byte>, used;
      message := [];
      status, header, used := ReadFully(4, calls);
      if !status.Finished? {
        return;
      }
      assert before[..4] == header && before[4..] == bytes;
      assert Progressing(calls) ==> Progressing(calls[used..]);
      var n := Length(header);
      status, message, used := ReadFully(n, calls[used..]);
      if status.Finished? {
        assert before[4..4 + n] == message && before[4 + n..] == bytes;
      }
    }
  }

  // ---------- round trip -------------------------------------------------------------------

  lemma HeaderRoundTrip(n: nat)
    ensures Length(Header(n)) == n % 0x1_0000_0000
  {
    var a := n / 256;
    var b := a / 256;
    var c := b / 256;
    assert n / 0x1_0000 == b;
    assert n / 0x100_0000 == c;
    Digits(n, a, b, c, c / 256);
  }

  /** The header is four bytes, the least significant first. */
  lemma LittleEndian(n: nat)
    requires n < 0x1_0000_0000
    ensures var h := Header(n);
            |h| == 4 && h[0] as int + 256 * h[1] as int + 65536 * h[2] as int + 16777216 * h[3] as int == n
  {
    HeaderRoundTrip(n);
  }

  lemma Digits(n: nat, a: nat, b: nat, c: nat, d: nat)
    requires a == n / 256 && b == a / 256 && c == b / 256 && d == c / 256
    ensures c % 256 * 0x100_0000 + b % 256 * 0x1_0000 + a % 256 * 0x100 + n % 256 == n % 0x1_0000_0000
  {
    assert n == d * 0x1_0000_0000 + (c % 256 * 0x100_0000 + b % 256 * 0x1_0000 + a % 256 * 0x100 + n % 256);
  }

  /** A frame reads back as its message, with the rest untouched, exactly when the length
      fits the header. */
  lemma FrameReadsBack(message: seq<Byte>, rest: seq<Byte>)
    ensures FirstMessage(Framed(message) + rest) == Some((message, rest)) <==> |message| < 0x1_0000_0000
  {
    var stream, n := Framed(message) + rest, |message| % 0x1_0000_0000;
    HeaderRoundTrip(|message|);
    assert stream[..4] == Header(|message|);
    assert |stream| >= 4 + n;
    if |message| < 0x1_0000_0000 {
      assert stream[4..4 + n] == message && stream[4 + n..] == rest;
    } else {
      assert |stream[4..4 + n]| != |message|;
    }
  }

  function FramedAll(messages: seq<seq<Byte>>): seq<Byte> {
    if messages == [] then [] else Framed(messages[0]) + FramedAll(messages[1..])
  }

  lemma {:induction false} FramedAllAppend(messages: seq<seq<Byte>>, m: seq<Byte>)
    ensures FramedAll(messages + [m]) == FramedAll(messages) + Framed(m)
  {
    hide Framed;
    if messages == [] {
      assert [m][1..] == [];
    } else {
      assert (messages + [m])[1..] == messages[1..] + [m];
      FramedAllAppend(messages[1..], m);
    }
  }

  lemma {:induction false} FramesShrink(messages: seq<seq<Byte>>, k: nat)
    requires k <= |messages|
    ensures |FramedAll(messages[k..])| <= |FramedAll(messages)|
    ensures k > 0 ==> |FramedAll(messages[k..])| + |Framed(messages[0])| <= |FramedAll(messages)|
  {
    hide Framed;
    if k == 0 {
      assert messages[0..] == messages;
    } else {
      assert messages[1..][k - 1..] == messages[k..];
      FramesShrink(messages[1..], k - 1);
    }
  }

  /** Taking less than the first frame off a stream of frames leaves it at the start of a frame
      if and only if nothing was taken. */
  lemma AtBoundaryExactly(messages: seq<seq<Byte>>, taken: seq<Byte>, rest: seq<Byte>)
    requires messages != [] && FramedAll(messages) == taken + rest && |taken| < |Framed(messages[0])|
    ensures (exists k | 0 <= k <= |messages| :: rest == FramedAll(messages[k..])) <==> taken == []
  {
    hide Framed, FramedAll;
    assert messages[0..] == messages;
    forall k | 0 < k <= |messages| ensures rest != FramedAll(messages[k..]) {
      FramesShrink(messages, k);
    }
    if taken == [] { assert rest == FramedAll(messages[0..]); }
  }

  /** Message after message, until what is left is not a whole message. */
  function AllMessages(stream: seq<Byte>): (seq<seq<Byte>>, seq<Byte>)
    decreases |stream|
  {
    match FirstMessage(stream)
    case None => ([], stream)
    case Some((m, rest)) => var (more, left) := AllMessages(rest); ([m] + more, left)
  }

  /** Whatever list of messages has been framed, reading gives back exactly those messages
      in order, with nothing left over. */
  lemma {:induction false} MessagesRoundTrip(messages: seq<seq<Byte>>)
    requires forall m <- messages :: |m| < 0x1_0000_0000
    ensures AllMessages(FramedAll(messages)) == (messages, [])
  {
    hide FirstMessage, Framed;
    if messages == [] {
      NoMessage();
    } else {
      assert messages[0] in messages && messages == [messages[0]] + messages[1..];
      FrameReadsBack(messages[0], FramedAll(messages[1..]));
      MessagesRoundTrip(messages[1..]);
    }
  }

  lemma NoMessage()
    ensures FirstMessage([]) == None
  {
  }

  /** What the users of a pipe do: write a message or read one, each under a schedule. */
  datatype Job = Send(message: seq<Byte>, writeCalls: seq<WriteCall>) | Receive(readCalls: seq<ReadCall>)

  function Sent(jobs: seq<Job>, n: nat): seq<seq<Byte>>
    requires n <= |jobs|
  {
    if n == 0 then []
    else if jobs[n - 1].Send? then Sent(jobs, n - 1) + [jobs[n - 1].message]
    else Sent(jobs, n - 1)
  }

  function Receives(jobs: seq<Job>, n: nat): nat
    requires n <= |jobs|
  {
    if n == 0 then 0 else Receives(jobs, n - 1) + if jobs[n - 1].Receive? then 1 else 0
  }

  /** Job `k` can be done: a write meets no failure and gets room for the whole frame, however
      it is cut up and interrupted; a read finds a message to read, and every one of its calls
      transfers something, however little. */
  predicate Feasible(jobs: seq<Job>, k: nat)
    requires k < |jobs|
  {
    match jobs[k]
    case Send(message, calls) =>
      |message| < 0x1_0000_0000 && !Failing(calls) && Progress(calls) >= |Framed(message)|
    case Receive(calls) =>
      var r := Receives(jobs, k);
      r < |Sent(jobs, k)| && Progressing(calls) && |calls| >= |Framed(Sent(jobs, k)[r])|
  }

  lemma {:induction false} SentShort(jobs: seq<Job>, n: nat)
    requires n <= |jobs| && forall k | 0 <= k < n :: Feasible(jobs, k)
    ensures forall m <- Sent(jobs, n) :: |m| < 0x1_0000_0000
  {
    if n > 0 {
      assert Feasible(jobs, n - 1);
      SentShort(jobs, n - 1);
    }
  }

  /** Under any mixture of writes and reads and any feasible schedule of system calls, the
      messages read are the first ones written, in order and unchanged, and the pipe holds
      exactly the frames of the others: nothing is lost, split or merged. */
  method Transfer(p: Pipe, jobs: seq<Job>) returns (got: seq<seq<Byte>>)
    requires p.bytes == []
    requires forall k | 0 <= k < |jobs| :: Feasible(jobs, k)
    modifies p
    ensures |got| == Receives(jobs, |jobs|) && got <= Sent(jobs, |jobs|)
    ensures p.bytes == FramedAll(Sent(jobs, |jobs|)[|got|..])
    ensures |got| == |Sent(jobs, |jobs|)| ==> got == Sent(jobs, |jobs|) && p.bytes == []
  {
    hide Framed, FirstMessage, FramedAll, Failing, Progressing, Progress;
    got := [];
    NothingFramed();
    for k := 0 to |jobs|
      invariant |got| == Receives(jobs, k) && got <= Sent(jobs, k)
      invariant p.bytes == FramedAll(Sent(jobs, k)[|got|..])
    {
      ghost var sent := Sent(jobs, k);
      assert Feasible(jobs, k);
      match jobs[k] {
        case Send(message, calls) =>
          var status := p.Write(message, calls);
          assert status.Finished?;
          FramedAllAppend(sent[|got|..], message);
          assert Sent(jobs, k + 1)[|got|..] == sent[|got|..] + [message];
        case Receive(calls) =>
          SentShort(jobs, k);
          ReadsFirst(sent, |got|);
          var status, m := p.Read(calls);
          assert status.Finished?;
          got := got + [m];
      }
    }
    NothingFramed();
  }

  lemma NothingFramed()
    ensures FramedAll([]) == []
  {
  }

  lemma ReadsFirst(sent: seq<seq<Byte>>, r: nat)
    requires r < |sent| && forall m <- sent :: |m| < 0x1_0000_0000
    ensures FirstMessage(FramedAll(sent[r..])) == Some((sent[r], FramedAll(sent[r + 1..])))
  {
    hide FirstMessage, Framed;
    assert sent[r..][1..] == sent[r + 1..] && sent[r] in sent;
    FrameReadsBack(sent[r], FramedAll(sent[r + 1..]));
  }
}
