/** internal/ffmpeg/mpjpeg.go: reading JPEG frames from the multipart stream of
    `ffmpeg -f mpjpeg`. The stream is what is left to read of it, and how it ends. */
module Mpjpeg {
  import opened Options
  import opened GoStrings
  import Int64

  const MAX_FRAME_SIZE := 32 * 1024 * 1024
  const BOUNDARY := "--ffmpeg"

  datatype Error =
    | Cancelled | StreamClosed | ReadFailed
    | BadContentLength | MissingContentLength | FrameTooLarge | FrameTruncated

  /** The stream ends, or reading fails there. */
  datatype End = Eof | Fault

  /** `mapReaderErr`. */
  function EndError(end: End): Error { if end.Eof? then StreamClosed else ReadFailed }

  datatype Result<T> = Ok(value: T) | Err(error: Error)

  /** `ReadBytes('\n')`: the next line with its newline, and what follows it. */
  function CutLine(s: string): (r: Option<(string, string)>)
    ensures r.Some? ==> r.value.0 + r.value.1 == s && |r.value.1| < |s|
  {
    var i := IndexOf(s, '\n');
    if i < 0 then None else Some((s[..i + 1], s[i + 1..]))
  }

  predicate IsBoundary(line: string) { BOUNDARY <= TrimSpace(line) }

  /** What follows the next boundary line, if there is one. */
  function SkipToBoundary(s: string): (r: Option<string>)
    ensures r.Some? ==> |r.value| < |s|
    decreases |s|
  {
    match CutLine(s)
    case None => None
    case Some((line, rest)) => if IsBoundary(line) then Some(rest) else SkipToBoundary(rest)
  }

  predicate IsContentLength(key: string) { EqualFold(TrimSpace(key), "Content-Length") }

  /** The content length a header line leaves behind. */
  function HeaderLength(line: string, length: int): Option<int> {
    var colon := IndexOf(line, ':');
    if colon < 0 || !IsContentLength(line[..colon]) then Some(length) else Atoi(TrimSpace(line[colon + 1..]))
  }

  /** Reads headers up to the empty line; also returns what is left of the stream. */
  function ReadHeaders(s: string, length: int, end: End): (r: (Result<int>, string))
    ensures |r.1| <= |s|
    decreases |s|
  {
    match CutLine(s)
    case None => (Err(EndError(end)), "")
    case Some((line, rest)) =>
      var trimmed := TrimEol(line);
      if trimmed == "" then (Ok(length), rest)
      else
        match HeaderLength(trimmed, length)
        case None => (Err(BadContentLength), rest)
        case Some(n) => ReadHeaders(rest, n, end)
  }

  function ReadBody(s: string, length: int, end: End): (r: (Result<string>, string))
    ensures |r.1| <= |s|
  {
    if length <= 0 then (Err(MissingContentLength), s)
    else if length > MAX_FRAME_SIZE then (Err(FrameTooLarge), s)
    else if |s| < length then (Err(if end.Eof? then FrameTruncated else ReadFailed), "")
    else (Ok(s[..length]), s[length..])
  }

  /** The next frame, and what is left of the stream. */
  function ReadFrame(s: string, end: End): (r: (Result<string>, string))
    ensures r.0.Ok? ==> |r.1| < |s|
  {
    match SkipToBoundary(s)
    case None => (Err(EndError(end)), "")
    case Some(headers) =>
      var (length, rest) := ReadHeaders(headers, 0, end);
      if length.Err? then (Err(length.error), rest) else ReadBody(rest, length.value, end)
  }

  // ---------- the reader ---------------------------------------------------------------

  class Reader {
    var rest: string
    const end: End

    constructor (s: string, end: End)
      ensures rest == s && this.end == end
    {
      rest := s;
      this.end := end;
    }

    method ReadLine() returns (line: Option<string>)
      modifies this
      ensures match CutLine(old(rest))
              case None => line.None? && rest == ""
              case Some((first, more)) => line == Some(first) && rest == more
    {
      var cut := CutLine(rest);
      if cut.None? {
        rest := "";
        return None;
      }
      rest := cut.value.1;
      line := Some(cut.value.0);
    }

    method ReadFull(n: nat) returns (buf: Option<string>)
      modifies this
      ensures |old(rest)| < n ==> buf.None? && rest == ""
      ensures |old(rest)| >= n ==> buf == Some(old(rest)[..n]) && rest == old(rest)[n..]
    {
      if |rest| < n {
        rest := "";
        return None;
      }
      buf := Some(rest[..n]);
      rest := rest[n..];
    }
  }

  method ReadFrameBody(br: Reader, length: int) returns (frame: Result<string>)
    modifies br
    ensures (frame, br.rest) == ReadBody(old(br.rest), length, br.end)
  {
    if length <= 0 {
      return Err(MissingContentLength);
    }
    if length > MAX_FRAME_SIZE {
      return Err(FrameTooLarge);
    }
    var buf := br.ReadFull(length);
    if buf.None? {
      return Err(if br.end.Eof? then FrameTruncated else EndError(br.end));
    }
    frame := Ok(buf.value);
  }

  method ReadMpjpegFrame(br: Reader, cancelled: bool) returns (frame: Result<string>)
    modifies br
    ensures cancelled ==> frame == Err(Cancelled) && br.rest == old(br.rest)
    ensures !cancelled ==> (frame, br.rest) == ReadFrame(old(br.rest), br.end)
  {
    if cancelled {
      return Err(Cancelled);
    }
    while true
      invariant SkipToBoundary(br.rest) == SkipToBoundary(old(br.rest))
      decreases |br.rest|
    {
      var line := br.ReadLine();
      if line.None? {
        return Err(EndError(br.end));
      }
      if IsBoundary(line.value) {
        break;
      }
    }
    ghost var headers := br.rest;
    assert SkipToBoundary(old(br.rest)) == Some(headers);
    var contentLength := 0;
    while true
      invariant ReadHeaders(br.rest, contentLength, br.end) == ReadHeaders(headers, 0, br.end)
      decreases |br.rest|
    {
      var line := br.ReadLine();
      if line.None? {
        return Err(EndError(br.end));
      }
      var trimmed := TrimEol(line.value);
      if trimmed == "" {
        break;
      }
      var colon := IndexOf(trimmed, ':');
      if colon < 0 {
        continue;
      }
      if IsContentLength(trimmed[..colon]) {
        var n := Atoi(TrimSpace(trimmed[colon + 1..]));
        if n.None? {
          return Err(BadContentLength);
        }
        contentLength := n.value;
      }
    }
    assert ReadHeaders(headers, 0, br.end) == (Ok(contentLength), br.rest);
    frame := ReadFrameBody(br, contentLength);
  }

  // ---------- round trip ---------------------------------------------------------------

  /** Frames as callers see them: every frame until the first error, and that error. */
  function ReadAll(s: string, end: End): (seq<string>, Error)
    decreases |s|
  {
    var (frame, rest) := ReadFrame(s, end);
    match frame
    case Err(e) => ([], e)
    case Ok(body) => var (more, e) := ReadAll(rest, end); ([body] + more, e)
  }

  const TYPE_HEADER := "Content-type: image/jpeg"
  const LENGTH_KEY := "Content-length"

  /** Two header lines and the empty line. */
  function HeaderBlock(first: string, second: string, eol: string): string {
    first + eol + (second + eol + eol)
  }

  /** One frame to be sent, and whether its lines end in `\r\n` or in `\n`. */
  datatype Frame = Frame(body: string, crlf: bool) {
    predicate Valid() { 1 <= |body| <= MAX_FRAME_SIZE }

    function Eol(): string { if crlf then "\r\n" else "\n" }

    function Headers(): string {
      HeaderBlock(TYPE_HEADER, LENGTH_KEY + ": " + Itoa(|body|), Eol())
    }

    /** The multipart shape the muxer writes. */
    function Rendered(): string {
      BOUNDARY + Eol() + (Headers() + (body + Eol()))
    }
  }

  function Render(frames: seq<Frame>): string {
    if frames == [] then "" else frames[0].Rendered() + Render(frames[1..])
  }

  function Bodies(frames: seq<Frame>): seq<string> {
    if frames == [] then [] else [frames[0].body] + Bodies(frames[1..])
  }

  /** Whole lines, none of them a boundary. */
  predicate Prelude(s: string) {
    SkipToBoundary(s).None? && (s == "" || s[|s| - 1] == '\n')
  }

  lemma CutLineOf(line: string, rest: string)
    requires IsLine(line)
    ensures CutLine(line + rest) == Some((line, rest))
  {
    var s := line + rest;
    assert s[..|line| - 1] == line[..|line| - 1];
    IndexOfUnique(s, '\n', |line| - 1);
    assert s[..|line|] == line && s[|line|..] == rest;
  }

  predicate IsLine(line: string) {
    line != "" && line[|line| - 1] == '\n' && '\n' !in line[..|line| - 1]
  }

  lemma SkipLine(line: string, rest: string)
    requires IsLine(line)
    ensures SkipToBoundary(line + rest) == if IsBoundary(line) then Some(rest) else SkipToBoundary(rest)
  {
    hide IsBoundary;
    CutLineOf(line, rest);
  }

  lemma PreludeLine(pre: string) returns (line: string, more: string)
    requires Prelude(pre) && pre != ""
    ensures pre == line + more && IsLine(line) && !IsBoundary(line) && Prelude(more)
  {
    hide IsBoundary;
    assert pre[|pre| - 1] in pre;
    line, more := CutLine(pre).value.0, CutLine(pre).value.1;
    assert more != "" ==> more[|more| - 1] == pre[|pre| - 1];
  }

  lemma {:induction false} SkipPrelude(pre: string, rest: string)
    requires Prelude(pre)
    ensures SkipToBoundary(pre + rest) == SkipToBoundary(rest)
    decreases |pre|
  {
    hide Prelude, SkipToBoundary, IsBoundary, IsLine;
    if pre == "" {
      assert pre + rest == rest;
    } else {
      var line, more := PreludeLine(pre);
      LineNotEmpty(line);
      assert pre + rest == line + (more + rest);
      SkipLine(line, more + rest);
      SkipPrelude(more, rest);
    }
  }

  lemma LineNotEmpty(line: string)
    requires IsLine(line)
    ensures line != ""
  {
  }

  lemma EolIsPrelude(f: Frame)
    ensures Prelude(f.Eol())
  {
  }

  lemma TrimBeforeEol(f: Frame, text: string)
    requires text != "" && Trimmed(text) && !IsSpaceStart(text[0])
    ensures TrimSpace(text + f.Eol()) == text
  {
    var line := text + f.Eol();
    assert TrimRight(text) == text;
    assert TrimLeft(line) == line;
    if f.crlf {
      assert line[..|line| - 1] == text + "\r";
      assert (text + "\r")[..|text|] == text;
      assert TrimRight(text + "\r") == TrimRight(text);
    } else {
      assert line[..|line| - 1] == text;
    }
  }

  /** Could begin a white-space rune. */
  predicate IsSpaceStart(c: char) {
    IsAsciiSpace(c) || c == '\U{C2}' || c == '\U{E1}' || c == '\U{E2}' || c == '\U{E3}'
  }

  lemma BoundaryLine(f: Frame, rest: string)
    ensures SkipToBoundary(BOUNDARY + f.Eol() + rest) == Some(rest)
  {
    CutLineOf(BOUNDARY + f.Eol(), rest);
    TrimBeforeEol(f, BOUNDARY);
  }

  /** A header line without trailing line-end characters, followed by a line end. */
  lemma HeaderLine(f: Frame, text: string, rest: string, length: int, end: End)
    requires text != "" && '\n' !in text && text[|text| - 1] != '\r'
    ensures ReadHeaders(text + f.Eol() + rest, length, end)
         == match HeaderLength(text, length)
            case None => (Err(BadContentLength), rest)
            case Some(n) => ReadHeaders(rest, n, end)
  {
    var line := text + f.Eol();
    assert text[|text| - 1] in text;
    CutLineOf(line, rest);
    TrimEolOf(f, text);
  }

  lemma TrimEolOf(f: Frame, text: string)
    requires text != "" ==> text[|text| - 1] != '\r' && text[|text| - 1] != '\n'
    ensures TrimEol(text + f.Eol()) == text
  {
    hide TrimEol;
    NoEol(text);
    TrimEolStep(text, '\r');
    if f.crlf {
      assert text + f.Eol() == text + "\r" + ['\n'];
      TrimEolStep(text + "\r", '\n');
    } else {
      TrimEolStep(text, '\n');
    }
  }

  lemma NoEol(text: string)
    requires text != "" ==> text[|text| - 1] != '\r' && text[|text| - 1] != '\n'
    ensures TrimEol(text) == text
  {
  }

  lemma TrimEolStep(s: string, c: char)
    requires c == '\r' || c == '\n'
    ensures TrimEol(s + [c]) == TrimEol(s)
  {
    assert (s + [c])[..|s|] == s;
  }

  lemma TypeText(text: string)
    requires text == TYPE_HEADER
    ensures IsHeaderText(text)
  {
  }

  lemma TypeHeaderIgnored(text: string)
    requires text == TYPE_HEADER
    ensures HeaderLength(text, 0) == Some(0)
  {
    assert text[12] == ':' && ':' !in text[..12];
    ShortKeyIgnored(text, 12);
  }

  lemma ShortKeyIgnored(text: string, colon: nat)
    requires colon < |text| && text[colon] == ':' && ':' !in text[..colon] && colon < 14
    ensures HeaderLength(text, 0) == Some(0)
  {
  }

  lemma LengthKey(key: string)
    requires key == LENGTH_KEY
    ensures IsContentLength(key) && ':' !in key
  {
    TrimTrimmed(key);
  }

  lemma SpacedNumeral(n: nat)
    requires n <= Int64.MAX
    ensures Atoi(TrimSpace(" " + Itoa(n))) == Some(n)
  {
    var value := " " + Itoa(n);
    assert value[1..] == Itoa(n);
    DigitsTrimmed(Itoa(n));
    assert TrimLeft(value) == Itoa(n);
    AtoiItoa(n);
  }

  lemma HeaderSplit(key: string, value: string, length: int)
    requires ':' !in key
    ensures HeaderLength(key + ":" + value, length)
         == if IsContentLength(key) then Atoi(TrimSpace(value)) else Some(length)
  {
    var line := key + ":" + value;
    assert line[..|key|] == key && line[|key| + 1..] == value;
    IndexOfUnique(line, ':', |key|);
  }

  lemma LengthHeaderRead(key: string, n: nat, length: int)
    requires n <= Int64.MAX && IsContentLength(key) && ':' !in key
    ensures HeaderLength(key + ": " + Itoa(n), length) == Some(n)
  {
    HeaderSplit(key, " " + Itoa(n), length);
    SpacedNumeral(n);
    ColonSpace(key, Itoa(n));
  }

  lemma ColonSpace(key: string, value: string)
    ensures key + ": " + value == key + ":" + (" " + value)
  {
  }

  lemma DigitsTrimmed(s: string)
    requires s != "" && AllDigits(s)
    ensures Trimmed(s) && TrimLeft(s) == s && TrimRight(s) == s
  {
    assert s[0] in s && s[|s| - 1] in s;
  }

  lemma EmptyLine(f: Frame, rest: string, length: int, end: End)
    ensures ReadHeaders(f.Eol() + rest, length, end) == (Ok(length), rest)
  {
    CutLineOf(f.Eol(), rest);
    TrimEolOf(f, "");
    assert "" + f.Eol() == f.Eol();
  }

  lemma TwoHeaders(f: Frame, first: string, second: string, rest: string, n: int, end: End)
    requires IsHeaderText(first) && HeaderLength(first, 0) == Some(0)
    requires IsHeaderText(second) && HeaderLength(second, 0) == Some(n)
    ensures ReadHeaders(HeaderBlock(first, second, f.Eol()) + rest, 0, end) == (Ok(n), rest)
  {
    var e := f.Eol();
    BlockThen(first, second, e, rest);
    HeaderLine(f, first, second + e + (e + rest), 0, end);
    HeaderLine(f, second, e + rest, 0, end);
    EmptyLine(f, rest, n, end);
  }

  predicate IsHeaderText(text: string) {
    text != "" && '\n' !in text && text[|text| - 1] != '\r'
  }

  lemma BlockThen(first: string, second: string, e: string, rest: string)
    ensures HeaderBlock(first, second, e) + rest == first + e + (second + e + (e + rest))
  {
  }

  lemma LengthText(key: string, n: nat)
    requires key == LENGTH_KEY
    ensures IsHeaderText(key + ": " + Itoa(n))
  {
  }

  lemma LengthHeader(key: string, n: nat)
    requires key == LENGTH_KEY && n <= Int64.MAX
    ensures var text := key + ": " + Itoa(n); IsHeaderText(text) && HeaderLength(text, 0) == Some(n)
  {
    LengthKey(key);
    LengthHeaderRead(key, n, 0);
    LengthText(key, n);
  }

  lemma HeadersRead(f: Frame, rest: string, end: End)
    requires f.Valid()
    ensures ReadHeaders(f.Headers() + rest, 0, end) == (Ok(|f.body|), rest)
  {
    TypeText(TYPE_HEADER);
    TypeHeaderIgnored(TYPE_HEADER);
    LengthHeader(LENGTH_KEY, |f.body|);
    TwoHeaders(f, TYPE_HEADER, LENGTH_KEY + ": " + Itoa(|f.body|), rest, |f.body|, end);
  }

  lemma BodyRead(body: string, rest: string, end: End)
    requires 1 <= |body| <= MAX_FRAME_SIZE
    ensures ReadBody(body + rest, |body|, end) == (Ok(body), rest)
  {
  }

  /** `boundary` and `headers` stand for the frame's own. */
  lemma PartsRead(pre: string, boundary: string, headers: string, body: string, rest: string, end: End)
    requires Prelude(pre) && 1 <= |body| <= MAX_FRAME_SIZE
    requires SkipToBoundary(boundary + (headers + (body + rest))) == Some(headers + (body + rest))
    requires ReadHeaders(headers + (body + rest), 0, end) == (Ok(|body|), body + rest)
    ensures ReadFrame(pre + (boundary + (headers + (body + rest))), end) == (Ok(body), rest)
  {
    SkipPrelude(pre, boundary + (headers + (body + rest)));
    BodyRead(body, rest, end);
  }

  lemma FrameRead(pre: string, f: Frame, rest: string, end: End)
    requires Prelude(pre) && f.Valid()
    ensures ReadFrame(pre + (f.Rendered() + rest), end) == (Ok(f.body), f.Eol() + rest)
  {
    var boundary, headers, tail := BOUNDARY + f.Eol(), f.Headers(), f.Eol() + rest;
    BoundaryLine(f, headers + (f.body + tail));
    HeadersRead(f, f.body + tail, end);
    PartsRead(pre, boundary, headers, f.body, tail, end);
    Reassociate(boundary, headers, f.body, f.Eol(), rest);
  }

  lemma Reassociate(a: string, b: string, c: string, d: string, e: string)
    ensures a + (b + (c + d)) + e == a + (b + (c + (d + e)))
  {
  }

  /** Reading back a rendered stream returns exactly the bodies that were sent, in order,
      and then the end of the stream, clean or not: for any bodies, including ones that look like
      boundaries or headers, with either line ending in every frame, and after any prelude
      without a boundary line. */
  lemma {:induction false} FramesRoundTrip(pre: string, frames: seq<Frame>, end: End)
    requires Prelude(pre) && forall f <- frames :: f.Valid()
    ensures ReadAll(pre + Render(frames), end) == (Bodies(frames), EndError(end))
    decreases |frames|
  {
    if frames == [] {
      SkipPrelude(pre, "");
      assert CutLine("") == None;
    } else {
      var f := frames[0];
      FrameRead(pre, f, Render(frames[1..]), end);
      EolIsPrelude(f);
      FramesRoundTrip(f.Eol(), frames[1..], end);
    }
  }

  // ---------- streams that break off ---------------------------------------------------

  lemma CutLineMore(s: string, more: string)
    requires CutLine(s).Some?
    ensures var (line, rest) := CutLine(s).value; CutLine(s + more) == Some((line, rest + more))
  {
    var i := IndexOf(s, '\n');
    assert (s + more)[..i] == s[..i] && (s + more)[..i + 1] == s[..i + 1] && (s + more)[i + 1..] == s[i + 1..] + more;
    IndexOfUnique(s + more, '\n', i);
  }

  lemma {:induction false} SkipMore(s: string, more: string)
    requires SkipToBoundary(s).Some?
    ensures SkipToBoundary(s + more) == Some(SkipToBoundary(s).value + more)
    decreases |s|
  {
    hide CutLine, IsBoundary;
    CutLineMore(s, more);
    var (line, rest) := CutLine(s).value;
    if !IsBoundary(line) { SkipMore(rest, more); }
  }

  lemma {:induction false} HeadersMore(s: string, length: int, more: string, end: End, end': End)
    requires ReadHeaders(s, length, end).0.Ok?
    ensures var (n, rest) := ReadHeaders(s, length, end);
            ReadHeaders(s + more, length, end') == (n, rest + more)
    decreases |s|
  {
    hide CutLine, HeaderLength, TrimEol;
    CutLineMore(s, more);
    var (line, rest) := CutLine(s).value;
    var trimmed := TrimEol(line);
    if trimmed != "" { HeadersMore(rest, HeaderLength(trimmed, length).value, more, end, end'); }
  }

  lemma BodyMore(s: string, length: int, more: string, end: End, end': End)
    requires ReadBody(s, length, end).0.Ok?
    ensures var (body, rest) := ReadBody(s, length, end); ReadBody(s + more, length, end') == (body, rest + more)
    ensures |ReadBody(s, length, end).0.value| == length
  {
    assert (s + more)[..length] == s[..length] && (s + more)[length..] == s[length..] + more;
  }

  /** A frame that was read from the beginning of a stream is read in the same way when more
      of the stream is there. */
  lemma FrameMore(s: string, more: string, end: End, end': End)
    requires ReadFrame(s, end).0.Ok?
    ensures var (frame, rest) := ReadFrame(s, end); ReadFrame(s + more, end') == (frame, rest + more)
  {
    hide SkipToBoundary, ReadHeaders, ReadBody;
    var headers := SkipToBoundary(s).value;
    var (length, rest) := ReadHeaders(headers, 0, end);
    SkipMore(s, more);
    HeadersMore(headers, 0, more, end, end');
    BodyMore(rest, length.value, more, end, end');
  }

  /** A stream that breaks off anywhere gives some of the first frames of the whole stream and
      nothing else: no frame is cut short, changed or made up. */
  lemma {:induction false} CutStreamGivesFirstFrames(s: string, more: string, end: End, end': End)
    ensures ReadAll(s, end).0 <= ReadAll(s + more, end').0
    decreases |s|
  {
    hide ReadFrame;
    var (frame, rest) := ReadFrame(s, end);
    if frame.Ok? {
      FrameMore(s, more, end, end');
      CutStreamGivesFirstFrames(rest, more, end, end');
    }
  }

  /** So whatever part of a rendered stream arrives, the frames read are first bodies. */
  lemma CutRenderedStream(pre: string, frames: seq<Frame>, n: nat, end: End)
    requires Prelude(pre) && (forall f <- frames :: f.Valid()) && n <= |pre + Render(frames)|
    ensures ReadAll((pre + Render(frames))[..n], end).0 <= Bodies(frames)
  {
    hide ReadAll, Render, Bodies, Prelude;
    var s := pre + Render(frames);
    assert s == s[..n] + s[n..];
    FramesRoundTrip(pre, frames, end);
    CutStreamGivesFirstFrames(s[..n], s[n..], end, end);
  }

  // ---------- frames that are refused ----------------------------------------------------

  /** What a frame looks like on the wire. */
  lemma RenderedText(body: string)
    ensures Frame(body, true).Rendered()
         == "--ffmpeg" + "\r\n" + (("Content-type: image/jpeg" + "\r\n"
            + ("Content-length" + ": " + Itoa(|body|) + "\r\n" + "\r\n")) + (body + "\r\n"))
    ensures Frame(body, false).Rendered()
         == "--ffmpeg" + "\n" + (("Content-type: image/jpeg" + "\n"
            + ("Content-length" + ": " + Itoa(|body|) + "\n" + "\n")) + (body + "\n"))
  {
  }

  /** An announced length of zero or of more than 32 MiB is refused, whatever follows. */
  lemma LengthRefused(f: Frame, n: nat, rest: string, end: End)
    requires n == 0 || 33_554_432 < n <= Int64.MAX
    ensures ReadFrame(BOUNDARY + f.Eol() + (HeaderBlock(TYPE_HEADER, LENGTH_KEY + ": " + Itoa(n), f.Eol()) + rest), end)
         == (Err(if n == 0 then MissingContentLength else FrameTooLarge), rest)
  {
    hide ReadFrame, HeaderBlock, Itoa, HeaderLength;
    TypeText(TYPE_HEADER);
    TypeHeaderIgnored(TYPE_HEADER);
    LengthHeader(LENGTH_KEY, n);
    HeadersThenBody(f, TYPE_HEADER, LENGTH_KEY + ": " + Itoa(n), rest, n, end);
  }

  lemma HeadersThenBody(f: Frame, first: string, second: string, rest: string, n: int, end: End)
    requires IsHeaderText(first) && HeaderLength(first, 0) == Some(0)
    requires IsHeaderText(second) && HeaderLength(second, 0) == Some(n)
    ensures ReadFrame(BOUNDARY + f.Eol() + (HeaderBlock(first, second, f.Eol()) + rest), end) == ReadBody(rest, n, end)
  {
    hide SkipToBoundary, ReadHeaders, ReadBody, HeaderBlock, HeaderLength;
    BoundaryLine(f, HeaderBlock(first, second, f.Eol()) + rest);
    TwoHeaders(f, first, second, rest, n, end);
  }

  /** What counts as a boundary, and that the case of a header's name does not matter. */
  lemma LinesByName(line: string, key: string, other: string)
    ensures IsBoundary(line) <==> "--ffmpeg" <= TrimSpace(line)
    ensures Trimmed(key) && Trimmed(other) && EqualFold(key, other) ==> IsContentLength(key) == IsContentLength(other)
  {
    hide TrimSpace;
    if Trimmed(key) { TrimTrimmed(key); }
    if Trimmed(other) { TrimTrimmed(other); }
  }

  /** Other headers, and lines without a colon, leave the length as it was; a length header
      replaces it, so the last one counts. */
  lemma HeaderLineMeans(key: string, value: string, length: int)
    requires ':' !in key
    ensures HeaderLength(key, length) == Some(length)
    ensures HeaderLength(key + ":" + value, length)
         == if EqualFold(TrimSpace(key), "Content-Length") then Atoi(TrimSpace(value)) else Some(length)
  {
    hide TrimSpace, Atoi;
    HeaderSplit(key, value, length);
  }

  /** Without a length there is no frame. */
  lemma LengthMissing(f: Frame, rest: string, end: End)
    ensures ReadFrame(BOUNDARY + f.Eol() + (f.Eol() + rest), end) == (Err(MissingContentLength), rest)
  {
    hide SkipToBoundary, ReadHeaders;
    BoundaryLine(f, f.Eol() + rest);
    EmptyLine(f, rest, 0, end);
  }

  /** A length that is no number is refused. */
  lemma LengthUnreadable(f: Frame, value: string, rest: string, end: End)
    requires Atoi(TrimSpace(value)).None? && '\n' !in value && (value == "" || value[|value| - 1] != '\r')
    ensures ReadFrame(BOUNDARY + f.Eol() + (LENGTH_KEY + ":" + value + f.Eol() + rest), end)
         == (Err(BadContentLength), rest)
  {
    hide SkipToBoundary, ReadHeaders, Atoi, TrimSpace;
    var key := LENGTH_KEY;
    BoundaryLine(f, key + ":" + value + f.Eol() + rest);
    LengthKey(key);
    HeaderSplit(key, value, 0);
    assert '\n' !in key && '\n' !in key + ":" + value;
    HeaderLine(f, key + ":" + value, rest, 0, end);
  }
}
