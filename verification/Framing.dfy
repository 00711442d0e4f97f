/**
  Newline framing on the data plane: the extension's reader and writer
  (extension/src/notebook/pty-kernel-client.ts) and the driver's reader
  (llm_client/transport/tcp.py).
 */
module Framing {
  import opened Common
  import opened Json
  import opened Text

  // ---- lines -------------------------------------------------------------------------------

  lemma {:induction false} IndexOfFirst(s: string, c: char)
    ensures var i := IndexOf(s, c);
      if i < 0 then c !in s else s[i] == c && c !in s[..i] && s == s[..i] + [c] + s[i + 1..]
  {
    if s != "" && s[0] != c {
      IndexOfFirst(s[1..], c);
      var r := IndexOf(s[1..], c);
      if r >= 0 {
        assert s[..r + 1] == [s[0]] + s[1..][..r];
      }
    }
  }

  /** What follows the last line break. */
  function Tail(s: string): string {
    if s == "" || s[|s| - 1] == '\n' then "" else Tail(s[..|s| - 1]) + [s[|s| - 1]]
  }

  /** The complete lines of a stream. */
  function Lines(s: string): seq<string> {
    if s == "" then []
    else Lines(s[..|s| - 1]) + if s[|s| - 1] == '\n' then [Tail(s[..|s| - 1])] else []
  }

  /** One more character. */
  lemma Push(s: string, c: char)
    ensures Lines(s + [c]) == Lines(s) + if c == '\n' then [Tail(s)] else []
    ensures Tail(s + [c]) == if c == '\n' then "" else Tail(s) + [c]
  {
    assert (s + [c])[..|s|] == s;
  }

  lemma {:induction false} OneLine(s: string)
    requires '\n' !in s
    ensures Tail(s) == s && Lines(s) == []
  {
    if s != "" {
      var n := |s| - 1;
      assert s == s[..n] + [s[n]];
      OneLine(s[..n]);
      Push(s[..n], s[n]);
    }
  }

  lemma {:induction false} TailIsOneLine(s: string)
    ensures '\n' !in Tail(s)
  {
    if s != "" && s[|s| - 1] != '\n' {
      TailIsOneLine(s[..|s| - 1]);
    }
  }

  lemma {:induction false} LinesConcat(a: string, b: string)
    ensures Lines(a + b) == Lines(a) + Lines(Tail(a) + b)
    ensures Tail(a + b) == Tail(Tail(a) + b)
    decreases |b|
  {
    if b == "" {
      assert a + b == a && Tail(a) + b == Tail(a);
      TailIsOneLine(a);
      OneLine(Tail(a));
    } else {
      var n := |b| - 1;
      LinesConcat(a, b[..n]);
      assert a + b == (a + b[..n]) + [b[n]];
      assert Tail(a) + b == (Tail(a) + b[..n]) + [b[n]];
      Push(a + b[..n], b[n]);
      Push(Tail(a) + b[..n], b[n]);
    }
  }

  lemma HeadLine(line: string)
    requires '\n' !in line
    ensures Lines(line + ['\n']) == [line] && Tail(line + ['\n']) == ""
  {
    OneLine(line);
    Push(line, '\n');
  }

  lemma FirstLine(line: string, rest: string)
    requires '\n' !in line
    ensures Lines(line + ['\n'] + rest) == [line] + Lines(rest)
    ensures Tail(line + ['\n'] + rest) == Tail(rest)
  {
    HeadLine(line);
    var head := line + ['\n'];
    assert Tail(head) + rest == rest;
    LinesConcat(head, rest);
  }

  /** The lines that are dispatched: one trailing carriage return dropped, empty lines skipped. */
  function Dispatchable(lines: seq<string>): seq<string> {
    if lines == [] then []
    else (if StripCR(lines[0]) == "" then [] else [StripCR(lines[0])]) + Dispatchable(lines[1..])
  }

  lemma {:induction false} DispatchableConcat(a: seq<string>, b: seq<string>)
    ensures Dispatchable(a + b) == Dispatchable(a) + Dispatchable(b)
  {
    if a == [] {
      assert a + b == b;
    } else {
      assert (a + b)[1..] == a[1..] + b;
      DispatchableConcat(a[1..], b);
    }
  }

  /** Dispatching the first line moves it from the lines to come to the lines done. */
  lemma DispatchFirst(done: seq<string>, s: string)
    requires IndexOf(s, '\n') >= 0
    ensures var nl := IndexOf(s, '\n');
      var line, rest := StripCR(s[..nl]), s[nl + 1..];
      && Tail(s) == Tail(rest)
      && done + Dispatchable(Lines(s)) == (if line == "" then done else done + [line]) + Dispatchable(Lines(rest))
  {
    var nl := IndexOf(s, '\n');
    IndexOfFirst(s, '\n');
    var rest := s[nl + 1..];
    FirstLine(s[..nl], rest);
    assert ([s[..nl]] + Lines(rest))[1..] == Lines(rest);
  }

  // ---- the extension's reader ------------------------------------------------------------------

  class Reader {
    var incomingBuffer: string
    var dispatched: seq<string> // every line handed to `dispatchLine`, in order

    constructor ()
      ensures incomingBuffer == "" && dispatched == []
    {
      incomingBuffer, dispatched := "", [];
    }

    method OnSocketData(text: string)
      modifies this
      ensures incomingBuffer == Tail(old(incomingBuffer) + text)
      ensures dispatched == old(dispatched) + Dispatchable(Lines(old(incomingBuffer) + text))
    {
      incomingBuffer := incomingBuffer + text;
      DispatchLines();
    }

    /** The loop: cut complete lines off the buffer and dispatch the non-empty ones. */
    method DispatchLines()
      modifies this
      ensures incomingBuffer == Tail(old(incomingBuffer))
      ensures dispatched == old(dispatched) + Dispatchable(Lines(old(incomingBuffer)))
    {
      var nl := IndexOf(incomingBuffer, '\n');
      while nl >= 0
        invariant nl == IndexOf(incomingBuffer, '\n')
        invariant Tail(incomingBuffer) == Tail(old(incomingBuffer))
        invariant dispatched + Dispatchable(Lines(incomingBuffer))
               == old(dispatched + Dispatchable(Lines(incomingBuffer)))
        decreases |incomingBuffer|
      {
        DispatchFirst(dispatched, incomingBuffer);
        var line := incomingBuffer[..nl];
        incomingBuffer := incomingBuffer[nl + 1..];
        var trimmed := StripCR(line);
        if |trimmed| > 0 {
          dispatched := dispatched + [trimmed];
        }
        nl := IndexOf(incomingBuffer, '\n');
      }
      IndexOfFirst(incomingBuffer, '\n');
      OneLine(incomingBuffer);
    }
  }

  function Concat(chunks: seq<string>): string {
    if chunks == [] then "" else chunks[0] + Concat(chunks[1..])
  }

  /** The reader over a whole session: lines dispatched and buffer left. */
  function Feed(buffer: string, chunks: seq<string>): (seq<string>, string)
    decreases |chunks|
  {
    if chunks == [] then ([], buffer)
    else
      var all := buffer + chunks[0];
      var (rest, end) := Feed(Tail(all), chunks[1..]);
      (Dispatchable(Lines(all)) + rest, end)
  }

  /** However the stream is cut into chunks, the lines dispatched are exactly the non-empty complete
      lines of the concatenation and the buffer is its unterminated tail. */
  lemma {:induction false} AnyChunking(buffer: string, chunks: seq<string>)
    requires '\n' !in buffer
    ensures Feed(buffer, chunks).0 == Dispatchable(Lines(buffer + Concat(chunks)))
    ensures Feed(buffer, chunks).1 == Tail(buffer + Concat(chunks))
    decreases |chunks|
  {
    if chunks == [] {
      OneLine(buffer);
      assert buffer + "" == buffer;
    } else {
      var all, rest := buffer + chunks[0], Concat(chunks[1..]);
      TailIsOneLine(all);
      AnyChunking(Tail(all), chunks[1..]);
      assert buffer + (chunks[0] + rest) == all + rest;
      LinesConcat(all, rest);
      DispatchableConcat(Lines(all), Lines(Tail(all) + rest));
    }
  }

  /** A line as a peer may send it: the text, and whether a carriage return stands before the line break. */
  datatype Sent = Sent(text: string, cr: bool)

  function SentText(lines: seq<Sent>): string {
    if lines == [] then ""
    else lines[0].text + (if lines[0].cr then "\r\n" else "\n") + SentText(lines[1..])
  }

  /** The texts that are not empty, in order. */
  function NonEmpty(lines: seq<Sent>): seq<string> {
    if lines == [] then [] else (if lines[0].text == "" then [] else [lines[0].text]) + NonEmpty(lines[1..])
  }

  /** Lines ended by either kind of line break, in any chunks: exactly the non-empty ones are dispatched, in order,
      without their line break. */
  lemma EitherLineBreak(lines: seq<Sent>, chunks: seq<string>)
    requires forall l <- lines :: '\n' !in l.text && '\r' !in l.text
    requires Concat(chunks) == SentText(lines)
    ensures Feed("", chunks) == (NonEmpty(lines), "")
  {
    AnyChunking("", chunks);
    assert "" + Concat(chunks) == SentText(lines);
    SentLines(lines);
  }

  lemma {:induction false} SentLines(lines: seq<Sent>)
    requires forall l <- lines :: '\n' !in l.text && '\r' !in l.text
    ensures Dispatchable(Lines(SentText(lines))) == NonEmpty(lines) && Tail(SentText(lines)) == ""
  {
    if lines != [] {
      var l, rest := lines[0], SentText(lines[1..]);
      assert l in lines;
      SentLines(lines[1..]);
      var raw := l.text + if l.cr then "\r" else "";
      SentLine(l, rest);
      FirstLine(raw, rest);
      StripsBreak(l);
      assert ([raw] + Lines(rest))[1..] == Lines(rest);
    }
  }

  lemma SentLine(l: Sent, rest: string)
    ensures l.text + (if l.cr then "\r\n" else "\n") + rest == (l.text + if l.cr then "\r" else "") + ['\n'] + rest
  {
    assert "\r\n" == "\r" + ['\n'];
  }

  lemma StripsBreak(l: Sent)
    requires '\n' !in l.text && '\r' !in l.text
    ensures var raw := l.text + if l.cr then "\r" else ""; '\n' !in raw && StripCR(raw) == l.text
  {
    assert !l.cr ==> l.text + "" == l.text;
    assert l.text != "" ==> l.text[|l.text| - 1] in l.text;
  }

  // ---- the extension's writer ------------------------------------------------------------------

  /** A frame, or a value that `JSON.stringify` refuses. */
  datatype Frame = Frame(json: Json) | Unserialisable

  /** The bytes a list of frames puts on the wire. */
  function Encode(frames: seq<Frame>): string {
    if frames == [] then ""
    else EncodeFrame(frames[0]) + Encode(frames[1..])
  }

  function EncodeFrame(f: Frame): string {
    if f.Frame? then Print(f.json) + "\n" else ""
  }

  lemma {:induction false} EncodeConcat(a: seq<Frame>, b: seq<Frame>)
    ensures Encode(a + b) == Encode(a) + Encode(b)
  {
    if a == [] {
      assert a + b == b;
    } else {
      assert (a + b)[0] == a[0] && (a + b)[1..] == a[1..] + b;
      EncodeConcat(a[1..], b);
      Associates(EncodeFrame(a[0]), Encode(a[1..]), Encode(b));
    }
  }

  lemma EncodeOne(f: Frame)
    ensures Encode([f]) == EncodeFrame(f)
  {
    assert [f][1..] == [];
  }

  ghost function SentBefore(issued: seq<Frame>, buffer: seq<Frame>, i: nat): string
    requires i <= |buffer| <= |issued|
  {
    Encode(issued[..|issued| - |buffer| + i])
  }

  lemma SentAll(issued: seq<Frame>, buffer: seq<Frame>)
    requires |buffer| <= |issued|
    ensures SentBefore(issued, buffer, 0) == Encode(issued[..|issued| - |buffer|])
    ensures SentBefore(issued, buffer, |buffer|) == Encode(issued)
  {
    assert issued[..|issued|] == issued;
  }

  /** The buffer holds the last of what was issued; its frame i goes out after everything issued before it. */
  lemma EncodeNext(issued: seq<Frame>, buffer: seq<Frame>, i: nat)
    requires i < |buffer| <= |issued| && buffer == issued[|issued| - |buffer|..]
    ensures SentBefore(issued, buffer, i + 1) == SentBefore(issued, buffer, i) + EncodeFrame(buffer[i])
  {
    var k := |issued| - |buffer| + i;
    TakeOneMore(issued, buffer, i);
    EncodeSnoc(issued[..k], buffer[i]);
  }

  lemma TakeOneMore(issued: seq<Frame>, buffer: seq<Frame>, i: nat)
    requires i < |buffer| <= |issued| && buffer == issued[|issued| - |buffer|..]
    ensures var k := |issued| - |buffer| + i; issued[..k + 1] == issued[..k] + [buffer[i]]
  {
  }

  lemma EncodeSnoc(frames: seq<Frame>, f: Frame)
    ensures Encode(frames + [f]) == Encode(frames) + EncodeFrame(f)
  {
    EncodeConcat(frames, [f]);
    EncodeOne(f);
  }

  /** `issued` lists every frame handed to `writeFrame` since construction. */
  class Writer {
    var connected: bool
    var disposed: bool
    var outboundBuffer: seq<Frame>
    var wire: string
    ghost var issued: seq<Frame>

    /** Nothing lost, duplicated or reordered: the wire, then the buffer, is what was issued. */
    ghost predicate Valid()
      reads this
    {
      && |outboundBuffer| <= |issued|
      && outboundBuffer == issued[|issued| - |outboundBuffer|..]
      && wire == Encode(issued[..|issued| - |outboundBuffer|])
    }

    constructor ()
      ensures Valid() && issued == [] && !connected && !disposed
    {
      disposed := false;
      connected, outboundBuffer, wire, issued := false, [], "", [];
    }

    method WriteFrame(f: Frame)
      requires Valid() && (connected ==> outboundBuffer == [])
      modifies this
      ensures Valid() && issued == old(issued) + [f] && connected == old(connected) && disposed == old(disposed)
      ensures connected ==> outboundBuffer == []
    {
      issued := issued + [f];
      if !connected {
        outboundBuffer := outboundBuffer + [f];
        assert issued[..|issued| - |outboundBuffer|] == old(issued)[..|old(issued)| - |old(outboundBuffer)|];
        return;
      }
      assert old(issued)[..|old(issued)|] == old(issued) && issued[..|issued|] == issued;
      EncodeSnoc(old(issued), f);
      WriteFrameDirect(f);
    }

    method WriteFrameDirect(f: Frame)
      modifies this`wire
      ensures wire == old(wire) + if connected then EncodeFrame(f) else ""
    {
      if connected && f.Frame? {
        wire := wire + Print(f.json) + "\n";
      }
    }

    /** The kernel connects: flush in order, then write directly.  A second client is turned away. */
    method OnConnection()
      requires Valid() && (connected ==> outboundBuffer == []) && !disposed
      modifies this
      ensures Valid() && connected && outboundBuffer == [] && issued == old(issued) && !disposed
      ensures wire == Encode(issued)
    {
      assert outboundBuffer == [] ==> issued[..|issued|] == issued;
      if connected {
        return;
      }
      connected := true;
      FlushBuffer();
      outboundBuffer := [];
      assert issued[..|issued|] == issued;
    }

    method FlushBuffer()
      requires Valid() && connected
      modifies this`wire
      ensures wire == Encode(issued)
    {
      var frames := outboundBuffer;
      ghost var all := issued;
      SentAll(all, frames);
      for i := 0 to |frames|
        invariant connected && issued == all && wire == SentBefore(all, frames, i)
      {
        EncodeNext(all, frames, i);
        WriteFrameDirect(frames[i]);
      }
    }

    /** The socket and its server are gone for good; later frames pile up in the buffer. */
    method Dispose()
      requires Valid()
      modifies this`connected, this`disposed
      ensures Valid() && !connected && disposed
    {
      connected, disposed := false, true;
    }
  }

  /** The texts of the frames that can be serialised. */
  function Texts(frames: seq<Frame>): seq<string> {
    if frames == [] then []
    else (if frames[0].Frame? then [Print(frames[0].json)] else []) + Texts(frames[1..])
  }

  lemma {:induction false} EncodedLines(frames: seq<Frame>)
    ensures Lines(Encode(frames)) == Texts(frames) && Tail(Encode(frames)) == ""
    ensures Dispatchable(Texts(frames)) == Texts(frames)
  {
    if frames != [] {
      EncodedLines(frames[1..]);
      var rest, lines := Encode(frames[1..]), Texts(frames[1..]);
      if frames[0].Frame? {
        var text := Print(frames[0].json);
        PrintedLine(frames[0].json);
        LineAhead(text, rest, lines);
        assert Encode(frames) == text + "\n" + rest && Texts(frames) == [text] + lines;
      } else {
        assert Encode(frames) == rest && Texts(frames) == lines;
      }
    }
  }

  lemma LineAhead(text: string, rest: string, lines: seq<string>)
    requires '\n' !in text && StripCR(text) == text != ""
    requires Lines(rest) == lines && Tail(rest) == "" && Dispatchable(lines) == lines
    ensures Lines(text + "\n" + rest) == [text] + lines && Tail(text + "\n" + rest) == ""
    ensures Dispatchable([text] + lines) == [text] + lines
  {
    FirstLine(text, rest);
    assert ([text] + lines)[1..] == lines;
  }

  lemma PrintedLine(json: Json)
    ensures '\n' !in Print(json) && StripCR(Print(json)) == Print(json) != ""
  {
    PrintNoControl(json);
  }

  lemma PrefixLines(p: string, s: string)
    requires p <= s
    ensures Lines(p) <= Lines(s)
  {
    assert s == p + s[|p|..];
    LinesConcat(p, s[|p|..]);
  }

  lemma DispatchablePrefix(a: seq<string>, b: seq<string>)
    requires a <= b
    ensures Dispatchable(a) <= Dispatchable(b)
  {
    assert b == a + b[|a|..];
    DispatchableConcat(a, b[|a|..]);
  }

  /** End to end: whatever prefix of the wire has arrived, in whatever chunks, a reader with the
      same framing has dispatched an exact prefix of the serialised frames, in order; once
      everything has arrived it has dispatched all of them and its buffer is empty. */
  lemma PeerRecoversFrames(frames: seq<Frame>, chunks: seq<string>)
    requires Concat(chunks) <= Encode(frames)
    ensures Feed("", chunks).0 <= Texts(frames)
    ensures Concat(chunks) == Encode(frames) ==> Feed("", chunks) == (Texts(frames), "")
  {
    AnyChunking("", chunks);
    assert "" + Concat(chunks) == Concat(chunks);
    EncodedLines(frames);
    PrefixLines(Concat(chunks), Encode(frames));
    DispatchablePrefix(Lines(Concat(chunks)), Lines(Encode(frames)));
  }

  // ---- the driver's reader ---------------------------------------------------------------------

  /** What one call on the socket yields. */
  datatype SockEvent = Chunk(bytes: string) | TimedOut | Failed | Eof

  datatype Received = Line(text: string) | Nothing | Closed

  predicate IsAsciiSpace(c: char) {
    c == ' ' || 9 <= c as int <= 13
  }

  predicate Blank(line: string) {
    forall c <- line :: IsAsciiSpace(c)
  }

  /** Whether a line decodes and parses. */
  type Parser = string -> bool

  /** What the first buffered line yields, if anything, and the buffer without it. */
  datatype Taken = Taken(answer: Option<Received>, kept: string)

  /** A line that does not parse is answered like a timeout; a blank one is dropped without an answer. */
  function TakeLine(ok: Parser, buf: string): Taken {
    var nl := IndexOf(buf, '\n');
    if nl < 0 then Taken(None, buf)
    else if Blank(buf[..nl]) then Taken(None, buf[nl + 1..])
    else Taken(Some(if ok(buf[..nl]) then Line(buf[..nl]) else Nothing), buf[nl + 1..])
  }

  /** One `recv`: the result, the buffer left and the socket events left.  Without an answer from the first line the
      socket is asked for more, whatever else is buffered. */
  function Recv(ok: Parser, buf: string, events: seq<SockEvent>): (Received, string, seq<SockEvent>)
    decreases |events|
  {
    var taken := TakeLine(ok, buf);
    if taken.answer.Some? then (taken.answer.value, taken.kept, events)
    else if events == [] then (Nothing, taken.kept, [])
    else if !events[0].Chunk? || events[0].bytes == "" then (Nothing, taken.kept, events[1..])
    else Recv(ok, taken.kept + events[0].bytes, events[1..])
  }

  class TcpConnection {
    const ok: Parser
    var buf: string
    var closed: bool
    var events: seq<SockEvent> // what the socket is going to yield; nothing more means a timeout

    constructor (ok: Parser, events: seq<SockEvent>)
      ensures this.ok == ok && buf == "" && !closed && this.events == events
    {
      this.ok := ok;
      buf, closed := "", false;
      this.events := events;
    }

    method Receive() returns (r: Received)
      modifies this`buf, this`events
      ensures if closed then r == Closed && buf == old(buf) && events == old(events)
              else (r, buf, events) == Recv(ok, old(buf), old(events))
    {
      if closed {
        return Closed;
      }
      while true
        invariant Recv(ok, buf, events) == Recv(ok, old(buf), old(events))
        decreases |events|
      {
        var answer := TakeBuffered();
        if answer.Some? {
          return answer.value;
        }
        if |events| == 0 {
          return Nothing;
        }
        var e := events[0];
        events := events[1..];
        if !e.Chunk? || e.bytes == "" {
          return Nothing;
        }
        buf := buf + e.bytes;
      }
    }

    /** Cuts the first complete line off the buffer and answers with it unless it is blank. */
    method TakeBuffered() returns (answer: Option<Received>)
      modifies this`buf
      ensures Taken(answer, buf) == TakeLine(ok, old(buf))
    {
      answer := None;
      var nl := IndexOf(buf, '\n');
      if nl >= 0 {
        var line := buf[..nl];
        buf := buf[nl + 1..];
        if !Blank(line) {
          answer := Some(if ok(line) then Line(line) else Nothing);
        }
      }
    }
  }

  /** The bytes that arrived. */
  function Arrived(events: seq<SockEvent>): string {
    if events == [] then ""
    else (if events[0].Chunk? then events[0].bytes else "") + Arrived(events[1..])
  }

  /** A line that carries a frame. */
  predicate IsFrame(ok: Parser, line: string) {
    !Blank(line) && ok(line)
  }

  function FramesIn(ok: Parser, lines: seq<string>): seq<string> {
    if lines == [] then [] else (if IsFrame(ok, lines[0]) then [lines[0]] else []) + FramesIn(ok, lines[1..])
  }

  lemma {:induction false} FramesConcat(ok: Parser, a: seq<string>, b: seq<string>)
    ensures FramesIn(ok, a + b) == FramesIn(ok, a) + FramesIn(ok, b)
  {
    if a == [] {
      assert a + b == b;
    } else {
      assert (a + b)[1..] == a[1..] + b;
      FramesConcat(ok, a[1..], b);
    }
  }

  /** `out` and what `b` still yields is what `buf` followed by `got` yields. */
  predicate Accounts(ok: Parser, buf: string, got: string, out: seq<string>, b: string) {
    && FramesIn(ok, Lines(buf + got)) == out + FramesIn(ok, Lines(b))
    && Tail(buf + got) == Tail(b)
  }

  lemma MoreLines(ok: Parser, x: string, more: string)
    ensures FramesIn(ok, Lines(x + more)) == FramesIn(ok, Lines(x)) + FramesIn(ok, Lines(Tail(x) + more))
    ensures Tail(x + more) == Tail(Tail(x) + more)
  {
    LinesConcat(x, more);
    FramesConcat(ok, Lines(x), Lines(Tail(x) + more));
  }

  lemma AccountsExtend(ok: Parser, buf: string, got: string, out: seq<string>, b: string, more: string)
    requires Accounts(ok, buf, got, out, b)
    ensures Accounts(ok, buf, got + more, out, b + more)
  {
    var s := buf + got;
    assert buf + (got + more) == s + more;
    MoreLines(ok, s, more);
    MoreLines(ok, b, more);
    Regroup(out, FramesIn(ok, Lines(b)), FramesIn(ok, Lines(Tail(b) + more)));
  }

  lemma AccountsTrans(ok: Parser, buf: string, x: string, out: seq<string>, b: string,
                      y: string, out': seq<string>, b': string)
    requires Accounts(ok, buf, x, out, b) && Accounts(ok, b, y, out', b')
    ensures Accounts(ok, buf, x + y, out + out', b')
  {
    AccountsExtend(ok, buf, x, out, b, y);
    Regroup(out, out', FramesIn(ok, Lines(b')));
  }

  /** Taking the first line off a buffer. */
  lemma AccountsTake(ok: Parser, buf: string)
    requires IndexOf(buf, '\n') >= 0
    ensures var line, rest := buf[..IndexOf(buf, '\n')], buf[IndexOf(buf, '\n') + 1..];
      Accounts(ok, buf, "", if IsFrame(ok, line) then [line] else [], rest)
  {
    var line, rest := buf[..IndexOf(buf, '\n')], buf[IndexOf(buf, '\n') + 1..];
    IndexOfFirst(buf, '\n');
    assert buf + "" == buf;
    FirstLine(line, rest);
    assert ([line] + Lines(rest))[1..] == Lines(rest);
  }

  lemma AccountsNothing(ok: Parser, buf: string)
    ensures Accounts(ok, buf, "", [], buf)
  {
    assert buf + "" == buf;
  }

  function Out(r: Received): seq<string> {
    if r.Line? then [r.text] else []
  }

  /** A result, a buffer and the events left account for a buffer and the events before. */
  ghost predicate Conserves(ok: Parser, buf: string, events: seq<SockEvent>,
                            out: seq<string>, b: string, e: seq<SockEvent>) {
    && |e| <= |events| && e == events[|events| - |e|..]
    && Accounts(ok, buf, Arrived(events[..|events| - |e|]), out, b)
  }

  lemma ConservesChunk(ok: Parser, buf: string, kept: string, events: seq<SockEvent>,
                       out: seq<string>, b: string, e: seq<SockEvent>)
    requires events != [] && events[0].Chunk? && Accounts(ok, buf, "", [], kept)
    requires Conserves(ok, kept + events[0].bytes, events[1..], out, b, e)
    ensures Conserves(ok, buf, events, out, b, e)
  {
    var more, n := events[0].bytes, |events| - |e|;
    var later := Arrived(events[1..][..n - 1]);
    assert events[..n][1..] == events[1..][..n - 1];
    assert Arrived(events[..n]) == more + later;
    AccountsExtend(ok, buf, "", [], kept, more);
    assert "" + more == more;
    AccountsTrans(ok, buf, more, [], kept + more, later, out, b);
    assert [] + out == out;
  }

  lemma ConservesSilent(ok: Parser, buf: string, events: seq<SockEvent>, out: seq<string>, b: string, e: seq<SockEvent>)
    requires Accounts(ok, buf, "", out, b)
    requires e == events || (events != [] && (events[0].Chunk? ==> events[0].bytes == "") && e == events[1..])
    ensures Conserves(ok, buf, events, out, b, e)
  {
    if e == events {
      assert events[..0] == [];
    } else {
      assert events[..1] == [events[0]] && [events[0]][1..] == [];
    }
  }

  function Answered(answer: Option<Received>): seq<string> {
    if answer.Some? then Out(answer.value) else []
  }

  lemma TakeAccounts(ok: Parser, buf: string)
    ensures var taken := TakeLine(ok, buf); Accounts(ok, buf, "", Answered(taken.answer), taken.kept)
  {
    if IndexOf(buf, '\n') >= 0 {
      TakenIs(ok, buf);
      AccountsTake(ok, buf);
    } else {
      AccountsNothing(ok, buf);
    }
  }

  lemma TakenIs(ok: Parser, buf: string)
    requires IndexOf(buf, '\n') >= 0
    ensures var taken, nl := TakeLine(ok, buf), IndexOf(buf, '\n');
      Answered(taken.answer) == (if IsFrame(ok, buf[..nl]) then [buf[..nl]] else []) && taken.kept == buf[nl + 1..]
  {
  }

  /** One call conserves the frames. */
  lemma {:induction false} RecvConserves(ok: Parser, buf: string, events: seq<SockEvent>)
    ensures var s := Recv(ok, buf, events); Conserves(ok, buf, events, Out(s.0), s.1, s.2)
    decreases |events|
  {
    var taken, s := TakeLine(ok, buf), Recv(ok, buf, events);
    TakeAccounts(ok, buf);
    if taken.answer.Some? || events == [] || !events[0].Chunk? || events[0].bytes == "" {
      ConservesSilent(ok, buf, events, Answered(taken.answer), taken.kept, s.2);
    } else {
      RecvConserves(ok, taken.kept + events[0].bytes, events[1..]);
      ConservesChunk(ok, buf, taken.kept, events, Out(s.0), s.1, s.2);
    }
  }

  lemma {:induction false} ArrivedConcat(a: seq<SockEvent>, b: seq<SockEvent>)
    ensures Arrived(a + b) == Arrived(a) + Arrived(b)
  {
    if a == [] {
      assert a + b == b;
    } else {
      assert (a + b)[1..] == a[1..] + b;
      ArrivedConcat(a[1..], b);
    }
  }

  lemma ConservesTrans(ok: Parser, buf: string, events: seq<SockEvent>, out: seq<string>, b: string, e: seq<SockEvent>,
                       out': seq<string>, b': string, e': seq<SockEvent>)
    requires Conserves(ok, buf, events, out, b, e) && Conserves(ok, b, e, out', b', e')
    ensures Conserves(ok, buf, events, out + out', b', e')
  {
    var n, m := |events| - |e|, |e| - |e'|;
    assert events[..n + m] == events[..n] + e[..m];
    ArrivedConcat(events[..n], e[..m]);
    AccountsTrans(ok, buf, Arrived(events[..n]), out, b, Arrived(e[..m]), out', b');
  }

  /** Successive `recv` calls: the i-th one takes buffer i and events i to buffer i+1 and events i+1. */
  ghost predicate IsSession(ok: Parser, bufs: seq<string>, events: seq<seq<SockEvent>>, results: seq<Received>) {
    && |bufs| == |events| == |results| + 1
    && forall i :: 0 <= i < |results| ==> Recv(ok, bufs[i], events[i]) == (results[i], bufs[i + 1], events[i + 1])
  }

  function Frames(results: seq<Received>): seq<string> {
    if results == [] then [] else Frames(results[..|results| - 1]) + Out(results[|results| - 1])
  }

  /** Over any number of calls, with timeouts and errors anywhere, no frame is lost, repeated or
      reordered: the frames returned, then those still buffered, are the frames that arrived. */
  lemma {:induction false} NothingLost(ok: Parser, bufs: seq<string>, events: seq<seq<SockEvent>>,
                                       results: seq<Received>, k: nat)
    requires IsSession(ok, bufs, events, results) && k <= |results|
    ensures Conserves(ok, bufs[0], events[0], Frames(results[..k]), bufs[k], events[k])
  {
    if k == 0 {
      AccountsNothing(ok, bufs[0]);
      ConservesSilent(ok, bufs[0], events[0], [], bufs[0], events[0]);
    } else {
      NothingLost(ok, bufs, events, results, k - 1);
      RecvConserves(ok, bufs[k - 1], events[k - 1]);
      assert results[..k][..k - 1] == results[..k - 1];
      ConservesTrans(ok, bufs[0], events[0], Frames(results[..k - 1]), bufs[k - 1], events[k - 1],
                     Out(results[k - 1]), bufs[k], events[k]);
    }
  }

  /** When the socket has nothing to give, `recv` comes back empty-handed exactly when no complete line is buffered or
      the first buffered line is no frame (blank, or it does not parse), even if a frame follows it. */
  lemma EmptyHanded(ok: Parser, buf: string, events: seq<SockEvent>)
    requires events == [] || !events[0].Chunk?
    ensures Recv(ok, buf, events).0 == Nothing <==> Lines(buf) == [] || !IsFrame(ok, Lines(buf)[0])
  {
    var nl := IndexOf(buf, '\n');
    IndexOfFirst(buf, '\n');
    if nl >= 0 {
      FirstLine(buf[..nl], buf[nl + 1..]);
    } else {
      OneLine(buf);
    }
  }

  /** So a complete frame behind a blank line is reported as a timeout once. */
  lemma FrameBehindBlankLine(ok: Parser)
    requires ok("{}")
    ensures Recv(ok, "\n{}\n", [TimedOut]).0 == Nothing
    ensures FramesIn(ok, Lines("\n{}\n")) == ["{}"]
  {
    var buf := "\n{}\n";
    assert buf == "" + ['\n'] + "{}\n" && "{}\n" == "{}" + ['\n'] + "";
    FirstLine("", "{}\n");
    FirstLine("{}", "");
    assert Lines("") == [];
    assert Lines(buf) == ["", "{}"];
    EmptyHanded(ok, buf, [TimedOut]);
    assert ["", "{}"][1..] == ["{}"] && ["{}"][1..] == [];
    assert "{}"[0] in "{}" && !IsAsciiSpace('{');
    assert !Blank("{}") && Blank("");
  }
}
