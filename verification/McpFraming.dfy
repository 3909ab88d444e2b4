/**
Content-Length framing, server side: the standard input stream, `read_frame`
and `write_frame` of the gateway's stdio server.
*/
module McpFraming {
  import opened Text
  import opened JsonValue

  const LENGTH_HEADER: string := "Content-Length: "
  const BLANK_LINE: string := "\r\n\r\n"

  // One message on the wire.
  function Frame(body: string): string {
    LENGTH_HEADER + Decimal(|body|) + BLANK_LINE + body
  }

  function Frames(bodies: seq<string>): string {
    if bodies == [] then "" else Frame(bodies[0]) + Frames(bodies[1..])
  }

  // An input stream: the bytes not extracted yet, and the eof and fail bits.
  datatype Stream = Stream(rest: string, eof: bool, failed: bool)
  {
    predicate Good() {
      !eof && !failed
    }
  }

  function Open(input: string): Stream {
    Stream(input, false, false)
  }

  // std::getline: the line without its newline, or None when it reports failure.
  function GetLine(st: Stream): (r: (Option<string>, Stream))
    ensures r.0.Some? ==> |r.1.rest| < |st.rest|
    ensures |r.1.rest| <= |st.rest|
  {
    if !st.Good() then (None, st.(failed := true))
    else match Find(st.rest, "\n", 0)
      case Some(i) => (Some(st.rest[..i]), st.(rest := st.rest[i + 1..]))
      case None =>
        if st.rest == "" then (None, st.(eof := true, failed := true))
        else (Some(st.rest), st.(rest := "", eof := true))
  }

  // istream::read(n): the bytes extracted; fewer than n means the end was hit.
  function Read(st: Stream, n: nat): (string, Stream) {
    if !st.Good() then ("", st.(failed := true))
    else if n <= |st.rest| then (st.rest[..n], st.(rest := st.rest[n..]))
    else (st.rest, Stream("", true, true))
  }

  function StripCr(line: string): string {
    if line != "" && line[|line| - 1] == '\r' then line[..|line| - 1] else line
  }

  // The header block of a frame, from a given value of content_length on.
  datatype Headers = Headers(length: nat, after: Stream) | BadLength(after: Stream)

  function ReadHeaders(st: Stream, length: nat): (h: Headers)
    ensures |h.after.rest| <= |st.rest|
    ensures h.Headers? && !h.after.eof ==> h.after.failed || |h.after.rest| < |st.rest|
    decreases |st.rest|
  {
    var (next, st') := GetLine(st);
    match next
    case None => Headers(length, st')
    case Some(raw) =>
      var line := StripCr(raw);
      if line == "" then Headers(length, st')
      else if LENGTH_HEADER <= line then
        match Stoull(line[|LENGTH_HEADER|..])
        case Some(n) => ReadHeaders(st', n)
        case None => BadLength(st')
      else ReadHeaders(st', length)
  }

  // read_frame: the message if there is one, and the stream it leaves behind.
  function ReadFrame(codec: Codec, st: Stream): (r: (Option<Json>, Stream))
    ensures r.0.Some? ==> |r.1.rest| < |st.rest|
  {
    match ReadHeaders(st, 0)
    case BadLength(st') => (None, st')
    case Headers(length, st') =>
      if st'.eof || length == 0 then (None, st')
      else
        var (body, st'') := Read(st', length);
        if |body| != length then (None, st'') else (codec.parse(body), st'')
  }

  class InputStream {
    var rest: string
    var eof: bool
    var failed: bool

    constructor (input: string)
      ensures View() == Open(input)
    {
      rest, eof, failed := input, false, false;
    }

    function View(): Stream
      reads this
    {
      Stream(rest, eof, failed)
    }

    method Set(st: Stream)
      modifies this
      ensures View() == st
    {
      rest, eof, failed := st.rest, st.eof, st.failed;
    }
  }

  class OutputStream {
    var written: string

    constructor ()
      ensures written == ""
    {
      written := "";
    }
  }

  method WriteFrame(codec: Codec, output: OutputStream, message: Json)
    modifies output
    ensures output.written == old(output.written) + Frame(codec.dump(message))
  {
    var body := codec.dump(message);
    output.written := output.written + (LENGTH_HEADER + Decimal(|body|) + BLANK_LINE + body);
  }

  // The header loop of read_frame, line by line over a mutable stream.
  method ReadFrameFrom(codec: Codec, input: InputStream) returns (message: Option<Json>)
    modifies input
    ensures (message, input.View()) == ReadFrame(codec, old(input.View()))
  {
    var contentLength: nat := 0;
    var more := true;
    while more
      invariant more ==>
          ReadHeaders(input.View(), contentLength) == ReadHeaders(old(input.View()), 0)
      invariant !more ==>
          ReadHeaders(old(input.View()), 0) == Headers(contentLength, input.View())
      decreases more, |input.rest|
    {
      var (next, st) := GetLine(input.View());
      input.Set(st);
      if next.None? {
        more := false;
      } else {
        var line := StripCr(next.value);
        if line == "" {
          more := false;
        } else if LENGTH_HEADER <= line {
          var parsed := Stoull(line[|LENGTH_HEADER|..]);
          if parsed.None? {
            return None;
          }
          contentLength := parsed.value;
        }
      }
    }
    if input.eof || contentLength == 0 {
      return None;
    }
    var (body, st) := Read(input.View(), contentLength);
    input.Set(st);
    if |body| != contentLength {
      return None;
    }
    message := codec.parse(body);
  }

  lemma FirstNewline(line: string, rest: string)
    requires forall i :: 0 <= i < |line| ==> line[i] != '\n'
    ensures GetLine(Open(line + "\n" + rest)) == (Some(line), Open(rest))
  {
    var s := line + "\n" + rest;
    assert Occurs(s, "\n", |line|);
    forall j: nat | j < |line|
      ensures !Occurs(s, "\n", j)
    {
      assert s[j + 0] != "\n"[0];
    }
    assert s[..|line|] == line && s[|line| + 1..] == rest;
  }

  lemma LengthLine(n: nat, rest: string)
    ensures ReadHeaders(Open(LENGTH_HEADER + Decimal(n) + "\r\n" + rest), 0) ==
            if n < U64 then ReadHeaders(Open(rest), n) else BadLength(Open(rest))
  {
    hide Stoull, Decimal, GetLine, DigitRun;
    var ds := Decimal(n);
    var line := LENGTH_HEADER + ds;
    assert line + "\r\n" + rest == (line + "\r") + "\n" + rest;
    LineHasNoNewline(ds);
    FirstNewline(line + "\r", rest);
    assert StripCr(line + "\r") == line;
    assert line[|LENGTH_HEADER|..] == ds == ds + "";
    StoullDecimal(n, "");
  }

  lemma LineHasNoNewline(ds: string)
    requires AllDigits(ds)
    ensures forall i :: 0 <= i < |LENGTH_HEADER + ds + "\r"| ==> (LENGTH_HEADER + ds + "\r")[i] != '\n'
  {
  }

  lemma BlankLine(n: nat, rest: string)
    ensures ReadHeaders(Open("\r\n" + rest), n) == Headers(n, Open(rest))
  {
    assert "\r\n" + rest == "\r" + "\n" + rest;
    FirstNewline("\r", rest);
    assert StripCr("\r") == "";
  }

  // The headers of a frame are read up to its body.
  lemma HeadersOfFrame(n: nat, rest: string)
    requires n < U64
    ensures ReadHeaders(Open(LENGTH_HEADER + Decimal(n) + BLANK_LINE + rest), 0) == Headers(n, Open(rest))
  {
    hide ReadHeaders, Decimal;
    assert LENGTH_HEADER + Decimal(n) + BLANK_LINE + rest == LENGTH_HEADER + Decimal(n) + "\r\n" + ("\r\n" + rest);
    LengthLine(n, "\r\n" + rest);
    BlankLine(n, rest);
  }

  // Any other header line is passed over, with or without its carriage return.
  lemma OtherHeaderIgnored(line: string, length: nat, rest: string)
    requires line != "" && '\n' !in line && line[|line| - 1] != '\r' && !(LENGTH_HEADER <= line)
    ensures ReadHeaders(Open(line + "\r\n" + rest), length) == ReadHeaders(Open(rest), length)
    ensures ReadHeaders(Open(line + "\n" + rest), length) == ReadHeaders(Open(rest), length)
  {
    hide GetLine, Stoull, LENGTH_HEADER;
    assert line + "\r\n" + rest == (line + "\r") + "\n" + rest;
    FirstNewline(line + "\r", rest);
    FirstNewline(line, rest);
    assert StripCr(line + "\r") == line;
  }

  // A frame that ends before its body does is no message, and drains the stream.
  lemma CutFrameIsNone(codec: Codec, n: nat, part: string)
    requires |part| < n < U64
    ensures ReadFrame(codec, Open(LENGTH_HEADER + Decimal(n) + BLANK_LINE + part)) == (None, Stream("", true, true))
  {
    hide ReadHeaders, Decimal, LENGTH_HEADER, BLANK_LINE;
    HeadersOfFrame(n, part);
  }

  lemma KnownFrame()
    ensures Frame("{}") == "Content-Length: 2\r\n\r\n{}"
  {
    assert Decimal(2) == "2";
  }

  // Framing is exactly undone by read_frame on non-empty bodies, whatever
  // follows; an empty body is the one message the reader takes for the end.
  lemma ReadFrameOfFrame(codec: Codec, body: string, rest: string)
    requires |body| < U64
    ensures ReadFrame(codec, Open(Frame(body) + rest)) ==
            if body == "" then (None, Open(rest)) else (codec.parse(body), Open(rest))
  {
    hide ReadHeaders, Decimal, LENGTH_HEADER, BLANK_LINE;
    Assoc(LENGTH_HEADER + Decimal(|body|) + BLANK_LINE, body, rest);
    HeadersOfFrame(|body|, body + rest);
    assert (body + rest)[..|body|] == body && (body + rest)[|body|..] == rest;
  }

  // read_frame finds no message in a drained stream.
  lemma ReadFrameAtEnd(codec: Codec)
    ensures ReadFrame(codec, Open("")) == (None, Stream("", true, true))
  {
    assert !Occurs("", "\n", 0);
  }

  // Messages read one after another until read_frame gives none.
  function ReadAll(codec: Codec, st: Stream): seq<Json>
    decreases |st.rest|
  {
    var (message, st') := ReadFrame(codec, st);
    if message.None? then [] else [message.value] + ReadAll(codec, st')
  }

  function Dumps(codec: Codec, messages: seq<Json>): (r: seq<string>)
    ensures |r| == |messages|
    ensures forall i :: 0 <= i < |r| ==> r[i] == codec.dump(messages[i])
  {
    seq(|messages|, i requires 0 <= i < |messages| => codec.dump(messages[i]))
  }

  // Any sequence of messages sent down the pipe arrives complete and in order.
  lemma {:induction false} ReadAllOfFrames(codec: Codec, messages: seq<Json>)
    requires Faithful(codec)
    requires forall i :: 0 <= i < |messages| ==> |codec.dump(messages[i])| < U64
    ensures ReadAll(codec, Open(Frames(Dumps(codec, messages)))) == messages
  {
    if messages == [] {
      ReadFrameAtEnd(codec);
    } else {
      var bodies := Dumps(codec, messages);
      assert bodies[1..] == Dumps(codec, messages[1..]);
      ReadFrameOfFrame(codec, bodies[0], Frames(bodies[1..]));
      ReadAllOfFrames(codec, messages[1..]);
    }
  }
}
