/**
The incremental parser of a streamed provider answer: chunks arrive cut anywhere, lines are
taken as they complete, and the text of content deltas is passed on.
*/
module SseStream {
  import opened Text
  import opened JsonValue

  // The text a complete line carries, if any; an exception while reading it means none.
  function LineText(codec: Codec, line: string): seq<string> {
    if !("data: " <= line) || line[6..] == "[DONE]" then []
    else match codec.parse(line[6..])
      case None => []
      case Some(j) =>
        if j.StrValue("type", "") != Some("content_block_delta") then []
        else
          var delta := if "delta" in j.fields then j.fields["delta"] else Null;
          var text := delta.StrValue("text", "");
          if text.None? || text.value == "" then [] else [text.value]
  }

  // ---- The whole stream at once ----

  function Texts(codec: Codec, s: string): seq<string>
    decreases |s|
  {
    match Find(s, "\n", 0)
    case None => []
    case Some(i) => LineText(codec, s[..i]) + Texts(codec, s[i + 1..])
  }

  function Leftover(s: string): (r: string)
    ensures |r| <= |s|
    decreases |s|
  {
    match Find(s, "\n", 0)
    case None => s
    case Some(i) => Leftover(s[i + 1..])
  }

  lemma FindNewline(s: string, i: nat)
    requires i < |s| && s[i] == '\n' && forall j :: 0 <= j < i ==> s[j] != '\n'
    ensures Find(s, "\n", 0) == Some(i)
  {
    assert Occurs(s, "\n", i);
    FindFirst(s, "\n", 0, i);
  }

  lemma NewlineFound(s: string, from: nat)
    ensures var r := Find(s, "\n", from);
            && (r.Some? ==> from <= r.value < |s| && s[r.value] == '\n')
            && forall j :: from <= j < (if r.Some? then r.value else |s|) ==> s[j] != '\n'
  {
    var r := Find(s, "\n", from);
    forall j | from <= j < (if r.Some? then r.value else |s|)
      ensures s[j] != '\n'
    {
      assert !Occurs(s, "\n", j);
    }
    if r.Some? {
      assert s[r.value + 0] == "\n"[0];
    }
  }

  // A text ends with the part of it after its last newline, or is all of it.
  predicate EndsWithLine(s: string, left: string) {
    var k := |s| - |left|;
    && k >= 0 && s[k..] == left && (k == 0 || s[k - 1] == '\n') && '\n' !in left
  }

  // What is left is exactly what follows the last newline.
  lemma {:induction false} LeftoverIsSuffix(s: string)
    ensures EndsWithLine(s, Leftover(s))
    decreases |s|
  {
    hide Find;
    NewlineFound(s, 0);
    var r := Find(s, "\n", 0);
    if r.Some? {
      LeftoverIsSuffix(s[r.value + 1..]);
      SuffixOfSuffix(s, r.value, Leftover(s[r.value + 1..]));
    }
  }

  lemma SuffixOfSuffix(s: string, i: nat, left: string)
    requires i < |s| && s[i] == '\n' && EndsWithLine(s[i + 1..], left)
    ensures EndsWithLine(s, left)
  {
    var rest := s[i + 1..];
    var k := |rest| - |left|;
    assert s[i + 1 + k..] == rest[k..];
  }

  // Appending to a stream continues from its leftover.
  lemma {:induction false} Continues(codec: Codec, a: string, b: string)
    ensures Texts(codec, a + b) == Texts(codec, a) + Texts(codec, Leftover(a) + b)
    ensures Leftover(a + b) == Leftover(Leftover(a) + b)
    decreases |a|
  {
    hide LineText;
    NewlineFound(a, 0);
    var r := Find(a, "\n", 0);
    if r.Some? {
      var i := r.value;
      FindNewline(a + b, i);
      var rest := a[i + 1..];
      assert (a + b)[..i] == a[..i] && (a + b)[i + 1..] == rest + b;
      Continues(codec, rest, b);
      Assoc(LineText(codec, a[..i]), Texts(codec, rest), Texts(codec, Leftover(rest) + b));
    }
  }

  // ---- Chunk by chunk ----

  datatype State = State(buffer: string, emitted: seq<string>)

  function Accept(codec: Codec, st: State, chunk: string): State {
    State(Leftover(st.buffer + chunk), st.emitted + Texts(codec, st.buffer + chunk))
  }

  function AcceptAll(codec: Codec, st: State, chunks: seq<string>): State {
    if chunks == [] then st
    else Accept(codec, AcceptAll(codec, st, chunks[..|chunks| - 1]), chunks[|chunks| - 1])
  }

  function Concat(chunks: seq<string>): string {
    if chunks == [] then "" else Concat(chunks[..|chunks| - 1]) + chunks[|chunks| - 1]
  }

  // However a stream is cut, the texts passed on are those of the stream read at once, and
  // the buffer holds what follows its last newline.
  lemma {:induction false} ChunkingIsInvisible(codec: Codec, chunks: seq<string>)
    ensures AcceptAll(codec, State("", []), chunks) ==
            State(Leftover(Concat(chunks)), Texts(codec, Concat(chunks)))
    decreases |chunks|
  {
    hide LineText, Texts, Leftover;
    if chunks == [] {
      NothingYet(codec);
    } else {
      ChunkingIsInvisible(codec, chunks[..|chunks| - 1]);
      Continues(codec, Concat(chunks[..|chunks| - 1]), chunks[|chunks| - 1]);
    }
  }

  lemma NothingYet(codec: Codec)
    ensures Texts(codec, "") == [] && Leftover("") == ""
  {
    NewlineFound("", 0);
  }

  // Two ways of cutting the same stream cannot be told apart.
  lemma CutsAgree(codec: Codec, chunks: seq<string>, others: seq<string>)
    requires Concat(chunks) == Concat(others)
    ensures AcceptAll(codec, State("", []), chunks) == AcceptAll(codec, State("", []), others)
  {
    ChunkingIsInvisible(codec, chunks);
    ChunkingIsInvisible(codec, others);
  }

  class SseParser {
    const codec: Codec
    var buffer: string
    var emitted: seq<string>

    constructor (codec: Codec)
      ensures this.codec == codec && View() == State("", [])
    {
      this.codec := codec;
      buffer, emitted := "", [];
    }

    function View(): State
      reads this
    {
      State(buffer, emitted)
    }

    // The lambda handed to the streaming process: append, take whole lines, trim.
    method Feed(chunk: string)
      modifies this
      ensures View() == Accept(codec, old(View()), chunk)
    {
      hide LineText;
      buffer := buffer + chunk;
      var pos: nat := 0;
      ghost var all := buffer;
      var scanning := true;
      while scanning && pos < |buffer|
        invariant buffer == all && pos <= |all|
        invariant Accept(codec, old(View()), chunk) ==
                  State(Leftover(all[pos..]), emitted + Texts(codec, all[pos..]))
        invariant !scanning ==> forall j :: pos <= j < |all| ==> all[j] != '\n'
        decreases scanning, |all| - pos
      {
        NewlineFound(buffer, pos);
        var nl := Find(buffer, "\n", pos);
        if nl.None? {
          scanning := false;
        } else {
          var line := buffer[pos..nl.value];
          OneLine(codec, all, pos, nl.value);
          Assoc(emitted, LineText(codec, line), Texts(codec, all[nl.value + 1..]));
          pos := nl.value + 1;
          emitted := emitted + LineText(codec, line);
        }
      }
      NoMoreLines(codec, all[pos..]);
      buffer := buffer[pos..];
    }
  }

  lemma OneLine(codec: Codec, s: string, pos: nat, nl: nat)
    requires pos <= nl < |s| && s[nl] == '\n' && forall j :: pos <= j < nl ==> s[j] != '\n'
    ensures Texts(codec, s[pos..]) == LineText(codec, s[pos..nl]) + Texts(codec, s[nl + 1..])
    ensures Leftover(s[pos..]) == Leftover(s[nl + 1..])
  {
    hide LineText;
    var t, i := s[pos..], nl - pos;
    FindNewline(t, i);
    assert t[..i] == s[pos..nl] && t[i + 1..] == s[nl + 1..];
  }

  lemma NoMoreLines(codec: Codec, s: string)
    requires forall j :: 0 <= j < |s| ==> s[j] != '\n'
    ensures Texts(codec, s) == [] && Leftover(s) == s
  {
    NewlineFound(s, 0);
  }

  // ---- What a stream of events comes to ----

  // A text delta as a provider sends it, with any other members.
  function DeltaEvent(text: string, more: map<string, Json>, delta: map<string, Json>): Json {
    Obj(more["type" := Str("content_block_delta")]["delta" := Obj(delta["text" := Str(text)])])
  }

  // The line of a delta passes its text on, if it has any.
  lemma DeltaSpeaks(codec: Codec, text: string, more: map<string, Json>, delta: map<string, Json>)
    requires Faithful(codec) && codec.dump(DeltaEvent(text, more, delta)) != "[DONE]"
    ensures LineText(codec, "data: " + codec.dump(DeltaEvent(text, more, delta))) == if text == "" then [] else [text]
  {
    var j := DeltaEvent(text, more, delta);
    var line := "data: " + codec.dump(j);
    assert line[6..] == codec.dump(j);
    assert j.StrValue("type", "") == Some("content_block_delta");
    assert j.fields["delta"].StrValue("text", "") == Some(text);
  }

  // A line that passes a text on is a delta with that text; no line passes on more than one.
  lemma OnlyDeltasSpeak(codec: Codec, line: string)
    requires LineText(codec, line) != []
    ensures |LineText(codec, line)| == 1 && LineText(codec, line)[0] != ""
    ensures |line| >= 6 && line[..6] == "data: " && line[6..] != "[DONE]" && codec.parse(line[6..]).Some?
    ensures var j := codec.parse(line[6..]).value;
            && j.Contains("type") && j.fields["type"] == Str("content_block_delta")
            && j.Contains("delta") && j.fields["delta"].Contains("text")
            && j.fields["delta"].fields["text"] == Str(LineText(codec, line)[0])
  {
  }

  function Stream(lines: seq<string>): string {
    if lines == [] then "" else lines[0] + "\n" + Stream(lines[1..])
  }

  function Said(codec: Codec, lines: seq<string>): seq<string> {
    if lines == [] then [] else Said(codec, lines[..|lines| - 1]) + LineText(codec, lines[|lines| - 1])
  }

  lemma {:induction false} SaidFromTheFront(codec: Codec, line: string, lines: seq<string>)
    ensures Said(codec, [line] + lines) == LineText(codec, line) + Said(codec, lines)
    decreases |lines|
  {
    hide LineText;
    var all := [line] + lines;
    if lines == [] {
      assert all == [line] && all[..0] == [];
    } else {
      var n := |lines| - 1;
      SaidFromTheFront(codec, line, lines[..n]);
      assert all[..|all| - 1] == [line] + lines[..n];
      Assoc(LineText(codec, line), Said(codec, lines[..n]), LineText(codec, lines[n]));
    }
  }

  // A stream of whole lines passes on what each of them says, in order, and leaves nothing over.
  lemma {:induction false} LinesAreHeard(codec: Codec, lines: seq<string>)
    requires forall i :: 0 <= i < |lines| ==> '\n' !in lines[i]
    ensures Texts(codec, Stream(lines)) == Said(codec, lines) && Leftover(Stream(lines)) == ""
    decreases |lines|
  {
    hide LineText;
    if lines == [] {
      NothingYet(codec);
    } else {
      var first, rest := lines[0], Stream(lines[1..]);
      var s := first + "\n" + rest;
      assert s[|first|] == '\n' && forall j :: 0 <= j < |first| ==> s[j] == first[j];
      OneLine(codec, s, 0, |first|);
      assert s[0..] == s && s[..|first|] == first && s[0..|first|] == first && s[|first| + 1..] == rest;
      LinesAreHeard(codec, lines[1..]);
      assert [first] + lines[1..] == lines;
      SaidFromTheFront(codec, first, lines[1..]);
    }
  }

  // However it is cut on the way.
  lemma LinesAreHeardInChunks(codec: Codec, lines: seq<string>, chunks: seq<string>)
    requires (forall i :: 0 <= i < |lines| ==> '\n' !in lines[i]) && Concat(chunks) == Stream(lines)
    ensures AcceptAll(codec, State("", []), chunks) == State("", Said(codec, lines))
  {
    ChunkingIsInvisible(codec, chunks);
    LinesAreHeard(codec, lines);
  }
}
