/** parse_output_lines of Tools/glib/common.py: lines out of a stream that arrives
    in chunks. */
module LineSplitter {

  /** Position of the first newline, or |s|. */
  function FindNewline(s: string): (pos: nat)
    ensures pos <= |s|
    ensures pos < |s| ==> s[pos] == '\n'
    ensures forall k | 0 <= k < pos :: s[k] != '\n'
  {
    if s == "" then 0 else if s[0] == '\n' then 0 else 1 + FindNewline(s[1..])
  }

  predicate HasNewline(s: string) { FindNewline(s) < |s| }

  /** The complete lines of a text, each with its newline. */
  function CompleteLines(text: string): seq<string>
    decreases |text|
  {
    if !HasNewline(text) then []
    else
      var pos := FindNewline(text);
      [text[..pos + 1]] + CompleteLines(text[pos + 1..])
  }

  /** What follows the last newline. */
  function Remainder(text: string): string
    decreases |text|
  {
    if !HasNewline(text) then text else Remainder(text[FindNewline(text) + 1..])
  }

  /** All the pieces of a text: its lines, and the rest unless it is empty. */
  function Lines(text: string): seq<string> {
    CompleteLines(text) + if Remainder(text) == "" then [] else [Remainder(text)]
  }

  function Join(pieces: seq<string>): string {
    if pieces == [] then "" else Join(pieces[..|pieces| - 1]) + pieces[|pieces| - 1]
  }

  /** The chunks up to the first empty read, which ends the stream. */
  function UntilEof(chunks: seq<string>): (r: seq<string>)
    ensures |r| <= |chunks| && r == chunks[..|r|]
  {
    if chunks == [] || chunks[0] == "" then [] else [chunks[0]] + UntilEof(chunks[1..])
  }

  // ----- Chunk boundaries do not matter

  lemma {:induction false} FindInFront(a: string, b: string)
    requires HasNewline(a)
    ensures HasNewline(a + b) && FindNewline(a + b) == FindNewline(a)
  {
    var p, q := FindNewline(a), FindNewline(a + b);
    assert (a + b)[p] == '\n';
    assert forall k | 0 <= k < p :: (a + b)[k] == a[k];
  }

  /** More text only adds to the lines already complete. */
  lemma {:induction false} LinesOfMore(a: string, b: string)
    ensures CompleteLines(a + b) == CompleteLines(a) + CompleteLines(Remainder(a) + b)
    ensures Remainder(a + b) == Remainder(Remainder(a) + b)
    decreases |a|
  {
    if HasNewline(a) {
      FindInFront(a, b);
      var pos := FindNewline(a);
      assert (a + b)[..pos + 1] == a[..pos + 1];
      assert (a + b)[pos + 1..] == a[pos + 1..] + b;
      LinesOfMore(a[pos + 1..], b);
    }
  }

  lemma {:induction false} NoText()
    ensures CompleteLines("") == [] && Remainder("") == "" && Join([]) == ""
  {
  }

  lemma {:induction false} JoinCons(first: string, rest: seq<string>)
    ensures Join([first] + rest) == first + Join(rest)
  {
    var all := [first] + rest;
    if rest != [] {
      assert all[..|all| - 1] == [first] + rest[..|rest| - 1];
      JoinCons(first, rest[..|rest| - 1]);
    } else {
      assert all[..0] == [];
    }
  }

  /** The next chunk and what follows it make up the rest of the output. */
  lemma {:induction false} NextChunk(chunks: seq<string>, i: nat)
    requires i < |chunks|
    ensures Join(UntilEof(chunks[i..]))
            == if chunks[i] == "" then "" else chunks[i] + Join(UntilEof(chunks[i + 1..]))
  {
    assert chunks[i..][1..] == chunks[i + 1..];
    if chunks[i] != "" {
      JoinCons(chunks[i], UntilEof(chunks[i + 1..]));
    }
  }

  lemma {:induction false} NoChunks(chunks: seq<string>)
    ensures Join(UntilEof(chunks[|chunks|..])) == "" && chunks[0..] == chunks
  {
  }

  /** For any chunking, the callback receives exactly the lines of the whole output. */
  method ParseOutputLines(chunks: seq<string>) returns (calls: seq<string>)
    ensures calls == Lines(Join(UntilEof(chunks)))
  {
    NoText();
    NoChunks(chunks);
    hide CompleteLines, Remainder, Join, FindNewline, UntilEof;
    var output := "";
    var i := 0;
    var reading := true;
    calls := [];
    ghost var received := "";
    while reading
      invariant i <= |chunks|
      invariant Join(UntilEof(chunks)) == if reading then received + Join(UntilEof(chunks[i..])) else received
      invariant calls == if reading then CompleteLines(received) else Lines(received)
      invariant reading ==> output == Remainder(received)
      decreases reading, |chunks| - i
    {
      var chunk := if i < |chunks| then chunks[i] else "";
      if i < |chunks| {
        NextChunk(chunks, i);
      }
      LinesOfMore(received, chunk);
      RemainderIsPlain(received);
      if chunk != "" {
        output := output + chunk;
        received := received + chunk;
        i := i + 1;
      } else {
        reading := false;
      }
      calls, output := Drain(calls, output);
      if chunk == "" && output != "" {
        calls := calls + [output];
        output := "";
      }
    }
  }

  lemma {:induction false} RemainderIsPlain(text: string)
    ensures CompleteLines(Remainder(text)) == [] && Remainder(Remainder(text)) == Remainder(text)
    decreases |text|
  {
    if HasNewline(text) {
      RemainderIsPlain(text[FindNewline(text) + 1..]);
    }
  }

  /** The inner loop: hands over every complete line and keeps the rest. */
  method Drain(before: seq<string>, text: string) returns (calls: seq<string>, output: string)
    ensures calls == before + CompleteLines(text) && output == Remainder(text)
  {
    calls, output := before, text;
    while HasNewline(output)
      invariant calls + CompleteLines(output) == before + CompleteLines(text)
      invariant Remainder(output) == Remainder(text)
      decreases |output|
    {
      var pos := FindNewline(output);
      calls := calls + [output[..pos + 1]];
      output := output[pos + 1..];
    }
  }

  // ----- What the lines are

  /** A newline at the end and nowhere else. */
  predicate IsLine(s: string) {
    s != "" && FindNewline(s) == |s| - 1
  }

  /** Lines, possibly followed by one non-empty piece without a newline. */
  ghost predicate IsSplit(pieces: seq<string>) {
    forall k | 0 <= k < |pieces| :: IsLine(pieces[k]) || (k == |pieces| - 1 && pieces[k] != "" && !HasNewline(pieces[k]))
  }

  lemma {:induction false} LineInFront(text: string)
    requires HasNewline(text)
    ensures IsLine(text[..FindNewline(text) + 1])
  {
    var pos := FindNewline(text);
    var line := text[..pos + 1];
    assert line[pos] == '\n';
    assert forall k | 0 <= k < pos :: line[k] == text[k];
  }

  lemma {:induction false} LinesCons(text: string)
    requires HasNewline(text)
    ensures var pos := FindNewline(text); Lines(text) == [text[..pos + 1]] + Lines(text[pos + 1..])
  {
  }

  lemma {:induction false} SplitCons(line: string, rest: seq<string>)
    requires IsLine(line) && IsSplit(rest)
    ensures IsSplit([line] + rest)
  {
    hide FindNewline;
    var all := [line] + rest;
    forall k | 0 <= k < |all|
      ensures IsLine(all[k]) || (k == |all| - 1 && all[k] != "" && !HasNewline(all[k]))
    {
      assert k > 0 ==> all[k] == rest[k - 1];
    }
  }

  lemma {:induction false} LinesAreASplit(text: string)
    ensures Join(Lines(text)) == text && IsSplit(Lines(text))
    decreases |text|
  {
    hide Lines, Join, IsSplit, IsLine;
    NoLines();
    if HasNewline(text) {
      var pos := FindNewline(text);
      var line, rest := text[..pos + 1], text[pos + 1..];
      LinesAreASplit(rest);
      LineInFront(text);
      LinesCons(text);
      JoinCons(line, Lines(rest));
      SplitCons(line, Lines(rest));
      assert line + rest == text;
    } else if text != "" {
      OnePiece(text);
    }
  }

  lemma {:induction false} NoLines()
    ensures Lines("") == [] && Join([]) == "" && IsSplit([])
  {
  }

  /** There is no other way to split a text like that. */
  lemma {:induction false} SplitIsUnique(pieces: seq<string>)
    requires IsSplit(pieces)
    ensures pieces == Lines(Join(pieces))
  {
    if pieces != [] {
      hide Join, Lines, CompleteLines, Remainder;
      var first, rest := pieces[0], pieces[1..];
      assert pieces == [first] + rest;
      JoinCons(first, rest);
      SplitIsUnique(rest);
      if IsLine(first) {
        LineThenRest(first, Join(rest));
      } else {
        assert rest == [];
        OnePiece(first);
      }
    } else {
      NoText();
    }
  }

  lemma {:induction false} LineThenRest(line: string, text: string)
    requires IsLine(line)
    ensures Lines(line + text) == [line] + Lines(text)
  {
    hide Lines;
    FindInFront(line, text);
    LinesCons(line + text);
    assert (line + text)[..|line|] == line && (line + text)[|line|..] == text;
  }

  lemma {:induction false} OnePiece(piece: string)
    requires piece != "" && !HasNewline(piece)
    ensures Lines(piece) == [piece] && Join([piece]) == piece && IsSplit([piece])
    ensures Lines(piece + Join([])) == [piece]
  {
    assert piece + Join([]) == piece;
    assert [piece][..0] == [];
  }
}
