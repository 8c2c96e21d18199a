/** Splitting text at newlines, and what a stream reader may rely on however the text was cut. */
module Lines {
  /** The pieces between newlines, as `split` gives them: one more piece than there are newlines. */
  function Split(text: string): (pieces: seq<string>)
    ensures |pieces| > 0
  {
    if text == [] then [""]
    else
      var rest := Split(text[1..]);
      if text[0] == '\n' then [""] + rest else Prepend(text[0], rest)
  }

  function Prepend(c: char, pieces: seq<string>): (longer: seq<string>)
    requires |pieces| > 0
    ensures |longer| == |pieces|
  {
    [[c] + pieces[0]] + pieces[1..]
  }

  lemma PrependConcat(c: char, a: seq<string>, b: seq<string>)
    requires |a| > 0
    ensures Prepend(c, a + b) == Prepend(c, a) + b
  {
    assert (a + b)[0] == a[0] && (a + b)[1..] == a[1..] + b;
    assert [[c] + a[0]] + (a[1..] + b) == [[c] + a[0]] + a[1..] + b;
  }

  lemma {:induction false} SplitHasNoNewline(text: string)
    ensures forall p :: p in Split(text) ==> '\n' !in p
  {
    if text == [] {
    } else {
      SplitHasNoNewline(text[1..]);
      var rest := Split(text[1..]);
      forall p | p in Split(text) ensures '\n' !in p {
        assert rest[0] in rest;
      }
    }
  }

  lemma {:induction false} SplitWhole(text: string)
    requires '\n' !in text
    ensures Split(text) == [text]
  {
    if text == [] {
    } else {
      SplitWhole(text[1..]);
      assert [text[0]] + text[1..] == text;
    }
  }

  /** Splitting a text at a newline in it. */
  lemma {:induction false} SplitAtNewline(a: string, b: string)
    ensures Split(a + "\n" + b) == Split(a) + Split(b)
    decreases |a|
  {
    hide Prepend;
    var text := a + "\n" + b;
    if a == [] {
      assert text[1..] == b;
    } else {
      assert text[0] == a[0] && text[1..] == a[1..] + "\n" + b;
      SplitAtNewline(a[1..], b);
      var rest := Split(a[1..]);
      if a[0] == '\n' {
        assert [""] + (rest + Split(b)) == [""] + rest + Split(b);
      } else {
        PrependConcat(a[0], rest, Split(b));
      }
    }
  }

  function FirstNewline(text: string): (k: nat)
    requires '\n' in text
    ensures k < |text| && text[k] == '\n' && '\n' !in text[..k]
  {
    if text[0] == '\n' then 0 else 1 + FirstNewline(text[1..])
  }

  function Joined(chunks: seq<string>): string {
    if chunks == [] then "" else Joined(chunks[..|chunks| - 1]) + chunks[|chunks| - 1]
  }

  function NonEmpty(pieces: seq<string>): seq<string> {
    if pieces == [] then []
    else NonEmpty(pieces[..|pieces| - 1]) + if pieces[|pieces| - 1] == "" then [] else [pieces[|pieces| - 1]]
  }

  lemma {:induction false} NonEmptyConcat(a: seq<string>, b: seq<string>)
    ensures NonEmpty(a + b) == NonEmpty(a) + NonEmpty(b)
    decreases |b|
  {
    if b == [] {
      assert a + b == a && NonEmpty(a) + [] == NonEmpty(a);
    } else {
      var last := b[|b| - 1];
      NonEmptyConcat(a, b[..|b| - 1]);
      assert (a + b)[..|a + b| - 1] == a + b[..|b| - 1];
      assert NonEmpty(a) + (NonEmpty(b[..|b| - 1]) + [last]) == NonEmpty(a) + NonEmpty(b[..|b| - 1]) + [last];
    }
  }

  /** Text appended to a split text goes into its last piece. */
  lemma {:induction false} SplitExtend(a: string, c: string)
    ensures Split(a + c) == Split(a)[..|Split(a)| - 1] + Split(Split(a)[|Split(a)| - 1] + c)
    decreases |a|
  {
    if a == [] {
      assert a + c == c && Split(a)[..0] == [] && "" + c == c;
      assert [] + Split(c) == Split(c);
    } else {
      assert (a + c)[0] == a[0] && (a + c)[1..] == a[1..] + c;
      var rest := Split(a[1..]);
      SplitExtend(a[1..], c);
      if a[0] == '\n' {
        assert Split(a)[..|rest|] == [""] + rest[..|rest| - 1];
      } else {
        PrependExtend(a[0], rest, c);
      }
    }
  }

  lemma PrependExtend(a: char, rest: seq<string>, c: string)
    requires |rest| > 0 && a != '\n'
    ensures var n := |rest| - 1;
      Prepend(a, rest[..n] + Split(rest[n] + c)) == Prepend(a, rest)[..n] + Split(Prepend(a, rest)[n] + c)
  {
    var n := |rest| - 1;
    var whole := Prepend(a, rest);
    if n == 0 {
      var text := [a] + rest[0] + c;
      assert whole[0] + c == text && text[0] == a && text[1..] == rest[0] + c;
      assert rest[..0] + Split(rest[0] + c) == Split(rest[0] + c);
      assert whole[..0] + Split(text) == Split(text);
    } else {
      PrependConcat(a, rest[..n], Split(rest[n] + c));
      assert whole[..n] == Prepend(a, rest[..n]);
    }
  }

  /** `a` can be had from `b` by leaving elements out. */
  ghost predicate Subsequence<T>(a: seq<T>, b: seq<T>) {
    if a == [] then true
    else if b == [] then false
    else
      || (a[|a| - 1] == b[|b| - 1] && Subsequence(a[..|a| - 1], b[..|b| - 1]))
      || Subsequence(a, b[..|b| - 1])
  }

  lemma {:induction false} SubsequenceConcat<T>(a: seq<T>, b: seq<T>, c: seq<T>, d: seq<T>)
    requires Subsequence(a, b) && Subsequence(c, d)
    ensures Subsequence(a + c, b + d)
    decreases |d|
  {
    if d == [] {
      assert a + c == a && b + d == b;
    } else {
      assert (b + d)[..|b + d| - 1] == b + d[..|d| - 1];
      if c != [] && c[|c| - 1] == d[|d| - 1] && Subsequence(c[..|c| - 1], d[..|d| - 1]) {
        SubsequenceConcat(a, b, c[..|c| - 1], d[..|d| - 1]);
        assert (a + c)[..|a + c| - 1] == a + c[..|c| - 1];
      } else {
        SubsequenceConcat(a, b, c, d[..|d| - 1]);
      }
    }
  }
}

/** Logging the output of a command: chunks of text are cut into lines. */
module CommandOutput {
  import opened Lines

  function CleanOutput(output: string): string {
    if output != "" && output[|output| - 1] == '\n' then output[..|output| - 1] else output
  }

  /** The records that logging a text produces. */
  function Records(output: string): seq<string> {
    Split(CleanOutput(output))
  }

  /** The records logged for the complete lines in a buffer. An empty line that ends the buffer is not logged. */
  function Logged(buffer: string): seq<string>
    decreases |buffer|
  {
    if '\n' !in buffer then []
    else
      var k := FirstNewline(buffer);
      var line, rest := buffer[..k], buffer[k + 1..];
      (if line != "" || rest != "" then Records(line + "\n") else []) + Logged(rest)
  }

  /** What stays in the buffer after its complete lines are dealt with. */
  function Kept(buffer: string): string
    decreases |buffer|
  {
    if '\n' !in buffer then buffer else Kept(buffer[FirstNewline(buffer) + 1..])
  }

  datatype Reader = Reader(buffer: string, log: seq<string>)

  function Feed(r: Reader, chunk: string): Reader {
    Reader(Kept(r.buffer + chunk), r.log + Logged(r.buffer + chunk))
  }

  function FeedAll(chunks: seq<string>): Reader {
    if chunks == [] then Reader("", []) else Feed(FeedAll(chunks[..|chunks| - 1]), chunks[|chunks| - 1])
  }

  /** The whole log of a command whose output came in these chunks. */
  function LogOf(chunks: seq<string>): seq<string> {
    var r := FeedAll(chunks);
    r.log + if r.buffer != "" then Records(r.buffer) else []
  }

  ghost function Pieces(text: string): seq<string> {
    Split(text)[..|Split(text)| - 1]
  }

  ghost function LastPiece(text: string): string {
    Split(text)[|Split(text)| - 1]
  }

  /** The last line of the text is complete and empty, and nothing follows it. */
  ghost predicate EndsInEmptyLine(text: string) {
    |Pieces(text)| > 0 && Pieces(text)[|Pieces(text)| - 1] == "" && LastPiece(text) == ""
  }

  lemma LineRecord(line: string)
    requires '\n' !in line
    ensures Records(line + "\n") == [line] && Records(line) == [line]
  {
    assert CleanOutput(line + "\n") == line;
    assert line != "" ==> line[|line| - 1] in line;
    SplitWhole(line);
  }

  /** Splitting off the first line of a buffer. */
  lemma LineAndRest(line: string, rest: string)
    requires '\n' !in line
    ensures Pieces(line + "\n" + rest) == [line] + Pieces(rest)
    ensures LastPiece(line + "\n" + rest) == LastPiece(rest)
  {
    hide Split;
    SplitAtNewline(line, rest);
    SplitWhole(line);
  }

  lemma BlankBeforeRest(line: string, rest: string)
    requires '\n' !in line
    ensures EndsInEmptyLine(line + "\n" + rest) == if rest == "" then line == "" else EndsInEmptyLine(rest)
  {
    hide Split, Pieces, LastPiece;
    LineAndRest(line, rest);
    NoPiecesOfNothing();
    if Pieces(rest) == [] {
      WholeIsLastPiece(rest);
    }
  }

  /** Every complete line of a buffer is logged, except an empty one at its very end. */
  lemma {:induction false} BufferLogged(buffer: string)
    ensures Kept(buffer) == LastPiece(buffer) && '\n' !in Kept(buffer)
    ensures Logged(buffer) == if EndsInEmptyLine(buffer) then Pieces(buffer)[..|Pieces(buffer)| - 1] else Pieces(buffer)
    decreases |buffer|
  {
    hide Split, Records, FirstNewline, Pieces, LastPiece;
    if '\n' !in buffer {
      NoPiecesOfLine(buffer);
    } else {
      var k := FirstNewline(buffer);
      var line, rest := buffer[..k], buffer[k + 1..];
      assert buffer == line + "\n" + rest;
      LineAndRest(line, rest);
      BlankBeforeRest(line, rest);
      BufferLogged(rest);
      LineRecord(line);
      NoPiecesOfNothing();
      assert line == "" && rest == "" ==> Logged(buffer) == [];
      if rest != "" && EndsInEmptyLine(rest) {
        assert Pieces(buffer)[..|Pieces(buffer)| - 1] == [line] + Pieces(rest)[..|Pieces(rest)| - 1];
      }
    }
  }

  lemma NoPiecesOfLine(text: string)
    requires '\n' !in text
    ensures Pieces(text) == [] && LastPiece(text) == text
  {
    SplitWhole(text);
  }

  lemma NoPiecesOfNothing()
    ensures Pieces("") == [] && !EndsInEmptyLine("")
  {
  }

  lemma WholeIsLastPiece(text: string)
    requires Pieces(text) == []
    ensures text == LastPiece(text)
  {
    if '\n' !in text {
      SplitWhole(text);
    } else {
      NewlineMakesPieces(text);
    }
  }

  lemma NewlineMakesPieces(text: string)
    requires '\n' in text
    ensures Pieces(text) != []
  {
    hide Split;
    var k := FirstNewline(text);
    SplitAtNewline(text[..k], text[k + 1..]);
    assert text == text[..k] + "\n" + text[k + 1..];
  }

  /** The chunks at whose end the reader drops an empty line. */
  ghost predicate DropsAt(chunks: seq<string>, i: nat) {
    i < |chunks| && EndsInEmptyLine(LastPiece(Joined(chunks[..i])) + chunks[i])
  }

  ghost function Drops(chunks: seq<string>): nat {
    if chunks == [] then 0
    else Drops(chunks[..|chunks| - 1]) + if DropsAt(chunks, |chunks| - 1) then 1 else 0
  }

  lemma {:induction false} FedSoFar(chunks: seq<string>)
    ensures FeedAll(chunks).buffer == LastPiece(Joined(chunks)) && '\n' !in FeedAll(chunks).buffer
    ensures Subsequence(FeedAll(chunks).log, Pieces(Joined(chunks)))
    ensures NonEmpty(FeedAll(chunks).log) == NonEmpty(Pieces(Joined(chunks)))
    ensures |FeedAll(chunks).log| + Drops(chunks) == |Pieces(Joined(chunks))|
    decreases |chunks|
  {
    if chunks == [] {
    } else {
      var first, chunk := chunks[..|chunks| - 1], chunks[|chunks| - 1];
      FedSoFar(first);
      SplitExtend(Joined(first), chunk);
      var r, buffer := FeedAll(first), LastPiece(Joined(first)) + chunk;
      BufferLogged(buffer);
      assert Pieces(Joined(chunks)) == Pieces(Joined(first)) + Pieces(buffer);
      assert LastPiece(Joined(chunks)) == LastPiece(buffer);
      LoggedOfPieces(buffer);
      SubsequenceConcat(r.log, Pieces(Joined(first)), Logged(buffer), Pieces(buffer));
      NonEmptyConcat(r.log, Logged(buffer));
      NonEmptyConcat(Pieces(Joined(first)), Pieces(buffer));
    }
  }

  lemma LoggedOfPieces(buffer: string)
    ensures Subsequence(Logged(buffer), Pieces(buffer))
    ensures NonEmpty(Logged(buffer)) == NonEmpty(Pieces(buffer))
    ensures |Logged(buffer)| == |Pieces(buffer)| - if EndsInEmptyLine(buffer) then 1 else 0
  {
    hide Split, Logged, Pieces, LastPiece, Kept;
    BufferLogged(buffer);
    SubsequenceSelf(Logged(buffer));
    if EndsInEmptyLine(buffer) {
      SubsequenceConcat(Logged(buffer), Logged(buffer), [], [""]);
      assert Logged(buffer) + [] == Logged(buffer) && Logged(buffer) + [""] == Pieces(buffer);
      NonEmptyConcat(Logged(buffer), [""]);
      assert NonEmpty([""]) == [];
    }
  }

  lemma {:induction false} SubsequenceSelf<T>(a: seq<T>)
    ensures Subsequence(a, a)
    decreases |a|
  {
    if a != [] {
      SubsequenceSelf(a[..|a| - 1]);
    }
  }

  /** However the output is cut: every non-empty line is logged, once and in order; the log consists of lines of the
      output; and the lines missing from it are one empty line per chunk that ends in one, and the empty rest after a
      final newline. */
  lemma LogIsLines(chunks: seq<string>)
    ensures NonEmpty(LogOf(chunks)) == NonEmpty(Split(Joined(chunks)))
    ensures Subsequence(LogOf(chunks), Split(Joined(chunks)))
    ensures var output := Joined(chunks);
      |LogOf(chunks)| + Drops(chunks) + (if LastPiece(output) == "" then 1 else 0) == |Split(output)|
  {
    hide Split, Records, FeedAll, Drops, Joined, Subsequence;
    FedSoFar(chunks);
    var r := FeedAll(chunks);
    var pieces, last := Pieces(Joined(chunks)), LastPiece(Joined(chunks));
    assert Split(Joined(chunks)) == pieces + [last];
    NonEmptyConcat(pieces, [last]);
    if last != "" {
      LineRecord(last);
      NonEmptyConcat(r.log, [last]);
      SubsequenceSelf([last]);
      SubsequenceConcat(r.log, pieces, [last], [last]);
    } else {
      SubsequenceConcat(r.log, pieces, [], [last]);
      assert r.log + [] == r.log;
      assert NonEmpty([""]) == [];
    }
  }

  /** The same output, cut right after an empty line, loses that line from the log. */
  lemma EmptyLineDependsOnChunks(a: string, b: string)
    requires b != ""
    ensures Joined([a + "\n\n" + b]) == Joined([a + "\n\n", b])
    ensures |LogOf([a + "\n\n" + b])| == |LogOf([a + "\n\n", b])| + 1
  {
    hide Split, Pieces, LastPiece, EndsInEmptyLine, LogOf;
    var front := a + "\n\n";
    var one, two := [front + b], [front, b];
    assert two[..1] == [front] && "" + front == front && "" + (front + b) == front + b;
    JoinedSingle(front);
    JoinedSingle(front + b);
    LogIsLines(one);
    LogIsLines(two);
    BlankInFront(a, b);
    assert Joined(two) == Joined(two[..1]) + b;
    assert "" + b == b;
    NoPiecesOfLine("");
    assert one[..0] == [] && Joined(one[..0]) == "";
    assert DropsAt(one, 0) == EndsInEmptyLine(b);
    assert two[..1][..0] == [] && two[..1][0] == front;
    assert DropsAt(two[..1], 0) && DropsAt(two, 1) == EndsInEmptyLine(b);
    assert Drops(one[..0]) == 0 && Drops(two[..1]) == 1;
  }

  lemma JoinedSingle(text: string)
    ensures Joined([text]) == text
  {
    assert [text][..0] == [] && "" + text == text;
  }

  lemma BlankInFront(a: string, b: string)
    requires b != ""
    ensures EndsInEmptyLine(a + "\n\n" + b) == EndsInEmptyLine(b)
    ensures EndsInEmptyLine(a + "\n\n") && LastPiece(a + "\n\n") == ""
  {
    hide Split;
    assert a + "\n\n" + b == a + "\n" + ("\n" + b) && a + "\n\n" == a + "\n" + ("\n" + "");
    SplitAtNewline(a, "\n" + b);
    SplitAtNewline(a, "\n" + "");
    SplitAtNewline("", b);
    SplitAtNewline("", "");
    assert "" + "\n" + b == "\n" + b && "" + "\n" + "" == "\n" + "";
    SplitWhole("");
    if Pieces(b) == [] {
      WholeIsLastPiece(b);
    }
    var front, back := Split(a) + [""], Split(b);
    assert Split(a + "\n\n" + b) == front + back;
    assert Pieces(a + "\n\n" + b) == front + Pieces(b);
    assert Split(a + "\n\n") == front + [""];
  }

  /** One line taken off the front of a buffer. */
  lemma TakeLine(buffer: string)
    requires '\n' in buffer
    ensures var k := FirstNewline(buffer);
      var line, rest := buffer[..k], buffer[k + 1..];
      && Kept(buffer) == Kept(rest)
      && Logged(buffer) == (if line != "" || rest != "" then Records(line + "\n") else []) + Logged(rest)
  {
    hide FirstNewline, Records;
  }

  lemma NoLine(buffer: string)
    requires '\n' !in buffer
    ensures Kept(buffer) == buffer && Logged(buffer) == []
  {
  }

  class DockerRunner {
    var records: seq<string>

    /** Logs a text, one record per line. */
    method RunLog(output: string)
      modifies this
      ensures records == old(records) + Records(output)
    {
      var lines := Split(CleanOutput(output));
      for i := 0 to |lines|
        invariant records == old(records) + lines[..i]
      {
        assert lines[..i] + [lines[i]] == lines[..i + 1];
        records := records + [lines[i]];
      }
      assert lines[..|lines|] == lines;
    }

    /** Reads the output of a command. When the peer goes silent the chunks end early and what is buffered is lost. */
    method ReadOutput(chunks: seq<string>, timedOut: bool)
      modifies this
      ensures records == old(records) + if timedOut then FeedAll(chunks).log else LogOf(chunks)
    {
      hide FeedAll, Records, Logged, Kept;
      var lineBuffer := "";
      NothingFed();
      for i := 0 to |chunks|
        invariant lineBuffer == FeedAll(chunks[..i]).buffer
        invariant records == old(records) + FeedAll(chunks[..i]).log
      {
        FeedNext(chunks, i);
        ghost var before := FeedAll(chunks[..i]);
        lineBuffer := lineBuffer + chunks[i];
        lineBuffer := LogCompleteLines(lineBuffer);
        assert records == old(records) + (before.log + Logged(before.buffer + chunks[i]));
      }
      assert chunks[..|chunks|] == chunks;
      if !timedOut && lineBuffer != "" {
        RunLog(lineBuffer);
        assert records == old(records) + (FeedAll(chunks).log + Records(lineBuffer));
      } else if !timedOut {
        assert FeedAll(chunks).log + [] == FeedAll(chunks).log;
      }
    }

    method LogCompleteLines(buffer: string) returns (lineBuffer: string)
      modifies this
      ensures lineBuffer == Kept(buffer)
      ensures records == old(records) + Logged(buffer)
    {
      hide FirstNewline, Records, Kept, Logged;
      lineBuffer := buffer;
      ghost var logged: seq<string> := [];
      while '\n' in lineBuffer
        invariant Kept(lineBuffer) == Kept(buffer)
        invariant records == old(records) + logged && logged + Logged(lineBuffer) == Logged(buffer)
        decreases |lineBuffer|
      {
        TakeLine(lineBuffer);
        var k := FirstNewline(lineBuffer);
        var line := lineBuffer[..k];
        ghost var rest := Logged(lineBuffer[k + 1..]);
        lineBuffer := lineBuffer[k + 1..];
        if line != "" || lineBuffer != "" {
          RunLog(line + "\n");
          assert logged + (Records(line + "\n") + rest) == (logged + Records(line + "\n")) + rest;
          logged := logged + Records(line + "\n");
        } else {
          assert [] + rest == rest;
        }
      }
      NoLine(lineBuffer);
      assert logged + [] == logged;
    }
  }

  lemma NothingFed()
    ensures FeedAll([]) == Reader("", [])
  {
  }

  lemma FeedNext(chunks: seq<string>, i: nat)
    requires i < |chunks|
    ensures FeedAll(chunks[..i + 1]) == Feed(FeedAll(chunks[..i]), chunks[i])
  {
    assert chunks[..i + 1][..i] == chunks[..i];
  }
}
