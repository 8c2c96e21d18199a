/** The logger of a container: text arrives in arbitrary pieces, and each complete line is logged behind a prefix. */
module ContainerLogs {
  import opened Lines
  import opened CommandOutput

  datatype Logger = Logger(buffer: string, records: seq<string>)

  function Flushed(prefix: string, l: Logger): Logger {
    Logger("", l.records + Records(prefix + l.buffer))
  }

  function Put(prefix: string, l: Logger, c: char): Logger {
    var longer := Logger(l.buffer + [c], l.records);
    if c == '\n' then Flushed(prefix, longer) else longer
  }

  function Written(prefix: string, l: Logger, output: string): Logger {
    if output == "" then l else Put(prefix, Written(prefix, l, output[..|output| - 1]), output[|output| - 1])
  }

  function CleanedUp(prefix: string, l: Logger): Logger {
    if l.buffer == "" then l else Flushed(prefix, Logger(l.buffer + "\n", l.records))
  }

  function WrittenAll(prefix: string, l: Logger, pieces: seq<string>): Logger {
    if pieces == [] then l else Written(prefix, WrittenAll(prefix, l, pieces[..|pieces| - 1]), pieces[|pieces| - 1])
  }

  /** The records of some lines, each behind the prefix. */
  ghost function Marked(prefix: string, lines: seq<string>): seq<string> {
    if lines == [] then [] else Marked(prefix, lines[..|lines| - 1]) + Split(prefix + lines[|lines| - 1])
  }

  lemma {:induction false} WriteConcat(prefix: string, l: Logger, a: string, b: string)
    ensures Written(prefix, l, a + b) == Written(prefix, Written(prefix, l, a), b)
    decreases |b|
  {
    if b == "" {
      assert a + b == a;
    } else {
      WriteConcat(prefix, l, a, b[..|b| - 1]);
      assert (a + b)[..|a + b| - 1] == a + b[..|b| - 1];
    }
  }

  /** Writing a text in pieces is writing it in one go. */
  lemma {:induction false} WriteAllIsOneWrite(prefix: string, l: Logger, pieces: seq<string>)
    ensures WrittenAll(prefix, l, pieces) == Written(prefix, l, Joined(pieces))
    decreases |pieces|
  {
    if pieces != [] {
      WriteAllIsOneWrite(prefix, l, pieces[..|pieces| - 1]);
      WriteConcat(prefix, l, Joined(pieces[..|pieces| - 1]), pieces[|pieces| - 1]);
    }
  }

  /** Written text is logged up to its last newline and buffered from there. */
  lemma {:induction false} WriteSplits(prefix: string, output: string)
    ensures Written(prefix, Logger("", []), output) == Logger(LastPiece(output), Marked(prefix, Pieces(output)))
    decreases |output|
  {
    hide Split, Records;
    if output == "" {
      NoPiecesOfLine("");
    } else {
      var front, c := output[..|output| - 1], output[|output| - 1];
      WriteSplits(prefix, front);
      assert output == front + [c];
      NextChar(front, c);
      var line := LastPiece(front);
      if c == '\n' {
        assert prefix + (line + [c]) == prefix + line + "\n";
        CleanOne(prefix + line);
        assert Pieces(output)[..|Pieces(output)| - 1] == Pieces(front);
      }
    }
  }

  lemma CleanOne(line: string)
    ensures Records(line + "\n") == Split(line)
  {
    assert CleanOutput(line + "\n") == line;
  }

  lemma NextChar(front: string, c: char)
    ensures c == '\n' ==> Pieces(front + [c]) == Pieces(front) + [LastPiece(front)] && LastPiece(front + [c]) == ""
    ensures c != '\n' ==> Pieces(front + [c]) == Pieces(front) && LastPiece(front + [c]) == LastPiece(front) + [c]
  {
    hide Split;
    var line := LastPiece(front);
    SplitExtend(front, [c]);
    SplitHasNoNewline(front);
    assert line in Split(front);
    if c == '\n' {
      assert line + [c] == line + "\n" + "";
      SplitAtNewline(line, "");
      SplitWhole(line);
      SplitWhole("");
    } else {
      SplitWhole(line + [c]);
    }
  }

  /** However a container's output is cut, once the logger is cleaned up its records are the lines of the output: the
      text after the last newline makes one more record exactly when there is some. */
  lemma CleanedUpLog(prefix: string, pieces: seq<string>)
    ensures var output := Joined(pieces);
      var lines := if LastPiece(output) == "" then Pieces(output) else Split(output);
      CleanedUp(prefix, WrittenAll(prefix, Logger("", []), pieces)) == Logger("", Marked(prefix, lines))
  {
    hide Split, Records, Written, WrittenAll;
    var output := Joined(pieces);
    WriteAllIsOneWrite(prefix, Logger("", []), pieces);
    WriteSplits(prefix, output);
    var last := LastPiece(output);
    if last != "" {
      assert prefix + (last + "\n") == prefix + last + "\n";
      CleanOne(prefix + last);
      assert Split(output)[..|Split(output)| - 1] == Pieces(output);
    }
  }

  /** With a prefix on one line there is one record per line. */
  lemma {:induction false} OneRecordEach(prefix: string, lines: seq<string>)
    requires '\n' !in prefix && forall line :: line in lines ==> '\n' !in line
    ensures |Marked(prefix, lines)| == |lines|
    ensures forall i :: 0 <= i < |lines| ==> Marked(prefix, lines)[i] == prefix + lines[i]
    decreases |lines|
  {
    if lines != [] {
      var last := lines[|lines| - 1];
      OneRecordEach(prefix, lines[..|lines| - 1]);
      SplitWhole(prefix + last);
    }
  }

  class ContainerLogger {
    const prefix: string
    var buffer: string
    var records: seq<string>

    constructor (prefix: string)
      ensures this.prefix == prefix && State() == Logger("", [])
    {
      this.prefix, buffer, records := prefix, "", [];
    }

    ghost function State(): Logger reads this {
      Logger(buffer, records)
    }

    method WriteBuffer()
      modifies this
      ensures State() == Flushed(prefix, old(State()))
    {
      var lines := Split(CleanOutput(prefix + buffer));
      buffer := "";
      for i := 0 to |lines|
        invariant buffer == "" && records == old(records) + lines[..i]
      {
        assert lines[..i] + [lines[i]] == lines[..i + 1];
        records := records + [lines[i]];
      }
      assert lines[..|lines|] == lines;
    }

    method Write(output: string)
      modifies this
      ensures State() == Written(prefix, old(State()), output)
    {
      hide Flushed;
      assert output[..0] == "";
      for i := 0 to |output|
        invariant State() == Written(prefix, old(State()), output[..i])
      {
        assert output[..i + 1][..i] == output[..i];
        buffer := buffer + [output[i]];
        if output[i] == '\n' {
          WriteBuffer();
        }
      }
      assert output[..|output|] == output;
    }

    method Cleanup()
      modifies this
      ensures State() == CleanedUp(prefix, old(State()))
    {
      if buffer != "" {
        buffer := buffer + "\n";
        WriteBuffer();
      }
    }
  }
}
