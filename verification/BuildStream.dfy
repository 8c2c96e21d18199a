/** Reading the message stream of an image build: JSON messages, one per line, cut into chunks anywhere. */
module BuildStream {
  import opened Common
  import opened Lines

  /** What the reader looks at in a message: a container an instruction runs in, the image built, an error. */
  datatype Message = Message(running: Option<string>, built: Option<string>, error: bool)

  /** The message a text parses to, if it does. */
  type Decoder = string -> Option<Message>

  predicate Blank(s: string) {
    forall c :: c in s ==> c == ' ' || c == '\t' || c == '\r'
  }

  /** A text that is a message once it is complete and not before, whatever blanks surround it. */
  ghost predicate IsMessage(decode: Decoder, m: string) {
    && m != "" && '\n' !in m && decode(m).Some?
    && (forall w, t :: Blank(w) && Blank(t) ==> decode(w + m + t) == decode(m))
    && (forall w, k :: Blank(w) && 0 <= k < |m| ==> decode(w + m[..k]).None?)
  }

  /** A text that is not a message yet. */
  ghost predicate IsPartial(decode: Decoder, r: string) {
    && '\n' !in r
    && forall w, k :: Blank(w) && 0 <= k <= |r| ==> decode(w + r[..k]).None?
  }

  /** How far a scan of braces and quotes has got. */
  datatype Scan = Scan(depth: int, quoted: bool, escaped: bool)

  function ScanStep(s: Scan, c: char): Scan {
    if s.quoted then
      if s.escaped then s.(escaped := false)
      else if c == '\\' then s.(escaped := true)
      else if c == '"' then s.(quoted := false)
      else s
    else if c == '"' then s.(quoted := true)
    else if c == '{' then s.(depth := s.depth + 1)
    else if c == '}' then s.(depth := s.depth - 1)
    else s
  }

  function ScanText(t: string): Scan {
    if t == "" then Scan(0, false, false) else ScanStep(ScanText(t[..|t| - 1]), t[|t| - 1])
  }

  /** A text whose opening brace is closed by its last character. */
  ghost predicate ClosedObject(t: string) {
    && t != "" && t[0] == '{' && ScanText(t) == Scan(0, false, false)
    && forall k :: 0 < k < |t| ==> ScanText(t[..k]) != Scan(0, false, false)
  }

  lemma ScanNext(t: string, c: char)
    ensures ScanText(t + [c]) == ScanStep(ScanText(t), c)
  {
    assert (t + [c])[..|t|] == t;
  }

  /** Braces inside a string do not count, nor does a quote behind a backslash end one. */
  lemma ScanExample()
    ensures ClosedObject("{\"}\\\"\\\\\":{}}")
  {
    hide ScanStep, ScanText;
    var t := "{\"}\\\"\\\\\":{}}";
    ScanOf(t);
    assert t[..|t|] == t;
  }

  /** How far the scan has got after each character of the example. */
  lemma ScanOf(t: string)
    requires t == "{\"}\\\"\\\\\":{}}"
    ensures ScanText(t[..1]) == Scan(1, false, false) && ScanText(t[..2]) == Scan(1, true, false)
    ensures ScanText(t[..3]) == Scan(1, true, false) && ScanText(t[..4]) == Scan(1, true, true)
    ensures ScanText(t[..5]) == Scan(1, true, false) && ScanText(t[..6]) == Scan(1, true, true)
    ensures ScanText(t[..7]) == Scan(1, true, false) && ScanText(t[..8]) == Scan(1, false, false)
    ensures ScanText(t[..9]) == Scan(1, false, false) && ScanText(t[..10]) == Scan(2, false, false)
    ensures ScanText(t[..11]) == Scan(1, false, false) && ScanText(t[..12]) == Scan(0, false, false)
    ensures |t| == 12
  {
    hide ScanText;
    assert t[..0] == "";
    NothingScanned();
    forall k | 0 <= k < 12 ensures ScanText(t[..k + 1]) == ScanStep(ScanText(t[..k]), t[k]) {
      assert t[..k + 1] == t[..k] + [t[k]];
      ScanNext(t[..k], t[k]);
    }
    var s0, s1, s2, s3 := ScanText(t[..0]), ScanText(t[..1]), ScanText(t[..2]), ScanText(t[..3]);
    var s4, s5, s6, s7 := ScanText(t[..4]), ScanText(t[..5]), ScanText(t[..6]), ScanText(t[..7]);
    var s8, s9, s10, s11 := ScanText(t[..8]), ScanText(t[..9]), ScanText(t[..10]), ScanText(t[..11]);
    assert s1 == ScanStep(s0, t[0]) && s2 == ScanStep(s1, t[1]) && s3 == ScanStep(s2, t[2]);
    assert s4 == ScanStep(s3, t[3]) && s5 == ScanStep(s4, t[4]) && s6 == ScanStep(s5, t[5]);
    assert s7 == ScanStep(s6, t[6]) && s8 == ScanStep(s7, t[7]) && s9 == ScanStep(s8, t[8]);
    assert s10 == ScanStep(s9, t[9]) && s11 == ScanStep(s10, t[10]) && ScanText(t[..12]) == ScanStep(s11, t[11]);
  }

  lemma NothingScanned()
    ensures ScanText("") == Scan(0, false, false)
  {
  }

  /** What the reader relies on in a JSON parser: blanks around a text do not matter, blanks alone are no message,
      and what it accepts behind an opening brace is an object and blanks. */
  ghost predicate JsonLike(decode: Decoder) {
    && (forall w, s, t :: Blank(w) && Blank(t) ==> decode(w + s + t) == decode(s))
    && (forall w :: Blank(w) ==> decode(w).None?)
    && (forall s :: s != "" && s[0] == '{' && '\n' !in s && decode(s).Some? ==>
         exists j :: 0 <= j <= |s| && ClosedObject(s[..j]))
  }

  lemma PrefixIsNoMessage(decode: Decoder, m: string, w: string, k: nat)
    requires JsonLike(decode) && ClosedObject(m) && '\n' !in m && Blank(w) && k < |m|
    ensures decode(w + m[..k]).None?
  {
    var s := m[..k];
    assert w + s + "" == w + s;
    assert decode(w + s + "") == decode(s);
    forall j | 0 <= j <= |s| ensures !ClosedObject(s[..j]) {
      assert s[..j] == m[..j];
    }
  }

  /** A JSON object on one line is a message in the sense above, and any shorter beginning of it is not one yet. */
  lemma ObjectsAreMessages(decode: Decoder, m: string, n: nat)
    requires JsonLike(decode) && ClosedObject(m) && '\n' !in m && decode(m).Some?
    ensures IsMessage(decode, m)
    ensures n < |m| ==> IsPartial(decode, m[..n])
  {
    forall w, k | Blank(w) && 0 <= k < |m| ensures decode(w + m[..k]).None? {
      PrefixIsNoMessage(decode, m, w, k);
    }
    if n < |m| {
      forall w, k | Blank(w) && 0 <= k <= n ensures decode(w + m[..n][..k]).None? {
        PrefixIsNoMessage(decode, m, w, k);
        assert m[..n][..k] == m[..k];
      }
    }
  }

  /** A line of the stream: a message and the blanks (a carriage return, say) before the newline. */
  datatype Line = Line(message: string, trail: string)

  ghost predicate IsLine(decode: Decoder, line: Line) {
    IsMessage(decode, line.message) && Blank(line.trail)
  }

  ghost predicate AreLines(decode: Decoder, lines: seq<Line>) {
    forall l :: l in lines ==> IsLine(decode, l)
  }

  /** The stream the daemon sends: complete lines, then possibly the beginning of one. */
  ghost function Text(lines: seq<Line>, partial: string): string {
    if lines == [] then partial else lines[0].message + (lines[0].trail + "\n" + Text(lines[1..], partial))
  }

  ghost function Decoded(decode: Decoder, lines: seq<Line>): seq<Message>
    requires AreLines(decode, lines)
  {
    seq(|lines|, i requires 0 <= i < |lines| => Parsed(decode, lines, i))
  }

  ghost function Parsed(decode: Decoder, lines: seq<Line>, i: nat): Message
    requires AreLines(decode, lines) && i < |lines|
  {
    assert IsLine(decode, lines[i]);
    decode(lines[i].message).value
  }

  /** The unparsed text kept between pieces, and the messages parsed so far. */
  datatype Reader = Reader(buffer: string, messages: seq<Message>)

  function FeedPiece(decode: Decoder, r: Reader, piece: string): Reader {
    if piece == "" then r
    else
      var buffer := r.buffer + piece;
      match decode(buffer)
      case Some(m) => Reader("", r.messages + [m])
      case None => r.(buffer := buffer)
  }

  function FeedPieces(decode: Decoder, r: Reader, pieces: seq<string>): Reader {
    if pieces == [] then r
    else FeedPiece(decode, FeedPieces(decode, r, pieces[..|pieces| - 1]), pieces[|pieces| - 1])
  }

  function FeedAll(decode: Decoder, chunks: seq<string>): Reader {
    if chunks == [] then Reader("", [])
    else FeedPieces(decode, FeedAll(decode, chunks[..|chunks| - 1]), Split(chunks[|chunks| - 1]))
  }

  /** Where the reader stands when `rest` is still to come: inside a message or the partial one, ... */
  ghost predicate Inside(buffer: string, rest: string, todo: seq<Line>, partial: string, w: string, k: nat) {
    && Blank(w)
    && if todo == [] then k <= |partial| && buffer == w + partial[..k] && rest == partial[k..]
       else
         && k < |todo[0].message| && buffer == w + todo[0].message[..k]
         && rest == todo[0].message[k..] + (todo[0].trail + "\n" + Text(todo[1..], partial))
  }

  /** ... or in the blanks after one. */
  ghost predicate After(buffer: string, rest: string, todo: seq<Line>, partial: string, t: string) {
    Blank(buffer) && Blank(t) && rest == t + "\n" + Text(todo, partial)
  }

  ghost predicate Somewhere(buffer: string, rest: string, todo: seq<Line>, partial: string) {
    || (exists w, k: nat :: Inside(buffer, rest, todo, partial, w, k))
    || (exists t :: After(buffer, rest, todo, partial, t))
  }

  lemma BlankConcat(a: string, b: string)
    ensures Blank(a + b) <==> Blank(a) && Blank(b)
  {
    assert forall c :: c in a + b <==> c in a || c in b;
  }

  lemma PrefixSplit(p: string, rest: string, a: string, b: string)
    requires p + rest == a + b && |p| >= |a|
    ensures p == a + p[|a|..] && b == p[|a|..] + rest
  {
    assert (p + rest)[..|a|] == a;
    assert (p + rest)[|a|..] == b;
  }

  /** A piece without a newline, fed inside the partial message. */
  lemma PieceInPartial(decode: Decoder, r: Reader, piece: string, rest: string, partial: string, w: string, k: nat)
    requires IsPartial(decode, partial) && piece != ""
    requires Inside(r.buffer, piece + rest, [], partial, w, k)
    ensures FeedPiece(decode, r, piece) == r.(buffer := r.buffer + piece)
    ensures Somewhere(r.buffer + piece, rest, [], partial)
  {
    assert piece <= partial[k..];
    assert r.buffer + piece == w + partial[..k + |piece|];
    assert rest == partial[k + |piece|..];
    assert Inside(r.buffer + piece, rest, [], partial, w, k + |piece|);
  }

  /** A piece that does not complete the message it falls in. */
  lemma PieceInMessage(decode: Decoder, r: Reader, piece: string, rest: string, todo: seq<Line>, partial: string,
                       w: string, k: nat)
    requires todo != [] && IsLine(decode, todo[0]) && piece != "" && |piece| < |todo[0].message| - k
    requires Inside(r.buffer, piece + rest, todo, partial, w, k)
    ensures FeedPiece(decode, r, piece) == r.(buffer := r.buffer + piece)
    ensures Somewhere(r.buffer + piece, rest, todo, partial)
  {
    var m, after := todo[0].message, todo[0].trail + "\n" + Text(todo[1..], partial);
    assert piece + rest == m[k..] + after;
    assert (piece + rest)[..|piece|] == m[k..][..|piece|];
    assert r.buffer + piece == w + m[..k + |piece|];
    assert rest == (piece + rest)[|piece|..] == m[k + |piece|..] + after;
    assert Inside(r.buffer + piece, rest, todo, partial, w, k + |piece|);
  }

  /** A piece that completes the message it falls in, and may take some of the blanks after it along. */
  lemma PieceCompletes(decode: Decoder, r: Reader, piece: string, rest: string, todo: seq<Line>, partial: string,
                       w: string, k: nat)
    requires todo != [] && IsLine(decode, todo[0]) && '\n' !in piece && |piece| >= |todo[0].message| - k
    requires Inside(r.buffer, piece + rest, todo, partial, w, k)
    ensures FeedPiece(decode, r, piece) == Reader("", r.messages + [decode(todo[0].message).value])
    ensures Somewhere("", rest, todo[1..], partial)
  {
    hide Text;
    var m, trail, text := todo[0].message, todo[0].trail, Text(todo[1..], partial);
    assert piece + rest == m[k..] + (trail + "\n" + text);
    PrefixSplit(piece, rest, m[k..], trail + "\n" + text);
    var x := piece[|m| - k..];
    assert trail + "\n" + text == trail + ("\n" + text);
    TrailCut(x, rest, trail, text);
    assert m == m[..k] + m[k..];
    assert r.buffer + piece == w + m + x;
    BlankConcat(x, trail[|x|..]);
    assert trail == x + trail[|x|..];
    assert After("", rest, todo[1..], partial, trail[|x|..]);
  }

  lemma DecodedFront(decode: Decoder, lines: seq<Line>)
    requires AreLines(decode, lines) && lines != []
    ensures AreLines(decode, lines[1..]) && IsLine(decode, lines[0]) && decode(lines[0].message).Some?
    ensures Decoded(decode, lines) == [decode(lines[0].message).value] + Decoded(decode, lines[1..])
  {
    assert lines[0] in lines;
  }

  /** A piece without a newline, fed inside a message. */
  lemma PieceInside(decode: Decoder, r: Reader, piece: string, rest: string, todo: seq<Line>, partial: string,
                    w: string, k: nat)
    returns (left: seq<Line>)
    requires AreLines(decode, todo) && IsPartial(decode, partial)
    requires piece != "" && '\n' !in piece
    requires Inside(r.buffer, piece + rest, todo, partial, w, k)
    ensures AreLines(decode, left)
    ensures var r' := FeedPiece(decode, r, piece);
      Somewhere(r'.buffer, rest, left, partial)
        && r'.messages + Decoded(decode, left) == r.messages + Decoded(decode, todo)
  {
    hide Somewhere, IsLine, AreLines, Decoded, FeedPiece, IsPartial;
    if todo == [] {
      left := todo;
      PieceInPartial(decode, r, piece, rest, partial, w, k);
    } else {
      DecodedFront(decode, todo);
      if |piece| < |todo[0].message| - k {
        left := todo;
        PieceInMessage(decode, r, piece, rest, todo, partial, w, k);
      } else {
        left := todo[1..];
        PieceCompletes(decode, r, piece, rest, todo, partial, w, k);
        var m := decode(todo[0].message).value;
        assert r.messages + [m] + Decoded(decode, left) == r.messages + ([m] + Decoded(decode, left));
      }
    }
  }

  /** A piece without a newline that begins in the blanks before a newline ends in them. */
  lemma TrailCut(x: string, rest: string, trail: string, text: string)
    requires x + rest == trail + ("\n" + text) && '\n' !in x
    ensures x <= trail && rest == trail[|x|..] + "\n" + text
  {
    assert (x + rest)[|trail|] == (trail + ("\n" + text))[|trail|] == '\n';
    assert (x + rest)[..|x|] == x && (x + rest)[|x|..] == rest;
  }

  lemma PieceAfter(decode: Decoder, r: Reader, piece: string, rest: string, todo: seq<Line>, partial: string, t: string)
    requires IsPartial(decode, partial)
    requires piece != "" && '\n' !in piece
    requires After(r.buffer, piece + rest, todo, partial, t)
    ensures var r' := FeedPiece(decode, r, piece);
      Somewhere(r'.buffer, rest, todo, partial) && r'.messages == r.messages
  {
    assert piece + rest == t + ("\n" + Text(todo, partial));
    TrailCut(piece, rest, t, Text(todo, partial));
    assert t == piece + t[|piece|..];
    BlankConcat(piece, t[|piece|..]);
    BlankConcat(r.buffer, piece);
    assert r.buffer + piece + partial[..0] == r.buffer + piece;
    assert After(r.buffer + piece, rest, todo, partial, t[|piece|..]);
  }

  lemma PieceStep(decode: Decoder, r: Reader, piece: string, rest: string, todo: seq<Line>, partial: string)
    returns (left: seq<Line>)
    requires AreLines(decode, todo) && IsPartial(decode, partial) && '\n' !in piece
    requires Somewhere(r.buffer, piece + rest, todo, partial)
    ensures AreLines(decode, left)
    ensures var r' := FeedPiece(decode, r, piece);
      Somewhere(r'.buffer, rest, left, partial)
        && r'.messages + Decoded(decode, left) == r.messages + Decoded(decode, todo)
  {
    if piece == "" {
      assert piece + rest == rest;
      left := todo;
    } else if exists w, k: nat :: Inside(r.buffer, piece + rest, todo, partial, w, k) {
      var w, k: nat :| Inside(r.buffer, piece + rest, todo, partial, w, k);
      left := PieceInside(decode, r, piece, rest, todo, partial, w, k);
    } else {
      var t :| After(r.buffer, piece + rest, todo, partial, t);
      PieceAfter(decode, r, piece, rest, todo, partial, t);
      left := todo;
    }
  }

  lemma NewlineInside(m: string, k: nat, after: string, rest: string)
    requires k <= |m| && "\n" + rest == m[k..] + after
    ensures k < |m| ==> '\n' in m
    ensures after == "" ==> '\n' in m
  {
    if k < |m| {
      assert (m[k..] + after)[0] == m[k];
    }
  }

  lemma NewlineFirst(t: string, rest: string, text: string)
    requires "\n" + rest == t + "\n" + text
    ensures '\n' in t || (t == "" && rest == text)
  {
    if t == "" {
      assert ("\n" + rest)[1..] == rest && (t + "\n" + text)[1..] == text;
    } else {
      assert (t + "\n" + text)[0] == t[0];
    }
  }

  /** Newlines only come after a message. */
  lemma NewlineStep(decode: Decoder, buffer: string, rest: string, todo: seq<Line>, partial: string)
    requires AreLines(decode, todo) && IsPartial(decode, partial)
    requires Somewhere(buffer, "\n" + rest, todo, partial)
    ensures Somewhere(buffer, rest, todo, partial)
  {
    if exists w, k: nat :: Inside(buffer, "\n" + rest, todo, partial, w, k) {
      var w, k: nat :| Inside(buffer, "\n" + rest, todo, partial, w, k);
      if todo == [] {
        assert partial[k..] + "" == partial[k..];
        NewlineInside(partial, k, "", rest);
      } else {
        assert todo[0] in todo;
        NewlineInside(todo[0].message, k, todo[0].trail + "\n" + Text(todo[1..], partial), rest);
      }
    } else {
      var t :| After(buffer, "\n" + rest, todo, partial, t);
      NewlineFirst(t, rest, Text(todo, partial));
      NextLine(decode, buffer, todo, partial);
    }
  }

  /** The blanks kept from the end of a line become those in front of the next one. */
  lemma NextLine(decode: Decoder, buffer: string, todo: seq<Line>, partial: string)
    requires AreLines(decode, todo) && Blank(buffer)
    ensures Somewhere(buffer, Text(todo, partial), todo, partial)
  {
    if todo == [] {
      assert Inside(buffer, partial, todo, partial, buffer, 0);
    } else {
      assert todo[0] in todo && IsLine(decode, todo[0]);
      assert buffer + todo[0].message[..0] == buffer;
      assert todo[0].message[0..] == todo[0].message;
      assert Inside(buffer, Text(todo, partial), todo, partial, buffer, 0);
    }
  }

  lemma {:induction false} FeedFront(decode: Decoder, r: Reader, piece: string, pieces: seq<string>)
    ensures FeedPieces(decode, r, [piece] + pieces) == FeedPieces(decode, FeedPiece(decode, r, piece), pieces)
    decreases |pieces|
  {
    var all := [piece] + pieces;
    if pieces == [] {
      assert all[..0] == [];
    } else {
      FeedFront(decode, r, piece, pieces[..|pieces| - 1]);
      assert all[..|all| - 1] == [piece] + pieces[..|pieces| - 1];
    }
  }

  /** A whole chunk, newlines and all. */
  lemma {:induction false} ChunkStep(decode: Decoder, r: Reader, chunk: string, rest: string, todo: seq<Line>,
                                     partial: string)
    returns (left: seq<Line>)
    requires AreLines(decode, todo) && IsPartial(decode, partial)
    requires Somewhere(r.buffer, chunk + rest, todo, partial)
    ensures AreLines(decode, left)
    ensures var r' := FeedPieces(decode, r, Split(chunk));
      Somewhere(r'.buffer, rest, left, partial)
        && r'.messages + Decoded(decode, left) == r.messages + Decoded(decode, todo)
    decreases |chunk|
  {
    hide Somewhere, Split, AreLines, IsPartial, Decoded, FeedPiece;
    if '\n' !in chunk {
      SplitWhole(chunk);
      FeedFront(decode, r, chunk, []);
      assert [chunk] + [] == [chunk];
      left := PieceStep(decode, r, chunk, rest, todo, partial);
    } else {
      var k := FirstNewline(chunk);
      var p, c := chunk[..k], chunk[k + 1..];
      assert chunk == p + "\n" + c;
      SplitAtNewline(p, c);
      SplitWhole(p);
      assert chunk + rest == p + ("\n" + (c + rest));
      var middle := PieceStep(decode, r, p, "\n" + (c + rest), todo, partial);
      var r1 := FeedPiece(decode, r, p);
      NewlineStep(decode, r1.buffer, c + rest, middle, partial);
      left := ChunkStep(decode, r1, c, rest, middle, partial);
      FeedFront(decode, r, p, Split(c));
    }
  }

  lemma {:induction false} ChunksStep(decode: Decoder, chunks: seq<string>, rest: string, lines: seq<Line>,
                                      partial: string)
    returns (left: seq<Line>)
    requires AreLines(decode, lines) && IsPartial(decode, partial)
    requires Joined(chunks) + rest == Text(lines, partial)
    ensures AreLines(decode, left)
    ensures var r := FeedAll(decode, chunks);
      Somewhere(r.buffer, rest, left, partial) && r.messages + Decoded(decode, left) == Decoded(decode, lines)
    decreases |chunks|
  {
    hide Split, FeedPieces;
    if chunks == [] {
      left := lines;
      assert [] + Decoded(decode, lines) == Decoded(decode, lines);
      assert "" + rest == rest;
      NextLine(decode, "", lines, partial);
    } else {
      var last := chunks[|chunks| - 1];
      var first := Joined(chunks[..|chunks| - 1]);
      assert Joined(chunks) + rest == first + (last + rest);
      var middle := ChunksStep(decode, chunks[..|chunks| - 1], last + rest, lines, partial);
      left := ChunkStep(decode, FeedAll(decode, chunks[..|chunks| - 1]), last, rest, middle, partial);
    }
  }

  /** Nothing is left over once the whole stream has been fed, except the partial message and blanks before it. */
  lemma AtEnd(buffer: string, todo: seq<Line>, partial: string)
    requires Somewhere(buffer, "", todo, partial)
    ensures todo == []
    ensures exists w :: Blank(w) && buffer == w + partial
  {
    if exists w, k: nat :: Inside(buffer, "", todo, partial, w, k) {
      var w, k: nat :| Inside(buffer, "", todo, partial, w, k);
      if todo == [] {
        assert partial[..k] == partial by {
          assert |partial[k..]| == 0;
        }
      }
    }
  }

  /** However the stream is cut, exactly its complete messages are read, in order; the beginning of one is kept. */
  lemma ReassemblesAnyChunking(decode: Decoder, chunks: seq<string>, lines: seq<Line>, partial: string)
    requires AreLines(decode, lines) && IsPartial(decode, partial)
    requires Joined(chunks) == Text(lines, partial)
    ensures FeedAll(decode, chunks).messages == Decoded(decode, lines)
    ensures exists w :: Blank(w) && FeedAll(decode, chunks).buffer == w + partial
  {
    assert Joined(chunks) + "" == Joined(chunks);
    var left := ChunksStep(decode, chunks, "", lines, partial);
    AtEnd(FeedAll(decode, chunks).buffer, left, partial);
    assert FeedAll(decode, chunks).messages + [] == FeedAll(decode, chunks).messages;
  }

  /** What the builder keeps of the messages it reads. */
  datatype Report = Report(exitCode: int, image: Option<string>, intermediate: seq<string>)

  function Noted(report: Report, m: Message): Report {
    Report(
      if m.error then 1 else report.exitCode,
      if m.built.Some? then m.built else report.image,
      report.intermediate + if m.running.Some? then [m.running.value] else [])
  }

  function AllNoted(start: Report, messages: seq<Message>): Report {
    if messages == [] then start else Noted(AllNoted(start, messages[..|messages| - 1]), messages[|messages| - 1])
  }

  /** Some message is an error. */
  ghost predicate AnyError(messages: seq<Message>) {
    exists k :: 0 <= k < |messages| && messages[k].error
  }

  /** The `k`-th message is the last one that tells of an image. */
  ghost predicate LastBuilt(messages: seq<Message>, k: int) {
    && 0 <= k < |messages| && messages[k].built.Some?
    && forall j :: k < j < |messages| ==> messages[j].built.None?
  }

  /** `at` lists the messages that tell of a container, in order, and `ids` these containers. */
  ghost predicate RunningAt(messages: seq<Message>, at: seq<nat>, ids: seq<string>) {
    && |at| == |ids|
    && (forall i, j :: 0 <= i < j < |at| ==> at[i] < at[j])
    && (forall i :: 0 <= i < |at| ==> at[i] < |messages| && messages[at[i]].running == Some(ids[i]))
    && forall k: nat :: k < |messages| && messages[k].running.Some? ==> k in at
  }

  ghost predicate ImageFrom(before: Option<string>, messages: seq<Message>, image: Option<string>) {
    if exists k :: LastBuilt(messages, k) then exists k :: LastBuilt(messages, k) && image == messages[k].built
    else image == before
  }

  ghost predicate IdsFrom(before: seq<string>, messages: seq<Message>, all: seq<string>) {
    exists at, ids :: RunningAt(messages, at, ids) && all == before + ids
  }

  /** What a build that read these messages has found out, from what was known before. */
  ghost predicate FoundOut(before: Report, messages: seq<Message>, after: Report) {
    && after.exitCode == (if AnyError(messages) then 1 else before.exitCode)
    && ImageFrom(before.image, messages, after.image)
    && IdsFrom(before.intermediate, messages, after.intermediate)
  }

  lemma {:induction false} NotedMeaning(before: Report, messages: seq<Message>)
    ensures FoundOut(before, messages, AllNoted(before, messages))
    decreases |messages|
  {
    hide AnyError, ImageFrom, IdsFrom;
    if messages == [] {
      NothingNoted(before);
    } else {
      var n := |messages| - 1;
      NotedMeaning(before, messages[..n]);
      var known := AllNoted(before, messages[..n]);
      ErrorNext(messages);
      ImageNext(before.image, messages, known.image);
      IdsNext(before.intermediate, messages, known.intermediate);
    }
  }

  lemma NothingNoted(before: Report)
    ensures FoundOut(before, [], before)
  {
    assert RunningAt([], [], []) && before.intermediate + [] == before.intermediate;
  }

  lemma ErrorNext(messages: seq<Message>)
    requires messages != []
    ensures AnyError(messages) <==> AnyError(messages[..|messages| - 1]) || messages[|messages| - 1].error
  {
    var n := |messages| - 1;
    if AnyError(messages[..n]) {
      var k :| 0 <= k < n && messages[..n][k].error;
      assert messages[k].error;
    }
  }

  lemma ImageNext(before: Option<string>, messages: seq<Message>, known: Option<string>)
    requires messages != [] && ImageFrom(before, messages[..|messages| - 1], known)
    ensures var last := messages[|messages| - 1];
      ImageFrom(before, messages, if last.built.Some? then last.built else known)
  {
    var n := |messages| - 1;
    var front := messages[..n];
    if messages[n].built.Some? {
      assert LastBuilt(messages, n);
    } else {
      forall k ensures LastBuilt(messages, k) <==> LastBuilt(front, k) {
      }
    }
  }

  lemma IdsNext(before: seq<string>, messages: seq<Message>, known: seq<string>)
    requires messages != [] && IdsFrom(before, messages[..|messages| - 1], known)
    ensures var last := messages[|messages| - 1];
      IdsFrom(before, messages, known + if last.running.Some? then [last.running.value] else [])
  {
    hide RunningAt;
    var n := |messages| - 1;
    var at, ids :| RunningAt(messages[..n], at, ids) && known == before + ids;
    if messages[n].running.Some? {
      var id := messages[n].running.value;
      OneMoreRunning(messages, at, ids);
      assert known + [id] == before + (ids + [id]);
    } else {
      NoMoreRunning(messages, at, ids);
      assert known + [] == before + ids;
    }
  }

  lemma NoMoreRunning(messages: seq<Message>, at: seq<nat>, ids: seq<string>)
    requires messages != [] && messages[|messages| - 1].running.None? && RunningAt(messages[..|messages| - 1], at, ids)
    ensures RunningAt(messages, at, ids)
  {
    var n := |messages| - 1;
    assert forall k :: 0 <= k < n ==> messages[..n][k] == messages[k];
  }

  lemma OneMoreRunning(messages: seq<Message>, at: seq<nat>, ids: seq<string>)
    requires messages != [] && messages[|messages| - 1].running.Some? && RunningAt(messages[..|messages| - 1], at, ids)
    ensures RunningAt(messages, at + [|messages| - 1], ids + [messages[|messages| - 1].running.value])
  {
    var n := |messages| - 1;
    forall k: nat | k < |messages| && messages[k].running.Some? ensures k in at + [n] {
      assert k < n ==> messages[..n][k] == messages[k];
    }
  }

  /** The chunks are those of a stream of these lines and the beginning of another one. */
  ghost predicate Streams(decode: Decoder, chunks: seq<string>, lines: seq<Line>, partial: string) {
    AreLines(decode, lines) && IsPartial(decode, partial) && Joined(chunks) == Text(lines, partial)
  }

  lemma StreamRead(decode: Decoder, chunks: seq<string>, lines: seq<Line>, partial: string)
    requires Streams(decode, chunks, lines, partial)
    ensures FeedAll(decode, chunks).messages == Decoded(decode, lines)
  {
    ReassemblesAnyChunking(decode, chunks, lines, partial);
  }

  class DockerBuilder {
    var image: Option<string>
    var intermediateContainers: seq<string>

    constructor ()
      ensures image.None? && intermediateContainers == []
    {
      image, intermediateContainers := None, [];
    }

    /** Reads the stream of a build. */
    method Build(decode: Decoder, stream: seq<string>) returns (exitCode: int)
      modifies this
      ensures Report(exitCode, image, intermediateContainers) ==
        AllNoted(Report(0, old(image), old(intermediateContainers)), FeedAll(decode, stream).messages)
      ensures forall lines, partial :: AreLines(decode, lines) && Streams(decode, stream, lines, partial) ==>
        FoundOut(Report(0, old(image), old(intermediateContainers)), Decoded(decode, lines),
                 Report(exitCode, image, intermediateContainers))
    {
      hide Split, Noted, FoundOut, Streams, Decoded, AreLines;
      ghost var start := Report(0, image, intermediateContainers);
      exitCode := 0;
      ghost var messages: seq<Message> := [];
      var buffer := "";
      var i := 0;
      while i < |stream|
        invariant 0 <= i <= |stream|
        invariant Reader(buffer, messages) == FeedAll(decode, stream[..i])
        invariant Report(exitCode, image, intermediateContainers) == AllNoted(start, messages)
      {
        assert stream[..i + 1][..i] == stream[..i];
        var pieces := Split(stream[i]);
        var j := 0;
        while j < |pieces|
          invariant 0 <= j <= |pieces|
          invariant Reader(buffer, messages) == FeedPieces(decode, FeedAll(decode, stream[..i]), pieces[..j])
          invariant Report(exitCode, image, intermediateContainers) == AllNoted(start, messages)
        {
          assert pieces[..j + 1][..j] == pieces[..j];
          if pieces[j] != "" {
            buffer := buffer + pieces[j];
            var parsed := decode(buffer);
            if parsed.Some? {
              buffer := "";
              assert (messages + [parsed.value])[..|messages|] == messages;
              messages := messages + [parsed.value];
              exitCode := Note(exitCode, parsed.value);
            }
          }
          j := j + 1;
        }
        assert pieces[..j] == pieces;
        i := i + 1;
      }
      assert stream[..i] == stream;
      forall lines, partial | AreLines(decode, lines) && Streams(decode, stream, lines, partial)
        ensures FoundOut(start, Decoded(decode, lines), Report(exitCode, image, intermediateContainers))
      {
        StreamRead(decode, stream, lines, partial);
        NotedMeaning(start, messages);
      }
    }

    method Note(code: int, m: Message) returns (exitCode: int)
      modifies this
      ensures Report(exitCode, image, intermediateContainers) ==
        Noted(Report(code, old(image), old(intermediateContainers)), m)
    {
      if m.running.Some? {
        intermediateContainers := intermediateContainers + [m.running.value];
      }
      if m.built.Some? {
        image := m.built;
      }
      exitCode := if m.error then 1 else code;
    }
  }

  /** The outcome of a build does not depend on how its stream is cut. */
  lemma ReportIgnoresChunking(decode: Decoder, a: seq<string>, b: seq<string>, lines: seq<Line>, partial: string,
                              start: Report)
    requires AreLines(decode, lines) && IsPartial(decode, partial)
    requires Joined(a) == Text(lines, partial) && Joined(b) == Text(lines, partial)
    ensures AllNoted(start, FeedAll(decode, a).messages) == AllNoted(start, FeedAll(decode, b).messages)
    ensures AllNoted(start, FeedAll(decode, a).messages) == AllNoted(start, Decoded(decode, lines))
  {
    ReassemblesAnyChunking(decode, a, lines, partial);
    ReassemblesAnyChunking(decode, b, lines, partial);
  }
}
