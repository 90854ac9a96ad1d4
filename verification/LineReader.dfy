/** Reading a client's output line by line (`session.rs`): however the bytes arrive, and at most
    64 KiB of a line kept. */
module LineReader {
  import opened Wrappers

  const MAX_LINE_BYTES: nat := 64 * 1024

  /** A byte; only equality of bytes matters. */
  type Byte = int

  const LF: Byte := 10
  const CR: Byte := 13

  // --- Lines of a stream -------------------------------------------------------------------------

  /** Where the first line feed at or after `from` stands, or the end. */
  function End(s: seq<Byte>, from: nat): (e: nat)
    requires from <= |s|
    ensures from <= e <= |s|
    decreases |s| - from
  {
    if from == |s| || s[from] == LF then from else End(s, from + 1)
  }

  predicate Plain(line: seq<Byte>) { forall k :: 0 <= k < |line| ==> line[k] != LF }

  lemma {:induction false} EndFacts(s: seq<Byte>, from: nat)
    requires from <= |s|
    ensures forall k :: from <= k < End(s, from) ==> s[k] != LF
    ensures End(s, from) < |s| ==> s[End(s, from)] == LF
    decreases |s| - from
  {
    if from < |s| && s[from] != LF { EndFacts(s, from + 1); }
  }

  /** That place is the only one of its kind. */
  lemma EndIs(s: seq<Byte>, e: nat)
    requires e <= |s| && (forall k :: 0 <= k < e ==> s[k] != LF) && (e < |s| ==> s[e] == LF)
    ensures End(s, 0) == e
  {
    EndFacts(s, 0);
  }

  /** What stands before the first line feed. */
  function Head(s: seq<Byte>): seq<Byte> { s[..End(s, 0)] }

  predicate Ended(s: seq<Byte>) { End(s, 0) < |s| }

  /** What stands after it. */
  function Tail(s: seq<Byte>): seq<Byte> {
    if Ended(s) then s[End(s, 0) + 1..] else []
  }

  function Capped(line: seq<Byte>): seq<Byte> {
    if |line| > MAX_LINE_BYTES then line[..MAX_LINE_BYTES] else line
  }

  /** A line as it is kept: cut, then without one carriage return at its end. */
  function Shown(line: seq<Byte>): seq<Byte> {
    var cut := Capped(line);
    if cut != [] && cut[|cut| - 1] == CR then cut[..|cut| - 1] else cut
  }

  /** The lines of a stream; one that breaks off loses its last line unless that was ended. */
  function Lines(s: seq<Byte>, broken: bool): seq<seq<Byte>>
    decreases |s|
  {
    if s == [] || (broken && !Ended(s)) then [] else [Shown(Head(s))] + Lines(Tail(s), broken)
  }

  // --- What is written line by line is read so -----------------------------------------------------

  function LineEnding(crlf: bool): seq<Byte> { if crlf then [CR, LF] else [LF] }

  function Written(lines: seq<seq<Byte>>, crlf: bool): seq<Byte> {
    if lines == [] then [] else lines[0] + LineEnding(crlf) + Written(lines[1..], crlf)
  }

  /** A line that is kept whole: it fits, and neither holds a line feed nor ends in a carriage return. */
  predicate Ordinary(line: seq<Byte>) {
    Plain(line) && |line| < MAX_LINE_BYTES && (line != [] ==> line[|line| - 1] != CR)
  }

  lemma FirstWritten(line: seq<Byte>, crlf: bool, rest: seq<Byte>)
    requires Ordinary(line)
    ensures var s := line + LineEnding(crlf) + rest;
      Ended(s) && Shown(Head(s)) == line && Tail(s) == rest
  {
    var s, e := line + LineEnding(crlf) + rest, |line| + |LineEnding(crlf)| - 1;
    assert s[e] == LF;
    forall k | 0 <= k < e ensures s[k] != LF {
      if k < |line| { assert s[k] == line[k]; } else { assert s[k] == CR; }
    }
    EndIs(s, e);
    assert s[e + 1..] == rest;
    assert s[..e] == if crlf then line + [CR] else line;
  }

  lemma FirstLine(s: seq<Byte>, broken: bool, line: seq<Byte>, rest: seq<Byte>)
    requires Ended(s) && Shown(Head(s)) == line && Tail(s) == rest
    ensures Lines(s, broken) == [line] + Lines(rest, broken)
  {
  }

  /** Main theorem: lines that are written, with either ending, are read as they were. */
  lemma {:induction false} LinesReadBack(lines: seq<seq<Byte>>, crlf: bool, broken: bool)
    requires forall i :: 0 <= i < |lines| ==> Ordinary(lines[i])
    ensures Lines(Written(lines, crlf), broken) == lines
  {
    if lines != [] {
      FirstWritten(lines[0], crlf, Written(lines[1..], crlf));
      LinesReadBack(lines[1..], crlf, broken);
      FirstLine(Written(lines, crlf), broken, lines[0], Written(lines[1..], crlf));
      assert lines == [lines[0]] + lines[1..];
    }
  }

  /** Of a longer line the first 64 KiB are kept. */
  lemma LongLineCut(line: seq<Byte>, rest: seq<Byte>)
    requires Plain(line) && |line| > MAX_LINE_BYTES && line[MAX_LINE_BYTES - 1] != CR
    ensures var s := line + [LF] + rest;
      Ended(s) && Shown(Head(s)) == line[..MAX_LINE_BYTES] && Tail(s) == rest
  {
    var s := line + [LF] + rest;
    assert s[|line|] == LF;
    forall k | 0 <= k < |line| ensures s[k] != LF { assert s[k] == line[k]; }
    EndIs(s, |line|);
    assert s[|line| + 1..] == rest && s[..|line|] == line;
  }

  // --- Lines are what stands between line feeds ----------------------------------------------------

  function Joined(pieces: seq<seq<Byte>>): seq<Byte>
    requires pieces != []
  {
    if |pieces| == 1 then pieces[0] else pieces[0] + [LF] + Joined(pieces[1..])
  }

  ghost predicate NoLineFeeds(pieces: seq<seq<Byte>>) {
    forall i :: 0 <= i < |pieces| ==> Plain(pieces[i])
  }

  function AllShown(pieces: seq<seq<Byte>>): seq<seq<Byte>> {
    if pieces == [] then [] else [Shown(pieces[0])] + AllShown(pieces[1..])
  }

  lemma HeadOf(line: seq<Byte>, rest: seq<Byte>)
    requires Plain(line) && (rest == [] || rest[0] == LF)
    ensures End(line + rest, 0) == |line| && Head(line + rest) == line
  {
    EndIs(line + rest, |line|);
  }

  lemma OnlyPiece(piece: seq<Byte>)
    requires Plain(piece)
    ensures Head(piece) == piece && !Ended(piece) && Tail(piece) == []
  {
    HeadOf(piece, []);
    assert piece + [] == piece;
  }

  lemma FirstPiece(piece: seq<Byte>, rest: seq<Byte>)
    requires Plain(piece)
    ensures var s := piece + [LF] + rest; s != [] && Head(s) == piece && Ended(s) && Tail(s) == rest
  {
    var s := piece + [LF] + rest;
    assert s == piece + ([LF] + rest);
    HeadOf(piece, [LF] + rest);
  }

  lemma AllShownFirst(piece: seq<Byte>, rest: seq<seq<Byte>>)
    ensures AllShown([piece] + rest) == [Shown(piece)] + AllShown(rest)
  {
    assert ([piece] + rest)[1..] == rest;
  }

  /** The pieces that are lines. */
  function Whole(pieces: seq<seq<Byte>>, broken: bool): seq<seq<Byte>>
    requires pieces != []
  {
    if broken || pieces[|pieces| - 1] == [] then pieces[..|pieces| - 1] else pieces
  }

  lemma WholeFirst(piece: seq<Byte>, rest: seq<seq<Byte>>, broken: bool)
    requires rest != []
    ensures Whole([piece] + rest, broken) == [piece] + Whole(rest, broken)
  {
  }

  lemma JoinedFirst(piece: seq<Byte>, rest: seq<seq<Byte>>)
    requires rest != []
    ensures Joined([piece] + rest) == piece + [LF] + Joined(rest)
  {
    assert ([piece] + rest)[1..] == rest;
  }

  lemma LinesOfFirst(piece: seq<Byte>, rest: seq<Byte>, broken: bool)
    requires Plain(piece)
    ensures Lines(piece + [LF] + rest, broken) == [Shown(piece)] + Lines(rest, broken)
  {
    FirstPiece(piece, rest);
  }

  /** Main theorem: the lines of a stream are the pieces between its line feeds, without the last
      piece if that is empty or the stream broke off. */
  lemma {:induction false} LinesArePieces(pieces: seq<seq<Byte>>, broken: bool)
    requires pieces != [] && NoLineFeeds(pieces)
    ensures Lines(Joined(pieces), broken) == AllShown(Whole(pieces, broken))
    decreases |pieces|
  {
    if |pieces| == 1 {
      OnlyPiece(pieces[0]);
      if !(broken || pieces[0] == []) { AllShownFirst(pieces[0], []); assert pieces == [pieces[0]] + []; }
    } else {
      var piece, rest := pieces[0], pieces[1..];
      assert pieces == [piece] + rest;
      JoinedFirst(piece, rest);
      LinesOfFirst(piece, Joined(rest), broken);
      LinesArePieces(rest, broken);
      WholeFirst(piece, rest, broken);
      AllShownFirst(piece, Whole(rest, broken));
    }
  }

  lemma AtFirstFeed(s: seq<Byte>)
    ensures Plain(Head(s))
    ensures if Ended(s) then s == Head(s) + [LF] + Tail(s) else s == Head(s)
  {
    EndFacts(s, 0);
  }

  /** Every stream falls into such pieces. */
  lemma {:induction false} PiecesOf(s: seq<Byte>) returns (pieces: seq<seq<Byte>>)
    ensures pieces != [] && NoLineFeeds(pieces) && Joined(pieces) == s
    decreases |s|
  {
    AtFirstFeed(s);
    if Ended(s) {
      var rest := PiecesOf(Tail(s));
      JoinedFirst(Head(s), rest);
      pieces := [Head(s)] + rest;
    } else {
      pieces := [s];
    }
  }

  // --- Reading -----------------------------------------------------------------------------------

  function Flat(chunks: seq<seq<Byte>>): seq<Byte> {
    if chunks == [] then [] else chunks[0] + Flat(chunks[1..])
  }

  /** A buffered reader of a stream that arrives in chunks, and may break off instead of ending. */
  class BufReader {
    var buffer: seq<Byte>
    var chunks: seq<seq<Byte>>
    const broken: bool

    ghost predicate Valid()
      reads this
    {
      forall i :: 0 <= i < |chunks| ==> chunks[i] != []
    }

    /** What is still to be read. */
    ghost function Rest(): seq<Byte>
      reads this
    {
      buffer + Flat(chunks)
    }

    constructor (chunks: seq<seq<Byte>>, broken: bool)
      requires forall i :: 0 <= i < |chunks| ==> chunks[i] != []
      ensures Valid() && Rest() == Flat(chunks) && this.broken == broken
    {
      this.buffer := [];
      this.chunks := chunks;
      this.broken := broken;
    }

    /** `fill_buf`: what is buffered, or the next chunk; nothing at the end. */
    method FillBuf() returns (found: Result<seq<Byte>>)
      requires Valid()
      modifies this
      ensures Valid() && Rest() == old(Rest())
      ensures found.Success? ==> found.value == buffer && (buffer == [] <==> Rest() == [])
      ensures found.Failure? <==> broken && Rest() == []
    {
      if buffer == [] && chunks != [] {
        buffer, chunks := chunks[0], chunks[1..];
      }
      if buffer == [] && broken {
        return Failure;
      }
      return Success(buffer);
    }

    method Consume(used: nat)
      requires Valid() && used <= |buffer|
      modifies this
      ensures Valid() && Rest() == old(Rest())[used..]
    {
      buffer := buffer[used..];
    }
  }

  /** The first line feed of a buffer. */
  method Position(buffer: seq<Byte>) returns (at: Option<nat>)
    ensures at == if Ended(buffer) then Some(End(buffer, 0)) else None
  {
    var i := 0;
    while i < |buffer|
      invariant 0 <= i <= |buffer| && forall k :: 0 <= k < i ==> buffer[k] != LF
    {
      if buffer[i] == LF {
        EndIs(buffer, i);
        return Some(i);
      }
      i := i + 1;
    }
    EndIs(buffer, i);
    return None;
  }

  /** Bytes of a line read so far, and more of it. */
  lemma CappedMore(line: seq<Byte>, chunk: seq<Byte>)
    ensures var room := if |Capped(line)| < MAX_LINE_BYTES then MAX_LINE_BYTES - |Capped(line)| else 0;
      Capped(line + chunk) == Capped(line) + chunk[..if |chunk| < room then |chunk| else room]
  {
  }

  lemma HeadMore(line: seq<Byte>, rest: seq<Byte>)
    requires Plain(line)
    ensures End(line + rest, 0) == |line| + End(rest, 0)
  {
    EndFacts(rest, 0);
    EndIs(line + rest, |line| + End(rest, 0));
  }

  /** One buffer of `read_line_capped`: the bytes of the line in it, cut to what still fits. */
  method TakeLine(line: seq<Byte>, buffer: seq<Byte>, ghost seen: seq<Byte>)
      returns (more: seq<Byte>, used: nat, done: bool)
    requires line == Capped(seen)
    ensures done <==> Ended(buffer)
    ensures used == if done then End(buffer, 0) + 1 else |buffer|
    ensures more == Capped(seen + Head(buffer))
  {
    var pos := Position(buffer);
    var chunk := buffer;
    used, done := |buffer|, false;
    if pos.Some? {
      chunk, used, done := buffer[..pos.value], pos.value + 1, true;
    }
    assert chunk == Head(buffer);
    var room := if |line| < MAX_LINE_BYTES then MAX_LINE_BYTES - |line| else 0;
    CappedMore(seen, chunk);
    more := line + chunk[..if |chunk| < room then |chunk| else room];
  }

  /** Part of the first line is read. */
  ghost predicate Midway(all: seq<Byte>, seen: seq<Byte>, rest: seq<Byte>, any: bool) {
    Plain(seen) && all == seen + rest && (any <==> seen != [])
  }

  /** All of it is, with its line feed. */
  ghost predicate Finished(all: seq<Byte>, seen: seq<Byte>, rest: seq<Byte>) {
    Ended(all) && seen == Head(all) && rest == Tail(all)
  }

  /** The line ends in this buffer. */
  lemma LineEndsHere(all: seq<Byte>, seen: seq<Byte>, buffer: seq<Byte>, rest: seq<Byte>, any: bool)
    requires Midway(all, seen, rest, any) && buffer <= rest && Ended(buffer)
    ensures Finished(all, seen + Head(buffer), rest[End(buffer, 0) + 1..])
  {
    EndFacts(buffer, 0);
    EndIs(rest, End(buffer, 0));
    HeadMore(seen, rest);
    assert Head(all) == seen + Head(buffer);
    assert Tail(all) == rest[End(buffer, 0) + 1..];
  }

  /** Or all of the buffer belongs to it. */
  lemma LineGoesOn(all: seq<Byte>, seen: seq<Byte>, buffer: seq<Byte>, rest: seq<Byte>, any: bool)
    requires Midway(all, seen, rest, any) && buffer <= rest && buffer != [] && !Ended(buffer)
    ensures Midway(all, seen + Head(buffer), rest[|buffer|..], true)
  {
    EndFacts(buffer, 0);
    assert Head(buffer) == buffer;
    assert all == seen + buffer + rest[|buffer|..];
  }

  lemma StreamEnds(all: seq<Byte>, seen: seq<Byte>, any: bool)
    requires Midway(all, seen, [], any)
    ensures !Ended(all) && seen == Head(all) && Tail(all) == [] && (any <==> all != [])
  {
    HeadMore(seen, []);
    assert all == seen;
  }

  /** `read_line_capped`. */
  method ReadLineCapped(reader: BufReader) returns (read: Result<bool>, line: seq<Byte>)
    requires reader.Valid()
    modifies reader
    ensures reader.Valid() && reader.Rest() == Tail(old(reader.Rest()))
    ensures read == if reader.broken && !Ended(old(reader.Rest())) then Failure
      else Success(old(reader.Rest()) != [])
    ensures read.Success? ==> line == Shown(Head(old(reader.Rest())))
  {
    ghost var all := reader.Rest();
    ghost var seen: seq<Byte>, rest := [], all;
    line := [];
    var readAny, done := false, false;
    while !done
      invariant reader.Valid() && reader.Rest() == rest && line == Capped(seen)
      invariant if done then Finished(all, seen, rest) && readAny else Midway(all, seen, rest, readAny)
      decreases !done, |rest|
    {
      var filled := reader.FillBuf();
      if rest == [] { StreamEnds(all, seen, readAny); }
      if filled.Failure? {
        return Failure, line;
      }
      var buffer := filled.value;
      if buffer == [] {
        break;
      }
      if Ended(buffer) {
        LineEndsHere(all, seen, buffer, rest, readAny);
      } else {
        LineGoesOn(all, seen, buffer, rest, readAny);
      }
      var used: nat;
      line, used, done := TakeLine(line, buffer, seen);
      readAny := true;
      reader.Consume(used);
      seen, rest := seen + Head(buffer), rest[used..];
    }
    line := WithoutReturn(line);
    read := Success(readAny);
  }

  method WithoutReturn(cut: seq<Byte>) returns (line: seq<Byte>)
    ensures line == if cut != [] && cut[|cut| - 1] == CR then cut[..|cut| - 1] else cut
  {
    line := cut;
    if line != [] && line[|line| - 1] == CR {
      line := line[..|line| - 1];
    }
  }

  lemma LinesNext(lines: seq<seq<Byte>>, s: seq<Byte>, broken: bool)
    ensures s == [] || (broken && !Ended(s)) ==> lines + Lines(s, broken) == lines
    ensures !(s == [] || (broken && !Ended(s))) ==>
      lines + Lines(s, broken) == lines + [Shown(Head(s))] + Lines(Tail(s), broken) && |Tail(s)| < |s|
  {
  }

  const BOM: char := '\U{FEFF}'

  /** The decoded lines; the first without a byte order mark in front. */
  ghost predicate Decoded(texts: seq<string>, lines: seq<seq<Byte>>, decode: seq<Byte> -> string) {
    && |texts| == |lines|
    && (forall i :: 0 < i < |lines| ==> texts[i] == decode(lines[i]))
    && (lines != [] ==>
          (decode(lines[0]) == texts[0] && !([BOM] <= texts[0])) || decode(lines[0]) == [BOM] + texts[0])
  }

  lemma OneMoreDecoded(texts: seq<string>, lines: seq<seq<Byte>>, decode: seq<Byte> -> string, text: string,
      line: seq<Byte>)
    requires Decoded(texts, lines, decode)
    requires lines == [] ==>
      (decode(line) == text && !([BOM] <= text)) || decode(line) == [BOM] + text
    requires lines != [] ==> decode(line) == text
    ensures Decoded(texts + [text], lines + [line], decode)
  {
  }

  /** The text sent for a line. */
  method ToText(line: seq<Byte>, first: bool, decode: seq<Byte> -> string) returns (text: string)
    ensures first ==> (decode(line) == text && !([BOM] <= text)) || decode(line) == [BOM] + text
    ensures !first ==> decode(line) == text
  {
    text := decode(line);
    if first && [BOM] <= text {
      text := text[1..];
    }
  }

  /** `read_lines`: the lines sent are the stream's, decoded, however it was cut into chunks. */
  method ReadLines(reader: BufReader, decode: seq<Byte> -> string) returns (texts: seq<string>)
    requires reader.Valid()
    modifies reader
    ensures Decoded(texts, Lines(old(reader.Rest()), reader.broken), decode)
  {
    ghost var rest := reader.Rest();
    ghost var all, lines: seq<seq<Byte>> := Lines(rest, reader.broken), [];
    texts := [];
    var first, going := true, true;
    while going
      invariant reader.Valid() && rest == reader.Rest()
      invariant Decoded(texts, lines, decode) && (first <==> lines == [])
      invariant all == if going then lines + Lines(rest, reader.broken) else lines
      decreases going, |rest|
    {
      LinesNext(lines, rest, reader.broken);
      var read, line := ReadLineCapped(reader);
      going := read == Success(true);
      if going {
        var text := ToText(line, first, decode);
        OneMoreDecoded(texts, lines, decode, text, line);
        texts, first := texts + [text], false;
        lines := lines + [line];
      }
      rest := Tail(rest);
    }
  }
}
