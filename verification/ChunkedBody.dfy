/**
 HTTP/1.1 chunked bodies (retinue/container.py; section 7.1 of RFC 9112): the reading loop over a stream reader,
 proved against a recursive reading of the text that inverts the chunked coding. Bytes are characters below 256.
 */
module ChunkedBody {
  import opened PyInt
  import opened Text
  import opened Wrappers

  /** The asyncio stream reader over a response that has arrived whole. */
  class StreamReader {
    const data: string
    var pos: nat

    ghost predicate Valid()
      reads this
    {
      pos <= |data|
    }

    ghost function Rest(): string
      reads this
      requires Valid()
    {
      data[pos..]
    }

    constructor (data: string)
      ensures this.data == data && pos == 0 && Valid()
    {
      this.data, pos := data, 0;
    }

    /** Up to and including the next line feed, or whatever is left. */
    method ReadLine() returns (line: string)
      requires Valid()
      modifies this
      ensures Valid() && line == old(Rest())[..LineLength(old(Rest()))] && pos == old(pos) + |line|
    {
      line := [];
      ghost var rest := Rest();
      var done := false;
      while !done && pos < |data|
        invariant Valid() && pos == old(pos) + |line| && line == rest[..|line|]
        invariant LineLength(rest) == if done then |line| else |line| + LineLength(rest[|line|..])
        decreases |data| - pos, !done
      {
        var c := data[pos];
        assert rest[|line|] == c && rest[|line|..][1..] == rest[|line| + 1..];
        line := line + [c];
        pos := pos + 1;
        done := c == '\n';
      }
      assert !done ==> rest[|line|..] == [];
      assert |line| == LineLength(rest);
    }

    /** Exactly `n` bytes; fewer left, or a negative count, raises. */
    method ReadExactly(n: int) returns (r: Result<string>)
      requires Valid()
      modifies this
      ensures Valid()
      ensures 0 <= n <= |old(Rest())| ==> r == Ok(old(Rest())[..n]) && pos == old(pos) + n
      ensures n < 0 ==> r.Raised? && pos == old(pos)
      ensures n > |old(Rest())| ==> r.Raised? && pos == |data|
    {
      if n < 0 { return Raised; }
      if n > |data| - pos {
        pos := |data|;
        return Raised;
      }
      assert data[pos..][..n] == data[pos..pos + n];
      r := Ok(data[pos..pos + n]);
      pos := pos + n;
    }
  }

  function LineLength(s: string): (n: nat)
    ensures n <= |s|
  {
    if s == [] then 0 else if s[0] == '\n' then 1 else 1 + LineLength(s[1..])
  }

  /** `split(b";", 1)[0]`. */
  function BeforeSemicolon(s: string): string {
    if s == [] || s[0] == ';' then [] else [s[0]] + BeforeSemicolon(s[1..])
  }

  /** The size on a chunk's first line; an empty line reads as 0. */
  function ChunkSize(line: string): Option<int> {
    var text := BeforeSemicolon(Strip(line, Bytes));
    ParseInt(if text == [] then "0" else text, 16, Bytes)
  }

  /** The body read, or an exception, and how many bytes were consumed. */
  datatype Reading = Reading(body: Result<string>, used: nat)

  /** Data read, then what reading on gives. */
  function Joined(data: string, used: nat, more: Reading): Reading {
    Reading(if more.body.Ok? then Ok(data + more.body.value) else Raised, used + more.used)
  }

  /** Where the line beginning at `k` ends. */
  function After(s: string, k: nat): (m: nat)
    requires k <= |s|
    ensures k <= m <= |s|
  {
    k + LineLength(s[k..])
  }

  /** What one chunk's worth of reading gives, and how many bytes it uses. */
  datatype Round = Chunk(data: string, used: nat) | Last(used: nat) | Stopped(used: nat)

  /** `sizeOf` reads a chunk's first line. */
  function RoundOf(s: string, sizeOf: string -> Option<int>): (r: Round)
    ensures r.used <= |s| && (r.Chunk? ==> 0 < r.used)
  {
    var n := LineLength(s);
    var size, tail := sizeOf(s[..n]), s[n..];
    if size.None? || size.value < 0 then Stopped(n)
    else if size.value == 0 then Last(n + LineLength(tail))
    else if size.value > |tail| then Stopped(|s|)
    else Chunk(tail[..size.value], n + After(tail, size.value))
  }

  /** What reading a whole chunked body from `s` gives. */
  function Dechunk(s: string, sizeOf: string -> Option<int>): Reading
    decreases |s|
  {
    var r := RoundOf(s, sizeOf);
    match r
    case Stopped(used) => Reading(Raised, used)
    case Last(used) => Reading(Ok([]), used)
    case Chunk(data, used) => Joined(data, used, Dechunk(s[used..], sizeOf))
  }

  lemma {:induction false} JoinedTwice(a: string, n: nat, b: string, m: nat, more: Reading)
    ensures Joined(a, n, Joined(b, m, more)) == Joined(a + b, n + m, more)
  {
    if more.body.Ok? { assert a + (b + more.body.value) == a + b + more.body.value; }
  }

  lemma {:induction false} JoinedNothing(more: Reading)
    ensures Joined([], 0, more) == more
  {
    if more.body.Ok? { assert [] + more.body.value == more.body.value; }
  }

  lemma {:induction false} JoinedLast(a: string, n: nat, m: nat)
    ensures Joined(a, n, Reading(Ok([]), m)) == Reading(Ok(a), n + m)
  {
    assert a + [] == a;
  }

  lemma RestOfRest(data: string, pos: nat, n: nat)
    requires pos + n <= |data|
    ensures data[pos..][n..] == data[pos + n..]
  {
  }

  method ReadRound(reader: StreamReader, sizeOf: string -> Option<int>) returns (r: Round)
    requires reader.Valid()
    modifies reader
    ensures reader.Valid() && r == RoundOf(old(reader.Rest()), sizeOf) && reader.pos == old(reader.pos) + r.used
  {
    var start := reader.pos;
    ghost var rest := reader.Rest();
    var line := reader.ReadLine();
    var size := sizeOf(line);
    RestOfRest(reader.data, start, |line|);
    if size.None? { return Stopped(reader.pos - start); }
    if size.value == 0 {
      var _ := reader.ReadLine();
      return Last(reader.pos - start);
    }
    var data := ReadData(reader, size.value);
    r := if data.Raised? then Stopped(reader.pos - start) else Chunk(data.value, reader.pos - start);
  }

  /** A chunk's data and the line that ends it. */
  method ReadData(reader: StreamReader, size: int) returns (r: Result<string>)
    requires reader.Valid()
    modifies reader
    ensures reader.Valid()
    ensures var rest := old(reader.Rest());
      if size < 0 then r.Raised? && reader.pos == old(reader.pos)
      else if size > |rest| then r.Raised? && reader.pos == |reader.data|
      else r == Ok(rest[..size]) && reader.pos == old(reader.pos) + After(rest, size)
  {
    ghost var start := reader.pos;
    r := reader.ReadExactly(size);
    if r.Raised? { return; }
    RestOfRest(reader.data, start, size);
    var _ := reader.ReadLine();
  }

  /** One chunk after another until a size of 0. */
  method ReadChunks(reader: StreamReader, sizeOf: string -> Option<int>) returns (r: Result<string>)
    requires reader.Valid()
    modifies reader
    ensures reader.Valid() && old(reader.pos) <= reader.pos
    ensures Reading(r, reader.pos - old(reader.pos)) == Dechunk(old(reader.Rest()), sizeOf)
  {
    var body := [];
    ghost var start := reader.pos;
    ghost var whole := Dechunk(reader.Rest(), sizeOf);
    ghost var left := whole;
    JoinedNothing(whole);
    while true
      invariant reader.Valid() && start <= reader.pos
      invariant left == Dechunk(reader.Rest(), sizeOf) && whole == Joined(body, reader.pos - start, left)
      decreases |reader.data| - reader.pos
    {
      ghost var rest, at := reader.Rest(), reader.pos;
      var round := ReadRound(reader, sizeOf);
      match round
      case Stopped(_) => return Raised;
      case Last(used) =>
        JoinedLast(body, at - start, used);
        return Ok(body);
      case Chunk(data, used) =>
        assert rest[used..] == reader.Rest();
        left := Dechunk(rest[used..], sizeOf);
        JoinedTwice(body, at - start, data, used, left);
        body := body + data;
    }
  }

  /** `_read_chunked`. */
  method ReadChunked(reader: StreamReader) returns (r: Result<string>)
    requires reader.Valid()
    modifies reader
    ensures reader.Valid() && old(reader.pos) <= reader.pos
    ensures Reading(r, reader.pos - old(reader.pos)) == Dechunk(old(reader.Rest()), ChunkSize)
  {
    r := ReadChunks(reader, ChunkSize);
  }

  // --- what a size line says, whoever wrote it ---

  lemma {:induction false} BeforeSemicolonSplits(s: string)
    ensures ';' !in BeforeSemicolon(s)
    ensures s == BeforeSemicolon(s) || exists rest :: s == BeforeSemicolon(s) + (";" + rest)
  {
    if s != [] && s[0] != ';' {
      BeforeSemicolonSplits(s[1..]);
      assert s == [s[0]] + s[1..];
      if rest :| s[1..] == BeforeSemicolon(s[1..]) + (";" + rest) {
        assert s == BeforeSemicolon(s) + (";" + rest);
      }
    } else if s != [] {
      assert s == [] + (";" + s[1..]);
    }
  }

  /** The part of a stripped line in front of its first semicolon. */
  ghost predicate InFront(line: string, text: string) {
    && ';' !in text
    && exists lead, body, trail ::
         && line == lead + body + trail && Blank(lead, Bytes) && Blank(trail, Bytes)
         && (body == [] || (!IsSpace(body[0], Bytes) && !IsSpace(body[|body| - 1], Bytes)))
         && (body == text || exists rest :: body == text + (";" + rest))
  }

  /** Whatever the line, its size is the integer in front of the first semicolon, 0 for nothing there, else an error. */
  lemma ChunkSizeExactly(line: string, n: int)
    ensures InFront(line, BeforeSemicolon(Strip(line, Bytes)))
    ensures ChunkSize(line) == Some(n)
       <==> var text := BeforeSemicolon(Strip(line, Bytes)); if text == [] then n == 0 else IntText(text, n, 16, Bytes)
  {
    var body, text := Strip(line, Bytes), BeforeSemicolon(Strip(line, Bytes));
    var lead, trail := StripSplits(line, Bytes);
    StripEnds(line, Bytes);
    BeforeSemicolonSplits(body);
    ParseIntExactly(if text == [] then "0" else text, n, 16, Bytes);
    ZeroIsZero(n);
  }

  lemma ZeroIsZero(n: int)
    ensures ParseInt("0", 16, Bytes) == Some(n) <==> n == 0
  {
    SpelledIsValue("0", 0) by { assert "0"[..0] == []; }
    assert "0" + [] == "0";
    ParsePlain("0", [], 16, Bytes);
  }

  // --- the coding, as a sender may write it ---

  /** Optional white space, a semicolon and anything up to the end of the line (section 7.1.1). */
  datatype Extension = NoExt | Ext(space: string, text: string)

  /** A chunk: its data and its size line's hexadecimal digits, in any case, with any leading zeros. */
  datatype SentChunk = SentChunk(data: string, size: string, ext: Extension)

  predicate NoLineFeed(s: string) {
    forall i | 0 <= i < |s| :: s[i] != '\n'
  }

  predicate ValidExt(ext: Extension) {
    ext.Ext? ==> Blank(ext.space, Bytes) && NoLineFeed(ext.space) && NoLineFeed(ext.text)
  }

  const LOWER: string := "0123456789abcdef"
  const UPPER: string := "0123456789ABCDEF"

  /** `size` ends in the digit of `n`'s last place, in either case, and spells the rest in front of it. */
  predicate Spells(size: string, n: nat) {
    if size == [] then n == 0
    else size[|size| - 1] in {LOWER[n % 16], UPPER[n % 16]} && Spells(size[..|size| - 1], n / 16)
  }

  /** A hexadecimal text of `n`: any case, any leading zeros. */
  predicate HexFor(size: string, n: nat) {
    size != [] && Spells(size, n)
  }

  /** The shortest one in lower case, as a sender prints it. */
  function Hex(n: nat): (size: string)
    ensures HexFor(size, n)
  {
    if n < 16 then
      var none: string := [];
      assert [LOWER[n]][..0] == none;
      [LOWER[n]]
    else
      var front := Hex(n / 16);
      assert (front + [LOWER[n % 16]])[..|front|] == front;
      front + [LOWER[n % 16]]
  }

  /** A zero in front spells the same number. */
  lemma {:induction false} LeadingZero(size: string, n: nat)
    requires Spells(size, n)
    ensures HexFor("0" + size, n)
  {
    var longer := "0" + size;
    if size == [] {
      assert longer == "0" && longer[..0] == [];
    } else {
      assert longer[..|longer| - 1] == "0" + size[..|size| - 1];
      LeadingZero(size[..|size| - 1], n / 16);
    }
  }

  /** What is spelled is what the digits are worth to the reader. */
  lemma {:induction false} SpelledIsValue(size: string, n: nat)
    requires Spells(size, n)
    ensures AllIn(size, 16) && Value(size, 16) == n
  {
    if size != [] {
      var front, last := size[..|size| - 1], size[|size| - 1];
      SpelledIsValue(front, n / 16);
      DigitsAreLiteral(last, n % 16);
      assert front + [last] == size;
      ValueSnoc(front, last, 16);
    }
  }

  predicate Sendable(c: SentChunk) {
    c.data != [] && HexFor(c.size, |c.data|) && ValidExt(c.ext)
  }

  function ExtText(ext: Extension): string {
    match ext
    case NoExt => []
    case Ext(space, text) => space + (";" + text)
  }

  function SizeLine(size: string, ext: Extension): string {
    size + ExtText(ext) + CRLF
  }

  const CRLF: string := "\r\n"

  function EncodeChunk(c: SentChunk): string {
    SizeLine(c.size, c.ext) + c.data + CRLF
  }

  function EncodeChunks(cs: seq<SentChunk>): string {
    if cs == [] then [] else EncodeChunk(cs[0]) + EncodeChunks(cs[1..])
  }

  function DataOf(cs: seq<SentChunk>): string {
    if cs == [] then [] else cs[0].data + DataOf(cs[1..])
  }

  lemma {:induction false} LineEndsAtFeed(text: string, rest: string)
    requires NoLineFeed(text)
    ensures LineLength(text + "\n" + rest) == |text| + 1
  {
    var s := text + "\n" + rest;
    if text != [] {
      assert s[1..] == text[1..] + "\n" + rest;
      LineEndsAtFeed(text[1..], rest);
    }
  }

  lemma {:induction false} BeforeSemicolonIs(front: string, rest: string)
    requires forall i | 0 <= i < |front| :: front[i] != ';'
    ensures BeforeSemicolon(front + (";" + rest)) == front && BeforeSemicolon(front) == front
  {
    if front != [] {
      assert (front + (";" + rest))[1..] == front[1..] + (";" + rest);
      assert front == [front[0]] + front[1..];
      BeforeSemicolonIs(front[1..], rest);
    }
  }

  lemma {:induction false} StripFrontless(s: string)
    requires s != [] && !IsSpace(s[0], Bytes)
    ensures Strip(s, Bytes) == StripRight(s, Bytes)
  {
  }

  lemma HexHasNo(size: string)
    requires AllIn(size, 16)
    ensures NoSpace(size, Bytes) && NoLineFeed(size) && forall i | 0 <= i < |size| :: size[i] != ';'
  {
    forall i | 0 <= i < |size| ensures !IsSpace(size[i], Bytes) && size[i] != '\n' && size[i] != ';' {
      assert DigitIn(size[i], 16).Some?;
    }
  }

  lemma {:induction false} BareSizeReads(size: string, n: nat)
    requires HexFor(size, n)
    ensures ChunkSize(size + "\r\n") == Some(n)
  {
    SpelledIsValue(size, n);
    HexHasNo(size);
    StripTrailing(size, "\r\n", Bytes);
    BeforeSemicolonIs(size, []);
    assert size + [] == size;
    ParsePlain(size, [], 16, Bytes);
  }

  lemma {:induction false} StripKeepsFront(front: string, rest: string) returns (kept: string)
    requires front != [] && !IsSpace(front[0], Bytes)
    ensures Strip(front + (";" + rest), Bytes) == front + (";" + kept)
  {
    var line := front + ";" + rest;
    assert line == front + (";" + rest);
    StripFrontless(line);
    kept := StripRightKeeps(front + ";", rest, Bytes);
    assert front + ";" + kept == front + (";" + kept);
  }

  lemma {:induction false} ExtendedSizeReads(size: string, space: string, rest: string, n: nat)
    requires HexFor(size, n) && Blank(space, Bytes)
    ensures ChunkSize(size + space + (";" + rest)) == Some(n)
  {
    SpelledIsValue(size, n);
    HexHasNo(size);
    var kept := StripKeepsFront(size + space, rest);
    BeforeSemicolonIs(size + space, kept);
    ParsePlain(size, space, 16, Bytes);
  }

  /** The first line of a chunk reads as its size, extensions ignored. */
  lemma {:induction false} SizeLineReads(size: string, ext: Extension, n: nat)
    requires HexFor(size, n) && ValidExt(ext)
    ensures ChunkSize(SizeLine(size, ext)) == Some(n)
  {
    match ext
    case NoExt =>
      assert SizeLine(size, ext) == size + "\r\n";
      BareSizeReads(size, n);
    case Ext(space, text) =>
      assert SizeLine(size, ext) == size + space + (";" + (text + "\r\n"));
      ExtendedSizeReads(size, space, text + "\r\n", n);
  }

  lemma {:induction false} SizeLineIsALine(size: string, ext: Extension, n: nat, rest: string)
    requires HexFor(size, n) && ValidExt(ext)
    ensures LineLength(SizeLine(size, ext) + rest) == |SizeLine(size, ext)|
  {
    SpelledIsValue(size, n);
    HexHasNo(size);
    var text := size + ExtText(ext) + "\r";
    assert SizeLine(size, ext) + rest == text + "\n" + rest;
    LineEndsAtFeed(text, rest);
  }

  lemma {:induction false} RoundReads(line: string, data: string, end: string, rest: string,
      sizeOf: string -> Option<int>)
    requires LineLength(line + (data + (end + rest))) == |line| && LineLength(end + rest) == |end|
    requires sizeOf(line) == Some(|data|) && data != []
    ensures RoundOf(line + (data + (end + rest)), sizeOf) == Chunk(data, |line| + |data| + |end|)
  {
    InThree(line, data, end + rest);
  }

  lemma InThree(a: string, b: string, c: string)
    ensures (a + (b + c))[..|a|] == a && (a + (b + c))[|a|..|a| + |b|] == b && (a + (b + c))[|a| + |b|..] == c
  {
  }

  lemma {:induction false} CrlfIsALine(rest: string)
    ensures LineLength(CRLF + rest) == |CRLF|
  {
    assert CRLF + rest == "\r" + "\n" + rest;
    LineEndsAtFeed("\r", rest);
  }

  lemma Regroup(a: string, b: string, c: string, d: string)
    ensures a + b + c + d == a + (b + (c + d)) && a + b + c == a + (b + c)
  {
  }

  /** A chunk at the front is read whole, wherever line breaks fall inside its data. */
  lemma {:induction false} RoundReadsChunk(c: SentChunk, rest: string, sizeOf: string -> Option<int>)
    requires Sendable(c) && sizeOf(SizeLine(c.size, c.ext)) == Some(|c.data|)
    ensures RoundOf(EncodeChunk(c) + rest, sizeOf) == Chunk(c.data, |EncodeChunk(c)|)
  {
    var line := SizeLine(c.size, c.ext);
    SizeLineIsALine(c.size, c.ext, |c.data|, c.data + (CRLF + rest));
    CrlfIsALine(rest);
    RoundReads(line, c.data, CRLF, rest, sizeOf);
    Regroup(line, c.data, CRLF, rest);
  }

  lemma {:induction false} RoundReadsLast(size: string, ext: Extension, after: string, sizeOf: string -> Option<int>)
    requires HexFor(size, 0) && ValidExt(ext) && sizeOf(SizeLine(size, ext)) == Some(0)
    ensures RoundOf(SizeLine(size, ext) + after, sizeOf) == Last(|SizeLine(size, ext)| + LineLength(after))
  {
    var line := SizeLine(size, ext);
    SizeLineIsALine(size, ext, 0, after);
    assert (line + after)[..|line|] == line && (line + after)[|line|..] == after;
  }

  lemma {:induction false} DechunkChunk(chunk: string, more: string, data: string, sizeOf: string -> Option<int>)
    requires RoundOf(chunk + more, sizeOf) == Chunk(data, |chunk|)
    ensures Dechunk(chunk + more, sizeOf) == Joined(data, |chunk|, Dechunk(more, sizeOf))
  {
    assert (chunk + more)[|chunk|..] == more;
  }

  lemma {:induction false} DechunkChunks(cs: seq<SentChunk>, tail: string, sizeOf: string -> Option<int>)
    requires forall c | c in cs :: Sendable(c) && sizeOf(SizeLine(c.size, c.ext)) == Some(|c.data|)
    ensures Dechunk(EncodeChunks(cs) + tail, sizeOf) == Joined(DataOf(cs), |EncodeChunks(cs)|, Dechunk(tail, sizeOf))
    decreases |cs|
  {
    if cs == [] {
      assert EncodeChunks(cs) + tail == tail;
      JoinedNothing(Dechunk(tail, sizeOf));
    } else {
      var c, later := cs[0], EncodeChunks(cs[1..]);
      assert c in cs;
      DechunkChunks(cs[1..], tail, sizeOf);
      RoundReadsChunk(c, later + tail, sizeOf);
      DechunkChunk(EncodeChunk(c), later + tail, c.data, sizeOf);
      Regroup(EncodeChunk(c), later, tail, []);
      JoinedTwice(c.data, |EncodeChunk(c)|, DataOf(cs[1..]), |later|, Dechunk(tail, sizeOf));
    }
  }

  lemma {:induction false} DechunkLast(s: string, n: nat, sizeOf: string -> Option<int>)
    requires RoundOf(s, sizeOf) == Last(n)
    ensures Dechunk(s, sizeOf) == Reading(Ok([]), n)
  {
  }

  /**
   Reading inverts the chunked coding: every sequence of non-empty chunks, whatever their data holds, comes back
   concatenated, extensions ignored. The reader is left behind the one line that follows the last chunk.
   */
  lemma {:induction false} DechunkInvertsCoding(cs: seq<SentChunk>, size: string, ext: Extension, after: string)
    requires (forall c | c in cs :: Sendable(c)) && HexFor(size, 0) && ValidExt(ext)
    ensures Dechunk(EncodeChunks(cs) + (SizeLine(size, ext) + after), ChunkSize)
         == Reading(Ok(DataOf(cs)), |EncodeChunks(cs)| + (|SizeLine(size, ext)| + LineLength(after)))
  {
    var sizeOf := ChunkSize;
    var tail, used := SizeLine(size, ext) + after, |SizeLine(size, ext)| + LineLength(after);
    forall c | c in cs ensures sizeOf(SizeLine(c.size, c.ext)) == Some(|c.data|) {
      SizeLineReads(c.size, c.ext, |c.data|);
    }
    SizeLineReads(size, ext, 0);
    RoundReadsLast(size, ext, after, sizeOf);
    DechunkLast(tail, used, sizeOf);
    DechunkChunks(cs, tail, sizeOf);
    JoinedLast(DataOf(cs), |EncodeChunks(cs)|, used);
  }

  /** Without trailers that line is the final CRLF: the reader stands just past it. */
  lemma {:induction false} NoTrailersEndsExactly(cs: seq<SentChunk>, size: string, ext: Extension, rest: string)
    requires (forall c | c in cs :: Sendable(c)) && HexFor(size, 0) && ValidExt(ext)
    ensures Dechunk(EncodeChunks(cs) + (SizeLine(size, ext) + (CRLF + rest)), ChunkSize)
         == Reading(Ok(DataOf(cs)), |EncodeChunks(cs)| + (|SizeLine(size, ext)| + |CRLF|))
  {
    CrlfIsALine(rest);
    DechunkInvertsCoding(cs, size, ext, CRLF + rest);
  }
}
