/** Chunked bodies: `read_chunked_body` against `send_http_chunked_body`
    (frontend/src/http_reader.h:23-71, 83-121, 211-229) and section 7.1 of RFC 9112.

    A socket is a string of bytes and a position in it; reading past the end is a closed connection.
 */
module Chunked {
  import opened Bytes
  import opened Listing

  const LF: Byte := 10
  const CR: Byte := 13
  const SEMICOLON: Byte := 59
  const MAX_LINE: nat := 8192
  const MAX_BODY: nat := 1023 * 1024 * 1024 + 1024 * 1024
  const CHUNK: nat := 16 * 1024

  // ----- lines -----

  function NewlineFrom(b: Data, off: nat): (k: nat)
    requires off <= |b|
    ensures off <= k <= |b| && (k < |b| ==> b[k] == LF) && forall i :: off <= i < k ==> b[i] != LF
    decreases |b| - off
  {
    if off == |b| || b[off] == LF then off else NewlineFrom(b, off + 1)
  }

  function Chomp(line: Data): Data {
    if line != [] && line[|line| - 1] == CR then line[..|line| - 1] else line
  }

  datatype Line = NoLine | Line(text: Data, next: nat)

  /** A line ends at LF, a CR before it is dropped, and more than 8192 bytes before it are refused. */
  function LineAt(b: Data, off: nat): (r: Line)
    requires off <= |b|
    ensures r.Line? ==> off < r.next <= |b|
  {
    var k := NewlineFrom(b, off);
    if k == |b| || k - off > MAX_LINE then NoLine else Line(Chomp(b[off..k]), k + 1)
  }

  // ----- sizes -----

  predicate IsSpace(c: Byte) {
    c as int == 32 || 9 <= c as int <= 13
  }

  function TrimLeft(s: Data): Data {
    if s != [] && IsSpace(s[0]) then TrimLeft(s[1..]) else s
  }

  function TrimRight(s: Data): Data {
    if s != [] && IsSpace(s[|s| - 1]) then TrimRight(s[..|s| - 1]) else s
  }

  function HexValue(c: Byte): Option<nat> {
    if 48 <= c as int <= 57 then Some(c as int - 48)
    else if 97 <= c as int <= 102 then Some(c as int - 87)
    else if 65 <= c as int <= 70 then Some(c as int - 55)
    else None
  }

  /** The value of a string of hexadecimal digits. */
  function HexNumber(s: Data): Option<nat> {
    if s == [] then Some(0)
    else
      var rest, d := HexNumber(s[..|s| - 1]), HexValue(s[|s| - 1]);
      if rest.Some? && d.Some? then Some(16 * rest.value + d.value) else None
  }

  /** `http_parse_size_t` in base 16. std::stoul takes an "0x" in front of a digit; it is given no sign, and
      it must use up the text. */
  function ParseHex(raw: Data): Option<nat> {
    var s := TrimRight(TrimLeft(raw));
    var digits := if |s| > 2 && s[0] as int == 48 && (s[1] as int == 120 || s[1] as int == 88) then s[2..] else s;
    if digits == [] then None
    else
      var v := HexNumber(digits);
      if v.Some? && v.value < U64 then v else None
  }

  function BeforeSemicolon(s: Data): Data {
    if s == [] || s[0] == SEMICOLON then [] else [s[0]] + BeforeSemicolon(s[1..])
  }

  // ----- reading -----

  datatype Reading = Failed | Read(body: Data, next: nat)

  function SkipTrailers(b: Data, off: nat): (r: Option<nat>)
    requires off <= |b|
    ensures r.Some? ==> r.value <= |b|
    decreases |b| - off
  {
    match LineAt(b, off)
    case NoLine => None
    case Line(text, next) => if text == [] then Some(next) else SkipTrailers(b, next)
  }

  function ReadBody(b: Data, off: nat, body: Data): (r: Reading)
    requires off <= |b|
    ensures r.Read? ==> r.next <= |b|
    decreases |b| - off
  {
    match LineAt(b, off)
    case NoLine => Failed
    case Line(text, next) =>
      match ParseHex(BeforeSemicolon(text))
      case None => Failed
      case Some(n) =>
        if n == 0 then
          var end := SkipTrailers(b, next);
          if end.Some? then Read(body, end.value) else Failed
        else if n > MAX_BODY || |body| > MAX_BODY - n || next + n > |b| then Failed
        else
          match LineAt(b, next + n)
          case NoLine => Failed
          case Line(_, after) => ReadBody(b, after, body + b[next..next + n])
  }

  class Stream {
    const data: Data
    var pos: nat

    ghost predicate Valid()
      reads this
    {
      pos <= |data|
    }

    constructor (data: Data)
      ensures Valid() && this.data == data && pos == 0
    {
      this.data, pos := data, 0;
    }

    /** `http_read_line`, byte by byte. */
    method ReadLine() returns (ok: bool, line: Data)
      requires Valid()
      modifies this
      ensures Valid() && ok == LineAt(data, old(pos)).Line?
      ensures ok ==> line == LineAt(data, old(pos)).text && pos == LineAt(data, old(pos)).next
    {
      hide Chomp;
      ghost var from := pos;
      ok, line := false, [];
      while pos < |data|
        invariant from <= pos <= |data| && line == data[from..pos] && |line| <= MAX_LINE
        invariant NewlineFrom(data, from) == NewlineFrom(data, pos)
        invariant !ok
        decreases |data| - pos
      {
        var c := data[pos];
        pos := pos + 1;
        if c == LF {
          line := Chomp(line);
          return true, line;
        }
        line := line + [c];
        assert line == data[from..pos];
        if |line| > MAX_LINE {
          return false, line;
        }
      }
    }

    method ReadExact(n: nat) returns (ok: bool, out: Data)
      requires Valid()
      modifies this
      ensures Valid() && (ok <==> old(pos) + n <= |data|)
      ensures ok ==> out == data[old(pos)..old(pos) + n] && pos == old(pos) + n
    {
      ok, out := pos + n <= |data|, [];
      if ok {
        out := data[pos..pos + n];
        pos := pos + n;
      }
    }

    /** `read_chunked_body`. */
    method ReadChunkedBody() returns (ok: bool, body: Data)
      requires Valid()
      modifies this
      ensures Valid()
      ensures ok <==> ReadBody(data, old(pos), []).Read?
      ensures ok ==> ReadBody(data, old(pos), []) == Read(body, pos)
    {
      hide LineAt, ParseHex, BeforeSemicolon, SkipTrailers;
      body := [];
      while true
        invariant Valid() && ReadBody(data, old(pos), []) == ReadBody(data, pos, body)
        decreases |data| - pos
      {
        ghost var at := pos;
        var got, sizeLine := ReadLine();
        if !got { return false, body; }
        LineMoves(data, at);
        var size := ParseHex(BeforeSemicolon(sizeLine));
        if size == None { return false, body; }
        var n := size.value;
        if n == 0 {
          ok := ReadTrailers();
          return ok, body;
        }
        if n > MAX_BODY || |body| > MAX_BODY - n { return false, body; }
        var whole, chunk := ReadExact(n);
        if !whole { return false, body; }
        body := body + chunk;
        var ended, crlf := ReadLine();
        if !ended { return false, body; }
        LineMoves(data, at);
      }
    }

    method ReadTrailers() returns (ok: bool)
      requires Valid()
      modifies this
      ensures Valid() && ok == SkipTrailers(data, old(pos)).Some?
      ensures ok ==> SkipTrailers(data, old(pos)) == Some(pos)
    {
      hide LineAt;
      while true
        invariant Valid() && SkipTrailers(data, old(pos)) == SkipTrailers(data, pos)
        decreases |data| - pos
      {
        var got, trailer := ReadLine();
        if !got { return false; }
        if trailer == [] { return true; }
      }
    }
  }

  lemma LineMoves(b: Data, off: nat)
    requires off <= |b|
    ensures LineAt(b, off).Line? ==> off < LineAt(b, off).next <= |b|
  {
  }

  // ----- writing -----

  function HexDigit(n: nat): Byte
    requires n < 16
  {
    if n < 10 then 48 + n else 87 + n
  }

  /** `http_chunk_prefix`: std::hex. */
  function HexPrefix(n: nat): (h: Data)
    ensures h != []
  {
    if n < 16 then [HexDigit(n)] else HexPrefix(n / 16) + [HexDigit(n % 16)]
  }

  const CRLF: Data := [CR, LF]

  function Chunk(p: Data): Data {
    HexPrefix(|p|) + CRLF + p + CRLF
  }

  /** The wire form of a body cut into the given chunks. */
  function Encode(chunks: seq<Data>): Data {
    if chunks == [] then [48] + CRLF + CRLF else Chunk(chunks[0]) + Encode(chunks[1..])
  }

  /** The writer's cut: 16 KiB at a time. */
  function Pieces(body: Data): seq<Data> {
    if body == [] then []
    else
      var take := if |body| < CHUNK then |body| else CHUNK;
      [body[..take]] + Pieces(body[take..])
  }

  /** `send_http_chunked_body`. */
  method SendChunkedBody(body: Data) returns (out: Data)
    ensures out == Encode(Pieces(body))
  {
    hide HexPrefix, Encode, Pieces;
    out := [];
    var off := 0;
    assert body[0..] == body;
    while off < |body|
      invariant off <= |body| && out + Encode(Pieces(body[off..])) == Encode(Pieces(body))
      decreases |body| - off
    {
      var take := if |body| - off < CHUNK then |body| - off else CHUNK;
      PiecesStep(body[off..]);
      assert body[off..][..take] == body[off..off + take] && body[off..][take..] == body[off + take..];
      EncodeStep(Pieces(body[off..]));
      var chunk := HexPrefix(take) + CRLF;
      chunk := chunk + body[off..off + take];
      chunk := chunk + CRLF;
      assert chunk == Chunk(body[off..off + take]);
      assert Pieces(body[off..])[1..] == Pieces(body[off + take..]);
      assert (out + chunk) + Encode(Pieces(body[off + take..])) == out + (chunk + Encode(Pieces(body[off + take..])));
      out := out + chunk;
      off := off + take;
    }
    assert body[off..] == [];
    EncodeNothing();
    out := out + ([48] + CRLF + CRLF);
  }

  lemma PiecesStep(body: Data)
    requires body != []
    ensures var take := if |body| < CHUNK then |body| else CHUNK;
            Pieces(body) == [body[..take]] + Pieces(body[take..])
  {
  }

  lemma EncodeStep(chunks: seq<Data>)
    requires chunks != []
    ensures Encode(chunks) == Chunk(chunks[0]) + Encode(chunks[1..])
  {
  }

  lemma EncodeNothing()
    ensures Pieces([]) == [] && Encode([]) == [48] + CRLF + CRLF
  {
  }

  lemma {:induction false} PiecesJoin(body: Data)
    ensures Concat(Pieces(body)) == body
    ensures forall i :: 0 <= i < |Pieces(body)| ==> 1 <= |Pieces(body)[i]| <= CHUNK
  {
    if body != [] {
      var take := if |body| < CHUNK then |body| else CHUNK;
      PiecesJoin(body[take..]);
      assert Pieces(body)[1..] == Pieces(body[take..]);
      assert body == body[..take] + body[take..];
    }
  }

  // ----- the round trip -----

  lemma LineIs(b: Data, off: nat, text: Data)
    requires HasAt(b, off, text + CRLF) && LF !in text && |text| < MAX_LINE
    ensures LineAt(b, off) == Line(text, off + |text| + 2)
  {
    hide NewlineFrom;
    var k := off + |text| + 1;
    assert forall i :: off <= i < off + |text| + 2 ==> b[i] == (b[off..off + |text| + 2])[i - off];
    assert b[k] == LF && b[k - 1] == CR;
    assert forall i :: off <= i < k - 1 ==> b[i] == text[i - off];
    assert NewlineFrom(b, off) == k;
    assert b[off..k] == text + [CR];
  }

  /** The digits that a prefix is made of. */
  predicate HexDigits(s: Data) {
    forall i :: 0 <= i < |s| ==> 48 <= s[i] as int <= 57 || 97 <= s[i] as int <= 102
  }

  lemma {:induction false} HexReads(n: nat)
    ensures HexDigits(HexPrefix(n)) && HexNumber(HexPrefix(n)) == Some(n)
  {
    if n >= 16 {
      HexReads(n / 16);
      assert HexPrefix(n)[..|HexPrefix(n)| - 1] == HexPrefix(n / 16);
    } else {
      assert HexPrefix(n)[..0] == [];
    }
  }

  function Power16(k: nat): (p: nat)
    ensures p > 0
  {
    if k == 0 then 1 else 16 * Power16(k - 1)
  }

  lemma {:induction false} HexLength(n: nat, k: nat)
    requires k > 0 && n < Power16(k)
    ensures |HexPrefix(n)| <= k
  {
    if n >= 16 {
      assert k > 1;
      HexLength(n / 16, k - 1);
    }
  }

  lemma {:induction false} NoSemicolon(s: Data)
    requires HexDigits(s)
    ensures BeforeSemicolon(s) == s
  {
    if s != [] {
      NoSemicolon(s[1..]);
    }
  }

  lemma SixteenDigits()
    ensures Power16(16) == U64
  {
    assert Power16(4) == 0x1_0000;
    assert Power16(8) == 0x1_0000 * Power16(4);
    assert Power16(12) == 0x1_0000 * Power16(8);
    assert Power16(16) == 0x1_0000 * Power16(12);
  }

  lemma PrefixParses(n: nat)
    requires n < U64
    ensures ParseHex(BeforeSemicolon(HexPrefix(n))) == Some(n)
    ensures LF !in HexPrefix(n) && |HexPrefix(n)| <= 16
  {
    hide HexPrefix, HexNumber;
    var h := HexPrefix(n);
    HexReads(n);
    NoSemicolon(h);
    SixteenDigits();
    HexLength(n, 16);
    assert TrimLeft(h) == h && TrimRight(h) == h;
  }

  lemma ChunkSplits(b: Data, off: nat, p: Data, more: Data)
    requires HasAt(b, off, Chunk(p) + more)
    ensures HasAt(b, off, HexPrefix(|p|) + CRLF)
    ensures var next := off + |HexPrefix(|p|)| + 2;
            && HasAt(b, next, p) && HasAt(b, next + |p|, CRLF) && HasAt(b, next + |p| + 2, more)
  {
    hide HexPrefix, HasAt;
    var h := HexPrefix(|p|) + CRLF;
    assert Chunk(p) + more == h + (p + (CRLF + more));
    HasAtSplit(b, off, h, p + (CRLF + more));
    HasAtSplit(b, off + |h|, p, CRLF + more);
    HasAtSplit(b, off + |h| + |p|, CRLF, more);
  }

  lemma ReadChunk(b: Data, off: nat, body: Data, p: Data, more: Data)
    requires HasAt(b, off, Chunk(p) + more) && 1 <= |p| < U64
    ensures off <= |b|
    ensures ReadBody(b, off, body) ==
            if |body| + |p| <= MAX_BODY then ReadBody(b, off + |Chunk(p)|, body + p) else Failed
  {
    hide LineAt, ParseHex, BeforeSemicolon, HexPrefix;
    ChunkSplits(b, off, p, more);
    PrefixParses(|p|);
    LineIs(b, off, HexPrefix(|p|));
    var next := off + |HexPrefix(|p|)| + 2;
    assert [] + CRLF == CRLF;
    LineIs(b, next + |p|, []);
  }

  lemma ReadEnd(b: Data, off: nat, body: Data)
    requires HasAt(b, off, [48] + CRLF + CRLF)
    ensures off <= |b| && ReadBody(b, off, body) == Read(body, off + 5)
  {
    hide LineAt, ParseHex, BeforeSemicolon;
    HasAtSplit(b, off, [48] + CRLF, CRLF);
    PrefixParses(0);
    assert HexPrefix(0) == [48];
    LineIs(b, off, [48]);
    assert [] + CRLF == CRLF;
    LineIs(b, off + 3, []);
  }

  /** Reading any list of chunks gives their concatenation and consumes exactly their bytes, if together
      they stay within the cap; otherwise the read fails. */
  lemma {:induction false} ReadEncoded(b: Data, off: nat, body: Data, chunks: seq<Data>)
    requires HasAt(b, off, Encode(chunks)) && |body| <= MAX_BODY
    requires forall i :: 0 <= i < |chunks| ==> 1 <= |chunks[i]| < U64
    ensures off <= |b|
    ensures ReadBody(b, off, body) ==
            if |body| + |Concat(chunks)| <= MAX_BODY then Read(body + Concat(chunks), off + |Encode(chunks)|)
            else Failed
    decreases |chunks|
  {
    hide ReadBody, Chunk, HasAt;
    if chunks == [] {
      ReadEnd(b, off, body);
      assert body + [] == body;
    } else {
      var p, rest := chunks[0], chunks[1..];
      ReadChunk(b, off, body, p, Encode(rest));
      HasAtSplit(b, off, Chunk(p), Encode(rest));
      if |body| + |p| <= MAX_BODY {
        ReadEncoded(b, off + |Chunk(p)|, body + p, rest);
        assert (body + p) + Concat(rest) == body + Concat(chunks);
      }
    }
  }

  /** What the chunked writer emits is read back as the same body, consuming exactly the bytes written and
      none of what follows, for every body up to the cap and for no longer one. */
  lemma ChunkedRoundTrip(body: Data, rest: Data)
    ensures ReadBody(Encode(Pieces(body)) + rest, 0, []) ==
            if |body| <= 0x4000_0000 then Read(body, |Encode(Pieces(body))|) else Failed
  {
    hide ReadBody, Encode, Pieces, Concat;
    PiecesJoin(body);
    var wire := Encode(Pieces(body));
    HasAtSelf([], wire, rest);
    assert [] + wire + rest == wire + rest;
    ReadEncoded(wire + rest, 0, [], Pieces(body));
    assert [] + body == body;
  }

  lemma HexNumberMore(s: Data, c: Byte)
    ensures HexNumber(s + [c]) ==
            if HexNumber(s).Some? && HexValue(c).Some? then Some(16 * HexNumber(s).value + HexValue(c).value) else None
  {
    assert (s + [c])[..|s|] == s;
  }

  /** "1a2B" is 6699, and "1g" is nothing. */
  lemma HexKnown()
    ensures HexPrefix(6699) == [0x31, 0x61, 0x32, 0x62]
    ensures HexNumber([0x31, 0x61, 0x32, 0x42]) == Some(6699) && HexNumber([0x31, 0x67]) == None
  {
    hide HexNumber;
    assert HexPrefix(418) == HexPrefix(26) + [HexDigit(2)];
    assert HexPrefix(26) == HexPrefix(1) + [HexDigit(10)];
    NoDigits();
    HexNumberMore([], 0x31);
    HexNumberMore([0x31], 0x61);
    HexNumberMore([0x31, 0x61], 0x32);
    HexNumberMore([0x31, 0x61, 0x32], 0x42);
    HexNumberMore([0x31], 0x67);
    assert [] + [0x31] == [0x31] && [0x31] + [0x61] == [0x31, 0x61] && [0x31] + [0x67] == [0x31, 0x67];
    assert [0x31, 0x61] + [0x32] == [0x31, 0x61, 0x32] && [0x31, 0x61, 0x32] + [0x42] == [0x31, 0x61, 0x32, 0x42];
  }

  lemma NoDigits()
    ensures HexNumber([]) == Some(0)
  {
  }

  /** Spaces around the digits and "0x" in front of them are skipped; an empty text and a sign are refused. */
  lemma ParseKnown(d: Byte)
    requires HexValue(d).Some?
    ensures ParseHex([0x20, 0x30, 0x78, d, 0x09]) == HexValue(d) && ParseHex([d]) == HexValue(d)
    ensures ParseHex([]) == None && ParseHex([0x20]) == None && ParseHex([0x2d, d]) == None
  {
    hide HexNumber;
    var s: Data := [0x20, 0x30, 0x78, d, 0x09];
    assert !IsSpace(d);
    assert TrimLeft(s) == s[1..];
    var t: Data := [0x30, 0x78, d];
    assert s[1..][..3] == t && TrimRight(t) == t && TrimRight(s[1..]) == t;
    assert t[2..] == [d];
    NoDigits();
    HexNumberMore([], d);
    HexNumberMore([], 0x2d);
    assert [] + [d] == [d] && [] + [0x2d] == [0x2d];
    HexNumberMore([0x2d], d);
    assert [0x2d] + [d] == [0x2d, d];
    assert TrimLeft([0x20]) == [] && TrimRight([]) == [];
    assert TrimLeft([d]) == [d] && TrimRight([d]) == [d];
    assert TrimLeft([0x2d, d]) == [0x2d, d] && TrimRight([0x2d, d]) == [0x2d, d];
  }

  // ----- extensions and trailers -----

  /** A chunk extension begins with a semicolon. */
  predicate Extension(e: Data) {
    (e != [] ==> e[0] == SEMICOLON) && LF !in e && |e| < MAX_LINE - 16
  }

  /** A trailer line is not empty. */
  predicate Trailer(t: Data) {
    t != [] && LF !in t && |t| < MAX_LINE
  }

  function TrailerLines(ts: seq<Data>): Data {
    if ts == [] then CRLF else ts[0] + CRLF + TrailerLines(ts[1..])
  }

  /** The full wire form of section 7.1 of RFC 9112: every chunk with an extension, and trailers at the end. */
  function EncodeFully(chunks: seq<(Data, Data)>, last: Data, trailers: seq<Data>): Data {
    if chunks == [] then [48] + last + CRLF + TrailerLines(trailers)
    else
      var p, e := chunks[0].0, chunks[0].1;
      HexPrefix(|p|) + e + CRLF + (p + (CRLF + EncodeFully(chunks[1..], last, trailers)))
  }

  function Bodies(chunks: seq<(Data, Data)>): Data {
    if chunks == [] then [] else chunks[0].0 + Bodies(chunks[1..])
  }

  lemma {:induction false} ExtensionIgnored(h: Data, e: Data)
    requires HexDigits(h) && Extension(e)
    ensures BeforeSemicolon(h + e) == h
  {
    if h == [] {
      assert h + e == e;
    } else {
      assert (h + e)[1..] == h[1..] + e;
      ExtensionIgnored(h[1..], e);
    }
  }

  lemma ShortLine(h: Data, e: Data)
    requires LF !in h && |h| <= 16 && Extension(e)
    ensures LF !in h + e && |h + e| < MAX_LINE
  {
  }

  lemma SizeLine(b: Data, off: nat, n: nat, e: Data, more: Data)
    requires HasAt(b, off, HexPrefix(n) + e + CRLF + more) && Extension(e) && n < U64
    ensures var next := off + |HexPrefix(n)| + |e| + 2;
            && LineAt(b, off) == Line(HexPrefix(n) + e, next) && HasAt(b, next, more)
            && ParseHex(BeforeSemicolon(HexPrefix(n) + e)) == Some(n)
  {
    hide LineAt, ParseHex, BeforeSemicolon, HexPrefix, HasAt, HexDigits, HexNumber, Extension;
    var h := HexPrefix(n);
    PrefixParses(n);
    HexReads(n);
    NoSemicolon(h);
    ExtensionIgnored(h, e);
    ShortLine(h, e);
    HasAtSplit(b, off, h + e + CRLF, more);
    LineIs(b, off, h + e);
  }

  lemma {:induction false} TrailersSkipped(b: Data, off: nat, ts: seq<Data>)
    requires HasAt(b, off, TrailerLines(ts)) && forall i :: 0 <= i < |ts| ==> Trailer(ts[i])
    ensures off <= |b| && SkipTrailers(b, off) == Some(off + |TrailerLines(ts)|)
    decreases |ts|
  {
    hide LineAt;
    if ts == [] {
      assert [] + CRLF == CRLF;
      LineIs(b, off, []);
    } else {
      HasAtSplit(b, off, ts[0] + CRLF, TrailerLines(ts[1..]));
      LineIs(b, off, ts[0]);
      TrailersSkipped(b, off + |ts[0]| + 2, ts[1..]);
    }
  }

  /** Extensions and trailers change nothing: the body is that of the chunks, and everything up to the empty
      line behind the trailers is consumed. */
  lemma {:induction false} ReadFully(b: Data, off: nat, body: Data, chunks: seq<(Data, Data)>, last: Data,
                                     trailers: seq<Data>)
    requires HasAt(b, off, EncodeFully(chunks, last, trailers)) && |body| <= MAX_BODY && Extension(last)
    requires forall i :: 0 <= i < |chunks| ==> 1 <= |chunks[i].0| < U64 && Extension(chunks[i].1)
    requires forall i :: 0 <= i < |trailers| ==> Trailer(trailers[i])
    ensures off <= |b|
    ensures ReadBody(b, off, body) ==
            if |body| + |Bodies(chunks)| <= MAX_BODY
            then Read(body + Bodies(chunks), off + |EncodeFully(chunks, last, trailers)|) else Failed
    decreases |chunks|
  {
    hide LineAt, ParseHex, BeforeSemicolon, HexPrefix, HasAt, SkipTrailers, Extension, Trailer, TrailerLines;
    InBuffer(b, off, EncodeFully(chunks, last, trailers));
    if chunks == [] {
      PrefixOfZero();
      SizeLine(b, off, 0, last, TrailerLines(trailers));
      TrailersSkipped(b, off + 1 + |last| + 2, trailers);
      assert body + [] == body;
    } else {
      var p, e, more := chunks[0].0, chunks[0].1, EncodeFully(chunks[1..], last, trailers);
      SizeLine(b, off, |p|, e, p + (CRLF + more));
      var next := off + |HexPrefix(|p|)| + |e| + 2;
      HasAtSplit(b, next, p, CRLF + more);
      HasAtSplit(b, next + |p|, CRLF, more);
      InBuffer(b, next, p);
      assert [] + CRLF == CRLF;
      LineIs(b, next + |p|, []);
      if |body| + |p| <= MAX_BODY {
        ReadFully(b, next + |p| + 2, body + p, chunks[1..], last, trailers);
        assert (body + p) + Bodies(chunks[1..]) == body + Bodies(chunks);
      }
    }
  }

  lemma PrefixOfZero()
    ensures HexPrefix(0) == [48]
  {
  }

  lemma InBuffer(b: Data, off: nat, part: Data)
    requires HasAt(b, off, part)
    ensures off + |part| <= |b| && b[off..off + |part|] == part
  {
  }
}
