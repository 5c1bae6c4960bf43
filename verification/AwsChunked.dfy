/** Decoding aws-chunked request bodies (kumostack/app.py, _decode_aws_chunked_body): the
    framing of section 7.1 of RFC 9112, with signatures as chunk extensions. */
module AwsChunked {
  import opened Prelude
  import Text

  type Byte = b: int | 0 <= b < 256
  type Bytes = seq<Byte>

  const CR: Byte := 13
  const LF: Byte := 10
  const SEMICOLON: Byte := 59
  const UNDERSCORE: Byte := 95
  const CRLF: Bytes := [CR, LF]

  // ---------------------------------------------------------------------
  // Chunk sizes: Python's int(text, 16)
  // ---------------------------------------------------------------------

  function HexValue(b: Byte): Option<nat> {
    if 48 <= b <= 57 then Some(b - 48)
    else if 65 <= b <= 70 then Some(b - 55)
    else if 97 <= b <= 102 then Some(b - 87)
    else None
  }

  predicate IsSpace(b: Byte) {
    9 <= b <= 13 || 28 <= b <= 32
  }

  function StripLeft(s: Bytes): Bytes {
    if s != [] && IsSpace(s[0]) then StripLeft(s[1..]) else s
  }

  function StripRight(s: Bytes): Bytes {
    if s != [] && IsSpace(s[|s| - 1]) then StripRight(s[..|s| - 1]) else s
  }

  /** Hexadecimal digits; single underscores may separate them. */
  function HexDigits(s: Bytes): Option<nat> {
    if s == [] then None
    else
      var last := HexValue(s[|s| - 1]);
      if last.None? then None
      else if |s| == 1 then last
      else
        var front := HexDigits(if s[|s| - 2] == UNDERSCORE then s[..|s| - 2] else s[..|s| - 1]);
        if front.None? then None else Some(16 * front.value + last.value)
  }

  /** After an optional "0x" prefix, which an underscore may follow. */
  function Unsigned(s: Bytes): Option<nat> {
    if |s| >= 2 && s[0] == 48 && (s[1] == 120 || s[1] == 88) then
      HexDigits(if |s| >= 3 && s[2] == UNDERSCORE then s[3..] else s[2..])
    else HexDigits(s)
  }

  function ParseSize(s: Bytes): Option<int> {
    if s != [] && s[0] == 45 then
      var n := Unsigned(s[1..]);
      if n.None? then None else Some(0 - n.value as int)
    else if s != [] && s[0] == 43 then Unsigned(s[1..])
    else Unsigned(s)
  }

  function HexByte(d: nat): Byte
    requires d < 16
  {
    if d < 10 then 48 + d else 87 + d
  }

  /** A size as clients write it: lower-case hexadecimal. */
  function Hex(n: nat): (s: Bytes)
    ensures s != []
    ensures forall i :: 0 <= i < |s| ==> HexValue(s[i]).Some?
  {
    if n < 16 then [HexByte(n)] else Hex(n / 16) + [HexByte(n % 16)]
  }

  lemma {:induction false} HexDigitsHex(n: nat)
    ensures HexDigits(Hex(n)) == Some(n)
  {
    if n >= 16 {
      HexDigitsHex(n / 16);
      var s := Hex(n);
      assert s[..|s| - 1] == Hex(n / 16);
      assert HexValue(s[|s| - 2]).Some?;
    }
  }

  lemma ParseSizeHex(n: nat)
    ensures ParseSize(Hex(n)) == Some(n)
  {
    HexDigitsHex(n);
  }

  lemma SignRead(digits: Bytes)
    ensures ParseSize(['-' as int] + digits) == if Unsigned(digits).None? then None else Some(0 - Unsigned(digits).value)
    ensures ParseSize(['+' as int] + digits) == Unsigned(digits)
  {
    var minus, plus := ['-' as int] + digits, ['+' as int] + digits;
    assert minus[1..] == digits && plus[1..] == digits;
  }

  lemma PrefixRead(digits: Bytes, x: Byte)
    requires x == 'x' as int || x == 'X' as int
    requires digits != [] && digits[0] != '_' as int
    ensures Unsigned(['0' as int, x] + digits) == HexDigits(digits)
    ensures Unsigned(['0' as int, x, '_' as int] + digits) == HexDigits(digits)
  {
    var plain, scored := ['0' as int, x] + digits, ['0' as int, x, '_' as int] + digits;
    assert plain[2] == digits[0] && scored[2] == '_' as int;
    assert plain[2..] == digits && scored[3..] == digits;
  }

  /** A sign and an "0x" in either case, with or without an underscore behind it, may stand
      before the digits. */
  lemma PrefixedSizeRead(n: nat, x: Byte)
    requires x == 'x' as int || x == 'X' as int
    ensures Unsigned(['0' as int, x] + Hex(n)) == Unsigned(['0' as int, x, '_' as int] + Hex(n)) == Some(n)
    ensures ParseSize(['+' as int] + Hex(n)) == Some(n)
    ensures ParseSize(['-' as int] + Hex(n)) == Some(0 - n)
  {
    HexRead(n);
    PrefixRead(Hex(n), x);
    SignRead(Hex(n));
  }

  lemma HexRead(n: nat)
    ensures Unsigned(Hex(n)) == HexDigits(Hex(n)) == Some(n) && Hex(n)[0] != '_' as int
  {
    HexDigitsHex(n);
    assert HexValue(Hex(n)[0]).Some?;
    assert |Hex(n)| >= 2 ==> HexValue(Hex(n)[1]).Some?;
  }

  // ---------------------------------------------------------------------
  // One pass of the loop
  // ---------------------------------------------------------------------

  predicate CrlfAt(s: Bytes, i: nat) {
    i + 1 < |s| && s[i] == CR && s[i + 1] == LF
  }

  /** Index of the first CRLF at or after `from`, or |s|. */
  function FindCrlf(s: Bytes, from: nat): (i: nat)
    requires from <= |s|
    ensures from <= i <= |s|
    ensures forall j :: from <= j < i ==> !CrlfAt(s, j)
    ensures i < |s| ==> CrlfAt(s, i)
    decreases |s| - from
  {
    if from == |s| || CrlfAt(s, from) then from else FindCrlf(s, from + 1)
  }

  /** Python slice bounds: negative ones count from the end, all are clamped. */
  function Bound(s: Bytes, i: int): (k: nat)
    ensures k <= |s|
  {
    var j := if i < 0 then i + |s| else i;
    if j < 0 then 0 else if j > |s| then |s| else j
  }

  function Slice(s: Bytes, lo: int, hi: int): Bytes {
    var i, j := Bound(s, lo), Bound(s, hi);
    if i <= j then s[i..j] else []
  }

  /** The size field of a chunk header: what precedes the first semicolon, stripped. */
  function SizeField(header: Bytes): Bytes {
    StripRight(StripLeft(header[..Text.IndexFrom(header, SEMICOLON, 0)]))
  }

  datatype Pass = Stop | Chunk(size: int, data: Bytes, rest: Bytes)

  /** The loop body: what it appends to `decoded` and what remains. */
  function NextChunk(remaining: Bytes): Pass {
    var crlf := FindCrlf(remaining, 0);
    if crlf == |remaining| then Stop
    else
      var size := ParseSize(SizeField(remaining[..crlf]));
      if size.None? || size.value == 0 then Stop
      else
        var start := crlf + 2;
        Chunk(size.value, Slice(remaining, start, start + size.value),
              remaining[Bound(remaining, start + size.value + 2)..])
  }

  /** A pass leaves the buffer as it found it, so that the loop never ends, exactly when the
      index after the chunk is 0 or reaches back to the start; with a positive size the buffer
      always shrinks. */
  lemma PassProgress(s: Bytes)
    requires NextChunk(s).Chunk?
    ensures var p := NextChunk(s); var next := FindCrlf(s, 0) + 2 + p.size + 2;
            (p.rest == s <==> next == 0 || next <= -|s|) &&
            (p.rest == s <==> |p.rest| == |s|) &&
            (p.size > 0 ==> |p.rest| < |s|)
  {
    var next := FindCrlf(s, 0) + 2 + NextChunk(s).size + 2;
    assert s[0..] == s;
    assert Bound(s, next) == 0 <==> next == 0 || next <= -|s|;
    assert |s[Bound(s, next)..]| == |s| - Bound(s, next);
  }

  // ---------------------------------------------------------------------
  // The whole body
  // ---------------------------------------------------------------------

  /** What the loop has appended when it ends, unless it never does. */
  datatype Decoding = Decoded(body: Bytes) | NeverEnds

  function Decode(remaining: Bytes): Decoding
    decreases |remaining|
  {
    match NextChunk(remaining)
    case Stop => Decoded([])
    case Chunk(_, data, rest) => if |rest| == |remaining| then NeverEnds else After(data, Decode(rest))
  }

  function After(data: Bytes, d: Decoding): Decoding {
    if d.Decoded? then Decoded(data + d.body) else d
  }

  /** Every pass along the body leaves the index behind its chunk inside the buffer: after the
      start, counted from either end. */
  ghost predicate Advances(s: Bytes)
    decreases |s|
  {
    NextChunk(s).Chunk? ==>
      var next := FindCrlf(s, 0) + 2 + NextChunk(s).size + 2;
      next != 0 && next > -|s| && (PassProgress(s); Advances(NextChunk(s).rest))
  }

  /** The loop ends exactly when every pass advances. */
  lemma {:induction false} DecodeEndsExactly(s: Bytes)
    ensures Decode(s).Decoded? <==> Advances(s)
    decreases |s|
  {
    if NextChunk(s).Chunk? {
      PassProgress(s);
      if |NextChunk(s).rest| < |s| {
        DecodeEndsExactly(NextChunk(s).rest);
      }
    }
  }

  /** A negative chunk size can make the loop run forever. */
  lemma NegativeSizeLoops()
    ensures NextChunk([45, 54, CR, LF]) == Chunk(-6, [], [45, 54, CR, LF])
    ensures Decode([45, 54, CR, LF]) == NeverEnds
  {
    var s: Bytes := [45, 54, CR, LF];
    assert !CrlfAt(s, 0) && !CrlfAt(s, 1) && CrlfAt(s, 2);
    assert FindCrlf(s, 0) == 2;
    var header := s[..2];
    assert header == [45, 54] && header[1..] == [54];
    assert Text.IndexFrom(header, SEMICOLON, 0) == 2 && header[..2] == header;
    assert SizeField(header) == header;
    assert HexDigits([54]) == Some(6);
    assert s[Bound(s, 0)..] == s;
  }

  /** `ended` is false where the loop would pass over the same buffer forever. */
  method DecodeLoop(body: Bytes) returns (decoded: Bytes, ended: bool)
    ensures ended ==> Decode(body) == Decoded(decoded)
    ensures !ended ==> Decode(body) == NeverEnds
  {
    decoded, ended := [], true;
    var remaining := body;
    AfterNothing(Decode(body));
    while remaining != []
      invariant Decode(body) == After(decoded, Decode(remaining))
      decreases |remaining|
    {
      var crlf := FindCrlf(remaining, 0);
      if crlf == |remaining| {
        break;
      }
      var size := ParseSize(SizeField(remaining[..crlf]));
      if size.None? || size.value == 0 {
        break;
      }
      var start := crlf + 2;
      var rest := remaining[Bound(remaining, start + size.value + 2)..];
      if |rest| == |remaining| {
        ended := false;
        return;
      }
      ChunkDecoded(remaining, decoded);
      decoded := decoded + Slice(remaining, start, start + size.value);
      remaining := rest;
    }
    assert NextChunk(remaining) == Stop;
    assert decoded + [] == decoded;
  }

  lemma AfterNothing(d: Decoding)
    ensures After([], d) == d
  {
    if d.Decoded? {
      assert [] + d.body == d.body;
    }
  }

  lemma ChunkDecoded(remaining: Bytes, decoded: Bytes)
    requires NextChunk(remaining).Chunk? && |NextChunk(remaining).rest| < |remaining|
    ensures var p := NextChunk(remaining);
            After(decoded, Decode(remaining)) == After(decoded + p.data, Decode(p.rest))
  {
    AfterTwice(decoded, NextChunk(remaining).data, Decode(NextChunk(remaining).rest));
  }

  lemma AfterTwice(a: Bytes, b: Bytes, d: Decoding)
    ensures After(a, After(b, d)) == After(a + b, d)
  {
    if d.Decoded? {
      assert a + (b + d.body) == a + b + d.body;
    }
  }

  // ---------------------------------------------------------------------
  // Truncation
  // ---------------------------------------------------------------------

  lemma FindCrlfPrefix(t: Bytes, s: Bytes, from: nat)
    requires t <= s && from <= |t| && FindCrlf(t, from) < |t|
    ensures FindCrlf(s, from) == FindCrlf(t, from)
  {
    var i, k := FindCrlf(t, from), FindCrlf(s, from);
    assert CrlfAt(s, i);
    assert forall j :: 0 <= j < i ==> CrlfAt(s, j) == CrlfAt(t, j);
    assert i <= k;
  }

  /** A pass over a truncated buffer stops, takes the same chunk, or takes what is left of it. */
  lemma PassOfPrefix(t: Bytes, s: Bytes)
    requires t <= s && NextChunk(t).Chunk? && (NextChunk(s).Chunk? ==> NextChunk(s).size > 0)
    ensures NextChunk(s).Chunk? && NextChunk(s).size == NextChunk(t).size
    ensures var p, q := NextChunk(t), NextChunk(s);
            (p.data == q.data && p.rest <= q.rest) || (p.data <= q.data && p.rest == [])
  {
    var crlf, size := SameHeader(t, s);
    if crlf + 2 + size + 2 <= |t| {
      assert t[crlf + 2..crlf + 2 + size] == s[crlf + 2..crlf + 2 + size];
    } else {
      SliceOfPrefix(t, s, crlf + 2, crlf + 2 + size);
    }
  }

  lemma SameHeader(t: Bytes, s: Bytes) returns (crlf: nat, size: int)
    requires t <= s && NextChunk(t).Chunk?
    ensures crlf == FindCrlf(t, 0) == FindCrlf(s, 0) && crlf < |t| && size != 0
    ensures ParseSize(SizeField(t[..crlf])) == ParseSize(SizeField(s[..crlf])) == Some(size)
  {
    crlf, size := FindCrlf(t, 0), NextChunk(t).size;
    FindCrlfPrefix(t, s, 0);
    assert t[..crlf] == s[..crlf];
  }

  lemma SliceOfPrefix(t: Bytes, s: Bytes, lo: nat, hi: nat)
    requires t <= s && lo <= hi
    ensures Slice(t, lo, hi) <= Slice(s, lo, hi)
  {
  }

  /** No chunk size that the loop reads in `s` has a minus sign. */
  ghost predicate UnsignedSizes(s: Bytes)
    decreases |s|
  {
    NextChunk(s).Chunk? ==>
      NextChunk(s).size > 0 && (PassProgress(s); UnsignedSizes(NextChunk(s).rest))
  }

  /** Where all sizes are unsigned the loop ends, and decoding a truncated body gives a prefix
      of decoding the whole. */
  lemma {:induction false} DecodeMonotone(t: Bytes, s: Bytes)
    requires t <= s && UnsignedSizes(s)
    ensures Decode(t).Decoded? && Decode(s).Decoded? && Decode(t).body <= Decode(s).body
    decreases |s|
  {
    if NextChunk(t).Chunk? {
      PassOfPrefix(t, s);
      PassProgress(t);
    }
    if NextChunk(s).Chunk? {
      var p, q := NextChunk(t), NextChunk(s);
      PassProgress(s);
      if p.Chunk? && p.data == q.data && p.rest <= q.rest {
        DecodeMonotone(p.rest, q.rest);
      } else {
        DecodeMonotone([], q.rest);
        assert Decode([]) == Decoded([]);
      }
    }
  }

  // ---------------------------------------------------------------------
  // Encoding and decoding
  // ---------------------------------------------------------------------

  /** A chunk and its extension, such as ";chunk-signature=...". */
  datatype Framed = Framed(data: Bytes, extension: Bytes)

  ghost predicate NoCrlf(s: Bytes) {
    forall i :: 0 <= i < |s| ==> !CrlfAt(s, i)
  }

  ghost predicate ValidExtension(e: Bytes) {
    (e == [] || e[0] == SEMICOLON) && NoCrlf(e)
  }

  function Header(size: nat, extension: Bytes): Bytes {
    Hex(size) + extension + CRLF
  }

  function Encode(chunks: seq<Framed>): Bytes {
    if chunks == [] then []
    else Header(|chunks[0].data|, chunks[0].extension) + chunks[0].data + CRLF + Encode(chunks[1..])
  }

  function Payload(chunks: seq<Framed>): Bytes {
    if chunks == [] then [] else chunks[0].data + Payload(chunks[1..])
  }

  /** A header is found whole and its size read, whatever follows. */
  lemma HeaderRead(size: nat, extension: Bytes, after: Bytes)
    requires ValidExtension(extension)
    ensures var s := Header(size, extension) + after; var h := Hex(size) + extension;
            FindCrlf(s, 0) == |h| && s[..|h|] == h && ParseSize(SizeField(h)) == Some(size)
  {
    var hex := Hex(size);
    var h := hex + extension;
    var s := Header(size, extension) + after;
    assert CrlfAt(s, |h|);
    forall i | 0 <= i < |h|
      ensures !CrlfAt(s, i)
    {
      if i < |hex| {
        assert s[i] == hex[i] && HexValue(hex[i]).Some?;
      } else {
        assert !CrlfAt(extension, i - |hex|);
        assert s[i] == extension[i - |hex|];
        assert i + 1 < |h| ==> s[i + 1] == extension[i + 1 - |hex|];
      }
    }
    assert s[..|h|] == h;
    SizeFieldRead(hex, extension);
    ParseSizeHex(size);
  }

  lemma SizeFieldRead(hex: Bytes, extension: Bytes)
    requires hex != [] && forall i :: 0 <= i < |hex| ==> HexValue(hex[i]).Some?
    requires extension == [] || extension[0] == SEMICOLON
    ensures SizeField(hex + extension) == hex
  {
    var h := hex + extension;
    var i := Text.IndexFrom(h, SEMICOLON, 0);
    assert forall j :: 0 <= j < |hex| ==> h[j] == hex[j] && HexValue(hex[j]).Some?;
    if extension != [] {
      assert h[|hex|] == SEMICOLON;
    }
    assert i == |hex| && h[..i] == hex;
    assert HexValue(hex[0]).Some? && HexValue(hex[|hex| - 1]).Some?;
  }

  /** White space of bytes: tab, newline, vertical tab, form feed, return, the four separators, space. */
  const BLANKS: set<Byte> := {9, 10, 11, 12, 13, 28, 29, 30, 31, 32}

  ghost predicate Blank(s: Bytes) {
    forall i :: 0 <= i < |s| ==> s[i] in BLANKS
  }

  lemma {:induction false} LeftStripped(pad: Bytes, s: Bytes)
    requires Blank(pad) && (s != [] ==> s[0] !in BLANKS)
    ensures StripLeft(pad + s) == s
  {
    if pad == [] {
      assert pad + s == s;
    } else {
      assert (pad + s)[1..] == pad[1..] + s;
      assert pad[0] in BLANKS;
      LeftStripped(pad[1..], s);
    }
  }

  lemma {:induction false} RightStripped(s: Bytes, pad: Bytes)
    requires Blank(pad) && (s != [] ==> s[|s| - 1] !in BLANKS)
    ensures StripRight(s + pad) == s
  {
    if pad == [] {
      assert s + pad == s;
    } else {
      assert (s + pad)[..|s + pad| - 1] == s + pad[..|pad| - 1];
      assert pad[|pad| - 1] in BLANKS;
      RightStripped(s, pad[..|pad| - 1]);
    }
  }

  lemma NoSemicolonInside(before: Bytes, digits: Bytes, after: Bytes)
    requires SEMICOLON !in before && SEMICOLON !in digits && SEMICOLON !in after
    ensures var h := before + digits + after; Text.IndexFrom(h, SEMICOLON, 0) == |h|
  {
  }

  lemma PaddedField(before: Bytes, digits: Bytes, after: Bytes)
    requires Blank(before) && Blank(after) && digits != []
    requires forall i :: 0 <= i < |digits| ==> HexValue(digits[i]).Some?
    ensures SizeField(before + digits + after) == digits
  {
    var header := before + digits + after;
    NoSemicolonInside(before, digits, after);
    assert header[..|header|] == header;
    assert header == before + (digits + after);
    assert HexValue(digits[0]).Some? && HexValue(digits[|digits| - 1]).Some?;
    LeftStripped(before, digits + after);
    RightStripped(digits, after);
  }

  /** White space around the size of a chunk header does not count. */
  lemma PaddedSizeRead(before: Bytes, n: nat, after: Bytes)
    requires Blank(before) && Blank(after)
    ensures ParseSize(SizeField(before + Hex(n) + after)) == Some(n)
  {
    PaddedField(before, Hex(n), after);
    ParseSizeHex(n);
  }

  /** Decoding undoes chunking: whatever bytes the chunks hold, the terminating chunk and
      anything after it are dropped and the payload is recovered. */
  lemma {:induction false} DecodeEncoded(chunks: seq<Framed>, terminator: Bytes, trailer: Bytes)
    requires forall i :: 0 <= i < |chunks| ==> chunks[i].data != [] && ValidExtension(chunks[i].extension)
    requires ValidExtension(terminator)
    ensures Decode(Encode(chunks) + (Header(0, terminator) + trailer)) == Decoded(Payload(chunks))
    decreases |chunks|
  {
    var end := Header(0, terminator) + trailer;
    if chunks == [] {
      HeaderRead(0, terminator, trailer);
      assert Encode(chunks) + end == end;
    } else {
      EncodedHead(chunks, end);
      OneChunk(chunks[0], Encode(chunks[1..]) + end);
      PassProgress(Encode(chunks) + end);
      DecodeEncoded(chunks[1..], terminator, trailer);
    }
  }

  /** A framed chunk is taken off whole, even if its data contains CRLF. */
  lemma OneChunk(c: Framed, rest: Bytes)
    requires c.data != [] && ValidExtension(c.extension)
    ensures NextChunk(Header(|c.data|, c.extension) + (c.data + CRLF + rest)) == Chunk(|c.data|, c.data, rest)
  {
    var header, size := Header(|c.data|, c.extension), |c.data|;
    var after := c.data + CRLF + rest;
    HeaderRead(size, c.extension, after);
    PassInside(header + after, |header| - 2, size);
    Cut(header, c.data, CRLF, rest);
  }

  lemma PassInside(s: Bytes, crlf: nat, size: nat)
    requires crlf == FindCrlf(s, 0) && ParseSize(SizeField(s[..crlf])) == Some(size) && size > 0
    requires crlf + 2 + size + 2 <= |s|
    ensures NextChunk(s) == Chunk(size, s[crlf + 2..crlf + 2 + size], s[crlf + 2 + size + 2..])
  {
    PassAt(s, crlf, size);
  }

  lemma PassAt(s: Bytes, crlf: nat, size: int)
    requires crlf == FindCrlf(s, 0) < |s| && ParseSize(SizeField(s[..crlf])) == Some(size) && size != 0
    ensures NextChunk(s) ==
            Chunk(size, Slice(s, crlf + 2, crlf + 2 + size), s[Bound(s, crlf + 2 + size + 2)..])
  {
  }

  lemma Cut(a: Bytes, b: Bytes, c: Bytes, d: Bytes)
    ensures var s := a + (b + c + d);
            s[|a|..|a| + |b|] == b && s[|a| + |b| + |c|..] == d
  {
  }

  lemma EncodedHead(chunks: seq<Framed>, end: Bytes)
    requires chunks != []
    ensures Encode(chunks) + end ==
            Header(|chunks[0].data|, chunks[0].extension) +
            (chunks[0].data + CRLF + (Encode(chunks[1..]) + end))
  {
  }

  // ---------------------------------------------------------------------
  // Headers
  // ---------------------------------------------------------------------

  const AWS_CHUNKED := "aws-chunked"
  const CONTENT_ENCODING := "content-encoding"

  predicate IsBlank(c: char) {
    '\t' <= c <= '\r' || '\U{1c}' <= c <= ' ' || c == '\U{85}' || c == '\U{a0}' || c == '\U{1680}' ||
    '\U{2000}' <= c <= '\U{200a}' || c == '\U{2028}' || c == '\U{2029}' || c == '\U{202f}' ||
    c == '\U{205f}' || c == '\U{3000}'
  }

  /** White space by code point: the ASCII controls, space, and the separators of Unicode. */
  lemma BlankExactly(c: char)
    ensures IsBlank(c) <==>
            c as int in {0x9, 0xA, 0xB, 0xC, 0xD, 0x1C, 0x1D, 0x1E, 0x1F, 0x20, 0x85, 0xA0, 0x1680,
                         0x2000, 0x2001, 0x2002, 0x2003, 0x2004, 0x2005, 0x2006, 0x2007, 0x2008, 0x2009, 0x200A,
                         0x2028, 0x2029, 0x202F, 0x205F, 0x3000}
  {
  }

  /** Python's `s.strip()`. */
  function Strip(s: string): string
    decreases |s|
  {
    if s == "" then s
    else if IsBlank(s[0]) then Strip(s[1..])
    else if IsBlank(s[|s| - 1]) then Strip(s[..|s| - 1])
    else s
  }

  predicate Contains(s: string, t: string) {
    exists i :: 0 <= i <= |s| && t <= s[i..]
  }

  function StripAll(parts: seq<string>): (r: seq<string>)
    ensures |r| == |parts| && forall i :: 0 <= i < |parts| ==> r[i] == Strip(parts[i])
  {
    if parts == [] then [] else [Strip(parts[0])] + StripAll(parts[1..])
  }

  /** The codings a content-encoding header lists. */
  function Codings(header: string): seq<string> {
    StripAll(Text.Split(header, ','))
  }

  function WithoutAwsChunked(codings: seq<string>): (r: seq<string>)
    ensures forall c :: c in r <==> c in codings && c != AWS_CHUNKED
  {
    if codings == [] then []
    else (if codings[0] == AWS_CHUNKED then [] else [codings[0]]) + WithoutAwsChunked(codings[1..])
  }

  /** `", ".join(codings)` */
  function CommaList(codings: seq<string>): string
    requires codings != []
  {
    Text.Join(Spaced(codings), ',')
  }

  function Spaced(codings: seq<string>): (r: seq<string>)
    ensures |r| == |codings|
    ensures forall i :: 0 <= i < |r| ==> r[i] == if i == 0 then codings[0] else " " + codings[i]
  {
    seq(|codings|, i requires 0 <= i < |codings| => if i == 0 then codings[0] else " " + codings[i])
  }

  predicate IsChunked(headers: map<string, string>) {
    ("x-amz-content-sha256" in headers && "STREAMING-" <= headers["x-amz-content-sha256"]) ||
    (CONTENT_ENCODING in headers && Contains(headers[CONTENT_ENCODING], AWS_CHUNKED)) ||
    ("x-amz-decoded-content-length" in headers && headers["x-amz-decoded-content-length"] != "")
  }

  /** The headers after decoding. */
  function Normalized(headers: map<string, string>): map<string, string> {
    if CONTENT_ENCODING in headers && Contains(headers[CONTENT_ENCODING], AWS_CHUNKED) then
      var codings := WithoutAwsChunked(Codings(headers[CONTENT_ENCODING]));
      if codings != [] then headers[CONTENT_ENCODING := CommaList(codings)]
      else headers - {CONTENT_ENCODING}
    else headers
  }

  lemma {:induction false} StripShrinks(s: string)
    ensures Strip(Strip(s)) == Strip(s) && forall c :: c in Strip(s) ==> c in s
    decreases |s|
  {
    if s != "" {
      if IsBlank(s[0]) {
        StripShrinks(s[1..]);
      } else if IsBlank(s[|s| - 1]) {
        StripShrinks(s[..|s| - 1]);
      }
    }
  }

  /** The normalised header lists the same codings in the same order, less aws-chunked. */
  lemma NormalizedCodings(header: string)
    requires WithoutAwsChunked(Codings(header)) != []
    ensures Codings(CommaList(WithoutAwsChunked(Codings(header)))) == WithoutAwsChunked(Codings(header))
  {
    var kept := WithoutAwsChunked(Codings(header));
    var parts := Spaced(kept);
    forall i | 0 <= i < |kept|
      ensures ',' !in parts[i] && Strip(parts[i]) == kept[i]
    {
      KeptCoding(header, kept[i]);
      assert (" " + kept[i])[1..] == kept[i];
    }
    Text.SplitOfJoin(parts, ',');
    assert StripAll(parts) == kept;
  }

  lemma KeptCoding(header: string, coding: string)
    requires coding in Codings(header)
    ensures ',' !in coding && Strip(coding) == coding
  {
    var parts := Text.Split(header, ',');
    Text.SplitClean(header, ',', Text.Count(header, ','));
    var i :| 0 <= i < |parts| && Codings(header)[i] == coding;
    StripShrinks(parts[i]);
  }

  lemma FoundInside(a: string, t: string, b: string)
    ensures Contains(a + t + b, t)
  {
    assert (a + t + b)[|a|..] == t + b;
  }

  /** A body is taken for chunked if its content hash is announced as streamed, or its encoding
      mentions aws-chunked anywhere, or a decoded length is given. */
  lemma ChunkedIf(headers: map<string, string>, a: string, b: string)
    ensures IsChunked(headers["x-amz-content-sha256" := "STREAMING-" + a])
    ensures IsChunked(headers["content-encoding" := a + "aws-chunked" + b])
    ensures a != "" ==> IsChunked(headers["x-amz-decoded-content-length" := a])
  {
    FoundInside(a, AWS_CHUNKED, b);
    assert "STREAMING-" <= "STREAMING-" + a;
  }

  lemma MentionsOnly(s: string, t: string)
    requires Contains(s, t)
    ensures exists a, b :: s == a + t + b
  {
    var i :| 0 <= i <= |s| && t <= s[i..];
    assert s == s[..i] + t + s[i + |t|..];
  }

  /** Conversely, at least one of the three holds of a body that is taken for chunked. */
  lemma ChunkedOnlyIf(headers: map<string, string>)
    requires IsChunked(headers)
    ensures ("x-amz-content-sha256" in headers && "STREAMING-" <= headers["x-amz-content-sha256"]) ||
            ("content-encoding" in headers && exists a, b :: headers["content-encoding"] == a + "aws-chunked" + b) ||
            ("x-amz-decoded-content-length" in headers && headers["x-amz-decoded-content-length"] != "")
  {
    if CONTENT_ENCODING in headers && Contains(headers[CONTENT_ENCODING], AWS_CHUNKED) {
      MentionsOnly(headers[CONTENT_ENCODING], AWS_CHUNKED);
    }
  }

  lemma {:induction false} WithoutAppend(codings: seq<string>, c: string)
    ensures WithoutAwsChunked(codings + [c]) == WithoutAwsChunked(codings) + if c == "aws-chunked" then [] else [c]
  {
    if codings == [] {
      assert [c][1..] == [];
    } else {
      assert (codings + [c])[1..] == codings[1..] + [c];
      WithoutAppend(codings[1..], c);
    }
  }

  /** Decoding changes no header but content-encoding, and that one only if it mentions
      aws-chunked: it then lists the other codings, and is dropped exactly if there are none. */
  lemma NormalizedExactly(headers: map<string, string>)
    ensures forall k :: k != "content-encoding" ==>
              (k in Normalized(headers) <==> k in headers) && (k in headers ==> Normalized(headers)[k] == headers[k])
    ensures "content-encoding" in headers ==>
              var had, kept := headers["content-encoding"], WithoutAwsChunked(Codings(headers["content-encoding"]));
              if !Contains(had, "aws-chunked") then Normalized(headers) == headers
              else
                ("content-encoding" in Normalized(headers) <==> exists c :: c in Codings(had) && c != "aws-chunked") &&
                ("content-encoding" in Normalized(headers) ==> Codings(Normalized(headers)["content-encoding"]) == kept)
    ensures "content-encoding" !in headers ==> Normalized(headers) == headers
  {
    if CONTENT_ENCODING in headers && Contains(headers[CONTENT_ENCODING], AWS_CHUNKED) {
      var had := headers[CONTENT_ENCODING];
      var kept := WithoutAwsChunked(Codings(had));
      if kept != [] {
        NormalizedCodings(had);
        assert kept[0] in kept;
      }
    }
  }

  /** Hexadecimal digits of either case, and no other byte. */
  lemma HexValueExactly(b: Byte)
    ensures HexValue(b) ==
            if '0' as int <= b <= '9' as int then Some(b - '0' as int)
            else if 'a' as int <= b <= 'f' as int then Some(10 + b - 'a' as int)
            else if 'A' as int <= b <= 'F' as int then Some(10 + b - 'A' as int)
            else None
  {
  }

  class Request {
    var headers: map<string, string>

    method DecodeBody(body: Bytes) returns (decoded: Bytes, ended: bool)
      modifies this
      ensures !IsChunked(old(headers)) ==> ended && decoded == body && headers == old(headers)
      ensures IsChunked(old(headers)) && ended ==>
                Decode(body) == Decoded(decoded) && headers == Normalized(old(headers))
      ensures IsChunked(old(headers)) && !ended ==> Decode(body) == NeverEnds && headers == old(headers)
    {
      if !IsChunked(headers) {
        return body, true;
      }
      decoded, ended := DecodeLoop(body);
      if !ended {
        return;
      }
      if CONTENT_ENCODING in headers && Contains(headers[CONTENT_ENCODING], AWS_CHUNKED) {
        var codings := WithoutAwsChunked(Codings(headers[CONTENT_ENCODING]));
        if codings != [] {
          headers := headers[CONTENT_ENCODING := CommaList(codings)];
        } else {
          headers := headers - {CONTENT_ENCODING};
        }
      }
    }
  }
}
