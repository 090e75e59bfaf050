/** HTTP/1.1 chunked transfer coding: the two writers, and the decoder of section 7.1 of
    RFC 9112 as the reference for what they write. */
module Chunked {
  import opened Options
  import opened Bytes

  const CR: byte := 13
  const LF: byte := 10
  const CRLF: bytes := [CR, LF]
  const ZERO: byte := 48
  /** The last chunk and an empty trailer section. */
  const LAST_CHUNK: bytes := [ZERO] + CRLF + CRLF

  // ---------- chunk sizes ----------

  function HexDigit(d: nat): byte
    requires d < 16
  {
    if d < 10 then (48 + d) as byte else (97 + (d - 10)) as byte
  }

  /** The value of a hex digit in either case, or 16 for any other byte. */
  function DigitValue(b: byte): nat {
    if 48 <= b <= 57 then b as int - 48
    else if 97 <= b <= 102 then b as int - 97 + 10
    else if 65 <= b <= 70 then b as int - 65 + 10
    else 16
  }

  /** `sprintf("%x")` of a number that is not negative. */
  function Hex(n: nat): (r: bytes)
    ensures r != []
  {
    if n < 16 then [HexDigit(n)] else Hex(n / 16) + [HexDigit(n % 16)]
  }

  function HexSpan(s: bytes): (k: nat)
    ensures k <= |s|
    ensures forall i :: 0 <= i < k ==> DigitValue(s[i]) < 16
    ensures k < |s| ==> DigitValue(s[k]) == 16
  {
    if s == [] || DigitValue(s[0]) == 16 then 0 else 1 + HexSpan(s[1..])
  }

  function HexValue(ds: bytes): nat
    requires forall i :: 0 <= i < |ds| ==> DigitValue(ds[i]) < 16
  {
    if ds == [] then 0 else 16 * HexValue(ds[..|ds| - 1]) + DigitValue(ds[|ds| - 1])
  }

  lemma {:induction false} HexReadsBack(n: nat)
    ensures forall i :: 0 <= i < |Hex(n)| ==> DigitValue(Hex(n)[i]) < 16
    ensures forall i :: 0 <= i < |Hex(n)| ==> 48 <= Hex(n)[i] <= 57 || 97 <= Hex(n)[i] <= 102
    ensures HexValue(Hex(n)) == n
  {
    if n >= 16 {
      HexReadsBack(n / 16);
      var h, t := Hex(n / 16), Hex(n);
      assert t[..|t| - 1] == h;
      forall i | 0 <= i < |t| ensures DigitValue(t[i]) < 16 && (48 <= t[i] <= 57 || 97 <= t[i] <= 102) {
        if i < |h| { assert t[i] == h[i]; }
      }
    }
  }

  /** A 32-bit size has at most eight digits. */
  lemma {:induction false} HexIsShort(n: nat, k: nat, bound: nat)
    requires k > 0 && bound == Power16(k) && n < bound
    ensures |Hex(n)| <= k
  {
    if n >= 16 {
      HexIsShort(n / 16, k - 1, Power16(k - 1));
    }
  }

  ghost function Power16(k: nat): nat { if k == 0 then 1 else 16 * Power16(k - 1) }

  // ---------- the reference decoder ----------

  /** A size line: the number, and what follows the line. */
  function SizeLine(s: bytes): Option<(nat, bytes)> {
    var k := HexSpan(s);
    if k == 0 || |s| < k + 2 || s[k] != CR || s[k + 1] != LF then None
    else Some((HexValue(s[..k]), s[k + 2..]))
  }

  /** What follows a line break. */
  function LineBreak(s: bytes): Option<bytes> {
    if |s| < 2 || s[0] != CR || s[1] != LF then None else Some(s[2..])
  }

  /** The decoded body and what follows the message. */
  function Decode(s: bytes): Option<(bytes, bytes)>
    decreases |s|
  {
    match SizeLine(s)
    case None => None
    case Some((size, t)) =>
      if |t| < size then None
      else match LineBreak(t[size..])
        case None => None
        case Some(u) =>
          if size == 0 then Some(([], u))
          else match Decode(u)
            case None => None
            case Some((body, rest)) => Some((t[..size] + body, rest))
  }

  // ---------- what is written ----------

  function Chunk(data: bytes): bytes { Hex(|data|) + CRLF + data + CRLF }

  function Encode(chunks: seq<bytes>): bytes {
    if chunks == [] then LAST_CHUNK else Chunk(chunks[0]) + Encode(chunks[1..])
  }

  ghost predicate NonEmpty(chunks: seq<bytes>) { forall i :: 0 <= i < |chunks| ==> chunks[i] != [] }

  lemma {:induction false} HexSpanIs(h: bytes, s: bytes)
    requires forall i :: 0 <= i < |h| ==> DigitValue(h[i]) < 16
    requires s != [] && DigitValue(s[0]) == 16
    ensures HexSpan(h + s) == |h|
  {
    if h == [] {
      assert h + s == s;
    } else {
      HexSpanIs(h[1..], s);
      assert (h + s)[1..] == h[1..] + s;
    }
  }

  lemma SizeLineIs(h: bytes, t: bytes)
    requires h != [] && forall i :: 0 <= i < |h| ==> DigitValue(h[i]) < 16
    ensures SizeLine(h + (CRLF + t)) == Some((HexValue(h), t))
  {
    var s := h + (CRLF + t);
    HexSpanIs(h, CRLF + t);
    assert s[..|h|] == h && s[|h|..] == CRLF + t;
    assert s[|h| + 2..] == t;
  }

  lemma ChunkIs(data: bytes, s: bytes)
    ensures Chunk(data) + s == Hex(|data|) + (CRLF + (data + (CRLF + s)))
  {
    var h := Hex(|data|);
    Associative(h + CRLF + data, CRLF, s);
    Associative(h + CRLF, data, CRLF + s);
    Associative(h, CRLF, data + (CRLF + s));
  }

  lemma DecodeChunk(data: bytes, s: bytes)
    requires data != []
    ensures Decode(Chunk(data) + s) ==
      match Decode(s) { case None => None case Some((body, rest)) => Some((data + body, rest)) }
  {
    var t := data + (CRLF + s);
    HexReadsBack(|data|);
    SizeLineIs(Hex(|data|), t);
    ChunkIs(data, s);
    assert t[..|data|] == data && t[|data|..] == CRLF + s;
    assert (CRLF + s)[2..] == s;
  }

  lemma DecodeLast(s: bytes)
    ensures Decode(LAST_CHUNK + s) == Some(([], s))
  {
    var t := CRLF + s;
    SizeLineIs([ZERO], t);
    assert LAST_CHUNK + s == [ZERO] + (CRLF + t);
    assert [ZERO][..0] == [];
    assert t[0..] == t && t[2..] == s;
  }

  /** Decoding what was encoded gives the data back, and stops where the message ends. */
  lemma {:induction false} RoundTrip(chunks: seq<bytes>, s: bytes)
    requires NonEmpty(chunks)
    ensures Decode(Encode(chunks) + s) == Some((Concat(chunks), s))
  {
    if chunks == [] {
      DecodeLast(s);
    } else {
      RoundTrip(chunks[1..], s);
      DecodeChunk(chunks[0], Encode(chunks[1..]) + s);
      assert Encode(chunks) + s == Chunk(chunks[0]) + (Encode(chunks[1..]) + s);
    }
  }

  ghost function Body(chunks: seq<bytes>): bytes {
    if chunks == [] then [] else Chunk(chunks[0]) + Body(chunks[1..])
  }

  lemma {:induction false} EncodeIsBody(chunks: seq<bytes>)
    ensures Encode(chunks) == Body(chunks) + LAST_CHUNK
  {
    if chunks != [] {
      EncodeIsBody(chunks[1..]);
      assert Encode(chunks) == Chunk(chunks[0]) + Body(chunks[1..]) + LAST_CHUNK;
    }
  }

  lemma {:induction false} BodySplits(chunks: seq<bytes>, c: bytes)
    ensures Body(chunks + [c]) == Body(chunks) + Chunk(c)
  {
    if chunks == [] {
      assert (chunks + [c])[1..] == [];
    } else {
      BodySplits(chunks[1..], c);
      assert (chunks + [c])[1..] == chunks[1..] + [c];
      Associative(Chunk(chunks[0]), Body(chunks[1..]), Chunk(c));
    }
  }

  // ---------- the kernel ----------

  /** How many bytes the kernel moves when asked for `max` of `available`, both positive: any
      number from one up, picked by `wish`. Nothing is moved only at the end of the source. */
  function Moved(wish: nat, max: nat, available: nat): (n: nat)
    ensures n <= max && n <= available
    ensures max > 0 && available > 0 ==> n > 0
  {
    var most := Min(max, available);
    if most == 0 then 0 else 1 + wish % most
  }

  /** Send exactly `data`, in as many calls as the kernel cares to use: the partial splices of
      a chunk, and `splice_chunks_write`. */
  method SendAll(data: bytes, wishes: nat -> nat, call0: nat) returns (out: bytes, call: nat)
    ensures out == data
  {
    out, call := [], call0;
    var left: nat := |data|;
    while left > 0
      invariant left <= |data| && out == data[..|data| - left]
    {
      var n := Moved(wishes(call), left, left);
      out := out + data[|data| - left..|data| - left + n];
      call := call + 1;
      left := left - n;
    }
  }

  /** The chunks taken so far, and the rest of the source. */
  ghost predicate Split(source: bytes, maxlen: nat, chunks: seq<bytes>, rest: bytes) {
    && NonEmpty(chunks) && (forall c :: c in chunks ==> |c| <= maxlen)
    && Concat(chunks) + rest == source
  }

  lemma SplitMore(source: bytes, maxlen: nat, chunks: seq<bytes>, rest: bytes, n: nat)
    requires Split(source, maxlen, chunks, rest) && 0 < n <= maxlen && n <= |rest|
    ensures Split(source, maxlen, chunks + [rest[..n]], rest[n..])
  {
    var data := rest[..n];
    ConcatSplits(chunks, [data]);
    assert Concat([data]) == data + [] == data;
    assert rest == data + rest[n..];
    assert Concat(chunks) + rest == Concat(chunks) + data + rest[n..];
  }

  lemma WholeMessage(source: bytes, maxlen: nat, chunks: seq<bytes>)
    requires Split(source, maxlen, chunks, [])
    ensures Encode(chunks) == Body(chunks) + LAST_CHUNK && Decode(Encode(chunks)) == Some((source, []))
  {
    EncodeIsBody(chunks);
    RoundTrip(chunks, []);
    assert Encode(chunks) + [] == Encode(chunks) && Concat(chunks) + [] == Concat(chunks);
  }

  lemma ChunkWritten(written: bytes, buffer: bytes, data: bytes)
    ensures written + (buffer + Hex(|data|) + CRLF) + data + CRLF == written + buffer + Chunk(data)
  {
    var h := Hex(|data|);
    Associative(buffer, h, CRLF);
    Associative(written, buffer, h + CRLF);
    Associative(written + buffer, h + CRLF, data);
    Associative(written + buffer, h + CRLF + data, CRLF);
  }

  /** `IO_http1_splice_chunked`. The end of a chunk is kept in `out` (128 bytes) and written
      together with the header of the next one. */
  method SpliceChunked(source: bytes, maxlen: nat, wishes: nat -> nat)
    returns (written: bytes, ghost chunks: seq<bytes>)
    requires 0 < maxlen < 0x8000_0000
    ensures Split(source, maxlen, chunks, []) && written == Encode(chunks)
    ensures Decode(written) == Some((source, []))
  {
    var src, call, buffer := source, 0, [];
    written, chunks := [], [];
    while true
      invariant |buffer| <= 2 && Split(source, maxlen, chunks, src)
      invariant written + buffer == Body(chunks)
      decreases |src|
    {
      var len := Moved(wishes(call), maxlen, |src|);
      call := call + 1;
      if len == 0 { break; }
      var data := src[..len];
      HexIsShort(len, 8, Power16(8));
      ghost var before, held := written, buffer;
      buffer := buffer + Hex(len) + CRLF;
      assert |buffer| <= 128;
      written := written + buffer;
      var out;
      out, call := SendAll(data, wishes, call);
      written := written + out;
      buffer := CRLF;
      ChunkWritten(before, held, data);
      BodySplits(chunks, data);
      SplitMore(source, maxlen, chunks, src, len);
      src, chunks := src[len..], chunks + [data];
    }
    Associative(written, buffer, LAST_CHUNK);
    buffer := buffer + LAST_CHUNK;
    assert |buffer| <= 128;
    written := written + buffer;
    WholeMessage(source, maxlen, chunks);
  }

  // ---------- the general form ----------

  /** What is written around each chunk: nothing, a string, or what a proc makes of its length. */
  datatype Affix = Nothing | Text(text: bytes) | Made(make: nat -> bytes)

  function AffixFor(a: Affix, len: nat): bytes {
    match a case Nothing => [] case Text(t) => t case Made(f) => f(len)
  }

  function OrNothing(o: Option<bytes>): bytes { if o.Some? then o.value else [] }

  ghost function Framed(before: Affix, after: Affix, chunks: seq<bytes>): bytes {
    if chunks == [] then [] else
      var n := |chunks| - 1;
      Framed(before, after, chunks[..n]) + Frame(before, after, chunks[n])
  }

  ghost function Frame(before: Affix, after: Affix, data: bytes): bytes {
    AffixFor(before, |data|) + data + AffixFor(after, |data|)
  }

  /** One chunk with what goes around it. */
  method SendFrame(data: bytes, before: Affix, after: Affix, wishes: nat -> nat, call0: nat)
    returns (out: bytes, call: nat)
    ensures out == Frame(before, after, data)
  {
    var prefix, body, postfix;
    prefix, call := SendAll(AffixFor(before, |data|), wishes, call0);
    body, call := SendAll(data, wishes, call);
    postfix, call := SendAll(AffixFor(after, |data|), wishes, call);
    out := prefix + body + postfix;
  }

  /** `Backend_splice_chunks`. */
  method SpliceChunks(
    source: bytes, prefix: Option<bytes>, postfix: Option<bytes>, before: Affix, after: Affix,
    maxlen: nat, wishes: nat -> nat)
    returns (written: bytes, total: nat, ghost chunks: seq<bytes>)
    requires maxlen > 0
    ensures Split(source, maxlen, chunks, []) && total == |source|
    ensures written == OrNothing(prefix) + Framed(before, after, chunks) + OrNothing(postfix)
  {
    var src, call, out := source, 0, [];
    chunks, total := [], 0;
    written, call := SendAll(OrNothing(prefix), wishes, call);
    while true
      invariant Split(source, maxlen, chunks, src) && total + |src| == |source|
      invariant written == OrNothing(prefix) + Framed(before, after, chunks)
      decreases |src|
    {
      var len := Moved(wishes(call), maxlen, |src|);
      call := call + 1;
      if len == 0 { break; }
      total := total + len;
      out, call := SendFrame(src[..len], before, after, wishes, call);
      Associative(OrNothing(prefix), Framed(before, after, chunks), out);
      written := written + out;
      SplitMore(source, maxlen, chunks, src, len);
      FramedMore(before, after, chunks, src[..len]);
      src, chunks := src[len..], chunks + [src[..len]];
    }
    out, call := SendAll(OrNothing(postfix), wishes, call);
    written := written + out;
  }

  lemma FramedMore(before: Affix, after: Affix, chunks: seq<bytes>, c: bytes)
    ensures Framed(before, after, chunks + [c]) ==
      Framed(before, after, chunks) + Frame(before, after, c)
  {
    assert (chunks + [c])[..|chunks|] == chunks;
  }

  const SIZE_AFFIX := Made((n: nat) => Hex(n) + CRLF)

  /** With a size line before and a line break after each chunk, and the last chunk at the end,
      the general form writes the same bytes for the same split. */
  lemma {:induction false} SameBytes(chunks: seq<bytes>)
    ensures Framed(SIZE_AFFIX, Text(CRLF), chunks) + LAST_CHUNK == Encode(chunks)
  {
    EncodeIsBody(chunks);
    FramedIsBody(chunks);
  }

  lemma {:induction false} FramedIsBody(chunks: seq<bytes>)
    ensures Framed(SIZE_AFFIX, Text(CRLF), chunks) == Body(chunks)
  {
    if chunks != [] {
      var n := |chunks| - 1;
      FramedIsBody(chunks[..n]);
      BodySplits(chunks[..n], chunks[n]);
      assert chunks == chunks[..n] + [chunks[n]];
      assert Frame(SIZE_AFFIX, Text(CRLF), chunks[n]) == Chunk(chunks[n]);
    }
  }
}
