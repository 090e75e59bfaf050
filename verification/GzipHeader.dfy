/** The gzip member header: the writer and the reader, against section 2.3 of RFC 1952. */
module GzipHeader {
  import opened Options
  import opened Bytes

  const MAGIC1: byte := 0x1f
  const MAGIC2: byte := 0x8b
  const METHOD_DEFLATE: byte := 8
  const FLAG_ORIG_NAME := 8
  const FLAG_COMMENT := 16
  const OS_UNIX: byte := 3

  datatype Header = Header(mtime: nat, name: Option<bytes>, comment: Option<bytes>)

  /** The bit of a mask that has one bit set. */
  predicate HasFlag(flags: byte, mask: nat)
    requires mask > 0
  {
    (flags as int / mask) % 2 == 1
  }

  // ---------- 32-bit numbers ----------

  /** `gzfile_set32`: the low 32 bits, lowest byte first. */
  function Set32(n: nat): (r: bytes)
    ensures |r| == 4
  {
    [(n % 256) as byte, (n / 256 % 256) as byte, (n / 65536 % 256) as byte, (n / 16777216 % 256) as byte]
  }

  function Get32(s: bytes): nat
    requires |s| >= 4
  {
    s[0] as int + 256 * s[1] as int + 65536 * s[2] as int + 16777216 * s[3] as int
  }

  lemma Get32Set32(n: nat)
    ensures Get32(Set32(n)) == n % 0x1_0000_0000
  {
    var a, r0 := n / 256, n % 256;
    var b, r1 := a / 256, a % 256;
    var c, r2 := b / 256, b % 256;
    var d, r3 := c / 256, c % 256;
    ThreeQuotients(n, b, c, d, r0 + 256 * r1, r2, r3);
  }

  lemma ThreeQuotients(n: nat, b: nat, c: nat, d: nat, low: nat, r2: nat, r3: nat)
    requires n == 65536 * b + low && low < 65536
    requires b == 256 * c + r2 && r2 < 256 && c == 256 * d + r3 && r3 < 256
    ensures n / 65536 == b && n / 16777216 == c && n % 0x1_0000_0000 == low + 65536 * r2 + 16777216 * r3
  {
    assert n == 16777216 * c + (low + 65536 * r2);
    assert n == 0x1_0000_0000 * d + (low + 65536 * r2 + 16777216 * r3);
  }

  /** A number stored lowest byte first, of any width. */
  ghost function LittleEndian(s: bytes): nat {
    if s == [] then 0 else s[0] as int + 256 * LittleEndian(s[1..])
  }

  lemma Get32IsLittleEndian(s: bytes)
    requires |s| == 4
    ensures Get32(s) == LittleEndian(s)
  {
    assert s[1..][1..] == s[2..] && s[2..][1..] == s[3..] && s[3..][1..] == [];
    assert LittleEndian(s[3..]) == s[3] as int;
    assert LittleEndian(s[2..]) == s[2] as int + 256 * LittleEndian(s[3..]);
    assert LittleEndian(s[1..]) == s[1] as int + 256 * LittleEndian(s[2..]);
  }

  // ---------- the writer ----------

  function Terminated(s: Option<bytes>): bytes {
    match s case None => [] case Some(t) => t + [0]
  }

  function Flags(name: Option<bytes>, comment: Option<bytes>): byte {
    (if name.Some? then 8 else 0) + (if comment.Some? then 16 else 0)
  }

  function Fixed(mtime: nat, flags: byte): (r: bytes)
    ensures |r| == 10
  {
    [MAGIC1, MAGIC2, METHOD_DEFLATE, flags] + Set32(mtime) + [0, OS_UNIX]
  }

  function Encoded(h: Header): bytes {
    Fixed(h.mtime, Flags(h.name, h.comment)) + Terminated(h.name) + Terminated(h.comment)
  }

  /** `write_c_string_from_str` into what is left of the buffer; too long a string is refused. */
  method WriteCString(s: bytes, room: int) returns (r: Option<bytes>, left: int)
    requires room >= 0
    ensures r == if |s| >= room then None else Some(s + [0])
    ensures left == if |s| >= room then room else room - |s| - 1
    ensures left >= 0
  {
    if |s| >= room { return None, room; }
    return Some(s + [0]), room - (|s| + 1);
  }

  /** `gzip_prepare_header`: refused exactly when the header does not fit. */
  method PrepareHeader(h: Header, maxlen: int) returns (r: Option<bytes>)
    requires maxlen >= 10
    ensures r == if |Encoded(h)| <= maxlen then Some(Encoded(h)) else None
  {
    var flags: byte := 0;
    if h.name.Some? { flags := flags + 8; }
    if h.comment.Some? { flags := flags + 16; }
    var buffer, room := Fixed(h.mtime, flags), maxlen - 10;
    if h.name.Some? {
      var w;
      w, room := WriteCString(h.name.value, room);
      if w.None? { return None; }
      buffer := buffer + w.value;
    }
    if h.comment.Some? {
      var w;
      w, room := WriteCString(h.comment.value, room);
      if w.None? { return None; }
      buffer := buffer + w.value;
    }
    assert Fixed(h.mtime, flags) + [] == Fixed(h.mtime, flags) && buffer + [] == buffer;
    assert buffer == Encoded(h);
    return Some(buffer);
  }

  // ---------- the reader ----------

  datatype Read = Found(header: Header, pos: nat) | Invalid

  /** The index of the first zero byte at or after `from`, or the length. */
  function NulAt(s: bytes, from: nat): (k: nat)
    requires from <= |s|
    ensures from <= k <= |s|
    ensures forall i :: from <= i < k ==> s[i] != 0
    ensures k < |s| ==> s[k] == 0
    decreases |s| - from
  {
    if from == |s| || s[from] == 0 then from else NulAt(s, from + 1)
  }

  /** An optional zero-terminated string at `pos`: what it is and where it ends. */
  datatype Field = Field(value: Option<bytes>, pos: nat) | Unterminated

  function FieldAt(s: bytes, present: bool, pos: nat): (f: Field)
    requires pos <= |s|
    ensures f.Field? ==> pos <= f.pos <= |s|
  {
    if !present then Field(None, pos)
    else
      var k := NulAt(s, pos);
      if k == |s| then Unterminated else Field(Some(s[pos..k]), k + 1)
  }

  /** `read_gzip_header_str`. */
  method ReadHeaderString(s: bytes, pos: nat) returns (f: Field)
    requires pos <= |s|
    ensures f == FieldAt(s, true, pos)
  {
    var k := pos;
    while k < |s| && s[k] != 0
      invariant pos <= k <= |s| && NulAt(s, k) == NulAt(s, pos)
    {
      k := k + 1;
    }
    if k == |s| { return Unterminated; }
    return Field(Some(s[pos..k]), k + 1);
  }

  ghost function Parsed(s: bytes): Read
    requires |s| >= 10
  {
    if s[0] != MAGIC1 || s[1] != MAGIC2 || s[2] != METHOD_DEFLATE then Invalid
    else match FieldAt(s, HasFlag(s[3], FLAG_ORIG_NAME), 10)
      case Unterminated => Invalid
      case Field(name, p) =>
        match FieldAt(s, HasFlag(s[3], FLAG_COMMENT), p)
        case Unterminated => Invalid
        case Field(comment, q) => Found(Header(Get32(s[4..8]), name, comment), q)
  }

  /** `gzip_read_header` on a string. */
  method ReadHeader(s: bytes) returns (r: Read)
    requires |s| >= 10
    ensures r == Parsed(s)
  {
    if s[0] != MAGIC1 { return Invalid; }
    if s[1] != MAGIC2 { return Invalid; }
    if s[2] != METHOD_DEFLATE { return Invalid; }
    var flags := s[3];
    var mtime := Get32(s[4..8]);
    var name, comment := Field(None, 10), Field(None, 10);
    if HasFlag(flags, FLAG_ORIG_NAME) {
      name := ReadHeaderString(s, 10);
      if name.Unterminated? { return Invalid; }
    }
    comment := Field(None, name.pos);
    if HasFlag(flags, FLAG_COMMENT) {
      comment := ReadHeaderString(s, name.pos);
      if comment.Unterminated? { return Invalid; }
    }
    return Found(Header(mtime, name.value, comment.value), comment.pos);
  }

  // ---------- reading back what was written ----------

  ghost predicate NulFree(s: Option<bytes>) { s.Some? ==> forall i :: 0 <= i < |s.value| ==> s.value[i] != 0 }

  lemma FieldReadsBack(before: bytes, f: Option<bytes>, after: bytes)
    requires NulFree(f)
    ensures FieldAt(before + Terminated(f) + after, f.Some?, |before|) == Field(f, |before| + |Terminated(f)|)
  {
    if f.Some? {
      var s, k := before + (f.value + [0]) + after, |before| + |f.value|;
      assert s[k] == 0 && s[|before|..k] == f.value;
      forall i | |before| <= i < k ensures s[i] != 0 { assert s[i] == f.value[i - |before|]; }
    }
  }

  lemma FlagsReadBack(name: Option<bytes>, comment: Option<bytes>)
    ensures HasFlag(Flags(name, comment), FLAG_ORIG_NAME) <==> name.Some?
    ensures HasFlag(Flags(name, comment), FLAG_COMMENT) <==> comment.Some?
  {
  }

  lemma FixedReadsBack(mtime: nat, flags: byte, after: bytes)
    ensures var s := Fixed(mtime, flags) + after;
      && s[0] == MAGIC1 && s[1] == MAGIC2 && s[2] == METHOD_DEFLATE && s[3] == flags
      && Get32(s[4..8]) == mtime % 0x1_0000_0000
  {
    var s := Fixed(mtime, flags) + after;
    assert s[4..8] == Set32(mtime);
    Get32Set32(mtime);
  }

  lemma FieldsAreNulFree(s: bytes)
    requires |s| >= 10 && Parsed(s).Found?
    ensures NulFree(Parsed(s).header.name) && NulFree(Parsed(s).header.comment)
  {
  }

  /** The header that was written is read back, up to the payload and no further, exactly when
      the strings hold no zero byte; of the time stamp the low 32 bits are kept. */
  lemma RoundTripIff(h: Header, payload: bytes)
    ensures Parsed(Encoded(h) + payload) == Found(h.(mtime := h.mtime % 0x1_0000_0000), |Encoded(h)|)
      <==> NulFree(h.name) && NulFree(h.comment)
  {
    var s := Encoded(h) + payload;
    var fixed, name, comment := Fixed(h.mtime, Flags(h.name, h.comment)), Terminated(h.name), Terminated(h.comment);
    FixedReadsBack(h.mtime, Flags(h.name, h.comment), name + comment + payload);
    FlagsReadBack(h.name, h.comment);
    assert s == fixed + (name + comment + payload) == fixed + name + (comment + payload);
    if NulFree(h.name) && NulFree(h.comment) {
      FieldReadsBack(fixed, h.name, comment + payload);
      FieldReadsBack(fixed + name, h.comment, payload);
    } else if Parsed(s) == Found(h.(mtime := h.mtime % 0x1_0000_0000), |Encoded(h)|) {
      FieldsAreNulFree(s);
    }
  }

  /** The fixed part of what is written, byte by byte: the two magic numbers, the deflate method,
      the flag bits for a name (3) and a comment (4), the time stamp with its lowest byte first, no
      extra flags, and Unix; then the strings, each with a zero byte after it. */
  lemma WrittenBytes(h: Header)
    ensures var s := Encoded(h);
      && |s| >= 10 && s[0] == 0x1f && s[1] == 0x8b && s[2] == 8
      && s[3] == (if h.name.Some? then 0x08 else 0) + (if h.comment.Some? then 0x10 else 0)
      && LittleEndian(s[4..8]) == h.mtime % 0x1_0000_0000 && s[8] == 0 && s[9] == 3
      && s[10..] == Terminated(h.name) + Terminated(h.comment)
  {
    var rest := Terminated(h.name) + Terminated(h.comment);
    var fixed := Fixed(h.mtime, Flags(h.name, h.comment));
    var s := fixed + rest;
    Associative(fixed, Terminated(h.name), Terminated(h.comment));
    FixedReadsBack(h.mtime, Flags(h.name, h.comment), rest);
    Get32IsLittleEndian(s[4..8]);
    assert fixed[8] == 0 && fixed[9] == 3;
    assert s[10..] == rest;
  }

  // ---------- the standard ----------

  const FHCRC := 2
  const FEXTRA := 4

  predicate ReservedSet(flags: byte) { HasFlag(flags, 32) || HasFlag(flags, 64) || HasFlag(flags, 128) }

  /** Where the extra field ends, if there is one and it is complete. */
  function ExtraEnd(s: bytes): Option<nat>
    requires |s| >= 10
  {
    if !HasFlag(s[3], FEXTRA) then Some(10)
    else if |s| < 12 then None
    else
      var end := 12 + s[10] as int + 256 * s[11] as int;
      if end <= |s| then Some(end) else None
  }

  /** Section 2.3 of RFC 1952: an extra field before the strings, a header checksum after them,
      and no reserved flag set. */
  ghost function Standard(s: bytes): Read
    requires |s| >= 10
  {
    if s[0] != 0x1f || s[1] != 0x8b || s[2] != 8 || ReservedSet(s[3]) then Invalid
    else match ExtraEnd(s)
      case None => Invalid
      case Some(start) =>
        match FieldAt(s, HasFlag(s[3], 0x08), start)
        case Unterminated => Invalid
        case Field(name, p) =>
          match FieldAt(s, HasFlag(s[3], 0x10), p)
          case Unterminated => Invalid
          case Field(comment, q) =>
            var end := q + if HasFlag(s[3], FHCRC) then 2 else 0;
            if end <= |s| then Found(Header(LittleEndian(s[4..8]), name, comment), end) else Invalid
  }

  /** The same string starting later ends later by as much. */
  lemma SameFieldLater(s: bytes, present: bool, p: nat, q: nat)
    requires p <= |s| && q <= |s|
    requires FieldAt(s, present, p).Field? && FieldAt(s, present, q).Field?
    requires FieldAt(s, present, p).value == FieldAt(s, present, q).value
    ensures FieldAt(s, present, q).pos - FieldAt(s, present, p).pos == q - p
  {
    if present {
      assert |s[p..NulAt(s, p)]| == |s[q..NulAt(s, q)]|;
    }
  }

  /** What the reader accepts it reads as the standard says exactly when none of the flags it
      does not look at is set. */
  lemma FollowsStandardIff(s: bytes)
    requires |s| >= 10 && Parsed(s).Found?
    ensures Parsed(s) == Standard(s) <==> !HasFlag(s[3], FHCRC) && !HasFlag(s[3], FEXTRA) && !ReservedSet(s[3])
  {
    Get32IsLittleEndian(s[4..8]);
    if Parsed(s) == Standard(s) {
      var start := ExtraEnd(s).value;
      var named, commented := HasFlag(s[3], FLAG_ORIG_NAME), HasFlag(s[3], FLAG_COMMENT);
      SameFieldLater(s, named, 10, start);
      SameFieldLater(s, commented, FieldAt(s, named, 10).pos, FieldAt(s, named, start).pos);
    }
  }

  /** And what it refuses the standard refuses too, under the same flags. */
  lemma RefusalsFollowStandard(s: bytes)
    requires |s| >= 10 && !HasFlag(s[3], FHCRC) && !HasFlag(s[3], FEXTRA) && !ReservedSet(s[3])
    ensures Parsed(s) == Standard(s)
  {
    Get32IsLittleEndian(s[4..8]);
    assert ExtraEnd(s) == Some(10);
  }
}
