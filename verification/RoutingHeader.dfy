/**
 * The binary routing headers: the basic format, the extended format, and the length-prefixed frame that
 * carries an extended header before a payload. Strings are their UTF-8 bytes.
 */
module RoutingHeader {
  import opened Numbers
  import opened Wrappers

  type Byte = x: int | 0 <= x < 256
  type Bytes = seq<Byte>

  const TWO32: int := 0x1_0000_0000
  const TWO64: int := 0x1_0000_0000_0000_0000

  // Headers

  datatype BasicHeader = BasicHeader(
    schemaType: Bytes, destinationPeers: seq<Bytes>, ttl: int, priority: int, encrypted: bool,
    sessionKeyId: Option<Bytes>)

  datatype Header = Header(
    basic: BasicHeader, encryptionMode: int, sourcePeer: Option<Bytes>, sequence: Option<Number>, timestamp: Number,
    topicOverride: Option<Bytes>, streamMode: Option<int>)

  /** An optional string is sent only when it is given and not empty. */
  predicate Present(s: Option<Bytes>) {
    s.Some? && s.value != []
  }

  function Clamp(n: int): Byte {
    if n < 0 then 0 else if n > 255 then 255 else n
  }

  // Flag byte: bits 0 to 3 are flags, bits 5 and 6 the encryption mode

  function Flags(encrypted: bool, session: bool, source: bool, topic: bool, mode: int): Byte {
    (if encrypted then 1 else 0) + (if session then 2 else 0) + (if source then 4 else 0) + (if topic then 8 else 0)
    + 32 * (mode % 4)
  }

  predicate HasFlag(flags: Byte, weight: nat)
    requires weight > 0
  {
    flags / weight % 2 == 1
  }

  function ModeOf(flags: Byte): int {
    flags / 32 % 4
  }

  /** The flag byte as the source computes it, from the low byte of the mode. */
  function MaskedFlags(encrypted: bool, session: bool, source: bool, topic: bool, mode: Byte): Byte {
    var bits: bv8 :=
      (if encrypted then 0x01 else 0) | (if session then 0x02 else 0) | (if source then 0x04 else 0) |
      (if topic then 0x08 else 0) | (((mode as bv8) & 0x03) << 5);
    bits as int
  }

  /** The low two bits of a byte are its remainder. */
  lemma MaskIsRemainder(mode: Byte)
    ensures (mode as bv8) & 0x03 == (mode % 4) as bv8
  {
  }

  /** The sum is the disjunction of the masks and the masked, shifted mode. */
  lemma FlagsAreMasks(encrypted: bool, session: bool, source: bool, topic: bool, mode: Byte)
    ensures Flags(encrypted, session, source, topic, mode) == MaskedFlags(encrypted, session, source, topic, mode)
  {
    MaskIsRemainder(mode);
  }

  lemma LowByteRemainder(q: int, r: Byte)
    ensures (256 * q + r) % 4 == r % 4
  {
    var n := 64 * q;
    assert 256 * q + r == 4 * n + r;
  }

  /** Only the low byte of the mode matters, whatever integer the mode is. */
  lemma FlagsOfLowByte(encrypted: bool, session: bool, source: bool, topic: bool, mode: int)
    ensures Flags(encrypted, session, source, topic, mode) == Flags(encrypted, session, source, topic, mode % 256)
  {
    LowByteRemainder(mode / 256, mode % 256);
  }

  /** The tests are the masked ones. */
  lemma TestsAreMasked(flags: Byte)
    ensures HasFlag(flags, 1) <==> (flags as bv8) & 0x01 != 0
    ensures HasFlag(flags, 2) <==> (flags as bv8) & 0x02 != 0
    ensures HasFlag(flags, 4) <==> (flags as bv8) & 0x04 != 0
    ensures HasFlag(flags, 8) <==> (flags as bv8) & 0x08 != 0
    ensures ModeOf(flags) == (((flags as bv8) >> 5) & 0x03) as int
  {
  }

  /** The four flags and the two mode bits are read back independently of each other. */
  lemma FlagsIndependent(encrypted: bool, session: bool, source: bool, topic: bool, mode: int)
    ensures var f := Flags(encrypted, session, source, topic, mode);
            && HasFlag(f, 1) == encrypted && HasFlag(f, 2) == session && HasFlag(f, 4) == source
            && HasFlag(f, 8) == topic && ModeOf(f) == mode % 4
  {
  }

  // Writing. Each writer takes the bytes that follow, so that the encoding reads in field order.

  /** A length byte, which keeps only the low eight bits of the length, and the bytes. */
  function PutString(s: Bytes, tail: Bytes): Bytes {
    [|s| % 256] + (s + tail)
  }

  function PutStrings(ss: seq<Bytes>, tail: Bytes): Bytes {
    if ss == [] then tail else PutString(ss[0], PutStrings(ss[1..], tail))
  }

  function PutOptional(s: Option<Bytes>, tail: Bytes): Bytes {
    if Present(s) then PutString(s.value, tail) else tail
  }

  function U32(n: int): (b: Bytes)
    ensures |b| == 4
  {
    var w0 := n % TWO32;
    var w1 := w0 / 256;
    var w2 := w1 / 256;
    var w3 := w2 / 256;
    [w3, w2 % 256, w1 % 256, w0 % 256]
  }

  /** The high word is the floor of the quotient; both words are stored modulo 2^32. */
  function U64(n: int): (b: Bytes)
    ensures |b| == 8
  {
    U32(n / TWO32) + U32(n)
  }

  /** What both formats share, ending in the optional session key. */
  function PutBasic(b: BasicHeader, flags: Byte, tail: Bytes): Bytes {
    PutString(b.schemaType, PutPeers(b, flags, tail))
  }

  function PutPeers(b: BasicHeader, flags: Byte, tail: Bytes): Bytes {
    [|b.destinationPeers| % 256] + PutStrings(b.destinationPeers, PutRest(b, flags, tail))
  }

  function PutRest(b: BasicHeader, flags: Byte, tail: Bytes): Bytes {
    [Clamp(b.ttl), Clamp(b.priority), flags] + PutOptional(b.sessionKeyId, tail)
  }

  function BasicFlags(b: BasicHeader): Byte {
    Flags(b.encrypted, Present(b.sessionKeyId), false, false, 0)
  }

  function EncodeBasic(b: BasicHeader): Bytes {
    PutBasic(b, BasicFlags(b), [])
  }

  function ExtendedFlags(h: Header): Byte {
    Flags(h.basic.encrypted, Present(h.basic.sessionKeyId), Present(h.sourcePeer), Present(h.topicOverride),
          h.encryptionMode)
  }

  function SequenceOf(h: Header): Number {
    if h.sequence.Some? then h.sequence.value else 0
  }

  function PutExtension(h: Header, tail: Bytes): Bytes {
    PutOptional(h.sourcePeer, PutOptional(h.topicOverride, U64(SequenceOf(h)) + (U64(h.timestamp) + tail)))
  }

  function Encode(h: Header): Bytes {
    PutBasic(h.basic, ExtendedFlags(h), PutExtension(h, []))
  }

  // Reading. Each reader returns what it read and the bytes that are left.

  function GetString(d: Bytes): (r: Option<(Bytes, Bytes)>)
    ensures r.Some? ==> |r.value.0| < 256
  {
    if |d| == 0 || 1 + d[0] > |d| then None else Some((d[1..1 + d[0]], d[1 + d[0]..]))
  }

  function GetStrings(d: Bytes, n: nat): (r: Option<(seq<Bytes>, Bytes)>)
    ensures r.Some? ==> |r.value.0| == n && Short(r.value.0)
  {
    if n == 0 then Some(([], d))
    else
      match GetString(d)
      case None => None
      case Some((s, rest)) =>
        match GetStrings(rest, n - 1)
        case None => None
        case Some((ss, rest')) => Some(([s] + ss, rest'))
  }

  /** A truncated optional string is dropped, but its length byte is still consumed. */
  function GetOptional(d: Bytes, present: bool): (r: (Option<Bytes>, Bytes))
    ensures r.0.Some? ==> |r.0.value| < 256
  {
    if !present || d == [] then (None, d)
    else
      match GetString(d)
      case None => (None, d[1..])
      case Some((s, rest)) => (Some(s), rest)
  }

  function GetU32(d: Bytes): (n: int)
    requires |d| >= 4
    ensures 0 <= n < TWO32
  {
    var (b0: int, b1: int, b2: int, b3: int) := (d[0], d[1], d[2], d[3]);
    b0 * 0x100_0000 + b1 * 0x1_0000 + b2 * 0x100 + b3
  }

  function GetU64(d: Bytes): (n: int)
    requires |d| >= 8
    ensures 0 <= n < TWO64
  {
    GetU32(d) * TWO32 + GetU32(d[4..])
  }

  /** The two words as one number: the sum of the words, rounded to floating point. */
  function GetNumber(d: Bytes): (n: Number)
    requires |d| >= 8
    ensures 0 <= n <= TWO64
  {
    RoundRestIsNumber(GetU64(d), Zero);
    TWO64IsNumber();
    RoundStaysBetween(GetU64(d), Zero, TWO64);
    Round(GetU64(d))
  }

  lemma TWO64IsNumber()
    ensures IsNumber(TWO64)
  {
    assert HasShortForm(0x1_0000_0000_0000_0000);
  }

  /** The shared part: the header, the flag byte and the bytes after the session key. */
  function GetBasic(d: Bytes): Option<(BasicHeader, Byte, Bytes)> {
    if |d| < 5 then None
    else
      match GetString(d)
      case None => None
      case Some((schema, rest)) => GetPeers(schema, rest)
  }

  function GetPeers(schema: Bytes, d: Bytes): Option<(BasicHeader, Byte, Bytes)> {
    if d == [] then None
    else
      match GetStrings(d[1..], d[0])
      case None => None
      case Some((peers, rest)) => if |rest| < 3 then None else GetRest(schema, peers, rest)
  }

  function GetRest(schema: Bytes, peers: seq<Bytes>, d: Bytes): Option<(BasicHeader, Byte, Bytes)>
    requires |d| >= 3
  {
    var flags := d[2];
    var (session, rest) := GetOptional(d[3..], HasFlag(flags, 2));
    Some((BasicHeader(schema, peers, d[0], d[1], HasFlag(flags, 1), session), flags, rest))
  }

  function DecodeBasic(d: Bytes): Option<BasicHeader> {
    match GetBasic(d)
    case None => None
    case Some((basic, _, _)) => Some(basic)
  }

  function GetExtension(basic: BasicHeader, flags: Byte, d: Bytes): Header {
    var (source, d1) := GetOptional(d, HasFlag(flags, 4));
    var (topic, d2) := GetOptional(d1, HasFlag(flags, 8));
    if |d2| >= 16 then
      Header(basic, ModeOf(flags), source, Some(GetNumber(d2)), GetNumber(d2[8..]), topic, None)
    else
      Header(basic, ModeOf(flags), source, None, 0, topic, None)
  }

  function Decode(d: Bytes): Option<Header> {
    match GetBasic(d)
    case None => None
    case Some((basic, flags, rest)) => Some(GetExtension(basic, flags, rest))
  }

  // What survives the wire

  predicate Short(ss: seq<Bytes>) {
    forall i :: 0 <= i < |ss| ==> |ss[i]| < 256
  }

  predicate FitsBasic(b: BasicHeader) {
    && |b.schemaType| < 256 && |b.destinationPeers| < 256 && Short(b.destinationPeers)
    && (b.sessionKeyId.Some? ==> |b.sessionKeyId.value| < 256)
  }

  predicate FitsStrings(h: Header) {
    && FitsBasic(h.basic)
    && (h.sourcePeer.Some? ==> |h.sourcePeer.value| < 256)
    && (h.topicOverride.Some? ==> |h.topicOverride.value| < 256)
  }

  predicate Fits(h: Header) {
    FitsStrings(h) && 0 <= SequenceOf(h) < TWO64 && 0 <= h.timestamp < TWO64
  }

  function NormaliseOptional(s: Option<Bytes>): Option<Bytes> {
    if Present(s) then s else None
  }

  function NormaliseBasic(b: BasicHeader): BasicHeader {
    b.(ttl := Clamp(b.ttl), priority := Clamp(b.priority), sessionKeyId := NormaliseOptional(b.sessionKeyId))
  }

  /** The header a receiver sees: clamped, without empty strings, with a sequence and without a stream mode. */
  function Normalise(h: Header): Header {
    Header(NormaliseBasic(h.basic), h.encryptionMode % 4, NormaliseOptional(h.sourcePeer), Some(SequenceOf(h)),
           h.timestamp, NormaliseOptional(h.topicOverride), None)
  }

  lemma NormaliseIdempotent(h: Header)
    ensures Normalise(Normalise(h)) == Normalise(h)
    ensures Encode(Normalise(h)) == Encode(h)
  {
  }

  // Reading undoes writing

  lemma GetPutString(s: Bytes, tail: Bytes)
    requires |s| < 256
    ensures GetString(PutString(s, tail)) == Some((s, tail))
  {
    var d := PutString(s, tail);
    assert d[1..1 + |s|] == s && d[1 + |s|..] == tail;
  }

  lemma {:induction false} GetPutStrings(ss: seq<Bytes>, tail: Bytes)
    requires Short(ss)
    ensures GetStrings(PutStrings(ss, tail), |ss|) == Some((ss, tail))
  {
    if ss == [] {
    } else {
      GetPutString(ss[0], PutStrings(ss[1..], tail));
      GetPutStrings(ss[1..], tail);
      assert ss == [ss[0]] + ss[1..];
    }
  }

  lemma GetPutOptional(s: Option<Bytes>, tail: Bytes)
    requires s.Some? ==> |s.value| < 256
    ensures GetOptional(PutOptional(s, tail), Present(s)) == (NormaliseOptional(s), tail)
  {
    if Present(s) {
      GetPutString(s.value, tail);
    }
  }

  lemma GetPutU32(n: int, tail: Bytes)
    ensures GetU32(U32(n) + tail) == n % TWO32
  {
  }

  lemma GetPutU64(n: int, tail: Bytes)
    ensures GetU64(U64(n) + tail) == n % TWO64
  {
    GetPutU32(n / TWO32, U32(n) + tail);
    GetPutU32(n, tail);
    assert U64(n) + tail == U32(n / TWO32) + (U32(n) + tail);
    assert (U64(n) + tail)[4..] == U32(n) + tail;
    SplitWords(n);
  }

  lemma SplitWords(n: int)
    ensures n / TWO32 % TWO32 * TWO32 + n % TWO32 == n % TWO64
  {
    var q := n / TWO32;
    assert n == q / TWO32 * TWO64 + (q % TWO32 * TWO32 + n % TWO32);
  }

  /** A number comes back from its two words exactly when it lies in [0, 2^64). */
  lemma GetPutNumber(n: Number, tail: Bytes)
    ensures GetNumber(U64(n) + tail) == n <==> 0 <= n < TWO64
  {
    var d := U64(n) + tail;
    GetPutU64(n, tail);
    if 0 <= n < TWO64 {
      assert GetU64(d) == n;
      NumberStays(n);
    } else if n == TWO64 {
      assert GetU64(d) == 0;
    } else {
      assert 0 <= GetNumber(d) <= TWO64;
    }
  }

  lemma GetPutRest(b: BasicHeader, flags: Byte, tail: Bytes)
    requires FitsBasic(b)
    requires HasFlag(flags, 1) == b.encrypted && HasFlag(flags, 2) == Present(b.sessionKeyId)
    ensures GetRest(b.schemaType, b.destinationPeers, PutRest(b, flags, tail)) == Some((NormaliseBasic(b), flags, tail))
  {
    assert PutRest(b, flags, tail)[3..] == PutOptional(b.sessionKeyId, tail);
    GetPutOptional(b.sessionKeyId, tail);
  }

  lemma GetPutPeers(b: BasicHeader, flags: Byte, tail: Bytes)
    requires FitsBasic(b)
    requires HasFlag(flags, 1) == b.encrypted && HasFlag(flags, 2) == Present(b.sessionKeyId)
    ensures GetPeers(b.schemaType, PutPeers(b, flags, tail)) == Some((NormaliseBasic(b), flags, tail))
  {
    var d := PutPeers(b, flags, tail);
    assert d[1..] == PutStrings(b.destinationPeers, PutRest(b, flags, tail));
    GetPutStrings(b.destinationPeers, PutRest(b, flags, tail));
    GetPutRest(b, flags, tail);
  }

  lemma GetPutBasic(b: BasicHeader, flags: Byte, tail: Bytes)
    requires FitsBasic(b)
    requires HasFlag(flags, 1) == b.encrypted && HasFlag(flags, 2) == Present(b.sessionKeyId)
    ensures GetBasic(PutBasic(b, flags, tail)) == Some((NormaliseBasic(b), flags, tail))
  {
    PutBasicLength(b, flags, tail);
    GetPutString(b.schemaType, PutPeers(b, flags, tail));
    GetPutPeers(b, flags, tail);
  }

  // Sizes

  function StringsSize(ss: seq<Bytes>): nat {
    if ss == [] then 0 else 1 + |ss[0]| + StringsSize(ss[1..])
  }

  function OptionalSize(s: Option<Bytes>): nat {
    if s.Some? && s.value != [] then 1 + |s.value| else 0
  }

  /** The buffer size that the serializer computes up front. */
  function BasicSize(b: BasicHeader): nat {
    1 + |b.schemaType| + 1 + StringsSize(b.destinationPeers) + 3 + OptionalSize(b.sessionKeyId)
  }

  function Size(h: Header): nat {
    BasicSize(h.basic) + OptionalSize(h.sourcePeer) + OptionalSize(h.topicOverride) + 16
  }

  lemma {:induction false} PutStringsLength(ss: seq<Bytes>, tail: Bytes)
    ensures |PutStrings(ss, tail)| == StringsSize(ss) + |tail|
  {
    if ss == [] {
    } else {
      PutStringsLength(ss[1..], tail);
    }
  }

  lemma PutBasicLength(b: BasicHeader, flags: Byte, tail: Bytes)
    ensures |PutBasic(b, flags, tail)| == BasicSize(b) + |tail|
  {
    PutStringsLength(b.destinationPeers, PutRest(b, flags, tail));
  }

  lemma EncodeLength(h: Header)
    ensures |Encode(h)| == Size(h)
  {
    PutBasicLength(h.basic, ExtendedFlags(h), PutExtension(h, []));
  }

  // The layout, byte by byte

  /** A string lies at an offset: its length modulo 256, then its bytes. */
  predicate StringAt(e: Bytes, off: nat, s: Bytes) {
    off + 1 + |s| <= |e| && e[off] == |s| % 256 && e[off + 1..off + 1 + |s|] == s
  }

  /** The integer itself where a byte can hold it, and else the nearer end of the range. */
  predicate ByteOf(b: Byte, n: int) {
    (0 <= n <= 255 ==> b == n) && (n < 0 ==> b == 0) && (n > 255 ==> b == 255)
  }

  function Pow256(k: nat): nat {
    if k == 0 then 1 else 256 * Pow256(k - 1)
  }

  /** The eight bytes from an offset are an integer, most significant byte first. */
  ghost predicate BigEndianAt(e: Bytes, off: nat, n: int) {
    off + 8 <= |e| && forall k :: 0 <= k < 8 ==> e[off + 7 - k] == DigitOf(n, k)
  }

  function DigitOf(n: int, k: nat): int {
    Pow256Positive(k);
    n / Pow256(k) % 256
  }

  lemma {:induction false} Pow256Positive(k: nat)
    ensures Pow256(k) > 0
  {
    if k == 0 {
    } else {
      Pow256Positive(k - 1);
    }
  }

  /** Where the fields after the destinations begin. */
  function TtlOffset(b: BasicHeader): nat {
    2 + |b.schemaType| + StringsSize(b.destinationPeers)
  }

  /** The bytes from the time to live to the session key. */
  ghost predicate RestLayout(e: Bytes, off: nat, b: BasicHeader, flags: int) {
    && off + 3 <= |e|
    && ByteOf(e[off], b.ttl) && ByteOf(e[off + 1], b.priority) && e[off + 2] == flags
    && (b.sessionKeyId.Some? && b.sessionKeyId.value != [] ==> StringAt(e, off + 3, b.sessionKeyId.value))
  }

  /** The fields that both formats share, with `flags` as the flag byte. */
  ghost predicate SharedLayout(e: Bytes, b: BasicHeader, flags: int) {
    && StringAt(e, 0, b.schemaType)
    && 1 + |b.schemaType| < |e| && e[1 + |b.schemaType|] == |b.destinationPeers| % 256
    && (forall i :: 0 <= i < |b.destinationPeers| ==>
          StringAt(e, 2 + |b.schemaType| + StringsSize(b.destinationPeers[..i]), b.destinationPeers[i]))
    && RestLayout(e, TtlOffset(b), b, flags)
  }

  /** The weights of the flags for strings that are sent. */
  function Weight(s: Option<Bytes>, weight: nat): nat {
    if s.Some? && s.value != [] then weight else 0
  }

  lemma U32Of(q: int, a: Byte, b: Byte, c: Byte, d: Byte)
    ensures U32(q * TWO32 + (a * 0x100_0000 + b * 0x1_0000 + c * 0x100 + d)) == [a, b, c, d]
  {
    var w: int := a * 0x100_0000 + b * 0x1_0000 + c * 0x100 + d;
    assert 0 <= w < TWO32 && (q * TWO32 + w) % TWO32 == w;
    assert w / 256 == a * 0x1_0000 + b * 0x100 + c;
    assert w / 256 / 256 == a * 0x100 + b;
  }

  lemma U32Digits(n: int)
    ensures U32(n) == [n / 0x100 / 0x100 / 0x100 % 256, n / 0x100 / 0x100 % 256, n / 0x100 % 256, n % 256]
  {
    var n1 := n / 0x100;
    var n2 := n1 / 0x100;
    var n3 := n2 / 0x100;
    U32Of(n3 / 0x100, n3 % 0x100, n2 % 0x100, n1 % 0x100, n % 0x100);
  }

  lemma LowDigits(n: int)
    ensures U32(n) == [DigitOf(n, 3), DigitOf(n, 2), DigitOf(n, 1), DigitOf(n, 0)]
  {
    U32Digits(n);
    assert Pow256(2) == 0x1_0000 && Pow256(3) == 0x100_0000;
    assert n / 0x100 / 0x100 == n / 0x1_0000 && n / 0x100 / 0x100 / 0x100 == n / 0x100_0000;
  }

  lemma HighDigits(n: int)
    ensures U32(n / TWO32) == [DigitOf(n, 7), DigitOf(n, 6), DigitOf(n, 5), DigitOf(n, 4)]
  {
    U32Digits(n / TWO32);
    assert Pow256(4) == TWO32 && Pow256(5) == 0x100 * TWO32;
    assert Pow256(6) == 0x1_0000 * TWO32 && Pow256(7) == 0x100_0000 * TWO32;
    assert n / TWO32 / 0x100 == n / (0x100 * TWO32);
    assert n / TWO32 / 0x100 / 0x100 == n / (0x1_0000 * TWO32);
    assert n / TWO32 / 0x100 / 0x100 / 0x100 == n / (0x100_0000 * TWO32);
  }

  lemma U64Digits(n: int, k: nat)
    requires k < 8
    ensures U64(n)[7 - k] == DigitOf(n, k)
  {
    LowDigits(n);
    HighDigits(n);
  }

  lemma StringAtShift(e: Bytes, n: nat, off: nat, s: Bytes)
    requires n <= |e| && StringAt(e[n..], off, s)
    ensures StringAt(e, n + off, s)
  {
    assert e[n..][off + 1..off + 1 + |s|] == e[n + off + 1..n + off + 1 + |s|];
  }

  lemma {:induction false} PutStringsLayout(ss: seq<Bytes>, tail: Bytes, i: nat)
    requires i < |ss|
    ensures StringAt(PutStrings(ss, tail), StringsSize(ss[..i]), ss[i])
  {
    var e := PutStrings(ss, tail);
    if i == 0 {
      assert e[1..1 + |ss[0]|] == ss[0];
    } else {
      PutStringsLayout(ss[1..], tail, i - 1);
      assert e[1 + |ss[0]|..] == PutStrings(ss[1..], tail);
      StringAtShift(e, 1 + |ss[0]|, StringsSize(ss[1..][..i - 1]), ss[i]);
      assert ss[..i][1..] == ss[1..][..i - 1];
    }
  }

  lemma {:induction false} PutStringsTail(ss: seq<Bytes>, tail: Bytes)
    ensures StringsSize(ss) <= |PutStrings(ss, tail)| && PutStrings(ss, tail)[StringsSize(ss)..] == tail
  {
    if ss == [] {
    } else {
      PutStringsTail(ss[1..], tail);
      var e := PutStrings(ss, tail);
      assert e[1 + |ss[0]|..] == PutStrings(ss[1..], tail);
      assert e[1 + |ss[0]|..][StringsSize(ss[1..])..] == e[StringsSize(ss)..];
    }
  }

  lemma PutOptionalLayout(s: Option<Bytes>, tail: Bytes)
    ensures s.Some? && s.value != [] ==> StringAt(PutOptional(s, tail), 0, s.value)
    ensures OptionalSize(s) <= |PutOptional(s, tail)| && PutOptional(s, tail)[OptionalSize(s)..] == tail
  {
    var e := PutOptional(s, tail);
    if s.Some? && s.value != [] {
      assert e[1..1 + |s.value|] == s.value && e[1 + |s.value|..] == tail;
    }
  }

  lemma PutRestLayout(e: Bytes, off: nat, b: BasicHeader, flags: Byte, tail: Bytes)
    requires off <= |e| && e[off..] == PutRest(b, flags, tail)
    ensures RestLayout(e, off, b, flags)
    ensures off + 3 + OptionalSize(b.sessionKeyId) <= |e| && e[off + 3 + OptionalSize(b.sessionKeyId)..] == tail
  {
    var rest := PutRest(b, flags, tail);
    assert e[off] == rest[0] && e[off + 1] == rest[1] && e[off + 2] == rest[2];
    PutOptionalLayout(b.sessionKeyId, tail);
    assert e[off + 3..] == rest[3..] == PutOptional(b.sessionKeyId, tail);
    if b.sessionKeyId.Some? && b.sessionKeyId.value != [] {
      StringAtShift(e, off + 3, 0, b.sessionKeyId.value);
    }
    assert e[off + 3 + OptionalSize(b.sessionKeyId)..] == e[off + 3..][OptionalSize(b.sessionKeyId)..];
  }

  lemma PutPeersLayout(e: Bytes, n: nat, peers: seq<Bytes>, rest: Bytes)
    requires n <= |e| && e[n..] == PutStrings(peers, rest)
    ensures forall i :: 0 <= i < |peers| ==> StringAt(e, n + StringsSize(peers[..i]), peers[i])
    ensures n + StringsSize(peers) <= |e| && e[n + StringsSize(peers)..] == rest
  {
    PutStringsTail(peers, rest);
    assert e[n + StringsSize(peers)..] == e[n..][StringsSize(peers)..];
    forall i | 0 <= i < |peers|
      ensures StringAt(e, n + StringsSize(peers[..i]), peers[i])
    {
      PutStringsLayout(peers, rest, i);
      StringAtShift(e, n, StringsSize(peers[..i]), peers[i]);
    }
  }

  /** The shared writer lays out its fields, and what follows them comes after. */
  lemma PutBasicLayout(b: BasicHeader, flags: Byte, tail: Bytes)
    ensures var e := PutBasic(b, flags, tail);
            SharedLayout(e, b, flags) && |e| == BasicSize(b) + |tail| && e[BasicSize(b)..] == tail
  {
    var e := PutBasic(b, flags, tail);
    PutBasicLength(b, flags, tail);
    SchemaLayout(b, flags, tail);
    PutPeersLayout(e, 2 + |b.schemaType|, b.destinationPeers, PutRest(b, flags, tail));
    PutRestLayout(e, TtlOffset(b), b, flags, tail);
  }

  lemma SchemaLayout(b: BasicHeader, flags: Byte, tail: Bytes)
    ensures var e := PutBasic(b, flags, tail);
            && StringAt(e, 0, b.schemaType) && 1 + |b.schemaType| < |e|
            && e[1 + |b.schemaType|] == |b.destinationPeers| % 256
            && e[2 + |b.schemaType|..] == PutStrings(b.destinationPeers, PutRest(b, flags, tail))
  {
    var e, peers := PutBasic(b, flags, tail), PutPeers(b, flags, tail);
    assert e[1..1 + |b.schemaType|] == b.schemaType && e[1 + |b.schemaType|..] == peers;
    assert e[1 + |b.schemaType|] == peers[0] && e[2 + |b.schemaType|..] == peers[1..];
  }

  /** The basic format, byte by byte. */
  lemma BasicLayout(b: BasicHeader)
    ensures SharedLayout(EncodeBasic(b), b, (if b.encrypted then 1 else 0) + Weight(b.sessionKeyId, 2))
    ensures |EncodeBasic(b)| == TtlOffset(b) + 3 + OptionalSize(b.sessionKeyId)
  {
    PutBasicLayout(b, BasicFlags(b), []);
  }

  /** The optional strings and the two numbers, in their order from an offset on. */
  ghost predicate ExtensionLayout(e: Bytes, off: nat, h: Header) {
    var topic := off + OptionalSize(h.sourcePeer);
    var numbers := topic + OptionalSize(h.topicOverride);
    && |e| == numbers + 16
    && (h.sourcePeer.Some? && h.sourcePeer.value != [] ==> StringAt(e, off, h.sourcePeer.value))
    && (h.topicOverride.Some? && h.topicOverride.value != [] ==> StringAt(e, topic, h.topicOverride.value))
    && BigEndianAt(e, numbers, if h.sequence.Some? then h.sequence.value else 0)
    && BigEndianAt(e, numbers + 8, h.timestamp)
  }

  lemma NumbersLayout(a: int, b: int)
    ensures BigEndianAt(U64(a) + (U64(b) + []), 0, a) && BigEndianAt(U64(a) + (U64(b) + []), 8, b)
  {
    forall k | 0 <= k < 8
      ensures U64(a)[7 - k] == DigitOf(a, k) && U64(b)[7 - k] == DigitOf(b, k)
    {
      U64Digits(a, k);
      U64Digits(b, k);
    }
  }

  lemma BigEndianShift(e: Bytes, n: nat, off: nat, x: int)
    requires n <= |e| && BigEndianAt(e[n..], off, x)
    ensures BigEndianAt(e, n + off, x)
  {
    forall k | 0 <= k < 8
      ensures e[n + off + 7 - k] == DigitOf(x, k)
    {
      assert e[n..][off + 7 - k] == e[n + off + 7 - k];
    }
  }

  lemma PutExtensionLayout(h: Header)
    ensures ExtensionLayout(PutExtension(h, []), 0, h)
  {
    var e := PutExtension(h, []);
    var d2 := U64(SequenceOf(h)) + (U64(h.timestamp) + []);
    var d1 := PutOptional(h.topicOverride, d2);
    var m, n := OptionalSize(h.sourcePeer), OptionalSize(h.topicOverride);
    PutOptionalLayout(h.sourcePeer, d1);
    PutOptionalLayout(h.topicOverride, d2);
    if h.topicOverride.Some? && h.topicOverride.value != [] {
      StringAtShift(e, m, 0, h.topicOverride.value);
    }
    assert e[m + n..] == e[m..][n..] == d2;
    NumbersLayout(SequenceOf(h), h.timestamp);
    BigEndianShift(e, m + n, 0, SequenceOf(h));
    BigEndianShift(e, m + n, 8, h.timestamp);
  }

  lemma ExtensionShift(e: Bytes, n: nat, h: Header)
    requires n <= |e| && ExtensionLayout(e[n..], 0, h)
    ensures ExtensionLayout(e, n, h)
  {
    var m, q := OptionalSize(h.sourcePeer), OptionalSize(h.sourcePeer) + OptionalSize(h.topicOverride);
    if h.sourcePeer.Some? && h.sourcePeer.value != [] {
      StringAtShift(e, n, 0, h.sourcePeer.value);
    }
    if h.topicOverride.Some? && h.topicOverride.value != [] {
      StringAtShift(e, n, m, h.topicOverride.value);
    }
    BigEndianShift(e, n, q, if h.sequence.Some? then h.sequence.value else 0);
    BigEndianShift(e, n, q + 8, h.timestamp);
  }

  /** The extended format, byte by byte. */
  lemma ExtendedLayout(h: Header)
    ensures SharedLayout(Encode(h), h.basic,
                         (if h.basic.encrypted then 1 else 0) + Weight(h.basic.sessionKeyId, 2)
                         + Weight(h.sourcePeer, 4) + Weight(h.topicOverride, 8) + 32 * (h.encryptionMode % 4))
    ensures ExtensionLayout(Encode(h), TtlOffset(h.basic) + 3 + OptionalSize(h.basic.sessionKeyId), h)
  {
    PutBasicLayout(h.basic, ExtendedFlags(h), PutExtension(h, []));
    PutExtensionLayout(h);
    ExtensionShift(Encode(h), BasicSize(h.basic), h);
  }

  // Laws of the two formats

  /** The extended format carries a header, up to normalisation, exactly when the header fits. */
  lemma ExtendedRoundTrip(h: Header)
    ensures Decode(Encode(h)) == Some(Normalise(h)) <==> Fits(h)
  {
    if FitsStrings(h) {
      FlagsIndependent(h.basic.encrypted, Present(h.basic.sessionKeyId), Present(h.sourcePeer),
                       Present(h.topicOverride), h.encryptionMode);
      GetPutBasic(h.basic, ExtendedFlags(h), PutExtension(h, []));
      GetPutExtension(h, NormaliseBasic(h.basic), []);
      GetPutNumber(SequenceOf(h), U64(h.timestamp) + []);
      GetPutNumber(h.timestamp, []);
    } else {
      DecodedFits(Encode(h));
    }
  }

  lemma GetPutExtension(h: Header, basic: BasicHeader, tail: Bytes)
    requires FitsStrings(h)
    ensures GetExtension(basic, ExtendedFlags(h), PutExtension(h, tail))
            == Normalise(h).(basic := basic,
                             sequence := Some(GetNumber(U64(SequenceOf(h)) + (U64(h.timestamp) + tail))),
                             timestamp := GetNumber(U64(h.timestamp) + tail))
  {
    FlagsIndependent(h.basic.encrypted, Present(h.basic.sessionKeyId), Present(h.sourcePeer), Present(h.topicOverride),
                     h.encryptionMode);
    var d2 := U64(SequenceOf(h)) + (U64(h.timestamp) + tail);
    GetPutOptional(h.sourcePeer, PutOptional(h.topicOverride, d2));
    GetPutOptional(h.topicOverride, d2);
    assert d2[8..] == U64(h.timestamp) + tail;
  }

  /**
   * Whatever the bytes, the strings of a decoded header fit its own encoding; its numbers do unless
   * rounding took them up to 2^64.
   */
  lemma DecodedFits(d: Bytes)
    ensures DecodeBasic(d).Some? ==> FitsBasic(DecodeBasic(d).value)
    ensures Decode(d).Some? ==> FitsStrings(Decode(d).value)
    ensures Decode(d).Some? ==>
              (Fits(Decode(d).value) <==> SequenceOf(Decode(d).value) != TWO64 && Decode(d).value.timestamp != TWO64)
  {
  }

  /** Eight bytes of all ones are read as 2^64, which no header can send. */
  lemma AllOnesDoNotFit()
    ensures GetNumber([255, 255, 255, 255, 255, 255, 255, 255]) == TWO64
  {
    var d: Bytes := [255, 255, 255, 255, 255, 255, 255, 255];
    assert GetU64(d) == TWO64 - 1;
    assert AllOnes(0x3FFF_FFFF_FFFF_FFFF);
    OnesRoundUp(0x3FFF_FFFF_FFFF_FFFF);
    assert RoundRest(0x7FFF_FFFF_FFFF_FFFF, Half) == 0x8000_0000_0000_0000;
  }

  lemma BasicRoundTrip(b: BasicHeader)
    ensures DecodeBasic(EncodeBasic(b)) == Some(NormaliseBasic(b)) <==> FitsBasic(b)
  {
    if FitsBasic(b) {
      FlagsIndependent(b.encrypted, Present(b.sessionKeyId), false, false, 0);
      GetPutBasic(b, BasicFlags(b), []);
    } else {
      DecodedFits(EncodeBasic(b));
    }
  }

  /** A basic reader sees the basic part of an extended header. */
  lemma BasicReadsExtended(h: Header)
    ensures DecodeBasic(Encode(h)) == Some(Normalise(h).basic) <==> FitsBasic(h.basic)
  {
    if FitsBasic(h.basic) {
      FlagsIndependent(h.basic.encrypted, Present(h.basic.sessionKeyId), Present(h.sourcePeer),
                       Present(h.topicOverride), h.encryptionMode);
      GetPutBasic(h.basic, ExtendedFlags(h), PutExtension(h, []));
    } else {
      DecodedFits(Encode(h));
    }
  }

  /** An extended reader sees a basic header with mode 0, timestamp 0 and nothing else. */
  lemma ExtendedReadsBasic(b: BasicHeader)
    ensures Decode(EncodeBasic(b)) == Some(Header(NormaliseBasic(b), 0, None, None, 0, None, None)) <==> FitsBasic(b)
  {
    if FitsBasic(b) {
      FlagsIndependent(b.encrypted, Present(b.sessionKeyId), false, false, 0);
      GetPutBasic(b, BasicFlags(b), []);
    } else {
      DecodedFits(EncodeBasic(b));
    }
  }

  // The frame: a two-byte header length, the header, the payload

  function U16(n: int): Bytes {
    [n / 256 % 256, n % 256]
  }

  function GetU16(d: Bytes): (n: nat)
    requires |d| >= 2
    ensures n < 0x1_0000
  {
    var (hi: int, lo: int) := (d[0], d[1]);
    hi * 256 + lo
  }

  function Frame(h: Header, payload: Bytes): Bytes {
    U16(|Encode(h)|) + (Encode(h) + payload)
  }

  /** The header bytes and the payload, when the message is long enough. */
  function SplitMessage(m: Bytes): Option<(Bytes, Bytes)> {
    if |m| < 2 || |m| < 2 + GetU16(m) then None else Some((m[2..2 + GetU16(m)], m[2 + GetU16(m)..]))
  }

  function ParseFrame(m: Bytes): Option<(Header, Bytes)> {
    match SplitMessage(m)
    case None => None
    case Some((e, payload)) =>
      match Decode(e)
      case None => None
      case Some(h) => Some((h, payload))
  }

  /** The frame, byte by byte: the header length most significant byte first, the header, the payload. */
  lemma FrameLayout(h: Header, payload: Bytes)
    ensures var (e, m) := (Encode(h), Frame(h, payload));
            && |m| == 2 + |e| + |payload| && m[0] == |e| / 256 % 256 && m[1] == |e| % 256
            && m[2..2 + |e|] == e && m[2 + |e|..] == payload
  {
  }

  /** A message is refused exactly when it has no length or less than its length says, or a header that is none. */
  lemma RefusedFrames(m: Bytes)
    ensures ParseFrame(m).None? <==>
              || |m| < 2
              || var n := 256 * (m[0] as int) + m[1] as int; |m| < 2 + n || Decode(m[2..2 + n]).None?
  {
  }

  /** On any bytes, the payload is exactly what follows the header bytes that were decoded. */
  lemma PayloadIsSuffix(m: Bytes)
    requires SplitMessage(m).Some?
    ensures var (e, payload) := SplitMessage(m).value; m == U16(|e|) + (e + payload)
  {
    var (hi: int, lo: int) := (m[0], m[1]);
    assert (hi * 256 + lo) / 256 == hi;
    var (e, payload) := SplitMessage(m).value;
    assert m == m[..2] + (e + payload);
  }

  lemma FrameLength(n: nat)
    ensures n / 256 % 256 * 256 + n % 256 == n % 0x1_0000
  {
    var q := n / 256;
    assert n == q / 256 * 0x1_0000 + (q % 256 * 256 + n % 256);
  }

  /** A message splits where it was joined, unless the length overflowed and the payload gained bytes. */
  lemma SplitFrame(e: Bytes, payload: Bytes)
    ensures var r := SplitMessage(U16(|e|) + (e + payload));
            r.Some? && if |e| < 0x1_0000 then r.value == (e, payload) else |r.value.1| > |payload|
  {
    FrameLength(|e|);
    var m := U16(|e|) + (e + payload);
    assert |e| < 0x1_0000 ==> m[2..2 + |e|] == e && m[2 + |e|..] == payload;
  }

  /** A frame gives back its header and payload exactly when the header fits and its length fits two bytes. */
  lemma FrameRoundTrip(h: Header, payload: Bytes)
    ensures ParseFrame(Frame(h, payload)) == Some((Normalise(h), payload)) <==> Fits(h) && Size(h) < 0x1_0000
  {
    EncodeLength(h);
    ExtendedRoundTrip(h);
    SplitFrame(Encode(h), payload);
  }

  lemma {:induction false} UniformSize(ss: seq<Bytes>, n: nat)
    requires forall i :: 0 <= i < |ss| ==> |ss[i]| == n
    ensures StringsSize(ss) == |ss| * (1 + n)
  {
    if ss == [] {
    } else {
      UniformSize(ss[1..], n);
    }
  }

  /** The per-field limits do not keep a frame within its two length bytes. */
  lemma FittingHeaderMayOverflowFrame(payload: Bytes)
    ensures exists h :: Fits(h) && ParseFrame(Frame(h, payload)) != Some((Normalise(h), payload))
  {
    var long: Bytes := seq(255, _ => 0);
    var peers := seq(255, _ => long);
    var h := Header(BasicHeader(long, peers, 0, 0, false, None), 0, None, None, 0, None, None);
    UniformSize(peers, 255);
    assert Fits(h) && Size(h) == 65556;
    FrameRoundTrip(h, payload);
  }

  // The serializer, filling a buffer from a moving offset. What is written and what is left to write
  // always make up the whole encoding.

  method WriteByte(buf: array<Byte>, off: nat, b: Byte, ghost rest: Bytes, ghost total: Bytes) returns (next: nat)
    requires off <= buf.Length == |total| && buf[..off] + ([b] + rest) == total
    modifies buf
    ensures next == off + 1 <= buf.Length && buf[..next] + rest == total
  {
    assert |total| == off + 1 + |rest|;
    buf[off] := b;
    next := off + 1;
    assert buf[..next] == old(buf[..off]) + [b];
  }

  method WriteBytes(buf: array<Byte>, off: nat, s: Bytes, ghost rest: Bytes, ghost total: Bytes) returns (next: nat)
    requires off <= buf.Length == |total| && buf[..off] + (s + rest) == total
    modifies buf
    ensures next == off + |s| <= buf.Length && buf[..next] + rest == total
  {
    assert |total| == off + |s| + |rest|;
    next := off + |s|;
    forall i | 0 <= i < |s| {
      buf[off + i] := s[i];
    }
    assert buf[..next] == old(buf[..off]) + s;
  }

  method WriteString(buf: array<Byte>, off: nat, s: Bytes, ghost rest: Bytes, ghost total: Bytes) returns (next: nat)
    requires off <= buf.Length == |total| && buf[..off] + PutString(s, rest) == total
    modifies buf
    ensures off < next <= buf.Length && buf[..next] + rest == total
  {
    next := WriteByte(buf, off, |s| % 256, s + rest, total);
    next := WriteBytes(buf, next, s, rest, total);
  }

  method WriteOptional(buf: array<Byte>, off: nat, s: Option<Bytes>, ghost rest: Bytes, ghost total: Bytes)
    returns (next: nat)
    requires off <= buf.Length == |total| && buf[..off] + PutOptional(s, rest) == total
    modifies buf
    ensures off <= next <= buf.Length && buf[..next] + rest == total
  {
    next := off;
    if Present(s) {
      next := WriteString(buf, off, s.value, rest, total);
    }
  }

  method WriteBasic(buf: array<Byte>, b: BasicHeader, flags: Byte, ghost rest: Bytes, ghost total: Bytes)
    returns (off: nat)
    requires buf.Length == |total| && PutBasic(b, flags, rest) == total
    modifies buf
    ensures off <= buf.Length && buf[..off] + rest == total
  {
    ghost var d3 := PutOptional(b.sessionKeyId, rest);
    ghost var d2 := PutRest(b, flags, rest);
    ghost var d1 := PutStrings(b.destinationPeers, d2);
    assert buf[..0] + total == total;
    off := WriteString(buf, 0, b.schemaType, [|b.destinationPeers| % 256] + d1, total);
    off := WriteByte(buf, off, |b.destinationPeers| % 256, d1, total);
    assert b.destinationPeers[0..] == b.destinationPeers;
    for i := 0 to |b.destinationPeers|
      invariant off <= buf.Length
      invariant buf[..off] + PutStrings(b.destinationPeers[i..], d2) == total
    {
      assert b.destinationPeers[i..][1..] == b.destinationPeers[i + 1..];
      off := WriteString(buf, off, b.destinationPeers[i], PutStrings(b.destinationPeers[i + 1..], d2), total);
    }
    assert d2 == [Clamp(b.ttl)] + ([Clamp(b.priority)] + ([flags] + d3));
    off := WriteByte(buf, off, Clamp(b.ttl), [Clamp(b.priority)] + ([flags] + d3), total);
    off := WriteByte(buf, off, Clamp(b.priority), [flags] + d3, total);
    off := WriteByte(buf, off, flags, d3, total);
    off := WriteOptional(buf, off, b.sessionKeyId, rest, total);
  }

  method BufferSize(b: BasicHeader) returns (size: nat)
    ensures size == BasicSize(b)
  {
    size := 1 + |b.schemaType| + 1;
    assert b.destinationPeers[0..] == b.destinationPeers;
    for i := 0 to |b.destinationPeers|
      invariant size + StringsSize(b.destinationPeers[i..]) == 2 + |b.schemaType| + StringsSize(b.destinationPeers)
    {
      assert b.destinationPeers[i..][1..] == b.destinationPeers[i + 1..];
      size := size + 1 + |b.destinationPeers[i]|;
    }
    size := size + 3;
    if Present(b.sessionKeyId) {
      size := size + 1 + |b.sessionKeyId.value|;
    }
  }

  method SerializeBasic(b: BasicHeader) returns (out: Bytes)
    ensures out == EncodeBasic(b)
  {
    PutBasicLength(b, BasicFlags(b), []);
    var size := BufferSize(b);
    var buf := new Byte[size];
    var off := WriteBasic(buf, b, BasicFlags(b), [], EncodeBasic(b));
    assert buf[..off] + [] == buf[..off];
    out := buf[..];
  }

  method SerializeExtended(h: Header) returns (out: Bytes)
    ensures out == Encode(h) && |out| == Size(h)
  {
    EncodeLength(h);
    var size := BufferSize(h.basic);
    if Present(h.sourcePeer) {
      size := size + 1 + |h.sourcePeer.value|;
    }
    if Present(h.topicOverride) {
      size := size + 1 + |h.topicOverride.value|;
    }
    size := size + 16;
    var buf := new Byte[size];
    ghost var total := Encode(h);
    ghost var d3 := U64(h.timestamp) + [];
    ghost var d2 := U64(SequenceOf(h)) + d3;
    ghost var d1 := PutOptional(h.topicOverride, d2);
    var off := WriteBasic(buf, h.basic, ExtendedFlags(h), PutExtension(h, []), total);
    off := WriteOptional(buf, off, h.sourcePeer, d1, total);
    off := WriteOptional(buf, off, h.topicOverride, d2, total);
    off := WriteBytes(buf, off, U64(SequenceOf(h)), d3, total);
    off := WriteBytes(buf, off, U64(h.timestamp), [], total);
    assert buf[..off] + [] == buf[..off];
    out := buf[..off];
  }

  // The deserializers, advancing an offset over the data

  method ReadString(d: Bytes, off: nat) returns (s: Option<Bytes>, next: nat)
    requires off <= |d|
    ensures off <= next <= |d|
    ensures match GetString(d[off..])
            case None => s.None? && next == if off < |d| then off + 1 else off
            case Some((v, rest)) => s == Some(v) && rest == d[next..]
  {
    if off >= |d| {
      return None, off;
    }
    var len: int := d[off];
    if off + 1 + len > |d| {
      return None, off + 1;
    }
    s, next := Some(d[off + 1..off + 1 + len]), off + 1 + len;
    assert d[off..][1..1 + len] == s.value && d[off..][1 + len..] == d[next..];
  }

  method ReadOptional(d: Bytes, off: nat, present: bool) returns (s: Option<Bytes>, next: nat)
    requires off <= |d|
    ensures off <= next <= |d|
    ensures (s, d[next..]) == GetOptional(d[off..], present)
  {
    s, next := None, off;
    if present && off < |d| {
      s, next := ReadString(d, off);
    }
  }

  /** Reading one more string after the first `n`. */
  lemma {:induction false} GetStringsNext(d: Bytes, n: nat)
    requires GetStrings(d, n).Some?
    ensures GetStrings(d, n + 1)
            == var (ss, rest) := GetStrings(d, n).value;
               match GetString(rest) case None => None case Some((s, rest')) => Some((ss + [s], rest'))
  {
    if n > 0 {
      var (s, rest) := GetString(d).value;
      GetStringsNext(rest, n - 1);
      var (ss, rest') := GetStrings(rest, n - 1).value;
      if GetString(rest').Some? {
        var last := GetString(rest').value.0;
        assert [s] + (ss + [last]) == ([s] + ss) + [last];
      }
    } else if GetString(d).Some? {
      var (s, rest) := GetString(d).value;
      assert GetStrings(rest, 0) == Some(([], rest));
      assert [s] + [] == [] + [s];
    }
  }

  lemma {:induction false} GetStringsFails(d: Bytes, n: nat, m: nat)
    requires n <= m && GetStrings(d, n).None?
    ensures GetStrings(d, m).None?
  {
    if GetString(d).None? {
    } else {
      GetStringsFails(GetString(d).value.1, n - 1, m - 1);
    }
  }

  method ReadPeers(d: Bytes, start: nat, count: nat) returns (peers: Option<seq<Bytes>>, off: nat)
    requires start <= |d|
    ensures start <= off <= |d|
    ensures match GetStrings(d[start..], count)
            case None => peers.None?
            case Some((ss, rest)) => peers == Some(ss) && rest == d[off..]
  {
    var done: seq<Bytes> := [];
    off := start;
    for i := 0 to count
      invariant start <= off <= |d|
      invariant GetStrings(d[start..], i) == Some((done, d[off..]))
    {
      GetStringsNext(d[start..], i);
      var peer, next := ReadString(d, off);
      if peer.None? {
        GetStringsFails(d[start..], i + 1, count);
        return None, off;
      }
      done, off := done + [peer.value], next;
    }
    peers := Some(done);
  }

  method ReadBasic(d: Bytes) returns (r: Option<(BasicHeader, Byte)>, off: nat)
    ensures off <= |d|
    ensures match GetBasic(d)
            case None => r.None?
            case Some((b, flags, rest)) => r == Some((b, flags)) && rest == d[off..]
  {
    r, off := None, 0;
    if |d| < 5 {
      return;
    }
    assert d[0..] == d;
    var schema;
    schema, off := ReadString(d, 0);
    if schema.None? || off >= |d| {
      return;
    }
    assert d[off..][1..] == d[off + 1..];
    var peers;
    peers, off := ReadPeers(d, off + 1, d[off]);
    if peers.None? || off + 3 > |d| {
      return;
    }
    r, off := ReadRest(d, off, schema.value, peers.value);
  }

  /** The fixed bytes and the session key. */
  method ReadRest(d: Bytes, start: nat, schema: Bytes, peers: seq<Bytes>)
    returns (r: Option<(BasicHeader, Byte)>, off: nat)
    requires start + 3 <= |d|
    ensures off <= |d| && r.Some?
    ensures Some((r.value.0, r.value.1, d[off..])) == GetRest(schema, peers, d[start..])
  {
    var flags := d[start + 2];
    assert d[start..][3..] == d[start + 3..];
    var session;
    session, off := ReadOptional(d, start + 3, HasFlag(flags, 2));
    r := Some((BasicHeader(schema, peers, d[start], d[start + 1], HasFlag(flags, 1), session), flags));
  }

  method DeserializeBasic(d: Bytes) returns (r: Option<BasicHeader>)
    ensures r == DecodeBasic(d)
  {
    var basic, off := ReadBasic(d);
    r := if basic.None? then None else Some(basic.value.0);
  }

  method DeserializeExtended(d: Bytes) returns (r: Option<Header>)
    ensures r == Decode(d)
  {
    var read, off := ReadBasic(d);
    if read.None? {
      return None;
    }
    var (basic, flags) := read.value;
    var source, topic;
    source, off := ReadOptional(d, off, HasFlag(flags, 4));
    topic, off := ReadOptional(d, off, HasFlag(flags, 8));
    var sequence: Option<Number>, timestamp: Number := None, 0;
    if off + 16 <= |d| {
      assert d[off..][8..] == d[off + 8..];
      sequence := Some(GetNumber(d[off..]));
      timestamp := GetNumber(d[off + 8..]);
    }
    r := Some(Header(basic, ModeOf(flags), source, sequence, timestamp, topic, None));
  }
}
