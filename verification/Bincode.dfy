/** Fixed-width integers and the bincode form of the wsocks frame: little-endian integers, u32
    variant tags, u64 lengths.  Decoding returns the value and the bytes behind it. */
module Bincode {
  import opened ByteStreams

  // ---------------------------------------------------------------- integers as bytes

  function Pow256(n: nat): nat { if n == 0 then 1 else 256 * Pow256(n - 1) }

  function LittleEndian(n: nat, v: nat): Bytes {
    if n == 0 then [] else [v % 256] + LittleEndian(n - 1, v / 256)
  }

  function FromLittleEndian(b: Bytes): nat {
    if b == [] then 0 else b[0] + 256 * FromLittleEndian(b[1..])
  }

  function BigEndian(n: nat, v: nat): Bytes {
    if n == 0 then [] else BigEndian(n - 1, v / 256) + [v % 256]
  }

  function FromBigEndian(b: Bytes): nat {
    if b == [] then 0 else 256 * FromBigEndian(b[..|b| - 1]) + b[|b| - 1]
  }

  lemma {:induction false} LittleEndianRoundTrip(n: nat, v: nat)
    ensures |LittleEndian(n, v)| == n
    ensures v < Pow256(n) ==> FromLittleEndian(LittleEndian(n, v)) == v
  {
    if n != 0 {
      LittleEndianRoundTrip(n - 1, v / 256);
      assert LittleEndian(n, v)[1..] == LittleEndian(n - 1, v / 256);
    }
  }

  lemma LowByte(low: Byte, high: nat, bound: nat)
    ensures (low + 256 * high) % 256 == low && (low + 256 * high) / 256 == high
    ensures high < bound ==> low + 256 * high < 256 * bound
  {
  }

  lemma {:induction false} LittleEndianCanonical(b: Bytes)
    ensures FromLittleEndian(b) < Pow256(|b|)
    ensures LittleEndian(|b|, FromLittleEndian(b)) == b
  {
    if b != [] {
      LittleEndianCanonical(b[1..]);
      LowByte(b[0], FromLittleEndian(b[1..]), Pow256(|b| - 1));
    }
  }

  lemma {:induction false} Pow256Positive(n: nat)
    ensures 0 < Pow256(n)
  {
    if n != 0 {
      Pow256Positive(n - 1);
    }
  }

  /** The least significant byte comes first. */
  lemma {:induction false} LittleEndianLayout(n: nat, v: nat, i: nat)
    requires i < n
    ensures |LittleEndian(n, v)| == n && 0 < Pow256(i)
    ensures LittleEndian(n, v)[i] == v / Pow256(i) % 256
    decreases n
  {
    LittleEndianRoundTrip(n, v);
    Pow256Positive(i);
    if i != 0 {
      LittleEndianLayout(n - 1, v / 256, i - 1);
      DivDiv(v, 256, Pow256(i - 1));
    }
  }

  /** The most significant byte comes first. */
  lemma {:induction false} BigEndianLayout(n: nat, v: nat, i: nat)
    requires i < n
    ensures |BigEndian(n, v)| == n && 0 < Pow256(n - 1 - i)
    ensures BigEndian(n, v)[i] == v / Pow256(n - 1 - i) % 256
    decreases n
  {
    BigEndianRoundTrip(n, v);
    BigEndianRoundTrip(n - 1, v / 256);
    Pow256Positive(n - 1 - i);
    if i != n - 1 {
      BigEndianLayout(n - 1, v / 256, i);
      DivDiv(v, 256, Pow256(n - 2 - i));
    }
  }

  lemma {:induction false} BigEndianRoundTrip(n: nat, v: nat)
    ensures |BigEndian(n, v)| == n
    ensures v < Pow256(n) ==> FromBigEndian(BigEndian(n, v)) == v
  {
    if n != 0 {
      BigEndianRoundTrip(n - 1, v / 256);
      assert BigEndian(n, v)[..n - 1] == BigEndian(n - 1, v / 256);
    }
  }

  lemma {:induction false} BigEndianCanonical(b: Bytes)
    ensures FromBigEndian(b) < Pow256(|b|)
    ensures BigEndian(|b|, FromBigEndian(b)) == b
  {
    if b != [] {
      BigEndianCanonical(b[..|b| - 1]);
      LowByte(b[|b| - 1], FromBigEndian(b[..|b| - 1]), Pow256(|b| - 1));
    }
  }

  const U16_MAX: nat := 0xFFFF
  const U32_MAX: nat := 0xFFFF_FFFF
  const U64_MAX: nat := 0xFFFF_FFFF_FFFF_FFFF
  const U128_MAX: nat := 0xFFFF_FFFF_FFFF_FFFF_FFFF_FFFF_FFFF_FFFF

  type U16 = x: int | 0 <= x <= U16_MAX
  type U64 = x: int | 0 <= x <= U64_MAX
  type U128 = x: int | 0 <= x <= U128_MAX

  lemma Widths()
    ensures Pow256(2) == U16_MAX + 1 && Pow256(4) == U32_MAX + 1
    ensures Pow256(8) == U64_MAX + 1 && Pow256(16) == U128_MAX + 1
  {
    assert Pow256(4) == 256 * (256 * Pow256(2));
    assert Pow256(8) == 256 * (256 * (256 * (256 * Pow256(4))));
    assert Pow256(12) == 256 * (256 * (256 * (256 * Pow256(8))));
    assert Pow256(16) == 256 * (256 * (256 * (256 * Pow256(12))));
  }

  // ---------------------------------------------------------------- text

  predicate Continues(b: Byte) { 0x80 <= b <= 0xBF }

  /** Length in bytes of the well-formed character at the front of `s`, or 0 (section 4 of RFC 3629). */
  function CharLength(s: Bytes): (n: nat)
    requires s != []
    ensures n <= |s|
  {
    var a := s[0];
    if a < 0x80 then 1
    else if 0xC2 <= a <= 0xDF then
      if 2 <= |s| && Continues(s[1]) then 2 else 0
    else if 0xE0 <= a <= 0xEF then
      if 3 <= |s| && Continues(s[1]) && Continues(s[2])
         && (a == 0xE0 ==> 0xA0 <= s[1]) && (a == 0xED ==> s[1] <= 0x9F) then 3 else 0
    else if 0xF0 <= a <= 0xF4 then
      if 4 <= |s| && Continues(s[1]) && Continues(s[2]) && Continues(s[3])
         && (a == 0xF0 ==> 0x90 <= s[1]) && (a == 0xF4 ==> s[1] <= 0x8F) then 4 else 0
    else 0
  }

  predicate IsUtf8(s: Bytes)
    decreases |s|
  {
    s == [] || (CharLength(s) != 0 && IsUtf8(s[CharLength(s)..]))
  }

  /** A Unicode scalar value: any code point but a surrogate. */
  predicate Scalar(c: nat) { c < 0xD800 || 0xE000 <= c <= 0x10FFFF }

  function EncodeChar(c: nat): Bytes
    requires Scalar(c)
  {
    if c < 0x80 then [c]
    else if c < 0x800 then [0xC0 + c / 64, 0x80 + c % 64]
    else if c < 0x1_0000 then [0xE0 + c / 4096, 0x80 + c / 64 % 64, 0x80 + c % 64]
    else [0xF0 + c / 262144, 0x80 + c / 4096 % 64, 0x80 + c / 64 % 64, 0x80 + c % 64]
  }

  function EncodeText(cs: seq<nat>): Bytes
    requires forall c :: c in cs ==> Scalar(c)
  {
    if cs == [] then [] else EncodeChar(cs[0]) + EncodeText(cs[1..])
  }

  lemma CharEncoded(c: nat, rest: Bytes)
    requires Scalar(c)
    ensures CharLength(EncodeChar(c) + rest) == |EncodeChar(c)|
  {
    if 0x800 <= c < 0x1_0000 {
      assert c / 4096 == 13 && 0xE000 > c ==> c / 64 % 64 < 32;
      assert c / 4096 == 0 ==> 32 <= c / 64 % 64;
    } else if 0x1_0000 <= c {
      assert c / 262144 == 0 ==> 16 <= c / 4096 % 64;
      assert c / 262144 == 4 ==> c / 4096 % 64 < 16;
    }
  }

  /** Six more bits below `high`. */
  function Below(high: nat, b: Byte): (c: nat)
    requires Continues(b)
    ensures c / 64 == high && 0x80 + c % 64 == b
  {
    var low: int := b;
    64 * high + (low - 0x80)
  }

  lemma CharDecoded(s: Bytes) returns (c: nat)
    requires s != [] && CharLength(s) != 0
    ensures Scalar(c) && EncodeChar(c) == s[..CharLength(s)]
  {
    var n, a: int := CharLength(s), s[0];
    if n == 1 {
      c := a;
    } else if n == 2 {
      c := Below(a - 0xC0, s[1]);
    } else if n == 3 {
      var high := Below(a - 0xE0, s[1]);
      c := Below(high, s[2]);
      assert c / 4096 == high / 64;
    } else {
      var top := Below(a - 0xF0, s[1]);
      var high := Below(top, s[2]);
      c := Below(high, s[3]);
      assert c / 4096 == top && c / 262144 == top / 64;
    }
  }

  /** A byte string is taken for text exactly if it encodes a sequence of scalar values. */
  lemma Utf8Exactly(s: Bytes)
    ensures IsUtf8(s) <==> exists cs: seq<nat> :: (forall c :: c in cs ==> Scalar(c)) && EncodeText(cs) == s
  {
    if IsUtf8(s) {
      var cs := TextDecoded(s);
      assert EncodeText(cs) == s;
    }
    if cs: seq<nat> :| (forall c :: c in cs ==> Scalar(c)) && EncodeText(cs) == s {
      TextEncoded(cs);
    }
  }

  lemma {:induction false} TextDecoded(s: Bytes) returns (cs: seq<nat>)
    requires IsUtf8(s)
    ensures (forall c :: c in cs ==> Scalar(c)) && EncodeText(cs) == s
    decreases |s|
  {
    if s == [] {
      cs := [];
    } else {
      hide CharLength, EncodeChar, Scalar;
      var c := CharDecoded(s);
      var tail := TextDecoded(s[CharLength(s)..]);
      cs := [c] + tail;
      assert cs[1..] == tail;
      assert s == s[..CharLength(s)] + s[CharLength(s)..];
    }
  }

  lemma {:induction false} TextEncoded(cs: seq<nat>)
    requires forall c :: c in cs ==> Scalar(c)
    ensures IsUtf8(EncodeText(cs))
  {
    if cs != [] {
      hide CharLength;
      var head, tail := EncodeChar(cs[0]), EncodeText(cs[1..]);
      TextEncoded(cs[1..]);
      CharEncoded(cs[0], tail);
      assert (head + tail)[|head|..] == tail;
    }
  }

  // ---------------------------------------------------------------- values

  /** A vector, whose length always fits the 64-bit length field. */
  type Blob = s: Bytes | |s| <= U64_MAX

  type Text = s: Bytes | |s| <= U64_MAX && IsUtf8(s)

  datatype NetworkError =
    | ServerFailure
    | ConnectionNotAllowed
    | NetworkUnreachable
    | HostUnreachable
    | ConnectionRefused
    | TtlExpired
    | OtherError(reason: Text)

  datatype OfferError = UnableConnect(error: NetworkError)

  datatype Result<+T, +E> = Success(value: T) | Failure(error: E)

  datatype Protocol =
    | TcpConnect(dst: Text, port: U16)
    | TcpOffer(offer: Result<U128, OfferError>)
    | TcpData(id: U128, payload: Blob)

  datatype Frame = Frame(protocol: Protocol, padding: Blob)

  // ---------------------------------------------------------------- encoding

  function Tag(v: nat): Bytes { LittleEndian(4, v) }

  function EncodeBlob(b: Blob): Bytes { LittleEndian(8, |b|) + b }

  function ErrorTag(e: NetworkError): nat {
    match e
    case ServerFailure => 0
    case ConnectionNotAllowed => 1
    case NetworkUnreachable => 2
    case HostUnreachable => 3
    case ConnectionRefused => 4
    case TtlExpired => 5
    case OtherError(_) => 6
  }

  function EncodeNetworkError(e: NetworkError): Bytes {
    Tag(ErrorTag(e)) + if e.OtherError? then EncodeBlob(e.reason) else []
  }

  function EncodeOffer(o: Result<U128, OfferError>): Bytes {
    match o
    case Success(id) => Tag(0) + LittleEndian(16, id)
    case Failure(UnableConnect(e)) => Tag(1) + (Tag(0) + EncodeNetworkError(e))
  }

  function EncodeProtocol(p: Protocol): Bytes {
    match p
    case TcpConnect(dst, port) => Tag(0) + (EncodeBlob(dst) + LittleEndian(2, port))
    case TcpOffer(offer) => Tag(1) + EncodeOffer(offer)
    case TcpData(id, payload) => Tag(2) + (LittleEndian(16, id) + EncodeBlob(payload))
  }

  function EncodeFrame(f: Frame): Bytes {
    EncodeProtocol(f.protocol) + EncodeBlob(f.padding)
  }

  lemma SmallTag(v: nat)
    requires v < 256
    ensures Tag(v) == [v, 0, 0, 0]
  {
    LittleEndianRoundTrip(4, v);
    assert LittleEndian(4, v) == [v % 256] + LittleEndian(3, 0);
    assert LittleEndian(3, 0) == [0] + LittleEndian(2, 0);
    assert LittleEndian(2, 0) == [0] + LittleEndian(1, 0);
    assert LittleEndian(1, 0) == [0] + LittleEndian(0, 0);
  }

  lemma PortBytes(port: U16)
    ensures LittleEndian(2, port) == [port % 256, port / 256]
  {
    assert LittleEndian(2, port) == [port % 256] + LittleEndian(1, port / 256);
    assert LittleEndian(1, port / 256) == [port / 256 % 256] + LittleEndian(0, port / 256 / 256);
  }

  function InDeclarationOrder(reason: Text): (r: seq<NetworkError>)
    ensures |r| == 7
  {
    [ServerFailure, ConnectionNotAllowed, NetworkUnreachable, HostUnreachable, ConnectionRefused, TtlExpired,
     OtherError(reason)]
  }

  /** Where every field of a connect request and of a data frame stands. */
  lemma ProtocolLayout(p: Protocol)
    ensures p.TcpConnect? ==>
              var e, n := EncodeProtocol(p), |p.dst|;
              && |e| == 14 + n && e[..4] == [0, 0, 0, 0]
              && e[4..12] == LittleEndian(8, n) && e[12..12 + n] == p.dst
              && e[12 + n] == p.port % 256 && e[13 + n] == p.port / 256
    ensures p.TcpData? ==>
              var e, n := EncodeProtocol(p), |p.payload|;
              && |e| == 28 + n && e[..4] == [2, 0, 0, 0] && e[4..20] == LittleEndian(16, p.id)
              && e[20..28] == LittleEndian(8, n) && e[28..] == p.payload
  {
    hide LittleEndian;
    match p {
      case TcpConnect(dst, port) =>
        SmallTag(0);
        PortBytes(port);
        LittleEndianRoundTrip(8, |dst|);
      case TcpData(id, payload) =>
        SmallTag(2);
        LittleEndianRoundTrip(16, id);
        LittleEndianRoundTrip(8, |payload|);
      case TcpOffer(_) =>
    }
  }

  lemma ErrorIndex(reason: Text, i: nat)
    requires i < 7
    ensures ErrorTag(InDeclarationOrder(reason)[i]) == i
    ensures InDeclarationOrder(reason)[i].OtherError? <==> i == 6
    ensures InDeclarationOrder(reason)[6].reason == reason
  {
  }

  /** A grant carries its id. */
  lemma GrantLayout(id: U128)
    ensures EncodeProtocol(TcpOffer(Success(id))) == [1, 0, 0, 0, 0, 0, 0, 0] + LittleEndian(16, id)
  {
    SmallTag(0);
    SmallTag(1);
    hide LittleEndian, Tag;
  }

  /** A denial carries the index of its error in the order of their declaration, and a text if it is
      the last. */
  lemma DenialLayout(reason: Text, i: nat)
    requires i < 7
    ensures EncodeProtocol(TcpOffer(Failure(UnableConnect(InDeclarationOrder(reason)[i]))))
            == ([1, 0, 0, 0] + [1, 0, 0, 0]) + ([0, 0, 0, 0] + [i, 0, 0, 0])
               + if i == 6 then LittleEndian(8, |reason|) + reason else []
  {
    SmallTag(0);
    SmallTag(1);
    SmallTag(i);
    ErrorIndex(reason, i);
    hide LittleEndian, Tag, InDeclarationOrder, ErrorTag;
    var e := EncodeNetworkError(InDeclarationOrder(reason)[i]);
    var text := if i == 6 then LittleEndian(8, |reason|) + reason else [];
    assert e == [i, 0, 0, 0] + text;
    DenialJoins([1, 0, 0, 0], [0, 0, 0, 0], [i, 0, 0, 0], text);
  }

  lemma DenialJoins(one: Bytes, zero: Bytes, tag: Bytes, text: Bytes)
    ensures one + (one + (zero + (tag + text))) == (one + one) + (zero + tag) + text
  {
  }

  /** The padding, behind its length, ends a frame. */
  lemma FrameLayout(f: Frame)
    ensures var e, n := EncodeFrame(f), |EncodeProtocol(f.protocol)|;
            |e| == n + 8 + |f.padding| && e[..n] == EncodeProtocol(f.protocol)
            && e[n..n + 8] == LittleEndian(8, |f.padding|) && e[n + 8..] == f.padding
  {
    LittleEndianRoundTrip(8, |f.padding|);
    hide LittleEndian, EncodeProtocol;
    Parts(EncodeProtocol(f.protocol), LittleEndian(8, |f.padding|), f.padding);
  }

  lemma Parts(a: Bytes, b: Bytes, c: Bytes)
    ensures var s := a + (b + c); s[..|a|] == a && s[|a|..|a| + |b|] == b && s[|a| + |b|..] == c
  {
  }

  // ---------------------------------------------------------------- decoding

  datatype Parse<+T> = Fail | Done(value: T, rest: Bytes)

  function ParseUint(n: nat, s: Bytes): Parse<nat> {
    if |s| < n then Fail else Done(FromLittleEndian(s[..n]), s[n..])
  }

  function ParseU128(s: Bytes): Parse<U128> {
    match ParseUint(16, s)
    case Fail => Fail
    case Done(v, rest) =>
      LittleEndianCanonical(s[..16]); Widths();
      Done(v, rest)
  }

  function ParseU16(s: Bytes): Parse<U16> {
    match ParseUint(2, s)
    case Fail => Fail
    case Done(v, rest) =>
      LittleEndianCanonical(s[..2]); Widths();
      Done(v, rest)
  }

  function ParseBlob(s: Bytes): Parse<Blob> {
    match ParseUint(8, s)
    case Fail => Fail
    case Done(n, rest) =>
      LittleEndianCanonical(s[..8]); Widths();
      if |rest| < n then Fail else Done(rest[..n], rest[n..])
  }

  function ParseText(s: Bytes): Parse<Text> {
    match ParseBlob(s)
    case Fail => Fail
    case Done(b, rest) => if IsUtf8(b) then Done(b, rest) else Fail
  }

  function ParseNetworkError(s: Bytes): Parse<NetworkError> {
    match ParseUint(4, s)
    case Fail => Fail
    case Done(tag, rest) =>
      if tag == 0 then Done(ServerFailure, rest)
      else if tag == 1 then Done(ConnectionNotAllowed, rest)
      else if tag == 2 then Done(NetworkUnreachable, rest)
      else if tag == 3 then Done(HostUnreachable, rest)
      else if tag == 4 then Done(ConnectionRefused, rest)
      else if tag == 5 then Done(TtlExpired, rest)
      else if tag == 6 then
        match ParseText(rest)
        case Fail => Fail
        case Done(t, rest') => Done(OtherError(t), rest')
      else Fail
  }

  function ParseOfferError(s: Bytes): Parse<OfferError> {
    match ParseUint(4, s)
    case Fail => Fail
    case Done(tag, rest) =>
      if tag != 0 then Fail
      else match ParseNetworkError(rest)
        case Fail => Fail
        case Done(e, rest') => Done(UnableConnect(e), rest')
  }

  function ParseOffer(s: Bytes): Parse<Result<U128, OfferError>> {
    match ParseUint(4, s)
    case Fail => Fail
    case Done(tag, rest) =>
      if tag == 0 then
        match ParseU128(rest)
        case Fail => Fail
        case Done(id, rest') => Done(Success(id), rest')
      else if tag == 1 then
        match ParseOfferError(rest)
        case Fail => Fail
        case Done(e, rest') => Done(Failure(e), rest')
      else Fail
  }

  function ParseConnect(s: Bytes): Parse<Protocol> {
    match ParseText(s)
    case Fail => Fail
    case Done(dst, rest) =>
      match ParseU16(rest)
      case Fail => Fail
      case Done(port, rest') => Done(TcpConnect(dst, port), rest')
  }

  function ParseData(s: Bytes): Parse<Protocol> {
    match ParseU128(s)
    case Fail => Fail
    case Done(id, rest) =>
      match ParseBlob(rest)
      case Fail => Fail
      case Done(payload, rest') => Done(TcpData(id, payload), rest')
  }

  function ParseProtocol(s: Bytes): Parse<Protocol> {
    match ParseUint(4, s)
    case Fail => Fail
    case Done(tag, rest) =>
      if tag == 0 then ParseConnect(rest)
      else if tag == 1 then
        match ParseOffer(rest)
        case Fail => Fail
        case Done(o, rest') => Done(TcpOffer(o), rest')
      else if tag == 2 then ParseData(rest)
      else Fail
  }

  function ParseFrame(s: Bytes): Parse<Frame> {
    match ParseProtocol(s)
    case Fail => Fail
    case Done(p, rest) =>
      match ParseBlob(rest)
      case Fail => Fail
      case Done(padding, rest') => Done(Frame(p, padding), rest')
  }

  /** What deserialising a buffer yields; bytes behind the frame are ignored. */
  function Deserialize(s: Bytes): Option<Frame> {
    match ParseFrame(s) case Fail => None case Done(f, _) => Some(f)
  }

  // ---------------------------------------------------------------- parser and printer agree

  lemma UintPrinted(n: nat, v: nat, rest: Bytes)
    requires v < Pow256(n)
    ensures ParseUint(n, LittleEndian(n, v) + rest) == Done(v, rest)
  {
    LittleEndianRoundTrip(n, v);
    var s := LittleEndian(n, v) + rest;
    assert s[..n] == LittleEndian(n, v) && s[n..] == rest;
  }

  lemma UintParsed(n: nat, s: Bytes)
    requires ParseUint(n, s).Done?
    ensures var d := ParseUint(n, s); s == LittleEndian(n, d.value) + d.rest && d.value < Pow256(n)
  {
    LittleEndianCanonical(s[..n]);
    assert s == s[..n] + s[n..];
  }

  lemma BlobPrinted(b: Blob, rest: Bytes)
    ensures ParseBlob(EncodeBlob(b) + rest) == Done(b, rest)
  {
    Widths();
    ConcatAssociates(LittleEndian(8, |b|), b, rest);
    UintPrinted(8, |b|, b + rest);
    assert (b + rest)[..|b|] == b && (b + rest)[|b|..] == rest;
  }

  lemma BlobParsed(s: Bytes)
    requires ParseBlob(s).Done?
    ensures s == EncodeBlob(ParseBlob(s).value) + ParseBlob(s).rest
  {
    hide IsUtf8, LittleEndian, FromLittleEndian;
    UintParsed(8, s);
    var d, b := ParseUint(8, s), ParseBlob(s);
    assert d.rest == b.value + b.rest;
    ConcatAssociates(LittleEndian(8, d.value), b.value, b.rest);
  }

  lemma NetworkErrorPrinted(e: NetworkError, rest: Bytes)
    ensures ParseNetworkError(EncodeNetworkError(e) + rest) == Done(e, rest)
  {
    hide LittleEndian, FromLittleEndian, IsUtf8, ParseUint, EncodeBlob, ParseBlob;
    Widths();
    var body := if e.OtherError? then EncodeBlob(e.reason) else [];
    ConcatAssociates(Tag(ErrorTag(e)), body, rest);
    UintPrinted(4, ErrorTag(e), body + rest);
    if e.OtherError? {
      BlobPrinted(e.reason, rest);
    } else {
      assert [] + rest == rest;
    }
  }

  lemma NetworkErrorParsed(s: Bytes)
    requires ParseNetworkError(s).Done?
    ensures s == EncodeNetworkError(ParseNetworkError(s).value) + ParseNetworkError(s).rest
  {
    hide LittleEndian, FromLittleEndian, IsUtf8, ParseUint, EncodeBlob, ParseBlob;
    UintParsed(4, s);
    var d, p := ParseUint(4, s), ParseNetworkError(s);
    if d.value == 6 {
      BlobParsed(d.rest);
      ConcatAssociates(Tag(6), EncodeBlob(p.value.reason), p.rest);
    } else {
      assert Tag(d.value) + [] == Tag(d.value);
    }
  }

  lemma OfferPrinted(o: Result<U128, OfferError>, rest: Bytes)
    ensures ParseOffer(EncodeOffer(o) + rest) == Done(o, rest)
  {
    hide LittleEndian, FromLittleEndian, ParseUint, EncodeNetworkError, ParseNetworkError;
    Widths();
    match o {
      case Success(id) =>
        ConcatAssociates(Tag(0), LittleEndian(16, id), rest);
        UintPrinted(4, 0, LittleEndian(16, id) + rest);
        UintPrinted(16, id, rest);
      case Failure(UnableConnect(e)) =>
        var inner := Tag(0) + EncodeNetworkError(e);
        ConcatAssociates(Tag(1), inner, rest);
        UintPrinted(4, 1, inner + rest);
        ConcatAssociates(Tag(0), EncodeNetworkError(e), rest);
        UintPrinted(4, 0, EncodeNetworkError(e) + rest);
        NetworkErrorPrinted(e, rest);
    }
  }

  lemma OfferParsed(s: Bytes)
    requires ParseOffer(s).Done?
    ensures s == EncodeOffer(ParseOffer(s).value) + ParseOffer(s).rest
  {
    hide LittleEndian, FromLittleEndian, ParseUint, EncodeNetworkError, ParseNetworkError;
    UintParsed(4, s);
    var d, p := ParseUint(4, s), ParseOffer(s);
    if d.value == 0 {
      UintParsed(16, d.rest);
      ConcatAssociates(Tag(0), LittleEndian(16, p.value.value), p.rest);
    } else {
      UintParsed(4, d.rest);
      var inner := ParseUint(4, d.rest);
      NetworkErrorParsed(inner.rest);
      var body := EncodeNetworkError(p.value.error.error);
      ConcatAssociates(Tag(0), body, p.rest);
      ConcatAssociates(Tag(1), Tag(0) + body, p.rest);
    }
  }

  lemma ProtocolPrinted(p: Protocol, rest: Bytes)
    ensures ParseProtocol(EncodeProtocol(p) + rest) == Done(p, rest)
  {
    hide LittleEndian, FromLittleEndian, IsUtf8, ParseUint, EncodeBlob, ParseBlob, EncodeOffer, ParseOffer;
    Widths();
    match p {
      case TcpConnect(dst, port) =>
        var body := EncodeBlob(dst) + LittleEndian(2, port);
        ConcatAssociates(Tag(0), body, rest);
        UintPrinted(4, 0, body + rest);
        ConcatAssociates(EncodeBlob(dst), LittleEndian(2, port), rest);
        BlobPrinted(dst, LittleEndian(2, port) + rest);
        UintPrinted(2, port, rest);
      case TcpOffer(offer) =>
        ConcatAssociates(Tag(1), EncodeOffer(offer), rest);
        UintPrinted(4, 1, EncodeOffer(offer) + rest);
        OfferPrinted(offer, rest);
      case TcpData(id, payload) =>
        var body := LittleEndian(16, id) + EncodeBlob(payload);
        ConcatAssociates(Tag(2), body, rest);
        UintPrinted(4, 2, body + rest);
        ConcatAssociates(LittleEndian(16, id), EncodeBlob(payload), rest);
        UintPrinted(16, id, EncodeBlob(payload) + rest);
        BlobPrinted(payload, rest);
    }
  }

  lemma ProtocolParsed(s: Bytes)
    requires ParseProtocol(s).Done?
    ensures s == EncodeProtocol(ParseProtocol(s).value) + ParseProtocol(s).rest
  {
    hide LittleEndian, FromLittleEndian, IsUtf8, ParseUint, EncodeBlob, ParseBlob, EncodeOffer, ParseOffer;
    UintParsed(4, s);
    var d, p := ParseUint(4, s), ParseProtocol(s);
    if d.value == 0 {
      BlobParsed(d.rest);
      UintParsed(2, ParseBlob(d.rest).rest);
      ConcatAssociates(EncodeBlob(p.value.dst), LittleEndian(2, p.value.port), p.rest);
      ConcatAssociates(Tag(0), EncodeBlob(p.value.dst) + LittleEndian(2, p.value.port), p.rest);
    } else if d.value == 1 {
      OfferParsed(d.rest);
      ConcatAssociates(Tag(1), EncodeOffer(p.value.offer), p.rest);
    } else {
      UintParsed(16, d.rest);
      BlobParsed(ParseUint(16, d.rest).rest);
      ConcatAssociates(LittleEndian(16, p.value.id), EncodeBlob(p.value.payload), p.rest);
      ConcatAssociates(Tag(2), LittleEndian(16, p.value.id) + EncodeBlob(p.value.payload), p.rest);
    }
  }

  /** Printing then parsing gives the frame back, whatever follows it. */
  lemma FramePrinted(f: Frame, rest: Bytes)
    ensures ParseFrame(EncodeFrame(f) + rest) == Done(f, rest)
    ensures Deserialize(EncodeFrame(f) + rest) == Some(f)
  {
    hide EncodeProtocol, ParseProtocol, EncodeBlob, ParseBlob;
    ConcatAssociates(EncodeProtocol(f.protocol), EncodeBlob(f.padding), rest);
    ProtocolPrinted(f.protocol, EncodeBlob(f.padding) + rest);
    BlobPrinted(f.padding, rest);
  }

  /** A buffer deserialises to a frame exactly when that frame's encoding stands at its front, so
      no two frames share an encoding and no encoding is the front of another one. */
  lemma DeserializeExactly(s: Bytes, f: Frame)
    ensures Deserialize(s) == Some(f) <==> EncodeFrame(f) <= s
  {
    hide EncodeProtocol, ParseProtocol, EncodeBlob, ParseBlob;
    if EncodeFrame(f) <= s {
      assert s == EncodeFrame(f) + s[|EncodeFrame(f)|..];
      FramePrinted(f, s[|EncodeFrame(f)|..]);
    }
    if Deserialize(s) == Some(f) {
      var p, r := ParseProtocol(s), ParseFrame(s);
      ProtocolParsed(s);
      BlobParsed(p.rest);
      ConcatAssociates(EncodeProtocol(f.protocol), EncodeBlob(f.padding), r.rest);
      assert s == EncodeFrame(f) + r.rest;
    }
  }

  /** The junk padding of a frame does not reach the protocol value. */
  lemma PaddingIrrelevant(p: Protocol, padding: Blob, padding': Blob)
    ensures Deserialize(EncodeFrame(Frame(p, padding))) == Some(Frame(p, padding))
    ensures match Deserialize(EncodeFrame(Frame(p, padding'))) case Some(f) => f.protocol == p case None => false
  {
    hide EncodeFrame, Deserialize;
    DeserializeExactly(EncodeFrame(Frame(p, padding)), Frame(p, padding));
    DeserializeExactly(EncodeFrame(Frame(p, padding')), Frame(p, padding'));
  }

  /** The exact size of a data frame. */
  lemma DataFrameSize(id: U128, payload: Blob, padding: Blob)
    ensures |EncodeFrame(Frame(TcpData(id, payload), padding))| == 36 + |payload| + |padding|
  {
    LittleEndianRoundTrip(4, 2);
    LittleEndianRoundTrip(16, id);
    LittleEndianRoundTrip(8, |payload|);
    LittleEndianRoundTrip(8, |padding|);
  }
}
