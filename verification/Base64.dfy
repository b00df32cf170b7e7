/** Standard base64 with canonical padding (section 4 of RFC 4648), as a strict decoder reads it. */
module Base64 {
  import opened ByteStreams

  type Index = i: int | 0 <= i < 64

  function Digit(i: Index): char {
    if i < 26 then (i + 65) as char
    else if i < 52 then (i + 71) as char
    else if i < 62 then (i - 4) as char
    else if i == 62 then '+'
    else '/'
  }

  function Value(c: char): Option<Index> {
    if 'A' <= c <= 'Z' then Some(c as int - 65)
    else if 'a' <= c <= 'z' then Some(c as int - 71)
    else if '0' <= c <= '9' then Some(c as int + 4)
    else if c == '+' then Some(62)
    else if c == '/' then Some(63)
    else None
  }

  lemma DigitsAndValues(i: Index, c: char)
    ensures Value(Digit(i)) == Some(i) && Digit(i) != '='
    ensures Value(c) == Some(i) ==> c == Digit(i)
  {
  }

  /** The digits are those of the standard alphabet: the capital letters, the small ones, the decimal
      digits, each in order, and two more. */
  lemma DigitsAreStandard(i: Index)
    ensures Digit(0) == 'A' && Digit(25) == 'Z' && Digit(26) == 'a' && Digit(51) == 'z'
    ensures Digit(52) == '0' && Digit(61) == '9' && Digit(62) == '+' && Digit(63) == '/'
    ensures i < 61 && i != 25 && i != 51 ==> Digit(i + 1) as int == Digit(i) as int + 1
  {
  }

  function Quad(a: Byte, b: Byte, c: Byte): (s: string)
    ensures |s| == 4
  {
    [Digit(a / 4), Digit(a % 4 * 16 + b / 16), Digit(b % 16 * 4 + c / 64), Digit(c % 64)]
  }

  /** Three bytes and their four digits spell the same 24-bit number. */
  lemma QuadSpellsNumber(a: Byte, b: Byte, c: Byte, w: Index, x: Index, y: Index, z: Index)
    requires Quad(a, b, c) == [Digit(w), Digit(x), Digit(y), Digit(z)]
    ensures 65536 * a + 256 * b + c == 262144 * w + 4096 * x + 64 * y + z
  {
    hide Digit, Value;
    SameDigit(w, a / 4);
    SameDigit(x, a % 4 * 16 + b / 16);
    SameDigit(y, b % 16 * 4 + c / 64);
    SameDigit(z, c % 64);
  }

  lemma SameDigit(i: Index, j: Index)
    ensures Digit(i) == Digit(j) ==> i == j
  {
    DigitsAndValues(i, 'A');
    DigitsAndValues(j, 'A');
  }

  function Encode(b: Bytes): string {
    if |b| == 0 then ""
    else if |b| == 1 then Quad(b[0], 0, 0)[..2] + "=="
    else if |b| == 2 then Quad(b[0], b[1], 0)[..3] + "="
    else Quad(b[0], b[1], b[2]) + Encode(b[3..])
  }

  function Triple(w: Index, x: Index, y: Index, z: Index): Bytes {
    [w * 4 + x / 16, x % 16 * 16 + y / 4, y % 4 * 64 + z]
  }

  /** Four digits give three bytes. */
  function DecodeQuad(s: string): Option<Bytes>
    requires |s| == 4
  {
    match (Value(s[0]), Value(s[1]), Value(s[2]), Value(s[3]))
    case (Some(w), Some(x), Some(y), Some(z)) => Some(Triple(w, x, y, z))
    case _ => None
  }

  /** The last four characters may be padded, and then the bits behind the last byte are zero. */
  function DecodeLast(s: string): Option<Bytes>
    requires |s| == 4
  {
    if s[3] != '=' then DecodeQuad(s)
    else if s[2] != '=' then
      match (Value(s[0]), Value(s[1]), Value(s[2]))
      case (Some(w), Some(x), Some(y)) => if y % 4 == 0 then Some(Triple(w, x, y, 0)[..2]) else None
      case _ => None
    else
      match (Value(s[0]), Value(s[1]))
      case (Some(w), Some(x)) => if x % 16 == 0 then Some(Triple(w, x, 0, 0)[..1]) else None
      case _ => None
  }

  function Decode(s: string): Option<Bytes> {
    if s == "" then Some([])
    else if |s| < 4 then None
    else if |s| == 4 then DecodeLast(s)
    else
      match (DecodeQuad(s[..4]), Decode(s[4..]))
      case (Some(head), Some(tail)) => Some(head + tail)
      case _ => None
  }

  lemma TripleOfQuad(a: Byte, b: Byte, c: Byte)
    ensures Triple(a / 4, a % 4 * 16 + b / 16, b % 16 * 4 + c / 64, c % 64) == [a, b, c]
  {
  }

  lemma QuadOfTriple(w: Index, x: Index, y: Index, z: Index)
    ensures var t := Triple(w, x, y, z); Quad(t[0], t[1], t[2]) == [Digit(w), Digit(x), Digit(y), Digit(z)]
  {
    hide Digit;
    var t := Triple(w, x, y, z);
    assert t[0] / 4 == w && t[0] % 4 == x / 16;
    assert t[1] / 16 == x % 16 && t[1] % 16 == y / 4;
    assert t[2] / 64 == y % 4 && t[2] % 64 == z;
  }

  lemma QuadDecodes(a: Byte, b: Byte, c: Byte)
    ensures DecodeQuad(Quad(a, b, c)) == Some([a, b, c])
    ensures Quad(a, b, c)[3] != '=' && Quad(a, b, c)[2] != '='
  {
    hide Digit, Value;
    DigitsAndValues(a / 4, 'A');
    DigitsAndValues(a % 4 * 16 + b / 16, 'A');
    DigitsAndValues(b % 16 * 4 + c / 64, 'A');
    DigitsAndValues(c % 64, 'A');
    TripleOfQuad(a, b, c);
  }

  lemma EncodeShape(b: Bytes)
    ensures Encode(b) == "" <==> b == []
    ensures b != [] ==> 4 <= |Encode(b)|
    ensures 0 < |b| <= 3 ==> |Encode(b)| == 4
  {
  }

  /** Every byte string survives the round trip. */
  lemma {:induction false} EncodeDecodes(b: Bytes)
    ensures Decode(Encode(b)) == Some(b)
  {
    hide Quad, DecodeQuad, Digit, Value, Triple;
    if 3 <= |b| {
      var rest := b[3..];
      EncodeDecodes(rest);
      EncodeShape(rest);
      QuadDecodes(b[0], b[1], b[2]);
      var s := Encode(b);
      assert s == Quad(b[0], b[1], b[2]) + Encode(rest);
      assert s[..4] == Quad(b[0], b[1], b[2]) && s[4..] == Encode(rest);
      assert [b[0], b[1], b[2]] + rest == b;
      if rest == [] {
        assert s == s[..4] && b == [b[0], b[1], b[2]];
      }
    } else if |b| == 2 {
      TwoBytes(b[0], b[1]);
      assert b == [b[0], b[1]];
    } else if |b| == 1 {
      OneByte(b[0]);
      assert b == [b[0]];
    }
  }

  lemma PaddedDecodes(w: Index, x: Index, y: Index)
    ensures y % 4 == 0 ==> DecodeLast([Digit(w), Digit(x), Digit(y), '=']) == Some(Triple(w, x, y, 0)[..2])
    ensures x % 16 == 0 ==> DecodeLast([Digit(w), Digit(x), '=', '=']) == Some(Triple(w, x, 0, 0)[..1])
  {
    hide Digit, Value, Triple;
    DigitsAndValues(w, 'A');
    DigitsAndValues(x, 'A');
    DigitsAndValues(y, 'A');
  }

  lemma TwoBytes(a: Byte, b: Byte)
    ensures DecodeLast(Quad(a, b, 0)[..3] + "=") == Some([a, b])
  {
    hide Digit, Value, DecodeLast;
    var y: Index := b % 16 * 4 + 0 / 64;
    assert y == b % 16 * 4 && y % 4 == 0;
    PaddedDecodes(a / 4, a % 4 * 16 + b / 16, y);
    TripleOfQuad(a, b, 0);
    assert [a, b, 0][..2] == [a, b];
    assert Quad(a, b, 0)[..3] + "=" == [Digit(a / 4), Digit(a % 4 * 16 + b / 16), Digit(y), '='];
  }

  lemma OneByte(a: Byte)
    ensures DecodeLast(Quad(a, 0, 0)[..2] + "==") == Some([a])
  {
    hide Digit, Value, DecodeLast;
    var x: Index := a % 4 * 16 + 0 / 16;
    assert x == a % 4 * 16 && x % 16 == 0;
    PaddedDecodes(a / 4, x, 0);
    TripleOfQuad(a, 0, 0);
    assert [a, 0, 0][..1] == [a];
    assert Quad(a, 0, 0)[..2] + "==" == [Digit(a / 4), Digit(x), '=', '='];
  }

  lemma QuadCanonical(s: string)
    requires |s| == 4 && DecodeQuad(s).Some?
    ensures var b := DecodeQuad(s).value; |b| == 3 && s == Quad(b[0], b[1], b[2])
  {
    hide Digit, Value, Quad;
    var w, x, y, z := Value(s[0]).value, Value(s[1]).value, Value(s[2]).value, Value(s[3]).value;
    DigitsAndValues(w, s[0]);
    DigitsAndValues(x, s[1]);
    DigitsAndValues(y, s[2]);
    DigitsAndValues(z, s[3]);
    QuadOfTriple(w, x, y, z);
  }

  lemma LastCanonical(s: string)
    requires |s| == 4 && DecodeLast(s).Some?
    ensures s == Encode(DecodeLast(s).value) && 1 <= |DecodeLast(s).value| <= 3
  {
    hide Digit, Value, Quad;
    var b := DecodeLast(s).value;
    if s[3] != '=' {
      QuadCanonical(s);
      assert b[3..] == [];
      assert s + "" == s;
    } else {
      var w, x := Value(s[0]).value, Value(s[1]).value;
      var y := if s[2] != '=' then Value(s[2]).value else 0;
      DigitsAndValues(w, s[0]);
      DigitsAndValues(x, s[1]);
      QuadOfTriple(w, x, y, 0);
      if s[2] != '=' {
        DigitsAndValues(y, s[2]);
        assert Triple(w, x, y, 0)[2] == 0;
      } else {
        assert Triple(w, x, y, 0)[1] == 0 && Triple(w, x, y, 0)[2] == 0;
      }
    }
  }

  /** A text is accepted only as the encoding of what it decodes to, so decoding is injective. */
  lemma {:induction false} DecodeCanonical(s: string)
    requires Decode(s).Some?
    ensures s == Encode(Decode(s).value)
  {
    hide Quad, DecodeQuad, DecodeLast, Digit, Value;
    if |s| == 4 {
      LastCanonical(s);
    } else if 4 < |s| {
      QuadCanonical(s[..4]);
      DecodeCanonical(s[4..]);
      var head, tail := DecodeQuad(s[..4]).value, Decode(s[4..]).value;
      assert (head + tail)[3..] == tail;
      assert s == s[..4] + s[4..];
    }
  }

  /** Characters a base64 text is made of. */
  predicate Plain(c: char) { Value(c).Some? || c == '=' }

  lemma {:induction false} EncodePlain(b: Bytes)
    ensures forall c :: c in Encode(b) ==> Plain(c)
  {
    hide Quad, Plain;
    if 3 <= |b| {
      EncodePlain(b[3..]);
      QuadPlain(b[0], b[1], b[2]);
    } else if 0 < |b| {
      QuadPlain(b[0], if |b| == 2 then b[1] else 0, 0);
      assert Plain('=') by { PaddingPlain(); }
    }
  }

  lemma PaddingPlain()
    ensures Plain('=')
  {
  }

  lemma {:induction false} EncodeLength(b: Bytes)
    ensures |Encode(b)| == (|b| + 2) / 3 * 4
  {
    hide Quad;
    if 3 <= |b| {
      EncodeLength(b[3..]);
    }
  }

  lemma QuadPlain(a: Byte, b: Byte, c: Byte)
    ensures forall x :: x in Quad(a, b, c) ==> Plain(x)
  {
    hide Digit, Value;
    DigitsAndValues(a / 4, 'A');
    DigitsAndValues(a % 4 * 16 + b / 16, 'A');
    DigitsAndValues(b % 16 * 4 + c / 64, 'A');
    DigitsAndValues(c % 64, 'A');
  }

  /** A plain character is visible ASCII and never the fragment sign. */
  lemma PlainIsVisible(c: char)
    requires Plain(c)
    ensures '!' <= c <= '~' && c != '#'
  {
  }
}
