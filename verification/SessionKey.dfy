/** The session hash of a client, hidden in the websocket key of its handshake. */
module SessionKey {
  import opened ByteStreams
  import opened Bincode
  import opened Base64

  const HASH_SIZE: nat := 8
  const KEY_SIZE: nat := 16

  // ---------------------------------------------------------------- the stream cipher

  /** Exclusive or of the low `n` bits. */
  function XorBits(n: nat, a: nat, b: nat): nat {
    if n == 0 then 0 else (a % 2 + b % 2) % 2 + 2 * XorBits(n - 1, a / 2, b / 2)
  }

  function Pow2(n: nat): nat { if n == 0 then 1 else 2 * Pow2(n - 1) }

  lemma {:induction false} XorBound(n: nat, a: nat, b: nat)
    ensures XorBits(n, a, b) < Pow2(n)
  {
    if n != 0 {
      XorBound(n - 1, a / 2, b / 2);
    }
  }

  lemma {:induction false} XorInvolution(n: nat, a: nat, b: nat)
    requires a < Pow2(n)
    ensures XorBits(n, XorBits(n, a, b), b) == a
  {
    if n != 0 {
      XorInvolution(n - 1, a / 2, b / 2);
      var bit, high := (a % 2 + b % 2) % 2, XorBits(n - 1, a / 2, b / 2);
      LowBit(bit, high);
      BitTwice(a % 2, b % 2);
      assert XorBits(n, a, b) == bit + 2 * high;
      assert XorBits(n, bit + 2 * high, b) == a % 2 + 2 * (a / 2);
    }
  }

  lemma LowBit(bit: nat, high: nat)
    requires bit < 2
    ensures (bit + 2 * high) % 2 == bit && (bit + 2 * high) / 2 == high
  {
  }

  lemma BitTwice(a: nat, b: nat)
    requires a < 2 && b < 2
    ensures ((a + b) % 2 + b) % 2 == a
  {
  }

  lemma BytePow() ensures Pow2(8) == 256 {
    assert Pow2(4) == 16;
    assert Pow2(8) == 2 * (2 * (2 * (2 * Pow2(4))));
  }

  function Xor(a: Byte, b: Byte): Byte {
    XorBound(8, a, b); BytePow();
    XorBits(8, a, b)
  }

  lemma XorTwice(a: Byte, b: Byte)
    ensures Xor(Xor(a, b), b) == a
  {
    BytePow();
    XorInvolution(8, a, b);
  }

  function Bit(x: nat, i: nat): nat {
    Pow2Positive(i);
    x / Pow2(i) % 2
  }

  lemma {:induction false} Pow2Positive(n: nat)
    ensures 0 < Pow2(n)
  {
    if n != 0 {
      Pow2Positive(n - 1);
    }
  }

  lemma LowestBit(x: nat)
    ensures Bit(x, 0) == x % 2
  {
    assert Pow2(0) == 1;
  }

  lemma BitAbove(x: nat, i: nat)
    requires 0 < i
    ensures Bit(x, i) == Bit(x / 2, i - 1)
  {
    Pow2Positive(i - 1);
    DivDiv(x, 2, Pow2(i - 1));
  }

  lemma {:induction false} XorBitsBitwise(n: nat, a: nat, b: nat, i: nat)
    requires i < n
    ensures Bit(XorBits(n, a, b), i) == (Bit(a, i) + Bit(b, i)) % 2
    decreases n
  {
    hide Bit;
    var bit, high := (a % 2 + b % 2) % 2, XorBits(n - 1, a / 2, b / 2);
    LowBit(bit, high);
    if i == 0 {
      LowestBit(XorBits(n, a, b));
      LowestBit(a);
      LowestBit(b);
    } else {
      BitAbove(XorBits(n, a, b), i);
      BitAbove(a, i);
      BitAbove(b, i);
      XorBitsBitwise(n - 1, a / 2, b / 2, i - 1);
    }
  }

  /** Every bit of an exclusive or is the parity of the two bits it comes from. */
  lemma XorBitwise(a: Byte, b: Byte, i: nat)
    requires i < 8
    ensures Bit(Xor(a, b), i) == (Bit(a, i) + Bit(b, i)) % 2
  {
    hide XorBits, Bit;
    XorBitsBitwise(8, a, b, i);
  }

  /** A stream cipher is any function from key, nonce and position to a byte of keystream. */
  type Cipher = (Bytes, Bytes, nat) -> Byte

  function Masked(data: Bytes, cipher: Cipher, key: Bytes, nonce: Bytes): (r: Bytes)
    ensures |r| == |data|
  {
    seq<Byte>(|data|, i requires 0 <= i < |data| => Xor(data[i], cipher(key, nonce, i)))
  }

  lemma MaskedTwice(data: Bytes, cipher: Cipher, key: Bytes, nonce: Bytes)
    ensures Masked(Masked(data, cipher, key, nonce), cipher, key, nonce) == data
  {
    hide Xor;
    forall i | 0 <= i < |data| ensures Masked(Masked(data, cipher, key, nonce), cipher, key, nonce)[i] == data[i] {
      XorTwice(data[i], cipher(key, nonce, i));
    }
  }

  lemma {:induction false} XorWithZero(n: nat, b: nat)
    requires b < Pow2(n)
    ensures XorBits(n, 0, b) == b
  {
    if n != 0 {
      XorWithZero(n - 1, b / 2);
    }
  }

  /** Masking shows in every byte: zeros come out as the keystream itself. */
  lemma MaskedZeros(n: nat, cipher: Cipher, key: Bytes, nonce: Bytes, i: nat)
    requires i < n
    ensures Masked(seq(n, _ => 0), cipher, key, nonce)[i] == cipher(key, nonce, i)
  {
    BytePow();
    XorWithZero(8, cipher(key, nonce, i));
  }

  method ApplyKeystream(data: array<Byte>, cipher: Cipher, key: Bytes, nonce: Bytes)
    modifies data
    ensures data[..] == Masked(old(data[..]), cipher, key, nonce)
  {
    hide Xor;
    ghost var before := data[..];
    for i := 0 to data.Length
      invariant forall j :: 0 <= j < i ==> data[j] == Xor(before[j], cipher(key, nonce, j))
      invariant data[i..] == before[i..]
    {
      assert data[i] == data[i..][0] == before[i];
      data[i] := Xor(data[i], cipher(key, nonce, i));
    }
  }

  // ---------------------------------------------------------------- keys

  type Nonce = n: Bytes | |n| == HASH_SIZE witness [0, 0, 0, 0, 0, 0, 0, 0]

  /** The key text a client with session hash `hash` sends under a nonce. */
  function KeyText(cipher: Cipher, key: Bytes, nonce: Nonce, hash: U64): string {
    Encode(nonce + Masked(BigEndian(HASH_SIZE, hash), cipher, key, nonce))
  }

  /** The session hash a server reads from a key text. */
  function SessionOf(cipher: Cipher, key: Bytes, text: string): Option<U64> {
    match Decode(text)
    case None => None
    case Some(buf) =>
      if |buf| != KEY_SIZE then None
      else
        var plain := Masked(buf[HASH_SIZE..], cipher, key, buf[..HASH_SIZE]);
        BigEndianCanonical(plain); Widths();
        Some(FromBigEndian(plain))
  }

  method Generate(cipher: Cipher, key: Bytes, nonce: Nonce, hash: U64) returns (text: string)
    ensures text == KeyText(cipher, key, nonce, hash)
  {
    hide Encode, BigEndian;
    BigEndianRoundTrip(HASH_SIZE, hash);
    var bytes := BigEndian(HASH_SIZE, hash);
    var masked := new Byte[HASH_SIZE](i requires 0 <= i < HASH_SIZE => bytes[i]);
    assert masked[..] == bytes;
    ApplyKeystream(masked, cipher, key, nonce);
    var out: Bytes := [];
    out := out + nonce;
    out := out + masked[..];
    assert |out| == KEY_SIZE;
    assert out == nonce + masked[..];
    text := Encode(out);
  }

  method ReadSession(cipher: Cipher, key: Bytes, text: string) returns (r: Option<U64>)
    ensures r == SessionOf(cipher, key, text)
  {
    hide Decode, FromBigEndian;
    var decoded := Decode(text);
    if decoded.None? {
      return None;
    }
    var buf := decoded.value;
    if |buf| != KEY_SIZE {
      return None;
    }
    var nonce := buf[..HASH_SIZE];
    var hash := new Byte[HASH_SIZE](i requires 0 <= i < HASH_SIZE => buf[HASH_SIZE + i]);
    assert hash[..] == buf[HASH_SIZE..];
    ApplyKeystream(hash, cipher, key, nonce);
    BigEndianCanonical(hash[..]);
    Widths();
    r := Some(FromBigEndian(hash[..]));
  }

  /** What a key text says once decoded: the nonce in clear, then the hash, its most significant byte
      first, each byte masked by the keystream byte of its position. */
  lemma KeyTextLayout(cipher: Cipher, key: Bytes, nonce: Nonce, hash: U64, i: nat)
    requires i < HASH_SIZE
    ensures var d := Decode(KeyText(cipher, key, nonce, hash));
            && d.Some? && |d.value| == KEY_SIZE && d.value[..HASH_SIZE] == nonce
            && 0 < Pow256(7 - i)
            && d.value[HASH_SIZE + i] == Xor(hash / Pow256(7 - i) % 256, cipher(key, nonce, i))
  {
    hide Encode, Decode, BigEndian, Xor;
    BigEndianLayout(HASH_SIZE, hash, i);
    var plain := BigEndian(HASH_SIZE, hash);
    var buf := nonce + Masked(plain, cipher, key, nonce);
    EncodeDecodes(buf);
    assert buf[..HASH_SIZE] == nonce;
    assert buf[HASH_SIZE + i] == Xor(plain[i], cipher(key, nonce, i));
  }

  /** A server that knows the key reads from every key text the hash it was made from. */
  lemma SessionRoundTrip(cipher: Cipher, key: Bytes, nonce: Nonce, hash: U64)
    ensures SessionOf(cipher, key, KeyText(cipher, key, nonce, hash)) == Some(hash)
  {
    hide Encode, Decode, BigEndian, FromBigEndian;
    BigEndianRoundTrip(HASH_SIZE, hash);
    Widths();
    var masked := Masked(BigEndian(HASH_SIZE, hash), cipher, key, nonce);
    var out := nonce + masked;
    EncodeDecodes(out);
    assert out[..HASH_SIZE] == nonce && out[HASH_SIZE..] == masked;
    MaskedTwice(BigEndian(HASH_SIZE, hash), cipher, key, nonce);
  }

  /** A text names session `hash` exactly when a client of that session can send it. */
  lemma SessionExactly(cipher: Cipher, key: Bytes, text: string, hash: U64)
    ensures SessionOf(cipher, key, text) == Some(hash)
            <==> exists nonce: Nonce :: text == KeyText(cipher, key, nonce, hash)
  {
    hide Encode, Decode, BigEndian, FromBigEndian;
    if SessionOf(cipher, key, text) == Some(hash) {
      var buf := Decode(text).value;
      var nonce: Nonce, masked := buf[..HASH_SIZE], buf[HASH_SIZE..];
      DecodeCanonical(text);
      BigEndianCanonical(Masked(masked, cipher, key, nonce));
      MaskedTwice(masked, cipher, key, nonce);
      assert buf == nonce + masked;
      assert text == KeyText(cipher, key, nonce, hash);
    }
    if nonce: Nonce :| text == KeyText(cipher, key, nonce, hash) {
      SessionRoundTrip(cipher, key, nonce, hash);
    }
  }

  // ---------------------------------------------------------------- the listener's check

  /** The listener keeps the key of a handshake that decodes to sixteen bytes, and refuses every
      other handshake. */
  function CheckKey(header: Option<string>): Option<string> {
    match header
    case None => None
    case Some(md) =>
      match Decode(md)
      case None => None
      case Some(v) => if |v| == KEY_SIZE then Some(md) else None
  }

  /** The listener lets exactly those keys through from which the server can read a session, and
      every generated key is one; an accepted key is 24 visible characters without a '#'. */
  lemma CheckAgrees(cipher: Cipher, key: Bytes, text: string)
    ensures CheckKey(Some(text)).Some? <==> SessionOf(cipher, key, text).Some?
    ensures CheckKey(Some(text)).Some? ==>
              CheckKey(Some(text)).value == text && |text| == 24
              && forall c :: c in text ==> '!' <= c <= '~' && c != '#'
  {
    hide Encode, Decode, FromBigEndian;
    if CheckKey(Some(text)).Some? {
      DecodeCanonical(text);
      EncodePlain(Decode(text).value);
      EncodeLength(Decode(text).value);
      forall c | c in text ensures '!' <= c <= '~' && c != '#' {
        PlainIsVisible(c);
      }
    }
  }

  lemma GeneratedPasses(cipher: Cipher, key: Bytes, nonce: Nonce, hash: U64)
    ensures CheckKey(Some(KeyText(cipher, key, nonce, hash))) == Some(KeyText(cipher, key, nonce, hash))
  {
    hide KeyText, SessionOf;
    SessionRoundTrip(cipher, key, nonce, hash);
    CheckAgrees(cipher, key, KeyText(cipher, key, nonce, hash));
  }

  // ---------------------------------------------------------------- the peer address

  function PeerUrl(url: string, metadata: string): string { url + "#" + metadata }

  /** The parts before and behind the last '#'. */
  function SplitAtLastHash(s: string): Option<(string, string)> {
    if s == "" then None
    else if s[|s| - 1] == '#' then Some((s[..|s| - 1], ""))
    else match SplitAtLastHash(s[..|s| - 1])
      case None => None
      case Some((a, b)) => Some((a, b + [s[|s| - 1]]))
  }

  /** The address of a pipe gives back its URL, whatever that contains, and its key. */
  lemma PeerUrlSplits(url: string, text: string)
    requires CheckKey(Some(text)).Some?
    ensures SplitAtLastHash(PeerUrl(url, text)) == Some((url, text))
  {
    CheckAgrees((_, _, _) => 0, [], text);
    SplitWithoutHash(url, text);
  }

  lemma {:induction false} SplitWithoutHash(url: string, text: string)
    requires '#' !in text
    ensures SplitAtLastHash(PeerUrl(url, text)) == Some((url, text))
    decreases |text|
  {
    var s := PeerUrl(url, text);
    if text == "" {
      assert s[..|s| - 1] == url;
    } else {
      var front := text[..|text| - 1];
      SplitWithoutHash(url, front);
      assert s[..|s| - 1] == PeerUrl(url, front);
      assert s[|s| - 1] == text[|text| - 1];
      assert front + [text[|text| - 1]] == text;
    }
  }
}
