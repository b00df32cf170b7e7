/** Bytes, byte streams and the few facts on sequences and division every other module leans on. */
module ByteStreams {
  type Byte = x: int | 0 <= x < 256
  type Bytes = seq<Byte>

  datatype Option<+T> = None | Some(value: T)

  lemma ConcatAssociates<T>(a: seq<T>, b: seq<T>, c: seq<T>)
    ensures a + (b + c) == (a + b) + c
  {
  }

  /** The byte stream carried by a sequence of messages. */
  function Flatten(messages: seq<Bytes>): Bytes {
    if messages == [] then [] else messages[0] + Flatten(messages[1..])
  }

  lemma {:induction false} FlattenConcat(a: seq<Bytes>, b: seq<Bytes>)
    ensures Flatten(a + b) == Flatten(a) + Flatten(b)
  {
    if a == [] {
      assert a + b == b;
    } else {
      assert (a + b)[0] == a[0] && (a + b)[1..] == a[1..] + b;
      FlattenConcat(a[1..], b);
      assert Flatten(a + b) == a[0] + Flatten(a[1..] + b);
    }
  }

  lemma FlattenSnoc(a: seq<Bytes>, m: Bytes)
    ensures Flatten(a + [m]) == Flatten(a) + m
  {
    FlattenConcat(a, [m]);
    assert Flatten([m]) == m + Flatten([]);
  }

  lemma FlattenPrefix(a: seq<Bytes>, b: seq<Bytes>)
    requires a <= b
    ensures Flatten(a) <= Flatten(b)
  {
    assert b == a + b[|a|..];
    FlattenConcat(a, b[|a|..]);
  }

  predicate IsSuffix(tail: Bytes, whole: Bytes) {
    |tail| <= |whole| && whole[|whole| - |tail|..] == tail
  }

  lemma SuffixOfSuffix(a: Bytes, b: Bytes, whole: Bytes)
    requires IsSuffix(a, b) && IsSuffix(b, whole)
    ensures IsSuffix(a, whole)
  {
    assert a == b[|b| - |a|..] == whole[|whole| - |b|..][|b| - |a|..] == whole[|whole| - |a|..];
  }

  /** Two prefixes of one stream are comparable. */
  lemma PrefixesComparable(a: Bytes, b: Bytes, whole: Bytes)
    requires a <= whole && b <= whole
    ensures a <= b || b <= a
  {
    assert a == whole[..|a|] && b == whole[..|b|];
    if |a| <= |b| {
      assert a == b[..|a|];
    } else {
      assert b == a[..|b|];
    }
  }

  lemma DivStep(r: nat, k: nat)
    requires 0 < k <= r
    ensures r / k == 1 + (r - k) / k
  {
    var q, rem := (r - k) / k, (r - k) % k;
    assert r - k == q * k + rem;
    assert r == (q + 1) * k + rem;
    DivUnique(r, k, q + 1, rem);
  }

  lemma DivSmall(r: nat, k: nat)
    requires r < k
    ensures r / k == 0
  {
    DivUnique(r, k, 0, r);
  }

  lemma DivUnique(r: nat, k: nat, q: nat, rem: nat)
    requires 0 < k && rem < k && r == q * k + rem
    ensures r / k == q
  {
    var p, s := r / k, r % k;
    assert r == p * k + s && 0 <= s < k;
    assert (q - p) * k == q * k - p * k == s - rem;
    if p < q {
      AtLeast(q - p, k);
    } else if q < p {
      AtLeast(p - q, k);
    }
  }

  lemma AtLeast(a: nat, k: nat)
    requires 1 <= a
    ensures k <= a * k
  {
    assert a * k == k + (a - 1) * k;
  }

  /** Dividing twice is dividing by the product. */
  lemma DivDiv(v: nat, a: nat, b: nat)
    requires 0 < a && 0 < b
    ensures 0 < a * b && v / a / b == v / (a * b)
  {
    var q := v / a;
    assert v == q * a + v % a;
    assert q == q / b * b + q % b;
    DivParts(v, a, b, v % a, q % b, q / b);
  }

  lemma DivParts(v: nat, a: nat, b: nat, r: nat, t: nat, p: nat)
    requires r < a && t < b && v == (p * b + t) * a + r
    ensures 0 < a * b && v / (a * b) == p
  {
    ProductBound(t, b, a, r);
    Regroup(p, b, t, a);
    DivUnique(v, a * b, p, t * a + r);
  }

  lemma Regroup(p: nat, b: nat, t: nat, a: nat)
    ensures (p * b + t) * a == p * (a * b) + t * a
  {
    assert (p * b + t) * a == p * b * a + t * a;
    assert p * b * a == p * (b * a) && b * a == a * b;
  }

  lemma ProductBound(t: nat, b: nat, a: nat, r: nat)
    requires t < b && r < a
    ensures t * a + r < a * b
  {
    var gap := b - t;
    AtLeast(gap, a);
    assert a * b == t * a + gap * a by { assert b == t + gap; }
  }
}
