/** Byte strings and the two comparisons the index layouts use.
    A key is the encoded columns followed by the eight bytes of the tuple identifier. */
module ByteOrder {

  type u8 = x: int | 0 <= x < 256

  type Bytes = seq<u8>

  const TID_SIZE := 8
  const MAX_ROW_SIZE := 8192 / 10

  function Min(a: int, b: int): int {
    if a < b then a else b
  }

  /** The sign convention of memcmp over the first n bytes. */
  function MemCmp(a: Bytes, b: Bytes, n: nat): int
    requires n <= |a| && n <= |b|
  {
    if n == 0 then 0
    else if a[0] != b[0] then a[0] - b[0]
    else MemCmp(a[1..], b[1..], n - 1)
  }

  function CmpLen(slot: Bytes, main: Bytes): int {
    if |main| < |slot| then 1 else if |main| > |slot| then -1 else 0
  }

  /** Negative when slot < main, zero when equal, positive when slot > main: a total order,
      because it is the order of the ranks. */
  function CmpFull(slot: Bytes, main: Bytes): (r: int)
    ensures r < 0 <==> Less(slot, main)
    ensures r > 0 <==> Less(main, slot)
    ensures r == 0 <==> slot == main
  {
    MemCmpIsRankOrder(slot, main);
    var cmp := MemCmp(slot, main, Min(|slot|, |main|));
    if cmp != 0 then cmp else CmpLen(slot, main)
  }

  /** Ignores the tuple identifier. The length subtraction is unsigned: a key shorter than the
      identifier wraps to a huge number and takes the same early return as an oversized one. */
  function CmpPrefix(slot: Bytes, main: Bytes): int {
    var minLen := Min(|slot|, |main|) - TID_SIZE;
    if minLen < 0 || minLen >= MAX_ROW_SIZE then 1
    else
      var cmp := MemCmp(slot, main, minLen);
      if cmp != 0 then cmp else CmpLen(slot, main)
  }

  /** Every byte string has a place on the real line; the place of "" is 0. */
  ghost function Rank(s: Bytes): (r: real)
    ensures 0.0 <= r < 1.0
    ensures r == 0.0 <==> s == []
  {
    if s == [] then 0.0 else (s[0] as real + 1.0 + Rank(s[1..])) / 257.0
  }

  ghost predicate Less(a: Bytes, b: Bytes) {
    Rank(a) < Rank(b)
  }

  ghost predicate Leq(a: Bytes, b: Bytes) {
    Rank(a) <= Rank(b)
  }

  lemma {:induction false} MemCmpIsRankOrder(a: Bytes, b: Bytes)
    ensures var cmp := MemCmp(a, b, Min(|a|, |b|));
            && (Rank(a) < Rank(b) <==> cmp < 0 || (cmp == 0 && |a| < |b|))
            && (Rank(a) == Rank(b) <==> cmp == 0 && |a| == |b|)
            && (a == b <==> cmp == 0 && |a| == |b|)
    decreases |a|
  {
    if a != [] && b != [] && a[0] == b[0] {
      MemCmpIsRankOrder(a[1..], b[1..]);
      assert a == [a[0]] + a[1..] && b == [b[0]] + b[1..];
    }
  }

  lemma RankInjective(a: Bytes, b: Bytes)
    requires Rank(a) == Rank(b)
    ensures a == b
  {
    MemCmpIsRankOrder(a, b);
  }

  /** The encoded columns, without the tuple identifier. */
  function Columns(k: Bytes): Bytes
    requires |k| >= TID_SIZE
  {
    k[..|k| - TID_SIZE]
  }

  predicate IsKey(k: Bytes) {
    TID_SIZE <= |k| < MAX_ROW_SIZE
  }

  predicate SamePrefix(a: Bytes, b: Bytes) {
    |a| == |b| && |a| >= TID_SIZE && Columns(a) == Columns(b)
  }

  /** The first difference lies inside both strings, and a is smaller there. */
  ghost predicate Before(a: Bytes, b: Bytes) {
    exists i: nat :: i < |a| && i < |b| && a[..i] == b[..i] && a[i] < b[i]
  }

  /** Two keys whose columns are equal, or are decided by a byte both of them have. */
  ghost predicate Comparable(a: Bytes, b: Bytes) {
    IsKey(a) && IsKey(b) &&
    (Columns(a) == Columns(b) || Before(Columns(a), Columns(b)) || Before(Columns(b), Columns(a)))
  }

  /** No member's columns are a proper prefix of another member's. */
  ghost predicate PrefixFree(ks: iset<Bytes>) {
    forall a, b | a in ks && b in ks :: Comparable(a, b)
  }

  lemma {:induction false} MemCmpBefore(a: Bytes, b: Bytes, n: nat, i: nat)
    requires i < n <= |a| && n <= |b|
    requires a[..i] == b[..i] && a[i] != b[i]
    ensures MemCmp(a, b, n) < 0 <==> a[i] < b[i]
    ensures MemCmp(a, b, n) > 0 <==> a[i] > b[i]
    decreases n
  {
    if i > 0 {
      assert a[0] == a[..i][0] && b[0] == b[..i][0];
      assert a[1..][..i - 1] == a[..i][1..] && b[1..][..i - 1] == b[..i][1..];
      MemCmpBefore(a[1..], b[1..], n - 1, i - 1);
    }
  }

  lemma {:induction false} MemCmpEqual(a: Bytes, b: Bytes, n: nat)
    requires n <= |a| && n <= |b|
    ensures MemCmp(a, b, n) == 0 <==> a[..n] == b[..n]
    decreases n
  {
    if n > 0 {
      MemCmpEqual(a[1..], b[1..], n - 1);
      assert a[..n] == [a[0]] + a[1..][..n - 1];
      assert b[..n] == [b[0]] + b[1..][..n - 1];
      if a[0] != b[0] {
        assert a[..n][0] != b[..n][0];
      } else if a[..n] == b[..n] {
        assert a[1..][..n - 1] == a[..n][1..];
        assert b[1..][..n - 1] == b[..n][1..];
      }
    }
  }

  lemma BeforeDecides(a: Bytes, b: Bytes, x: Bytes, y: Bytes)
    requires Before(a, b)
    ensures Before(a + x, b + y)
    ensures CmpFull(a + x, b + y) < 0 && CmpFull(b + y, a + x) > 0
  {
    var i: nat :| i < |a| && i < |b| && a[..i] == b[..i] && a[i] < b[i];
    var p, q := a + x, b + y;
    assert p[..i] == a[..i] && q[..i] == b[..i];
    MemCmpBefore(p, q, Min(|p|, |q|), i);
    MemCmpBefore(q, p, Min(|p|, |q|), i);
  }

  /** The comparison without the identifier is refined by the comparison with it, and it calls
      two keys equal exactly when their columns are. */
  lemma PrefixOrderRefined(a: Bytes, b: Bytes)
    requires Comparable(a, b)
    ensures CmpPrefix(a, b) < 0 ==> Less(a, b)
    ensures CmpPrefix(a, b) > 0 ==> Less(b, a)
    ensures CmpPrefix(a, b) == 0 <==> SamePrefix(a, b)
    ensures CmpPrefix(a, b) < 0 <==> Before(Columns(a), Columns(b))
  {
    var n := Min(|a|, |b|) - TID_SIZE;
    MemCmpEqual(a, b, n);
    assert a == Columns(a) + a[|a| - TID_SIZE..] && b == Columns(b) + b[|b| - TID_SIZE..];
    if Before(Columns(a), Columns(b)) {
      PrefixDecided(a, b);
    } else if Before(Columns(b), Columns(a)) {
      PrefixDecided(b, a);
    } else {
      assert a[..n] == Columns(a) && b[..n] == Columns(b);
    }
  }

  lemma PrefixDecided(a: Bytes, b: Bytes)
    requires IsKey(a) && IsKey(b) && Before(Columns(a), Columns(b))
    ensures CmpPrefix(a, b) < 0 && CmpPrefix(b, a) > 0
    ensures CmpFull(a, b) < 0 && CmpFull(b, a) > 0
    ensures !SamePrefix(a, b) && !Before(Columns(b), Columns(a))
  {
    var ca, cb := Columns(a), Columns(b);
    assert a == ca + a[|ca|..] && b == cb + b[|cb|..];
    BeforeDecides(ca, cb, a[|ca|..], b[|cb|..]);
    PrefixByte(a, b);
    if Before(cb, ca) {
      BeforeDecides(cb, ca, b[|cb|..], a[|ca|..]);
    }
  }

  lemma PrefixByte(a: Bytes, b: Bytes)
    requires IsKey(a) && IsKey(b) && Before(Columns(a), Columns(b))
    ensures CmpPrefix(a, b) < 0 && CmpPrefix(b, a) > 0
  {
    var ca, cb := Columns(a), Columns(b);
    var n := Min(|a|, |b|) - TID_SIZE;
    var i: nat :| i < |ca| && i < |cb| && ca[..i] == cb[..i] && ca[i] < cb[i];
    assert a[..i] == ca[..i] && b[..i] == cb[..i];
    MemCmpBefore(a, b, n, i);
    MemCmpBefore(b, a, n, i);
  }

  /** All keys with the columns of q lie together: nothing with other columns falls between two of them. */
  lemma SamePrefixConvex(q: Bytes, x: Bytes, f: Bytes, y: Bytes)
    requires Comparable(q, f) && Comparable(x, f) && Comparable(f, y)
    requires SamePrefix(q, x) && SamePrefix(q, y)
    requires Leq(x, f) && Leq(f, y)
    ensures SamePrefix(q, f)
  {
    PrefixOrderRefined(x, f);
    PrefixOrderRefined(f, y);
    assert Columns(x) == Columns(y);
  }

  /** The number whose bytes these are, most significant first. */
  function FromBigEndian(b: Bytes): nat {
    if b == [] then 0 else 256 * FromBigEndian(b[..|b| - 1]) + b[|b| - 1]
  }

  lemma {:induction false} FromBigEndianInjective(a: Bytes, b: Bytes)
    requires |a| == |b| && FromBigEndian(a) == FromBigEndian(b)
    ensures a == b
    decreases |a|
  {
    if a != [] {
      var n := |a| - 1;
      assert a[n] == b[n] && FromBigEndian(a[..n]) == FromBigEndian(b[..n]);
      FromBigEndianInjective(a[..n], b[..n]);
      assert a == a[..n] + [a[n]] && b == b[..n] + [b[n]];
    }
  }

  /** The search key: the columns of k with tuple identifier 0. */
  predicate IsSearchKey(q: Bytes) {
    IsKey(q) && q[|q| - TID_SIZE..] == [0, 0, 0, 0, 0, 0, 0, 0]
  }

  /** Identifier 0 sorts before every entry with the same columns. */
  lemma SearchKeyIsFirst(q: Bytes, x: Bytes)
    requires IsSearchKey(q) && SamePrefix(q, x)
    ensures Leq(q, x)
  {
    var c := Columns(q);
    assert q == c + [0, 0, 0, 0, 0, 0, 0, 0] && x == c + x[|c|..];
    RankCommonPrefix(c, [0, 0, 0, 0, 0, 0, 0, 0], x[|c|..]);
    ZerosAreLeast(x[|c|..], 8);
  }

  function Zeros(n: nat): (z: Bytes)
    ensures |z| == n
  {
    if n == 0 then [] else [0] + Zeros(n - 1)
  }

  lemma {:induction false} ZerosAreLeast(t: Bytes, n: nat)
    requires |t| == n
    ensures Leq(Zeros(n), t)
    ensures n == 8 ==> Zeros(n) == [0, 0, 0, 0, 0, 0, 0, 0]
  {
    if n > 0 {
      ZerosAreLeast(t[1..], n - 1);
      assert Zeros(n)[1..] == Zeros(n - 1);
      assert n == 8 ==> Zeros(8) == [0] + ([0] + ([0] + ([0] + ([0] + ([0] + ([0] + ([0] + Zeros(0))))))));
    }
  }

  lemma {:induction false} RankCommonPrefix(c: Bytes, x: Bytes, y: Bytes)
    ensures Leq(c + x, c + y) <==> Leq(x, y)
  {
    if c == [] {
      assert c + x == x && c + y == y;
    } else {
      RankCommonPrefix(c[1..], x, y);
      assert (c + x)[1..] == c[1..] + x && (c + y)[1..] == c[1..] + y;
    }
  }
}
