/** Strings as code points: their UTF-8 bytes, whose order is the order of the code points, and the in-place
    re-encoding of a buffer of four-byte code points. */
module TextEncoding {
  import opened ByteOrder

  /** A Unicode scalar value (section 3.9 of the Unicode Standard) other than NUL. */
  predicate IsPoint(c: nat) {
    0 < c < 0x11_0000 && !(0xD800 <= c < 0xE000)
  }

  predicate ArePoints(points: seq<nat>) {
    forall i | 0 <= i < |points| :: IsPoint(points[i])
  }

  function Utf8Point(c: nat): (b: Bytes)
    requires IsPoint(c)
    ensures 1 <= |b| <= 4 && b[0] > 0
  {
    if c < 0x80 then [c]
    else if c < 0x800 then [0xC0 + c / 0x40, 0x80 + c % 0x40]
    else if c < 0x1_0000 then [0xE0 + c / 0x1000, 0x80 + c / 0x40 % 0x40, 0x80 + c % 0x40]
    else [0xF0 + c / 0x4_0000, 0x80 + c / 0x1000 % 0x40, 0x80 + c / 0x40 % 0x40, 0x80 + c % 0x40]
  }

  predicate IsTail(b: u8) {
    0x80 <= b < 0xC0
  }

  /** What a byte has above its mark. */
  function Bits(b: u8, mark: int): int {
    b as int - mark
  }

  /** UTF-8 as a reader takes it: the leading byte tells how many bytes follow, every byte carries its bits of the point, and
      no point has more bytes than it needs. */
  lemma PointReads(c: nat)
    requires IsPoint(c)
    ensures var b := Utf8Point(c);
      if |b| == 1 then b[0] == c && c < 0x80
      else if |b| == 2 then
        && 0xC0 <= b[0] < 0xE0 && IsTail(b[1]) && 0x80 <= c < 0x800
        && c == 0x40 * Bits(b[0], 0xC0) + Bits(b[1], 0x80)
      else if |b| == 3 then
        && 0xE0 <= b[0] < 0xF0 && IsTail(b[1]) && IsTail(b[2]) && 0x800 <= c < 0x1_0000
        && c == 0x1000 * Bits(b[0], 0xE0) + 0x40 * Bits(b[1], 0x80) + Bits(b[2], 0x80)
      else
        && |b| == 4 && 0xF0 <= b[0] < 0xF8 && IsTail(b[1]) && IsTail(b[2]) && IsTail(b[3]) && 0x1_0000 <= c
        && c == 0x4_0000 * Bits(b[0], 0xF0) + 0x1000 * Bits(b[1], 0x80) + 0x40 * Bits(b[2], 0x80) + Bits(b[3], 0x80)
  {
    assert c / 0x1000 == c / 0x40 / 0x40 && c / 0x4_0000 == c / 0x1000 / 0x40;
  }

  function Utf8(points: seq<nat>): (b: Bytes)
    requires ArePoints(points)
    ensures |points| <= |b| <= 4 * |points|
  {
    if points == [] then [] else Utf8Point(points[0]) + Utf8(points[1..])
  }

  // ---- order ----

  ghost predicate PointsLess(s: seq<nat>, t: seq<nat>) {
    t != [] && (s == [] || s[0] < t[0] || (s[0] == t[0] && PointsLess(s[1..], t[1..])))
  }

  lemma PointBefore(c: nat, d: nat)
    requires IsPoint(c) && IsPoint(d) && c < d
    ensures Before(Utf8Point(c), Utf8Point(d))
  {
    var a, b := Utf8Point(c), Utf8Point(d);
    var i: nat := if a[0] != b[0] then 0 else if a[1] != b[1] then 1 else if a[2] != b[2] then 2 else 3;
    if |a| == |b| {
      assert a[0] == b[0] ==> |a| > 1;
      Digits(c, d);
    }
    assert i < |a| && i < |b| && a[..i] == b[..i] && a[i] < b[i];
  }

  /** The digits to base 64 are ordered as the numbers. */
  lemma Digits(c: nat, d: nat)
    requires c < d
    ensures c / 0x40 <= d / 0x40 && c / 0x1000 <= d / 0x1000 && c / 0x4_0000 <= d / 0x4_0000
    ensures c / 0x40 == d / 0x40 ==> c % 0x40 < d % 0x40
    ensures c / 0x1000 == d / 0x1000 && c / 0x40 < d / 0x40 ==> c / 0x40 % 0x40 < d / 0x40 % 0x40
    ensures c / 0x4_0000 == d / 0x4_0000 && c / 0x1000 < d / 0x1000 ==> c / 0x1000 % 0x40 < d / 0x1000 % 0x40
    ensures c / 0x40 == d / 0x40 ==> c / 0x1000 == d / 0x1000
    ensures c / 0x1000 == d / 0x1000 ==> c / 0x4_0000 == d / 0x4_0000
    ensures c / 0x1000 == d / 0x1000 && c / 0x40 % 0x40 == d / 0x40 % 0x40 ==> c / 0x40 == d / 0x40
    ensures c / 0x4_0000 == d / 0x4_0000 && c / 0x1000 % 0x40 == d / 0x1000 % 0x40 ==> c / 0x1000 == d / 0x1000
  {
    assert c / 0x40 / 0x40 == c / 0x1000 && d / 0x40 / 0x40 == d / 0x1000;
    assert c / 0x1000 / 0x40 == c / 0x4_0000 && d / 0x1000 / 0x40 == d / 0x4_0000;
  }

  lemma BeforeAfter(c: Bytes, x: Bytes, y: Bytes)
    requires Before(x, y)
    ensures Before(c + x, c + y)
  {
    var i: nat :| i < |x| && i < |y| && x[..i] == y[..i] && x[i] < y[i];
    assert (c + x)[..|c| + i] == c + x[..i] && (c + y)[..|c| + i] == c + y[..i];
    assert (c + x)[|c| + i] < (c + y)[|c| + i];
  }

  /** The bytes of NUL-closed strings are ordered as their code points, by a byte that both have. */
  lemma {:induction false} TextBefore(s: seq<nat>, t: seq<nat>)
    requires ArePoints(s) && ArePoints(t) && PointsLess(s, t)
    ensures Before(Utf8(s) + [0], Utf8(t) + [0])
    decreases |s|
  {
    hide Before, Utf8Point, IsPoint;
    var b := Utf8(t) + [0];
    assert IsPoint(t[0]);
    assert Utf8(t) + [0] == Utf8Point(t[0]) + (Utf8(t[1..]) + [0]);
    if s == [] {
      assert Utf8(s) + [0] == [0];
      FirstBefore([0], b);
    } else {
      assert IsPoint(s[0]);
      assert Utf8(s) + [0] == Utf8Point(s[0]) + (Utf8(s[1..]) + [0]);
      if s[0] == t[0] {
        TextBefore(s[1..], t[1..]);
        BeforeAfter(Utf8Point(s[0]), Utf8(s[1..]) + [0], Utf8(t[1..]) + [0]);
      } else {
        PointBefore(s[0], t[0]);
        BeforeDecides(Utf8Point(s[0]), Utf8Point(t[0]), Utf8(s[1..]) + [0], Utf8(t[1..]) + [0]);
      }
    }
  }

  lemma FirstBefore(a: Bytes, b: Bytes)
    requires a != [] && b != [] && a[0] < b[0]
    ensures Before(a, b)
  {
    assert a[..0] == b[..0];
  }

  lemma {:induction false} PointsTotal(s: seq<nat>, t: seq<nat>)
    ensures PointsLess(s, t) || s == t || PointsLess(t, s)
    decreases |s|
  {
    if s != [] && t != [] && s[0] == t[0] {
      PointsTotal(s[1..], t[1..]);
      assert s == [s[0]] + s[1..] && t == [t[0]] + t[1..];
    }
  }

  // ---- the buffer of code points ----

  /** A code point in four bytes, the lowest first. */
  function Wide(c: nat): (b: Bytes)
    requires c < 0x1_0000_0000
    ensures |b| == 4
  {
    [Low(c), Low(c / 0x100), Low(c / 0x1_0000), Low(c / 0x100_0000)]
  }

  function Low(c: nat): u8 {
    c % 0x100
  }

  function Narrow(b: Bytes): nat
    requires |b| == 4
  {
    b[0] as int + 0x100 * (b[1] as int) + 0x1_0000 * (b[2] as int) + 0x100_0000 * (b[3] as int)
  }

  lemma NarrowWide(c: nat)
    requires c < 0x1_0000_0000
    ensures Narrow(Wide(c)) == c
  {
    assert c / 0x1_0000 == c / 0x100 / 0x100 && c / 0x100_0000 == c / 0x1_0000 / 0x100;
  }

  function WideAll(points: seq<nat>): (b: Bytes)
    requires ArePoints(points)
    ensures |b| == 4 * |points|
  {
    if points == [] then [] else
      assert IsPoint(points[0]);
      Wide(points[0]) + WideAll(points[1..])
  }

  lemma {:induction false} WideAt(points: seq<nat>, i: nat)
    requires ArePoints(points) && i < |points|
    ensures IsPoint(points[i]) && WideAll(points)[4 * i..4 * i + 4] == Wide(points[i])
  {
    var b, rest := WideAll(points), WideAll(points[1..]);
    assert IsPoint(points[0]);
    if i > 0 {
      WideAt(points[1..], i - 1);
      assert b[4 * i..4 * i + 4] == rest[4 * (i - 1)..4 * (i - 1) + 4];
    }
  }

  lemma {:induction false} Utf8Step(points: seq<nat>, i: nat)
    requires ArePoints(points) && i < |points|
    ensures IsPoint(points[i]) && Utf8(points[..i + 1]) == Utf8(points[..i]) + Utf8Point(points[i])
  {
    hide Utf8Point, IsPoint;
    assert points[..i + 1][0] == points[0] && points[..i + 1][1..] == points[1..][..i];
    if i == 0 {
      assert points[..1] == [points[0]];
    } else {
      Utf8Step(points[1..], i - 1);
      assert points[..i][0] == points[0] && points[..i][1..] == points[1..][..i - 1];
      assert points[1..][i - 1] == points[i];
    }
  }

  /** Bytes put into the buffer from the cursor on. */
  method Write(out: array<u8>, cur: nat, bytes: Bytes) returns (next: nat)
    requires cur + |bytes| <= out.Length
    modifies out
    ensures next == cur + |bytes| && out[..cur] == old(out[..cur]) && out[cur..next] == bytes
    ensures out[next..] == old(out[next..])
  {
    for i := 0 to |bytes|
      invariant out[..cur] == old(out[..cur]) && out[cur..cur + i] == bytes[..i]
      invariant out[cur + |bytes|..] == old(out[cur + |bytes|..])
    {
      out[cur + i] := bytes[i];
    }
    next := cur + |bytes|;
  }

  /** The bytes from the cursor on replaced by others. */
  function Over(buf: Bytes, cur: nat, bytes: Bytes): (r: Bytes)
    requires cur + |bytes| <= |buf|
    ensures |r| == |buf|
  {
    buf[..cur] + bytes + buf[cur + |bytes|..]
  }

  lemma OverOver(buf: Bytes, cur: nat, a: Bytes, b: Bytes)
    requires cur + |a| + |b| <= |buf|
    ensures Over(Over(buf, cur, a), cur + |a|, b) == Over(buf, cur, a + b)
  {
    var o := Over(buf, cur, a);
    assert o[..cur + |a|] == buf[..cur] + a;
    assert o[cur + |a| + |b|..] == buf[cur + |a| + |b|..];
    assert buf[..cur] + a + b == buf[..cur] + (a + b);
  }

  lemma IsOver(old_: Bytes, buf: Bytes, cur: nat, bytes: Bytes)
    requires cur + |bytes| <= |buf| == |old_|
    requires buf[..cur] == old_[..cur] && buf[cur..cur + |bytes|] == bytes && buf[cur + |bytes|..] == old_[cur + |bytes|..]
    ensures buf == Over(old_, cur, bytes)
  {
    assert buf == buf[..cur] + buf[cur..cur + |bytes|] + buf[cur + |bytes|..];
  }

  /** How far an encoded string reaches: the code points come first, the closing NUL may lie behind them. */
  function TextReach(points: seq<nat>): (n: nat)
    requires ArePoints(points)
    ensures n >= |Utf8(points)| + 1
  {
    if 4 * |points| >= |Utf8(points)| + 1 then 4 * |points| else |Utf8(points)| + 1
  }

  /** The code points are put into the buffer and re-encoded where they are, never ahead of the one being read. What
      the shorter bytes do not cover stays there. */
  method EncodeText(out: array<u8>, cur: nat, points: seq<nat>) returns (next: nat)
    requires ArePoints(points) && cur + TextReach(points) <= out.Length
    modifies out
    ensures next == cur + |Utf8(points)| + 1 && out[..cur] == old(out[..cur]) && out[cur..next] == Utf8(points) + [0]
    ensures next <= cur + 4 * |points| ==> out[next..cur + 4 * |points|] == WideAll(points)[next - cur..]
    ensures out[cur + TextReach(points)..] == old(out[cur + TextReach(points)..])
  {
    hide Utf8Point, IsPoint, Wide, Narrow, TextReach, Over;
    ReachCovers(points);
    ghost var start := out[..];
    var end := Write(out, cur, WideAll(points));
    ghost var filled := out[..];
    IsOver(start, filled, cur, WideAll(points));
    OverParts(start, cur, WideAll(points));
    var w := 0;
    NoneOver(filled, cur);
    for r := 0 to |points|
      invariant w == |Utf8(points[..r])| <= 4 * r
      invariant out[..] == Over(filled, cur, Utf8(points[..r]))
    {
      var c := ReadPoint(out, cur, points, r, filled, Utf8(points[..r]));
      w := Append(out, cur, w, Utf8Point(c), filled, Utf8(points[..r]));
      Utf8Step(points, r);
    }
    assert points[..|points|] == points;
    w := Append(out, cur, w, [0], filled, Utf8(points));
    next := cur + w;
    Encoded(start, filled, out[..], cur, points);
  }

  lemma Encoded(start: Bytes, filled: Bytes, o: Bytes, cur: nat, points: seq<nat>)
    requires ArePoints(points) && cur + TextReach(points) <= |start| == |filled|
    requires filled == Over(start, cur, WideAll(points)) && o == Over(filled, cur, Utf8(points) + [0])
    ensures var next, end := cur + |Utf8(points)| + 1, cur + 4 * |points|;
      && |o| == |start| && o[..cur] == start[..cur] && o[cur..next] == Utf8(points) + [0]
      && (next <= end ==> o[next..end] == WideAll(points)[next - cur..])
      && o[cur + TextReach(points)..] == start[cur + TextReach(points)..]
  {
    hide Over, TextReach, Utf8, WideAll;
    var next, end, reach := cur + |Utf8(points)| + 1, cur + 4 * |points|, cur + TextReach(points);
    ReachCovers(points);
    OverParts(start, cur, WideAll(points));
    OverParts(filled, cur, Utf8(points) + [0]);
    if next <= end {
      SliceKept(o, filled, next, next, end);
      SliceOfSlice(filled, cur, next, end);
    }
    SliceKept(o, filled, next, reach, |o|);
    SliceKept(filled, start, end, reach, |o|);
    assert o[reach..] == o[reach..|o|] && start[reach..] == start[reach..|o|] && filled[reach..] == filled[reach..|o|];
  }

  /** More bytes behind the w that are done. */
  method Append(out: array<u8>, cur: nat, w: nat, bytes: Bytes, ghost filled: Bytes, ghost done: Bytes) returns (v: nat)
    requires w == |done| && cur + w + |bytes| <= out.Length == |filled| && out[..] == Over(filled, cur, done)
    modifies out
    ensures v == w + |bytes| && out[..] == Over(filled, cur, done + bytes)
  {
    hide Over;
    ghost var before := out[..];
    var n := Write(out, cur + w, bytes);
    IsOver(before, out[..], cur + w, bytes);
    OverOver(filled, cur, done, bytes);
    v := w + |bytes|;
  }

  /** The next code point still lies where it was put. */
  method ReadPoint(out: array<u8>, cur: nat, points: seq<nat>, r: nat, ghost filled: Bytes, ghost done: Bytes)
    returns (c: nat)
    requires ArePoints(points) && r < |points| && |done| <= 4 * r && cur + 4 * |points| <= out.Length == |filled|
    requires out[..] == Over(filled, cur, done) && filled[cur..cur + 4 * |points|] == WideAll(points)
    ensures c == points[r] && IsPoint(c)
  {
    hide Utf8Point, Wide, Narrow, WideAll, Over;
    var four := out[cur + 4 * r..cur + 4 * r + 4];
    WideAt(points, r);
    OverParts(filled, cur, done);
    SliceKept(out[..], filled, cur + |done|, cur + 4 * r, cur + 4 * r + 4);
    Within(filled, cur, cur + 4 * |points|, 4 * r, 4 * r + 4);
    assert four == out[..][cur + 4 * r..cur + 4 * r + 4];
    PointNarrow(points[r]);
    c := Narrow(four);
  }

  lemma NoneOver(buf: Bytes, cur: nat)
    requires cur <= |buf|
    ensures Over(buf, cur, []) == buf
  {
  }

  lemma OverParts(buf: Bytes, cur: nat, bytes: Bytes)
    requires cur + |bytes| <= |buf|
    ensures var o := Over(buf, cur, bytes);
      && o[..cur] == buf[..cur] && o[cur..cur + |bytes|] == bytes && o[cur + |bytes|..] == buf[cur + |bytes|..]
  {
  }

  /** What lies behind the bytes written last is as it was before. */
  lemma SliceKept(o: Bytes, filled: Bytes, next: nat, i: nat, j: nat)
    requires next <= i <= j <= |o| == |filled| && o[next..] == filled[next..]
    ensures o[i..j] == filled[i..j]
  {
    var p, q := o[next..], filled[next..];
    assert p[i - next..j - next] == o[i..j];
    assert q[i - next..j - next] == filled[i..j];
  }

  lemma Within(buf: Bytes, i: nat, j: nat, a: nat, b: nat)
    requires i <= j <= |buf| && a <= b <= j - i
    ensures buf[i..j][a..b] == buf[i + a..i + b]
  {
    var p, q := buf[i..j][a..b], buf[i + a..i + b];
    assert |p| == |q|;
    forall k | 0 <= k < |p| ensures p[k] == q[k] {
      assert p[k] == buf[i..j][a + k] == buf[i + (a + k)];
      assert q[k] == buf[i + a + k];
    }
  }

  lemma SliceOfSlice(buf: Bytes, i: nat, k: nat, j: nat)
    requires i <= k <= j <= |buf|
    ensures buf[i..j][k - i..] == buf[k..j]
  {
  }

  lemma PointNarrow(c: nat)
    requires IsPoint(c)
    ensures Narrow(Wide(c)) == c && |Utf8Point(c)| <= 4
  {
    NarrowWide(c);
  }

  lemma ReachCovers(points: seq<nat>)
    requires ArePoints(points)
    ensures TextReach(points) >= 4 * |points| && TextReach(points) >= |Utf8(points)| + 1
  {
  }
}
