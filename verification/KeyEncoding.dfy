/** Index keys: columns encoded so that byte order is the order of the values, then the tuple identifier. */
module KeyEncoding {
  import opened ByteOrder
  import opened TextEncoding

  // ---- numbers as bytes ----

  function Pow256(w: nat): (p: nat)
    ensures p > 0
  {
    if w == 0 then 1 else 256 * Pow256(w - 1)
  }

  function Pow2(e: nat): (p: nat)
    ensures p > 0
  {
    if e == 0 then 1 else 2 * Pow2(e - 1)
  }

  /** The low w bytes of n, most significant first. */
  function BigEndian(n: nat, w: nat): (b: Bytes)
    ensures |b| == w
  {
    if w == 0 then [] else BigEndian(n / 256, w - 1) + [n % 256]
  }

  lemma {:induction false} BigEndianOrder(n: nat, m: nat, w: nat)
    requires n < m < Pow256(w)
    ensures Before(BigEndian(n, w), BigEndian(m, w))
  {
    if w == 0 {
    } else {
      var a, b := BigEndian(n / 256, w - 1), BigEndian(m / 256, w - 1);
      if n / 256 == m / 256 {
        assert (a + [n % 256])[..w - 1] == a && (b + [m % 256])[..w - 1] == b;
        assert BigEndian(n, w)[w - 1] < BigEndian(m, w)[w - 1];
      } else {
        BigEndianOrder(n / 256, m / 256, w - 1);
        BeforeDecides(a, b, [n % 256], [m % 256]);
      }
    }
  }

  lemma {:induction false} BigEndianReads(n: nat, w: nat)
    requires n < Pow256(w)
    ensures FromBigEndian(BigEndian(n, w)) == n
    decreases w
  {
    if w > 0 {
      BigEndianReads(n / 256, w - 1);
      assert BigEndian(n, w)[..w - 1] == BigEndian(n / 256, w - 1);
    }
  }

  // ---- values ----

  /** U, I: an integer of w bytes. F: a double. S: a string. */
  datatype Type = U(w: nat) | I(w: nat) | F | S

  /** Text: the code points the string decomposes into. */
  datatype Value = Int(n: int) | Double(bits: nat) | Text(points: seq<nat>)

  datatype Column = Column(ty: Type, nullable: bool)

  datatype Cell = Null | Some(v: Value)

  function Half(w: nat): (h: nat) {
    Pow256(w) / 2
  }

  lemma EvenHalf(x: nat, y: nat)
    requires x == y + y
    ensures x / 2 == y
  {
  }

  lemma HalfTwice(w: nat)
    requires w > 0
    ensures 2 * Half(w) == Pow256(w)
  {
    hide Pow256;
    PowNext(w);
    EvenHalf(Pow256(w), 128 * Pow256(w - 1));
  }

  lemma PowNext(w: nat)
    requires w > 0
    ensures Pow256(w) == 256 * Pow256(w - 1)
  {
  }

  ghost predicate Fits(ty: Type, v: Value) {
    match ty
    case U(w) => w in {1, 2, 4, 8} && v.Int? && 0 <= v.n < Pow256(w)
    case I(w) => w in {1, 2, 4, 8} && v.Int? && -(Half(w) as int) <= v.n < Half(w)
    case F => v.Double? && v.bits < 0x1_0000_0000_0000_0000
    case S => v.Text? && ArePoints(v.points)
  }

  /** A cell of a column that is not nullable is never null. */
  ghost predicate CellFits(c: Column, x: Cell) {
    match x
    case Null => c.nullable
    case Some(v) => Fits(c.ty, v)
  }

  // ---- doubles ----

  const SIGN := 0x8000_0000_0000_0000
  const INFINITY := 0x7FF0_0000_0000_0000
  const QUIET_NAN := 0x7FF8_0000_0000_0000
  const FRACTION := 0x10_0000_0000_0000

  predicate IsZero(u: nat) {
    u % SIGN == 0
  }

  predicate IsNaN(u: nat) {
    u % SIGN > INFINITY
  }

  /** The absolute value in units of 2^-1074, from the exponent and fraction fields (IEEE 754-2019, section
      3.4). Infinity comes out as the next power of two above the finite values. */
  ghost function Magnitude(m: nat): nat {
    var e, f := m / FRACTION, m % FRACTION;
    if e == 0 then f else (FRACTION + f) * Pow2(e - 1)
  }

  ghost function Number(u: nat): int
    requires !IsNaN(u)
  {
    if u >= SIGN then -(Magnitude(u % SIGN) as int) else Magnitude(u % SIGN)
  }

  lemma {:induction false} Pow2Grows(d: nat, e: nat)
    requires d <= e
    ensures Pow2(d) <= Pow2(e)
    decreases e
  {
    if d < e {
      Pow2Grows(d, e - 1);
    }
  }

  lemma MagnitudeOrder(m: nat, n: nat)
    requires m < n
    ensures Magnitude(m) < Magnitude(n)
  {
    var d, e, f, g := m / FRACTION, n / FRACTION, m % FRACTION, n % FRACTION;
    assert m == d * FRACTION + f && n == e * FRACTION + g;
    if d == e {
      if d > 0 {
        Scales(FRACTION + f, FRACTION + g, Pow2(d - 1));
      }
    } else {
      assert d < e;
      Pow2Grows(0, e - 1);
      Scales'(FRACTION, FRACTION + g, Pow2(e - 1));
      if d > 0 {
        Pow2Grows(d, e - 1);
        Scales(FRACTION + f, 2 * FRACTION, Pow2(d - 1));
        Scales'(Pow2(d), Pow2(e - 1), FRACTION);
        assert 2 * FRACTION * Pow2(d - 1) == FRACTION * Pow2(d);
      } else {
        Scales'(1, Pow2(e - 1), FRACTION);
      }
    }
  }

  lemma Scales(a: nat, b: nat, p: nat)
    requires a < b && p > 0
    ensures a * p < b * p
  {
  }

  lemma Scales'(a: nat, b: nat, p: nat)
    requires a <= b
    ensures a * p <= b * p
  {
  }

  // ---- the order of values ----

  /** Doubles as section 5.11 of IEEE 754-2019 compares them, with every NaN above all numbers. */
  ghost predicate DoubleLess(x: nat, y: nat) {
    !IsNaN(x) && (IsNaN(y) || Number(x) < Number(y))
  }

  ghost predicate DoubleSame(x: nat, y: nat) {
    if IsNaN(x) || IsNaN(y) then IsNaN(x) && IsNaN(y) else Number(x) == Number(y)
  }

  ghost predicate ValueLess(x: Value, y: Value) {
    match (x, y)
    case (Int(n), Int(m)) => n < m
    case (Double(u), Double(v)) => DoubleLess(u, v)
    case (Text(s), Text(t)) => PointsLess(s, t)
    case _ => false
  }

  ghost predicate ValueSame(x: Value, y: Value) {
    match (x, y)
    case (Double(u), Double(v)) => DoubleSame(u, v)
    case _ => x == y
  }

  /** Null comes first. */
  ghost predicate CellLess(x: Cell, y: Cell) {
    match (x, y)
    case (Null, Some(_)) => true
    case (Some(v), Some(w)) => ValueLess(v, w)
    case _ => false
  }

  ghost predicate CellSame(x: Cell, y: Cell) {
    match (x, y)
    case (Some(v), Some(w)) => ValueSame(v, w)
    case _ => x == y
  }

  // ---- encoding ----

  function TwosComplement(n: int, w: nat): nat {
    n % Pow256(w)
  }

  /** Exclusive or with the top bit. */
  function FlipTop(u: nat, w: nat): nat {
    if u >= Half(w) then u - Half(w) else u + Half(w)
  }

  function Normalised(u: nat): (v: nat)
    ensures u < 2 * SIGN ==> v < 2 * SIGN
  {
    if IsZero(u) then 0 else if IsNaN(u) then QUIET_NAN else u
  }

  /** A negative number has all its bits flipped, any other its sign bit. */
  function Masked(u: nat): nat
    requires u < 2 * SIGN
  {
    if u >= SIGN then 2 * SIGN - 1 - u else u + SIGN
  }

  function EncodeValue(ty: Type, v: Value): Bytes
    requires Fits(ty, v)
  {
    match ty
    case U(w) => BigEndian(v.n, w)
    case I(w) => BigEndian(FlipTop(TwosComplement(v.n, w), w), w)
    case F => BigEndian(Masked(Normalised(v.bits)), 8)
    case S => Utf8(v.points) + [0]
  }

  function EncodeCell(c: Column, x: Cell): Bytes
    requires CellFits(c, x)
  {
    match x
    case Null => [0]
    case Some(v) => (if c.nullable then [1] else []) + EncodeValue(c.ty, v)
  }

  ghost predicate RowFits(cols: seq<Column>, row: seq<Cell>) {
    |row| == |cols| && forall i | 0 <= i < |cols| :: CellFits(cols[i], row[i])
  }

  function EncodeRow(cols: seq<Column>, row: seq<Cell>): Bytes
    requires RowFits(cols, row)
  {
    if cols == [] then [] else EncodeCell(cols[0], row[0]) + EncodeRow(cols[1..], row[1..])
  }

  function Key(cols: seq<Column>, row: seq<Cell>, tid: nat): Bytes
    requires RowFits(cols, row)
  {
    EncodeRow(cols, row) + BigEndian(tid, TID_SIZE)
  }

  // ---- one value ----

  /** What an encoding keeps: smaller values come first, by a byte that both have; equal bytes are equal values. */
  ghost predicate Keeps(less: bool, same: bool, greater: bool, a: Bytes, b: Bytes) {
    && (less ==> Before(a, b)) && (greater ==> Before(b, a)) && (same <==> a == b)
    && (less || same || greater)
  }

  lemma NumbersKeep(n: nat, m: nat, w: nat)
    requires n < Pow256(w) && m < Pow256(w)
    ensures Keeps(n < m, n == m, m < n, BigEndian(n, w), BigEndian(m, w))
  {
    if n < m {
      BigEndianOrder(n, m, w);
      NotEqual(BigEndian(n, w), BigEndian(m, w));
    } else if m < n {
      BigEndianOrder(m, n, w);
      NotEqual(BigEndian(m, w), BigEndian(n, w));
    }
  }

  lemma NotEqual(a: Bytes, b: Bytes)
    requires Before(a, b)
    ensures a != b
  {
  }

  lemma SignedAsUnsigned(n: int, w: nat)
    requires w > 0 && -(Half(w) as int) <= n < Half(w)
    ensures FlipTop(TwosComplement(n, w), w) == n + Half(w) < Pow256(w)
  {
    HalfTwice(w);
    ModOnce(n, Pow256(w));
  }

  lemma ModOnce(n: int, p: nat)
    requires -(p as int) <= n < p && p > 0
    ensures n % p == if n < 0 then n + p else n
  {
    var q, r := n / p, n % p;
    assert q * p + r == n;
    assert q >= 1 ==> q * p >= p;
    assert q <= -2 ==> q * p <= -2 * p;
  }

  lemma MaskedOrder(u: nat, v: nat)
    requires u < 2 * SIGN && v < 2 * SIGN
    ensures var x, y := Masked(Normalised(u)), Masked(Normalised(v));
      x < 2 * SIGN && y < 2 * SIGN && (DoubleLess(u, v) <==> x < y) && (DoubleSame(u, v) <==> x == y)
  {
    var a, b := u % SIGN, v % SIGN;
    assert a == (if u >= SIGN then u - SIGN else u) && b == (if v >= SIGN then v - SIGN else v);
    if a < b {
      MagnitudeOrder(a, b);
    } else if b < a {
      MagnitudeOrder(b, a);
    }
    assert Magnitude(0) == 0;
    if a > 0 {
      MagnitudeOrder(0, a);
    }
    if b > 0 {
      MagnitudeOrder(0, b);
    }
  }

  lemma Pow256Values()
    ensures Pow256(1) == 0x100 && Pow256(2) == 0x1_0000 && Pow256(4) == 0x1_0000_0000 && Pow256(8) == 2 * SIGN
  {
    assert Pow256(3) == 0x100_0000;
    assert Pow256(5) == 0x100_0000_0000;
    assert Pow256(6) == 0x1_0000_0000_0000;
    assert Pow256(7) == 0x100_0000_0000_0000;
  }

  /** NUL-closed strings keep the order of their code points, and none is a prefix of another. */
  lemma TextKeeps(s: seq<nat>, t: seq<nat>)
    requires ArePoints(s) && ArePoints(t)
    ensures Keeps(PointsLess(s, t), s == t, PointsLess(t, s), Utf8(s) + [0], Utf8(t) + [0])
  {
    PointsTotal(s, t);
    if PointsLess(s, t) {
      TextBefore(s, t);
      NotEqual(Utf8(s) + [0], Utf8(t) + [0]);
    }
    if PointsLess(t, s) {
      TextBefore(t, s);
      NotEqual(Utf8(t) + [0], Utf8(s) + [0]);
    }
  }

  lemma ValueKeeps(ty: Type, x: Value, y: Value)
    requires Fits(ty, x) && Fits(ty, y)
    ensures Keeps(ValueLess(x, y), ValueSame(x, y), ValueLess(y, x), EncodeValue(ty, x), EncodeValue(ty, y))
  {
    hide Keeps, BigEndian, Before, Masked, Normalised, FlipTop, TwosComplement, DoubleLess, DoubleSame;
    match ty
    case U(w) => NumbersKeep(x.n, y.n, w);
    case I(w) =>
      SignedAsUnsigned(x.n, w);
      SignedAsUnsigned(y.n, w);
      NumbersKeep(x.n + Half(w), y.n + Half(w), w);
    case F =>
      Pow256Values();
      MaskedOrder(x.bits, y.bits);
      MaskedOrder(y.bits, x.bits);
      NumbersKeep(Masked(Normalised(x.bits)), Masked(Normalised(y.bits)), 8);
    case S => TextKeeps(x.points, y.points);
  }

  lemma CellKeeps(c: Column, x: Cell, y: Cell)
    requires CellFits(c, x) && CellFits(c, y)
    ensures Keeps(CellLess(x, y), CellSame(x, y), CellLess(y, x), EncodeCell(c, x), EncodeCell(c, y))
  {
    hide EncodeValue, ValueLess, ValueSame, Fits;
    var a, b := EncodeCell(c, x), EncodeCell(c, y);
    if x.Some? && y.Some? {
      var v, w := EncodeValue(c.ty, x.v), EncodeValue(c.ty, y.v);
      ValueKeeps(c.ty, x.v, y.v);
      if c.nullable {
        KeepsAfter(ValueLess(x.v, y.v), ValueSame(x.v, y.v), ValueLess(y.v, x.v), [1], v, w);
      } else {
        assert a == v && b == w;
      }
    } else if x.Null? != y.Null? {
      assert a[..0] == b[..0];
      assert a[0] != b[0];
    }
  }

  lemma KeepsAfter(less: bool, same: bool, greater: bool, c: Bytes, a: Bytes, b: Bytes)
    requires Keeps(less, same, greater, a, b)
    ensures Keeps(less, same, greater, c + a, c + b)
  {
    if less {
      BeforeAfter(c, a, b);
    }
    if greater {
      BeforeAfter(c, b, a);
    }
    assert (c + a)[|c|..] == a && (c + b)[|c|..] == b;
  }

  // ---- rows ----

  /** Column by column, the first that differs decides. */
  ghost predicate RowLess(x: seq<Cell>, y: seq<Cell>)
    requires |x| == |y|
  {
    x != [] && (CellLess(x[0], y[0]) || (CellSame(x[0], y[0]) && RowLess(x[1..], y[1..])))
  }

  ghost predicate RowSame(x: seq<Cell>, y: seq<Cell>)
    requires |x| == |y|
  {
    forall i | 0 <= i < |x| :: CellSame(x[i], y[i])
  }

  /** The columns of a key keep the order of the rows, for every list of columns. */
  lemma {:induction false} RowKeeps(cols: seq<Column>, x: seq<Cell>, y: seq<Cell>)
    requires RowFits(cols, x) && RowFits(cols, y)
    ensures Keeps(RowLess(x, y), RowSame(x, y), RowLess(y, x), EncodeRow(cols, x), EncodeRow(cols, y))
    decreases |cols|
  {
    hide EncodeCell, CellLess, CellSame, CellFits;
    if cols != [] {
      assert CellFits(cols[0], x[0]) && CellFits(cols[0], y[0]);
      CellKeeps(cols[0], x[0], y[0]);
      RowKeeps(cols[1..], x[1..], y[1..]);
      var a, b := EncodeCell(cols[0], x[0]), EncodeCell(cols[0], y[0]);
      var p, q := EncodeRow(cols[1..], x[1..]), EncodeRow(cols[1..], y[1..]);
      SameTail(x, y);
      if a == b {
        KeepsAfter(RowLess(x[1..], y[1..]), RowSame(x[1..], y[1..]), RowLess(y[1..], x[1..]), a, p, q);
        NotBoth(CellLess(x[0], y[0]), CellSame(x[0], y[0]), CellLess(y[0], x[0]), a, b);
        CellSameBoth(cols[0], x[0], y[0]);
      } else {
        NotBoth(CellLess(x[0], y[0]), CellSame(x[0], y[0]), CellLess(y[0], x[0]), a, b);
        CellSameBoth(cols[0], x[0], y[0]);
        if CellLess(x[0], y[0]) {
          BeforeDecides(a, b, p, q);
          NotEqual(a + p, b + q);
        } else {
          BeforeDecides(b, a, q, p);
          NotEqual(b + q, a + p);
        }
      }
    }
  }

  lemma SameTail(x: seq<Cell>, y: seq<Cell>)
    requires |x| == |y| > 0
    ensures RowSame(x, y) <==> CellSame(x[0], y[0]) && RowSame(x[1..], y[1..])
  {
    if CellSame(x[0], y[0]) && RowSame(x[1..], y[1..]) {
      forall i | 0 <= i < |x| ensures CellSame(x[i], y[i]) {
        assert i > 0 ==> CellSame(x[1..][i - 1], y[1..][i - 1]);
      }
    }
  }

  lemma CellSameBoth(c: Column, x: Cell, y: Cell)
    requires CellFits(c, x) && CellFits(c, y)
    ensures CellSame(x, y) <==> CellSame(y, x)
  {
  }

  /** Of less, same and greater, one holds. */
  lemma NotBoth(less: bool, same: bool, greater: bool, a: Bytes, b: Bytes)
    requires Keeps(less, same, greater, a, b)
    ensures !(less && same) && !(less && greater) && !(same && greater)
  {
    if less {
      NotEqual(a, b);
      BeforeDecides(a, b, [], []);
    }
    if greater {
      NotEqual(b, a);
      BeforeDecides(b, a, [], []);
    }
    assert a + [] == a && b + [] == b;
  }

  // ---- keys ----

  /** The order of keys is the order of (columns, identifier); two keys are the same just when columns and
      identifier are. */
  lemma KeyOrder(cols: seq<Column>, x: seq<Cell>, t: nat, y: seq<Cell>, v: nat)
    requires RowFits(cols, x) && RowFits(cols, y) && t < 2 * SIGN && v < 2 * SIGN
    ensures CmpFull(Key(cols, x, t), Key(cols, y, v)) < 0 <==> RowLess(x, y) || (RowSame(x, y) && t < v)
    ensures CmpFull(Key(cols, x, t), Key(cols, y, v)) == 0 <==> RowSame(x, y) && t == v
  {
    hide EncodeRow, BigEndian, RowLess, RowSame, CmpFull;
    var a, b, p, q := EncodeRow(cols, x), EncodeRow(cols, y), BigEndian(t, 8), BigEndian(v, 8);
    Pow256Values();
    RowKeeps(cols, x, y);
    NumbersKeep(t, v, 8);
    NotBoth(RowLess(x, y), RowSame(x, y), RowLess(y, x), a, b);
    if RowSame(x, y) {
      KeepsAfter(t < v, t == v, v < t, a, p, q);
      BeforeIsLess(t < v, t == v, v < t, a + p, b + q);
    } else if RowLess(x, y) {
      BeforeDecides(a, b, p, q);
    } else {
      BeforeDecides(b, a, q, p);
      CmpBothWays(a + p, b + q);
    }
  }

  lemma CmpBothWays(a: Bytes, b: Bytes)
    ensures CmpFull(a, b) > 0 <==> CmpFull(b, a) < 0
  {
  }

  lemma BeforeIsLess(less: bool, same: bool, greater: bool, a: Bytes, b: Bytes)
    requires Keeps(less, same, greater, a, b)
    ensures CmpFull(a, b) < 0 <==> less
    ensures CmpFull(a, b) == 0 <==> same
  {
    NotBoth(less, same, greater, a, b);
    assert a + [] == a && b + [] == b;
    if less {
      BeforeDecides(a, b, [], []);
    }
    if greater {
      BeforeDecides(b, a, [], []);
    }
  }

  /** These bytes are the value, as a reader of the format takes them. */
  ghost predicate ReadsValue(b: Bytes, ty: Type, v: Value)
    requires Fits(ty, v)
  {
    match ty
    case U(w) => |b| == w && FromBigEndian(b) == v.n
    case I(w) => |b| == w && FromBigEndian(b) - Half(w) == v.n
    case F =>
      && |b| == 8
      && var u := FromBigEndian(b);
         Normalised(v.bits) == if u >= SIGN then u - SIGN else 2 * SIGN - 1 - u
    case S => b != [] && b[|b| - 1] == 0 && b[..|b| - 1] == Utf8(v.points)
  }

  lemma ValueReads(ty: Type, v: Value)
    requires Fits(ty, v)
    ensures ReadsValue(EncodeValue(ty, v), ty, v)
  {
    hide Pow256, BigEndian, FromBigEndian;
    match ty
    case U(w) => BigEndianReads(v.n, w);
    case I(w) =>
      SignedAsUnsigned(v.n, w);
      HalfTwice(w);
      BigEndianReads(FlipTop(TwosComplement(v.n, w), w), w);
    case F =>
      assert Pow256(8) == 2 * SIGN by { EightBytes(); }
      BigEndianReads(Masked(Normalised(v.bits)), 8);
    case S =>
      var b := EncodeValue(ty, v);
      assert b[..|b| - 1] == Utf8(v.points);
  }

  lemma EightBytes()
    ensures Pow256(8) == 2 * SIGN
  {
    assert Pow256(4) == 0x1_0000_0000;
  }

  /** A cell reads back: of a column that may be null, behind a byte that is 0 for null and 1 for a value. */
  lemma CellReads(c: Column, x: Cell)
    requires CellFits(c, x)
    ensures var b := EncodeCell(c, x);
      if x.Null? then b == [0]
      else if c.nullable then b != [] && b[0] == 1 && ReadsValue(b[1..], c.ty, x.v)
      else ReadsValue(b, c.ty, x.v)
  {
    hide EncodeValue, ReadsValue;
    if x.Some? {
      ValueReads(c.ty, x.v);
      var b := EncodeCell(c, x);
      assert if c.nullable then b[1..] == EncodeValue(c.ty, x.v) else b == EncodeValue(c.ty, x.v);
    }
  }

  /** The parts of a key are found in it again: the columns before the last eight bytes, and in these the identifier. */
  lemma KeyParts(cols: seq<Column>, row: seq<Cell>, t: nat)
    requires RowFits(cols, row) && t < 2 * SIGN
    ensures var k := Key(cols, row, t);
      |k| >= TID_SIZE && Columns(k) == EncodeRow(cols, row) && FromBigEndian(k[|k| - TID_SIZE..]) == t
  {
    hide EncodeRow, RowFits;
    var k, tid := Key(cols, row, t), BigEndian(t, TID_SIZE);
    EightBytes();
    BigEndianReads(t, TID_SIZE);
    assert k[|k| - TID_SIZE..] == tid && Columns(k) == EncodeRow(cols, row);
  }

  /** The keys of one index that are short enough for its pages. */
  ghost function KeySpace(cols: seq<Column>): iset<Bytes> {
    iset row, t: nat | RowFits(cols, row) && t < 2 * SIGN && |Key(cols, row, t)| < MAX_ROW_SIZE :: Key(cols, row, t)
  }

  /** No key's columns are a prefix of another's: what the index asks of its keys. */
  lemma KeysArePrefixFree(cols: seq<Column>)
    ensures PrefixFree(KeySpace(cols))
  {
    forall a, b | a in KeySpace(cols) && b in KeySpace(cols) ensures Comparable(a, b) {
      var x, t: nat :| RowFits(cols, x) && t < 2 * SIGN && |Key(cols, x, t)| < MAX_ROW_SIZE && a == Key(cols, x, t);
      var y, v: nat :| RowFits(cols, y) && v < 2 * SIGN && |Key(cols, y, v)| < MAX_ROW_SIZE && b == Key(cols, y, v);
      assert Columns(a) == EncodeRow(cols, x) && Columns(b) == EncodeRow(cols, y);
      RowKeeps(cols, x, y);
    }
  }

  // ---- writing a key ----

  predicate IsText(x: Cell) {
    x.Some? && x.v.Text?
  }

  function Prefix(c: Column): (n: nat) {
    if c.nullable then 1 else 0
  }

  /** How far the writes for a cell reach, from where the cell starts. */
  function CellReach(c: Column, x: Cell): (n: nat)
    requires CellFits(c, x)
    ensures n >= |EncodeCell(c, x)|
  {
    if IsText(x) then Prefix(c) + TextReach(x.v.points) else |EncodeCell(c, x)|
  }

  function Max(a: nat, b: nat): nat {
    if a < b then b else a
  }

  function RowReach(cols: seq<Column>, row: seq<Cell>): (n: nat)
    requires RowFits(cols, row)
    ensures n >= |EncodeRow(cols, row)|
  {
    if cols == [] then 0
    else Max(CellReach(cols[0], row[0]), |EncodeCell(cols[0], row[0])| + RowReach(cols[1..], row[1..]))
  }

  /** How far building a key reaches into its buffer. */
  function Reach(cols: seq<Column>, row: seq<Cell>): (n: nat)
    requires RowFits(cols, row)
    ensures n >= |EncodeRow(cols, row)| + TID_SIZE
  {
    Max(RowReach(cols, row), |EncodeRow(cols, row)| + TID_SIZE)
  }

  /** Two writes, the second where the first ended. */
  lemma TwoWrites(start: Bytes, mid: Bytes, end: Bytes, cur: nat, at: nat, next: nat, reach: nat)
    requires |start| == |mid| == |end| && cur <= at <= next <= reach <= |start|
    requires mid[..cur] == start[..cur] && mid[at..] == start[at..]
    requires end[..at] == mid[..at] && end[reach..] == mid[reach..]
    ensures end[..cur] == start[..cur] && end[cur..next] == mid[cur..at] + end[at..next] && end[reach..] == start[reach..]
  {
    assert end[..cur] == end[..at][..cur] == mid[..at][..cur] == mid[..cur];
    assert end[cur..at] == end[..at][cur..] == mid[..at][cur..] == mid[cur..at];
    assert end[cur..next] == end[cur..at] + end[at..next];
    assert mid[reach..] == mid[at..][reach - at..] == start[at..][reach - at..] == start[reach..];
  }

  method EncodeInto(out: array<u8>, cur: nat, c: Column, x: Cell) returns (next: nat)
    requires CellFits(c, x) && cur + CellReach(c, x) <= out.Length
    modifies out
    ensures next == cur + |EncodeCell(c, x)| && out[..cur] == old(out[..cur]) && out[cur..next] == EncodeCell(c, x)
    ensures out[cur + CellReach(c, x)..] == old(out[cur + CellReach(c, x)..])
  {
    hide Utf8, BigEndian, TextReach, Pow256, Masked, Normalised, FlipTop, TwosComplement, ArePoints;
    if IsText(x) {
      ghost var start := out[..];
      var at := cur;
      if c.nullable {
        at := Write(out, cur, [1]);
      }
      ghost var mid := out[..];
      next := EncodeText(out, at, x.v.points);
      TwoWrites(start, mid, out[..], cur, at, next, cur + CellReach(c, x));
    } else {
      next := Write(out, cur, EncodeCell(c, x));
    }
  }

  /** The first column of a row, and the others. */
  lemma FirstCell(cols: seq<Column>, row: seq<Cell>)
    requires RowFits(cols, row) && cols != []
    ensures row != [] && CellFits(cols[0], row[0]) && RowFits(cols[1..], row[1..])
    ensures EncodeRow(cols, row) == EncodeCell(cols[0], row[0]) + EncodeRow(cols[1..], row[1..])
    ensures RowReach(cols, row) >= CellReach(cols[0], row[0])
    ensures RowReach(cols, row) >= |EncodeCell(cols[0], row[0])| + RowReach(cols[1..], row[1..])
  {
    hide EncodeCell, CellFits, CellReach;
  }

  lemma NoCells(cols: seq<Column>, row: seq<Cell>)
    requires RowFits(cols, row) && cols == []
    ensures EncodeRow(cols, row) == []
  {
  }

  /** The columns one after the other, then the identifier. Behind the key, what encoding strings left there. */
  method BuildKey(out: array<u8>, cols: seq<Column>, row: seq<Cell>, tid: nat) returns (len: nat)
    requires RowFits(cols, row) && Reach(cols, row) <= out.Length
    modifies out
    ensures len == |Key(cols, row, tid)| && out[..len] == Key(cols, row, tid)
    ensures out[Reach(cols, row)..] == old(out[Reach(cols, row)..])
  {
    hide EncodeCell, BigEndian, CellFits, CellReach, EncodeRow, RowReach, RowFits;
    var cur := 0;
    ghost var start := out[..];
    ghost var reach := Reach(cols, row);
    assert cols[0..] == cols && row[0..] == row && |row| == |cols| by { SameCount(cols, row); }
    for i := 0 to |cols|
      invariant RowFits(cols[i..], row[i..])
      invariant cur + |EncodeRow(cols[i..], row[i..])| == |EncodeRow(cols, row)|
      invariant cur + RowReach(cols[i..], row[i..]) <= reach
      invariant out[..cur] + EncodeRow(cols[i..], row[i..]) == EncodeRow(cols, row)
      invariant out[reach..] == start[reach..]
    {
      assert cols[i..][1..] == cols[i + 1..] && row[i..][1..] == row[i + 1..];
      FirstCell(cols[i..], row[i..]);
      ghost var before, old_ := cur, out[..];
      cur := EncodeInto(out, cur, cols[i], row[i]);
      KeptBehind(old_, out[..], before + CellReach(cols[i], row[i]), reach);
      assert out[..cur] == out[..before] + EncodeCell(cols[i], row[i]);
    }
    NoCells(cols[|cols|..], row[|cols|..]);
    ghost var before, old_ := cur, out[..];
    cur := Write(out, cur, BigEndian(tid, TID_SIZE));
    KeptBehind(old_, out[..], cur, reach);
    assert out[..cur] == out[..before] + BigEndian(tid, TID_SIZE);
    len := cur;
  }

  lemma SameCount(cols: seq<Column>, row: seq<Cell>)
    requires RowFits(cols, row)
    ensures |row| == |cols|
  {
  }

  lemma KeptBehind(a: Bytes, b: Bytes, i: nat, j: nat)
    requires |a| == |b| && i <= j <= |a| && a[i..] == b[i..]
    ensures a[j..] == b[j..]
  {
    assert a[j..] == a[i..][j - i..] && b[j..] == b[i..][j - i..];
  }

  // ---- sizes ----

  function MaxEncodedSize(c: Column): (n: nat) {
    Prefix(c)
    + match c.ty
      case U(w) => w
      case I(w) => w
      case F => 8
      case S => 4 * (12 + 1)
  }

  /** The size of the key buffer. */
  function MaxKeyLen(cols: seq<Column>): (n: nat) {
    if cols == [] then 8 else MaxEncodedSize(cols[0]) + MaxKeyLen(cols[1..])
  }

  /** What the strings of the row take, with their closing NULs. */
  function TextBytes(cols: seq<Column>, row: seq<Cell>): (n: nat)
    requires RowFits(cols, row)
  {
    if cols == [] then 0
    else
      (if IsText(row[0]) then |Utf8(row[0].v.points)| + 1 else 0)
      + TextBytes(cols[1..], row[1..])
  }

  function TextCells(row: seq<Cell>): (n: nat) {
    if row == [] then 0 else (if IsText(row[0]) then 1 else 0) + TextCells(row[1..])
  }

  /** What null cells leave of their columns' share. */
  function NullRoom(cols: seq<Column>, row: seq<Cell>): (n: nat)
    requires |row| == |cols|
  {
    if cols == [] then 0
    else (if row[0].Null? then MaxEncodedSize(cols[0]) - Prefix(cols[0]) else 0) + NullRoom(cols[1..], row[1..])
  }

  lemma {:induction false} SizesAddUp(cols: seq<Column>, row: seq<Cell>)
    requires RowFits(cols, row)
    ensures |EncodeRow(cols, row)| + TID_SIZE + 52 * TextCells(row) + NullRoom(cols, row)
         == MaxKeyLen(cols) + TextBytes(cols, row)
    decreases |cols|
  {
    hide Utf8, BigEndian;
    if cols != [] {
      assert CellFits(cols[0], row[0]);
      SizesAddUp(cols[1..], row[1..]);
    }
  }

  /** A key stays within the computed size exactly when its strings, with their NULs, take at most 52 bytes each on
      average, not counting what null cells leave free. */
  lemma KeyFitsBound(cols: seq<Column>, row: seq<Cell>, tid: nat)
    requires RowFits(cols, row)
    ensures |Key(cols, row, tid)| <= MaxKeyLen(cols) <==>
              TextBytes(cols, row) <= 52 * TextCells(row) + NullRoom(cols, row)
  {
    hide EncodeRow, TextBytes, TextCells, NullRoom, MaxKeyLen;
    SizesAddUp(cols, row);
  }

  predicate ShortText(x: Cell)
    requires IsText(x) ==> ArePoints(x.v.points)
  {
    IsText(x) ==> |Utf8(x.v.points)| < 52
  }

  /** So it is enough that no string comes out of its normalisation with more than 51 bytes. */
  lemma {:induction false} ShortTextsFit(cols: seq<Column>, row: seq<Cell>)
    requires RowFits(cols, row)
    ensures forall i | 0 <= i < |cols| && IsText(row[i]) :: CellFits(cols[i], row[i])
    ensures (forall i | 0 <= i < |cols| && CellFits(cols[i], row[i]) :: ShortText(row[i])) ==>
              TextBytes(cols, row) <= 52 * TextCells(row)
    decreases |cols|
  {
    hide Utf8;
    if cols != [] && forall i | 0 <= i < |cols| && CellFits(cols[i], row[i]) :: ShortText(row[i]) {
      assert CellFits(cols[0], row[0]);
      forall i | 0 <= i < |cols| - 1 && CellFits(cols[1..][i], row[1..][i]) ensures ShortText(row[1..][i]) {
        assert cols[1..][i] == cols[i + 1] && row[1..][i] == row[i + 1] && CellFits(cols[i + 1], row[i + 1]);
      }
      ShortTextsFit(cols[1..], row[1..]);
    }
  }

  // ---- the buffer ----

  /** Where the cell of column i starts. */
  ghost function Start(cols: seq<Column>, row: seq<Cell>, i: nat): nat
    requires RowFits(cols, row) && i <= |cols|
  {
    |EncodeRow(cols[..i], row[..i])|
  }

  ghost predicate PointsFit(cols: seq<Column>, row: seq<Cell>, size: int)
    requires RowFits(cols, row)
  {
    forall i | 0 <= i < |cols| && IsText(row[i]) ::
      Start(cols, row, i) + Prefix(cols[i]) + 4 * |row[i].v.points| <= size
  }

  lemma StartNext(cols: seq<Column>, row: seq<Cell>, i: nat)
    requires RowFits(cols, row) && cols != [] && i < |cols|
    ensures CellFits(cols[0], row[0])
    ensures Start(cols, row, i + 1) == |EncodeCell(cols[0], row[0])| + Start(cols[1..], row[1..], i)
  {
    hide EncodeCell, CellFits;
    assert CellFits(cols[0], row[0]);
    assert cols[..i + 1][0] == cols[0] && row[..i + 1][0] == row[0];
    assert cols[..i + 1][1..] == cols[1..][..i] && row[..i + 1][1..] == row[1..][..i];
  }

  lemma {:induction false} RowReachFits(cols: seq<Column>, row: seq<Cell>, size: int)
    requires RowFits(cols, row)
    ensures RowReach(cols, row) <= size <==> |EncodeRow(cols, row)| <= size && PointsFit(cols, row, size)
    decreases |cols|
  {
    hide EncodeCell, Utf8, Start;
    if cols != [] {
      assert CellFits(cols[0], row[0]);
      var cell := |EncodeCell(cols[0], row[0])|;
      RowReachFits(cols[1..], row[1..], size - cell);
      FirstStart(cols, row);
      CellReachFits(cols[0], row[0], size);
      if PointsFit(cols, row, size) {
        forall i | 0 <= i < |cols| - 1 && IsText(row[1..][i])
          ensures Start(cols[1..], row[1..], i) + Prefix(cols[1..][i]) + 4 * |row[1..][i].v.points| <= size - cell
        {
          StartNext(cols, row, i);
          assert row[i + 1] == row[1..][i] && cols[i + 1] == cols[1..][i];
        }
      }
      if PointsFit(cols[1..], row[1..], size - cell) {
        forall i | 1 <= i < |cols| && IsText(row[i])
          ensures Start(cols, row, i) + Prefix(cols[i]) + 4 * |row[i].v.points| <= size
        {
          StartNext(cols, row, i - 1);
          assert row[i] == row[1..][i - 1] && cols[i] == cols[1..][i - 1];
        }
      }
    }
  }

  lemma FirstStart(cols: seq<Column>, row: seq<Cell>)
    requires RowFits(cols, row)
    ensures Start(cols, row, 0) == 0
  {
  }

  lemma CellReachFits(c: Column, x: Cell, size: int)
    requires CellFits(c, x)
    ensures CellReach(c, x) <= size <==>
              |EncodeCell(c, x)| <= size && (IsText(x) ==> Prefix(c) + 4 * |x.v.points| <= size)
  {
    hide Utf8, BigEndian;
  }

  /** Building a key stays inside the key buffer exactly when the key does and, for every string, its code points do,
      at four bytes each from where the string starts. */
  lemma BufferSuffices(cols: seq<Column>, row: seq<Cell>, tid: nat)
    requires RowFits(cols, row)
    ensures Reach(cols, row) <= MaxKeyLen(cols) <==>
              |Key(cols, row, tid)| <= MaxKeyLen(cols) && PointsFit(cols, row, MaxKeyLen(cols))
  {
    hide EncodeRow, RowReach, MaxKeyLen, PointsFit;
    RowReachFits(cols, row, MaxKeyLen(cols));
  }

  /** Six times the Greek letter U+0390, twelve bytes of input: its decomposition does not fit into the buffer of a
      one-column key, though the key does. */
  lemma SixLettersOverrun(tid: nat)
    ensures var cols, one := [Column(S, false)], [0x3B9, 0x308, 0x301];
      var row := [Some(Text(one + one + one + one + one + one))];
      && RowFits(cols, row) && MaxKeyLen(cols) == 60 && |Key(cols, row, tid)| == 45 && Reach(cols, row) == 72
  {
    var cols, one := [Column(S, false)], [0x3B9, 0x308, 0x301];
    var points := one + one + one + one + one + one;
    var row := [Some(Text(points))];
    assert ArePoints(points) by {
      assert ArePoints(one);
    }
    assert RowFits(cols, row);
    TwoByteLetters(points);
    assert cols[1..] == [] && row[1..] == [];
    assert MaxKeyLen(cols[1..]) == 8 && EncodeRow(cols[1..], row[1..]) == [] && RowReach(cols[1..], row[1..]) == 0;
  }

  lemma {:induction false} TwoByteLetters(points: seq<nat>)
    requires ArePoints(points) && forall i | 0 <= i < |points| :: 0x80 <= points[i] < 0x800
    ensures |Utf8(points)| == 2 * |points|
  {
    if points != [] {
      assert IsPoint(points[0]);
      TwoByteLetters(points[1..]);
    }
  }
}
