/**
  The deterministic upscaler (qrx-core/src/apps/qrx_upscaler.c): resampling tables
  in Q16 fixed point and the two integer passes over an image.

  Kernel values are exact reals standing in for the doubles of table_build; from
  the quantised rows on everything is the integer arithmetic of the C code.
 */
module Upscaler {

  const ONE: int := 65536                   // QRX_UPS_ONE
  const TWO31: int := 0x8000_0000
  const TWO32: int := 0x1_0000_0000
  const MAX_DIM: int := 16384
  const MAX_PIXELS: int := 67108864
  const MAX_CHANNELS: int := 4
  const MAX_SCALE: int := 8
  const MAX_TAPS: int := 16

  type Byte = x: int | 0 <= x < 256

  datatype Status = OK | ERR_ARG | ERR_LIMIT

  // ----- weighted sums -----

  function Sum(a: seq<int>): int {
    if a == [] then 0 else Sum(a[..|a| - 1]) + a[|a| - 1]
  }

  function AbsSum(a: seq<int>): nat {
    if a == [] then 0
    else AbsSum(a[..|a| - 1]) + if a[|a| - 1] >= 0 then a[|a| - 1] else -a[|a| - 1]
  }

  function Dot(a: seq<int>, b: seq<int>): int
    requires |a| == |b|
  {
    if a == [] then 0 else Dot(a[..|a| - 1], b[..|b| - 1]) + a[|a| - 1] * b[|b| - 1]
  }

  lemma DotSnoc(a: seq<int>, b: seq<int>, x: int, y: int)
    requires |a| == |b|
    ensures Dot(a + [x], b + [y]) == Dot(a, b) + x * y
  {
    assert (a + [x])[..|a|] == a && (b + [y])[..|b|] == b;
  }

  lemma DotTake(a: seq<int>, b: seq<int>, k: nat)
    requires |a| == |b| && k < |a|
    ensures Dot(a[..k + 1], b[..k + 1]) == Dot(a[..k], b[..k]) + a[k] * b[k]
  {
    assert a[..k + 1] == a[..k] + [a[k]] && b[..k + 1] == b[..k] + [b[k]];
    DotSnoc(a[..k], b[..k], a[k], b[k]);
  }

  lemma {:induction false} DotAppend(a: seq<int>, b: seq<int>, c: seq<int>, d: seq<int>)
    requires |a| == |b| && |c| == |d|
    ensures Dot(a + c, b + d) == Dot(a, b) + Dot(c, d)
  {
    if c == [] {
      assert a + c == a && b + d == b;
    } else {
      var n := |c| - 1;
      DotAppend(a, b, c[..n], d[..n]);
      assert a + c == (a + c[..n]) + [c[n]] && b + d == (b + d[..n]) + [d[n]];
      DotSnoc(a + c[..n], b + d[..n], c[n], d[n]);
    }
  }

  function Scaled(s: int, a: seq<int>): (r: seq<int>)
    ensures |r| == |a|
    ensures forall i :: 0 <= i < |a| ==> r[i] == s * a[i]
  {
    seq(|a|, i requires 0 <= i < |a| => s * a[i])
  }

  lemma {:induction false} DotScaled(s: int, a: seq<int>, b: seq<int>)
    requires |a| == |b|
    ensures Dot(Scaled(s, a), b) == s * Dot(a, b)
  {
    if a != [] {
      var n := |a| - 1;
      DotScaled(s, a[..n], b[..n]);
      assert Scaled(s, a)[..n] == Scaled(s, a[..n]);
      Distribute(s, Dot(a[..n], b[..n]), a[n], b[n]);
    }
  }

  lemma Distribute(s: int, t: int, x: int, y: int)
    ensures s * (t + x * y) == s * t + (s * x) * y
  {
  }

  /** A weighted sum of bytes is bounded by the absolute weights. */
  lemma {:induction false} DotBound(a: seq<int>, b: seq<int>)
    requires |a| == |b|
    requires forall i :: 0 <= i < |b| ==> 0 <= b[i] <= 255
    ensures -255 * AbsSum(a) <= Dot(a, b) <= 255 * AbsSum(a)
  {
    if a != [] {
      var n := |a| - 1;
      DotBound(a[..n], b[..n]);
      TermBound(a[n], b[n]);
    }
  }

  lemma TermBound(x: int, y: int)
    requires 0 <= y <= 255
    ensures x >= 0 ==> 0 <= x * y <= 255 * x
    ensures x < 0 ==> 255 * x <= x * y <= 0
  {
    if x >= 0 {
      assert x * y <= x * 255;
    } else {
      assert (-x) * y <= (-x) * 255;
      assert x * y == -((-x) * y);
    }
  }

  lemma {:induction false} DotConstant(a: seq<int>, b: seq<int>, c: int)
    requires |a| == |b| && forall i :: 0 <= i < |b| ==> b[i] == c
    ensures Dot(a, b) == c * Sum(a)
  {
    if a != [] {
      var n := |a| - 1;
      DotConstant(a[..n], b[..n], c);
      assert c * (Sum(a[..n]) + a[n]) == c * Sum(a[..n]) + a[n] * c;
    }
  }

  /** A row with a single non-zero weight picks that value. */
  lemma {:induction false} DotPick(a: seq<int>, b: seq<int>, k: nat)
    requires |a| == |b| && k < |a|
    requires forall i :: 0 <= i < |a| && i != k ==> a[i] == 0
    ensures Dot(a, b) == a[k] * b[k]
  {
    var n := |a| - 1;
    if k < n {
      DotPick(a[..n], b[..n], k);
    } else {
      DotZero(a[..n], b[..n]);
    }
  }

  lemma {:induction false} DotZero(a: seq<int>, b: seq<int>)
    requires |a| == |b| && forall i :: 0 <= i < |a| ==> a[i] == 0
    ensures Dot(a, b) == 0
  {
    if a != [] { DotZero(a[..|a| - 1], b[..|b| - 1]); }
  }

  // ----- matrices of samples -----

  ghost predicate Rectangular(m: seq<seq<int>>, cols: nat) {
    forall j :: 0 <= j < |m| ==> |m[j]| == cols
  }

  /** Weighted sum of every row. */
  function RowSums(wx: seq<int>, m: seq<seq<int>>): (r: seq<int>)
    requires Rectangular(m, |wx|)
    ensures |r| == |m|
    ensures forall j :: 0 <= j < |m| ==> r[j] == Dot(wx, m[j])
  {
    seq(|m|, j requires 0 <= j < |m| => Dot(wx, m[j]))
  }

  function Flat(m: seq<seq<int>>): seq<int> {
    if m == [] then [] else Flat(m[..|m| - 1]) + m[|m| - 1]
  }

  /** The product weight of every sample, row by row. */
  function Outer(wy: seq<int>, wx: seq<int>): seq<int> {
    if wy == [] then [] else Outer(wy[..|wy| - 1], wx) + Scaled(wy[|wy| - 1], wx)
  }

  lemma {:induction false} FlatLength(m: seq<seq<int>>, wy: seq<int>, wx: seq<int>)
    requires Rectangular(m, |wx|) && |m| == |wy|
    ensures |Flat(m)| == |Outer(wy, wx)|
  {
    if m != [] { FlatLength(m[..|m| - 1], wy[..|wy| - 1], wx); }
  }

  /** The direct 2D weighted sum: one product weight per sample of the neighbourhood. */
  function Direct(wy: seq<int>, wx: seq<int>, m: seq<seq<int>>): int
    requires Rectangular(m, |wx|) && |m| == |wy|
  {
    FlatLength(m, wy, wx);
    Dot(Outer(wy, wx), Flat(m))
  }

  /** Summing rows first and then the row sums is the direct 2D sum. */
  lemma {:induction false} SeparableSum(wy: seq<int>, wx: seq<int>, m: seq<seq<int>>)
    requires Rectangular(m, |wx|) && |m| == |wy|
    ensures Dot(wy, RowSums(wx, m)) == Direct(wy, wx, m)
  {
    FlatLength(m, wy, wx);
    if m != [] {
      var n := |m| - 1;
      SeparableSum(wy[..n], wx, m[..n]);
      FlatLength(m[..n], wy[..n], wx);
      DotAppend(Outer(wy[..n], wx), Flat(m[..n]), Scaled(wy[n], wx), m[n]);
      DotScaled(wy[n], wx, m[n]);
      assert RowSums(wx, m)[..n] == RowSums(wx, m[..n]);
    }
  }

  ghost predicate Transposes(m: seq<seq<int>>, t: seq<seq<int>>) {
    && Rectangular(m, |t|) && Rectangular(t, |m|)
    && forall j, i :: 0 <= j < |m| && 0 <= i < |t| ==> m[j][i] == t[i][j]
  }

  function LastColumn(m: seq<seq<int>>): (r: seq<int>)
    requires forall j :: 0 <= j < |m| ==> |m[j]| > 0
    ensures |r| == |m|
    ensures forall j :: 0 <= j < |m| ==> r[j] == m[j][|m[j]| - 1]
  {
    seq(|m|, j requires 0 <= j < |m| => m[j][|m[j]| - 1])
  }

  function DropColumn(m: seq<seq<int>>): (r: seq<seq<int>>)
    requires forall j :: 0 <= j < |m| ==> |m[j]| > 0
    ensures |r| == |m|
    ensures forall j :: 0 <= j < |m| ==> r[j] == m[j][..|m[j]| - 1]
  {
    seq(|m|, j requires 0 <= j < |m| => m[j][..|m[j]| - 1])
  }

  /** Dot distributes over adding a multiple of another row of values. */
  lemma {:induction false} DotAdd(a: seq<int>, b: seq<int>, c: seq<int>, s: int, d: seq<int>)
    requires |a| == |b| == |c| == |d|
    requires forall i :: 0 <= i < |a| ==> d[i] == b[i] + s * c[i]
    ensures Dot(a, d) == Dot(a, b) + s * Dot(a, c)
  {
    if a != [] {
      var n := |a| - 1;
      DotAdd(a[..n], b[..n], c[..n], s, d[..n]);
      AddTerm(a[n], b[n], c[n], s, Dot(a[..n], c[..n]));
    }
  }

  lemma AddTerm(x: int, b: int, c: int, s: int, t: int)
    ensures x * (b + s * c) + s * t == x * b + s * (t + x * c)
  {
  }

  /** Rows then columns, or columns then rows: the same sum. */
  lemma {:induction false} SumOrder(wy: seq<int>, wx: seq<int>, m: seq<seq<int>>, t: seq<seq<int>>)
    requires |m| == |wy| && |t| == |wx| && Transposes(m, t)
    ensures Dot(wy, RowSums(wx, m)) == Dot(wx, RowSums(wy, t))
    decreases |wx|
  {
    if wx == [] {
      DotZeroValues(wy, RowSums(wx, m));
    } else {
      hide Dot;
      var n := |wx| - 1;
      var m', col := DropColumn(m), LastColumn(m);
      assert col == t[n];
      DotTake(wx, RowSums(wy, t), n);
      assert wx[..n + 1] == wx && RowSums(wy, t)[..n + 1] == RowSums(wy, t);
      SumOrder(wy, wx[..n], m', t[..n]);
      LastColumnApart(wy, wx, m, m', col);
      assert RowSums(wy, t)[..n] == RowSums(wy, t[..n]);
    }
  }

  lemma LastColumnApart(wy: seq<int>, wx: seq<int>, m: seq<seq<int>>, m': seq<seq<int>>, col: seq<int>)
    requires |wx| > 0 && |m| == |wy| && Rectangular(m, |wx|) && m' == DropColumn(m) && col == LastColumn(m)
    ensures Dot(wy, RowSums(wx, m))
         == Dot(wy, RowSums(wx[..|wx| - 1], m')) + wx[|wx| - 1] * Dot(wy, col)
  {
    var n := |wx| - 1;
    forall j | 0 <= j < |m| ensures RowSums(wx, m)[j] == RowSums(wx[..n], m')[j] + wx[n] * col[j] { }
    DotAdd(wy, RowSums(wx[..n], m'), col, wx[n], RowSums(wx, m));
  }

  lemma {:induction false} DotZeroValues(a: seq<int>, b: seq<int>)
    requires |a| == |b| && forall i :: 0 <= i < |b| ==> b[i] == 0
    ensures Dot(a, b) == 0
  {
    if a != [] { DotZeroValues(a[..|a| - 1], b[..|b| - 1]); }
  }

  // ----- the kernels -----

  /** Lanczos3 carries the library's sin(pi x)/(pi x); every statement holds for any such function. */
  datatype Filter = Nearest | Bilinear | Bicubic | Lanczos3(sincPi: real -> real)

  function KernelWeight(f: Filter, d: real): real {
    var x := if d < 0.0 then -d else d;
    match f
    case Nearest => if x < 0.5 then 1.0 else 0.0
    case Bilinear => if x < 1.0 then 1.0 - x else 0.0
    case Bicubic =>
      var b, c := 1.0 / 3.0, 1.0 / 3.0;
      var x2 := x * x;
      var x3 := x2 * x;
      if x < 1.0 then
        ((12.0 - 9.0 * b - 6.0 * c) * x3 + (-18.0 + 12.0 * b + 6.0 * c) * x2 + (6.0 - 2.0 * b)) / 6.0
      else if x < 2.0 then
        ((-b - 6.0 * c) * x3 + (6.0 * b + 30.0 * c) * x2 + (-12.0 * b - 48.0 * c) * x + (8.0 * b + 24.0 * c)) / 6.0
      else 0.0
    case Lanczos3(sincPi) => if x < 3.0 then sincPi(x) * sincPi(x / 3.0) else 0.0
  }

  function Support(f: Filter): real {
    match f
    case Nearest => 0.5
    case Bilinear => 1.0
    case Bicubic => 2.0
    case Lanczos3(_) => 3.0
  }

  /** Conversion of a double to int32_t: toward zero. */
  function Trunc(r: real): int {
    if r >= 0.0 then r.Floor else -((-r).Floor)
  }

  // ----- one row of a resampling table -----

  /** First source index and fixed-point weights of one output sample. */
  datatype AxisRow = AxisRow(first: int, w: seq<int>)

  function TapCount(f: Filter): nat {
    var taps := Trunc(2.0 * Support(f) + 2.0);
    if taps < 1 then 1 else taps
  }

  function Center(inN: nat, outN: nat, o: nat): real
    requires inN > 0 && outN > 0
  {
    var scale := outN as real / inN as real;
    Positive(inN, outN);
    (o as real + 0.5) / scale - 0.5
  }

  lemma Positive(inN: nat, outN: nat)
    requires inN > 0 && outN > 0
    ensures outN as real / inN as real > 0.0
  {
  }

  function Start(f: Filter, center: real): int {
    Trunc(center - Support(f) + 0.5)
  }

  function Raw(f: Filter, center: real, start: int, taps: nat): (r: seq<real>)
    ensures |r| == taps
    ensures forall k :: 0 <= k < taps ==> r[k] == KernelWeight(f, center - (start + k) as real)
  {
    seq(taps, k requires 0 <= k < taps => KernelWeight(f, center - (start + k) as real))
  }

  function SumReal(a: seq<real>): real {
    if a == [] then 0.0 else SumReal(a[..|a| - 1]) + a[|a| - 1]
  }

  /** The weights and the total they are divided by; an all-zero row falls back to its first tap. */
  function Repaired(raw: seq<real>): (seq<real>, real)
    requires |raw| > 0
  {
    var sum := SumReal(raw);
    if sum == 0.0 then (raw[0 := 1.0], 1.0) else (raw, sum)
  }

  function Quantise(norm: real): int {
    Trunc(norm * 65536.0 + if norm >= 0.0 then 0.5 else -0.5)
  }

  function Quantised(raw: seq<real>): (r: seq<int>)
    requires |raw| > 0
    ensures |r| == |raw|
  {
    var (v, sum) := Repaired(raw);
    seq(|v|, k requires 0 <= k < |v| => if sum == 0.0 then 0 else Quantise(v[k] / sum))
  }

  const INT32_MIN: int := -0x8000_0000

  /** The running maximum of the quantising loop: first index of the greatest value, and that value. */
  function Largest(q: seq<int>): (r: (nat, int))
    ensures q != [] ==> r.0 < |q|
    ensures q == [] ==> r == (0, INT32_MIN)
    ensures forall j :: 0 <= j < |q| ==> q[j] <= r.1
    ensures q != [] && r.1 > INT32_MIN ==> q[r.0] == r.1
    ensures forall j :: 0 <= j < r.0 && j < |q| ==> q[j] < r.1
  {
    if q == [] then (0, INT32_MIN)
    else
      var prior := Largest(q[..|q| - 1]);
      if q[|q| - 1] > prior.1 then (|q| - 1, q[|q| - 1]) else prior
  }

  /** The rounding error of the row is added to its largest weight. */
  function Weights(q: seq<int>): (r: seq<int>)
    requires q != []
    ensures |r| == |q|
  {
    var k := Largest(q).0;
    q[k := q[k] + (ONE - Sum(q))]
  }

  lemma {:induction false} SumUpdate(a: seq<int>, k: nat, d: int)
    requires k < |a|
    ensures Sum(a[k := a[k] + d]) == Sum(a) + d
  {
    var n := |a| - 1;
    if k < n {
      assert a[k := a[k] + d][..n] == a[..n][k := a[..n][k] + d];
      SumUpdate(a[..n], k, d);
    } else {
      assert a[k := a[k] + d][..n] == a[..n];
    }
  }

  function TableRow(f: Filter, inN: nat, outN: nat, o: nat): (r: AxisRow)
    requires inN > 0 && outN > 0
    ensures |r.w| == TapCount(f)
  {
    var center := Center(inN, outN, o);
    var start := Start(f, center);
    AxisRow(start, Weights(Quantised(Raw(f, center, start, TapCount(f)))))
  }

  /** Every row of every table sums to exactly one in Q16, whatever the kernel returned. */
  lemma RowSumsToOne(f: Filter, inN: nat, outN: nat, o: nat)
    requires inN > 0 && outN > 0
    ensures Sum(TableRow(f, inN, outN, o).w) == ONE
  {
    hide Center, Start, Raw, Quantised, Weights;
    var center := Center(inN, outN, o);
    WeightsSumToOne(Quantised(Raw(f, center, Start(f, center), TapCount(f))));
  }

  lemma WeightsSumToOne(q: seq<int>)
    requires q != []
    ensures Sum(Weights(q)) == ONE
  {
    SumUpdate(q, Largest(q).0, ONE - Sum(q));
  }

  // ----- how far the weights can stray -----

  /** No weight of the row is more than seven times the total it is divided by. */
  ghost predicate Tame(raw: seq<real>)
    requires |raw| > 0
  {
    var (v, sum) := Repaired(raw);
    sum != 0.0 && forall k :: 0 <= k < |v| ==> -7.0 <= v[k] / sum <= 7.0
  }

  lemma QuantiseError(norm: real)
    ensures -0.5 <= Quantise(norm) as real - norm * 65536.0 <= 0.5
  {
  }

  lemma {:induction false} AbsSumBound(q: seq<int>, b: nat)
    requires forall k :: 0 <= k < |q| ==> 0 - b <= q[k] <= b
    ensures AbsSum(q) <= b * |q|
    ensures 0 - AbsSum(q) <= Sum(q) <= AbsSum(q)
  {
    if q != [] { AbsSumBound(q[..|q| - 1], b); }
  }

  lemma {:induction false} AbsSumUpdate(a: seq<int>, k: nat, d: int)
    requires k < |a|
    ensures AbsSum(a[k := a[k] + d]) <= AbsSum(a) + if d >= 0 then d else -d
  {
    var n := |a| - 1;
    if k < n {
      assert a[k := a[k] + d][..n] == a[..n][k := a[..n][k] + d];
      AbsSumUpdate(a[..n], k, d);
    } else {
      assert a[k := a[k] + d][..n] == a[..n];
    }
  }

  /** Largest absolute row sum whose products with bytes still fit an int32_t. */
  const SAFE_ROW: int := 8421504

  ghost predicate FitsInt32(row: AxisRow) {
    AbsSum(row.w) <= SAFE_ROW
  }

  lemma QuantisedTame(raw: seq<real>)
    requires |raw| > 0 && Tame(raw)
    ensures forall k :: 0 <= k < |raw| ==> -458753 <= Quantised(raw)[k] <= 458753
  {
    var (v, sum) := Repaired(raw);
    forall k | 0 <= k < |raw| ensures -458753 <= Quantised(raw)[k] <= 458753 {
      QuantiseError(v[k] / sum);
    }
  }

  /** A tame row cannot overflow the 32-bit intermediate. */
  lemma TameRowFits(f: Filter, inN: nat, outN: nat, o: nat)
    requires inN > 0 && outN > 0
    requires Tame(Raw(f, Center(inN, outN, o), Start(f, Center(inN, outN, o)), TapCount(f)))
    ensures FitsInt32(TableRow(f, inN, outN, o))
  {
    var center := Center(inN, outN, o);
    var raw := Raw(f, center, Start(f, center), TapCount(f));
    assert |raw| <= 8;
    QuantisedTame(raw);
    BoundedWeights(Quantised(raw));
  }

  lemma BoundedWeights(q: seq<int>)
    requires 0 < |q| <= 8
    requires forall k :: 0 <= k < |q| ==> -458753 <= q[k] <= 458753
    ensures AbsSum(Weights(q)) <= SAFE_ROW
  {
    AbsSumBound(q, 458753);
    AbsSumUpdate(q, Largest(q).0, ONE - Sum(q));
  }

  lemma {:induction false} PartOfSum(a: seq<real>, k: nat)
    requires k < |a|
    requires forall i :: 0 <= i < |a| ==> a[i] >= 0.0
    ensures 0.0 <= a[k] <= SumReal(a)
  {
    var n := |a| - 1;
    if k < n { PartOfSum(a[..n], k); }
    else if n > 0 { PartOfSum(a[..n], 0); }
  }

  lemma QuotientInUnit(a: real, b: real)
    requires 0.0 <= a <= b && b > 0.0
    ensures 0.0 <= a / b <= 1.0
  {
  }

  /** Kernels without negative lobes are tame everywhere. */
  lemma NonNegativeTame(raw: seq<real>)
    requires |raw| > 0
    requires forall k :: 0 <= k < |raw| ==> raw[k] >= 0.0
    ensures Tame(raw)
  {
    var (v, sum) := Repaired(raw);
    forall k | 0 <= k < |v| ensures sum != 0.0 && -7.0 <= v[k] / sum <= 7.0 {
      PartOfSum(raw, k);
      if SumReal(raw) != 0.0 { QuotientInUnit(raw[k], sum); }
    }
  }

  lemma CubicInner(x: real)
    requires 0.0 <= x < 1.0
    ensures 0.0 <= KernelWeight(Bicubic, x) <= 1.0
    ensures x <= 0.5 ==> KernelWeight(Bicubic, x) >= 7.0 / 18.0
  {
    var x2 := x * x;
    var x3 := x2 * x;
    assert KernelWeight(Bicubic, x) == (7.0 * x3 - 12.0 * x2 + 16.0 / 3.0) / 6.0;
    NonNegativeProduct(x, 1.0 - x);
    NonNegativeProduct(x2, x);
    NonNegativeProduct(x2, 1.0 - x);
    assert x2 <= x && 0.0 <= x3 <= x2;
    assert 7.0 * x3 - 12.0 * x2 + 5.0 == (1.0 - x) * (5.0 + 5.0 * x - 7.0 * x2);
    NonNegativeProduct(1.0 - x, 5.0 + 5.0 * x - 7.0 * x2);
    if x <= 0.5 {
      NonNegativeProduct(0.5 - x, 0.5 + x);
      assert x2 <= 0.25;
    }
  }

  lemma NonNegativeProduct(a: real, b: real)
    requires a >= 0.0 && b >= 0.0
    ensures a * b >= 0.0
  {
  }

  /** The negative lobe of the Mitchell-Netravali kernel is shallow. */
  lemma CubicOuter(x: real)
    requires 1.0 <= x < 2.0
    ensures -2.0 / 49.0 <= KernelWeight(Bicubic, x) <= 1.0
  {
    var u := 2.0 - x;
    CubicFactored(x);
    var e := u - 4.0 / 7.0;
    assert u * u * (7.0 * u - 6.0) == 7.0 * (e * e * (u + 2.0 / 7.0)) - 32.0 / 49.0 by { CubicTangent(u); }
    assert e * e >= 0.0;
    NonNegativeProduct(e * e, u + 2.0 / 7.0);
    assert u * u <= 1.0;
    assert u * u * (7.0 * u - 6.0) <= 1.0 by {
      NonNegativeProduct(u * u, 1.0 - u);
      assert u * u * (7.0 * u - 6.0) == u * u - 7.0 * (u * u * (1.0 - u));
    }
  }

  lemma CubicFactored(x: real)
    requires 1.0 <= x < 2.0
    ensures var u := 2.0 - x; KernelWeight(Bicubic, x) == u * u * (7.0 * u - 6.0) / 18.0
  {
  }

  lemma CubicTangent(u: real)
    ensures var e := u - 4.0 / 7.0; u * u * (7.0 * u - 6.0) == 7.0 * (e * e * (u + 2.0 / 7.0)) - 32.0 / 49.0
  {
  }

  lemma CubicBounds(d: real)
    ensures -2.0 / 49.0 <= KernelWeight(Bicubic, d) <= 1.0
    ensures -0.5 <= d <= 0.5 ==> KernelWeight(Bicubic, d) >= 7.0 / 18.0
  {
    var x := if d < 0.0 then -d else d;
    if x < 1.0 { CubicInner(x); } else if x < 2.0 { CubicOuter(x); }
  }

  lemma {:induction false} SumFloor(a: seq<real>, k: nat, low: real, peak: real)
    requires k < |a| && low <= 0.0 && a[k] >= peak
    requires forall i :: 0 <= i < |a| ==> a[i] >= low
    ensures SumReal(a) >= peak + low * (|a| - 1) as real
  {
    var n := |a| - 1;
    if k < n { SumFloor(a[..n], k, low, peak); } else { AllFloor(a[..n], low); }
  }

  lemma {:induction false} AllFloor(a: seq<real>, low: real)
    requires forall i :: 0 <= i < |a| ==> a[i] >= low
    ensures SumReal(a) >= low * |a| as real
  {
    if a != [] { AllFloor(a[..|a| - 1], low); }
  }

  /** One tap of the row lies within half a source pixel of the centre. */
  lemma CubicHasPeak(center: real) returns (k: nat)
    requires center >= -0.5
    ensures k < 6 && -0.5 <= center - (Start(Bicubic, center) + k) as real <= 0.5
  {
    k := (center + 0.5).Floor - Start(Bicubic, center);
  }

  lemma CubicTame(center: real)
    requires center >= -0.5
    ensures Tame(Raw(Bicubic, center, Start(Bicubic, center), 6))
  {
    var start := Start(Bicubic, center);
    var raw := Raw(Bicubic, center, start, 6);
    forall i | 0 <= i < 6 ensures -2.0 / 49.0 <= raw[i] <= 1.0 {
      CubicBounds(center - (start + i) as real);
    }
    var k := CubicHasPeak(center);
    CubicBounds(center - (start + k) as real);
    hide KernelWeight;
    SumFloor(raw, k, -2.0 / 49.0, 7.0 / 18.0);
    forall i | 0 <= i < 6 ensures -7.0 <= raw[i] / SumReal(raw) <= 7.0 {
      BoundedQuotient(raw[i], SumReal(raw));
    }
  }

  lemma BoundedQuotient(a: real, b: real)
    requires -1.0 <= a <= 1.0 && b >= 1.0 / 7.0
    ensures -7.0 <= a / b <= 7.0
  {
    var q := a / b;
    assert q * b == a;
    assert (7.0 - q) * b >= 0.0 && (7.0 + q) * b >= 0.0;
    NonNegativeFactor(7.0 - q, b);
    NonNegativeFactor(7.0 + q, b);
  }

  lemma NonNegativeFactor(x: real, b: real)
    requires b > 0.0 && x * b >= 0.0
    ensures x >= 0.0
  {
  }

  lemma CenterBound(inN: nat, outN: nat, o: nat)
    requires inN > 0 && outN > 0
    ensures Center(inN, outN, o) >= -0.5
  {
    Positive(inN, outN);
  }

  /** How far sin(pi x)/(pi x) swings: the main lobe, the negative one and the next, with room for rounding at zeros. */
  ghost predicate Lobes(sincPi: real -> real) {
    && (forall x: real :: 0.0 <= x <= 1.0 ==> 0.0 <= sincPi(x) <= 1.0)
    && (forall x: real :: 0.0 <= x <= 0.5 ==> sincPi(x) >= 0.63)
    && (forall x: real :: 0.0 <= x <= 1.0 / 6.0 ==> sincPi(x) >= 0.95)
    && (forall x: real :: 1.0 / 3.0 <= x <= 2.0 / 3.0 ==> sincPi(x) <= 0.83)
    && (forall x: real :: 1.0 <= x <= 2.0 ==> -0.22 <= sincPi(x) <= 0.01)
    && (forall x: real :: 2.0 <= x <= 3.0 ==> -0.01 <= sincPi(x) <= 0.13)
  }

  lemma ProductBounds(a: real, lo: real, hi: real, b: real, top: real)
    requires lo <= a <= hi && lo <= 0.0 <= hi && 0.0 <= b <= top
    ensures lo * top <= a * b <= hi * top
  {
    if a >= 0.0 {
      NonNegativeProduct(a, b);
      NonNegativeProduct(a, top - b);
      NonNegativeProduct(hi - a, top);
      NonNegativeProduct(-lo, top);
    } else {
      NonNegativeProduct(-a, b);
      NonNegativeProduct(-a, top - b);
      NonNegativeProduct(a - lo, top);
      NonNegativeProduct(hi, top);
    }
  }

  /** The least a Lanczos3 weight can be at a distance. */
  function Dip(d: real): real {
    var x := if d < 0.0 then -d else d;
    if x <= 1.0 then 0.0 else if x < 2.0 then 0.19 else 0.01
  }

  lemma LanczosProduct(x: real, a: real, b: real)
    requires 0.0 <= x < 3.0 && 0.0 <= b <= 1.0 && (1.0 <= x <= 2.0 ==> b <= 0.83)
    requires x <= 1.0 ==> 0.0 <= a <= 1.0
    requires 1.0 <= x <= 2.0 ==> -0.22 <= a <= 0.01
    requires 2.0 <= x ==> -0.01 <= a <= 0.13
    ensures -Dip(x) <= a * b <= 1.0
  {
    if x <= 1.0 {
      ProductBounds(a, 0.0, 1.0, b, 1.0);
    } else if x < 2.0 {
      ProductBounds(a, -0.22, 0.01, b, 0.83);
    } else {
      ProductBounds(a, -0.01, 0.13, b, 1.0);
    }
  }

  lemma LobesAt(sincPi: real -> real, x: real)
    requires Lobes(sincPi) && 0.0 <= x < 3.0
    ensures var a, b := sincPi(x), sincPi(x / 3.0);
            && 0.0 <= b <= 1.0 && (1.0 <= x <= 2.0 ==> b <= 0.83)
            && (x <= 1.0 ==> 0.0 <= a <= 1.0)
            && (1.0 <= x <= 2.0 ==> -0.22 <= a <= 0.01)
            && (2.0 <= x ==> -0.01 <= a <= 0.13)
            && (x <= 0.5 ==> a >= 0.63 && b >= 0.95)
  {
  }

  lemma LanczosIs(sincPi: real -> real, d: real)
    ensures var x := if d < 0.0 then -d else d;
            KernelWeight(Lanczos3(sincPi), d) == if x < 3.0 then sincPi(x) * sincPi(x / 3.0) else 0.0
  {
  }

  lemma LanczosBounds(sincPi: real -> real, d: real)
    requires Lobes(sincPi)
    ensures -Dip(d) <= KernelWeight(Lanczos3(sincPi), d) <= 1.0
    ensures -0.5 <= d <= 0.5 ==> KernelWeight(Lanczos3(sincPi), d) >= 0.59
  {
    hide Lobes, KernelWeight;
    LanczosIs(sincPi, d);
    var x := if d < 0.0 then -d else d;
    if x < 3.0 {
      LobesAt(sincPi, x);
      LanczosProduct(x, sincPi(x), sincPi(x / 3.0));
      if x <= 0.5 { LeastProduct(sincPi(x), sincPi(x / 3.0)); }
    }
  }

  lemma LeastProduct(a: real, b: real)
    requires a >= 0.63 && b >= 0.95
    ensures a * b >= 0.59
  {
    NonNegativeProduct(a - 0.63, b - 0.95);
  }

  lemma LanczosHasPeak(f: Filter, center: real) returns (k: nat)
    requires center >= -0.5 && f.Lanczos3?
    ensures k < 8 && -0.5 <= center - (Start(f, center) + k) as real <= 0.5
  {
    k := (center + 0.5).Floor - Start(f, center);
  }

  /** The two taps that can lie in the negative lobe when the centre is off tap 0 by d. */
  predicate InLobe(n: int, d: real) {
    if d < 0.0 then n == 1 || n == -2 else d > 0.0 && (n == -1 || n == 2)
  }

  lemma DipAt(d: real, n: int)
    requires -0.5 <= d <= 0.5 && n != 0
    ensures Dip(d - n as real) <= if InLobe(n, d) then 0.19 else 0.01
  {
  }

  lemma SumOfEight(a: seq<real>)
    requires |a| == 8
    ensures SumReal(a) == a[0] + a[1] + a[2] + a[3] + a[4] + a[5] + a[6] + a[7]
  {
    assert a[..7][..6] == a[..6] && a[..6][..5] == a[..5] && a[..5][..4] == a[..4];
    SumOfFour(a[..4]);
    assert SumReal(a[..5]) == SumReal(a[..4]) + a[4];
    assert SumReal(a[..6]) == SumReal(a[..5]) + a[5];
    assert SumReal(a[..7]) == SumReal(a[..6]) + a[6];
  }

  lemma SumOfFour(a: seq<real>)
    requires |a| == 4
    ensures SumReal(a) == a[0] + a[1] + a[2] + a[3]
  {
    assert a[..3][..2] == a[..2] && a[..2][..1] == a[..1] && a[..1][..0] == [];
    assert SumReal(a[..1]) == a[0];
    assert SumReal(a[..2]) == a[0] + a[1];
    assert SumReal(a[..3]) == a[0] + a[1] + a[2];
  }

  /** The least the tap at distance n from the peak can weigh. */
  function Least(n: int, d: real): real {
    if n == 0 then 0.59
    else if InLobe(n, d) then -0.19
    else -0.01
  }

  /** Of eight neighbouring taps at most two lie in the negative lobe. */
  lemma EightTaps(k: nat, d: real)
    requires k < 8
    ensures Least(0 - k, d) + Least(1 - k, d) + Least(2 - k, d) + Least(3 - k, d)
          + Least(4 - k, d) + Least(5 - k, d) + Least(6 - k, d) + Least(7 - k, d) >= 0.15
  {
  }

  lemma LanczosTame(f: Filter, center: real)
    requires center >= -0.5 && f.Lanczos3? && Lobes(f.sincPi)
    ensures Tame(Raw(f, center, Start(f, center), 8))
  {
    hide KernelWeight, Lobes, Dip;
    var start := Start(f, center);
    var raw := Raw(f, center, start, 8);
    var k := LanczosHasPeak(f, center);
    var d := center - (start + k) as real;
    forall i | 0 <= i < 8 ensures Least(i - k, d) <= raw[i] <= 1.0 && raw[i] >= -1.0 {
      LanczosBounds(f.sincPi, center - (start + i) as real);
      assert center - (start + i) as real == d - (i - k) as real;
      if i != k { DipAt(d, i - k); }
      DipBound(center - (start + i) as real);
    }
    hide Least;
    EightTaps(k, d);
    SumOfEight(raw);
    forall i | 0 <= i < 8 ensures -7.0 <= raw[i] / SumReal(raw) <= 7.0 {
      BoundedQuotient(raw[i], SumReal(raw));
    }
  }

  lemma DipBound(d: real)
    ensures Dip(d) <= 1.0
  {
  }

  /** The kernels as the program has them: the sine behind Lanczos3 swings no further than the real one. */
  ghost predicate Faithful(f: Filter) { f.Lanczos3? ==> Lobes(f.sincPi) }

  /** The bounds can be met, already by steps. */
  function StepSinc(x: real): real { if x < 1.0 / 3.0 then 1.0 else if x < 1.0 then 0.7 else 0.0 }

  lemma StepSincMeetsLobes()
    ensures Lobes(StepSinc) && Faithful(Lanczos3(StepSinc))
  {
  }

  /** No filter ever overflows the 32-bit intermediate, at any size and scale. */
  lemma FiltersFit(f: Filter, inN: nat, outN: nat, o: nat)
    requires inN > 0 && outN > 0 && Faithful(f)
    ensures FitsInt32(TableRow(f, inN, outN, o))
  {
    hide Lobes, KernelWeight, Tame, Raw, Start;
    var center := Center(inN, outN, o);
    if f.Lanczos3? {
      CenterBound(inN, outN, o);
      LanczosTame(f, center);
      TameRowFits(f, inN, outN, o);
    } else {
      AlgebraicFiltersFit(f, inN, outN, o);
    }
  }

  /** The algebraic filters never overflow the 32-bit intermediate, at any size and scale. */
  lemma AlgebraicFiltersFit(f: Filter, inN: nat, outN: nat, o: nat)
    requires inN > 0 && outN > 0 && !f.Lanczos3?
    ensures FitsInt32(TableRow(f, inN, outN, o))
  {
    var center := Center(inN, outN, o);
    if f.Bicubic? {
      CenterBound(inN, outN, o);
      CubicTame(center);
    } else {
      NonNegativeTame(Raw(f, center, Start(f, center), TapCount(f)));
    }
    TameRowFits(f, inN, outN, o);
  }

  // ----- two passes over one channel -----

  function ClampIndex(i: int, n: nat): (r: nat)
    requires n > 0
    ensures r < n
    ensures 0 <= i < n ==> r == i
  {
    if i < 0 then 0 else if i >= n then n - 1 else i
  }

  function ClampByte(v: int): Byte {
    if v < 0 then 0 else if v > 255 then 255 else v
  }

  /** Storing an int64_t into an int32_t. */
  function Wrap32(v: int): int {
    (v + TWO31) % TWO32 - TWO31
  }

  /** Shift back from Q32, rounding half up (arithmetic shift: toward minus infinity). */
  function Rounded(acc: int): Byte {
    ClampByte((acc + TWO31) / TWO32)
  }

  /** Rounding half up gives the byte that rounding half away from zero would give. */
  lemma RoundingIsSymmetric(acc: int)
    ensures Rounded(acc) ==
            ClampByte(if acc >= 0 then (acc + TWO31) / TWO32 else -((-acc + TWO31) / TWO32))
  {
    if acc < 0 {
      assert (acc + TWO31) / TWO32 <= 0;
    }
  }

  /** The values a row of weights is applied to, indices clamped to the edge. */
  function Taps(values: seq<int>, row: AxisRow): (r: seq<int>)
    requires |values| > 0
    ensures |r| == |row.w|
    ensures forall k :: 0 <= k < |r| ==> r[k] == values[ClampIndex(row.first + k, |values|)]
  {
    seq(|row.w|, k requires 0 <= k < |row.w| => values[ClampIndex(row.first + k, |values|)])
  }

  ghost predicate IsPlane(p: seq<seq<int>>, height: nat, width: nat) {
    && height > 0 && width > 0 && |p| == height && Rectangular(p, width)
    && forall y, x :: 0 <= y < height && 0 <= x < width ==> 0 <= p[y][x] <= 255
  }

  /** One column of the horizontal pass, as the 32-bit buffer holds it. */
  function Column(p: seq<seq<int>>, ax: AxisRow): (r: seq<int>)
    requires forall y :: 0 <= y < |p| ==> |p[y]| > 0
    ensures |r| == |p|
    ensures forall y :: 0 <= y < |p| ==> r[y] == Wrap32(Dot(ax.w, Taps(p[y], ax)))
  {
    seq(|p|, y requires 0 <= y < |p| => Wrap32(Dot(ax.w, Taps(p[y], ax))))
  }

  /** The accumulator of the vertical pass. */
  function Accumulated(p: seq<seq<int>>, ax: AxisRow, ay: AxisRow): int
    requires |p| > 0 && forall y :: 0 <= y < |p| ==> |p[y]| > 0
  {
    Dot(ay.w, Taps(Column(p, ax), ay))
  }

  function Sample(p: seq<seq<int>>, ax: AxisRow, ay: AxisRow): Byte
    requires |p| > 0 && forall y :: 0 <= y < |p| ==> |p[y]| > 0
  {
    Rounded(Accumulated(p, ax, ay))
  }

  /** The samples around one output position, edges repeated. */
  function Neighbourhood(p: seq<seq<int>>, ax: AxisRow, ay: AxisRow): (m: seq<seq<int>>)
    requires |p| > 0 && forall y :: 0 <= y < |p| ==> |p[y]| > 0
    ensures |m| == |ay.w|
    ensures forall j :: 0 <= j < |m| ==> m[j] == Taps(p[ClampIndex(ay.first + j, |p|)], ax)
    ensures Rectangular(m, |ax.w|)
  {
    seq(|ay.w|, j requires 0 <= j < |ay.w| => Taps(p[ClampIndex(ay.first + j, |p|)], ax))
  }

  lemma ColumnExact(p: seq<seq<int>>, height: nat, width: nat, ax: AxisRow)
    requires IsPlane(p, height, width) && FitsInt32(ax)
    ensures forall y :: 0 <= y < height ==> Column(p, ax)[y] == Dot(ax.w, Taps(p[y], ax))
  {
    forall y | 0 <= y < height ensures Column(p, ax)[y] == Dot(ax.w, Taps(p[y], ax)) {
      DotBound(ax.w, Taps(p[y], ax));
    }
  }

  /**
    Separability: the two passes compute the direct 2D weighted sum over the
    neighbourhood, rounded once, when the horizontal row fits the 32-bit buffer.
   */
  lemma TwoPassesAreDirectSum(p: seq<seq<int>>, height: nat, width: nat, ax: AxisRow, ay: AxisRow)
    requires IsPlane(p, height, width) && FitsInt32(ax)
    ensures Accumulated(p, ax, ay) == Direct(ay.w, ax.w, Neighbourhood(p, ax, ay))
    ensures Sample(p, ax, ay) == Rounded(Direct(ay.w, ax.w, Neighbourhood(p, ax, ay)))
  {
    ColumnExact(p, height, width, ax);
    var m := Neighbourhood(p, ax, ay);
    assert Taps(Column(p, ax), ay) == RowSums(ax.w, m);
    SeparableSum(ay.w, ax.w, m);
  }

  ghost predicate TransposedPlanes(p: seq<seq<int>>, t: seq<seq<int>>, height: nat, width: nat) {
    && IsPlane(p, height, width) && IsPlane(t, width, height)
    && forall y, x :: 0 <= y < height && 0 <= x < width ==> p[y][x] == t[x][y]
  }

  /** Swapping the axes of the image swaps the axes of the result. */
  lemma SampleTransposes(p: seq<seq<int>>, t: seq<seq<int>>, height: nat, width: nat,
                         ax: AxisRow, ay: AxisRow)
    requires TransposedPlanes(p, t, height, width) && FitsInt32(ax) && FitsInt32(ay)
    ensures Sample(t, ay, ax) == Sample(p, ax, ay)
  {
    var m, n := Neighbourhood(p, ax, ay), Neighbourhood(t, ay, ax);
    forall j, i | 0 <= j < |m| && 0 <= i < |n| ensures m[j][i] == n[i][j] {
      assert p[ClampIndex(ay.first + j, height)][ClampIndex(ax.first + i, width)]
          == t[ClampIndex(ax.first + i, width)][ClampIndex(ay.first + j, height)];
    }
    SumOrder(ay.w, ax.w, m, n);
    ColumnExact(p, height, width, ax);
    ColumnExact(t, width, height, ay);
    assert Taps(Column(p, ax), ay) == RowSums(ax.w, m);
    assert Taps(Column(t, ay), ax) == RowSums(ay.w, n);
  }

  /** A uniform plane keeps its value exactly: no brightening, no darkening, no wrap-around. */
  lemma UniformSample(p: seq<seq<int>>, height: nat, width: nat, v: Byte, ax: AxisRow, ay: AxisRow)
    requires IsPlane(p, height, width)
    requires forall y, x :: 0 <= y < height && 0 <= x < width ==> p[y][x] == v
    requires Sum(ax.w) == ONE && Sum(ay.w) == ONE
    ensures Sample(p, ax, ay) == v
  {
    forall y | 0 <= y < height ensures Column(p, ax)[y] == v * ONE {
      DotConstant(ax.w, Taps(p[y], ax), v);
    }
    DotConstant(ay.w, Taps(Column(p, ax), ay), v * ONE);
    assert Accumulated(p, ax, ay) == v * TWO32;
  }

  // ----- nearest neighbour -----

  lemma PositiveFactor(x: real, b: real)
    requires b > 0.0 && x * b > 0.0
    ensures x > 0.0
  {
  }

  lemma UnitQuotient(a: real, b: real)
    requires 0.0 < a < b
    ensures 0.0 < a / b < 1.0
  {
    assert (1.0 - a / b) * b == b - a;
    PositiveFactor(1.0 - a / b, b);
  }

  lemma CenterOfCell(n: nat, s: nat, outN: nat, c: nat, r: nat)
    requires n > 0 && r < s && outN == n * s > 0
    ensures Center(n, outN, c * s + r) == c as real + (r as real + 0.5) / s as real - 0.5
  {
    var o := c * s + r;
    ProductReal(n, s);
    ProductReal(c, s);
    CenterReal(n as real, s as real, outN as real, c as real, r as real + 0.5, o as real + 0.5);
  }

  lemma ProductReal(a: nat, b: nat)
    ensures (a * b) as real == a as real * b as real
  {
  }

  lemma CenterReal(n: real, s: real, outN: real, c: real, r: real, o: real)
    requires n > 0.0 && s > 0.0 && outN == n * s && outN / n != 0.0 && o == c * s + r
    ensures o / (outN / n) == c + r / s
  {
    ScaleExact(n, s);
    SplitQuotient(c, s, r);
  }

  lemma ScaleExact(n: real, s: real)
    requires n > 0.0
    ensures n * s / n == s
  {
  }

  lemma SplitQuotient(c: real, s: real, r: real)
    requires s != 0.0
    ensures (c * s + r) / s == c + r / s
  {
  }

  /** The nearest row of a cell has its whole weight on that cell. */
  lemma NearestRow(n: nat, s: nat, outN: nat, c: nat, r: nat)
    requires n > 0 && r < s && outN == n * s > 0
    ensures OnlyOn(TableRow(Nearest, n, outN, c * s + r), c)
  {
    CenterOfCell(n, s, outN, c, r);
    UnitQuotient(r as real + 0.5, s as real);
    NearestWeights(c, (r as real + 0.5) / s as real);
  }

  lemma NearestWeights(c: nat, t: real)
    requires 0.0 < t < 1.0
    ensures var center := c as real + t - 0.5; var start := Start(Nearest, center);
            OnlyOn(AxisRow(start, Weights(Quantised(Raw(Nearest, center, start, 3)))), c)
  {
    hide Weights, Quantised, SumReal;
    var center := c as real + t - 0.5;
    var start := Start(Nearest, center);
    assert start == if t >= 0.5 || c == 0 then c else c - 1;
    var raw := Raw(Nearest, center, start, 3);
    var expected := if start == c then [1.0, 0.0, 0.0] else [0.0, 1.0, 0.0];
    assert raw == expected;
    OneHot(raw);
  }

  lemma OneHot(raw: seq<real>)
    requires raw == [1.0, 0.0, 0.0] || raw == [0.0, 1.0, 0.0]
    ensures Weights(Quantised(raw)) == if raw[0] == 1.0 then [ONE, 0, 0] else [0, ONE, 0]
  {
    assert raw[..2][..1] == raw[..1] && raw[..1][..0] == [];
    assert SumReal(raw[..1]) == raw[0];
    assert SumReal(raw[..2]) == raw[0] + raw[1];
    assert SumReal(raw) == 1.0;
    assert Quantise(1.0) == ONE && Quantise(0.0) == 0;
    var q := Quantised(raw);
    assert q == if raw[0] == 1.0 then [ONE, 0, 0] else [0, ONE, 0];
    assert q[..2][..1] == q[..1] && q[..1][..0] == [];
    assert Sum(q[..1]) == q[0];
    assert Sum(q[..2]) == ONE;
    assert Sum(q) == ONE;
    assert q[Largest(q).0 := q[Largest(q).0] + 0] == q;
  }

  /** Nearest upscaling by s repeats every source pixel in an s by s block. */
  lemma NearestSample(p: seq<seq<int>>, height: nat, width: nat, s: nat, outH: nat, outW: nat,
                      cy: nat, ry: nat, cx: nat, rx: nat)
    requires IsPlane(p, height, width) && cy < height && cx < width && ry < s && rx < s
    requires outH == height * s > 0 && outW == width * s > 0
    ensures Sample(p, TableRow(Nearest, width, outW, cx * s + rx),
                      TableRow(Nearest, height, outH, cy * s + ry)) == p[cy][cx]
  {
    hide TableRow, Sample;
    NearestRow(width, s, outW, cx, rx);
    NearestRow(height, s, outH, cy, ry);
    PickedSample(p, height, width, TableRow(Nearest, width, outW, cx * s + rx),
                 TableRow(Nearest, height, outH, cy * s + ry), cy, cx);
  }

  ghost predicate OnlyOn(row: AxisRow, c: nat) {
    && 0 <= c - row.first < |row.w|
    && row.w[c - row.first] == ONE
    && forall k :: 0 <= k < |row.w| && k != c - row.first ==> row.w[k] == 0
  }

  lemma PickedSample(p: seq<seq<int>>, height: nat, width: nat, ax: AxisRow, ay: AxisRow, cy: nat, cx: nat)
    requires IsPlane(p, height, width) && cy < height && cx < width
    requires OnlyOn(ax, cx) && OnlyOn(ay, cy)
    ensures Sample(p, ax, ay) == p[cy][cx]
  {
    forall y | 0 <= y < height ensures Column(p, ax)[y] == ONE * p[y][cx] {
      DotPick(ax.w, Taps(p[y], ax), cx - ax.first);
    }
    DotPick(ay.w, Taps(Column(p, ax), ay), cy - ay.first);
    assert Accumulated(p, ax, ay) == TWO32 * p[cy][cx];
  }

  // ----- the code -----

  /** Width, height and interleaved channels; pixels[y][x][c]. */
  datatype Image = Image(width: int, height: int, channels: int, pixels: seq<seq<seq<Byte>>>)

  /** The buffer holds what the header says. */
  ghost predicate Stored(img: Image) {
    && img.height >= 0 && |img.pixels| == img.height
    && (forall y :: 0 <= y < img.height ==> |img.pixels[y]| == img.width)
    && forall y, x :: 0 <= y < img.height && 0 <= x < img.width ==> |img.pixels[y][x]| == img.channels
  }

  predicate DimsOk(w: int, h: int, ch: int) {
    && 0 < w <= MAX_DIM && 0 < h <= MAX_DIM
    && 0 < ch <= MAX_CHANNELS
    && w * h <= MAX_PIXELS
  }

  /** One channel of an image. */
  ghost function Plane(img: Image, c: nat): (p: seq<seq<int>>)
    requires Stored(img) && img.width >= 0 && c < img.channels
    ensures |p| == img.height
    ensures forall y :: 0 <= y < img.height ==> |p[y]| == img.width
    ensures forall y, x :: 0 <= y < img.height && 0 <= x < img.width ==> p[y][x] == img.pixels[y][x][c]
  {
    seq(img.height, y requires 0 <= y < img.height =>
      seq(img.width, x requires 0 <= x < img.width => img.pixels[y][x][c]))
  }

  lemma PlaneIsPlane(img: Image, c: nat)
    requires Stored(img) && DimsOk(img.width, img.height, img.channels) && c < img.channels
    ensures IsPlane(Plane(img, c), img.height, img.width)
  {
  }

  /** Weights of the taps around the centre and their total. */
  method SampleKernel(f: Filter, center: real, start: int, taps: nat) returns (raw: seq<real>, sum: real)
    requires taps > 0
    ensures (raw, sum) == Repaired(Raw(f, center, start, taps))
  {
    ghost var spec := Raw(f, center, start, taps);
    raw, sum := [], 0.0;
    for k := 0 to taps
      invariant raw == spec[..k] && sum == SumReal(raw)
    {
      var weight := KernelWeight(f, center - (start + k) as real);
      raw, sum := raw + [weight], sum + weight;
      assert raw[..|raw| - 1] == spec[..k];
    }
    assert raw == spec;
    if sum == 0.0 {
      raw, sum := raw[0 := 1.0], 1.0;
    }
  }

  /** Quantise a row and put its rounding error on the largest weight. */
  method QuantiseRow(raw: seq<real>, sum: real, ghost quantised: seq<int>) returns (w: seq<int>)
    requires sum != 0.0 && |raw| == |quantised| > 0
    requires forall k :: 0 <= k < |raw| ==> quantised[k] == Quantise(raw[k] / sum)
    ensures w == Weights(quantised)
    ensures Sum(w) == ONE
  {
    hide Quantise;
    w := [];
    var acc, maxK, maxV := 0, 0, INT32_MIN;
    for k := 0 to |raw|
      invariant w == quantised[..k] && acc == Sum(w) && (maxK, maxV) == Largest(w)
    {
      var q := Quantise(raw[k] / sum);
      w, acc := w + [q], acc + q;
      assert w[..|w| - 1] == quantised[..k];
      if q > maxV { maxV, maxK := q, k; }
    }
    assert w == quantised;
    SumUpdate(w, maxK, ONE - acc);
    w := w[maxK := w[maxK] + (ONE - acc)];
  }

  method BuildRow(f: Filter, inN: nat, outN: nat, o: nat) returns (row: AxisRow)
    requires inN > 0 && outN > 0
    ensures row == TableRow(f, inN, outN, o)
    ensures Sum(row.w) == ONE
  {
    hide KernelWeight;
    var taps := TapCount(f);
    var center := Center(inN, outN, o);
    var start := Start(f, center);
    var raw, sum := SampleKernel(f, center, start, taps);
    var w := QuantiseRow(raw, sum, Quantised(Raw(f, center, start, taps)));
    row := AxisRow(start, w);
  }

  method BuildTable(f: Filter, inN: nat, outN: nat) returns (table: array<AxisRow>)
    requires inN > 0 && outN > 0
    ensures fresh(table) && table.Length == outN
    ensures forall o :: 0 <= o < outN ==> table[o] == TableRow(f, inN, outN, o)
  {
    hide TableRow;
    table := new AxisRow[outN];
    for o := 0 to outN
      invariant forall i :: 0 <= i < o ==> table[i] == TableRow(f, inN, outN, i)
    {
      table[o] := BuildRow(f, inN, outN, o);
    }
  }

  /** Inner loop of the horizontal pass: one channel of one line of pixels. */
  method HorizontalSum(line: seq<seq<Byte>>, c: nat, row: AxisRow, ghost values: seq<int>) returns (acc: int)
    requires |line| == |values| > 0
    requires forall x :: 0 <= x < |line| ==> c < |line[x]| && values[x] == line[x][c]
    ensures acc == Dot(row.w, Taps(values, row))
  {
    acc := 0;
    ghost var t := Taps(values, row);
    for k := 0 to |row.w|
      invariant acc == Dot(row.w[..k], t[..k])
    {
      acc := acc + row.w[k] * line[ClampIndex(row.first + k, |line|)][c];
      DotTake(row.w, t, k);
    }
    assert row.w[..|row.w|] == row.w && t[..|t|] == t;
  }

  /** Inner loop of the vertical pass: one column of the intermediate buffer. */
  method VerticalSum(tmp: array3<int>, x: nat, c: nat, row: AxisRow, ghost values: seq<int>) returns (acc: int)
    requires tmp.Length0 == |values| > 0 && x < tmp.Length1 && c < tmp.Length2
    requires forall y :: 0 <= y < |values| ==> tmp[y, x, c] == values[y]
    ensures acc == Dot(row.w, Taps(values, row))
  {
    acc := 0;
    ghost var t := Taps(values, row);
    for k := 0 to |row.w|
      invariant acc == Dot(row.w[..k], t[..k])
    {
      acc := acc + row.w[k] * tmp[ClampIndex(row.first + k, tmp.Length0), x, c];
      DotTake(row.w, t, k);
    }
    assert row.w[..|row.w|] == row.w && t[..|t|] == t;
  }

  ghost predicate Sound(src: Image) {
    Stored(src) && DimsOk(src.width, src.height, src.channels)
  }

  /** What the 32-bit buffer holds at one position. */
  ghost function Intermediate(src: Image, ax: AxisRow, y: nat, c: nat): int
    requires Sound(src) && y < src.height && c < src.channels
  {
    Column(Plane(src, c), ax)[y]
  }

  method HorizontalSample(src: Image, ax: AxisRow, y: nat, c: nat) returns (v: int)
    requires Sound(src) && y < src.height && c < src.channels
    ensures v == Intermediate(src, ax, y, c)
  {
    var acc := HorizontalSum(src.pixels[y], c, ax, Plane(src, c)[y]);
    v := Wrap32(acc);
  }

  method HorizontalPass(src: Image, hx: array<AxisRow>) returns (tmp: array3<int>)
    requires Sound(src)
    ensures fresh(tmp) && tmp.Length0 == src.height && tmp.Length1 == hx.Length && tmp.Length2 == src.channels
    ensures forall y, x, c :: 0 <= y < src.height && 0 <= x < hx.Length && 0 <= c < src.channels ==>
              tmp[y, x, c] == Intermediate(src, hx[x], y, c)
  {
    hide Intermediate;
    tmp := new int[src.height, hx.Length, src.channels];
    for y := 0 to src.height
      invariant forall j, i, d :: 0 <= j < y && 0 <= i < hx.Length && 0 <= d < src.channels ==>
                  tmp[j, i, d] == Intermediate(src, hx[i], j, d)
    {
      for x := 0 to hx.Length
        invariant forall j, i, d :: 0 <= j < y && 0 <= i < hx.Length && 0 <= d < src.channels ==>
                    tmp[j, i, d] == Intermediate(src, hx[i], j, d)
        invariant forall i, d :: 0 <= i < x && 0 <= d < src.channels ==>
                    tmp[y, i, d] == Intermediate(src, hx[i], y, d)
      {
        for c := 0 to src.channels
          invariant forall j, i, d :: 0 <= j < y && 0 <= i < hx.Length && 0 <= d < src.channels ==>
                      tmp[j, i, d] == Intermediate(src, hx[i], j, d)
          invariant forall i, d :: 0 <= i < x && 0 <= d < src.channels ==>
                      tmp[y, i, d] == Intermediate(src, hx[i], y, d)
          invariant forall d :: 0 <= d < c ==> tmp[y, x, d] == Intermediate(src, hx[x], y, d)
        {
          tmp[y, x, c] := HorizontalSample(src, hx[x], y, c);
        }
      }
    }
  }

  /** One pixel of the result. */
  ghost function Result(src: Image, ax: AxisRow, ay: AxisRow, c: nat): Byte
    requires Sound(src) && c < src.channels
  {
    Sample(Plane(src, c), ax, ay)
  }

  method VerticalSample(ghost src: Image, ghost ax: AxisRow, tmp: array3<int>, x: nat, c: nat, ay: AxisRow)
    returns (v: Byte)
    requires Sound(src) && tmp.Length0 == src.height && x < tmp.Length1 && c < tmp.Length2 == src.channels
    requires forall y :: 0 <= y < src.height ==> tmp[y, x, c] == Intermediate(src, ax, y, c)
    ensures v == Result(src, ax, ay, c)
  {
    var acc := VerticalSum(tmp, x, c, ay, Column(Plane(src, c), ax));
    v := ClampByte((acc + TWO31) / TWO32);
  }

  method VerticalPass(ghost src: Image, ghost hx: seq<AxisRow>, tmp: array3<int>, vy: array<AxisRow>)
    returns (dst: array3<Byte>)
    requires Sound(src) && tmp.Length0 == src.height && tmp.Length1 == |hx| && tmp.Length2 == src.channels
    requires forall y, x, c :: 0 <= y < src.height && 0 <= x < |hx| && 0 <= c < src.channels ==>
               tmp[y, x, c] == Intermediate(src, hx[x], y, c)
    ensures fresh(dst) && dst.Length0 == vy.Length && dst.Length1 == |hx| && dst.Length2 == src.channels
    ensures forall y, x, c :: 0 <= y < vy.Length && 0 <= x < |hx| && 0 <= c < src.channels ==>
              dst[y, x, c] == Result(src, hx[x], vy[y], c)
  {
    hide Intermediate, Result;
    dst := new Byte[vy.Length, tmp.Length1, tmp.Length2];
    for y := 0 to vy.Length
      invariant forall j, i, d :: 0 <= j < y && 0 <= i < |hx| && 0 <= d < src.channels ==>
                  dst[j, i, d] == Result(src, hx[i], vy[j], d)
    {
      for x := 0 to tmp.Length1
        invariant forall j, i, d :: 0 <= j < y && 0 <= i < |hx| && 0 <= d < src.channels ==>
                    dst[j, i, d] == Result(src, hx[i], vy[j], d)
        invariant forall i, d :: 0 <= i < x && 0 <= d < src.channels ==>
                    dst[y, i, d] == Result(src, hx[i], vy[y], d)
      {
        for c := 0 to tmp.Length2
          invariant forall j, i, d :: 0 <= j < y && 0 <= i < |hx| && 0 <= d < src.channels ==>
                      dst[j, i, d] == Result(src, hx[i], vy[j], d)
          invariant forall i, d :: 0 <= i < x && 0 <= d < src.channels ==>
                      dst[y, i, d] == Result(src, hx[i], vy[y], d)
          invariant forall d :: 0 <= d < c ==> dst[y, x, d] == Result(src, hx[x], vy[y], d)
        {
          dst[y, x, c] := VerticalSample(src, hx[x], tmp, x, c, vy[y]);
        }
      }
    }
  }

  predicate OutputOk(width: int, height: int, scale: int) {
    && width * scale <= MAX_DIM && height * scale <= MAX_DIM
    && (width * scale) * (height * scale) <= MAX_PIXELS
  }

  /** The pixel at (x, y) of the upscaled image. */
  ghost function Upscaled(src: Image, f: Filter, scale: int, y: nat, x: nat, c: nat): Byte
    requires Sound(src) && 1 <= scale <= MAX_SCALE && c < src.channels
    requires y < src.height * scale && x < src.width * scale
  {
    if scale == 1 then src.pixels[y][x][c]
    else Result(src, TableRow(f, src.width, src.width * scale, x), TableRow(f, src.height, src.height * scale, y), c)
  }

  /** An image all of one colour stays exactly that colour, for every filter and scale. */
  lemma UniformImage(src: Image, f: Filter, scale: int, v: Byte, y: nat, x: nat, c: nat)
    requires Sound(src) && 1 <= scale <= MAX_SCALE && c < src.channels
    requires y < src.height * scale && x < src.width * scale
    requires forall j, i :: 0 <= j < src.height && 0 <= i < src.width ==> src.pixels[j][i][c] == v
    ensures Upscaled(src, f, scale, y, x, c) == v
  {
    hide TableRow, Sample;
    PlaneIsPlane(src, c);
    RowSumsToOne(f, src.width, src.width * scale, x);
    RowSumsToOne(f, src.height, src.height * scale, y);
    UniformSample(Plane(src, c), src.height, src.width, v,
      TableRow(f, src.width, src.width * scale, x), TableRow(f, src.height, src.height * scale, y));
  }

  /** Nearest upscaling repeats every pixel: the one at (x, y) comes from (x / s, y / s). */
  lemma NearestImage(src: Image, scale: int, y: nat, x: nat, c: nat)
    requires Sound(src) && 1 <= scale <= MAX_SCALE && c < src.channels
    requires y < src.height * scale && x < src.width * scale
    ensures y / scale < src.height && x / scale < src.width
    ensures Upscaled(src, Nearest, scale, y, x, c) == src.pixels[y / scale][x / scale][c]
  {
    hide Upscaled, Sound;
    CellOf(y, scale, src.height);
    CellOf(x, scale, src.width);
    NearestCell(src, scale, y, x, c, y / scale, y % scale, x / scale, x % scale);
  }

  lemma NearestCell(src: Image, scale: int, y: nat, x: nat, c: nat, cy: nat, ry: nat, cx: nat, rx: nat)
    requires Sound(src) && 1 <= scale <= MAX_SCALE && c < src.channels
    requires y < src.height * scale && x < src.width * scale
    requires cy < src.height && cx < src.width && ry < scale && rx < scale
    requires y == cy * scale + ry && x == cx * scale + rx
    ensures Upscaled(src, Nearest, scale, y, x, c) == src.pixels[cy][cx][c]
  {
    hide TableRow, Sample;
    PlaneIsPlane(src, c);
    NearestSample(Plane(src, c), src.height, src.width, scale, src.height * scale, src.width * scale,
                  cy, ry, cx, rx);
  }

  lemma CellOf(x: nat, s: int, n: nat)
    requires s > 0 && x < n * s
    ensures x / s < n && x == x / s * s + x % s
  {
    assert x / s * s <= x < n * s;
    CancelLess(x / s, n, s);
  }

  lemma CancelLess(a: int, b: int, s: int)
    requires s > 0 && a * s < b * s
    ensures a < b
  {
  }

  ghost predicate TransposedImages(a: Image, b: Image) {
    && Sound(a) && Sound(b)
    && a.width == b.height && a.height == b.width && a.channels == b.channels
    && forall y, x, c :: 0 <= y < a.height && 0 <= x < a.width && 0 <= c < a.channels ==>
         a.pixels[y][x][c] == b.pixels[x][y][c]
  }

  /** Transposing then upscaling is upscaling then transposing, wherever the two rows of weights fit. */
  lemma UpscaleTransposes(a: Image, b: Image, f: Filter, scale: int, y: nat, x: nat, c: nat)
    requires TransposedImages(a, b) && 1 <= scale <= MAX_SCALE && c < a.channels
    requires y < a.height * scale && x < a.width * scale
    requires FitsInt32(TableRow(f, a.width, a.width * scale, x))
    requires FitsInt32(TableRow(f, a.height, a.height * scale, y))
    ensures Upscaled(b, f, scale, x, y, c) == Upscaled(a, f, scale, y, x, c)
  {
    hide TableRow, Sample, FitsInt32;
    if scale > 1 {
      PlaneIsPlane(a, c);
      PlaneIsPlane(b, c);
      SampleTransposes(Plane(a, c), Plane(b, c), a.height, a.width,
        TableRow(f, a.width, a.width * scale, x), TableRow(f, a.height, a.height * scale, y));
    }
  }

  /** Every pixel is the direct 2D weighted sum of its neighbourhood, rounded once, wherever its row of weights fits. */
  lemma UpscaleIsDirectSum(src: Image, f: Filter, scale: int, y: nat, x: nat, c: nat)
    requires Sound(src) && 1 < scale <= MAX_SCALE && c < src.channels
    requires y < src.height * scale && x < src.width * scale
    requires FitsInt32(TableRow(f, src.width, src.width * scale, x))
    ensures var ax := TableRow(f, src.width, src.width * scale, x);
            var ay := TableRow(f, src.height, src.height * scale, y);
            Upscaled(src, f, scale, y, x, c) == Rounded(Direct(ay.w, ax.w, Neighbourhood(Plane(src, c), ax, ay)))
  {
    hide TableRow, FitsInt32, Direct, Rounded;
    PlaneIsPlane(src, c);
    TwoPassesAreDirectSum(Plane(src, c), src.height, src.width,
      TableRow(f, src.width, src.width * scale, x), TableRow(f, src.height, src.height * scale, y));
  }

  /** Hence both hold of every pixel and every filter. */
  lemma EveryFilter(a: Image, b: Image, f: Filter, scale: int, y: nat, x: nat, c: nat)
    requires Faithful(f) && TransposedImages(a, b) && 1 < scale <= MAX_SCALE && c < a.channels
    requires y < a.height * scale && x < a.width * scale
    ensures Upscaled(b, f, scale, x, y, c) == Upscaled(a, f, scale, y, x, c)
    ensures var ax := TableRow(f, a.width, a.width * scale, x);
            var ay := TableRow(f, a.height, a.height * scale, y);
            Upscaled(a, f, scale, y, x, c) == Rounded(Direct(ay.w, ax.w, Neighbourhood(Plane(a, c), ax, ay)))
  {
    hide TableRow, FitsInt32, Direct, Rounded, Upscaled, Faithful, Neighbourhood;
    FiltersFit(f, a.width, a.width * scale, x);
    FiltersFit(f, a.height, a.height * scale, y);
    UpscaleTransposes(a, b, f, scale, y, x, c);
    UpscaleIsDirectSum(a, f, scale, y, x, c);
  }

  method Upscale(src: Image, scale: int, f: Filter) returns (rc: Status, dst: array3?<Byte>)
    requires DimsOk(src.width, src.height, src.channels) ==> Stored(src)
    ensures rc == ERR_ARG <==> scale < 1 || scale > MAX_SCALE
    ensures rc == OK <==>
              && 1 <= scale <= MAX_SCALE && DimsOk(src.width, src.height, src.channels)
              && OutputOk(src.width, src.height, scale)
    ensures rc == OK <==> dst != null
    ensures rc == OK ==>
              dst.Length0 == src.height * scale && dst.Length1 == src.width * scale && dst.Length2 == src.channels
    ensures rc == OK ==> forall y, x, c ::
              0 <= y < src.height * scale && 0 <= x < src.width * scale && 0 <= c < src.channels ==>
              dst[y, x, c] == Upscaled(src, f, scale, y, x, c)
  {
    if scale < 1 || scale > MAX_SCALE { return ERR_ARG, null; }
    if !DimsOk(src.width, src.height, src.channels) { return ERR_LIMIT, null; }
    var ow, oh := src.width * scale, src.height * scale;
    if ow > MAX_DIM || oh > MAX_DIM { return ERR_LIMIT, null; }
    if ow * oh > MAX_PIXELS { return ERR_LIMIT, null; }
    hide DimsOk, TableRow, Result;
    if scale == 1 {
      dst := new Byte[oh, ow, src.channels]((y, x, c) requires 0 <= y < oh && 0 <= x < ow && 0 <= c < src.channels
        => src.pixels[y][x][c]);
      return OK, dst;
    }
    var hx := BuildTable(f, src.width, ow);
    var vy := BuildTable(f, src.height, oh);
    var tmp := HorizontalPass(src, hx);
    dst := VerticalPass(src, hx[..], tmp, vy);
    rc := OK;
  }
}
