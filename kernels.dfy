/**
 * Kernels of Filter.h: a square weight matrix of side 2*radius+1 stored as a
 * flat, row-major array of (2*radius+1)^2 weights, and the factories that fill
 * that array in place (box blur, Gaussian, the two Sobel kernels and the
 * "sharpless" kernel). The factories, C++ subclasses of Kernel that only add a
 * constructor, are named constructors of Kernel here.
 */
module Kernels {

  /** Sum of a sequence of weights, added left to right. */
  function Sum(s: seq<real>): real
  {
    if |s| == 0 then 0.0 else Sum(s[..|s| - 1]) + s[|s| - 1]
  }

  lemma {:induction false} SumConstant(n: nat, v: real)
    ensures Sum(seq(n, _ => v)) == n as real * v
  {
    if n > 0 {
      assert seq(n, _ => v)[..n - 1] == seq(n - 1, _ => v);
      SumConstant(n - 1, v);
    }
  }

  lemma {:induction false} SumPositive(s: seq<real>)
    requires |s| > 0
    requires forall k :: 0 <= k < |s| ==> s[k] > 0.0
    ensures Sum(s) > 0.0
  {
    if |s| > 1 {
      SumPositive(s[..|s| - 1]);
    }
  }

  /** Every weight divided by `norm`. */
  function Normalize(s: seq<real>, norm: real): (t: seq<real>)
    requires norm != 0.0
    ensures |t| == |s|
    ensures forall k :: 0 <= k < |s| ==> t[k] * norm == s[k]
  {
    seq(|s|, k requires 0 <= k < |s| => s[k] / norm)
  }

  lemma {:induction false} SumNormalize(s: seq<real>, norm: real)
    requires norm != 0.0
    ensures Sum(Normalize(s, norm)) == Sum(s) / norm
  {
    if |s| > 0 {
      var n := |s| - 1;
      var t := Normalize(s, norm);
      assert t[..n] == Normalize(s[..n], norm);
      SumNormalize(s[..n], norm);
      assert t[n] == s[n] / norm;
      DivideAdd(Sum(s[..n]), s[n], norm);
    }
  }

  lemma DivideAdd(a: real, b: real, norm: real)
    requires norm != 0.0
    ensures a / norm + b / norm == (a + b) / norm
  {
  }

  /** getSize(): the side of a kernel of the given radius. */
  function KernelSize(radius: nat): nat
  {
    2 * radius + 1
  }

  /** getLen(): the number of weights of a kernel of the given radius. */
  function KernelLen(radius: nat): nat
  {
    KernelSize(radius) * KernelSize(radius)
  }

  lemma MulMonotone(a: nat, b: nat, c: nat)
    requires a <= b
    ensures a * c <= b * c
  {
  }

  /** Row-major flattening stays inside a size x size grid. */
  lemma IndexBound(size: nat, row: nat, col: nat)
    requires row < size && col < size
    ensures row * size + col < size * size
  {
    MulMonotone(row + 1, size, size);
    assert (row + 1) * size == row * size + size;
  }

  /** Adding one more weight to a prefix. */
  lemma SumSnoc(s: seq<real>, k: nat)
    requires k < |s|
    ensures Sum(s[..k + 1]) == Sum(s[..k]) + s[k]
  {
    assert s[..k + 1][..k] == s[..k];
  }

  /** The sum of a 3 x 3 kernel, weight by weight. */
  lemma SumNine(s: seq<real>)
    requires |s| == 9
    ensures Sum(s) == s[0] + s[1] + s[2] + s[3] + s[4] + s[5] + s[6] + s[7] + s[8]
  {
    SumSnoc(s, 0);
    SumSnoc(s, 1);
    SumSnoc(s, 2);
    SumSnoc(s, 3);
    SumSnoc(s, 4);
    SumSnoc(s, 5);
    SumSnoc(s, 6);
    SumSnoc(s, 7);
    SumSnoc(s, 8);
    assert s[..0] == [];
    assert s[..9] == s;
  }

  /**
   * The flat index (i + radius) * size + j + radius of row offset i and column
   * offset j, both in [-radius, radius].
   */
  function KernelIndex(radius: nat, i: int, j: int): (idx: nat)
    requires -(radius as int) <= i <= radius && -(radius as int) <= j <= radius
    ensures idx < KernelLen(radius)
  {
    IndexBound(KernelSize(radius), i + radius, j + radius);
    (i + radius) * KernelSize(radius) + j + radius
  }

  /** The flat index of the first weight of kernel row i. */
  function RowStart(radius: nat, i: int): nat
    requires -(radius as int) <= i
  {
    (i + radius) * KernelSize(radius)
  }

  /** Rows follow each other in the flat array; the row after the last ends it. */
  lemma RowStartNext(radius: nat, i: int)
    requires -(radius as int) <= i
    ensures RowStart(radius, i + 1) == RowStart(radius, i) + KernelSize(radius)
    ensures i == radius ==> RowStart(radius, i + 1) == KernelLen(radius)
  {
  }

  /** Rows -radius .. m-1-radius of the kernel whose weight at (i, j) is f(i, j). */
  function TabulateRows(radius: nat, f: (int, int) -> real, m: nat): (t: seq<real>)
    requires m <= KernelSize(radius)
    ensures |t| == m * KernelSize(radius)
  {
    if m == 0 then []
    else TabulateRows(radius, f, m - 1) + seq(KernelSize(radius), j => f(m - 1 - radius, j - radius))
  }

  lemma {:induction false} TabulateRowsPositive(radius: nat, f: (int, int) -> real, m: nat)
    requires m <= KernelSize(radius)
    requires forall x, y :: f(x, y) > 0.0
    ensures forall k :: 0 <= k < |TabulateRows(radius, f, m)| ==> TabulateRows(radius, f, m)[k] > 0.0
  {
    if m > 0 {
      TabulateRowsPositive(radius, f, m - 1);
    }
  }

  /** The kernel whose weight at row offset i, column offset j is f(i, j). */
  function Tabulate(radius: nat, f: (int, int) -> real): (t: seq<real>)
    ensures |t| == KernelLen(radius)
  {
    TabulateRows(radius, f, KernelSize(radius))
  }

  lemma {:induction false} TabulateRowsAt(radius: nat, f: (int, int) -> real, m: nat, i: int, j: int)
    requires m <= KernelSize(radius)
    requires -(radius as int) <= i < m - radius && -(radius as int) <= j <= radius
    ensures KernelIndex(radius, i, j) < |TabulateRows(radius, f, m)|
    ensures TabulateRows(radius, f, m)[KernelIndex(radius, i, j)] == f(i, j)
  {
    var size := KernelSize(radius);
    MulMonotone(i + radius + 1, m, size);
    if i < m - 1 - radius {
      MulMonotone(i + radius + 1, m - 1, size);
      TabulateRowsAt(radius, f, m - 1, i, j);
    }
  }

  lemma TabulateAt(radius: nat, f: (int, int) -> real, i: int, j: int)
    requires -(radius as int) <= i <= radius && -(radius as int) <= j <= radius
    ensures |Tabulate(radius, f)| == KernelLen(radius)
    ensures Tabulate(radius, f)[KernelIndex(radius, i, j)] == f(i, j)
  {
    TabulateRowsAt(radius, f, KernelSize(radius), i, j);
  }

  lemma TabulateSumPositive(radius: nat, f: (int, int) -> real)
    requires forall x, y :: f(x, y) > 0.0
    ensures Sum(Tabulate(radius, f)) > 0.0
  {
    var t := Tabulate(radius, f);
    TabulateRowsPositive(radius, f, KernelSize(radius));
    assert |t| == KernelSize(radius) * KernelSize(radius);
    MulMonotone(1, KernelSize(radius), KernelSize(radius));
    SumPositive(t);
  }

  /** The weights BlurKernel(radius) stores: 1/len everywhere. */
  function BoxWeights(radius: nat): seq<real>
  {
    seq(KernelLen(radius), _ => 1.0 / KernelLen(radius) as real)
  }

  /** The weights GaussianKernel(radius, sigma) stores, for weight(x, y) = exp(-(x*x + y*y) / (sigma*sigma)). */
  function GaussianWeights(radius: nat, weight: (int, int) -> real): seq<real>
    requires forall x, y :: weight(x, y) > 0.0
  {
    var raw := Tabulate(radius, weight);
    TabulateSumPositive(radius, weight);
    Normalize(raw, Sum(raw))
  }

  const SobelXWeights: seq<real> := [-1.0, 0.0, 1.0, -2.0, 0.0, 2.0, -1.0, 0.0, 1.0]
  const SobelYWeights: seq<real> := [-1.0, -2.0, -1.0, 0.0, 0.0, 0.0, 1.0, 2.0, 1.0]
  const SharplessWeights: seq<real> := [0.0, -1.0, 0.0, -1.0, 5.0, -1.0, 0.0, -1.0, 0.0]

  /**
   * The first pass of GaussianKernel: f(x, y) written at index
   * (x + r) * size + (y + r), x the outer and y the inner loop, with the
   * running sum of the weights written so far.
   */
  method FillTabulated(a: array<real>, r: nat, f: (int, int) -> real) returns (norm: real)
    requires a.Length == KernelLen(r)
    modifies a
    ensures a[..] == Tabulate(r, f) && norm == Sum(a[..])
  {
    ghost var raw := Tabulate(r, f);
    var size := KernelSize(r);
    norm := 0.0;
    // p is the index of the first weight of row x: (x + r) * size
    ghost var p := 0;
    var x := -(r as int);
    while x <= r
      invariant -(r as int) <= x <= r + 1
      invariant p == RowStart(r, x) && p <= a.Length
      invariant forall k :: 0 <= k < p ==> a[k] == raw[k]
      invariant norm == Sum(raw[..p])
    {
      IndexBound(size, x + r, size - 1);
      norm := FillRow(a, r, f, x, p, norm);
      RowStartNext(r, x);
      p := p + size;
      x := x + 1;
    }
    assert p == a.Length;
    assert raw[..p] == raw;
    assert a[..] == raw;
  }

  /** The inner loop of the first Gaussian pass: row x written from index p = (x + r) * size on. */
  method FillRow(a: array<real>, r: nat, f: (int, int) -> real, x: int, ghost p: nat, norm0: real) returns (norm: real)
    requires a.Length == KernelLen(r) && -(r as int) <= x <= r
    requires p == RowStart(r, x) && p + KernelSize(r) <= a.Length
    requires forall k :: 0 <= k < p ==> a[k] == Tabulate(r, f)[k]
    requires norm0 == Sum(Tabulate(r, f)[..p])
    modifies a
    ensures forall k :: 0 <= k < p + KernelSize(r) ==> a[k] == Tabulate(r, f)[k]
    ensures norm == Sum(Tabulate(r, f)[..p + KernelSize(r)])
    ensures forall k :: p + KernelSize(r) <= k < a.Length ==> a[k] == old(a[k])
  {
    ghost var raw := Tabulate(r, f);
    norm := norm0;
    var y := -(r as int);
    while y <= r
      invariant -(r as int) <= y <= r + 1
      invariant forall k :: 0 <= k < p + y + r ==> a[k] == raw[k]
      invariant norm == Sum(raw[..p + y + r])
      invariant forall k :: p + y + r <= k < a.Length ==> a[k] == old(a[k])
    {
      var idx := KernelIndex(r, x, y);
      assert idx == p + y + r;
      TabulateAt(r, f, x, y);
      a[idx] := f(x, y);
      norm := norm + a[idx];
      SumSnoc(raw, idx);
      y := y + 1;
    }
  }

  /** The second pass of GaussianKernel: every weight divided by norm. */
  method DivideAll(a: array<real>, norm: real)
    requires norm != 0.0
    modifies a
    ensures a[..] == Normalize(old(a[..]), norm)
  {
    ghost var before := a[..];
    for i := 0 to a.Length
      invariant forall k :: 0 <= k < i ==> a[k] == before[k] / norm
      invariant forall k :: i <= k < a.Length ==> a[k] == before[k]
    {
      a[i] := a[i] / norm;
    }
  }

  class Kernel
  {
    const radius: nat
    const data: array<real>

    /** getSize(): an odd side with the centre cell at offset radius. */
    function Size(): (s: nat)
      ensures s % 2 == 1 && s / 2 == radius
    {
      KernelSize(radius)
    }

    /** getLen(): the cells of a Size() x Size() square, at least one. */
    function Len(): (l: nat)
      ensures l == Size() * Size() && l >= Size() >= 1
    {
      MulMonotone(1, Size(), Size());
      KernelLen(radius)
    }

    /** The array always holds exactly getLen() weights. */
    predicate Valid()
    {
      data.Length == Len()
    }

    function Weights(): seq<real>
      reads data
    {
      data[..]
    }

    /** The const operator[]. */
    function At(id: int): (v: real)
      reads data
      requires Valid() && 0 <= id < Len()
      ensures id < |Weights()| && v == Weights()[id]
    {
      data[id]
    }

    /** Assignment through the non-const operator[]. */
    method Set(id: int, v: real)
      requires Valid() && 0 <= id < Len()
      modifies data
      ensures Weights() == old(Weights())[id := v]
    {
      data[id] := v;
    }

    /** Kernel(radius): a zero-initialised array of getLen() weights. */
    constructor (r: nat)
      ensures radius == r && Valid() && fresh(data)
      ensures Weights() == seq(KernelLen(r), _ => 0.0)
    {
      radius := r;
      data := new real[KernelLen(r)](_ => 0.0);
    }

    /** The copy constructor: same radius, the weights copied into a fresh array. */
    constructor Copy(right: Kernel)
      requires right.Valid()
      ensures radius == right.radius && Valid() && fresh(data)
      ensures Weights() == right.Weights()
    {
      radius := right.radius;
      data := new real[KernelLen(right.radius)](_ => 0.0);
      new;
      for i := 0 to data.Length
        invariant forall k :: 0 <= k < i ==> data[k] == right.data[k]
      {
        data[i] := right.data[i];
      }
    }

    /** BlurKernel(radius): every weight 1/getLen(). */
    constructor Blur(r: nat)
      ensures radius == r && Valid() && fresh(data)
      ensures Weights() == BoxWeights(r)
    {
      radius := r;
      data := new real[KernelLen(r)](_ => 0.0);
      new;
      for i := 0 to data.Length
        invariant forall k :: 0 <= k < i ==> data[k] == 1.0 / KernelLen(r) as real
      {
        data[i] := 1.0 / Len() as real;
      }
    }

    /**
     * GaussianKernel(radius, sigma): weight(x, y) written at index
     * (x + radius) * size + (y + radius) while the running sum `norm` is
     * accumulated, then every weight divided by `norm`.
     */
    constructor Gaussian(r: nat, weight: (int, int) -> real)
      requires forall x, y :: weight(x, y) > 0.0
      ensures radius == r && Valid() && fresh(data)
      ensures Weights() == GaussianWeights(r, weight)
    {
      radius := r;
      data := new real[KernelLen(r)](_ => 0.0);
      new;
      var norm := FillTabulated(data, r, weight);
      TabulateSumPositive(r, weight);
      DivideAll(data, norm);
    }

    /** SobelKernelX(): the horizontal-gradient kernel of radius 1. */
    constructor SobelX()
      ensures radius == 1 && Valid() && fresh(data)
      ensures Weights() == SobelXWeights
    {
      radius := 1;
      data := new real[KernelLen(1)](_ => 0.0);
      new;
      data[0] := -1.0;
      data[6] := -1.0;
      data[1] := 0.0;
      data[4] := 0.0;
      data[7] := 0.0;
      data[2] := 1.0;
      data[8] := 1.0;
      data[3] := -2.0;
      data[5] := 2.0;
    }

    /** SobelKernelY(): the vertical-gradient kernel of radius 1. */
    constructor SobelY()
      ensures radius == 1 && Valid() && fresh(data)
      ensures Weights() == SobelYWeights
    {
      radius := 1;
      data := new real[KernelLen(1)](_ => 0.0);
      new;
      data[3] := 0.0;
      data[4] := 0.0;
      data[5] := 0.0;
      data[0] := -1.0;
      data[2] := -1.0;
      data[1] := -2.0;
      data[6] := 1.0;
      data[8] := 1.0;
      data[7] := 2.0;
    }

    /** SharplessKernel(): the sharpening kernel of radius 1. */
    constructor Sharpless()
      ensures radius == 1 && Valid() && fresh(data)
      ensures Weights() == SharplessWeights
    {
      radius := 1;
      data := new real[KernelLen(1)](_ => 0.0);
      new;
      data[0] := 0.0;
      data[2] := 0.0;
      data[6] := 0.0;
      data[8] := 0.0;
      data[1] := -1.0;
      data[3] := -1.0;
      data[5] := -1.0;
      data[7] := -1.0;
      data[4] := 5.0;
    }
  }

  /** Box-blur weights average: they sum to 1. */
  lemma BoxWeightsSum(radius: nat)
    ensures Sum(BoxWeights(radius)) == 1.0
  {
    var n := KernelLen(radius);
    SumConstant(n, 1.0 / n as real);
  }

  /** A box blur of radius 0 is the single weight 1. */
  lemma BoxWeightsRadiusZero()
    ensures BoxWeights(0) == [1.0]
  {
  }

  /** Normalisation makes the Gaussian weights sum to 1, whatever the raw weights. */
  lemma GaussianWeightsSum(radius: nat, weight: (int, int) -> real)
    requires forall x, y :: weight(x, y) > 0.0
    ensures |GaussianWeights(radius, weight)| == KernelLen(radius)
    ensures Sum(GaussianWeights(radius, weight)) == 1.0
  {
    var raw := Tabulate(radius, weight);
    TabulateSumPositive(radius, weight);
    TabulateAt(radius, weight, 0, 0);
    SumNormalize(raw, Sum(raw));
    assert Sum(raw) / Sum(raw) == 1.0;
  }

  lemma SobelXSum()
    ensures Sum(SobelXWeights) == 0.0
  {
    SumNine(SobelXWeights);
  }

  lemma SobelYSum()
    ensures Sum(SobelYWeights) == 0.0
  {
    SumNine(SobelYWeights);
  }

  lemma SharplessSum()
    ensures Sum(SharplessWeights) == 1.0
  {
    SumNine(SharplessWeights);
  }

  /** Sobel-Y is Sobel-X transposed: the weight at (i, j) of one is the weight at (j, i) of the other. */
  lemma SobelTranspose(i: int, j: int)
    requires -1 <= i <= 1 && -1 <= j <= 1
    ensures SobelYWeights[KernelIndex(1, i, j)] == SobelXWeights[KernelIndex(1, j, i)]
  {
  }

  /** Sobel-X is antisymmetric in the column offset: it weighs the right neighbour against the left. */
  lemma SobelXAntisymmetric(i: int, j: int)
    requires -1 <= i <= 1 && -1 <= j <= 1
    ensures SobelXWeights[KernelIndex(1, i, j)] == -SobelXWeights[KernelIndex(1, i, -j)]
  {
  }
}
