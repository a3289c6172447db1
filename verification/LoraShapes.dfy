/**
 Factored tensors under `permute`, `transpose` and `reshape`, against the same operations
 on the dense product.
 */
module LoraShapes {
  import opened Text
  import opened LoraTensor

  // ----- permute and transpose -----

  /** Every dimension, once. */
  predicate IsPermutation(dims: seq<nat>) {
    && (forall d :: 0 <= d < |dims| ==> dims[d] < |dims|)
    && (forall d, e :: 0 <= d < e < |dims| ==> dims[d] != dims[e])
    && (forall j :: 0 <= j < |dims| ==> j in dims)
  }

  /** Position of `j` in `dims`, or the length. */
  function Position(dims: seq<nat>, j: nat): (p: nat)
    ensures p <= |dims|
    ensures p < |dims| ==> dims[p] == j
    ensures forall q :: 0 <= q < p ==> dims[q] != j
  {
    if dims == [] || dims[0] == j then 0 else 1 + Position(dims[1..], j)
  }

  /** The index before the dimensions were permuted. */
  function Unpermute(dims: seq<nat>, idx: seq<nat>): (r: seq<nat>)
    ensures |r| == |dims|
  {
    seq(|dims|, j requires 0 <= j < |dims| => var p := Position(dims, j); if p < |idx| then idx[p] else 0)
  }

  function PermuteTensor(t: Tensor, dims: seq<nat>): Tensor
    requires |dims| == |t.shape| && IsPermutation(dims)
  {
    Tensor(seq(|dims|, d requires 0 <= d < |dims| => t.shape[dims[d]]), idx => t.at(Unpermute(dims, idx)))
  }

  /** Dimensions as written, counted from the end when they are not negative, and then
      from the front. */
  function FromEnd(dims: seq<int>, n: nat): seq<int> {
    seq(|dims|, d requires 0 <= d < |dims| => if dims[d] >= 0 then dims[d] - n else dims[d])
  }

  function FromFront(dims: seq<int>, n: nat): (r: Option<seq<nat>>)
    ensures r.Some? ==> |r.value| == n == |dims| && IsPermutation(r.value)
    ensures r.Some? ==> forall d :: 0 <= d < n ==> r.value[d] == dims[d] + n
  {
    if |dims| != n || !(forall d :: 0 <= d < n ==> -(n as int) <= dims[d] < 0) then None
    else
      var r := seq(n, d requires 0 <= d < n => (dims[d] + n) as nat);
      if IsPermutation(r) then Some(r) else None
  }

  predicate SharedLead(w: Lora) {
    w.Valid() && forall d :: 0 <= d < w.Dims() - 2 ==> w.A.shape[d] == 1
  }

  /** `permute`; only what keeps the columns last, or swaps the two dimensions of a plain
      tensor, is supported. */
  function Permute(w: Lora, dims: seq<int>): Option<Lora>
    requires w.Valid()
  {
    var n := w.Dims();
    var ends := FromEnd(dims, n);
    match FromFront(ends, n)
    case None => None
    case Some(ds) =>
      if ends[n - 1] == -1 then
        if SharedLead(w) then Some(Lora(w.A, PermuteTensor(w.B, ds))) else None
      else if n == 2 && ends[1] == -2 && ends[0] == -1 then
        Some(Lora(PermuteTensor(w.B, ds), PermuteTensor(w.A, ds)))
      else None
  }

  lemma PositionOf(dims: seq<nat>, p: nat)
    requires IsPermutation(dims) && p < |dims|
    ensures Position(dims, dims[p]) == p
  {
  }

  /** Dimension `d` of the result is dimension `dims[d]` of the tensor, entries included. */
  lemma PermutedAt(t: Tensor, dims: seq<nat>, idx: seq<nat>)
    requires |dims| == |t.shape| == |idx| && IsPermutation(dims)
    ensures var v := PermuteTensor(t, dims);
            && |v.shape| == |dims| && (forall d :: 0 <= d < |dims| ==> v.shape[d] == t.shape[dims[d]])
            && v.at(seq(|dims|, d requires 0 <= d < |dims| => idx[dims[d]])) == t.at(idx)
  {
    var moved := seq(|dims|, d requires 0 <= d < |dims| => idx[dims[d]]);
    forall j | 0 <= j < |dims| ensures Unpermute(dims, moved)[j] == idx[j] {
      PermutationHasAll(dims, j);
    }
    assert Unpermute(dims, moved) == idx;
  }

  /** Dimensions as written: from the front, or from behind when negative. */
  lemma DimsAsWritten(dims: seq<int>, n: nat)
    ensures FromFront(FromEnd(dims, n), n).Some? ==>
              |dims| == n && forall d :: 0 <= d < n ==>
                FromFront(FromEnd(dims, n), n).value[d] == if dims[d] < 0 then dims[d] + n else dims[d]
  {
  }

  lemma PermutationHasAll(dims: seq<nat>, j: nat)
    requires IsPermutation(dims) && j < |dims|
    ensures Position(dims, j) < |dims|
  {
    assert j in dims;
  }

  /** With the last dimension fixed, the last index passes through. */
  lemma UnpermuteLast(dims: seq<nat>, x: seq<nat>, k: nat, j: nat)
    requires IsPermutation(dims) && dims != [] && |x| + 1 == |dims| && dims[|dims| - 1] == |dims| - 1
    ensures Unpermute(dims, x + [k]) == Unpermute(dims, x + [j])[..|dims| - 1] + [k]
  {
    var n := |dims|;
    PositionOf(dims, n - 1);
    forall i | 0 <= i < n - 1 ensures Unpermute(dims, x + [k])[i] == Unpermute(dims, x + [j])[i] {
      PermutationHasAll(dims, i);
      assert Position(dims, i) != n - 1;
    }
  }

  lemma SharedClip(shape: seq<nat>, x: seq<nat>, y: seq<nat>)
    requires |x| == |y| <= |shape| && forall d :: 0 <= d < |x| ==> shape[d] == 1
    ensures Clip(shape, x) == Clip(shape, y)
  {
  }

  lemma TermLast(w: Lora, x: seq<nat>, j: nat, k: nat)
    requires w.Valid() && |x| + 1 == w.Dims()
    ensures Term(w, x + [j], k) == w.B.at(x + [k]) * w.A.at(Clip(w.A.shape, x[..|x| - 1]) + [k, j])
  {
    var idx := x + [j];
    assert idx[..|idx| - 1] == x && idx[..|idx| - 2] == x[..|x| - 1];
  }

  lemma PermuteTerm(w: Lora, v: Lora, ds: seq<nat>, x: seq<nat>, j: nat, k: nat)
    requires SharedLead(w) && |ds| == w.Dims() && IsPermutation(ds) && ds[w.Dims() - 1] == w.Dims() - 1
    requires v == Lora(w.A, PermuteTensor(w.B, ds)) && v.Valid() && |x| + 1 == w.Dims()
    ensures Term(v, x + [j], k) == Term(w, Unpermute(ds, x + [j]), k)
  {
    var y := Unpermute(ds, x + [j])[..|x|];
    UnpermuteLast(ds, x, k, j);
    UnpermuteLast(ds, x, j, j);
    SharedClip(w.A.shape, x[..|x| - 1], y[..|x| - 1]);
    TermLast(v, x, j, k);
    TermLast(w, y, j, k);
  }

  lemma PermuteEntry(w: Lora, v: Lora, ds: seq<nat>, idx: seq<nat>)
    requires SharedLead(w) && |ds| == w.Dims() && IsPermutation(ds) && ds[w.Dims() - 1] == w.Dims() - 1
    requires v == Lora(w.A, PermuteTensor(w.B, ds)) && v.Valid() && v.Rank() == w.Rank() && |idx| == w.Dims()
    ensures Dense(v).at(idx) == Dense(w).at(Unpermute(ds, idx))
  {
    var n := |idx|;
    assert idx == idx[..n - 1] + [idx[n - 1]];
    forall k | 0 <= k < w.Rank() ensures Term(v, idx, k) == Term(w, Unpermute(ds, idx), k) {
      PermuteTerm(w, v, ds, idx[..n - 1], idx[n - 1], k);
    }
    SumsEqual(v, idx, w, Unpermute(ds, idx), w.Rank());
  }

  lemma PermuteRows(w: Lora, ds: seq<nat>)
    requires SharedLead(w) && |ds| == w.Dims() && IsPermutation(ds) && ds[w.Dims() - 1] == w.Dims() - 1
    ensures var v := Lora(w.A, PermuteTensor(w.B, ds));
            v.Compatible() && Same(Dense(v), PermuteTensor(Dense(w), ds))
  {
    var n, v := w.Dims(), Lora(w.A, PermuteTensor(w.B, ds));
    forall d | 0 <= d < n - 1 ensures w.B.shape[ds[d]] == w.Shape()[ds[d]] {
      assert ds[d] != ds[n - 1];
    }
    assert v.Shape() == PermuteTensor(Dense(w), ds).shape;
    forall idx | InShape(idx, v.Shape()) ensures Dense(v).at(idx) == PermuteTensor(Dense(w), ds).at(idx) {
      PermuteEntry(w, v, ds, idx);
    }
  }

  lemma SwapTwo(x: nat, y: nat)
    ensures Unpermute([1, 0], [x, y]) == [y, x]
  {
    PositionOf([1, 0], 0);
    PositionOf([1, 0], 1);
  }

  lemma TransposeTerm(w: Lora, v: Lora, i: nat, j: nat, k: nat)
    requires w.Valid() && w.Dims() == 2 && v.Valid()
    requires v == Lora(PermuteTensor(w.B, [1, 0]), PermuteTensor(w.A, [1, 0]))
    ensures Term(v, [i, j], k) == Term(w, [j, i], k)
  {
    SwapTwo(i, k);
    SwapTwo(k, j);
    PlainTerm(v, i, j, k);
    PlainTerm(w, j, i, k);
  }

  lemma PlainTerm(w: Lora, i: nat, j: nat, k: nat)
    requires w.Valid() && w.Dims() == 2
    ensures Term(w, [i, j], k) == w.B.at([i, k]) * w.A.at([k, j])
  {
    assert [i, j][..1] + [k] == [i, k] && [i, j][..0] == [];
    assert Clip(w.A.shape, []) + [k, j] == [k, j];
  }

  lemma TransposePlain(w: Lora)
    requires w.Valid() && w.Dims() == 2
    ensures var v := Lora(PermuteTensor(w.B, [1, 0]), PermuteTensor(w.A, [1, 0]));
            v.Compatible() && Same(Dense(v), PermuteTensor(Dense(w), [1, 0]))
  {
    var v := Lora(PermuteTensor(w.B, [1, 0]), PermuteTensor(w.A, [1, 0]));
    forall idx | InShape(idx, v.Shape()) ensures Dense(v).at(idx) == PermuteTensor(Dense(w), [1, 0]).at(idx) {
      var i, j := idx[0], idx[1];
      assert idx == [i, j];
      SwapTwo(i, j);
      forall k | 0 <= k < w.Rank() ensures Term(v, [i, j], k) == Term(w, [j, i], k) {
        TransposeTerm(w, v, i, j, k);
      }
      SumsEqual(v, [i, j], w, [j, i], w.Rank());
    }
  }

  /** Whatever `permute` accepts agrees with the product. */
  lemma PermuteDense(w: Lora, dims: seq<int>)
    requires w.Compatible() && Permute(w, dims).Some?
    ensures var v, ds := Permute(w, dims).value, FromFront(FromEnd(dims, w.Dims()), w.Dims()).value;
            v.Compatible() && Same(Dense(v), PermuteTensor(Dense(w), ds))
  {
    var ds := FromFront(FromEnd(dims, w.Dims()), w.Dims()).value;
    if ds[w.Dims() - 1] == w.Dims() - 1 {
      PermuteRows(w, ds);
    } else {
      assert ds == [1, 0];
      TransposePlain(w);
    }
  }

  /** `transpose`: the two entries of the list of dimensions change places; they are counted
      from the end when negative. */
  function Transpose(w: Lora, dim0: int, dim1: int): Option<Lora>
    requires w.Valid()
  {
    var n := w.Dims();
    if !(-(n as int) <= dim0 < n) || !(-(n as int) <= dim1 < n) then None
    else
      var d0, d1 := if dim0 < 0 then dim0 + n else dim0, if dim1 < 0 then dim1 + n else dim1;
      Permute(w, SwappedList(n, d0, d1))
  }

  function SwappedList(n: nat, d0: nat, d1: nat): seq<int>
    requires d0 < n && d1 < n
  {
    var dims: seq<int> := seq(n, d requires 0 <= d < n => d);
    dims[d0 := dims[d1]][d1 := dims[d0]]
  }

  /** All dimensions in order but for `d0` and `d1`, which change places. */
  function SwapDims(n: nat, d0: nat, d1: nat): seq<nat> {
    seq(n, d requires 0 <= d < n => if d == d0 then d1 else if d == d1 then d0 else d)
  }

  lemma SwapIsPermutation(n: nat, d0: nat, d1: nat)
    requires d0 < n && d1 < n
    ensures IsPermutation(SwapDims(n, d0, d1))
  {
    var ds := SwapDims(n, d0, d1);
    forall j | 0 <= j < n ensures j in ds {
      assert ds[if j == d0 then d1 else if j == d1 then d0 else j] == j;
    }
  }

  /** `transpose` swaps the two dimensions of the product. */
  lemma TransposeDense(w: Lora, dim0: int, dim1: int)
    requires w.Compatible() && Transpose(w, dim0, dim1).Some?
    ensures var n, v := w.Dims(), Transpose(w, dim0, dim1).value;
            var ds := SwapDims(n, if dim0 < 0 then dim0 + n else dim0, if dim1 < 0 then dim1 + n else dim1);
            && v.Compatible() && |ds| == n && IsPermutation(ds) && Same(Dense(v), PermuteTensor(Dense(w), ds))
  {
    var n := w.Dims();
    var d0, d1 := if dim0 < 0 then dim0 + n else dim0, if dim1 < 0 then dim1 + n else dim1;
    PermuteDense(w, SwappedList(n, d0, d1));
    SwappedDims(n, d0, d1);
  }

  lemma SwappedDims(n: nat, d0: nat, d1: nat)
    requires d0 < n && d1 < n
    ensures FromFront(FromEnd(SwappedList(n, d0, d1), n), n) == Some(SwapDims(n, d0, d1))
    ensures IsPermutation(SwapDims(n, d0, d1))
  {
    SwapIsPermutation(n, d0, d1);
    var ends := FromEnd(SwappedList(n, d0, d1), n);
    assert seq(n, d requires 0 <= d < n => (ends[d] + n) as nat) == SwapDims(n, d0, d1);
  }

  // ----- reshape -----

  function Prod(shape: seq<nat>): nat {
    if shape == [] then 1 else Prod(shape[..|shape| - 1]) * shape[|shape| - 1]
  }

  /** The place of an entry in row-major order, and back. */
  function Ravel(shape: seq<nat>, idx: seq<nat>): nat
    requires |shape| == |idx|
  {
    if shape == [] then 0
    else Ravel(shape[..|shape| - 1], idx[..|idx| - 1]) * shape[|shape| - 1] + idx[|idx| - 1]
  }

  function Unravel(shape: seq<nat>, n: nat): (r: seq<nat>)
    ensures |r| == |shape|
  {
    if shape == [] then []
    else
      var last := shape[|shape| - 1];
      Unravel(shape[..|shape| - 1], if last > 0 then n / last else 0) + [if last > 0 then n % last else 0]
  }

  function ReshapeTensor(t: Tensor, shape: seq<nat>): Option<Tensor> {
    if Prod(shape) != Prod(t.shape) then None
    else Some(Tensor(shape, idx => if |idx| == |shape| then t.at(Unravel(t.shape, Ravel(shape, idx))) else 0.0))
  }

  /** The product of the sizes that are given, -1 counting as 1. */
  function ProdKnown(dims: seq<int>): int {
    if dims == [] then 1 else (if dims[0] == -1 then 1 else dims[0]) * ProdKnown(dims[1..])
  }

  /** The new shape with -1 filled in. */
  function FilledShape(dims: seq<int>, elements: nat): Option<seq<nat>> {
    var known := ProdKnown(dims);
    if exists d :: 0 <= d < |dims| && dims[d] < -1 then None
    else if -1 in dims && (known == 0 || elements % known != 0) then None
    else
      Some(seq(|dims|, d requires 0 <= d < |dims| =>
        if dims[d] >= 0 then dims[d] as nat else if known > 0 then elements / known else 0))
  }

  /** `reshape`, which keeps the size of the rows. */
  function Reshape(w: Lora, dims: seq<int>): Option<Lora>
    requires w.Valid()
  {
    if |dims| < 2 then None
    else
      match FilledShape(dims, Prod(w.Shape()))
      case None => None
      case Some(shape) =>
        var m := |shape|;
        if shape[m - 1] != w.Shape()[w.Dims() - 1] then None
        else
          var a := ReshapeTensor(w.A, seq(m - 2, _ => 1) + [w.Rank(), shape[m - 1]]);
          var b := ReshapeTensor(w.B, shape[..m - 1] + [w.Rank()]);
          if a.None? || b.None? then None else Some(Lora(a.value, b.value))
  }

  lemma ProdLast(s: seq<nat>, r: nat)
    ensures Prod(s + [r]) == Prod(s) * r
  {
    assert (s + [r])[..|s|] == s;
  }

  lemma RavelLast(s: seq<nat>, x: seq<nat>, r: nat, k: nat)
    requires |s| == |x|
    ensures Ravel(s + [r], x + [k]) == Ravel(s, x) * r + k
  {
    assert (s + [r])[..|s|] == s && (x + [k])[..|x|] == x;
  }

  lemma DivideBack(q: nat, r: nat, k: nat)
    requires k < r
    ensures (q * r + k) / r == q && (q * r + k) % r == k
  {
    var n := q * r + k;
    var q', k' := n / r, n % r;
    assert n == q' * r + k';
    SameQuotient(q, q', r, k, k');
  }

  lemma SameQuotient(q: nat, q': nat, r: nat, k: nat, k': nat)
    requires k < r && k' < r && q * r + k == q' * r + k'
    ensures q == q' && k == k'
  {
    if q < q' {
      AtLeastOneMore(q, q', r);
    } else if q' < q {
      AtLeastOneMore(q', q, r);
    }
  }

  lemma AtLeastOneMore(q: nat, p: nat, r: nat)
    requires q < p
    ensures p * r >= q * r + r
  {
    SumTimes(q + 1, p - q - 1, r);
    SumTimes(q, 1, r);
  }

  lemma SumTimes(x: nat, y: nat, r: nat)
    ensures (x + y) * r == x * r + y * r && y * r >= 0
  {
  }

  lemma UnravelLast(s: seq<nat>, r: nat, q: nat, k: nat)
    requires k < r
    ensures Unravel(s + [r], q * r + k) == Unravel(s, q) + [k]
  {
    assert (s + [r])[..|s|] == s;
    DivideBack(q, r, k);
  }

  lemma OneSize(x: nat, k: nat)
    ensures Prod([x]) == x && Ravel([x], [k]) == k
  {
    assert [x][..0] == [] && [k][..0] == [];
    assert Prod([x]) == Prod([]) * x;
    assert Ravel([x], [k]) == Ravel([], []) * x + k;
  }

  lemma OnePlace(x: nat, k: nat)
    requires k < x
    ensures Unravel([x], k) == [k]
  {
    assert [x][..0] == [];
    assert Unravel([x], k) == Unravel([], k / x) + [k % x];
    DivideBack(0, x, k);
  }

  lemma TwoSizes(m: nat, n: nat, i: nat, j: nat, q: nat)
    requires i < m && j < n && q == i * n + j
    ensures Unravel([m, n], q) == [i, j]
  {
    assert [m] + [n] == [m, n] && [i] + [j] == [i, j];
    OnePlace(m, i);
    UnravelLast([m], n, i, j);
  }

  /** Rows follow each other when a matrix is flattened. */
  lemma FlattenedRows(t: Tensor, m: nat, n: nat, i: nat, j: nat, size: nat, q: nat)
    requires t.shape == [m, n] && i < m && j < n && size == m * n && q == i * n + j
    ensures var v := ReshapeTensor(t, [size]); v.Some? && v.value.at([q]) == t.at([i, j])
  {
    ProdTwo(m, n);
    OneSize(size, q);
    TwoSizes(m, n, i, j, q);
  }

  lemma {:induction false} UnravelOnes(s: seq<nat>)
    requires forall d :: 0 <= d < |s| ==> s[d] == 1
    ensures Unravel(s, 0) == seq(|s|, _ => 0)
    decreases |s|
  {
    if s != [] {
      UnravelOnes(s[..|s| - 1]);
    }
  }

  lemma {:induction false} RavelZeros(s: seq<nat>)
    ensures Ravel(s, seq(|s|, _ => 0)) == 0
    decreases |s|
  {
    if s != [] {
      RavelZeros(s[..|s| - 1]);
      assert seq(|s|, _ => 0)[..|s| - 1] == seq(|s| - 1, _ => 0);
    }
  }

  lemma {:induction false} ProdOfOnes(s: seq<nat>)
    ensures Prod(s) == 1 <==> forall d :: 0 <= d < |s| ==> s[d] == 1
    decreases |s|
  {
    if s != [] {
      var front, last := s[..|s| - 1], s[|s| - 1];
      ProdOfOnes(front);
      OneOnlyOfOnes(Prod(front), last);
      if Prod(s) == 1 {
        forall d | 0 <= d < |s| ensures s[d] == 1 {
          assert d < |s| - 1 ==> front[d] == s[d];
        }
      }
    }
  }

  lemma OneOnlyOfOnes(x: nat, y: nat)
    ensures x * y == 1 <==> x == 1 && y == 1
  {
    if x > 1 && y > 0 {
      assert x * y >= x;
    }
  }

  lemma CancelRight(x: nat, y: nat, z: nat)
    ensures x * z == y * z <==> z == 0 || x == y
  {
    if z > 0 && x < y {
      assert (y - x) * z > 0;
    } else if z > 0 && y < x {
      assert (x - y) * z > 0;
    }
  }

  /** A row-major view that keeps the last size moves the other indices as one. */
  lemma ReshapedAt(t: Tensor, s: seq<nat>, s': seq<nat>, r: nat, x: seq<nat>, k: nat)
    requires t.shape == s + [r] && |x| == |s'| && k < r && ReshapeTensor(t, s' + [r]).Some?
    ensures ReshapeTensor(t, s' + [r]).value.at(x + [k]) == t.at(Unravel(s, Ravel(s', x)) + [k])
  {
    ReshapedPlace(s, s', r, x, k);
    assert |x + [k]| == |s' + [r]|;
  }

  lemma ReshapedPlace(s: seq<nat>, s': seq<nat>, r: nat, x: seq<nat>, k: nat)
    requires |x| == |s'| && k < r
    ensures Unravel(s + [r], Ravel(s' + [r], x + [k])) == Unravel(s, Ravel(s', x)) + [k]
  {
    RavelLast(s', x, r, k);
    UnravelLast(s, r, Ravel(s', x), k);
    assert Ravel(s' + [r], x + [k]) == Ravel(s', x) * r + k;
  }

  /** `A` only gains or loses leading sizes of 1. */
  lemma ReshapedA(a: Tensor, s: seq<nat>, m: nat, rank: nat, row: nat, k: nat, j: nat)
    requires a.shape == s + [rank, row] && (forall d :: 0 <= d < |s| ==> s[d] == 1) && k < rank && j < row
    requires ReshapeTensor(a, seq(m, _ => 1) + [rank, row]).Some?
    ensures ReshapeTensor(a, seq(m, _ => 1) + [rank, row]).value.at(seq(m, _ => 0) + [k, j])
         == a.at(seq(|s|, _ => 0) + [k, j])
  {
    var ones, zeros := seq(m, _ => 1), seq(m, _ => 0);
    assert ones + [rank, row] == (ones + [rank]) + [row] && s + [rank, row] == (s + [rank]) + [row];
    assert zeros + [k, j] == (zeros + [k]) + [j];
    ReshapedAt(a, s + [rank], ones + [rank], row, zeros + [k], j);
    RavelLast(ones, zeros, rank, k);
    RavelZeros(ones);
    UnravelLast(s, rank, 0, k);
    UnravelOnes(s);
    assert (seq(|s|, _ => 0) + [k]) + [j] == seq(|s|, _ => 0) + [k, j];
  }

  lemma ReshapeTerm(w: Lora, v: Lora, shape: seq<nat>, x: seq<nat>, j: nat, k: nat)
    requires w.Valid() && |shape| >= 2 && |x| == |shape| - 1 && k < w.Rank() && j < shape[|shape| - 1]
    requires shape[|shape| - 1] == w.A.shape[w.Dims() - 1] && SharedLead(w)
    requires ReshapeTensor(w.A, seq(|shape| - 2, _ => 1) + [w.Rank(), shape[|shape| - 1]]) == Some(v.A)
    requires ReshapeTensor(w.B, shape[..|shape| - 1] + [w.Rank()]) == Some(v.B)
    ensures v.Valid()
    ensures Term(v, x + [j], k) == Term(w, Unravel(w.B.shape[..w.Dims() - 1], Ravel(shape[..|shape| - 1], x)) + [j], k)
  {
    var m, n := |shape|, w.Dims();
    var sb := w.B.shape[..n - 1];
    var y := Unravel(sb, Ravel(shape[..m - 1], x));
    assert w.B.shape == sb + [w.Rank()];
    ReshapedAt(w.B, sb, shape[..m - 1], w.Rank(), x, k);
    var sa := w.A.shape[..n - 2];
    assert w.A.shape == sa + [w.Rank(), shape[m - 1]];
    ReshapedA(w.A, sa, m - 2, w.Rank(), shape[m - 1], k, j);
    TermLast(v, x, j, k);
    TermLast(w, y, j, k);
    ClipToZeros(v.A.shape, x[..|x| - 1]);
    ClipToZeros(w.A.shape, y[..|y| - 1]);
  }

  lemma ClipToZeros(shape: seq<nat>, x: seq<nat>)
    requires |x| <= |shape| && forall d :: 0 <= d < |x| ==> shape[d] == 1
    ensures Clip(shape, x) == seq(|x|, _ => 0)
  {
  }

  lemma ReshapeTerms(w: Lora, v: Lora, shape: seq<nat>, x: seq<nat>, j: nat, src: seq<nat>)
    requires w.Valid() && |shape| >= 2 && |x| == |shape| - 1 && j < shape[|shape| - 1]
    requires shape[|shape| - 1] == w.A.shape[w.Dims() - 1] && SharedLead(w)
    requires ReshapeTensor(w.A, seq(|shape| - 2, _ => 1) + [w.Rank(), shape[|shape| - 1]]) == Some(v.A)
    requires ReshapeTensor(w.B, shape[..|shape| - 1] + [w.Rank()]) == Some(v.B)
    requires src == Unravel(w.B.shape[..w.Dims() - 1], Ravel(shape[..|shape| - 1], x)) + [j]
    ensures v.Valid() && v.Dims() == |shape| && v.Rank() == w.Rank()
    ensures forall k :: 0 <= k < w.Rank() ==> Term(v, x + [j], k) == Term(w, src, k)
  {
    forall k | 0 <= k < w.Rank() ensures v.Valid() && Term(v, x + [j], k) == Term(w, src, k) {
      ReshapeTerm(w, v, shape, x, j, k);
    }
  }

  lemma ReshapeEntry(w: Lora, v: Lora, shape: seq<nat>, idx: seq<nat>)
    requires w.Valid() && |shape| >= 2 && SharedLead(w) && InShape(idx, shape)
    requires shape[|shape| - 1] == w.A.shape[w.Dims() - 1]
    requires ReshapeTensor(w.A, seq(|shape| - 2, _ => 1) + [w.Rank(), shape[|shape| - 1]]) == Some(v.A)
    requires ReshapeTensor(w.B, shape[..|shape| - 1] + [w.Rank()]) == Some(v.B)
    requires ReshapeTensor(Dense(w), shape).Some?
    ensures v.Valid() && v.Dims() == |idx| && v.Rank() == w.Rank()
    ensures Dense(v).at(idx) == ReshapeTensor(Dense(w), shape).value.at(idx)
  {
    var m := |shape|;
    var x, j, sb := idx[..m - 1], idx[m - 1], w.B.shape[..w.Dims() - 1];
    assert idx == x + [j] && shape == shape[..m - 1] + [shape[m - 1]];
    ReshapedAt(Dense(w), sb, shape[..m - 1], shape[m - 1], x, j);
    var src := Unravel(sb, Ravel(shape[..m - 1], x)) + [j];
    ReshapeTerms(w, v, shape, x, j, src);
    SumsEqual(v, idx, w, src, w.Rank());
  }

  /** The sizes of `A` that come before the rank multiply to 1 when there is an entry. */
  lemma ReshapedShares(w: Lora, m: nat, row: nat)
    requires w.Valid() && w.Rank() > 0 && row > 0 && row == w.A.shape[w.Dims() - 1]
    requires ReshapeTensor(w.A, seq(m, _ => 1) + [w.Rank(), row]).Some?
    ensures SharedLead(w)
  {
    FirstFactorReshapes(w, m);
    assert w.Rank() * row > 0;
  }

  /** The product can be reshaped when its factors can. */
  lemma DenseReshapes(w: Lora, shape: seq<nat>)
    requires w.Valid() && w.Rank() > 0 && shape != [] && shape[|shape| - 1] == w.A.shape[w.Dims() - 1]
    requires ReshapeTensor(w.B, shape[..|shape| - 1] + [w.Rank()]).Some?
    ensures ReshapeTensor(Dense(w), shape).Some?
  {
    var sb, s', row := w.B.shape[..w.Dims() - 1], shape[..|shape| - 1], shape[|shape| - 1];
    assert w.B.shape == sb + [w.Rank()] && shape == s' + [row];
    ProdLast(sb, w.Rank());
    ProdLast(s', w.Rank());
    CancelRight(Prod(sb), Prod(s'), w.Rank());
    ProdLast(sb, row);
    ProdLast(s', row);
  }

  lemma RankedReshapes(w: Lora, v: Lora, shape: seq<nat>)
    requires w.Valid() && w.Rank() > 0 && |shape| >= 2 && shape[|shape| - 1] == w.A.shape[w.Dims() - 1]
    requires ReshapeTensor(w.A, seq(|shape| - 2, _ => 1) + [w.Rank(), shape[|shape| - 1]]) == Some(v.A)
    requires ReshapeTensor(w.B, shape[..|shape| - 1] + [w.Rank()]) == Some(v.B)
    requires v.Valid() && v.Shape() == shape
    ensures ReshapeTensor(Dense(w), shape).Some? && Same(Dense(v), ReshapeTensor(Dense(w), shape).value)
  {
    var m := |shape|;
    DenseReshapes(w, shape);
    forall idx | InShape(idx, shape) ensures Dense(v).at(idx) == ReshapeTensor(Dense(w), shape).value.at(idx) {
      ReshapedShares(w, m - 2, shape[m - 1]);
      ReshapeEntry(w, v, shape, idx);
    }
  }

  lemma RanklessReshapes(w: Lora, v: Lora, shape: seq<nat>)
    requires w.Valid() && w.Rank() == 0 && v.Valid() && v.Rank() == 0 && v.Shape() == shape
    requires ReshapeTensor(Dense(w), shape).Some?
    ensures Same(Dense(v), ReshapeTensor(Dense(w), shape).value)
  {
    forall idx | InShape(idx, shape) ensures Dense(v).at(idx) == ReshapeTensor(Dense(w), shape).value.at(idx) {
      assert SumTerms(v, idx, 0) == 0.0;
      assert SumTerms(w, Unravel(w.Shape(), Ravel(shape, idx)), 0) == 0.0;
    }
  }

  /** What makes `v` the reshaped `w`. */
  ghost predicate PartsReshaped(w: Lora, v: Lora, shape: seq<nat>)
    requires w.Valid()
  {
    && |shape| >= 2 && shape[|shape| - 1] == w.A.shape[w.Dims() - 1]
    && ReshapeTensor(w.A, seq(|shape| - 2, _ => 1) + [w.Rank(), shape[|shape| - 1]]) == Some(v.A)
    && ReshapeTensor(w.B, shape[..|shape| - 1] + [w.Rank()]) == Some(v.B)
    && v.Compatible() && v.Rank() == w.Rank() && v.Shape() == shape
  }

  lemma ReshapedTo(w: Lora, v: Lora, shape: seq<nat>)
    requires w.Valid() && PartsReshaped(w, v, shape)
    ensures (ReshapeTensor(Dense(w), shape).Some? && Same(Dense(v), ReshapeTensor(Dense(w), shape).value))
            <==> (w.Rank() > 0 || Prod(shape) == Prod(w.Shape()))
  {
    if w.Rank() > 0 {
      RankedReshapes(w, v, shape);
    } else if Prod(shape) == Prod(w.Shape()) {
      RanklessReshapes(w, v, shape);
    }
  }

  lemma ReshapedParts(w: Lora, dims: seq<int>)
    requires w.Valid() && Reshape(w, dims).Some?
    ensures var v, shape := Reshape(w, dims).value, FilledShape(dims, Prod(w.Shape())).value;
            PartsReshaped(w, v, shape)
  {
    var v, shape := Reshape(w, dims).value, FilledShape(dims, Prod(w.Shape())).value;
    assert v.B.shape[..|shape| - 1] == shape[..|shape| - 1];
  }

  /** `reshape` agrees with the product, a -1 filled in alike, exactly when there is a rank
      or the number of entries stays: without a rank, no factor shows how many rows there
      are. */
  lemma ReshapeDense(w: Lora, dims: seq<int>)
    requires w.Compatible() && Reshape(w, dims).Some?
    ensures var v, shape := Reshape(w, dims).value, FilledShape(dims, Prod(w.Shape())).value;
            && v.Compatible()
            && ((ReshapeTensor(Dense(w), shape).Some? && Same(Dense(v), ReshapeTensor(Dense(w), shape).value))
                <==> (w.Rank() > 0 || Prod(shape) == Prod(w.Shape())))
  {
    ReshapedParts(w, dims);
    ReshapedTo(w, Reshape(w, dims).value, FilledShape(dims, Prod(w.Shape())).value);
  }

  // ----- What is refused -----

  lemma ProdLastTwo(s: seq<nat>, x: nat, y: nat)
    ensures Prod(s + [x, y]) == Prod(s) * (x * y)
  {
    assert s + [x, y] == (s + [x]) + [y];
    ProdLast(s + [x], y);
    ProdLast(s, x);
    assert (Prod(s) * x) * y == Prod(s) * (x * y);
  }

  /** Which shapes the first factor takes: a shared one, or one without entries. */
  lemma FirstFactorReshapes(w: Lora, m: nat)
    requires w.Valid()
    ensures var rank, columns := w.Rank(), w.A.shape[w.Dims() - 1];
            ReshapeTensor(w.A, seq(m, _ => 1) + [rank, columns]).Some? <==> rank * columns == 0 || SharedLead(w)
  {
    var n, rank, columns := w.Dims(), w.Rank(), w.A.shape[w.Dims() - 1];
    var ones, lead := seq(m, _ => 1), w.A.shape[..n - 2];
    assert w.A.shape == lead + [rank, columns];
    ProdLastTwo(ones, rank, columns);
    ProdLastTwo(lead, rank, columns);
    ProdOfOnes(ones);
    ProdOfOnes(lead);
    CancelRight(1, Prod(lead), rank * columns);
    assert SharedLead(w) <==> forall d :: 0 <= d < |lead| ==> lead[d] == 1;
  }

  lemma SecondFactorReshapes(w: Lora, rows: seq<nat>)
    requires w.Valid()
    ensures ReshapeTensor(w.B, rows + [w.Rank()]).Some?
       <==> w.Rank() == 0 || Prod(rows) == Prod(w.B.shape[..w.Dims() - 1])
  {
    var front := w.B.shape[..w.Dims() - 1];
    assert w.B.shape == front + [w.Rank()];
    ProdLast(rows, w.Rank());
    ProdLast(front, w.Rank());
    CancelRight(Prod(rows), Prod(front), w.Rank());
  }

  /** Of the shapes the product takes, those are accepted that keep the columns, unless `A` is
      not shared and has entries, or there are no columns to show that the rows are as many. */
  lemma ReshapeAccepts(w: Lora, dims: seq<int>, shape: seq<nat>)
    requires w.Valid() && FilledShape(dims, Prod(w.Shape())) == Some(shape) && Prod(shape) == Prod(w.Shape())
    ensures var n, m := w.Dims(), |shape|;
            var columns := w.A.shape[n - 1];
            Reshape(w, dims).Some?
            <==> m >= 2 && shape[m - 1] == columns
                 && (w.Rank() * columns == 0 || SharedLead(w))
                 && (w.Rank() == 0 || columns > 0 || Prod(shape[..m - 1]) == Prod(w.B.shape[..n - 1]))
  {
    var n, m := w.Dims(), |shape|;
    if m >= 2 && shape[m - 1] == w.A.shape[n - 1] {
      FirstFactorReshapes(w, m - 2);
      SecondFactorReshapes(w, shape[..m - 1]);
      assert shape == shape[..m - 1] + [shape[m - 1]];
      ProdLast(shape[..m - 1], shape[m - 1]);
      ProdLast(w.B.shape[..n - 1], shape[m - 1]);
      CancelRight(Prod(shape[..m - 1]), Prod(w.B.shape[..n - 1]), shape[m - 1]);
    }
  }

  /** Of the permutations the product takes, two dimensions may be permuted in any way, more
      only if the columns stay last and `A` is shared. */
  lemma PermuteAccepts(w: Lora, dims: seq<int>, ds: seq<nat>)
    requires w.Valid() && FromFront(FromEnd(dims, w.Dims()), w.Dims()) == Some(ds)
    ensures Permute(w, dims).Some? <==> w.Dims() == 2 || (ds[w.Dims() - 1] == w.Dims() - 1 && SharedLead(w))
  {
    var n, ends := w.Dims(), FromEnd(dims, w.Dims());
    assert ds[n - 1] == ends[n - 1] + n;
    if n == 2 {
      assert ds[0] == ends[0] + n && ds[0] < 2 && ds[1] < 2 && ds[0] != ds[1];
    }
  }

  /** Dimensions may change places if there are two of them, or if neither is the columns, or
      both are, and `A` is shared. */
  lemma TransposeAccepts(w: Lora, dim0: int, dim1: int)
    requires w.Valid() && -(w.Dims() as int) <= dim0 < w.Dims() && -(w.Dims() as int) <= dim1 < w.Dims()
    ensures var n := w.Dims();
            var d0, d1 := if dim0 < 0 then dim0 + n else dim0, if dim1 < 0 then dim1 + n else dim1;
            Transpose(w, dim0, dim1).Some?
            <==> n == 2 || (SharedLead(w) && (d0 == d1 || (d0 != n - 1 && d1 != n - 1)))
  {
    var n := w.Dims();
    var d0, d1 := if dim0 < 0 then dim0 + n else dim0, if dim1 < 0 then dim1 + n else dim1;
    SwapIsPermutation(n, d0, d1);
    SwappedDims(n, d0, d1);
    PermuteAccepts(w, SwappedList(n, d0, d1), SwapDims(n, d0, d1));
  }

  /** A tensor of rank 0 with one row reshapes to two rows; its product does not. */
  lemma RankZeroReshapes(w: Lora)
    requires w.A.shape == [0, 1] && w.B.shape == [1, 0]
    ensures w.Compatible() && Reshape(w, [2, 1]).Some? && ReshapeTensor(Dense(w), [2, 1]).None?
  {
    ProdTwo(1, 1);
    ProdTwo(2, 1);
    assert w.Shape() == [1, 1];
    FilledTwoOne();
    RankZeroFactors(w);
    assert seq(0, _ => 1) + [0, 1] == [0, 1] && [2, 1][..1] + [0] == [2, 0];
  }

  lemma RankZeroFactors(w: Lora)
    requires w.A.shape == [0, 1] && w.B.shape == [1, 0]
    ensures ReshapeTensor(w.A, [0, 1]).Some? && ReshapeTensor(w.B, [2, 0]).Some?
  {
    ProdTwo(0, 1);
    ProdTwo(1, 0);
    ProdTwo(2, 0);
  }

  lemma FilledTwoOne()
    ensures FilledShape([2, 1], 1) == Some([2, 1])
  {
    var filled := FilledShape([2, 1], 1);
    assert filled.Some? && filled.value == [2, 1];
  }

  lemma ProdTwo(x: nat, y: nat)
    ensures Prod([x, y]) == x * y
  {
    assert [x, y][..1] == [x] && [x][..0] == [];
    assert Prod([x]) == Prod([]) * x;
  }
}
