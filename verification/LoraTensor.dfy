/**
 Low-rank tensors: a weight W = B @ A kept as its two factors. Every view of the factored
 form must show what the same view of the dense product shows.

 A tensor is its shape and its entries; entries are real numbers, so rounding is not
 modelled. Errors the original raises are `None`.
 */
module LoraTensor {
  import opened Text

  datatype Tensor = Tensor(shape: seq<nat>, at: seq<nat> -> real)

  predicate InShape(idx: seq<nat>, shape: seq<nat>) {
    |idx| == |shape| && forall d :: 0 <= d < |shape| ==> idx[d] < shape[d]
  }

  /** The same shape and the same entries. */
  ghost predicate Same(t: Tensor, u: Tensor) {
    t.shape == u.shape && forall idx | InShape(idx, t.shape) :: t.at(idx) == u.at(idx)
  }

  // ----- The factored form and its dense meaning -----

  /** `A` is (..., rank, columns), `B` is (..., rows, rank). */
  datatype Lora = Lora(A: Tensor, B: Tensor)
  {
    /** What the constructor asserts. */
    predicate Valid() {
      |A.shape| == |B.shape| >= 2 && A.shape[|A.shape| - 2] == B.shape[|B.shape| - 1]
    }

    function Dims(): nat {
      |B.shape|
    }

    function Rank(): nat
      requires Valid()
    {
      B.shape[|B.shape| - 1]
    }

    function Shape(): seq<nat>
      requires Valid()
    {
      B.shape[..Dims() - 1] + [A.shape[Dims() - 1]]
    }

    /** Each leading size of `A` is 1 or that of `B`, so that the product is defined. */
    predicate Compatible() {
      Valid() && forall d :: 0 <= d < Dims() - 2 ==> A.shape[d] == 1 || A.shape[d] == B.shape[d]
    }
  }

  /** Leading indices of `B` as leading indices of `A`: a size of 1 is shared. */
  function Clip(shape: seq<nat>, lead: seq<nat>): (r: seq<nat>)
    ensures |r| == |lead|
  {
    seq(|lead|, d requires 0 <= d < |lead| => if d < |shape| && shape[d] == 1 then 0 else lead[d])
  }

  /** One summand of an entry of the product. */
  function Term(w: Lora, idx: seq<nat>, k: nat): real
    requires w.Valid() && |idx| == w.Dims()
  {
    var n := |idx|;
    w.B.at(idx[..n - 1] + [k]) * w.A.at(Clip(w.A.shape, idx[..n - 2]) + [k, idx[n - 1]])
  }

  function SumTerms(w: Lora, idx: seq<nat>, r: nat): real
    requires w.Valid() && |idx| == w.Dims()
  {
    if r == 0 then 0.0 else SumTerms(w, idx, r - 1) + Term(w, idx, r - 1)
  }

  /** B @ A. */
  function Dense(w: Lora): Tensor
    requires w.Valid()
  {
    Tensor(w.Shape(), idx => if |idx| == w.Dims() then SumTerms(w, idx, w.Rank()) else 0.0)
  }

  /** Entries whose summands agree up to a factor agree up to that factor. */
  lemma {:induction false} SumsMatch(v: Lora, i: seq<nat>, w: Lora, j: seq<nat>, c: real, r: nat)
    requires v.Valid() && w.Valid() && |i| == v.Dims() && |j| == w.Dims()
    requires forall k :: 0 <= k < r ==> Term(v, i, k) == c * Term(w, j, k)
    ensures SumTerms(v, i, r) == c * SumTerms(w, j, r)
  {
    if r > 0 {
      SumsMatch(v, i, w, j, c, r - 1);
      Distribute(c, SumTerms(w, j, r - 1), Term(w, j, r - 1));
    }
  }

  lemma Distribute(c: real, x: real, y: real)
    ensures c * x + c * y == c * (x + y)
  {
  }

  lemma SumsEqual(v: Lora, i: seq<nat>, w: Lora, j: seq<nat>, r: nat)
    requires v.Valid() && w.Valid() && |i| == v.Dims() && |j| == w.Dims()
    requires forall k :: 0 <= k < r ==> Term(v, i, k) == Term(w, j, k)
    ensures SumTerms(v, i, r) == SumTerms(w, j, r)
  {
    forall k | 0 <= k < r ensures Term(v, i, k) == 1.0 * Term(w, j, k) {}
    SumsMatch(v, i, w, j, 1.0, r);
  }

  // ----- Scaling -----

  function Scaled(t: Tensor, c: real): Tensor {
    Tensor(t.shape, idx => c * t.at(idx))
  }

  /** `__mul__` by a number. */
  function MulScalar(w: Lora, c: real): Lora {
    Lora(w.A, Scaled(w.B, c))
  }

  lemma MulScalarDense(w: Lora, c: real)
    requires w.Valid()
    ensures MulScalar(w, c).Valid() && Same(Dense(MulScalar(w, c)), Scaled(Dense(w), c))
  {
    var v := MulScalar(w, c);
    forall idx | InShape(idx, w.Shape()) ensures Dense(v).at(idx) == Scaled(Dense(w), c).at(idx) {
      forall k | 0 <= k < w.Rank() ensures Term(v, idx, k) == c * Term(w, idx, k) {
        MulAssociative(c, w.B.at(idx[..|idx| - 1] + [k]),
            w.A.at(Clip(w.A.shape, idx[..|idx| - 2]) + [k, idx[|idx| - 1]]));
      }
      SumsMatch(v, idx, w, idx, c, w.Rank());
    }
  }

  lemma MulAssociative(c: real, x: real, y: real)
    ensures (c * x) * y == c * (x * y)
  {
  }

  /** The size of the multiplier `m` along dimension `d` of `n`; absent ones are 1. */
  function SizeAt(m: Tensor, n: nat, d: nat): nat
    requires |m.shape| <= n && d < n
  {
    if d < n - |m.shape| then 1 else m.shape[d - (n - |m.shape|)]
  }

  /** `m` at the last dimensions of an index; a size of 1 is stretched. */
  function Stretched(m: Tensor, idx: seq<nat>): real {
    if |m.shape| <= |idx| then m.at(Clip(m.shape, idx[|idx| - |m.shape|..])) else 0.0
  }

  /** Elementwise product with broadcasting, for a multiplier of no more dimensions. */
  function Times(t: Tensor, m: Tensor): Option<Tensor> {
    var n := |t.shape|;
    if |m.shape| > n
       || exists d :: 0 <= d < n && SizeAt(m, n, d) != 1 && t.shape[d] != 1 && SizeAt(m, n, d) != t.shape[d]
    then None
    else
      Some(Tensor(seq(n, d requires 0 <= d < n => if SizeAt(m, n, d) == 1 then t.shape[d] else SizeAt(m, n, d)),
                  idx => Stretched(m, idx) * t.at(Clip(t.shape, idx))))
  }

  /** `__mul__` by a tensor; only a multiplier with a last size of 1 is supported, and the
      constructor refuses a `B` with more dimensions than `A`. */
  function Mul(w: Lora, m: Tensor): Option<Lora> {
    if m.shape != [] && m.shape[|m.shape| - 1] != 1 then None
    else
      match Times(w.B, m)
      case None => None
      case Some(b) => Some(Lora(w.A, b))
  }

  /** A multiplier without dimensions is a number, one of the same shape multiplies entry by
      entry. */
  lemma TimesAt(t: Tensor, m: Tensor)
    ensures m.shape == [] ==> Times(t, m).Some? && Same(Times(t, m).value, Scaled(t, m.at([])))
    ensures m.shape == t.shape ==>
              Times(t, m).Some? && Times(t, m).value.shape == t.shape &&
              forall idx | InShape(idx, t.shape) :: Times(t, m).value.at(idx) == m.at(idx) * t.at(idx)
  {
    forall idx | InShape(idx, t.shape) ensures Clip(t.shape, idx) == idx {
    }
    if m.shape == [] {
      forall idx | InShape(idx, t.shape) ensures Stretched(m, idx) == m.at([]) {
        assert Clip([], idx[|idx|..]) == [];
      }
    } else if m.shape == t.shape {
      forall idx | InShape(idx, t.shape) ensures Stretched(m, idx) == m.at(idx) {
        assert idx[0..] == idx;
      }
    }
  }

  /** Accepted if and only if the multiplier has a last size of 1, no more dimensions, and
      counted from the last one sizes that are equal or 1. */
  lemma MulAccepts(w: Lora, m: Tensor)
    requires w.Valid()
    ensures Mul(w, m).Some?
       <==> (m.shape != [] ==> m.shape[|m.shape| - 1] == 1) && Broadcasts(m.shape, w.B.shape)
  {
    TimesAccepts(w.B, m);
  }

  predicate SizesFit(p: nat, q: nat) {
    p == 1 || q == 1 || p == q
  }

  /** The sizes `s` fit the last ones of `t`, one by one. */
  ghost predicate Broadcasts(s: seq<nat>, t: seq<nat>) {
    |s| <= |t| && forall i :: 0 <= i < |s| ==> SizesFit(s[i], t[|t| - |s| + i])
  }

  lemma TimesAccepts(t: Tensor, m: Tensor)
    ensures Times(t, m).Some? <==> Broadcasts(m.shape, t.shape)
  {
    if |m.shape| <= |t.shape| {
      SizesAccepted(t, m);
    }
  }

  lemma SizesAccepted(t: Tensor, m: Tensor)
    requires |m.shape| <= |t.shape|
    ensures Times(t, m).Some? <==> Broadcasts(m.shape, t.shape)
  {
    var n, skip := |t.shape|, |t.shape| - |m.shape|;
    if Broadcasts(m.shape, t.shape) {
      forall d | 0 <= d < n ensures SizesFit(SizeAt(m, n, d), t.shape[d]) {
        assert d >= skip ==> SizesFit(m.shape[d - skip], t.shape[skip + (d - skip)]);
      }
    } else {
      var i :| 0 <= i < |m.shape| && !SizesFit(m.shape[i], t.shape[skip + i]);
      assert !SizesFit(SizeAt(m, n, skip + i), t.shape[skip + i]);
    }
  }

  lemma LastSizeIsOne(m: Tensor, n: nat)
    requires |m.shape| <= n && n > 0 && (m.shape != [] ==> m.shape[|m.shape| - 1] == 1)
    ensures SizeAt(m, n, n - 1) == 1
  {
  }

  /** What the multiplication does to the shapes. */
  lemma MulShapes(w: Lora, m: Tensor)
    requires w.Compatible() && Mul(w, m).Some?
    ensures |m.shape| <= w.Dims()
    ensures var v, t := Mul(w, m).value, Times(Dense(w), m);
            v.Compatible() && v.Rank() == w.Rank() && t.Some? && t.value.shape == v.Shape()
  {
    var n := w.Dims();
    LastSizeIsOne(m, n);
    assert forall d :: 0 <= d < n - 1 ==> w.Shape()[d] == w.B.shape[d];
  }

  /** Where the entries of a row of `B` and of the product are found. */
  lemma StretchedSource(w: Lora, idx: seq<nat>, k: nat)
    requires w.Compatible() && |idx| == w.Dims() && k < w.Rank()
    requires w.A.shape[w.Dims() - 1] == 1 ==> idx[w.Dims() - 1] == 0
    ensures var n, y := w.Dims(), Clip(w.Shape(), idx);
            && Clip(w.B.shape, idx[..n - 1] + [k]) == y[..n - 1] + [k]
            && Clip(w.A.shape, idx[..n - 2]) == Clip(w.A.shape, y[..n - 2])
            && y[n - 1] == idx[n - 1]
  {
    var n, y := w.Dims(), Clip(w.Shape(), idx);
    assert forall d :: 0 <= d < n - 2 ==> w.Shape()[d] == w.B.shape[d];
  }

  lemma MulTerm(w: Lora, v: Lora, m: Tensor, idx: seq<nat>, k: nat)
    requires w.Compatible() && |m.shape| <= w.Dims() == |idx|
    requires Mul(w, m) == Some(v) && v.Valid() && v.Dims() == w.Dims()
    requires k < w.Rank() && (w.A.shape[w.Dims() - 1] == 1 ==> idx[w.Dims() - 1] == 0)
    ensures Term(v, idx, k) == Stretched(m, idx) * Term(w, Clip(w.Shape(), idx), k)
  {
    var n, y := w.Dims(), Clip(w.Shape(), idx);
    StretchedSource(w, idx, k);
    LastIndexIgnored(m, idx[..n - 1], k, idx[n - 1]);
    assert idx == idx[..n - 1] + [idx[n - 1]];
    MulAssociative(Stretched(m, idx), w.B.at(y[..n - 1] + [k]), w.A.at(Clip(w.A.shape, y[..n - 2]) + [k, y[n - 1]]));
  }

  lemma MulTerms(w: Lora, v: Lora, m: Tensor, idx: seq<nat>, y: seq<nat>, c: real)
    requires w.Compatible() && |m.shape| <= w.Dims() == |idx|
    requires Mul(w, m) == Some(v) && v.Valid() && v.Dims() == w.Dims()
    requires w.A.shape[w.Dims() - 1] == 1 ==> idx[w.Dims() - 1] == 0
    requires y == Clip(w.Shape(), idx) && c == Stretched(m, idx)
    ensures forall k :: 0 <= k < w.Rank() ==> Term(v, idx, k) == c * Term(w, y, k)
  {
    forall k | 0 <= k < w.Rank() ensures Term(v, idx, k) == c * Term(w, y, k) {
      MulTerm(w, v, m, idx, k);
    }
  }

  /** Scaling the rows of `B`, broadcasting included, scales the rows of the product. */
  lemma MulDense(w: Lora, m: Tensor)
    requires w.Compatible() && Mul(w, m).Some?
    ensures var v, whole := Mul(w, m).value, Times(Dense(w), m);
            v.Compatible() && whole.Some? && Same(Dense(v), whole.value)
  {
    var v := Mul(w, m).value;
    MulShapes(w, m);
    forall idx | InShape(idx, v.Shape()) ensures Dense(v).at(idx) == Times(Dense(w), m).value.at(idx) {
      MulEntry(w, v, m, idx);
    }
  }

  lemma MulEntry(w: Lora, v: Lora, m: Tensor, idx: seq<nat>)
    requires w.Compatible() && |m.shape| <= w.Dims() == |idx|
    requires Mul(w, m) == Some(v) && v.Valid() && v.Dims() == w.Dims()
    requires v.Rank() == w.Rank() && (w.A.shape[w.Dims() - 1] == 1 ==> idx[w.Dims() - 1] == 0)
    requires Times(Dense(w), m).Some?
    ensures Dense(v).at(idx) == Times(Dense(w), m).value.at(idx)
  {
    var y, c := Clip(w.Shape(), idx), Stretched(m, idx);
    MulTerms(w, v, m, idx, y, c);
    SumsMatch(v, idx, w, y, c, w.Rank());
    ProductAt(w, m, idx, y, c);
  }

  lemma ProductAt(w: Lora, m: Tensor, idx: seq<nat>, y: seq<nat>, c: real)
    requires w.Valid() && |idx| == w.Dims() && Times(Dense(w), m).Some?
    requires y == Clip(w.Shape(), idx) && c == Stretched(m, idx)
    ensures Times(Dense(w), m).value.at(idx) == c * SumTerms(w, y, w.Rank())
  {
  }

  lemma LastIndexIgnored(m: Tensor, x: seq<nat>, k: nat, j: nat)
    requires |m.shape| <= |x| + 1 && (m.shape != [] ==> m.shape[|m.shape| - 1] == 1)
    ensures Stretched(m, x + [k]) == Stretched(m, x + [j])
  {
    var s := |x| + 1 - |m.shape|;
    assert Clip(m.shape, (x + [k])[s..]) == Clip(m.shape, (x + [j])[s..]);
  }

  // ----- Selecting -----

  /** A normalised index along one dimension. */
  datatype Sel = Pick(i: nat) | Range(start: nat, len: nat, step: nat)

  function SelShape(sels: seq<Sel>): seq<nat> {
    if sels == [] then []
    else (if sels[0].Pick? then [] else [sels[0].len]) + SelShape(sels[1..])
  }

  /** Where the entry of a selection comes from. */
  function Back(sels: seq<Sel>, idx: seq<nat>): (r: seq<nat>)
    ensures |r| == |sels|
  {
    if sels == [] then []
    else if sels[0].Pick? then [sels[0].i] + Back(sels[1..], idx)
    else if idx == [] then [0] + Back(sels[1..], [])
    else [sels[0].start + sels[0].step * idx[0]] + Back(sels[1..], idx[1..])
  }

  function Select(t: Tensor, sels: seq<Sel>): Tensor {
    Tensor(SelShape(sels), idx => t.at(Back(sels, idx)))
  }

  function Whole(n: nat): Sel {
    Range(0, n, 1)
  }

  lemma BackCons(sels: seq<Sel>, x: nat, rest: seq<nat>)
    requires sels != [] && sels[0].Range?
    ensures Back(sels, [x] + rest) == [sels[0].start + sels[0].step * x] + Back(sels[1..], rest)
  {
    assert ([x] + rest)[1..] == rest;
  }

  lemma BackPick(sels: seq<Sel>, idx: seq<nat>)
    requires sels != [] && sels[0].Pick?
    ensures Back(sels, idx) == [sels[0].i] + Back(sels[1..], idx)
  {
  }

  lemma {:induction false} BackAppend(a: seq<Sel>, b: seq<Sel>, x: seq<nat>, y: seq<nat>)
    requires |x| == |SelShape(a)|
    ensures Back(a + b, x + y) == Back(a, x) + Back(b, y)
    decreases |a|
  {
    if a == [] {
      assert a + b == b && x + y == y;
    } else {
      assert (a + b)[0] == a[0] && (a + b)[1..] == a[1..] + b;
      if a[0].Pick? {
        BackAppend(a[1..], b, x, y);
        BackPick(a + b, x + y);
        Associative([a[0].i], Back(a[1..], x), Back(b, y));
      } else {
        var first := a[0].start + a[0].step * x[0];
        BackAppend(a[1..], b, x[1..], y);
        assert x == [x[0]] + x[1..] && x + y == [x[0]] + (x[1..] + y);
        BackCons(a + b, x[0], x[1..] + y);
        Associative([first], Back(a[1..], x[1..]), Back(b, y));
      }
    }
  }

  lemma {:induction false} SelShapeAppend(a: seq<Sel>, b: seq<Sel>)
    ensures SelShape(a + b) == SelShape(a) + SelShape(b)
    decreases |a|
  {
    if a == [] {
      assert a + b == b;
    } else {
      assert (a + b)[0] == a[0] && (a + b)[1..] == a[1..] + b;
      SelShapeAppend(a[1..], b);
    }
  }

  /** One leading dimension: what is taken of `A` matches what is taken of `B`. */
  predicate LeadMatches(sizeA: nat, sizeB: nat, a: Sel, b: Sel) {
    if b.Pick? then a.Pick? && b.i < sizeB && a.i == (if sizeA == 1 then 0 else b.i)
    else
      && a.Range? && InRange(b, sizeB)
      && (|| (sizeA == 1 && a.start == 0 && a.len == 1)
          || (sizeA == sizeB && (a == b || (a == Whole(sizeA) && b.len == sizeB))))
  }

  /** A selection stays within a dimension of size `n`. */
  predicate InRange(s: Sel, n: nat) {
    if s.Pick? then s.i < n else s.step >= 1 && (s.len > 0 ==> s.start + s.step * (s.len - 1) < n)
  }

  lemma WholeLength(s: Sel, n: nat)
    requires s.Range? && InRange(s, n) && s.len == n
    ensures n >= 2 ==> s == Whole(n)
  {
    if n >= 2 && s.step >= 2 {
      AtLeastDouble(s.step, n - 1);
    }
  }

  lemma AtLeastDouble(x: nat, m: nat)
    requires x >= 2
    ensures x * m >= 2 * m
  {
  }

  ghost predicate LeadsMatch(w: Lora, a: seq<Sel>, b: seq<Sel>)
    requires w.Compatible()
  {
    AllMatch(w.A.shape[..w.Dims() - 2], w.B.shape[..w.Dims() - 2], a, b)
  }

  /** Shapes and sources of matching leading selections agree. */
  ghost predicate LeadsAgree(sa: seq<nat>, a: seq<Sel>, b: seq<Sel>, lead: seq<nat>) {
    var ra, rb := SelShape(a), SelShape(b);
    && |ra| == |rb|
    && (forall d :: 0 <= d < |ra| ==> ra[d] == 1 || ra[d] == rb[d])
    && Back(a, Clip(ra, lead)) == Clip(sa, Back(b, lead))
  }

  lemma PickLead(sa: seq<nat>, a: seq<Sel>, b: seq<Sel>, lead: seq<nat>)
    requires |sa| == |a| == |b| > 0 && a[0].Pick? && b[0].Pick?
    requires a[0].i == (if sa[0] == 1 then 0 else b[0].i)
    requires LeadsAgree(sa[1..], a[1..], b[1..], lead)
    ensures LeadsAgree(sa, a, b, lead)
  {
    assert SelShape(a) == SelShape(a[1..]) && SelShape(b) == SelShape(b[1..]);
    ClipCons(sa, [b[0].i] + Back(b[1..], lead));
  }

  lemma RangeLead(sa: seq<nat>, sizeB: nat, a: seq<Sel>, b: seq<Sel>, lead: seq<nat>)
    requires |sa| == |a| == |b| > 0 && (sa[0] == 1 || sa[0] == sizeB)
    requires a[0].Range? && b[0].Range? && LeadMatches(sa[0], sizeB, a[0], b[0])
    requires lead != [] && lead[0] < b[0].len
    requires LeadsAgree(sa[1..], a[1..], b[1..], lead[1..])
    ensures LeadsAgree(sa, a, b, lead)
  {
    LeadSource(sa[0], sizeB, a[0], b[0], lead[0]);
    ShapeCons(a);
    ShapeCons(b);
    var x := if sa[0] == 1 then 0 else b[0].start + b[0].step * lead[0];
    BackOfClip(a, lead, x);
    ClipOfBack(sa, b, lead, x);
  }

  lemma ShapeCons(s: seq<Sel>)
    requires s != [] && s[0].Range?
    ensures SelShape(s) == [s[0].len] + SelShape(s[1..])
    ensures SelShape(s)[1..] == SelShape(s[1..])
  {
  }

  lemma BackOfClip(a: seq<Sel>, lead: seq<nat>, x: nat)
    requires a != [] && a[0].Range? && lead != []
    requires x == a[0].start + a[0].step * if a[0].len == 1 then 0 else lead[0]
    ensures Back(a, Clip(SelShape(a), lead)) == [x] + Back(a[1..], Clip(SelShape(a[1..]), lead[1..]))
  {
    ShapeCons(a);
    ClipCons(SelShape(a), lead);
    BackCons(a, if a[0].len == 1 then 0 else lead[0], Clip(SelShape(a[1..]), lead[1..]));
  }

  lemma ClipOfBack(sa: seq<nat>, b: seq<Sel>, lead: seq<nat>, x: nat)
    requires sa != [] && b != [] && b[0].Range? && lead != []
    requires x == if sa[0] == 1 then 0 else b[0].start + b[0].step * lead[0]
    ensures Clip(sa, Back(b, lead)) == [x] + Clip(sa[1..], Back(b[1..], lead[1..]))
  {
    BackCons(b, lead[0], lead[1..]);
    assert lead == [lead[0]] + lead[1..];
    ClipCons(sa, Back(b, lead));
  }

  ghost predicate AllMatch(sa: seq<nat>, sb: seq<nat>, a: seq<Sel>, b: seq<Sel>) {
    && |sa| == |sb| == |a| == |b|
    && forall d :: 0 <= d < |a| ==> (sa[d] == 1 || sa[d] == sb[d]) && LeadMatches(sa[d], sb[d], a[d], b[d])
  }

  lemma AllMatchTail(sa: seq<nat>, sb: seq<nat>, a: seq<Sel>, b: seq<Sel>)
    requires AllMatch(sa, sb, a, b) && a != []
    ensures AllMatch(sa[1..], sb[1..], a[1..], b[1..])
    ensures (sa[0] == 1 || sa[0] == sb[0]) && LeadMatches(sa[0], sb[0], a[0], b[0])
  {
  }

  lemma RangeShape(s: seq<Sel>, idx: seq<nat>)
    requires s != [] && s[0].Range? && InShape(idx, SelShape(s))
    ensures idx != [] && idx[0] < s[0].len && InShape(idx[1..], SelShape(s[1..]))
  {
    ShapeCons(s);
  }

  lemma PickShape(s: seq<Sel>)
    requires s != [] && s[0].Pick?
    ensures SelShape(s) == SelShape(s[1..])
  {
  }

  lemma {:induction false} LeadsBack(sa: seq<nat>, sb: seq<nat>, a: seq<Sel>, b: seq<Sel>, lead: seq<nat>)
    requires AllMatch(sa, sb, a, b) && InShape(lead, SelShape(b))
    ensures LeadsAgree(sa, a, b, lead)
    decreases |a|
  {
    if a != [] {
      AllMatchTail(sa, sb, a, b);
      if b[0].Pick? {
        PickShape(b);
        LeadsBack(sa[1..], sb[1..], a[1..], b[1..], lead);
        PickLead(sa, a, b, lead);
      } else {
        RangeShape(b, lead);
        LeadsBack(sa[1..], sb[1..], a[1..], b[1..], lead[1..]);
        RangeLead(sa, sb[0], a, b, lead);
      }
    }
  }

  lemma ClipCons(shape: seq<nat>, lead: seq<nat>)
    requires shape != [] && lead != []
    ensures Clip(shape, lead) == [if shape[0] == 1 then 0 else lead[0]] + Clip(shape[1..], lead[1..])
  {
  }

  lemma LeadSource(sizeA: nat, sizeB: nat, a: Sel, b: Sel, i: nat)
    requires sizeA == 1 || sizeA == sizeB
    requires b.Range? && LeadMatches(sizeA, sizeB, a, b) && i < b.len
    ensures a.len == 1 || a.len == b.len
    ensures a.start + a.step * (if a.len == 1 then 0 else i) == if sizeA == 1 then 0 else b.start + b.step * i
  {
    if a == b {
      AtLeast(b.step, b.len - 1, i);
    } else if sizeA != 1 {
      WholeLength(b, sizeB);
    }
  }

  lemma AtLeast(step: nat, last: nat, i: nat)
    requires step >= 1 && i <= last
    ensures step * last >= last && step * i <= step * last
  {
  }

  lemma {:induction false} ShapesMatch(sa: seq<nat>, sb: seq<nat>, a: seq<Sel>, b: seq<Sel>)
    requires AllMatch(sa, sb, a, b)
    ensures |SelShape(a)| == |SelShape(b)|
    ensures forall d :: 0 <= d < |SelShape(a)| ==> SelShape(a)[d] == 1 || SelShape(a)[d] == SelShape(b)[d]
    decreases |a|
  {
    if a != [] {
      AllMatchTail(sa, sb, a, b);
      ShapesMatch(sa[1..], sb[1..], a[1..], b[1..]);
      if b[0].Pick? {
        PickShape(a);
        PickShape(b);
      } else {
        ShapeCons(a);
        ShapeCons(b);
      }
    }
  }

  lemma SelectShapes(w: Lora, a: seq<Sel>, b: seq<Sel>, row: Sel, col: Sel)
    requires w.Compatible() && LeadsMatch(w, a, b) && row.Range? && col.Range?
    ensures SelShape(a + [Whole(w.Rank()), col]) == SelShape(a) + [w.Rank(), col.len]
    ensures SelShape(b + [row, Whole(w.Rank())]) == SelShape(b) + [row.len, w.Rank()]
    ensures SelShape(b + [row, col]) == SelShape(b) + [row.len, col.len]
  {
    SelShapeAppend(a, [Whole(w.Rank()), col]);
    SelShapeAppend(b, [row, Whole(w.Rank())]);
    SelShapeAppend(b, [row, col]);
    TwoRanges(Whole(w.Rank()), col, 0, 0);
    TwoRanges(row, Whole(w.Rank()), 0, 0);
    TwoRanges(row, col, 0, 0);
  }

  lemma OneRange(s: Sel, i: nat)
    requires s.Range?
    ensures SelShape([s]) == [s.len] && Back([s], [i]) == [s.start + s.step * i]
  {
    assert [s][1..] == [] && [i][1..] == [];
    assert SelShape([s][1..]) == [] && Back([s][1..], [i][1..]) == [];
  }

  lemma TwoRanges(s: Sel, t: Sel, i: nat, j: nat)
    requires s.Range? && t.Range?
    ensures SelShape([s, t]) == [s.len, t.len]
    ensures Back([s, t], [i, j]) == [s.start + s.step * i, t.start + t.step * j]
  {
    OneRange(t, j);
    assert [s, t][1..] == [t] && [i, j][1..] == [j];
  }

  /** Taking rows and columns by ranges, and leading indices that match, commutes with
      the product. */
  lemma SelectDense(w: Lora, a: seq<Sel>, b: seq<Sel>, row: Sel, col: Sel)
    requires w.Compatible() && LeadsMatch(w, a, b) && row.Range? && col.Range?
    ensures var v := Lora(Select(w.A, a + [Whole(w.Rank()), col]), Select(w.B, b + [row, Whole(w.Rank())]));
            v.Compatible() && Same(Dense(v), Select(Dense(w), b + [row, col]))
  {
    SelectShapes(w, a, b, row, col);
    ShapesMatch(w.A.shape[..w.Dims() - 2], w.B.shape[..w.Dims() - 2], a, b);
    var v := Lora(Select(w.A, a + [Whole(w.Rank()), col]), Select(w.B, b + [row, Whole(w.Rank())]));
    assert v.Compatible();
    assert v.Shape() == SelShape(b) + [row.len, col.len];
    forall idx | InShape(idx, v.Shape()) ensures Dense(v).at(idx) == Select(Dense(w), b + [row, col]).at(idx) {
      SelectEntry(w, v, a, b, row, col, idx);
    }
  }

  lemma SelectedAt(t: Tensor, sels: seq<Sel>, p: Sel, q: Sel, lead: seq<nat>, i: nat, j: nat)
    requires p.Range? && q.Range? && |lead| == |SelShape(sels)|
    ensures Select(t, sels + [p, q]).at(lead + [i, j])
         == t.at(Back(sels, lead) + [p.start + p.step * i, q.start + q.step * j])
  {
    BackAppend(sels, [p, q], lead, [i, j]);
    TwoRanges(p, q, i, j);
  }

  lemma ClippedLead(w: Lora, v: Lora, a: seq<Sel>, b: seq<Sel>, lead: seq<nat>)
    requires w.Compatible() && LeadsMatch(w, a, b)
    requires |v.A.shape| == |SelShape(a)| + 2 && v.A.shape[..|SelShape(a)|] == SelShape(a)
    requires InShape(lead, SelShape(b))
    ensures |SelShape(a)| == |lead|
    ensures Back(a, Clip(v.A.shape, lead)) == Clip(w.A.shape, Back(b, lead))
  {
    LeadsBack(w.A.shape[..w.Dims() - 2], w.B.shape[..w.Dims() - 2], a, b, lead);
    ClipPrefix(w.A.shape, w.Dims() - 2, Back(b, lead));
    ClipPrefix(v.A.shape, |SelShape(a)|, lead);
  }

  lemma SelectedRows(w: Lora, b: seq<Sel>, row: Sel, lead: seq<nat>, i: nat, k: nat, i': nat)
    requires w.Valid() && row.Range? && |lead| == |SelShape(b)| && i' == row.start + row.step * i
    ensures Select(w.B, b + [row, Whole(w.Rank())]).at(lead + [i, k]) == w.B.at(Back(b, lead) + [i', k])
  {
    SelectedAt(w.B, b, row, Whole(w.Rank()), lead, i, k);
  }

  lemma SelectedColumns(w: Lora, a: seq<Sel>, col: Sel, lead: seq<nat>, k: nat, j: nat, j': nat)
    requires w.Valid() && col.Range? && |lead| == |SelShape(a)| && j' == col.start + col.step * j
    ensures Select(w.A, a + [Whole(w.Rank()), col]).at(lead + [k, j]) == w.A.at(Back(a, lead) + [k, j'])
  {
    SelectedAt(w.A, a, Whole(w.Rank()), col, lead, k, j);
  }

  /** Where the factors of a summand of the selection come from. */
  lemma SelectFactors(w: Lora, v: Lora, a: seq<Sel>, b: seq<Sel>, row: Sel, col: Sel,
                      lead: seq<nat>, i: nat, j: nat, i': nat, j': nat, k: nat)
    requires w.Compatible() && LeadsMatch(w, a, b) && row.Range? && col.Range?
    requires v.A == Select(w.A, a + [Whole(w.Rank()), col]) && v.B == Select(w.B, b + [row, Whole(w.Rank())])
    requires |v.A.shape| == |SelShape(a)| + 2 && v.A.shape[..|SelShape(a)|] == SelShape(a)
    requires InShape(lead, SelShape(b)) && i' == row.start + row.step * i && j' == col.start + col.step * j
    ensures v.B.at(lead + [i, k]) == w.B.at(Back(b, lead) + [i', k])
    ensures v.A.at(Clip(v.A.shape, lead) + [k, j]) == w.A.at(Clip(w.A.shape, Back(b, lead)) + [k, j'])
  {
    ClippedLead(w, v, a, b, lead);
    SelectedRows(w, b, row, lead, i, k, i');
    SelectedColumns(w, a, col, Clip(v.A.shape, lead), k, j, j');
  }

  lemma TermAt(w: Lora, lead: seq<nat>, i: nat, j: nat, k: nat)
    requires w.Valid() && |lead| + 2 == w.Dims()
    ensures Term(w, lead + [i, j], k) == w.B.at(lead + [i, k]) * w.A.at(Clip(w.A.shape, lead) + [k, j])
  {
    var idx, n := lead + [i, j], w.Dims();
    assert idx[..n - 1] + [k] == lead + [i, k];
    assert idx[..n - 2] == lead;
  }

  lemma SelectTerm(w: Lora, v: Lora, a: seq<Sel>, b: seq<Sel>, row: Sel, col: Sel,
                   lead: seq<nat>, i: nat, j: nat, i': nat, j': nat, k: nat)
    requires w.Compatible() && LeadsMatch(w, a, b) && row.Range? && col.Range?
    requires i' == row.start + row.step * i && j' == col.start + col.step * j
    requires v.A == Select(w.A, a + [Whole(w.Rank()), col])
    requires v.B == Select(w.B, b + [row, Whole(w.Rank())]) && v.Valid()
    requires |v.A.shape| == |SelShape(a)| + 2 && v.A.shape[..|SelShape(a)|] == SelShape(a)
    requires |v.B.shape| == |SelShape(b)| + 2 && InShape(lead, SelShape(b)) && |Back(b, lead)| + 2 == w.Dims()
    ensures Term(v, lead + [i, j], k) == Term(w, Back(b, lead) + [i', j'], k)
  {
    SelectFactors(w, v, a, b, row, col, lead, i, j, i', j', k);
    TermsMatch(v, lead, i, j, w, Back(b, lead), i', j', k);
  }

  lemma TermsMatch(v: Lora, x: seq<nat>, i: nat, j: nat, w: Lora, y: seq<nat>, i': nat, j': nat, k: nat)
    requires v.Valid() && |x| + 2 == v.Dims() && w.Valid() && |y| + 2 == w.Dims()
    requires v.B.at(x + [i, k]) == w.B.at(y + [i', k])
    requires v.A.at(Clip(v.A.shape, x) + [k, j]) == w.A.at(Clip(w.A.shape, y) + [k, j'])
    ensures Term(v, x + [i, j], k) == Term(w, y + [i', j'], k)
  {
    TermAt(v, x, i, j, k);
    TermAt(w, y, i', j', k);
  }

  lemma SelectSource(b: seq<Sel>, row: Sel, col: Sel, lead: seq<nat>, i: nat, j: nat, i': nat, j': nat)
    requires row.Range? && col.Range? && |lead| == |SelShape(b)|
    requires i' == row.start + row.step * i && j' == col.start + col.step * j
    ensures Back(b + [row, col], lead + [i, j]) == Back(b, lead) + [i', j']
  {
    TwoRanges(row, col, i, j);
    assert Back([row, col], [i, j]) == [i', j'];
    BackAppend(b, [row, col], lead, [i, j]);
  }

  lemma SelectEntry(w: Lora, v: Lora, a: seq<Sel>, b: seq<Sel>, row: Sel, col: Sel, idx: seq<nat>)
    requires w.Compatible() && LeadsMatch(w, a, b) && row.Range? && col.Range?
    requires v == Lora(Select(w.A, a + [Whole(w.Rank()), col]), Select(w.B, b + [row, Whole(w.Rank())])) && v.Valid()
    requires v.A.shape == SelShape(a) + [w.Rank(), col.len] && v.B.shape == SelShape(b) + [row.len, w.Rank()]
    requires InShape(idx, SelShape(b) + [row.len, col.len])
    ensures Dense(v).at(idx) == Dense(w).at(Back(b + [row, col], idx))
  {
    var m := |SelShape(b)|;
    var lead, i, j := idx[..m], idx[m], idx[m + 1];
    var i', j' := row.start + row.step * i, col.start + col.step * j;
    var source := Back(b, lead) + [i', j'];
    assert idx == lead + [i, j];
    SelectSource(b, row, col, lead, i, j, i', j');
    forall k | 0 <= k < w.Rank() ensures Term(v, idx, k) == Term(w, source, k) {
      SelectTerm(w, v, a, b, row, col, lead, i, j, i', j', k);
    }
    SumsEqual(v, idx, w, source, w.Rank());
  }

  /** Clipping looks only at as many sizes as there are indices. */
  lemma ClipPrefix(shape: seq<nat>, n: nat, lead: seq<nat>)
    requires n <= |shape| && |lead| == n
    ensures Clip(shape, lead) == Clip(shape[..n], lead)
  {
  }

  // ----- Equal factors, equal products -----

  lemma SameDense(v: Lora, w: Lora)
    requires v.Compatible() && Same(v.A, w.A) && Same(v.B, w.B)
    ensures w.Compatible() && Same(Dense(v), Dense(w))
  {
    forall idx | InShape(idx, v.Shape()) ensures Dense(v).at(idx) == Dense(w).at(idx) {
      var n := |idx|;
      forall k | 0 <= k < v.Rank() ensures Term(v, idx, k) == Term(w, idx, k) {
        assert InShape(idx[..n - 1] + [k], v.B.shape);
        assert InShape(Clip(v.A.shape, idx[..n - 2]) + [k, idx[n - 1]], v.A.shape);
      }
      SumsEqual(v, idx, w, idx, v.Rank());
    }
  }

  function Wholes(shape: seq<nat>): seq<Sel> {
    seq(|shape|, d requires 0 <= d < |shape| => Whole(shape[d]))
  }

  lemma {:induction false} WholesBack(shape: seq<nat>, idx: seq<nat>)
    requires |idx| == |shape|
    ensures SelShape(Wholes(shape)) == shape && Back(Wholes(shape), idx) == idx
    decreases |shape|
  {
    if shape != [] {
      assert Wholes(shape)[1..] == Wholes(shape[1..]);
      WholesBack(shape[1..], idx[1..]);
      assert shape == [shape[0]] + shape[1..];
      assert idx == [idx[0]] + idx[1..];
    }
  }

  lemma SelectWhole(t: Tensor)
    ensures Same(Select(t, Wholes(t.shape)), t)
  {
    WholesBack(t.shape, seq(|t.shape|, _ => 0));
    forall idx | InShape(idx, t.shape) ensures Select(t, Wholes(t.shape)).at(idx) == t.at(idx) {
      WholesBack(t.shape, idx);
    }
  }

  // ----- split -----

  /** The part of a tensor from `start`, `len` long, along one dimension. */
  function NarrowSels(shape: seq<nat>, dim: nat, start: nat, len: nat): seq<Sel> {
    seq(|shape|, d requires 0 <= d < |shape| => if d == dim then Range(start, len, 1) else Whole(shape[d]))
  }

  function Narrow(t: Tensor, dim: nat, start: nat, len: nat): Tensor {
    Select(t, NarrowSels(t.shape, dim, start, len))
  }

  function Total(sizes: seq<nat>): nat {
    if sizes == [] then 0 else sizes[0] + Total(sizes[1..])
  }

  /** The sizes of `split(k)`: all `k` but the last. */
  function EqualSizes(total: nat, k: nat): (sizes: seq<nat>)
    requires k > 0
    ensures Total(sizes) == total
    decreases total
  {
    if total <= k then [total] else [k] + EqualSizes(total - k, k)
  }

  function SplitDim(w: Lora, dim: int): Option<nat> {
    var d := if dim < 0 then dim + w.Dims() else dim;
    if 0 <= d < w.Dims() then Some(d) else None
  }

  function Chunk(w: Lora, d: nat, start: nat, len: nat): Lora
    requires w.Valid() && d < w.Dims()
  {
    if d == w.Dims() - 1 then Lora(Narrow(w.A, d, start, len), w.B)
    else if d == w.Dims() - 2 || w.A.shape[d] == 1 then Lora(w.A, Narrow(w.B, d, start, len))
    else Lora(Narrow(w.A, d, start, len), Narrow(w.B, d, start, len))
  }

  function Chunks(w: Lora, d: nat, start: nat, sizes: seq<nat>): (r: seq<Lora>)
    requires w.Valid() && d < w.Dims()
    ensures |r| == |sizes|
    decreases |sizes|
  {
    if sizes == [] then [] else [Chunk(w, d, start, sizes[0])] + Chunks(w, d, start + sizes[0], sizes[1..])
  }

  /** `split`; the sizes must cover every tensor that is split. */
  function Split(w: Lora, sizes: seq<nat>, dim: int): Option<seq<Lora>>
    requires w.Valid()
  {
    match SplitDim(w, dim)
    case None => None
    case Some(d) =>
      if Total(sizes) != w.Shape()[d] then None
      else if d < w.Dims() - 2 && w.A.shape[d] != 1 && Total(sizes) != w.A.shape[d] then None
      else Some(Chunks(w, d, 0, sizes))
  }

  /** A dimension below minus their number: the code adds the number once, and the tensors
      that are then split add it again. */
  function FarChunk(w: Lora, d: nat, start: nat, len: nat): Lora
    requires w.Valid() && d < w.Dims()
  {
    Lora(if w.A.shape[d] == 1 then w.A else Narrow(w.A, d, start, len), Narrow(w.B, d, start, len))
  }

  function FarChunks(w: Lora, d: nat, start: nat, sizes: seq<nat>): (r: seq<Lora>)
    requires w.Valid() && d < w.Dims()
    ensures |r| == |sizes|
    decreases |sizes|
  {
    if sizes == [] then [] else [FarChunk(w, d, start, sizes[0])] + FarChunks(w, d, start + sizes[0], sizes[1..])
  }

  predicate AllValid(parts: seq<Lora>) {
    forall c :: 0 <= c < |parts| ==> parts[c].Valid()
  }

  function FarSplit(w: Lora, sizes: seq<nat>, dim: int): Option<seq<Lora>>
    requires w.Valid() && 0 <= dim + 2 * w.Dims() < w.Dims()
  {
    var d := dim + 2 * w.Dims();
    var parts := FarChunks(w, d, 0, sizes);
    if Total(sizes) != w.B.shape[d] || (w.A.shape[d] != 1 && Total(sizes) != w.A.shape[d]) then None
    else if AllValid(parts) then Some(parts)
    else None
  }

  /** The parts of both factors, paired while both have one. */
  function FarPairs(w: Lora, d: nat, startA: nat, a: seq<nat>, startB: nat, b: seq<nat>): seq<Lora>
    requires w.Valid() && d < w.Dims()
    decreases |a|
  {
    if a == [] || b == [] then []
    else
      [Lora(Narrow(w.A, d, startA, a[0]), Narrow(w.B, d, startB, b[0]))]
      + FarPairs(w, d, startA + a[0], a[1..], startB + b[0], b[1..])
  }

  function FarParts(w: Lora, d: nat, k: nat): seq<Lora>
    requires w.Valid() && d < w.Dims() && k > 0
  {
    if w.A.shape[d] == 1 then FarChunks(w, d, 0, EqualSizes(w.B.shape[d], k))
    else FarPairs(w, d, 0, EqualSizes(w.A.shape[d], k), 0, EqualSizes(w.B.shape[d], k))
  }

  /** The same with one size for all: each factor is split by it. */
  function FarEvenSplit(w: Lora, k: nat, dim: int): Option<seq<Lora>>
    requires w.Valid() && 0 <= dim + 2 * w.Dims() < w.Dims() && k > 0
  {
    var parts := FarParts(w, dim + 2 * w.Dims(), k);
    if AllValid(parts) then Some(parts) else None
  }

  lemma {:induction false} ChunkAt(w: Lora, d: nat, start: nat, sizes: seq<nat>, c: nat)
    requires w.Valid() && d < w.Dims() && c < |sizes|
    ensures Chunks(w, d, start, sizes)[c] == Chunk(w, d, start + Total(sizes[..c]), sizes[c])
    ensures Total(sizes[..c]) + sizes[c] <= Total(sizes)
    decreases |sizes|
  {
    if c > 0 {
      ChunkAt(w, d, start + sizes[0], sizes[1..], c - 1);
      assert sizes[..c][1..] == sizes[1..][..c - 1];
    }
  }

  lemma NarrowParts(w: Lora, d: nat, start: nat, len: nat)
    requires w.Valid() && d < w.Dims()
    ensures var n := w.Dims();
            var row := if d == n - 2 then Range(start, len, 1) else Whole(w.B.shape[n - 2]);
            var col := if d == n - 1 then Range(start, len, 1) else Whole(w.A.shape[n - 1]);
            var a, b := NarrowSels(w.A.shape[..n - 2], d, start, len), NarrowSels(w.B.shape[..n - 2], d, start, len);
            && NarrowSels(w.Shape(), d, start, len) == b + [row, col]
            && (d != n - 2 ==> NarrowSels(w.A.shape, d, start, len) == a + [Whole(w.Rank()), col])
            && (d != n - 1 ==> NarrowSels(w.B.shape, d, start, len) == b + [row, Whole(w.Rank())])
            && Wholes(w.A.shape) == Wholes(w.A.shape[..n - 2]) + [Whole(w.Rank()), Whole(w.A.shape[n - 1])]
            && Wholes(w.B.shape) == Wholes(w.B.shape[..n - 2]) + [Whole(w.B.shape[n - 2]), Whole(w.Rank())]
            && (d >= n - 2 ==> a == Wholes(w.A.shape[..n - 2]) && b == Wholes(w.B.shape[..n - 2]))
  {
  }
}
