/**
 The views of a factored tensor against the same views of its dense product: `split` and
 indexing.
 */
module LoraViews {
  import opened Text
  import opened LoraTensor

  // ----- split -----

  lemma WholesMatch(sa: seq<nat>, sb: seq<nat>)
    requires |sa| == |sb| && forall d :: 0 <= d < |sa| ==> sa[d] == 1 || sa[d] == sb[d]
    ensures AllMatch(sa, sb, Wholes(sa), Wholes(sb))
  {
  }

  lemma NarrowMatch(sa: seq<nat>, sb: seq<nat>, d: nat, start: nat, len: nat)
    requires |sa| == |sb| && d < |sa| && start + len <= sb[d]
    requires forall e :: 0 <= e < |sa| ==> sa[e] == 1 || sa[e] == sb[e]
    ensures AllMatch(sa, sb, if sa[d] == 1 then Wholes(sa) else NarrowSels(sa, d, start, len),
                     NarrowSels(sb, d, start, len))
  {
  }

  /** Rows or columns `start..start + len`. */
  lemma ChunkRowsOrColumns(w: Lora, d: nat, start: nat, len: nat)
    requires w.Compatible() && w.Dims() - 2 <= d < w.Dims()
    ensures var v := Chunk(w, d, start, len);
            v.Compatible() && Same(Dense(v), Narrow(Dense(w), d, start, len))
  {
    var n := w.Dims();
    var sa, sb := w.A.shape[..n - 2], w.B.shape[..n - 2];
    var row := if d == n - 2 then Range(start, len, 1) else Whole(w.B.shape[n - 2]);
    var col := if d == n - 1 then Range(start, len, 1) else Whole(w.A.shape[n - 1]);
    var u := Lora(Select(w.A, Wholes(sa) + [Whole(w.Rank()), col]), Select(w.B, Wholes(sb) + [row, Whole(w.Rank())]));
    NarrowParts(w, d, start, len);
    WholesMatch(sa, sb);
    SelectDense(w, Wholes(sa), Wholes(sb), row, col);
    SelectWhole(w.A);
    SelectWhole(w.B);
    SameDense(u, Chunk(w, d, start, len));
  }

  lemma SelectedLead(w: Lora, a: seq<Sel>, b: seq<Sel>) returns (u: Lora)
    requires w.Compatible() && LeadsMatch(w, a, b)
    ensures var row, col := Whole(w.B.shape[w.Dims() - 2]), Whole(w.A.shape[w.Dims() - 1]);
            && u == Lora(Select(w.A, a + [Whole(w.Rank()), col]), Select(w.B, b + [row, Whole(w.Rank())]))
            && u.Compatible() && Same(Dense(u), Select(Dense(w), b + [row, col]))
  {
    var row, col := Whole(w.B.shape[w.Dims() - 2]), Whole(w.A.shape[w.Dims() - 1]);
    u := Lora(Select(w.A, a + [Whole(w.Rank()), col]), Select(w.B, b + [row, Whole(w.Rank())]));
    SelectDense(w, a, b, row, col);
  }

  lemma NarrowedShared(w: Lora, d: nat, start: nat, len: nat) returns (u: Lora)
    requires w.Compatible() && d < w.Dims() - 2 && start + len <= w.B.shape[d] && w.A.shape[d] == 1
    ensures u == Lora(Select(w.A, Wholes(w.A.shape)), Narrow(w.B, d, start, len))
    ensures u.Compatible() && Same(Dense(u), Narrow(Dense(w), d, start, len))
  {
    var sa, sb := w.A.shape[..w.Dims() - 2], w.B.shape[..w.Dims() - 2];
    NarrowMatch(sa, sb, d, start, len);
    NarrowParts(w, d, start, len);
    u := SelectedLead(w, Wholes(sa), NarrowSels(sb, d, start, len));
  }

  lemma NarrowedBoth(w: Lora, d: nat, start: nat, len: nat) returns (u: Lora)
    requires w.Compatible() && d < w.Dims() - 2 && start + len <= w.B.shape[d] && w.A.shape[d] != 1
    ensures u == Lora(Narrow(w.A, d, start, len), Narrow(w.B, d, start, len))
    ensures u.Compatible() && Same(Dense(u), Narrow(Dense(w), d, start, len))
  {
    var sa, sb := w.A.shape[..w.Dims() - 2], w.B.shape[..w.Dims() - 2];
    NarrowMatch(sa, sb, d, start, len);
    NarrowParts(w, d, start, len);
    u := SelectedLead(w, NarrowSels(sa, d, start, len), NarrowSels(sb, d, start, len));
  }

  /** Leading indices `start..start + len`. */
  lemma ChunkLead(w: Lora, d: nat, start: nat, len: nat)
    requires w.Compatible() && d < w.Dims() - 2 && start + len <= w.B.shape[d]
    ensures var v := Chunk(w, d, start, len);
            v.Compatible() && Same(Dense(v), Narrow(Dense(w), d, start, len))
  {
    if w.A.shape[d] == 1 {
      var u := NarrowedShared(w, d, start, len);
      SelectWhole(w.A);
      SameDense(u, Chunk(w, d, start, len));
    } else {
      var u := NarrowedBoth(w, d, start, len);
      assert u == Chunk(w, d, start, len);
    }
  }

  /** Accepted if and only if the sizes add up to the size of the dimension. */
  lemma SplitAccepts(w: Lora, sizes: seq<nat>, dim: int)
    requires w.Compatible() && 0 <= dim + w.Dims() && dim < w.Dims()
    ensures Split(w, sizes, dim).Some? <==> Total(sizes) == w.Shape()[if dim < 0 then dim + w.Dims() else dim]
  {
    var d := if dim < 0 then dim + w.Dims() else dim;
    if d < w.Dims() - 2 {
      assert w.Shape()[d] == w.B.shape[d];
    }
  }

  /** A part of a tensor along one dimension has the entries from its start on. */
  lemma NarrowAt(t: Tensor, d: nat, start: nat, len: nat, idx: seq<nat>)
    requires d < |t.shape| == |idx|
    ensures Narrow(t, d, start, len).at(idx) == t.at(idx[d := start + idx[d]])
  {
    var sels := NarrowSels(t.shape, d, start, len);
    RangesBack(sels, idx);
    assert Back(sels, idx) == idx[d := start + idx[d]];
  }

  lemma {:induction false} RangesBack(s: seq<Sel>, idx: seq<nat>)
    requires |s| == |idx| && forall d :: 0 <= d < |s| ==> s[d].Range?
    ensures forall d :: 0 <= d < |s| ==> Back(s, idx)[d] == s[d].start + s[d].step * idx[d]
    decreases |s|
  {
    if s != [] {
      RangesBack(s[1..], idx[1..]);
      assert idx == [idx[0]] + idx[1..];
      BackCons(s, idx[0], idx[1..]);
    }
  }

  /** `v` is the factored form of a part of the product along dimension `d`. */
  ghost predicate IsPart(v: Lora, w: Lora, d: nat, start: nat, len: nat)
    requires w.Valid()
  {
    v.Compatible() && Same(Dense(v), Narrow(Dense(w), d, start, len))
  }

  lemma ChunkDense(w: Lora, d: nat, start: nat, len: nat)
    requires w.Compatible() && d < w.Dims() && start + len <= w.Shape()[d]
    ensures IsPart(Chunk(w, d, start, len), w, d, start, len)
  {
    if d >= w.Dims() - 2 {
      ChunkRowsOrColumns(w, d, start, len);
    } else {
      ChunkLead(w, d, start, len);
    }
  }

  /** Each part of a split is the factored form of the same part of the product. */
  lemma SplitDense(w: Lora, sizes: seq<nat>, dim: int)
    requires w.Compatible() && Split(w, sizes, dim).Some?
    ensures var d: int := if dim < 0 then dim + w.Dims() else dim;
            var chunks := Split(w, sizes, dim).value;
            && 0 <= d < w.Dims() && Total(sizes) == w.Shape()[d] && |chunks| == |sizes|
            && forall c :: 0 <= c < |sizes| ==> IsPart(chunks[c], w, d, Total(sizes[..c]), sizes[c])
  {
    var d := SplitDim(w, dim).value;
    forall c | 0 <= c < |sizes| ensures IsPart(Chunks(w, d, 0, sizes)[c], w, d, Total(sizes[..c]), sizes[c]) {
      ChunkAt(w, d, 0, sizes, c);
      ChunkDense(w, d, Total(sizes[..c]), sizes[c]);
    }
  }

  lemma {:induction false} RangesShape(s: seq<Sel>)
    requires forall d :: 0 <= d < |s| ==> s[d].Range?
    ensures SelShape(s) == seq(|s|, d requires 0 <= d < |s| => s[d].len)
    decreases |s|
  {
    if s != [] {
      RangesShape(s[1..]);
    }
  }

  lemma NarrowShape(t: Tensor, d: nat, start: nat, len: nat)
    requires d < |t.shape|
    ensures Narrow(t, d, start, len).shape == t.shape[d := len]
  {
    RangesShape(NarrowSels(t.shape, d, start, len));
  }

  /** Where the ranks stay the same whatever the part. */
  predicate RankUncut(w: Lora, d: nat)
    requires w.Valid() && d < w.Dims()
  {
    d < w.Dims() - 2 || (d == w.Dims() - 2 && w.Rank() == 1)
  }

  /** When the part is accepted: the rank of both factors must stay the same. */
  lemma FarChunkValid(w: Lora, d: nat, start: nat, len: nat)
    requires w.Valid() && d < w.Dims()
    ensures FarChunk(w, d, start, len).Valid()
       <==> RankUncut(w, d) || len == w.Rank()
  {
    NarrowShape(w.A, d, start, len);
    NarrowShape(w.B, d, start, len);
  }

  lemma {:induction false} FarChunksSame(w: Lora, d: nat, start: nat, sizes: seq<nat>)
    requires w.Valid() && d < w.Dims() && RankUncut(w, d)
    ensures FarChunks(w, d, start, sizes) == Chunks(w, d, start, sizes)
    decreases |sizes|
  {
    if sizes != [] {
      FarChunksSame(w, d, start + sizes[0], sizes[1..]);
    }
  }

  lemma {:induction false} FarChunkAt(w: Lora, d: nat, start: nat, sizes: seq<nat>, c: nat)
    requires w.Valid() && d < w.Dims() && c < |sizes|
    ensures FarChunks(w, d, start, sizes)[c] == FarChunk(w, d, start + Total(sizes[..c]), sizes[c])
    decreases |sizes|
  {
    if c > 0 {
      FarChunkAt(w, d, start + sizes[0], sizes[1..], c - 1);
      assert sizes[..c][1..] == sizes[1..][..c - 1];
    }
  }

  predicate AllOf(sizes: seq<nat>, size: nat) {
    forall c :: 0 <= c < |sizes| ==> sizes[c] == size
  }

  lemma FarPartsValid(w: Lora, d: nat, sizes: seq<nat>)
    requires w.Valid() && d < w.Dims()
    ensures AllValid(FarChunks(w, d, 0, sizes)) <==> RankUncut(w, d) || AllOf(sizes, w.Rank())
  {
    var parts := FarChunks(w, d, 0, sizes);
    forall c | 0 <= c < |sizes| ensures parts[c].Valid() <==> RankUncut(w, d) || sizes[c] == w.Rank() {
      FarChunkAt(w, d, 0, sizes, c);
      FarChunkValid(w, d, Total(sizes[..c]), sizes[c]);
    }
    if AllValid(parts) && !RankUncut(w, d) {
      forall c | 0 <= c < |sizes| ensures sizes[c] == w.Rank() {
        assert parts[c].Valid();
      }
    }
    if RankUncut(w, d) || AllOf(sizes, w.Rank()) {
      forall c | 0 <= c < |parts| ensures parts[c].Valid() {
        assert RankUncut(w, d) || sizes[c] == w.Rank();
      }
    }
  }

  lemma UncutSplit(w: Lora, sizes: seq<nat>, dim: int)
    requires w.Valid() && 0 <= dim + 2 * w.Dims() < w.Dims() && RankUncut(w, dim + 2 * w.Dims())
    ensures FarSplit(w, sizes, dim) == Split(w, sizes, dim + 2 * w.Dims())
  {
    var d := dim + 2 * w.Dims();
    FarPartsValid(w, d, sizes);
    FarChunksSame(w, d, 0, sizes);
  }

  /** The sizes cover what is split, and each part has the whole rank. */
  predicate WholeRanks(w: Lora, d: nat, sizes: seq<nat>)
    requires w.Valid() && d < w.Dims()
  {
    && Total(sizes) == w.B.shape[d] && (w.A.shape[d] == 1 || Total(sizes) == w.A.shape[d])
    && AllOf(sizes, w.Rank())
  }

  /** The product has no dimension below minus their number, yet the split is not refused: a
      leading dimension, or the rows at rank 1, are split as if counted twice from behind;
      elsewhere the rank itself is cut, which works only if every part has all of it. */
  lemma FarSplits(w: Lora, sizes: seq<nat>, dim: int)
    requires w.Valid() && 0 <= dim + 2 * w.Dims() < w.Dims()
    ensures var d := dim + 2 * w.Dims();
            if RankUncut(w, d) then FarSplit(w, sizes, dim) == Split(w, sizes, d)
            else FarSplit(w, sizes, dim).Some? <==> WholeRanks(w, d, sizes)
  {
    var d := dim + 2 * w.Dims();
    if RankUncut(w, d) {
      UncutSplit(w, sizes, dim);
    } else {
      FarPartsValid(w, d, sizes);
    }
  }

  lemma {:induction false} PairsAreChunks(w: Lora, d: nat, start: nat, sizes: seq<nat>)
    requires w.Valid() && d < w.Dims() && w.A.shape[d] != 1
    ensures FarPairs(w, d, start, sizes, start, sizes) == FarChunks(w, d, start, sizes)
    decreases |sizes|
  {
    if sizes != [] {
      PairsAreChunks(w, d, start + sizes[0], sizes[1..]);
    }
  }

  lemma FirstSize(total: nat, k: nat)
    requires k > 0
    ensures var sizes := EqualSizes(total, k);
            if total <= k then sizes == [total] else sizes != [] && sizes[0] == k
  {
  }

  function Least(x: nat, y: nat): nat {
    if x <= y then x else y
  }

  lemma UncutParts(w: Lora, d: nat, k: nat)
    requires w.Compatible() && k > 0 && d < w.Dims() && RankUncut(w, d)
    ensures FarParts(w, d, k) == FarChunks(w, d, 0, EqualSizes(w.B.shape[d], k))
    ensures w.A.shape[d] == 1 || w.A.shape[d] == w.B.shape[d]
  {
    if w.A.shape[d] != 1 {
      PairsAreChunks(w, d, 0, EqualSizes(w.B.shape[d], k));
    }
  }

  lemma EvenUncut(w: Lora, k: nat, dim: int)
    requires w.Compatible() && k > 0 && 0 <= dim + 2 * w.Dims() < w.Dims() && RankUncut(w, dim + 2 * w.Dims())
    ensures var d := dim + 2 * w.Dims(); FarEvenSplit(w, k, dim) == Split(w, EqualSizes(w.B.shape[d], k), d)
  {
    var d := dim + 2 * w.Dims();
    UncutParts(w, d, k);
    FarPartsValid(w, d, EqualSizes(w.B.shape[d], k));
    UncutSplit(w, EqualSizes(w.B.shape[d], k), dim);
  }

  /** The only part there can be where the rank is cut. */
  function RankPart(w: Lora, d: nat, k: nat): Lora
    requires w.Valid() && d < w.Dims()
  {
    Lora(if w.A.shape[d] == 1 then w.A else Narrow(w.A, d, 0, Least(w.A.shape[d], k)),
         Narrow(w.B, d, 0, Least(w.B.shape[d], k)))
  }

  lemma RankPartValid(w: Lora, d: nat, k: nat)
    requires w.Valid() && d < w.Dims() && k > 0 && w.Dims() - 2 <= d && !RankUncut(w, d)
    ensures RankPart(w, d, k).Valid() <==> k >= w.Rank()
  {
    NarrowShape(w.A, d, 0, Least(w.A.shape[d], k));
    NarrowShape(w.B, d, 0, Least(w.B.shape[d], k));
  }

  lemma OneFarPair(w: Lora, d: nat, a: seq<nat>, b: seq<nat>)
    requires w.Valid() && d < w.Dims() && a != [] && b != []
    ensures var parts := FarPairs(w, d, 0, a, 0, b);
            && parts != [] && parts[0] == Lora(Narrow(w.A, d, 0, a[0]), Narrow(w.B, d, 0, b[0]))
            && (|a| == 1 || |b| == 1 ==> |parts| == 1)
  {
    if |a| == 1 {
      assert a[1..] == [];
    } else if |b| == 1 {
      assert b[1..] == [];
    }
  }

  lemma FirstFarPart(w: Lora, d: nat, k: nat)
    requires w.Valid() && d < w.Dims() && k > 0
    ensures FarParts(w, d, k) != [] && FarParts(w, d, k)[0] == RankPart(w, d, k)
    ensures w.Dims() - 2 <= d && !RankUncut(w, d) && k >= w.Rank() ==> |FarParts(w, d, k)| == 1
  {
    FirstSize(w.A.shape[d], k);
    FirstSize(w.B.shape[d], k);
    if w.A.shape[d] != 1 {
      OneFarPair(w, d, EqualSizes(w.A.shape[d], k), EqualSizes(w.B.shape[d], k));
    }
  }

  lemma RankParts(w: Lora, k: nat, dim: int)
    requires w.Valid() && k > 0 && 0 <= dim + 2 * w.Dims() < w.Dims() && !RankUncut(w, dim + 2 * w.Dims())
    ensures FarEvenSplit(w, k, dim)
         == if k >= w.Rank() then Some([RankPart(w, dim + 2 * w.Dims(), k)]) else None
  {
    var d := dim + 2 * w.Dims();
    FirstFarPart(w, d, k);
    RankPartValid(w, d, k);
    OnlyPart(FarParts(w, d, k), RankPart(w, d, k), k >= w.Rank());
  }

  lemma OnlyPart(parts: seq<Lora>, v: Lora, enough: bool)
    requires parts != [] && parts[0] == v && (v.Valid() <==> enough) && (enough ==> |parts| == 1)
    ensures (if AllValid(parts) then Some(parts) else None) == if enough then Some([v]) else None
  {
    if enough {
      assert parts == [v];
    }
  }

  /** One part, the first `k` rows or columns, if there are as many. */
  ghost predicate FirstOnly(w: Lora, d: nat, k: nat, parts: seq<Lora>)
    requires w.Valid() && d < w.Dims()
  {
    |parts| == 1 && parts[0].Compatible() && Same(Dense(parts[0]), Narrow(Dense(w), d, 0, Least(w.Shape()[d], k)))
  }

  ghost predicate FirstOrNone(w: Lora, d: nat, k: nat, parts: Option<seq<Lora>>)
    requires w.Valid() && d < w.Dims()
  {
    if k >= w.Rank() then parts.Some? && FirstOnly(w, d, k, parts.value) else parts.None?
  }

  lemma RankPartDense(w: Lora, d: nat, k: nat)
    requires w.Compatible() && d < w.Dims() && !RankUncut(w, d) && k > 0 && k >= w.Rank()
    ensures FirstOnly(w, d, k, [RankPart(w, d, k)])
  {
    var len := Least(w.Shape()[d], k);
    ChunkRowsOrColumns(w, d, 0, len);
    NarrowWhole(w.A, d);
    NarrowWhole(w.B, d);
    SelectWhole(w.A);
    SelectWhole(w.B);
    SameDense(Chunk(w, d, 0, len), RankPart(w, d, k));
  }

  lemma NarrowWhole(t: Tensor, d: nat)
    requires d < |t.shape|
    ensures Narrow(t, d, 0, t.shape[d]) == Select(t, Wholes(t.shape))
  {
    assert NarrowSels(t.shape, d, 0, t.shape[d]) == Wholes(t.shape);
  }

  /** With one size for all, such a dimension is a leading one, or the rows at rank 1, or the
      split is refused unless the size is at least the rank; then it yields a single part,
      the first rows or columns, and drops the others. */
  lemma FarEvenSplits(w: Lora, k: nat, dim: int, d: nat)
    requires w.Compatible() && k > 0 && d == dim + 2 * w.Dims() < w.Dims()
    ensures RankUncut(w, d) ==> FarEvenSplit(w, k, dim) == Split(w, EqualSizes(w.B.shape[d], k), d)
    ensures !RankUncut(w, d) ==> FirstOrNone(w, d, k, FarEvenSplit(w, k, dim))
  {
    if RankUncut(w, d) {
      EvenUncut(w, k, dim);
    } else {
      FirstPartOrNone(w, k, dim, d);
    }
  }

  lemma FirstPartOrNone(w: Lora, k: nat, dim: int, d: nat)
    requires w.Compatible() && k > 0 && d == dim + 2 * w.Dims() < w.Dims() && !RankUncut(w, d)
    ensures FirstOrNone(w, d, k, FarEvenSplit(w, k, dim))
  {
    RankParts(w, k, dim);
    RankPartOnly(w, d, k, FarEvenSplit(w, k, dim));
  }

  lemma RankPartOnly(w: Lora, d: nat, k: nat, parts: Option<seq<Lora>>)
    requires w.Compatible() && d < w.Dims() && !RankUncut(w, d) && k > 0
    requires parts == if k >= w.Rank() then Some([RankPart(w, d, k)]) else None
    ensures FirstOrNone(w, d, k, parts)
  {
    if k >= w.Rank() {
      RankPartDense(w, d, k);
    }
  }

  lemma {:induction false} EvenSizes(total: nat, k: nat)
    requires k > 0
    ensures var sizes := EqualSizes(total, k);
            sizes != [] && sizes[|sizes| - 1] <= k && forall c :: 0 <= c < |sizes| - 1 ==> sizes[c] == k
    decreases total
  {
    if total > k {
      EvenSizes(total - k, k);
    }
  }

  /** Splitting by one size: no compatible tensor is refused, all parts but the last have
      that size, and `SplitDense` says what they are. */
  lemma EvenSplitSucceeds(w: Lora, k: nat, dim: int)
    requires w.Compatible() && k > 0 && 0 <= dim + w.Dims() && dim < w.Dims()
    ensures var sizes := EqualSizes(w.Shape()[if dim < 0 then dim + w.Dims() else dim], k);
            && Split(w, sizes, dim).Some?
            && sizes != [] && sizes[|sizes| - 1] <= k && forall c :: 0 <= c < |sizes| - 1 ==> sizes[c] == k
  {
    var total := w.Shape()[if dim < 0 then dim + w.Dims() else dim];
    EvenSizes(total, k);
    SplitAccepts(w, EqualSizes(total, k), dim);
  }

  // ----- __getitem__ -----

  /** An index as written: an integer, or a slice with optional parts. */
  datatype PyIndex = Int(i: int) | Slice(start: Option<int>, stop: Option<int>, step: Option<int>)

  const FULL := Slice(None, None, None)

  function ClampTo(x: int, n: nat): (r: nat)
    ensures r <= n
  {
    var y := if x < 0 then x + n else x;
    if y < 0 then 0 else if y > n then n else y
  }

  function CeilDiv(x: nat, y: nat): (r: nat)
    requires y > 0
    ensures x > 0 ==> r > 0 && y * (r - 1) < x
    ensures x == 0 ==> r == 0
  {
    var r := (x + y - 1) / y;
    DivBounds(x + y - 1, y);
    r
  }

  lemma DivBounds(x: nat, y: nat)
    requires y > 0
    ensures y * (x / y) <= x < y * (x / y) + y
    ensures x >= y ==> x / y > 0
  {
  }

  /** An index against a dimension of size `n`; slices step forwards. */
  function Normalise(ix: PyIndex, n: nat): (r: Option<Sel>)
    ensures r.Some? ==> (r.value.Pick? <==> ix.Int?) && InRange(r.value, n)
  {
    match ix
    case Int(i) => if i < -(n as int) || i >= n then None else Some(Pick(if i < 0 then i + n else i))
    case Slice(start, stop, step) =>
      var k := if step.Some? then step.value else 1;
      if k <= 0 then None
      else
        var lo := if start.Some? then ClampTo(start.value, n) else 0;
        var hi := if stop.Some? then ClampTo(stop.value, n) else n;
        var len := if lo < hi then CeilDiv(hi - lo, k) else 0;
        Some(Range(lo, len, k))
  }

  /** `k` steps from `lo` stay in front of `hi`. */
  lemma StepsWithin(lo: nat, hi: nat, step: nat, k: nat)
    requires step > 0
    ensures k < (if lo < hi then CeilDiv(hi - lo, step) else 0) <==> lo + step * k < hi
  {
    if lo < hi {
      var x, r := hi - lo, CeilDiv(hi - lo, step);
      DivBounds(x + step - 1, step);
      assert x <= step * r;
      if k < r {
        TimesMonotone(step, k, r - 1);
      } else {
        TimesMonotone(step, r, k);
      }
    }
  }

  lemma TimesMonotone(step: nat, j: nat, k: nat)
    requires j <= k
    ensures step * j <= step * k
  {
    assert step * k == step * j + step * (k - j);
  }

  /** A place as Python counts it: from behind when negative. */
  function Place(x: int, n: nat): int {
    if x < 0 then x + n else x
  }

  /** A slice takes, from the first place within the dimension that is not in front of its
      start, every `step`-th index in front of its stop; a step below 1 is refused. */
  lemma SliceTakes(start: Option<int>, stop: Option<int>, step: Option<int>, n: nat, k: nat)
    ensures Normalise(Slice(start, stop, step), n).Some? <==> (step.Some? ==> step.value > 0)
    ensures (step.Some? ==> step.value > 0) ==>
              var r := Normalise(Slice(start, stop, step), n).value;
              var i := r.start + r.step * k;
              && r.Range? && r.step == (if step.Some? then step.value else 1)
              && (k < r.len <==> i < n && (stop.Some? ==> i < Place(stop.value, n)))
              && (start.Some? ==> r.start >= Place(start.value, n) || r.start == n)
              && (r.start > 0 ==> start.Some? && r.start <= Place(start.value, n))
  {
    if step.Some? ==> step.value > 0 {
      var lo := if start.Some? then ClampTo(start.value, n) else 0;
      var hi := if stop.Some? then ClampTo(stop.value, n) else n;
      StepsWithin(lo, hi, if step.Some? then step.value else 1, k);
    }
  }

  /** A single index counts from behind when negative, and must lie within the dimension. */
  lemma IndexTakes(i: int, n: nat)
    ensures Normalise(Int(i), n).Some? <==> 0 <= Place(i, n) < n
    ensures Normalise(Int(i), n).Some? ==> Normalise(Int(i), n).value == Pick(Place(i, n))
  {
  }

  lemma NormaliseFull(n: nat)
    ensures Normalise(FULL, n) == Some(Whole(n))
  {
    if n > 0 {
      assert CeilDiv(n, 1) == n;
    }
  }

  function NormaliseAll(ixs: seq<PyIndex>, shape: seq<nat>): (r: Option<seq<Sel>>)
    requires |ixs| == |shape|
    ensures r.Some? ==> |r.value| == |ixs|
    ensures r.Some? ==> forall d :: 0 <= d < |ixs| ==> Normalise(ixs[d], shape[d]) == Some(r.value[d])
  {
    if ixs == [] then Some([])
    else
      var first, rest := Normalise(ixs[0], shape[0]), NormaliseAll(ixs[1..], shape[1..]);
      if first.None? || rest.None? then None else Some([first.value] + rest.value)
  }

  /** Indexing a plain tensor with one index per dimension. */
  function GetAll(t: Tensor, ixs: seq<PyIndex>): Option<Tensor>
    requires |ixs| == |t.shape|
  {
    var sels := NormaliseAll(ixs, t.shape);
    if sels.None? then None else Some(Select(t, sels.value))
  }

  function FullSlices(n: nat): seq<PyIndex> {
    seq(n, _ => FULL)
  }

  function Make(a: Option<Tensor>, b: Option<Tensor>): Option<Lora> {
    if a.None? || b.None? then None
    else if Lora(a.value, b.value).Valid() then Some(Lora(a.value, b.value)) else None
  }

  /** `w[i]` and `w[start:stop:step]`. */
  function GetOne(w: Lora, ix: PyIndex): Option<Lora>
    requires w.Valid()
  {
    var ixs := [ix] + FullSlices(w.Dims() - 1);
    if w.Dims() > 2 then Make(GetAll(w.A, ixs), GetAll(w.B, ixs))
    else if ix.Int? then None
    else Make(Some(w.A), GetAll(w.B, ixs))
  }

  /** A leading index as it is applied to `A`: integers wrap to its size, slices do not
      restrict it. */
  function LeadForA(ix: PyIndex, size: nat): Option<PyIndex> {
    match ix
    case Int(i) => if size == 0 then None else Some(Int(i % size))
    case Slice(_, _, _) => Some(FULL)
  }

  function LeadsForA(ixs: seq<PyIndex>, shape: seq<nat>): (r: Option<seq<PyIndex>>)
    requires |ixs| == |shape|
    ensures r.Some? ==> |r.value| == |ixs|
    ensures r.Some? ==> forall d :: 0 <= d < |ixs| ==> LeadForA(ixs[d], shape[d]) == Some(r.value[d])
  {
    if ixs == [] then Some([])
    else
      var first, rest := LeadForA(ixs[0], shape[0]), LeadsForA(ixs[1..], shape[1..]);
      if first.None? || rest.None? then None else Some([first.value] + rest.value)
  }

  function Padded(w: Lora, ixs: seq<PyIndex>): seq<PyIndex>
    requires |ixs| <= w.Dims()
  {
    ixs + FullSlices(w.Dims() - |ixs|)
  }

  /** `w[i, j, ...]` without an ellipsis. */
  function GetTuple(w: Lora, ixs: seq<PyIndex>): Option<Lora>
    requires w.Valid()
  {
    if ixs == [] || |ixs| > w.Dims() then None
    else
      var n, all := w.Dims(), Padded(w, ixs);
      match LeadsForA(all[..n - 2], w.A.shape[..n - 2])
      case None => None
      case Some(leads) =>
        Make(GetAll(w.A, leads + [FULL, all[n - 1]]), GetAll(w.B, all[..n - 1] + [FULL]))
  }

  lemma {:induction false} NormaliseAllSome(ixs: seq<PyIndex>, shape: seq<nat>, sels: seq<Sel>)
    requires |ixs| == |shape| == |sels|
    requires forall d :: 0 <= d < |ixs| ==> Normalise(ixs[d], shape[d]) == Some(sels[d])
    ensures NormaliseAll(ixs, shape) == Some(sels)
    decreases |ixs|
  {
    if ixs != [] {
      NormaliseAllSome(ixs[1..], shape[1..], sels[1..]);
      assert sels == [sels[0]] + sels[1..];
    }
  }

  lemma FirstSels(ix: PyIndex, shape: seq<nat>, sel: Sel)
    requires shape != [] && Normalise(ix, shape[0]) == Some(sel)
    ensures NormaliseAll([ix] + FullSlices(|shape| - 1), shape) == Some([sel] + Wholes(shape[1..]))
  {
    var ixs, sels := [ix] + FullSlices(|shape| - 1), [sel] + Wholes(shape[1..]);
    forall d | 0 <= d < |shape| ensures Normalise(ixs[d], shape[d]) == Some(sels[d]) {
      NormaliseFull(shape[d]);
    }
    NormaliseAllSome(ixs, shape, sels);
  }

  lemma FirstLead(w: Lora, selA: Sel, selB: Sel)
    requires w.Compatible() && w.Dims() > 2 && LeadMatches(w.A.shape[0], w.B.shape[0], selA, selB)
    ensures var v := Lora(Select(w.A, [selA] + Wholes(w.A.shape[1..])), Select(w.B, [selB] + Wholes(w.B.shape[1..])));
            v.Compatible() && Same(Dense(v), Select(Dense(w), [selB] + Wholes(w.Shape()[1..])))
  {
    var n := w.Dims();
    var sa, sb := w.A.shape[..n - 2], w.B.shape[..n - 2];
    var a, b := [selA] + Wholes(sa[1..]), [selB] + Wholes(sb[1..]);
    FirstMatches(sa, sb, selA, selB);
    WholeTail(selA, w.A.shape);
    WholeTail(selB, w.B.shape);
    WholeTail(selB, w.Shape());
    assert w.Shape()[..n - 2] == sb;
    var v := SelectedLead(w, a, b);
  }

  lemma FirstMatches(sa: seq<nat>, sb: seq<nat>, selA: Sel, selB: Sel)
    requires |sa| == |sb| > 0 && LeadMatches(sa[0], sb[0], selA, selB)
    requires forall d :: 0 <= d < |sa| ==> sa[d] == 1 || sa[d] == sb[d]
    ensures AllMatch(sa, sb, [selA] + Wholes(sa[1..]), [selB] + Wholes(sb[1..]))
  {
  }

  lemma WholeTail(sel: Sel, shape: seq<nat>)
    requires |shape| > 2
    ensures var n := |shape|;
            ([sel] + Wholes(shape[..n - 2][1..])) + [Whole(shape[n - 2]), Whole(shape[n - 1])]
            == [sel] + Wholes(shape[1..])
  {
  }

  lemma FirstShape(t: Tensor, sel: Sel)
    requires t.shape != [] && sel.Range?
    ensures Select(t, [sel] + Wholes(t.shape[1..])).shape == [sel.len] + t.shape[1..]
  {
    var sels := [sel] + Wholes(t.shape[1..]);
    assert sels[1..] == Wholes(t.shape[1..]);
    ShapeCons(sels);
    SelectWhole(Tensor(t.shape[1..], _ => 0.0));
  }

  lemma EmptyShape(shape: seq<nat>)
    requires shape != [] && shape[0] == 0
    ensures forall idx :: !InShape(idx, shape)
  {
  }

  /** A shared leading dimension of `A` that a slice empties: nothing of the product is
      left only when the slice empties `B`, too. */
  lemma EmptiedLead(w: Lora, selA: Sel, selB: Sel)
    requires w.Compatible() && w.Dims() > 2 && selA.Range? && selB.Range? && selA.len == 0
    ensures var v := Lora(Select(w.A, [selA] + Wholes(w.A.shape[1..])), Select(w.B, [selB] + Wholes(w.B.shape[1..])));
            && v.Valid()
            && (v.Compatible() <==> selB.len == 0)
            && (selB.len == 0 ==> Same(Dense(v), Select(Dense(w), [selB] + Wholes(w.Shape()[1..]))))
  {
    FirstShape(w.A, selA);
    FirstShape(w.B, selB);
    FirstShape(Dense(w), selB);
    var v := Lora(Select(w.A, [selA] + Wholes(w.A.shape[1..])), Select(w.B, [selB] + Wholes(w.B.shape[1..])));
    assert v.A.shape[0] == 0 && v.B.shape[0] == selB.len;
    assert v.Shape() == [selB.len] + w.Shape()[1..];
    if selB.len == 0 {
      forall d | 0 <= d < v.Dims() - 2 ensures v.A.shape[d] == 1 || v.A.shape[d] == v.B.shape[d] {
      }
      EmptyShape(v.Shape());
    }
  }

  lemma FirstRows(w: Lora, sel: Sel)
    requires w.Compatible() && w.Dims() == 2 && sel.Range? && InRange(sel, w.B.shape[0])
    ensures var v := Lora(w.A, Select(w.B, [sel] + Wholes(w.B.shape[1..])));
            v.Compatible() && Same(Dense(v), Select(Dense(w), [sel] + Wholes(w.Shape()[1..])))
  {
    var v := Lora(w.A, Select(w.B, [sel] + Wholes(w.B.shape[1..])));
    var col := Whole(w.A.shape[1]);
    var u := Lora(Select(w.A, [] + [Whole(w.Rank()), col]), Select(w.B, [] + [sel, Whole(w.Rank())]));
    SelectDense(w, [], [], sel, col);
    assert [] + [Whole(w.Rank()), col] == Wholes(w.A.shape);
    assert [] + [sel, Whole(w.Rank())] == [sel] + Wholes(w.B.shape[1..]);
    assert [] + [sel, col] == [sel] + Wholes(w.Shape()[1..]);
    SelectWhole(w.A);
    SameDense(u, v);
  }

  /** An index of the leading dimension of stacked tensors does not empty a dimension that
      `A` shares while it keeps something of `B`. */
  predicate LeadKept(w: Lora, ix: PyIndex)
    requires w.Valid() && w.Dims() > 2 && Normalise(ix, w.A.shape[0]).Some? && Normalise(ix, w.B.shape[0]).Some?
  {
    || w.A.shape[0] == w.B.shape[0]
    || ix.Int?
    || Normalise(ix, w.A.shape[0]).value.len > 0
    || Normalise(ix, w.B.shape[0]).value.len == 0
  }

  lemma GetOneSels(w: Lora, ix: PyIndex)
    requires w.Valid() && GetOne(w, ix).Some? && w.Dims() > 2
    ensures Normalise(ix, w.A.shape[0]).Some? && Normalise(ix, w.B.shape[0]).Some?
    ensures var a, b := Normalise(ix, w.A.shape[0]).value, Normalise(ix, w.B.shape[0]).value;
            && GetOne(w, ix)
                == Some(Lora(Select(w.A, [a] + Wholes(w.A.shape[1..])), Select(w.B, [b] + Wholes(w.B.shape[1..]))))
            && GetAll(Dense(w), [ix] + FullSlices(w.Dims() - 1)) == Some(Select(Dense(w), [b] + Wholes(w.Shape()[1..])))
  {
    var a, b := Normalise(ix, w.A.shape[0]).value, Normalise(ix, w.B.shape[0]).value;
    FirstSels(ix, w.A.shape, a);
    FirstSels(ix, w.B.shape, b);
    FirstSels(ix, w.Shape(), b);
  }

  /** Indexing the leading dimension of stacked tensors agrees with the product exactly
      when the index is `LeadKept`; always, when both factors are stacked. */
  lemma GetLeadDense(w: Lora, ix: PyIndex)
    requires w.Compatible() && GetOne(w, ix).Some? && w.Dims() > 2
    ensures Normalise(ix, w.A.shape[0]).Some? && Normalise(ix, w.B.shape[0]).Some?
    ensures var v, whole := GetOne(w, ix).value, GetAll(Dense(w), [ix] + FullSlices(w.Dims() - 1));
            whole.Some? && ((v.Compatible() && Same(Dense(v), whole.value)) <==> LeadKept(w, ix))
  {
    GetOneSels(w, ix);
    var a, b := Normalise(ix, w.A.shape[0]).value, Normalise(ix, w.B.shape[0]).value;
    if ix.Slice? && w.A.shape[0] != w.B.shape[0] && a.len == 0 {
      EmptiedLead(w, a, b);
    } else {
      SharedLeadMatches(w.A.shape[0], w.B.shape[0], ix);
      FirstLead(w, a, b);
    }
  }

  lemma SharedLeadMatches(sizeA: nat, sizeB: nat, ix: PyIndex)
    requires sizeA == 1 || sizeA == sizeB
    requires Normalise(ix, sizeA).Some? && Normalise(ix, sizeB).Some?
    requires sizeA == sizeB || ix.Int? || Normalise(ix, sizeA).value.len > 0
    ensures LeadMatches(sizeA, sizeB, Normalise(ix, sizeA).value, Normalise(ix, sizeB).value)
  {
    if ix.Slice? && sizeA == 1 && sizeA != sizeB {
      var a := Normalise(ix, 1).value;
      AtLeast(a.step, a.len - 1, a.len - 1);
    }
  }

  /** Slicing the rows of a plain factored tensor. */
  lemma GetRowsDense(w: Lora, ix: PyIndex)
    requires w.Compatible() && GetOne(w, ix).Some? && w.Dims() == 2
    ensures var v, whole := GetOne(w, ix).value, GetAll(Dense(w), [ix] + FullSlices(1));
            v.Compatible() && whole.Some? && Same(Dense(v), whole.value)
  {
    var sel := Normalise(ix, w.B.shape[0]).value;
    FirstSels(ix, w.B.shape, sel);
    FirstSels(ix, w.Shape(), sel);
    FirstRows(w, sel);
  }

  /** A tuple keeps rows and columns as dimensions, and its slices of leading dimensions
      restrict nothing that `A` has of its own. */
  ghost predicate Faithful(w: Lora, all: seq<PyIndex>)
    requires w.Valid() && |all| == w.Dims()
  {
    var n := w.Dims();
    && all[n - 2].Slice? && all[n - 1].Slice?
    && forall d :: 0 <= d < n - 2 && all[d].Slice? ==>
         w.A.shape[d] == 1
         || (Normalise(all[d], w.B.shape[d]).Some? && Normalise(all[d], w.B.shape[d]).value.len == w.B.shape[d])
  }

  /** The selections a tuple makes in each factor. */
  lemma TupleSels(w: Lora, ixs: seq<PyIndex>) returns (selsA: seq<Sel>, selsB: seq<Sel>, leads: seq<PyIndex>)
    requires w.Valid() && GetTuple(w, ixs).Some?
    ensures var n, all := w.Dims(), Padded(w, ixs);
            && |selsA| == |selsB| == n && |leads| == n - 2
            && GetTuple(w, ixs) == Make(Some(Select(w.A, selsA)), Some(Select(w.B, selsB)))
            && (forall d :: 0 <= d < n - 2 ==> LeadForA(all[d], w.A.shape[d]) == Some(leads[d]))
            && (forall d :: 0 <= d < n - 2 ==> Normalise(leads[d], w.A.shape[d]) == Some(selsA[d]))
            && (forall d :: 0 <= d < n - 1 ==> Normalise(all[d], w.B.shape[d]) == Some(selsB[d]))
            && Normalise(all[n - 1], w.A.shape[n - 1]) == Some(selsA[n - 1])
            && selsA[n - 2] == Whole(w.Rank()) == selsB[n - 1]
  {
    var n, all := w.Dims(), Padded(w, ixs);
    leads := LeadsForA(all[..n - 2], w.A.shape[..n - 2]).value;
    var ixsA, ixsB := leads + [FULL, all[n - 1]], all[..n - 1] + [FULL];
    selsA, selsB := NormaliseAll(ixsA, w.A.shape).value, NormaliseAll(ixsB, w.B.shape).value;
    NormaliseFull(w.Rank());
    assert Normalise(ixsA[n - 2], w.A.shape[n - 2]) == Some(selsA[n - 2]);
    assert Normalise(ixsB[n - 1], w.B.shape[n - 1]) == Some(selsB[n - 1]);
    assert Normalise(ixsA[n - 1], w.A.shape[n - 1]) == Some(selsA[n - 1]);
    forall d | 0 <= d < n - 2
      ensures LeadForA(all[d], w.A.shape[d]) == Some(leads[d]) && Normalise(leads[d], w.A.shape[d]) == Some(selsA[d])
    {
      assert all[..n - 2][d] == all[d] && w.A.shape[..n - 2][d] == w.A.shape[d];
      assert ixsA[d] == leads[d];
    }
    forall d | 0 <= d < n - 1 ensures Normalise(all[d], w.B.shape[d]) == Some(selsB[d]) {
      assert ixsB[d] == all[d];
    }
  }

  /** The same tuple taken of the product. */
  lemma TupleOfDense(w: Lora, all: seq<PyIndex>, selsB: seq<Sel>, col: Sel)
    requires w.Valid() && |all| == |selsB| == w.Dims()
    requires forall d :: 0 <= d < w.Dims() - 1 ==> Normalise(all[d], w.B.shape[d]) == Some(selsB[d])
    requires Normalise(all[w.Dims() - 1], w.A.shape[w.Dims() - 1]) == Some(col)
    ensures GetAll(Dense(w), all) == Some(Select(Dense(w), selsB[..w.Dims() - 1] + [col]))
  {
    var sels := selsB[..w.Dims() - 1] + [col];
    forall d | 0 <= d < w.Dims() ensures Normalise(all[d], w.Shape()[d]) == Some(sels[d]) {
    }
    NormaliseAllSome(all, w.Shape(), sels);
  }

  lemma LeadSelMatches(ix: PyIndex, sizeA: nat, sizeB: nat, x: PyIndex, a: Sel, b: Sel)
    requires sizeA == 1 || sizeA == sizeB
    requires LeadForA(ix, sizeA) == Some(x) && Normalise(x, sizeA) == Some(a) && Normalise(ix, sizeB) == Some(b)
    ensures ix.Int? ==> a.Pick? && b.Pick? && LeadMatches(sizeA, sizeB, a, b)
    ensures ix.Slice? ==> a == Whole(sizeA) && b.Range?
    ensures ix.Slice? && (sizeA == 1 || b.len == sizeB) ==> LeadMatches(sizeA, sizeB, a, b)
  {
    if ix.Slice? {
      NormaliseFull(sizeA);
    } else if sizeA == sizeB {
      WrapIndex(ix.i, sizeA);
    }
  }

  lemma WrapIndex(i: int, n: nat)
    requires n > 0 && -(n as int) <= i < n
    ensures i % n == if i < 0 then i + n else i
  {
    Multiples(n, i / n);
    assert i == n * (i / n) + i % n;
  }

  lemma Multiples(n: nat, q: int)
    ensures q >= 1 ==> n * q >= n
    ensures q <= -2 ==> n * q <= -2 * n
    ensures q == 0 ==> n * q == 0
    ensures q == -1 ==> n * q == -(n as int)
  {
    if q >= 1 {
      MulAtLeast(n, q, 1);
    } else if q <= -2 {
      MulAtLeast(n, -q, 2);
    }
  }

  lemma MulAtLeast(n: nat, q: int, m: int)
    requires q >= m
    ensures n * q >= n * m
  {
  }

  // Exactness of tuple indexing: shapes first.

  /** A leading slice that drops part of a size that `A` has of its own. */
  lemma {:induction false} DroppedSizeShows(sa: seq<nat>, sb: seq<nat>, a: seq<Sel>, b: seq<Sel>, d: nat)
    requires |sa| == |sb| == |a| == |b| && d < |a|
    requires forall e :: 0 <= e < |a| ==> (a[e].Pick? <==> b[e].Pick?) && (a[e].Range? ==> a[e].len == sa[e])
    requires b[d].Range? && sa[d] != 1 && b[d].len != sa[d]
    ensures |SelShape(a)| == |SelShape(b)|
    ensures exists p :: 0 <= p < |SelShape(a)| && SelShape(a)[p] != 1 && SelShape(a)[p] != SelShape(b)[p]
    decreases |a|
  {
    SameRanks(a, b);
    if d == 0 {
      ShapeCons(a);
      ShapeCons(b);
      assert SelShape(a)[0] == sa[0] && SelShape(b)[0] == b[0].len;
    } else {
      DroppedSizeShows(sa[1..], sb[1..], a[1..], b[1..], d - 1);
      var p :| 0 <= p < |SelShape(a[1..])| && SelShape(a[1..])[p] != 1 && SelShape(a[1..])[p] != SelShape(b[1..])[p];
      if a[0].Pick? {
        PickShape(a);
        PickShape(b);
      } else {
        ShapeCons(a);
        ShapeCons(b);
        assert SelShape(a)[p + 1] == SelShape(a[1..])[p] && SelShape(b)[p + 1] == SelShape(b[1..])[p];
      }
    }
  }

  lemma {:induction false} SameRanks(a: seq<Sel>, b: seq<Sel>)
    requires |a| == |b| && forall e :: 0 <= e < |a| ==> (a[e].Pick? <==> b[e].Pick?)
    ensures |SelShape(a)| == |SelShape(b)|
    decreases |a|
  {
    if a != [] {
      SameRanks(a[1..], b[1..]);
      if a[0].Pick? {
        PickShape(a);
        PickShape(b);
      } else {
        ShapeCons(a);
        ShapeCons(b);
      }
    }
  }

  lemma TwoShape(lead: seq<Sel>, p: Sel, q: Sel)
    ensures SelShape(lead + [p, q]) == SelShape(lead) + SelShape([p]) + SelShape([q])
    ensures |SelShape([p])| == (if p.Pick? then 0 else 1) && |SelShape([q])| == (if q.Pick? then 0 else 1)
  {
    assert lead + [p, q] == lead + [p] + [q];
    SelShapeAppend(lead + [p], [q]);
    SelShapeAppend(lead, [p]);
    OneShape(p);
    OneShape(q);
  }

  lemma OneShape(p: Sel)
    ensures |SelShape([p])| == if p.Pick? then 0 else 1
  {
    assert [p][1..] == [];
    assert SelShape([p][1..]) == [];
  }

  /** A tuple that takes a single row or column cannot agree with the product: the result
      is no factored tensor, or has a dimension too many. */
  lemma RowsAndColumnsStay(w: Lora, a: seq<Sel>, b: seq<Sel>, row: Sel, col: Sel)
    requires w.Valid() && |a| == |b| && forall e :: 0 <= e < |a| ==> (a[e].Pick? <==> b[e].Pick?)
    requires row.Pick? || col.Pick?
    ensures var v := Lora(Select(w.A, a + [Whole(w.Rank()), col]), Select(w.B, b + [row, Whole(w.Rank())]));
            v.Valid() ==> !Same(Dense(v), Select(Dense(w), b + [row, col]))
  {
    SameRanks(a, b);
    TwoShape(a, Whole(w.Rank()), col);
    TwoShape(b, row, Whole(w.Rank()));
    TwoShape(b, row, col);
  }

  /** Indexing by a tuple agrees with the product exactly when the tuple is `Faithful`. */
  lemma GetTupleDense(w: Lora, ixs: seq<PyIndex>)
    requires w.Compatible() && GetTuple(w, ixs).Some?
    ensures var v, whole := GetTuple(w, ixs).value, GetAll(Dense(w), Padded(w, ixs));
            && whole.Some?
            && ((v.Compatible() && Same(Dense(v), whole.value)) <==> Faithful(w, Padded(w, ixs)))
  {
    var a, b, row, col, leads := TupleParts(w, ixs);
    SelectionsMatch(w, Padded(w, ixs), leads, a, b);
    TupleOutcome(w, Padded(w, ixs), a, b, row, col);
  }

  lemma LastTwo(sels: seq<Sel>, last: Sel)
    requires |sels| >= 2
    ensures var n := |sels|;
            && sels == sels[..n - 2] + [sels[n - 2], sels[n - 1]]
            && sels[..n - 1] + [last] == sels[..n - 2] + [sels[n - 2], last]
  {
  }

  /** What a tuple takes of the leading dimensions, the rows and the columns. */
  lemma TupleParts(w: Lora, ixs: seq<PyIndex>)
      returns (a: seq<Sel>, b: seq<Sel>, row: Sel, col: Sel, leads: seq<PyIndex>)
    requires w.Valid() && GetTuple(w, ixs).Some?
    ensures var n, all := w.Dims(), Padded(w, ixs);
            && |a| == |b| == |leads| == n - 2
            && GetTuple(w, ixs)
                == Some(Lora(Select(w.A, a + [Whole(w.Rank()), col]), Select(w.B, b + [row, Whole(w.Rank())])))
            && GetAll(Dense(w), all) == Some(Select(Dense(w), b + [row, col]))
            && GetTuple(w, ixs).value.Valid()
            && (row.Range? <==> all[n - 2].Slice?) && (col.Range? <==> all[n - 1].Slice?)
            && (forall d :: 0 <= d < n - 2 ==> LeadForA(all[d], w.A.shape[d]) == Some(leads[d]))
            && (forall d :: 0 <= d < n - 2 ==> Normalise(leads[d], w.A.shape[d]) == Some(a[d]))
            && (forall d :: 0 <= d < n - 2 ==> Normalise(all[d], w.B.shape[d]) == Some(b[d]))
  {
    var n := w.Dims();
    var selsA, selsB;
    selsA, selsB, leads := TupleSels(w, ixs);
    a, b, row, col := selsA[..n - 2], selsB[..n - 2], selsB[n - 2], selsA[n - 1];
    LastTwo(selsA, col);
    LastTwo(selsB, col);
    TupleOfDense(w, Padded(w, ixs), selsB, col);
  }

  /** How a tuple's selections of the two factors relate, dimension by dimension. */
  ghost predicate TupleSelections(w: Lora, all: seq<PyIndex>, a: seq<Sel>, b: seq<Sel>)
    requires w.Valid() && |all| == w.Dims() && |a| == |b| == w.Dims() - 2
  {
    && (forall d :: 0 <= d < |a| ==> Normalise(all[d], w.B.shape[d]) == Some(b[d]))
    && (forall d :: 0 <= d < |a| && all[d].Int? ==>
          a[d].Pick? && b[d].Pick? && LeadMatches(w.A.shape[d], w.B.shape[d], a[d], b[d]))
    && (forall d :: 0 <= d < |a| && all[d].Slice? ==> a[d] == Whole(w.A.shape[d]) && b[d].Range?)
    && (forall d :: 0 <= d < |a| && all[d].Slice? && (w.A.shape[d] == 1 || b[d].len == w.B.shape[d]) ==>
          LeadMatches(w.A.shape[d], w.B.shape[d], a[d], b[d]))
  }

  lemma SelectionsMatch(w: Lora, all: seq<PyIndex>, leads: seq<PyIndex>, a: seq<Sel>, b: seq<Sel>)
    requires w.Compatible() && |all| == w.Dims() && |a| == |b| == |leads| == w.Dims() - 2
    requires forall d :: 0 <= d < |a| ==> LeadForA(all[d], w.A.shape[d]) == Some(leads[d])
    requires forall d :: 0 <= d < |a| ==> Normalise(leads[d], w.A.shape[d]) == Some(a[d])
    requires forall d :: 0 <= d < |a| ==> Normalise(all[d], w.B.shape[d]) == Some(b[d])
    ensures TupleSelections(w, all, a, b)
  {
    forall d | 0 <= d < |a|
      ensures all[d].Int? ==> a[d].Pick? && b[d].Pick? && LeadMatches(w.A.shape[d], w.B.shape[d], a[d], b[d])
      ensures all[d].Slice? ==> a[d] == Whole(w.A.shape[d]) && b[d].Range?
      ensures all[d].Slice? && (w.A.shape[d] == 1 || b[d].len == w.B.shape[d]) ==>
                LeadMatches(w.A.shape[d], w.B.shape[d], a[d], b[d])
    {
      LeadSelMatches(all[d], w.A.shape[d], w.B.shape[d], leads[d], a[d], b[d]);
    }
  }

  lemma FaithfulMatches(w: Lora, all: seq<PyIndex>, a: seq<Sel>, b: seq<Sel>)
    requires w.Compatible() && |all| == w.Dims() && |a| == |b| == w.Dims() - 2
    requires TupleSelections(w, all, a, b) && Faithful(w, all)
    ensures AllMatch(w.A.shape[..|a|], w.B.shape[..|a|], a, b)
  {
    forall d | 0 <= d < |a| ensures LeadMatches(w.A.shape[d], w.B.shape[d], a[d], b[d]) {
      assert all[d].Int? || all[d].Slice?;
    }
  }

  lemma DroppedIncompatible(w: Lora, all: seq<PyIndex>, a: seq<Sel>, b: seq<Sel>, row: Sel, col: Sel, d: nat)
    requires w.Compatible() && |all| == w.Dims() && |a| == |b| == w.Dims() - 2 && row.Range? && col.Range?
    requires TupleSelections(w, all, a, b) && d < |a| && all[d].Slice? && w.A.shape[d] != 1 && b[d].len != w.B.shape[d]
    ensures !Lora(Select(w.A, a + [Whole(w.Rank()), col]), Select(w.B, b + [row, Whole(w.Rank())])).Compatible()
  {
    forall e | 0 <= e < |a| ensures (a[e].Pick? <==> b[e].Pick?) && (a[e].Range? ==> a[e].len == w.A.shape[e]) {
      assert all[e].Int? || all[e].Slice?;
    }
    DroppedSizeShows(w.A.shape[..|a|], w.B.shape[..|a|], a, b, d);
    SelShapeAppend(a, [Whole(w.Rank()), col]);
    SelShapeAppend(b, [row, Whole(w.Rank())]);
    TwoRanges(Whole(w.Rank()), col, 0, 0);
    TwoRanges(row, Whole(w.Rank()), 0, 0);
    ShowsIncompatible(SelShape(a), SelShape(b), w.Rank(), col.len, row.len,
                      Lora(Select(w.A, a + [Whole(w.Rank()), col]), Select(w.B, b + [row, Whole(w.Rank())])));
  }

  lemma ShowsIncompatible(ra: seq<nat>, rb: seq<nat>, rank: nat, cols: nat, rows: nat, v: Lora)
    requires |ra| == |rb| && v.A.shape == ra + [rank, cols] && v.B.shape == rb + [rows, rank]
    requires exists p :: 0 <= p < |ra| && ra[p] != 1 && ra[p] != rb[p]
    ensures !v.Compatible()
  {
    var p :| 0 <= p < |ra| && ra[p] != 1 && ra[p] != rb[p];
    assert v.A.shape[p] == ra[p] && v.B.shape[p] == rb[p];
  }

  lemma TupleOutcome(w: Lora, all: seq<PyIndex>, a: seq<Sel>, b: seq<Sel>, row: Sel, col: Sel)
    requires w.Compatible() && |all| == w.Dims() && |a| == |b| == w.Dims() - 2
    requires TupleSelections(w, all, a, b)
    requires (row.Range? <==> all[|a|].Slice?) && (col.Range? <==> all[|a| + 1].Slice?)
    requires Lora(Select(w.A, a + [Whole(w.Rank()), col]), Select(w.B, b + [row, Whole(w.Rank())])).Valid()
    ensures var v := Lora(Select(w.A, a + [Whole(w.Rank()), col]), Select(w.B, b + [row, Whole(w.Rank())]));
            (v.Compatible() && Same(Dense(v), Select(Dense(w), b + [row, col]))) <==> Faithful(w, all)
  {
    if row.Pick? || col.Pick? {
      forall e | 0 <= e < |a| ensures a[e].Pick? <==> b[e].Pick? {
        assert all[e].Int? || all[e].Slice?;
      }
      RowsAndColumnsStay(w, a, b, row, col);
    } else if Faithful(w, all) {
      FaithfulMatches(w, all, a, b);
      SelectDense(w, a, b, row, col);
    } else {
      var d :| 0 <= d < |a| && all[d].Slice? && w.A.shape[d] != 1 && b[d].len != w.B.shape[d];
      DroppedIncompatible(w, all, a, b, row, col, d);
    }
  }

  const FIRST := Slice(Some(0), Some(1), None)

  lemma FirstOfTwo()
    ensures LeadsForA([FIRST], [2]) == Some([FULL])
    ensures NormaliseAll([FULL, FULL, FULL], [2, 1, 1]) == Some([Whole(2), Whole(1), Whole(1)])
    ensures NormaliseAll([FIRST, FULL, FULL], [2, 1, 1]) == Some([Range(0, 1, 1), Whole(1), Whole(1)])
  {
    assert LeadsForA([FIRST][1..], [2][1..]) == Some([]);
    assert [FULL] + [] == [FULL];
    NormaliseFull(1);
    NormaliseFull(2);
    assert CeilDiv(1, 1) == 1;
    NormaliseAllSome([FULL, FULL, FULL], [2, 1, 1], [Whole(2), Whole(1), Whole(1)]);
    NormaliseAllSome([FIRST, FULL, FULL], [2, 1, 1], [Range(0, 1, 1), Whole(1), Whole(1)]);
  }

  lemma ThreeRanges(p: Sel, q: Sel, r: Sel)
    requires p.Range? && q.Range? && r.Range?
    ensures SelShape([p, q, r]) == [p.len, q.len, r.len]
  {
    assert [p, q, r][1..] == [q, r];
    TwoRanges(q, r, 0, 0);
    ShapeCons([p, q, r]);
  }

  lemma FirstPadded(one: Tensor)
    requires one.shape == [2, 1, 1]
    ensures Lora(one, one).Compatible() && Padded(Lora(one, one), [FIRST, FULL, FULL]) == [FIRST, FULL, FULL]
  {
  }

  lemma FirstIsTaken(one: Tensor)
    requires one.shape == [2, 1, 1]
    ensures Lora(one, one).Compatible() && GetTuple(Lora(one, one), [FIRST, FULL, FULL]).Some?
  {
    var ixs := [FIRST, FULL, FULL];
    FirstOfTwo();
    FirstPadded(one);
    assert ixs[..1] == [FIRST] && ixs[..2] == [FIRST, FULL] && one.shape[..1] == [2];
    assert [FULL] + [FULL, FULL] == [FULL, FULL, FULL] && [FIRST, FULL] + [FULL] == ixs;
    ThreeRanges(Whole(2), Whole(1), Whole(1));
    ThreeRanges(Range(0, 1, 1), Whole(1), Whole(1));
  }

  /** `w[0:1, :, :]` of two stacked 1x1 tensors: `A` keeps both, `B` only the first. */
  lemma LeadingSliceDiffers()
    ensures var one := Tensor([2, 1, 1], _ => 1.0);
            var w, ixs := Lora(one, one), [FIRST, FULL, FULL];
            && w.Compatible() && GetTuple(w, ixs).Some? && GetAll(Dense(w), ixs).Some?
            && !(GetTuple(w, ixs).value.Compatible()
                && Same(Dense(GetTuple(w, ixs).value), GetAll(Dense(w), ixs).value))
  {
    var one := Tensor([2, 1, 1], _ => 1.0);
    FirstOfTwo();
    FirstPadded(one);
    FirstIsTaken(one);
    GetTupleDense(Lora(one, one), [FIRST, FULL, FULL]);
    assert !Faithful(Lora(one, one), [FIRST, FULL, FULL]);
  }

  /** `w[1:]` where the stacked `B` shares a single `A`: the slice empties `A`. */
  lemma SharedSliceDiffers()
    ensures var w := Lora(Tensor([1, 1, 1], _ => 1.0), Tensor([2, 1, 1], _ => 1.0));
            var ix := Slice(Some(1), None, None);
            w.Compatible() && GetOne(w, ix).Some? && !GetOne(w, ix).value.Compatible()
  {
    var w := Lora(Tensor([1, 1, 1], _ => 1.0), Tensor([2, 1, 1], _ => 1.0));
    var ix := Slice(Some(1), None, None);
    assert CeilDiv(1, 1) == 1;
    FirstSels(ix, w.A.shape, Range(1, 0, 1));
    FirstSels(ix, w.B.shape, Range(1, 1, 1));
    EmptiedLead(w, Range(1, 0, 1), Range(1, 1, 1));
  }
}
