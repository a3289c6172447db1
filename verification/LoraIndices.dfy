/**
 Which indices of the product the factored tensor accepts, and what an ellipsis in a tuple
 comes to.
 */
module LoraIndices {
  import opened Text
  import opened LoraTensor
  import opened LoraViews

  // ----- A single index -----

  /** An index of the first dimension of the product. */
  predicate Fits(w: Lora, ix: PyIndex)
    requires w.Valid()
  {
    Normalise(ix, w.Shape()[0]).Some?
  }

  /** Of those, the integers that take a row are refused, and so are the integers other than
      0 and -1 where `A` shares the dimension. */
  predicate OneAccepted(w: Lora, ix: PyIndex)
    requires w.Valid()
  {
    if w.Dims() == 2 then ix.Slice? else ix.Slice? || w.A.shape[0] == w.B.shape[0] || ix.i == 0 || ix.i == -1
  }

  lemma NormaliseBoth(ix: PyIndex, sizeA: nat, sizeB: nat)
    requires sizeA == 1 || sizeA == sizeB
    requires Normalise(ix, sizeB).Some?
    ensures Normalise(ix, sizeA).Some? <==> ix.Slice? || sizeA == sizeB || ix.i == 0 || ix.i == -1
  {
  }

  lemma {:induction false} NormaliseAllAccepts(ixs: seq<PyIndex>, shape: seq<nat>)
    requires |ixs| == |shape|
    ensures NormaliseAll(ixs, shape).Some? <==> forall d :: 0 <= d < |ixs| ==> Normalise(ixs[d], shape[d]).Some?
    decreases |ixs|
  {
    if ixs != [] {
      NormaliseAllAccepts(ixs[1..], shape[1..]);
      assert forall d :: 0 < d < |ixs| ==> ixs[d] == ixs[1..][d - 1] && shape[d] == shape[1..][d - 1];
      assert forall d :: 0 <= d < |ixs| - 1 ==> ixs[1..][d] == ixs[d + 1] && shape[1..][d] == shape[d + 1];
    }
  }

  lemma FirstAccepts(ix: PyIndex, shape: seq<nat>)
    requires shape != []
    ensures NormaliseAll([ix] + FullSlices(|shape| - 1), shape).Some? <==> Normalise(ix, shape[0]).Some?
  {
    var ixs := [ix] + FullSlices(|shape| - 1);
    NormaliseAllAccepts(ixs, shape);
    forall d | 0 < d < |shape| ensures Normalise(ixs[d], shape[d]).Some? {
      NormaliseFull(shape[d]);
    }
    assert ixs[0] == ix;
  }

  /** What the index is made of, when both factors take it. */
  lemma OneIsMade(w: Lora, ix: PyIndex, a: Sel, b: Sel)
    requires w.Valid() && w.Dims() > 2
    requires Normalise(ix, w.A.shape[0]) == Some(a) && Normalise(ix, w.B.shape[0]) == Some(b)
    ensures GetOne(w, ix)
         == Make(Some(Select(w.A, [a] + Wholes(w.A.shape[1..]))), Some(Select(w.B, [b] + Wholes(w.B.shape[1..]))))
  {
    TakenAtFront(w.A, ix, a);
    TakenAtFront(w.B, ix, b);
    TwoFactors(w, ix);
  }

  lemma TakenAtFront(t: Tensor, ix: PyIndex, sel: Sel)
    requires t.shape != [] && Normalise(ix, t.shape[0]) == Some(sel)
    ensures GetAll(t, [ix] + FullSlices(|t.shape| - 1)) == Some(Select(t, [sel] + Wholes(t.shape[1..])))
  {
    FirstSels(ix, t.shape, sel);
  }

  lemma TwoFactors(w: Lora, ix: PyIndex)
    requires w.Valid() && w.Dims() > 2
    ensures GetOne(w, ix)
         == Make(GetAll(w.A, [ix] + FullSlices(|w.A.shape| - 1)), GetAll(w.B, [ix] + FullSlices(|w.B.shape| - 1)))
  {
  }

  lemma MadeWhenValid(a: Tensor, b: Tensor)
    ensures Make(Some(a), Some(b)).Some? <==> Lora(a, b).Valid()
  {
  }

  lemma SelectedIsValid(w: Lora, ix: PyIndex, a: Sel, b: Sel)
    requires w.Compatible() && w.Dims() > 2
    requires Normalise(ix, w.A.shape[0]) == Some(a) && Normalise(ix, w.B.shape[0]) == Some(b)
    ensures Lora(Select(w.A, [a] + Wholes(w.A.shape[1..])), Select(w.B, [b] + Wholes(w.B.shape[1..]))).Valid()
  {
    if ix.Slice? && w.A.shape[0] != w.B.shape[0] && a.len == 0 {
      EmptiedLead(w, a, b);
    } else {
      SharedLeadMatches(w.A.shape[0], w.B.shape[0], ix);
      FirstLead(w, a, b);
    }
  }

  lemma LeadAccepted(w: Lora, ix: PyIndex, a: Sel, b: Sel)
    requires w.Compatible() && w.Dims() > 2
    requires Normalise(ix, w.A.shape[0]) == Some(a) && Normalise(ix, w.B.shape[0]) == Some(b)
    ensures GetOne(w, ix).Some?
  {
    SelectedIsValid(w, ix, a, b);
    OneIsMade(w, ix, a, b);
    MadeWhenValid(Select(w.A, [a] + Wholes(w.A.shape[1..])), Select(w.B, [b] + Wholes(w.B.shape[1..])));
  }

  lemma LeadAccepts(w: Lora, ix: PyIndex)
    requires w.Compatible() && w.Dims() > 2
    ensures GetOne(w, ix).Some? <==> Fits(w, ix) && OneAccepted(w, ix)
  {
    FirstAccepts(ix, w.A.shape);
    FirstAccepts(ix, w.B.shape);
    if Fits(w, ix) {
      NormaliseBoth(ix, w.A.shape[0], w.B.shape[0]);
      if OneAccepted(w, ix) {
        LeadAccepted(w, ix, Normalise(ix, w.A.shape[0]).value, Normalise(ix, w.B.shape[0]).value);
      }
    }
  }

  lemma RowsAccept(w: Lora, ix: PyIndex)
    requires w.Compatible() && w.Dims() == 2
    ensures GetOne(w, ix).Some? <==> Fits(w, ix) && ix.Slice?
  {
    FirstAccepts(ix, w.B.shape);
    if Fits(w, ix) && ix.Slice? {
      var sel := Normalise(ix, w.B.shape[0]).value;
      FirstSels(ix, w.B.shape, sel);
      FirstRows(w, sel);
    }
  }

  /** A single index or slice is accepted exactly when the product takes it and it is none
      of the refused ones. */
  lemma GetOneAccepts(w: Lora, ix: PyIndex)
    requires w.Compatible()
    ensures GetOne(w, ix).Some? <==> Fits(w, ix) && OneAccepted(w, ix)
  {
    if w.Dims() > 2 {
      LeadAccepts(w, ix);
    } else {
      RowsAccept(w, ix);
    }
  }

  /** `Fits` says what the product takes. */
  lemma ProductTakes(w: Lora, ix: PyIndex)
    requires w.Valid()
    ensures GetAll(Dense(w), [ix] + FullSlices(w.Dims() - 1)).Some? <==> Fits(w, ix)
  {
    FirstAccepts(ix, w.Shape());
    TakenOrNot(Dense(w), [ix] + FullSlices(w.Dims() - 1));
  }

  lemma TakenOrNot(t: Tensor, ixs: seq<PyIndex>)
    requires |ixs| == |t.shape|
    ensures GetAll(t, ixs).Some? <==> NormaliseAll(ixs, t.shape).Some?
  {
  }

  // ----- A tuple -----

  lemma {:induction false} LeadsAccept(ixs: seq<PyIndex>, shape: seq<nat>)
    requires |ixs| == |shape| && forall d :: 0 <= d < |ixs| ==> LeadForA(ixs[d], shape[d]).Some?
    ensures LeadsForA(ixs, shape).Some?
    decreases |ixs|
  {
    if ixs != [] {
      LeadsAccept(ixs[1..], shape[1..]);
    }
  }

  /** A leading index that the product takes is taken of `A`, too. */
  lemma LeadTaken(ix: PyIndex, sizeA: nat, sizeB: nat)
    requires sizeA == 1 || sizeA == sizeB
    requires Normalise(ix, sizeB).Some?
    ensures LeadForA(ix, sizeA).Some? && Normalise(LeadForA(ix, sizeA).value, sizeA).Some?
  {
    NormaliseFull(sizeA);
  }

  /** The product takes each entry of a tuple. */
  ghost predicate AllTaken(w: Lora, all: seq<PyIndex>)
    requires w.Valid() && |all| == w.Dims()
  {
    forall d :: 0 <= d < |all| ==> Normalise(all[d], w.Shape()[d]).Some?
  }

  /** The kinds of the selections `a` of `A` and `b` of `B` are those of the tuple. */
  ghost predicate Kinds(w: Lora, all: seq<PyIndex>, a: seq<Sel>, b: seq<Sel>)
    requires w.Valid() && |all| == w.Dims()
  {
    var n := w.Dims();
    && |a| == |b| == n
    && a[n - 2] == Whole(w.Rank()) == b[n - 1]
    && (b[n - 2].Range? <==> all[n - 2].Slice?) && (a[n - 1].Range? <==> all[n - 1].Slice?)
    && (forall d :: 0 <= d < n - 2 ==> (a[d].Pick? <==> all[d].Int?) && (b[d].Pick? <==> all[d].Int?))
    && (forall d :: 0 <= d < n - 2 && all[d].Slice? ==> a[d] == Whole(w.A.shape[d]))
  }

  /** The selections of a tuple that the product takes. */
  lemma TupleTaken(w: Lora, ixs: seq<PyIndex>) returns (a: seq<Sel>, b: seq<Sel>)
    requires w.Compatible() && 0 < |ixs| <= w.Dims() && AllTaken(w, Padded(w, ixs))
    ensures GetTuple(w, ixs) == Make(Some(Select(w.A, a)), Some(Select(w.B, b)))
    ensures Kinds(w, Padded(w, ixs), a, b)
  {
    var leads;
    leads, a, b := SelectionsTaken(w, Padded(w, ixs));
    TupleIsMade(w, ixs, leads, a, b);
  }

  lemma SelectionsTaken(w: Lora, all: seq<PyIndex>) returns (leads: seq<PyIndex>, a: seq<Sel>, b: seq<Sel>)
    requires w.Compatible() && |all| == w.Dims() && AllTaken(w, all)
    ensures var n := w.Dims();
            && |leads| == n - 2 && LeadsForA(all[..n - 2], w.A.shape[..n - 2]) == Some(leads)
            && NormaliseAll(leads + [FULL, all[n - 1]], w.A.shape) == Some(a)
            && NormaliseAll(all[..n - 1] + [FULL], w.B.shape) == Some(b)
            && Kinds(w, all, a, b)
  {
    var n := w.Dims();
    LeadsTaken(w, all);
    leads := LeadsForA(all[..n - 2], w.A.shape[..n - 2]).value;
    FactorSelections(w, all, leads);
    a := NormaliseAll(leads + [FULL, all[n - 1]], w.A.shape).value;
    b := NormaliseAll(all[..n - 1] + [FULL], w.B.shape).value;
    SelectionKinds(w, all, leads, a, b);
  }

  lemma TupleIsMade(w: Lora, ixs: seq<PyIndex>, leads: seq<PyIndex>, selsA: seq<Sel>, selsB: seq<Sel>)
    requires w.Valid() && 0 < |ixs| <= w.Dims() && |leads| == w.Dims() - 2
    requires var n, all := w.Dims(), Padded(w, ixs);
             && LeadsForA(all[..n - 2], w.A.shape[..n - 2]) == Some(leads)
             && NormaliseAll(leads + [FULL, all[n - 1]], w.A.shape) == Some(selsA)
             && NormaliseAll(all[..n - 1] + [FULL], w.B.shape) == Some(selsB)
    ensures GetTuple(w, ixs) == Make(Some(Select(w.A, selsA)), Some(Select(w.B, selsB)))
  {
  }

  lemma LeadsTaken(w: Lora, all: seq<PyIndex>)
    requires w.Compatible() && |all| == w.Dims()
    requires AllTaken(w, all)
    ensures var n := w.Dims();
            var leads := LeadsForA(all[..n - 2], w.A.shape[..n - 2]);
            leads.Some? && forall d :: 0 <= d < n - 2 ==>
              LeadForA(all[d], w.A.shape[d]) == Some(leads.value[d]) && Normalise(leads.value[d], w.A.shape[d]).Some?
  {
    var n := w.Dims();
    var ixs, sizes := all[..n - 2], w.A.shape[..n - 2];
    forall d | 0 <= d < n - 2 ensures LeadForA(ixs[d], sizes[d]).Some? {
      LeadOfA(w, all, d);
    }
    LeadsAccept(ixs, sizes);
    var leads := LeadsForA(ixs, sizes).value;
    forall d | 0 <= d < n - 2
      ensures LeadForA(all[d], w.A.shape[d]) == Some(leads[d]) && Normalise(leads[d], w.A.shape[d]).Some?
    {
      LeadOfA(w, all, d);
    }
  }

  lemma LeadOfA(w: Lora, all: seq<PyIndex>, d: nat)
    requires w.Compatible() && |all| == w.Dims() && d < w.Dims() - 2 && Normalise(all[d], w.Shape()[d]).Some?
    ensures var ixs, sizes := all[..w.Dims() - 2], w.A.shape[..w.Dims() - 2];
            && ixs[d] == all[d] && sizes[d] == w.A.shape[d] && LeadForA(ixs[d], sizes[d]).Some?
            && Normalise(LeadForA(ixs[d], sizes[d]).value, sizes[d]).Some?
  {
    assert w.Shape()[d] == w.B.shape[d];
    LeadTaken(all[d], w.A.shape[d], w.B.shape[d]);
  }

  /** Both factors take their parts of the tuple. */
  lemma FactorSelections(w: Lora, all: seq<PyIndex>, leads: seq<PyIndex>)
    requires w.Compatible() && |all| == w.Dims() && |leads| == w.Dims() - 2
    requires AllTaken(w, all)
    requires forall d :: 0 <= d < |leads| ==> Normalise(leads[d], w.A.shape[d]).Some?
    ensures NormaliseAll(leads + [FULL, all[w.Dims() - 1]], w.A.shape).Some?
    ensures NormaliseAll(all[..w.Dims() - 1] + [FULL], w.B.shape).Some?
  {
    var n := w.Dims();
    var ixsA, ixsB := leads + [FULL, all[n - 1]], all[..n - 1] + [FULL];
    NormaliseFull(w.Rank());
    forall d | 0 <= d < n ensures Normalise(ixsA[d], w.A.shape[d]).Some? {
      assert d < n - 2 ==> ixsA[d] == leads[d];
      assert w.Shape()[n - 1] == w.A.shape[n - 1];
    }
    forall d | 0 <= d < n ensures Normalise(ixsB[d], w.B.shape[d]).Some? {
      assert d < n - 1 ==> ixsB[d] == all[d] && w.Shape()[d] == w.B.shape[d];
    }
    NormaliseAllAccepts(ixsA, w.A.shape);
    NormaliseAllAccepts(ixsB, w.B.shape);
  }

  lemma SelectionKinds(w: Lora, all: seq<PyIndex>, leads: seq<PyIndex>, selsA: seq<Sel>, selsB: seq<Sel>)
    requires w.Compatible() && |all| == w.Dims() && |leads| == w.Dims() - 2
    requires forall d :: 0 <= d < |leads| ==> LeadForA(all[d], w.A.shape[d]) == Some(leads[d])
    requires NormaliseAll(leads + [FULL, all[w.Dims() - 1]], w.A.shape) == Some(selsA)
    requires NormaliseAll(all[..w.Dims() - 1] + [FULL], w.B.shape) == Some(selsB)
    ensures Kinds(w, all, selsA, selsB)
  {
    var n := w.Dims();
    var ixsA, ixsB := leads + [FULL, all[n - 1]], all[..n - 1] + [FULL];
    NormaliseFull(w.Rank());
    assert Normalise(ixsA[n - 2], w.A.shape[n - 2]) == Some(selsA[n - 2]);
    assert Normalise(ixsA[n - 1], w.A.shape[n - 1]) == Some(selsA[n - 1]);
    assert Normalise(ixsB[n - 2], w.B.shape[n - 2]) == Some(selsB[n - 2]);
    assert Normalise(ixsB[n - 1], w.B.shape[n - 1]) == Some(selsB[n - 1]);
    forall d | 0 <= d < n - 2
      ensures (selsA[d].Pick? <==> all[d].Int?) && (selsB[d].Pick? <==> all[d].Int?)
      ensures all[d].Slice? ==> selsA[d] == Whole(w.A.shape[d])
    {
      assert Normalise(ixsA[d], w.A.shape[d]) == Some(selsA[d]) && ixsA[d] == leads[d];
      assert Normalise(ixsB[d], w.B.shape[d]) == Some(selsB[d]) && ixsB[d] == all[d];
      NormaliseFull(w.A.shape[d]);
    }
  }

  /** The size that the last kept one of some dimensions has. */
  predicate LastKeptIs(all: seq<PyIndex>, sizes: seq<nat>, size: nat)
    requires |all| <= |sizes|
  {
    exists d :: 0 <= d < |all| && all[d].Slice? && sizes[d] == size && forall e :: d < e < |all| ==> all[e].Int?
  }

  lemma {:induction false} LastKept(a: seq<Sel>, all: seq<PyIndex>, sizes: seq<nat>, size: nat)
    requires |a| == |all| <= |sizes|
    requires forall d :: 0 <= d < |a| ==> (a[d].Pick? <==> all[d].Int?) && (a[d].Range? ==> a[d].len == sizes[d])
    ensures var s := SelShape(a); (s != [] && s[|s| - 1] == size) <==> LastKeptIs(all, sizes, size)
    decreases |a|
  {
    if a != [] {
      var n := |a| - 1;
      var front, last := a[..n], a[n];
      assert a == front + [last];
      SelShapeAppend(front, [last]);
      OneShape(last);
      if last.Range? {
        OneRange(last, 0);
      } else {
        LastKept(front, all[..n], sizes, size);
        assert SelShape([last]) == [] && SelShape(a) == SelShape(front) + [] == SelShape(front);
        LastKeptFront(all, sizes, size);
      }
    }
  }

  lemma LastKeptFront(all: seq<PyIndex>, sizes: seq<nat>, size: nat)
    requires 0 < |all| <= |sizes| && all[|all| - 1].Int?
    ensures LastKeptIs(all, sizes, size) <==> LastKeptIs(all[..|all| - 1], sizes, size)
  {
    var front := all[..|all| - 1];
    if LastKeptIs(all, sizes, size) {
      var d :| 0 <= d < |all| && all[d].Slice? && sizes[d] == size && forall e :: d < e < |all| ==> all[e].Int?;
      assert front[d].Slice?;
    }
    if LastKeptIs(front, sizes, size) {
      var d :| 0 <= d < |front| && front[d].Slice? && sizes[d] == size && forall e :: d < e < |front| ==> front[e].Int?;
      assert all[d].Slice?;
      forall e | d < e < |all| ensures all[e].Int? {
        assert e < |front| ==> all[e] == front[e];
      }
    }
  }

  /** The tuple keeps both rows and columns, or it takes one of each and what remains of `A`
      passes for a factor: its last kept leading size is the rank. */
  predicate TupleAccepted(w: Lora, all: seq<PyIndex>)
    requires w.Valid() && |all| == w.Dims()
  {
    var n := w.Dims();
    if all[n - 2].Slice? && all[n - 1].Slice? then true
    else all[n - 2].Int? && all[n - 1].Int? && LastKeptIs(all[..n - 2], w.A.shape, w.Rank())
  }

  /** A tuple that the product takes is accepted exactly then; in particular never when it
      takes a single row or a single column. */
  lemma GetTupleAccepts(w: Lora, ixs: seq<PyIndex>)
    requires w.Compatible() && 0 < |ixs| <= w.Dims() && GetAll(Dense(w), Padded(w, ixs)).Some?
    ensures GetTuple(w, ixs).Some? <==> TupleAccepted(w, Padded(w, ixs))
  {
    TakenOrNot(Dense(w), Padded(w, ixs));
    NormaliseAllAccepts(Padded(w, ixs), w.Shape());
    var a, b := TupleTaken(w, ixs);
    KindsDecide(w, Padded(w, ixs), a, b);
    MadeWhenValid(Select(w.A, a), Select(w.B, b));
  }

  lemma KindsDecide(w: Lora, all: seq<PyIndex>, a: seq<Sel>, b: seq<Sel>)
    requires w.Valid() && |all| == w.Dims() && Kinds(w, all, a, b)
    ensures Lora(Select(w.A, a), Select(w.B, b)).Valid() <==> TupleAccepted(w, all)
  {
    var n := w.Dims();
    LastTwo(a, a[n - 1]);
    LastTwo(b, b[n - 1]);
    assert forall d :: 0 <= d < n - 2 ==> all[..n - 2][d] == all[d];
    SameRanks(a[..n - 2], b[..n - 2]);
    LastKept(a[..n - 2], all[..n - 2], w.A.shape, w.Rank());
    FactorShapes(a[..n - 2], b[..n - 2], b[n - 2], a[n - 1], w.Rank());
  }

  lemma FactorShapes(a: seq<Sel>, b: seq<Sel>, row: Sel, col: Sel, rank: nat)
    ensures SelShape(a + [Whole(rank), col]) == SelShape(a) + (if col.Range? then [rank, col.len] else [rank])
    ensures SelShape(b + [row, Whole(rank)]) == SelShape(b) + (if row.Range? then [row.len, rank] else [rank])
  {
    SelShapeAppend(a, [Whole(rank), col]);
    SelShapeAppend(b, [row, Whole(rank)]);
    TwoKept(Whole(rank), col);
    TwoKept(row, Whole(rank));
  }

  lemma TwoKept(p: Sel, q: Sel)
    ensures SelShape([p, q]) == (if p.Range? then [p.len] else []) + (if q.Range? then [q.len] else [])
  {
    OneKept(q);
    OneKept(p);
    assert [p, q] == [p] + [q];
    SelShapeAppend([p], [q]);
  }

  lemma OneKept(p: Sel)
    ensures SelShape([p]) == if p.Range? then [p.len] else []
  {
    OneShape(p);
    if p.Range? {
      OneRange(p, 0);
    }
  }

  // ----- An ellipsis in a tuple -----

  /** The tuple `pre, ..., post` as the code expands it for a tensor of `rank` dimensions:
      an ellipsis at the end is dropped, another one stands for as many full slices as there
      are other entries, and full slices fill what is missing. */
  function AsWritten(pre: seq<PyIndex>, post: seq<PyIndex>, rank: nat): Option<seq<PyIndex>> {
    var items := if post == [] then pre else pre + FullSlices(|pre| + |post|) + post;
    if items == [] || |items| > rank then None else Some(items + FullSlices(rank - |items|))
  }

  /** What an ellipsis stands for: the dimensions that are not mentioned. */
  function AsMeant(pre: seq<PyIndex>, post: seq<PyIndex>, rank: nat): seq<PyIndex>
    requires |pre| + |post| <= rank
  {
    pre + FullSlices(rank - |pre| - |post|) + post
  }

  /** The two expansions select the same along every dimension. */
  predicate SelectSame(a: seq<PyIndex>, b: seq<PyIndex>, shape: seq<nat>) {
    |a| == |b| == |shape| && forall d :: 0 <= d < |shape| ==> Normalise(a[d], shape[d]) == Normalise(b[d], shape[d])
  }

  predicate MeansSame(pre: seq<PyIndex>, post: seq<PyIndex>, shape: seq<nat>)
    requires |pre| + |post| <= |shape|
  {
    var written := AsWritten(pre, post, |shape|);
    written.Some? && SelectSame(written.value, AsMeant(pre, post, |shape|), shape)
  }

  /** The entry at a place that may lie in front of the entries or behind them. */
  function EntryAt(post: seq<PyIndex>, j: int): PyIndex {
    if 0 <= j < |post| then post[j] else FULL
  }

  /** Moving the entries `k` places back changes no selection on the last dimensions `shape`. */
  predicate ShiftSelectsSame(post: seq<PyIndex>, k: nat, shape: seq<nat>) {
    |shape| == |post| + k
    && forall j :: 0 <= j < |shape|
        ==> Normalise(EntryAt(post, j), shape[j]) == Normalise(EntryAt(post, j - k), shape[j])
  }

  /** An entry selects the whole dimension. */
  predicate SelectsWhole(ix: PyIndex, n: nat) {
    Normalise(ix, n) == Some(Whole(n))
  }

  lemma WrittenAt(pre: seq<PyIndex>, post: seq<PyIndex>, rank: nat, d: nat)
    requires AsWritten(pre, post, rank).Some? && post != [] && d < rank
    ensures var front := 2 * |pre| + |post|;
            AsWritten(pre, post, rank).value[d] == if d < |pre| then pre[d] else EntryAt(post, d - front)
  {
  }

  lemma MeantAt(pre: seq<PyIndex>, post: seq<PyIndex>, rank: nat, d: nat)
    requires |pre| + |post| <= rank && d < rank
    ensures AsMeant(pre, post, rank)[d] == if d < |pre| then pre[d] else EntryAt(post, d - (rank - |post|))
  {
  }

  /** An ellipsis means what it should if and only if it ends the tuple behind other entries,
      or the other entries are at most half of the dimensions and those behind it may as well
      stand where they are put. */
  lemma EllipsisMeans(pre: seq<PyIndex>, post: seq<PyIndex>, shape: seq<nat>)
    requires |pre| + |post| <= |shape|
    ensures MeansSame(pre, post, shape)
       <==> var e := |pre| + |post|;
            if post == [] then pre != []
            else 2 * e <= |shape| && ShiftSelectsSame(post, |shape| - 2 * e, shape[|pre| + e..])
  {
    var e, rank := |pre| + |post|, |shape|;
    if post == [] {
      assert AsMeant(pre, post, rank) == pre + FullSlices(rank - |pre|);
    } else if 2 * e <= rank {
      ExpandedSame(pre, post, shape);
    }
  }

  lemma ExpandedSame(pre: seq<PyIndex>, post: seq<PyIndex>, shape: seq<nat>)
    requires post != [] && 2 * (|pre| + |post|) <= |shape|
    ensures MeansSame(pre, post, shape)
       <==> ShiftSelectsSame(post, |shape| - 2 * (|pre| + |post|), shape[2 * |pre| + |post|..])
  {
    var rank, front := |shape|, 2 * |pre| + |post|;
    var written, meant, k := AsWritten(pre, post, rank).value, AsMeant(pre, post, rank), rank - 2 * (|pre| + |post|);
    forall d | 0 <= d < rank
      ensures written[d] == if d < |pre| then pre[d] else EntryAt(post, d - front)
      ensures meant[d] == if d < |pre| then pre[d] else EntryAt(post, d - front - k)
    {
      WrittenAt(pre, post, rank, d);
      MeantAt(pre, post, rank, d);
    }
    if MeansSame(pre, post, shape) {
      forall j | 0 <= j < |post| + k
        ensures Normalise(EntryAt(post, j), shape[front..][j]) == Normalise(EntryAt(post, j - k), shape[front..][j])
      {
        assert Normalise(written[front + j], shape[front + j]) == Normalise(meant[front + j], shape[front + j]);
      }
    }
  }

  /** If they are moved by at least their number, each must be full where it is put and
      where it belongs. */
  lemma FarShift(post: seq<PyIndex>, k: nat, shape: seq<nat>)
    requires |post| <= k && |shape| == |post| + k
    ensures ShiftSelectsSame(post, k, shape)
       <==> forall j :: 0 <= j < |post| ==> SelectsWhole(post[j], shape[j]) && SelectsWhole(post[j], shape[j + k])
  {
    forall n: nat ensures SelectsWhole(FULL, n) {
      NormaliseFull(n);
    }
    if ShiftSelectsSame(post, k, shape) {
      forall j | 0 <= j < |post| ensures SelectsWhole(post[j], shape[j]) && SelectsWhole(post[j], shape[j + k]) {
        assert EntryAt(post, j) == post[j] && EntryAt(post, j - k) == FULL;
        assert EntryAt(post, j + k) == FULL && EntryAt(post, j + k - k) == post[j];
      }
    }
  }

  lemma {:induction false} SameSelections(a: seq<PyIndex>, b: seq<PyIndex>, shape: seq<nat>)
    requires SelectSame(a, b, shape)
    ensures NormaliseAll(a, shape) == NormaliseAll(b, shape)
    decreases |a|
  {
    if a != [] {
      SameSelections(a[1..], b[1..], shape[1..]);
    }
  }

  /** Where it does, the tuple agrees with the product exactly when it is `Faithful`. */
  lemma GetEllipsisDense(w: Lora, pre: seq<PyIndex>, post: seq<PyIndex>)
    requires w.Compatible() && |pre| + |post| <= w.Dims() && MeansSame(pre, post, w.Shape())
    requires GetTuple(w, AsWritten(pre, post, w.Dims()).value).Some?
    ensures var written, meant := AsWritten(pre, post, w.Dims()).value, AsMeant(pre, post, w.Dims());
            var v, whole := GetTuple(w, written).value, GetAll(Dense(w), meant);
            whole.Some? && ((v.Compatible() && Same(Dense(v), whole.value)) <==> Faithful(w, written))
  {
    var written := AsWritten(pre, post, w.Dims()).value;
    assert Padded(w, written) == written;
    SameSelections(written, AsMeant(pre, post, w.Dims()), w.Shape());
    GetTupleDense(w, written);
  }

  /** `w[..., ix]` takes rows of stacked tensors, where columns are meant. */
  lemma EllipsisTakesRows(ix: PyIndex)
    ensures AsWritten([], [ix], 3) == Some([FULL, ix, FULL])
    ensures AsMeant([], [ix], 3) == [FULL, FULL, ix]
  {
    assert [] + FullSlices(1) + [ix] == [FULL, ix] && [FULL, ix] + FullSlices(1) == [FULL, ix, FULL];
    assert [] + FullSlices(2) + [ix] == [FULL, FULL, ix];
  }
}
