/** `cat` and `stack` of factored tensors against their products. */
module LoraCat {
  import opened Text
  import opened LoraTensor
  import opened LoraShapes

  // ----- cat and stack -----

  /** Which tensor of a stack of rows an index falls in, and where. */
  function Locate(sizes: seq<nat>, i: nat): (nat, nat) {
    if sizes == [] || i < sizes[0] then (0, i)
    else var (t, off) := Locate(sizes[1..], i - sizes[0]); (t + 1, off)
  }

  function FirstSizes(ts: seq<Tensor>): seq<nat> {
    seq(|ts|, t requires 0 <= t < |ts| => if ts[t].shape == [] then 0 else ts[t].shape[0])
  }

  /** Tensors put together along the first dimension; the other sizes must agree. */
  function CatTensors(ts: seq<Tensor>): Option<Tensor> {
    if ts == []
       || exists t :: 0 <= t < |ts| && (ts[t].shape == [] || ts[0].shape == [] || ts[t].shape[1..] != ts[0].shape[1..])
    then None
    else
      Some(Tensor([Total(FirstSizes(ts))] + ts[0].shape[1..],
        idx =>
          if idx == [] then 0.0
          else
            var (t, off) := Locate(FirstSizes(ts), idx[0]);
            if t < |ts| then ts[t].at([off] + idx[1..]) else 0.0))
  }

  function FactorsB(ws: seq<Lora>): seq<Tensor> {
    seq(|ws|, t requires 0 <= t < |ws| => ws[t].B)
  }

  function FactorsA(ws: seq<Lora>): seq<Tensor> {
    seq(|ws|, t requires 0 <= t < |ws| => ws[t].A)
  }

  function Products(ws: seq<Lora>): seq<Tensor>
    requires forall t :: 0 <= t < |ws| ==> ws[t].Valid()
  {
    seq(|ws|, t requires 0 <= t < |ws| => Dense(ws[t]))
  }

  /** `torch.cat` of plain factored tensors: only with the same `A`. */
  ghost function CatPlain(ws: seq<Lora>): Option<Lora>
    requires forall t :: 0 <= t < |ws| ==> ws[t].Valid() && ws[t].Dims() == 2
  {
    if ws == [] || !(forall t :: 0 <= t < |ws| ==> Same(ws[0].A, ws[t].A)) then None
    else
      var b := CatTensors(FactorsB(ws));
      if b.None? || !Lora(ws[0].A, b.value).Valid() then None else Some(Lora(ws[0].A, b.value))
  }

  /** Accepted if and only if all parts have the same `A`. */
  lemma CatPlainAccepts(ws: seq<Lora>)
    requires forall t :: 0 <= t < |ws| ==> ws[t].Valid() && ws[t].Dims() == 2
    ensures CatPlain(ws).Some? <==> ws != [] && forall t :: 0 <= t < |ws| ==> Same(ws[t].A, ws[0].A)
  {
    if ws != [] && forall t :: 0 <= t < |ws| ==> Same(ws[t].A, ws[0].A) {
      var bs := FactorsB(ws);
      forall t | 0 <= t < |ws| ensures bs[t].shape != [] && bs[t].shape[1..] == bs[0].shape[1..] {
        assert bs[t] == ws[t].B && bs[0] == ws[0].B;
        assert ws[t].A.shape == ws[0].A.shape;
        assert ws[t].B.shape[1..] == [ws[t].Rank()] && ws[0].B.shape[1..] == [ws[0].Rank()];
      }
    }
  }

  lemma {:induction false} LocateBehind(sizes: seq<nat>, t: nat, off: nat)
    requires t < |sizes| && off < sizes[t]
    ensures Locate(sizes, Total(sizes[..t]) + off) == (t, off)
    decreases |sizes|
  {
    if t > 0 {
      assert sizes[..t][1..] == sizes[1..][..t - 1];
      LocateBehind(sizes[1..], t - 1, off);
    }
  }

  /** The rows of each part follow those of the parts before it. */
  lemma CatRows(ts: seq<Tensor>, t: nat, off: nat, rest: seq<nat>)
    requires CatTensors(ts).Some? && t < |ts| && ts[t].shape != [] && off < ts[t].shape[0]
    ensures CatTensors(ts).value.at([Total(FirstSizes(ts)[..t]) + off] + rest) == ts[t].at([off] + rest)
  {
    LocateBehind(FirstSizes(ts), t, off);
    CatAt(ts, Total(FirstSizes(ts)[..t]) + off, rest);
  }

  lemma {:induction false} LocateInside(sizes: seq<nat>, i: nat)
    requires i < Total(sizes)
    ensures var (t, off) := Locate(sizes, i); t < |sizes| && off < sizes[t] && i == Total(sizes[..t]) + off
    decreases |sizes|
  {
    if i >= sizes[0] {
      LocateInside(sizes[1..], i - sizes[0]);
      var (t, off) := Locate(sizes[1..], i - sizes[0]);
      assert sizes[..t + 1][1..] == sizes[1..][..t];
    }
  }

  lemma CatPlainTerm(ws: seq<Lora>, v: Lora, i: nat, j: nat, t: nat, off: nat, k: nat)
    requires forall u :: 0 <= u < |ws| ==> ws[u].Valid() && ws[u].Dims() == 2
    requires CatPlain(ws) == Some(v) && v.Valid() && v.Dims() == 2
    requires Locate(FirstSizes(FactorsB(ws)), i) == (t, off) && t < |ws| && k < ws[t].Rank() && j < v.A.shape[1]
    ensures Term(v, [i, j], k) == Term(ws[t], [off, j], k)
  {
    PlainTerm(v, i, j, k);
    PlainTerm(ws[t], off, j, k);
    assert [i, k][1..] == [k] && [off] + [k] == [off, k];
    assert InShape([k, j], ws[t].A.shape);
  }

  lemma CatPlainEntry(ws: seq<Lora>, v: Lora, i: nat, j: nat)
    requires forall t :: 0 <= t < |ws| ==> ws[t].Valid() && ws[t].Dims() == 2
    requires CatPlain(ws) == Some(v) && InShape([i, j], v.Shape())
    ensures var (t, off) := Locate(FirstSizes(FactorsB(ws)), i);
            t < |ws| && Dense(v).at([i, j]) == Dense(ws[t]).at([off, j])
  {
    var (t, off) := Locate(FirstSizes(FactorsB(ws)), i);
    assert v.B.shape == [Total(FirstSizes(FactorsB(ws)))] + ws[0].B.shape[1..];
    assert [i, j][0] < v.Shape()[0] && [i, j][1] < v.Shape()[1];
    LocateInside(FirstSizes(FactorsB(ws)), i);
    assert FactorsB(ws)[t].shape[1..] == FactorsB(ws)[0].shape[1..] && ws[t].Rank() == v.Rank();
    forall k | 0 <= k < v.Rank() ensures Term(v, [i, j], k) == Term(ws[t], [off, j], k) {
      CatPlainTerm(ws, v, i, j, t, off, k);
    }
    SumsEqual(v, [i, j], ws[t], [off, j], v.Rank());
  }

  /** Concatenating rows agrees with the products. */
  lemma CatPlainDense(ws: seq<Lora>)
    requires forall t :: 0 <= t < |ws| ==> ws[t].Valid() && ws[t].Dims() == 2
    requires CatPlain(ws).Some?
    ensures var v, whole := CatPlain(ws).value, CatTensors(Products(ws));
            v.Compatible() && whole.Some? && Same(Dense(v), whole.value)
  {
    var v := CatPlain(ws).value;
    CatPlainShapes(ws, v);
    forall idx | InShape(idx, v.Shape()) ensures Dense(v).at(idx) == CatTensors(Products(ws)).value.at(idx) {
      assert idx == [idx[0], idx[1]];
      CatPlainAt(ws, v, idx[0], idx[1]);
    }
  }

  lemma CatPlainShapes(ws: seq<Lora>, v: Lora)
    requires forall t :: 0 <= t < |ws| ==> ws[t].Valid() && ws[t].Dims() == 2
    requires CatPlain(ws) == Some(v)
    ensures FirstSizes(Products(ws)) == FirstSizes(FactorsB(ws))
    ensures CatTensors(Products(ws)).Some? && CatTensors(Products(ws)).value.shape == v.Shape()
  {
    var ds := Products(ws);
    forall t | 0 <= t < |ws| ensures ds[t].shape == [ws[t].B.shape[0], ws[0].A.shape[1]] {
      assert Same(ws[0].A, ws[t].A);
    }
    assert FirstSizes(ds) == FirstSizes(FactorsB(ws));
  }

  lemma CatPlainAt(ws: seq<Lora>, v: Lora, i: nat, j: nat)
    requires forall t :: 0 <= t < |ws| ==> ws[t].Valid() && ws[t].Dims() == 2
    requires CatPlain(ws) == Some(v) && InShape([i, j], v.Shape()) && CatTensors(Products(ws)).Some?
    ensures Dense(v).at([i, j]) == CatTensors(Products(ws)).value.at([i, j])
  {
    CatPlainShapes(ws, v);
    CatPlainEntry(ws, v, i, j);
    assert [i, j][1..] == [j];
    var (_, off) := Locate(FirstSizes(Products(ws)), i);
    assert [off] + [j] == [off, j];
  }

  // Concatenating stacked tensors joins both factors.

  /** `torch.cat` of tensors with leading dimensions. */
  function CatStacked(ws: seq<Lora>): Option<Lora> {
    var a, b := CatTensors(FactorsA(ws)), CatTensors(FactorsB(ws));
    if a.None? || b.None? || !Lora(a.value, b.value).Valid() then None else Some(Lora(a.value, b.value))
  }

  lemma CatTensorsAccepts(ts: seq<Tensor>)
    requires forall t :: 0 <= t < |ts| ==> |ts[t].shape| > 0
    ensures CatTensors(ts).Some? <==> ts != [] && forall t :: 0 <= t < |ts| ==> ts[t].shape[1..] == ts[0].shape[1..]
  {
  }

  lemma FirstTail(w: Lora, a: Tensor, b: Tensor)
    requires w.Valid() && w.Dims() > 2 && a.shape != [] && b.shape != []
    requires a.shape[1..] == w.A.shape[1..] && b.shape[1..] == w.B.shape[1..]
    ensures Lora(a, b).Valid()
  {
    var n := w.Dims();
    assert |a.shape[1..]| == |b.shape[1..]| == n - 1;
    assert a.shape[n - 2] == a.shape[1..][n - 3] == w.A.shape[n - 2];
    assert b.shape[n - 1] == b.shape[1..][n - 2] == w.B.shape[n - 1];
  }

  predicate TailsAgree(v: Lora, w: Lora)
    requires v.Valid() && w.Valid()
  {
    v.A.shape[1..] == w.A.shape[1..] && v.B.shape[1..] == w.B.shape[1..]
  }

  /** Accepted if and only if the factors agree in all sizes but the first. */
  lemma CatStackedAccepts(ws: seq<Lora>)
    requires forall t :: 0 <= t < |ws| ==> ws[t].Valid()
    requires ws != [] ==> ws[0].Dims() > 2
    ensures CatStacked(ws).Some?
       <==> ws != [] && forall t :: 0 <= t < |ws| ==> TailsAgree(ws[t], ws[0])
  {
    var fa, fb := FactorsA(ws), FactorsB(ws);
    assert forall t :: 0 <= t < |ws| ==> fa[t] == ws[t].A && fb[t] == ws[t].B && ws[t].Valid();
    CatTensorsAccepts(fa);
    CatTensorsAccepts(fb);
    if ws != [] && CatTensors(fa).Some? && CatTensors(fb).Some? {
      FirstTail(ws[0], CatTensors(fa).value, CatTensors(fb).value);
    }
  }

  /** Compatible factored tensors with leading dimensions. */
  ghost predicate Stacked(ws: seq<Lora>) {
    forall t :: 0 <= t < |ws| ==> ws[t].Compatible() && ws[t].Dims() > 2
  }

  /** No tensor shares its first dimension: each `A` has the leading size of its `B`. */
  ghost predicate Unshared(ws: seq<Lora>)
    requires Stacked(ws)
  {
    forall t :: 0 <= t < |ws| ==> ws[t].A.shape[0] == ws[t].B.shape[0]
  }

  function TotalA(ws: seq<Lora>): nat {
    Total(FirstSizes(FactorsA(ws)))
  }

  function TotalB(ws: seq<Lora>): nat {
    Total(FirstSizes(FactorsB(ws)))
  }

  /** Each part finds its own `A` in the concatenation. */
  ghost predicate Aligned(ws: seq<Lora>)
    requires Stacked(ws)
  {
    Unshared(ws) || TotalA(ws) == 1
  }

  lemma CatAt(ts: seq<Tensor>, i: nat, rest: seq<nat>)
    requires CatTensors(ts).Some?
    ensures var (t, off) := Locate(FirstSizes(ts), i);
            t < |ts| ==> CatTensors(ts).value.at([i] + rest) == ts[t].at([off] + rest)
  {
    assert ([i] + rest)[1..] == rest;
  }

  /** The shapes of the parts and of the whole. */
  lemma CatShapes(ws: seq<Lora>, v: Lora)
    requires Stacked(ws) && CatStacked(ws) == Some(v)
    ensures ws != [] && v.A.shape == [TotalA(ws)] + ws[0].A.shape[1..] && v.B.shape == [TotalB(ws)] + ws[0].B.shape[1..]
    ensures forall t :: 0 <= t < |ws| ==>
              ws[t].A.shape[1..] == ws[0].A.shape[1..] && ws[t].B.shape[1..] == ws[0].B.shape[1..]
  {
    forall t | 0 <= t < |ws|
      ensures ws[t].A.shape[1..] == ws[0].A.shape[1..] && ws[t].B.shape[1..] == ws[0].B.shape[1..]
    {
      assert FactorsA(ws)[t].shape[1..] == FactorsA(ws)[0].shape[1..];
      assert FactorsB(ws)[t].shape[1..] == FactorsB(ws)[0].shape[1..];
    }
  }

  lemma ClipLead(shape: seq<nat>, i: nat, lead: seq<nat>)
    requires shape != []
    ensures Clip(shape, [i] + lead) == [if shape[0] == 1 then 0 else i] + Clip(shape[1..], lead)
  {
    ClipCons(shape, [i] + lead);
    assert ([i] + lead)[1..] == lead;
  }

  /** When the sizes total 1, the one that is not 0 is found. */
  lemma {:induction false} OnlyOne(sizes: seq<nat>, t: nat)
    requires t < |sizes| && sizes[t] >= 1 && Total(sizes) == 1
    ensures sizes[t] == 1 && Locate(sizes, 0) == (t, 0)
    decreases |sizes|
  {
    if t > 0 {
      SizeInTotal(sizes[1..], t - 1);
      OnlyOne(sizes[1..], t - 1);
    }
  }

  lemma {:induction false} SizeInTotal(sizes: seq<nat>, t: nat)
    requires t < |sizes|
    ensures sizes[t] <= Total(sizes)
    decreases |sizes|
  {
    if t > 0 {
      SizeInTotal(sizes[1..], t - 1);
    }
  }

  /** The leading index that a part of the product and the whole use in `A`. */
  lemma LeadInA(ws: seq<Lora>, i: nat, t: nat, off: nat)
    requires Stacked(ws) && Aligned(ws) && i < TotalB(ws) && Locate(FirstSizes(FactorsB(ws)), i) == (t, off)
    ensures t < |ws|
    ensures Locate(FirstSizes(FactorsA(ws)), if TotalA(ws) == 1 then 0 else i)
         == (t, if ws[t].A.shape[0] == 1 then 0 else off)
  {
    LocateInside(FirstSizes(FactorsB(ws)), i);
    if TotalA(ws) == 1 {
      OnlyOne(FirstSizes(FactorsA(ws)), t);
    } else {
      assert FirstSizes(FactorsA(ws)) == FirstSizes(FactorsB(ws));
    }
  }

  /** Where the concatenated factors have their entries. */
  lemma CatFactors(ws: seq<Lora>, v: Lora, i: nat, t: nat, off: nat, x: seq<nat>, lead: seq<nat>, k: nat, j: nat)
    requires Stacked(ws) && Aligned(ws) && CatStacked(ws) == Some(v) && i < TotalB(ws)
    requires Locate(FirstSizes(FactorsB(ws)), i) == (t, off)
    ensures t < |ws| && v.B.at(([i] + x) + [k]) == ws[t].B.at(([off] + x) + [k])
    ensures v.A.at(Clip(v.A.shape, [i] + lead) + [k, j]) == ws[t].A.at(Clip(ws[t].A.shape, [off] + lead) + [k, j])
  {
    LeadInA(ws, i, t, off);
    CatShapes(ws, v);
    var w := ws[t];
    ClipLead(v.A.shape, i, lead);
    ClipLead(w.A.shape, off, lead);
    var i', off' := if TotalA(ws) == 1 then 0 else i, if w.A.shape[0] == 1 then 0 else off;
    var rest := Clip(w.A.shape[1..], lead) + [k, j];
    assert v.A.shape[1..] == w.A.shape[1..];
    FirstIndexOut(i', Clip(w.A.shape[1..], lead), [k, j]);
    FirstIndexOut(off', Clip(w.A.shape[1..], lead), [k, j]);
    FirstIndexOut(i, x, [k]);
    FirstIndexOut(off, x, [k]);
    CatAt(FactorsA(ws), i', rest);
    CatAt(FactorsB(ws), i, x + [k]);
  }

  lemma FirstIndexOut(i: nat, x: seq<nat>, y: seq<nat>)
    ensures ([i] + x) + y == [i] + (x + y)
  {
  }

  lemma CatStackedTerm(ws: seq<Lora>, v: Lora, i: nat, t: nat, off: nat, x: seq<nat>, j: nat, k: nat)
    requires Stacked(ws) && Aligned(ws) && CatStacked(ws) == Some(v) && i < TotalB(ws)
    requires Locate(FirstSizes(FactorsB(ws)), i) == (t, off) && t < |ws|
    requires x != [] && |x| + 2 == v.Dims() == ws[t].Dims()
    ensures Term(v, [i] + x + [j], k) == Term(ws[t], [off] + x + [j], k)
  {
    var lead := x[..|x| - 1];
    TermLast(v, [i] + x, j, k);
    TermLast(ws[t], [off] + x, j, k);
    assert ([i] + x)[..|x|] == [i] + lead && ([off] + x)[..|x|] == [off] + lead;
    CatFactors(ws, v, i, t, off, x, lead, k, j);
  }

  lemma CatPart(ws: seq<Lora>, v: Lora, idx: seq<nat>)
    requires Stacked(ws) && CatStacked(ws) == Some(v) && InShape(idx, v.Shape())
    ensures |idx| > 2 && idx[0] < TotalB(ws)
    ensures var (t, off) := Locate(FirstSizes(FactorsB(ws)), idx[0]);
            t < |ws| && |idx| == v.Dims() == ws[t].Dims() && v.Rank() == ws[t].Rank()
  {
    CatShapes(ws, v);
    assert idx[0] < v.Shape()[0];
    LocateInside(FirstSizes(FactorsB(ws)), idx[0]);
    var (t, off) := Locate(FirstSizes(FactorsB(ws)), idx[0]);
    assert ws[t].B.shape[1..] == v.B.shape[1..];
    assert v.Rank() == v.B.shape[1..][|v.B.shape| - 2] && ws[t].Rank() == ws[t].B.shape[1..][|v.B.shape| - 2];
  }

  lemma CatStackedEntry(ws: seq<Lora>, v: Lora, idx: seq<nat>)
    requires Stacked(ws) && Aligned(ws) && CatStacked(ws) == Some(v) && InShape(idx, v.Shape())
    ensures var (t, off) := Locate(FirstSizes(FactorsB(ws)), idx[0]);
            t < |ws| && Dense(v).at(idx) == Dense(ws[t]).at([off] + idx[1..])
  {
    CatPart(ws, v, idx);
    var (t, off) := Locate(FirstSizes(FactorsB(ws)), idx[0]);
    var x, j := idx[1..|idx| - 1], idx[|idx| - 1];
    assert idx == [idx[0]] + x + [j] && [off] + idx[1..] == [off] + x + [j];
    forall k | 0 <= k < v.Rank() ensures Term(v, idx, k) == Term(ws[t], [off] + x + [j], k) {
      CatStackedTerm(ws, v, idx[0], t, off, x, j, k);
    }
    SumsEqual(v, idx, ws[t], [off] + x + [j], v.Rank());
  }

  /** The concatenated factors have a product exactly when the sizes of `A` total 1 or as
      many as those of `B`. */
  lemma CatCompatible(ws: seq<Lora>, v: Lora)
    requires Stacked(ws) && CatStacked(ws) == Some(v)
    ensures v.Compatible() <==> TotalA(ws) == 1 || TotalA(ws) == TotalB(ws)
  {
    CatShapes(ws, v);
    var w := ws[0];
    assert v.A.shape[0] == TotalA(ws) && v.B.shape[0] == TotalB(ws) && v.Dims() > 2;
    forall d | 0 < d < v.Dims() - 2 ensures v.A.shape[d] == 1 || v.A.shape[d] == v.B.shape[d] {
      assert v.A.shape[d] == w.A.shape[d] && v.B.shape[d] == w.B.shape[d];
    }
  }

  lemma SameTails(ws: seq<Lora>, v: Lora, t: nat)
    requires Stacked(ws) && CatStacked(ws) == Some(v) && t < |ws|
    ensures v.Dims() == ws[t].Dims() && ws[t].Shape()[1..] == v.Shape()[1..] && ws[t].Shape()[0] == ws[t].B.shape[0]
  {
    CatShapes(ws, v);
    assert ws[t].A.shape[1..] == v.A.shape[1..] && ws[t].B.shape[1..] == v.B.shape[1..];
    assert |ws[t].A.shape[1..]| == |v.A.shape[1..]|;
    ShapeTail(ws[t]);
    ShapeTail(v);
  }

  lemma CatProducts(ws: seq<Lora>, v: Lora)
    requires Stacked(ws) && CatStacked(ws) == Some(v)
    ensures FirstSizes(Products(ws)) == FirstSizes(FactorsB(ws))
    ensures CatTensors(Products(ws)).Some? && CatTensors(Products(ws)).value.shape == v.Shape()
  {
    var ps := Products(ws);
    forall t | 0 <= t < |ws|
      ensures ps[t].shape[1..] == v.Shape()[1..] && ps[t].shape != [] && ps[t].shape[0] == ws[t].B.shape[0]
    {
      SameTails(ws, v, t);
    }
    CatShapes(ws, v);
    assert v.Shape() == [v.Shape()[0]] + v.Shape()[1..];
  }

  lemma ShapeTail(w: Lora)
    requires w.Valid() && w.Dims() > 2
    ensures w.Shape()[1..] == w.B.shape[1..][..w.Dims() - 2] + [w.A.shape[1..][w.Dims() - 2]]
  {
  }

  lemma AlignedAgrees(ws: seq<Lora>, v: Lora)
    requires Stacked(ws) && Aligned(ws) && CatStacked(ws) == Some(v)
    ensures CatTensors(Products(ws)).Some? && Same(Dense(v), CatTensors(Products(ws)).value)
  {
    CatProducts(ws, v);
    forall idx | InShape(idx, v.Shape()) ensures Dense(v).at(idx) == CatTensors(Products(ws)).value.at(idx) {
      CatPart(ws, v, idx);
      assert idx == [idx[0]] + idx[1..];
      CatStackedEntry(ws, v, idx);
      CatAt(Products(ws), idx[0], idx[1..]);
    }
  }

  lemma SizesMatch(ws: seq<Lora>)
    requires Stacked(ws) && Unshared(ws)
    ensures TotalA(ws) == TotalB(ws)
  {
    assert FirstSizes(FactorsA(ws)) == FirstSizes(FactorsB(ws));
  }

  /** No leading size of a product is 0. */
  ghost predicate Filled(ws: seq<Lora>)
    requires Stacked(ws)
  {
    forall t :: 0 <= t < |ws| ==> ws[t].B.shape[0] > 0
  }

  lemma {:induction false} TotalsApart(a: seq<nat>, b: seq<nat>)
    requires |a| == |b| && forall t :: 0 <= t < |a| ==> b[t] > 0 && (a[t] == 1 || a[t] == b[t])
    ensures |a| <= Total(a) <= Total(b) && (Total(a) == Total(b) <==> a == b)
    decreases |a|
  {
    if a != [] {
      TotalsApart(a[1..], b[1..]);
      assert a == [a[0]] + a[1..] && b == [b[0]] + b[1..];
    }
  }

  lemma FilledTotals(ws: seq<Lora>)
    requires Stacked(ws) && Filled(ws) && ws != []
    ensures TotalA(ws) == TotalB(ws) <==> Unshared(ws)
    ensures Aligned(ws) <==> Unshared(ws) || |ws| == 1
  {
    var a, b := FirstSizes(FactorsA(ws)), FirstSizes(FactorsB(ws));
    TotalsApart(a, b);
    if Unshared(ws) {
      SizesMatch(ws);
    } else {
      var t :| 0 <= t < |ws| && ws[t].A.shape[0] != ws[t].B.shape[0];
      assert a[t] != b[t];
    }
    if |ws| == 1 {
      assert a == [a[0]] && Total(a[1..]) == 0;
    }
  }

  /** Concatenating stacked tensors agrees with the products when no `A` is shared, and
      also when the sizes of `A` total 1. Otherwise it does not, unless the totals happen to
      be equal, which takes a product without entries: where there is none, it agrees if and
      only if no `A` is shared or there is nothing to join. */
  lemma CatStackedDense(ws: seq<Lora>)
    requires Stacked(ws) && CatStacked(ws).Some?
    ensures var v, whole := CatStacked(ws).value, CatTensors(Products(ws));
            var agrees := v.Compatible() && whole.Some? && Same(Dense(v), whole.value);
            && (Aligned(ws) ==> agrees)
            && (agrees ==> Aligned(ws) || TotalA(ws) == TotalB(ws))
            && (Filled(ws) ==> (agrees <==> Unshared(ws) || |ws| == 1))
  {
    var v := CatStacked(ws).value;
    CatShapes(ws, v);
    CatCompatible(ws, v);
    if Aligned(ws) {
      if Unshared(ws) {
        SizesMatch(ws);
      }
      AlignedAgrees(ws, v);
    }
    if Filled(ws) {
      FilledTotals(ws);
    }
  }

  /** Two stacks that each share one `A` concatenate to no compatible tensor. */
  lemma SharedCatDiffers()
    ensures var w := Lora(Tensor([1, 1, 1], _ => 1.0), Tensor([2, 1, 1], _ => 1.0));
            w.Compatible() && CatStacked([w, w]).Some? && !CatStacked([w, w]).value.Compatible()
  {
    var w := Lora(Tensor([1, 1, 1], _ => 1.0), Tensor([2, 1, 1], _ => 1.0));
    assert FactorsA([w, w]) == [w.A, w.A] && FactorsB([w, w]) == [w.B, w.B];
    assert FirstSizes([w.A, w.A]) == [1, 1] && FirstSizes([w.B, w.B]) == [2, 2];
    TotalOfTwo(1, 1);
    TotalOfTwo(2, 2);
    var v := CatStacked([w, w]).value;
    assert v.A.shape[0] == 2 && v.B.shape[0] == 4;
  }

  lemma TotalOfTwo(m: nat, n: nat)
    ensures Total([m, n]) == m + n
  {
    assert [m, n][1..] == [n] && [n][1..] == [];
    assert Total([m, n][1..][1..]) == 0;
  }

  // With a leading size of 0 equal totals can hide shared factors: the entries decide.

  function Filling(shape: seq<nat>, x: real): Tensor {
    Tensor(shape, _ => x)
  }

  /** A stack without rows but with an `A`, and a stack of two that share one `A`. */
  function EmptyAndShared(a: real, b: real): seq<Lora> {
    [Lora(Filling([1, 1, 1], a), Filling([0, 1, 1], 1.0)), Lora(Filling([1, 1, 1], b), Filling([2, 1, 1], 1.0))]
  }

  lemma EmptyAndSharedSizes(a: real, b: real)
    ensures var ws := EmptyAndShared(a, b);
            && Stacked(ws) && !Aligned(ws)
            && FirstSizes(FactorsA(ws)) == [1, 1] && FirstSizes(FactorsB(ws)) == [0, 2]
            && TotalA(ws) == TotalB(ws) == 2
  {
    var ws := EmptyAndShared(a, b);
    TotalOfTwo(1, 1);
    TotalOfTwo(0, 2);
    assert FirstSizes(FactorsA(ws)) == [1, 1] && FirstSizes(FactorsB(ws)) == [0, 2];
    assert ws[1].A.shape[0] != ws[1].B.shape[0];
  }

  lemma LocateInTwo(m: nat, n: nat, i: nat)
    requires m <= i < m + n
    ensures Locate([m, n], i) == (1, i - m)
  {
    assert [m, n][1..] == [n];
    assert Locate([m, n][1..], i - m) == (0, i - m);
  }

  lemma OneTerm(w: Lora, i: nat)
    requires w.Valid() && w.Dims() == 3 && w.Rank() == 1
    ensures Dense(w).at([i, 0, 0]) == w.B.at([i, 0, 0]) * w.A.at([if w.A.shape[0] == 1 then 0 else i, 0, 0])
  {
    var idx := [i, 0, 0];
    assert SumTerms(w, idx, 1) == SumTerms(w, idx, 0) + Term(w, idx, 0);
    assert idx[..2] + [0] == [i, 0, 0];
    assert Clip(w.A.shape, idx[..1]) + [0, 0] == [if w.A.shape[0] == 1 then 0 else i, 0, 0];
  }

  lemma EmptyAndSharedShapes(a: real, b: real) returns (v: Lora)
    ensures Stacked(EmptyAndShared(a, b)) && CatStacked(EmptyAndShared(a, b)) == Some(v)
    ensures v.Compatible() && v.A.shape == [2, 1, 1] && v.B.shape == [2, 1, 1]
  {
    var ws := EmptyAndShared(a, b);
    EmptyAndSharedSizes(a, b);
    var fa, fb := FactorsA(ws), FactorsB(ws);
    assert fa[0].shape[1..] == fa[1].shape[1..] && fb[0].shape[1..] == fb[1].shape[1..];
    v := CatStacked(ws).value;
    CatShapes(ws, v);
    CatCompatible(ws, v);
  }

  lemma EmptyAndSharedAt(a: real, b: real, v: Lora, i: nat)
    requires Stacked(EmptyAndShared(a, b)) && CatStacked(EmptyAndShared(a, b)) == Some(v) && i < 2
    ensures v.B.at([i, 0, 0]) == 1.0 && v.A.at([i, 0, 0]) == if i == 0 then a else b
  {
    var ws := EmptyAndShared(a, b);
    EmptyAndSharedSizes(a, b);
    LocateInTwo(0, 2, i);
    if i == 1 {
      LocateInTwo(1, 1, 1);
    }
    CatAt(FactorsB(ws), i, [0, 0]);
    CatAt(FactorsA(ws), i, [0, 0]);
    assert [i] + [0, 0] == [i, 0, 0];
  }

  lemma EmptyAndSharedCat(a: real, b: real) returns (v: Lora)
    ensures Stacked(EmptyAndShared(a, b)) && CatStacked(EmptyAndShared(a, b)) == Some(v)
    ensures v.Compatible() && v.Dims() == 3 && v.Rank() == 1 && v.Shape() == [2, 1, 1]
    ensures Dense(v).at([0, 0, 0]) == a && Dense(v).at([1, 0, 0]) == b
  {
    v := EmptyAndSharedShapes(a, b);
    EmptyAndSharedAt(a, b, v, 0);
    EmptyAndSharedAt(a, b, v, 1);
    OneTerm(v, 0);
    OneTerm(v, 1);
  }

  lemma EmptyAndSharedProducts(a: real, b: real, i: nat)
    requires i < 2
    ensures Stacked(EmptyAndShared(a, b)) && CatTensors(Products(EmptyAndShared(a, b))).Some?
    ensures CatTensors(Products(EmptyAndShared(a, b))).value.at([i, 0, 0]) == b
  {
    var ws := EmptyAndShared(a, b);
    EmptyAndSharedSizes(a, b);
    var v := EmptyAndSharedCat(a, b);
    CatProducts(ws, v);
    LocateInTwo(0, 2, i);
    CatAt(Products(ws), i, [0, 0]);
    assert [i] + [0, 0] == [i, 0, 0];
    OneTerm(ws[1], i);
  }

  lemma SameByTwo(s: Tensor, t: Tensor)
    requires s.shape == t.shape == [2, 1, 1]
    ensures Same(s, t) <==> s.at([0, 0, 0]) == t.at([0, 0, 0]) && s.at([1, 0, 0]) == t.at([1, 0, 0])
  {
    assert InShape([0, 0, 0], s.shape) && InShape([1, 0, 0], s.shape);
    forall idx | InShape(idx, s.shape) ensures idx == [0, 0, 0] || idx == [1, 0, 0] {
      assert idx[0] < 2 && idx[1] < 1 && idx[2] < 1;
    }
  }

  /** The same shapes agree or not, as the entries of the factors do. */
  lemma EmptyStackDecides(a: real, b: real)
    ensures var ws := EmptyAndShared(a, b);
            && Stacked(ws) && CatStacked(ws).Some? && CatTensors(Products(ws)).Some?
            && (Same(Dense(CatStacked(ws).value), CatTensors(Products(ws)).value) <==> a == b)
  {
    var ws := EmptyAndShared(a, b);
    EmptyAndSharedSizes(a, b);
    var v := EmptyAndSharedCat(a, b);
    EmptyAndSharedProducts(a, b, 0);
    EmptyAndSharedProducts(a, b, 1);
    CatProducts(ws, v);
    var whole := CatTensors(Products(ws)).value;
    SameByTwo(Dense(v), whole);
  }

  function StackTensors(ts: seq<Tensor>): Option<Tensor> {
    if ts == [] || exists t :: 0 <= t < |ts| && ts[t].shape != ts[0].shape then None
    else Some(Tensor([|ts|] + ts[0].shape, idx => if idx != [] && idx[0] < |ts| then ts[idx[0]].at(idx[1..]) else 0.0))
  }

  /** `torch.stack` along a new first dimension. */
  function Stack(ws: seq<Lora>): Option<Lora> {
    var a, b := StackTensors(FactorsA(ws)), StackTensors(FactorsB(ws));
    if a.None? || b.None? || !Lora(a.value, b.value).Valid() then None else Some(Lora(a.value, b.value))
  }

  /** The first index says which tensor is meant. */
  lemma StackRows(ts: seq<Tensor>, t: nat, rest: seq<nat>)
    requires StackTensors(ts).Some? && t < |ts|
    ensures StackTensors(ts).value.at([t] + rest) == ts[t].at(rest)
  {
    assert ([t] + rest)[1..] == rest;
  }

  /** Accepted if and only if all parts have factors of the same shapes. */
  lemma StackAccepts(ws: seq<Lora>)
    requires forall t :: 0 <= t < |ws| ==> ws[t].Valid()
    ensures Stack(ws).Some?
       <==> ws != [] && forall t :: 0 <= t < |ws| ==>
              ws[t].A.shape == ws[0].A.shape && ws[t].B.shape == ws[0].B.shape
  {
    var fa, fb := FactorsA(ws), FactorsB(ws);
    assert forall t :: 0 <= t < |ws| ==> fa[t] == ws[t].A && fb[t] == ws[t].B;
    if ws != [] && StackTensors(fa).Some? && StackTensors(fb).Some? {
      assert Lora(StackTensors(fa).value, StackTensors(fb).value).Valid();
    }
  }

  lemma StackTerm(ws: seq<Lora>, v: Lora, i: nat, x: seq<nat>, j: nat, k: nat)
    requires forall t :: 0 <= t < |ws| ==> ws[t].Valid()
    requires Stack(ws) == Some(v) && i < |ws| && |x| + 1 == ws[i].Dims()
    ensures v.Dims() == |x| + 2 && Term(v, [i] + x + [j], k) == Term(ws[i], x + [j], k)
  {
    var w := ws[i];
    assert FactorsA(ws)[i].shape == FactorsA(ws)[0].shape && FactorsB(ws)[i].shape == FactorsB(ws)[0].shape;
    TermLast(v, [i] + x, j, k);
    TermLast(w, x, j, k);
    var lead := x[..|x| - 1];
    assert ([i] + x)[..|x|] == [i] + lead;
    assert v.A.shape == [|ws|] + w.A.shape && v.A.shape[1..] == w.A.shape;
    ClipCons(v.A.shape, [i] + lead);
    assert ([i] + lead)[1..] == lead;
    assert Clip(v.A.shape, [i] + lead) + [k, j] == [i] + (Clip(w.A.shape, lead) + [k, j]);
    assert ([i] + x) + [k] == [i] + (x + [k]);
    assert ([i] + (x + [k]))[1..] == x + [k];
    assert ([i] + (Clip(w.A.shape, lead) + [k, j]))[1..] == Clip(w.A.shape, lead) + [k, j];
  }

  /** Stacking agrees with the products. */
  lemma StackDense(ws: seq<Lora>)
    requires forall t :: 0 <= t < |ws| ==> ws[t].Valid()
    requires (forall t :: 0 <= t < |ws| ==> ws[t].Compatible()) && Stack(ws).Some?
    ensures var v, whole := Stack(ws).value, StackTensors(Products(ws));
            v.Compatible() && whole.Some? && Same(Dense(v), whole.value)
  {
    var v, ds := Stack(ws).value, Products(ws);
    forall t | 0 <= t < |ws|
      ensures ws[t].Dims() == ws[0].Dims() && ws[t].Rank() == ws[0].Rank() && ds[t].shape == ds[0].shape
    {
      assert FactorsA(ws)[t].shape == FactorsA(ws)[0].shape && FactorsB(ws)[t].shape == FactorsB(ws)[0].shape;
    }
    StackShapes(ws, v);
    forall idx | InShape(idx, v.Shape()) ensures Dense(v).at(idx) == StackTensors(ds).value.at(idx) {
      StackEntry(ws, v, idx);
    }
  }

  lemma StackShapes(ws: seq<Lora>, v: Lora)
    requires ws != [] && (forall t :: 0 <= t < |ws| ==> ws[t].Valid()) && Stack(ws) == Some(v)
    requires forall t :: 0 <= t < |ws| ==> ws[t].Compatible()
    ensures v.Compatible() && v.Shape() == [|ws|] + ws[0].Shape() && v.Rank() == ws[0].Rank()
  {
    var w := ws[0];
    assert FactorsA(ws)[0] == w.A && FactorsB(ws)[0] == w.B;
    assert v.A.shape == [|ws|] + w.A.shape && v.B.shape == [|ws|] + w.B.shape;
    forall d | 0 <= d < v.Dims() - 2 ensures v.A.shape[d] == 1 || v.A.shape[d] == v.B.shape[d] {
      assert d > 0 ==> v.A.shape[d] == w.A.shape[d - 1] && v.B.shape[d] == w.B.shape[d - 1];
    }
  }

  lemma StackEntry(ws: seq<Lora>, v: Lora, idx: seq<nat>)
    requires ws != [] && forall t :: 0 <= t < |ws| ==> ws[t].Valid()
    requires forall t :: 0 <= t < |ws| ==> ws[t].Dims() == ws[0].Dims() && ws[t].Rank() == ws[0].Rank()
    requires Stack(ws) == Some(v) && v.Valid() && v.Rank() == ws[0].Rank() && |idx| == ws[0].Dims() + 1 && idx[0] < |ws|
    ensures v.Dims() == |idx| && Dense(v).at(idx) == Dense(ws[idx[0]]).at(idx[1..])
  {
    var i, w := idx[0], ws[idx[0]];
    var x, j := idx[1..|idx| - 1], idx[|idx| - 1];
    assert idx == [i] + x + [j] && idx[1..] == x + [j];
    StackTerm(ws, v, i, x, j, 0);
    forall k | 0 <= k < w.Rank() ensures Term(v, idx, k) == Term(w, idx[1..], k) {
      StackTerm(ws, v, i, x, j, k);
    }
    SumsEqual(v, idx, w, idx[1..], w.Rank());
  }
}
