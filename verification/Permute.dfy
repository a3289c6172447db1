/**
 The "every order" parser: `permute` builds, through a memo keyed by the bitmask of the
 parsers still to come, a parser that tries all orders. Parsing has three outcomes, as in
 the streaming engine; a choice takes the first alternative that does not fail.
 */
module Permute {
  import opened Text

  datatype Result = Fail | Match(end: nat) | NeedMore(end: nat)

  /** Parsers as the builder assembles them; `Prim` stands for any parser of the engine. */
  datatype Parser =
    | Eps
    | Prim(id: nat)
    | Sequence(ps: seq<Parser>)
    | Choice(ps: seq<Parser>)
    | Rule(mask: bv32, p: Parser)

  /** What the primitive parsers do on the input at hand, position by position. */
  type Engine = (nat, nat) -> Result

  function Parse(p: Parser, pos: nat, e: Engine): Result
    decreases p, 1
  {
    match p
    case Eps => Match(pos)
    case Prim(id) => e(id, pos)
    case Sequence(ps) => ParseAll(ps, pos, e)
    case Choice(ps) => ParseFirst(ps, pos, e)
    case Rule(_, q) => Parse(q, pos, e)
  }

  function ParseAll(ps: seq<Parser>, pos: nat, e: Engine): Result
    decreases ps, 0
  {
    if ps == [] then Match(pos)
    else
      var r := Parse(ps[0], pos, e);
      if r.Match? then ParseAll(ps[1..], r.end, e) else r
  }

  function ParseFirst(ps: seq<Parser>, pos: nat, e: Engine): Result
    decreases ps, 0
  {
    if ps == [] then Fail
    else
      var r := Parse(ps[0], pos, e);
      if r.Fail? then ParseFirst(ps[1..], pos, e) else r
  }

  // ----- The builder's constructors, which flatten what they nest -----

  function FlattenSequences(ps: seq<Parser>): seq<Parser> {
    if ps == [] then []
    else (if ps[0].Sequence? then ps[0].ps else [ps[0]]) + FlattenSequences(ps[1..])
  }

  function SequenceOf(ps: seq<Parser>): Parser {
    Sequence(FlattenSequences(ps))
  }

  function FlattenChoices(ps: seq<Parser>): seq<Parser> {
    if ps == [] then []
    else (if ps[0].Choice? then ps[0].ps else [ps[0]]) + FlattenChoices(ps[1..])
  }

  function ChoiceOf(ps: seq<Parser>): Parser {
    Choice(FlattenChoices(ps))
  }

  lemma {:induction false} ParseAllAppend(a: seq<Parser>, b: seq<Parser>, pos: nat, e: Engine)
    ensures ParseAll(a + b, pos, e) ==
            var r := ParseAll(a, pos, e); if r.Match? then ParseAll(b, r.end, e) else r
    decreases |a|
  {
    if a == [] {
      assert a + b == b;
    } else {
      assert (a + b)[0] == a[0] && (a + b)[1..] == a[1..] + b;
      var r := Parse(a[0], pos, e);
      if r.Match? {
        ParseAllAppend(a[1..], b, r.end, e);
      }
    }
  }

  /** Flattening does not change what a sequence recognises. */
  lemma {:induction false} SequenceOfParses(ps: seq<Parser>, pos: nat, e: Engine)
    ensures Parse(SequenceOf(ps), pos, e) == ParseAll(ps, pos, e)
    decreases |ps|
  {
    if ps != [] {
      var first := if ps[0].Sequence? then ps[0].ps else [ps[0]];
      ParseAllAppend(first, FlattenSequences(ps[1..]), pos, e);
      if !ps[0].Sequence? {
        assert first[1..] == [];
        var r := Parse(ps[0], pos, e);
        assert r.Match? ==> ParseAll([], r.end, e) == r;
      }
      assert ParseAll(first, pos, e) == Parse(ps[0], pos, e);
      var r := Parse(ps[0], pos, e);
      if r.Match? {
        SequenceOfParses(ps[1..], r.end, e);
      }
    }
  }

  // ----- The recursion with and without the memo -----

  const MAX_PERMUTE := 6

  const BITS: seq<bv32> := [1, 2, 4, 8, 16, 32]

  /** `1u << i` for the few parsers that are permuted. */
  function Bit(i: nat): bv32
    requires i < MAX_PERMUTE
  {
    BITS[i]
  }

  predicate Has(mask: bv32, i: nat)
    requires i < MAX_PERMUTE
  {
    mask & Bit(i) != 0
  }

  function Clear(mask: bv32, i: nat): bv32
    requires i < MAX_PERMUTE
  {
    mask & !Bit(i)
  }

  lemma AndAtMost(m: bv32, x: bv32)
    ensures m & x <= m
  {
  }

  lemma ClearOwn(m: bv32, b: bv32)
    ensures (m & !b) & b == 0
  {
  }

  lemma ClearKeeps(m: bv32, b: bv32, c: bv32)
    ensures b == c ==> (m & !b) & c == 0
    ensures b & c == 0 ==> (m & !b) & c == m & c
  {
  }

  lemma ClearShrinks(mask: bv32, i: nat)
    requires i < MAX_PERMUTE && Has(mask, i)
    ensures Clear(mask, i) < mask
  {
    AndAtMost(mask, !Bit(i));
    ClearOwn(mask, Bit(i));
  }

  lemma BitsDisjoint(i: nat, j: nat)
    requires i < MAX_PERMUTE && j < MAX_PERMUTE && i != j
    ensures Bit(i) & Bit(j) == 0
  {
  }

  lemma ClearOther(mask: bv32, i: nat, j: nat)
    requires i < MAX_PERMUTE && j < MAX_PERMUTE && i != j
    ensures Clear(mask, i) & Bit(j) == mask & Bit(j)
  {
    BitsDisjoint(i, j);
    ClearKeeps(mask, Bit(i), Bit(j));
  }

  lemma HasAfterClear(mask: bv32, i: nat, j: nat)
    requires i < MAX_PERMUTE && j < MAX_PERMUTE
    ensures i == j ==> !Has(Clear(mask, i), j)
    ensures i != j ==> Has(Clear(mask, i), j) == Has(mask, j)
  {
    if i == j {
      ClearOwn(mask, Bit(i));
    } else {
      ClearOther(mask, i, j);
    }
  }

  lemma ClearAll(mask: bv32, i: nat)
    requires i < MAX_PERMUTE
    ensures !Has(Clear(mask, i), i)
    ensures forall j :: 0 <= j < MAX_PERMUTE && i != j ==> Has(Clear(mask, i), j) == Has(mask, j)
  {
    HasAfterClear(mask, i, i);
    forall j | 0 <= j < MAX_PERMUTE && i != j ensures Has(Clear(mask, i), j) == Has(mask, j) {
      HasAfterClear(mask, i, j);
    }
  }

  /** No parser beyond the first `n` is in the mask. */
  predicate InRange(mask: bv32, n: nat)
    requires n <= MAX_PERMUTE
  {
    mask < (if n == MAX_PERMUTE then 64 else Bit(n))
  }

  lemma ClearInRange(mask: bv32, i: nat, n: nat)
    requires i < MAX_PERMUTE && n <= MAX_PERMUTE && InRange(mask, n)
    ensures InRange(Clear(mask, i), n)
  {
    AndAtMost(mask, !Bit(i));
  }

  lemma NonZeroHas(mask: bv32, n: nat)
    requires n <= MAX_PERMUTE && InRange(mask, n)
    ensures mask != 0 <==> exists i :: 0 <= i < n && Has(mask, i)
  {
    if mask != 0 {
      assert mask < 64;
      assert exists i :: 0 <= i < MAX_PERMUTE && Has(mask, i) by {
        assert Has(mask, 0) || Has(mask, 1) || Has(mask, 2) || Has(mask, 3) || Has(mask, 4) || Has(mask, 5);
      }
      forall i | n <= i < MAX_PERMUTE ensures !Has(mask, i) {}
    }
  }

  /** The parser for the parsers in `remaining`, rebuilt afresh at every use. */
  function Plain(ps: seq<Parser>, remaining: bv32): Parser
    requires |ps| <= MAX_PERMUTE
    decreases remaining, |ps| + 1
  {
    if remaining == 0 then Eps else Rule(remaining, Choice(Alternatives(ps, remaining, |ps|)))
  }

  /** The alternatives that start with one of the first `n` parsers. */
  function Alternatives(ps: seq<Parser>, remaining: bv32, n: nat): seq<Parser>
    requires n <= |ps| <= MAX_PERMUTE
    decreases remaining, n
  {
    if n == 0 then []
    else
      var i := n - 1;
      Alternatives(ps, remaining, i)
      + (if Has(remaining, i) then
           ClearShrinks(remaining, i);
           [SequenceOf([ps[i], Plain(ps, Clear(remaining, i))])]
         else [])
  }

  /** A key of the memo: the bits of the parsers still to come. */
  datatype Remaining = Remaining(bits: bv32)

  /** The memo of `permute`, from mask to the rule built for it. */
  class RuleMemo {
    const parsers: seq<Parser>
    var rules: map<Remaining, Parser>

    ghost predicate Valid()
      reads this
    {
      && |parsers| <= MAX_PERMUTE
      && forall m <- rules :: m.bits != 0 && rules[m] == Plain(parsers, m.bits)
    }

    constructor (parsers: seq<Parser>)
      requires |parsers| <= MAX_PERMUTE
      ensures Valid() && this.parsers == parsers && rules == map[]
    {
      this.parsers := parsers;
      rules := map[];
    }

    method RemainingOf(remaining: bv32) returns (p: Parser)
      requires Valid()
      modifies this
      ensures Valid()
      ensures p == Plain(parsers, remaining)
      ensures forall m <- old(rules) :: m in rules
      decreases remaining
    {
      if remaining == 0 {
        return Eps;
      }
      if Remaining(remaining) in rules {
        return rules[Remaining(remaining)];
      }
      var alternatives := ChoiceOf([]);
      for i := 0 to |parsers|
        invariant Valid()
        invariant alternatives == Choice(Alternatives(parsers, remaining, i))
        invariant forall m <- old(rules) :: m in rules
      {
        if remaining & Bit(i) != 0 {
          ClearShrinks(remaining, i);
          var rest := RemainingOf(remaining & !Bit(i));
          var order := SequenceOf([parsers[i], rest]);
          AddAlternative(alternatives.ps, order);
          alternatives := ChoiceOf([alternatives, order]);
        }
      }
      p := Rule(remaining, alternatives);
      assert p == Plain(parsers, remaining);
      rules := rules[Remaining(remaining) := p];
    }
  }

  lemma AddAlternative(ps: seq<Parser>, order: Parser)
    requires !order.Choice?
    ensures ChoiceOf([Choice(ps), order]) == Choice(ps + [order])
  {
    var qs := [Choice(ps), order];
    assert qs[1..] == [order] && [order][1..] == [];
    assert FlattenChoices([order]) == [order] + FlattenChoices([]) == [order];
  }

  function FullMask(n: nat): bv32
    requires n <= MAX_PERMUTE
  {
    if n == MAX_PERMUTE then 63 else Bit(n) - 1
  }

  /** What `permute` returns: nothing to order, too much to order, or every order. */
  function Permuted(ps: seq<Parser>): Parser {
    if ps == [] then Eps
    else if |ps| == 1 || |ps| > MAX_PERMUTE then SequenceOf(ps)
    else Plain(ps, FullMask(|ps|))
  }

  method BuildPermute(parsers: seq<Parser>) returns (p: Parser)
    ensures p == Permuted(parsers)
  {
    if parsers == [] {
      return Eps;
    }
    if |parsers| == 1 || |parsers| > MAX_PERMUTE {
      return SequenceOf(parsers);
    }
    var memo := new RuleMemo(parsers);
    p := memo.RemainingOf(FullMask(|parsers|));
  }

  // ----- It recognises exactly the orders -----

  /** The parsers `order` names, run one after the other. */
  function RunOrder(ps: seq<Parser>, order: seq<nat>, pos: nat, e: Engine): Result
    requires forall k :: 0 <= k < |order| ==> order[k] < |ps|
  {
    if order == [] then Match(pos)
    else
      var r := Parse(ps[order[0]], pos, e);
      if r.Match? then RunOrder(ps, order[1..], r.end, e) else r
  }

  /** `order` lists the parsers of the mask, each once. */
  ghost predicate IsOrder(order: seq<nat>, mask: bv32, n: nat)
    requires n <= MAX_PERMUTE
  {
    && (forall k :: 0 <= k < |order| ==> order[k] < n && Has(mask, order[k]))
    && (forall i :: 0 <= i < n && Has(mask, i) ==> i in order)
    && (forall j, k :: 0 <= j < k < |order| ==> order[j] != order[k])
  }

  lemma OrderTail(order: seq<nat>, mask: bv32, n: nat)
    requires n <= MAX_PERMUTE && InRange(mask, n) && IsOrder(order, mask, n)
    ensures order == [] <==> mask == 0
    ensures order != [] ==> order[0] < n && Has(mask, order[0]) && IsOrder(order[1..], Clear(mask, order[0]), n)
  {
    NonZeroHas(mask, n);
    if order != [] {
      var i := order[0];
      assert i in order;
      ClearAll(mask, i);
      forall k | 0 <= k < |order[1..]| ensures order[1..][k] < n && Has(Clear(mask, i), order[1..][k]) {
        assert order[1..][k] == order[k + 1];
      }
      forall j | 0 <= j < n && Has(Clear(mask, i), j) ensures j in order[1..] {
        assert j in order && order == [i] + order[1..];
      }
    }
  }

  lemma OrderCons(i: nat, rest: seq<nat>, mask: bv32, n: nat)
    requires n <= MAX_PERMUTE && i < n && Has(mask, i) && IsOrder(rest, Clear(mask, i), n)
    ensures IsOrder([i] + rest, mask, n)
  {
    ClearAll(mask, i);
  }

  /** One order comes before another in the dictionary order of parser indices. */
  ghost predicate Before(a: seq<nat>, b: seq<nat>) {
    a != [] && b != [] && (a[0] < b[0] || (a[0] == b[0] && Before(a[1..], b[1..])))
  }

  /** The outcome of trying the orders in dictionary order: that of the first order that
      does not fail, or failure when all of them fail. */
  ghost predicate FirstOrderDecides(ps: seq<Parser>, mask: bv32, pos: nat, e: Engine, r: Result)
    requires |ps| <= MAX_PERMUTE
  {
    if r.Fail? then forall o | IsOrder(o, mask, |ps|) :: RunOrder(ps, o, pos, e).Fail?
    else exists o :: IsOrder(o, mask, |ps|) && Decides(ps, o, mask, pos, e, r)
  }

  ghost predicate Decides(ps: seq<Parser>, o: seq<nat>, mask: bv32, pos: nat, e: Engine, r: Result)
    requires |ps| <= MAX_PERMUTE && IsOrder(o, mask, |ps|)
  {
    && RunOrder(ps, o, pos, e) == r
    && forall o' | IsOrder(o', mask, |ps|) && Before(o', o) :: RunOrder(ps, o', pos, e).Fail?
  }

  /** The same, among the orders that start below `n`. */
  ghost predicate FirstOrderBelow(ps: seq<Parser>, mask: bv32, n: nat, pos: nat, e: Engine, r: Result)
    requires n <= |ps| <= MAX_PERMUTE
  {
    if r.Fail? then forall o | IsOrder(o, mask, |ps|) && o != [] && o[0] < n :: RunOrder(ps, o, pos, e).Fail?
    else exists o :: IsOrder(o, mask, |ps|) && o != [] && o[0] < n && Decides(ps, o, mask, pos, e, r)
  }

  lemma {:induction false} ParseFirstAppend(a: seq<Parser>, b: seq<Parser>, pos: nat, e: Engine)
    ensures ParseFirst(a + b, pos, e) ==
            var r := ParseFirst(a, pos, e); if r.Fail? then ParseFirst(b, pos, e) else r
    decreases |a|
  {
    if a == [] {
      assert a + b == b;
    } else {
      assert (a + b)[0] == a[0] && (a + b)[1..] == a[1..] + b;
      ParseFirstAppend(a[1..], b, pos, e);
    }
  }

  lemma PairParses(p: Parser, q: Parser, pos: nat, e: Engine)
    ensures Parse(SequenceOf([p, q]), pos, e) ==
            var r := Parse(p, pos, e); if r.Match? then Parse(q, r.end, e) else r
  {
    SequenceOfParses([p, q], pos, e);
    assert [p, q][1..] == [q] && [q][1..] == [];
    var r := Parse(p, pos, e);
    if r.Match? {
      var s := Parse(q, r.end, e);
      assert s.Match? ==> ParseAll([], s.end, e) == s;
      assert ParseAll([q], r.end, e) == s;
    }
  }

  lemma {:induction false} PlainRecognises(ps: seq<Parser>, mask: bv32, pos: nat, e: Engine)
    requires |ps| <= MAX_PERMUTE && InRange(mask, |ps|)
    ensures FirstOrderDecides(ps, mask, pos, e, Parse(Plain(ps, mask), pos, e))
    decreases mask, |ps| + 1
  {
    var r := Parse(Plain(ps, mask), pos, e);
    if mask == 0 {
      assert IsOrder([], 0, |ps|);
      assert Decides(ps, [], 0, pos, e, r);
    } else {
      AlternativesRecognise(ps, mask, |ps|, pos, e);
      var alternatives := Alternatives(ps, mask, |ps|);
      assert Parse(Choice(alternatives), pos, e) == ParseFirst(alternatives, pos, e);
      forall o | IsOrder(o, mask, |ps|) ensures o != [] && o[0] < |ps| {
        OrderTail(o, mask, |ps|);
      }
    }
  }

  lemma {:induction false} AlternativesRecognise(ps: seq<Parser>, mask: bv32, n: nat, pos: nat, e: Engine)
    requires n <= |ps| <= MAX_PERMUTE && InRange(mask, |ps|)
    ensures FirstOrderBelow(ps, mask, n, pos, e, ParseFirst(Alternatives(ps, mask, n), pos, e))
    decreases mask, n
  {
    if n > 0 {
      var i := n - 1;
      var r := ParseFirst(Alternatives(ps, mask, i), pos, e);
      AlternativesRecognise(ps, mask, i, pos, e);
      if Has(mask, i) {
        var s := StartRecognises(ps, mask, i, pos, e);
        LastAlternative(ps, mask, i, pos, e, s);
        Extend(ps, mask, i, pos, e, r, s);
      } else {
        NoAlternative(ps, mask, i);
        NoneStartsWith(ps, mask, i, pos, e, r);
      }
    }
  }

  lemma {:induction false} StartRecognises(ps: seq<Parser>, mask: bv32, i: nat, pos: nat, e: Engine) returns (s: Result)
    requires i < |ps| <= MAX_PERMUTE && InRange(mask, |ps|) && Has(mask, i)
    ensures s == Parse(SequenceOf([ps[i], Plain(ps, Clear(mask, i))]), pos, e)
    ensures FirstOrderFrom(ps, mask, i, pos, e, s)
    decreases mask, i
  {
    ClearShrinks(mask, i);
    ClearInRange(mask, i, |ps|);
    var first := Parse(ps[i], pos, e);
    if first.Match? {
      PlainRecognises(ps, Clear(mask, i), first.end, e);
    }
    s := Parse(SequenceOf([ps[i], Plain(ps, Clear(mask, i))]), pos, e);
    PairParses(ps[i], Plain(ps, Clear(mask, i)), pos, e);
    StartingWith(ps, mask, i, pos, e, s);
  }

  lemma NoAlternative(ps: seq<Parser>, mask: bv32, i: nat)
    requires i < |ps| <= MAX_PERMUTE && !Has(mask, i)
    ensures Alternatives(ps, mask, i + 1) == Alternatives(ps, mask, i)
  {
    assert Alternatives(ps, mask, i) + [] == Alternatives(ps, mask, i);
  }

  /** Parsing the alternatives that start with parser `i` or an earlier one. */
  lemma LastAlternative(ps: seq<Parser>, mask: bv32, i: nat, pos: nat, e: Engine, s: Result)
    requires i < |ps| <= MAX_PERMUTE && Has(mask, i)
    requires s == Parse(SequenceOf([ps[i], Plain(ps, Clear(mask, i))]), pos, e)
    ensures var r := ParseFirst(Alternatives(ps, mask, i), pos, e);
            ParseFirst(Alternatives(ps, mask, i + 1), pos, e) == if r.Fail? then s else r
  {
    var order := SequenceOf([ps[i], Plain(ps, Clear(mask, i))]);
    ClearShrinks(mask, i);
    OneAlternative(order, pos, e);
    ParseFirstAppend(Alternatives(ps, mask, i), [order], pos, e);
  }

  lemma OneAlternative(p: Parser, pos: nat, e: Engine)
    ensures ParseFirst([p], pos, e) == Parse(p, pos, e)
  {
    assert ParseFirst([p][1..], pos, e) == Fail;
  }

  /** The orders that start with parser `i`. */
  ghost predicate FirstOrderFrom(ps: seq<Parser>, mask: bv32, i: nat, pos: nat, e: Engine, r: Result)
    requires i < |ps| <= MAX_PERMUTE
  {
    if r.Fail? then forall o | IsOrder(o, mask, |ps|) && o != [] && o[0] == i :: RunOrder(ps, o, pos, e).Fail?
    else exists o :: IsOrder(o, mask, |ps|) && o != [] && o[0] == i && DecidesFrom(ps, o, mask, pos, e, r)
  }

  ghost predicate DecidesFrom(ps: seq<Parser>, o: seq<nat>, mask: bv32, pos: nat, e: Engine, r: Result)
    requires |ps| <= MAX_PERMUTE && IsOrder(o, mask, |ps|) && o != []
  {
    && RunOrder(ps, o, pos, e) == r
    && forall o' | IsOrder(o', mask, |ps|) && o' != [] && o'[0] == o[0] && Before(o', o) ::
         RunOrder(ps, o', pos, e).Fail?
  }

  lemma LowestBit(mask: bv32, n: nat) returns (i: nat)
    requires n <= MAX_PERMUTE && exists k :: 0 <= k < n && Has(mask, k)
    ensures i < n && Has(mask, i)
    ensures forall k :: 0 <= k < i ==> !Has(mask, k)
  {
    i := 0;
    while !Has(mask, i)
      invariant 0 <= i < n
      invariant exists k :: i <= k < n && Has(mask, k)
      invariant forall k :: 0 <= k < i ==> !Has(mask, k)
      decreases n - i
    {
      i := i + 1;
    }
  }

  /** The order of increasing indices, before which there is none. */
  lemma AnyOrder(mask: bv32, n: nat) returns (o: seq<nat>)
    requires n <= MAX_PERMUTE && InRange(mask, n)
    ensures IsOrder(o, mask, n)
    ensures forall o' | IsOrder(o', mask, n) :: !Before(o', o)
    decreases mask
  {
    if mask == 0 {
      o := [];
    } else {
      NonZeroHas(mask, n);
      var i := LowestBit(mask, n);
      ClearShrinks(mask, i);
      ClearInRange(mask, i, n);
      var rest := AnyOrder(Clear(mask, i), n);
      o := [i] + rest;
      OrderCons(i, rest, mask, n);
      forall o' | IsOrder(o', mask, n) ensures !Before(o', o) {
        OrderTail(o', mask, n);
        assert o[1..] == rest;
      }
    }
  }

  lemma StartingWith(ps: seq<Parser>, mask: bv32, i: nat, pos: nat, e: Engine, r: Result)
    requires i < |ps| <= MAX_PERMUTE && InRange(mask, |ps|) && Has(mask, i)
    requires var first := Parse(ps[i], pos, e);
             if first.Match? then FirstOrderDecides(ps, Clear(mask, i), first.end, e, r) else r == first
    ensures FirstOrderFrom(ps, mask, i, pos, e, r)
  {
    var first, sub := Parse(ps[i], pos, e), Clear(mask, i);
    ClearInRange(mask, i, |ps|);
    forall o | IsOrder(o, mask, |ps|) && o != [] && o[0] == i
      ensures IsOrder(o[1..], sub, |ps|)
      ensures RunOrder(ps, o, pos, e) == if first.Match? then RunOrder(ps, o[1..], first.end, e) else first
    {
      OrderTail(o, mask, |ps|);
    }
    if !r.Fail? {
      var rest;
      if first.Match? {
        rest :| IsOrder(rest, sub, |ps|) && Decides(ps, rest, sub, first.end, e, r);
      } else {
        rest := AnyOrder(sub, |ps|);
      }
      var o := [i] + rest;
      OrderCons(i, rest, mask, |ps|);
      assert o[1..] == rest;
      forall o' | IsOrder(o', mask, |ps|) && o' != [] && o'[0] == o[0] && Before(o', o)
        ensures RunOrder(ps, o', pos, e).Fail?
      {
        assert Before(o'[1..], rest);
      }
      assert DecidesFrom(ps, o, mask, pos, e, r);
    }
  }

  lemma Extend(ps: seq<Parser>, mask: bv32, i: nat, pos: nat, e: Engine, r: Result, s: Result)
    requires i < |ps| <= MAX_PERMUTE
    requires FirstOrderBelow(ps, mask, i, pos, e, r) && FirstOrderFrom(ps, mask, i, pos, e, s)
    ensures FirstOrderBelow(ps, mask, i + 1, pos, e, if r.Fail? then s else r)
  {
    if r.Fail? && !s.Fail? {
      var o :| IsOrder(o, mask, |ps|) && o != [] && o[0] == i && DecidesFrom(ps, o, mask, pos, e, s);
      forall o' | IsOrder(o', mask, |ps|) && Before(o', o) ensures RunOrder(ps, o', pos, e).Fail? {
      }
      assert Decides(ps, o, mask, pos, e, s);
    }
  }

  lemma NoneStartsWith(ps: seq<Parser>, mask: bv32, i: nat, pos: nat, e: Engine, r: Result)
    requires i < |ps| <= MAX_PERMUTE && !Has(mask, i)
    requires FirstOrderBelow(ps, mask, i, pos, e, r)
    ensures FirstOrderBelow(ps, mask, i + 1, pos, e, r)
  {
    forall o | IsOrder(o, mask, |ps|) && o != [] ensures o[0] != i {
      assert o[0] in o;
    }
  }

  // ----- The built parser -----

  /** `order` lists all the parsers, each once. */
  ghost predicate IsPermutation(order: seq<nat>, n: nat) {
    && (forall k :: 0 <= k < |order| ==> order[k] < n)
    && (forall i :: 0 <= i < n ==> i in order)
    && (forall j, k :: 0 <= j < k < |order| ==> order[j] != order[k])
  }

  /** `o` gives `r`, and every permutation before it fails. */
  ghost predicate IsFirst(ps: seq<Parser>, o: seq<nat>, pos: nat, e: Engine, r: Result)
    requires IsPermutation(o, |ps|)
  {
    && RunOrder(ps, o, pos, e) == r
    && forall o' | IsPermutation(o', |ps|) && Before(o', o) :: RunOrder(ps, o', pos, e).Fail?
  }

  lemma FullMaskHasAll(n: nat)
    requires 0 < n <= MAX_PERMUTE
    ensures InRange(FullMask(n), n)
    ensures forall i :: 0 <= i < n ==> Has(FullMask(n), i)
    ensures forall o :: IsOrder(o, FullMask(n), n) <==> IsPermutation(o, n)
  {
  }

  /** For two to six parsers, the built parser does not fail exactly when some order of
      all of them does not fail; its outcome is that of the first such order. */
  lemma PermuteRecognisesOrders(ps: seq<Parser>, pos: nat, e: Engine)
    requires 2 <= |ps| <= 6
    ensures var r := Parse(Permuted(ps), pos, e);
            && (r.Fail? <==> forall o | IsPermutation(o, |ps|) :: RunOrder(ps, o, pos, e).Fail?)
            && (!r.Fail? ==> exists o :: IsPermutation(o, |ps|) && IsFirst(ps, o, pos, e, r))
  {
    var n, mask := |ps|, FullMask(|ps|);
    FullMaskHasAll(n);
    PlainRecognises(ps, mask, pos, e);
    var r := Parse(Permuted(ps), pos, e);
    if !r.Fail? {
      var o :| IsOrder(o, mask, n) && Decides(ps, o, mask, pos, e, r);
      assert IsPermutation(o, n) && IsFirst(ps, o, pos, e, r);
    }
  }

  /** Outside that range only the given order is tried. */
  lemma OtherSizesKeepOrder(ps: seq<Parser>, pos: nat, e: Engine)
    requires |ps| < 2 || |ps| > 6
    ensures Parse(Permuted(ps), pos, e) == ParseAll(ps, pos, e)
  {
    if ps != [] {
      SequenceOfParses(ps, pos, e);
    }
  }
}
