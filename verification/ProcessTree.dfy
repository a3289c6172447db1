/**
 The resident memory of a process and its descendants: a set of process ids grown round by
 round over the rows of a process listing, until nothing new is added.
 */
module ProcessTree {
  import opened Text
  import opened ProcessRows

  // ----- Reachability -----

  predicate Edge(rows: seq<Row>, a: int, b: int) {
    exists k :: 0 <= k < |rows| && rows[k].parent == a && rows[k].pid == b
  }

  /** A chain of listed parent-child pairs. */
  predicate Chain(rows: seq<Row>, path: seq<int>) {
    forall i :: 0 < i < |path| ==> Edge(rows, path[i - 1], path[i])
  }

  predicate Leads(rows: seq<Row>, root: int, path: seq<int>, pid: int) {
    path != [] && path[0] == root && path[|path| - 1] == pid && Chain(rows, path)
  }

  ghost predicate Reachable(rows: seq<Row>, root: int, pid: int) {
    exists path :: Leads(rows, root, path, pid)
  }

  ghost predicate AllReachable(rows: seq<Row>, root: int, owned: set<int>) {
    forall p <- owned :: Reachable(rows, root, p)
  }

  lemma OneMoreStep(rows: seq<Row>, root: int, a: int, b: int)
    requires Reachable(rows, root, a) && Edge(rows, a, b)
    ensures Reachable(rows, root, b)
  {
    var path :| Leads(rows, root, path, a);
    var longer := path + [b];
    forall i | 0 < i < |longer|
      ensures Edge(rows, longer[i - 1], longer[i])
    {
      assert longer[i - 1] == path[i - 1];
      assert i < |path| ==> longer[i] == path[i];
    }
    assert Leads(rows, root, longer, b);
  }

  predicate Closed(rows: seq<Row>, owned: set<int>) {
    forall k :: 0 <= k < |rows| && rows[k].parent in owned ==> rows[k].pid in owned
  }

  /** A closed set cannot be left along a chain. */
  lemma {:induction false} StaysInside(rows: seq<Row>, owned: set<int>, path: seq<int>)
    requires Closed(rows, owned) && Chain(rows, path) && path != [] && path[0] in owned
    ensures path[|path| - 1] in owned
    decreases |path|
  {
    if |path| > 1 {
      var front := path[..|path| - 1];
      StaysInside(rows, owned, front);
      assert Edge(rows, path[|path| - 2], path[|path| - 1]);
    }
  }

  lemma ClosedHoldsReachable(rows: seq<Row>, root: int, owned: set<int>, pid: int)
    requires Closed(rows, owned) && root in owned && Reachable(rows, root, pid)
    ensures pid in owned
  {
    var path :| Leads(rows, root, path, pid);
    StaysInside(rows, owned, path);
  }

  // ----- The loops -----

  /** The listed children of the owned processes. */
  function Children(rows: seq<Row>, owned: set<int>): set<int> {
    set row | row in rows && row.parent in owned :: row.pid
  }

  function Listed(rows: seq<Row>): set<int> {
    set row | row in rows :: row.pid
  }

  lemma ChildIn(rows: seq<Row>, owned: set<int>, k: nat)
    requires k < |rows| && rows[k].parent in owned
    ensures rows[k].pid in Children(rows, owned)
  {
    assert rows[k] in rows;
  }

  lemma ChildrenAreReachable(rows: seq<Row>, root: int, owned: set<int>)
    requires AllReachable(rows, root, owned)
    ensures AllReachable(rows, root, owned + Children(rows, owned))
  {
    forall p | p in Children(rows, owned)
      ensures Reachable(rows, root, p)
    {
      var row :| row in rows && row.parent in owned && row.pid == p;
      OneMoreStep(rows, root, row.parent, p);
    }
  }

  lemma OnlyRoot(rows: seq<Row>, root: int)
    ensures Reachable(rows, root, root)
  {
    assert Leads(rows, root, [root], root);
  }

  /** The growing set ends as exactly what is reachable from the root, whatever cycles and
      duplicates the rows hold. Every round but the last adds a listed process. */
  method GrowOwned(rows: seq<Row>, root: int) returns (owned: set<int>)
    ensures forall p :: p in owned <==> Reachable(rows, root, p)
  {
    owned := {root};
    OnlyRoot(rows, root);
    while true
      invariant root in owned && owned <= {root} + Listed(rows)
      invariant AllReachable(rows, root, owned)
      decreases ({root} + Listed(rows)) - owned
    {
      var more := Children(rows, owned);
      if more <= owned {
        break;
      }
      ghost var extra :| extra in more && extra !in owned;
      assert extra in ({root} + Listed(rows)) - owned;
      ChildrenAreReachable(rows, root, owned);
      owned := owned + more;
    }
    forall k | 0 <= k < |rows| && rows[k].parent in owned
      ensures rows[k].pid in owned
    {
      ChildIn(rows, owned, k);
    }
    forall p | Reachable(rows, root, p)
      ensures p in owned
    {
      ClosedHoldsReachable(rows, root, owned, p);
    }
  }

  /** The resident size of the reachable rows among `part`. */
  ghost function ReachableRss(all: seq<Row>, root: int, part: seq<Row>): int {
    if part == [] then 0
    else
      ReachableRss(all, root, part[..|part| - 1])
      + if Reachable(all, root, part[|part| - 1].pid) then part[|part| - 1].rss else 0
  }

  ghost predicate AnyReachable(all: seq<Row>, root: int, part: seq<Row>) {
    exists k :: 0 <= k < |part| && Reachable(all, root, part[k].pid)
  }

  function Sum(values: seq<int>): int {
    if values == [] then 0 else Sum(values[..|values| - 1]) + values[|values| - 1]
  }

  /** 1024 times the resident sizes of the reachable rows, or nothing when no listed process
      is reachable. */
  method SumOwned(rows: seq<Row>, root: int) returns (r: Option<int>)
    ensures r == if AnyReachable(rows, root, rows) then Some(1024 * ReachableRss(rows, root, rows)) else None
  {
    var owned := GrowOwned(rows, root);
    var values: seq<int> := [];
    for i := 0 to |rows|
      invariant Sum(values) == 1024 * ReachableRss(rows, root, rows[..i])
      invariant values != [] <==> AnyReachable(rows, root, rows[..i])
    {
      assert rows[..i + 1][..i] == rows[..i] && rows[..i + 1][i] == rows[i];
      OneRowMore(rows, root, i);
      if rows[i].pid in owned {
        assert (values + [rows[i].rss * 1024])[..|values|] == values;
        values := values + [rows[i].rss * 1024];
      }
    }
    assert rows[..|rows|] == rows;
    return if values != [] then Some(Sum(values)) else None;
  }

  /** `tree_rss`. */
  method TreeRss(text: string, root: int) returns (r: Option<int>)
    ensures var rows := RowsOf(text);
            r == if AnyReachable(rows, root, rows) then Some(1024 * ReachableRss(rows, root, rows)) else None
  {
    var rows := ParseRows(text);
    r := SumOwned(rows, root);
  }

  lemma OneRowMore(rows: seq<Row>, root: int, i: nat)
    requires i < |rows|
    ensures AnyReachable(rows, root, rows[..i + 1])
       <==> AnyReachable(rows, root, rows[..i]) || Reachable(rows, root, rows[i].pid)
  {
    var before, after := rows[..i], rows[..i + 1];
    assert forall k :: 0 <= k < i ==> after[k] == before[k];
    assert after[i] == rows[i];
  }
}
