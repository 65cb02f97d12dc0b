/**
 The sample request of the enrichment (pxweb_v1/enrichment.py): up to two categories of every
 dimension, reduced from the last dimension on until the number of cells fits the limit.
 */
module CellSelection {
  import opened Common
  import opened Structure

  /** `prod(sizes)` */
  function Product(sizes: seq<nat>): nat {
    if sizes == [] then 1 else Product(sizes[..|sizes| - 1]) * sizes[|sizes| - 1]
  }

  /** A number of categories for every dimension: at least one, at most `full` of them. */
  ghost predicate Choice(sizes: seq<nat>, full: seq<nat>) {
    |sizes| == |full| && forall i :: 0 <= i < |sizes| ==> 1 <= sizes[i] <= full[i]
  }

  /** No choice that keeps the limit has more cells than `cells`. */
  ghost predicate BestWithin(full: seq<nat>, limit: int, cells: nat) {
    forall sizes :: Choice(sizes, full) && Product(sizes) <= limit ==> Product(sizes) <= cells
  }

  predicate OneOrTwo(sizes: seq<nat>) {
    forall i :: 0 <= i < |sizes| ==> 1 <= sizes[i] <= 2
  }

  function Pow2(n: nat): (r: nat)
    ensures r >= 1
  {
    if n == 0 then 1 else 2 * Pow2(n - 1)
  }

  lemma {:induction false} Pow2Monotone(m: nat, n: nat)
    requires m <= n
    ensures Pow2(m) <= Pow2(n)
    ensures m < n ==> 2 * Pow2(m) <= Pow2(n)
    decreases n
  {
    if m < n {
      Pow2Monotone(m, n - 1);
    }
  }

  /** The number of dimensions that get two categories. */
  function Twos(sizes: seq<nat>): nat {
    if sizes == [] then 0 else Twos(sizes[..|sizes| - 1]) + if sizes[|sizes| - 1] == 2 then 1 else 0
  }

  /** Every choice has a power of two of cells. */
  lemma {:induction false} ProductIsPow2(sizes: seq<nat>)
    requires OneOrTwo(sizes)
    ensures Product(sizes) == Pow2(Twos(sizes))
  {
    if sizes != [] {
      ProductIsPow2(sizes[..|sizes| - 1]);
    }
  }

  lemma {:induction false} TwosMonotone(sizes: seq<nat>, full: seq<nat>)
    requires Choice(sizes, full) && OneOrTwo(full)
    ensures Twos(sizes) <= Twos(full)
  {
    if sizes != [] {
      TwosMonotone(sizes[..|sizes| - 1], full[..|full| - 1]);
    }
  }

  lemma FullIsBest(full: seq<nat>, limit: int)
    requires OneOrTwo(full)
    ensures BestWithin(full, limit, Product(full))
  {
    forall sizes | Choice(sizes, full) ensures Product(sizes) <= Product(full) {
      ProductIsPow2(sizes);
      ProductIsPow2(full);
      TwosMonotone(sizes, full);
      Pow2Monotone(Twos(sizes), Twos(full));
    }
  }

  /** Two powers of two differ at least by a factor of two. */
  lemma HalfIsBest(full: seq<nat>, limit: int, cells: nat, n: nat)
    requires OneOrTwo(full) && cells == Pow2(n) && cells > limit && n > 0
    requires BestWithin(full, limit, cells)
    ensures BestWithin(full, limit, cells / 2)
  {
    forall sizes | Choice(sizes, full) && Product(sizes) <= limit ensures Product(sizes) <= cells / 2 {
      ProductIsPow2(sizes);
      if Twos(sizes) >= n {
        Pow2Monotone(n, Twos(sizes));
      }
      Pow2Monotone(Twos(sizes), n);
    }
  }

  function Ones(n: nat): seq<nat> { seq(n, _ => 1) }

  /** The sizes while the dimensions from `i` on are reduced. */
  function Reduced(full: seq<nat>, i: nat): seq<nat>
    requires i <= |full|
  {
    full[..i] + Ones(|full| - i)
  }

  lemma {:induction false} OnesAddNothing(sizes: seq<nat>, n: nat)
    ensures Product(sizes + Ones(n)) == Product(sizes) && Twos(sizes + Ones(n)) == Twos(sizes)
  {
    if n == 0 {
      assert sizes + Ones(0) == sizes;
    } else {
      OnesAddNothing(sizes, n - 1);
      assert (sizes + Ones(n))[..|sizes| + n - 1] == sizes + Ones(n - 1);
    }
  }

  /** Reducing one more dimension divides the cells by its size. */
  lemma ReduceOne(full: seq<nat>, i: nat)
    requires i < |full|
    ensures Product(Reduced(full, i + 1)) == Product(Reduced(full, i)) * full[i]
    ensures Twos(Reduced(full, i + 1)) == Twos(Reduced(full, i)) + if full[i] == 2 then 1 else 0
  {
    OnesAddNothing(full[..i], |full| - i);
    OnesAddNothing(full[..i + 1], |full| - i - 1);
    assert full[..i + 1][..i] == full[..i];
  }

  /** The dimensions of accepted metadata: distinct ids with dense, non-empty category indexes. */
  ghost predicate Selectable(ids: seq<string>, indexes: map<string, map<string, int>>) {
    && Distinct(ids)
    && forall i :: 0 <= i < |ids| ==> ids[i] in indexes && IsIndex(indexes[ids[i]]) && indexes[ids[i]] != map[]
  }

  function UpToTwo(keys: seq<string>): seq<string> { keys[..Min(2, |keys|)] }

  /** How many categories of each dimension could be asked for at most. */
  ghost function FullSizes(ids: seq<string>, indexes: map<string, map<string, int>>): (full: seq<nat>)
    requires Selectable(ids, indexes)
    ensures |full| == |ids| && OneOrTwo(full)
  {
    seq(|ids|, i requires 0 <= i < |ids| => Min(2, |indexes[ids[i]]|))
  }

  /** The selection asks, of dimension `ids[i]`, for the `sizes[i]` categories of lowest ordinal. */
  ghost predicate Selects(ids: seq<string>, indexes: map<string, map<string, int>>, selection: map<string, seq<string>>,
                          sizes: seq<nat>)
    requires Selectable(ids, indexes)
  {
    && selection.Keys == Elements(ids)
    && |sizes| == |ids|
    && forall i :: 0 <= i < |ids| ==>
         sizes[i] <= |indexes[ids[i]]| && selection[ids[i]] == Ordered(indexes[ids[i]])[..sizes[i]]
  }

  /** The largest sample within the limit, made smaller from the last dimensions only. */
  ghost predicate Optimal(full: seq<nat>, limit: int, sizes: seq<nat>) {
    && Choice(sizes, full)
    && (exists k :: 0 <= k <= |full| && sizes == Reduced(full, k))
    && (limit >= 1 ==> Product(sizes) <= limit && BestWithin(full, limit, Product(sizes)))
    && (limit < 1 ==> sizes == Ones(|full|))
  }

  lemma ReducedIsChoice(full: seq<nat>, i: nat)
    requires OneOrTwo(full) && i <= |full|
    ensures Choice(Reduced(full, i), full) && OneOrTwo(Reduced(full, i))
  {
  }

  /** One round of the loop keeps the bound and the count. */
  lemma RoundKeeps(full: seq<nat>, limit: int, i: nat, cells: nat)
    requires OneOrTwo(full) && i < |full|
    requires cells == Product(Reduced(full, i + 1)) && cells > limit && BestWithin(full, limit, cells)
    ensures cells / full[i] == Product(Reduced(full, i)) && BestWithin(full, limit, cells / full[i])
  {
    ReduceOne(full, i);
    ReducedIsChoice(full, i + 1);
    ProductIsPow2(Reduced(full, i + 1));
    if full[i] == 2 {
      HalfIsBest(full, limit, cells, Twos(Reduced(full, i + 1)));
    }
  }

  /** The first `n` dimensions have their two categories. */
  ghost predicate TwoOfFirst(ids: seq<string>, indexes: map<string, map<string, int>>,
                             selection: map<string, seq<string>>, n: nat)
    requires Selectable(ids, indexes) && n <= |ids|
  {
    && selection.Keys == Elements(ids[..n])
    && forall i :: 0 <= i < n ==> selection[ids[i]] == UpToTwo(Ordered(indexes[ids[i]]))
  }

  lemma NextTwo(ids: seq<string>, indexes: map<string, map<string, int>>, selection: map<string, seq<string>>, n: nat)
    requires Selectable(ids, indexes) && n < |ids| && TwoOfFirst(ids, indexes, selection, n)
    ensures TwoOfFirst(ids, indexes, selection[ids[n] := UpToTwo(Ordered(indexes[ids[n]]))], n + 1)
  {
    hide IsIndex, UpToTwo, Ordered;
    assert ids[..n + 1] == ids[..n] + [ids[n]];
    ElementsAppend(ids[..n], ids[n]);
  }

  lemma TwoOfAll(ids: seq<string>, indexes: map<string, map<string, int>>, selection: map<string, seq<string>>)
    requires Selectable(ids, indexes) && TwoOfFirst(ids, indexes, selection, |ids|)
    ensures Selects(ids, indexes, selection, FullSizes(ids, indexes))
  {
    hide IsIndex, Ordered;
    assert ids[..|ids|] == ids;
  }

  /** The largest sample: two categories wherever there are two. */
  method SelectTwo(ids: seq<string>, indexes: map<string, map<string, int>>)
    returns (selection: map<string, seq<string>>, cells: nat)
    requires Selectable(ids, indexes)
    ensures Selects(ids, indexes, selection, FullSizes(ids, indexes))
    ensures cells == Product(FullSizes(ids, indexes))
  {
    hide IsIndex, TwoOfFirst, Selects;
    ghost var full := FullSizes(ids, indexes);
    selection, cells := map[], 1;
    assert TwoOfFirst(ids, indexes, selection, 0) by { NothingSelected(ids, indexes); }
    var j := 0;
    while j < |ids|
      invariant 0 <= j <= |ids|
      invariant TwoOfFirst(ids, indexes, selection, j) && cells == Product(full[..j])
    {
      var few := UpToTwo(Ordered(indexes[ids[j]]));
      NextTwo(ids, indexes, selection, j);
      assert full[..j + 1][..j] == full[..j];
      selection := selection[ids[j] := few];
      cells := cells * |few|;
      j := j + 1;
    }
    TwoOfAll(ids, indexes, selection);
    assert full[..j] == full;
  }

  lemma NothingSelected(ids: seq<string>, indexes: map<string, map<string, int>>)
    requires Selectable(ids, indexes)
    ensures TwoOfFirst(ids, indexes, map[], 0)
  {
  }

  lemma ReducedSelects(ids: seq<string>, indexes: map<string, map<string, int>>, selection: map<string, seq<string>>,
                       i: nat)
    requires Selectable(ids, indexes) && i < |ids|
    requires Selects(ids, indexes, selection, Reduced(FullSizes(ids, indexes), i + 1))
    ensures ids[i] in selection && |selection[ids[i]]| == FullSizes(ids, indexes)[i]
    ensures Selects(ids, indexes, selection[ids[i] := selection[ids[i]][..1]], Reduced(FullSizes(ids, indexes), i))
  {
    hide IsIndex;
    var full := FullSizes(ids, indexes);
    var before, after := Reduced(full, i + 1), Reduced(full, i);
    assert before[i] == full[i] && after[i] == 1;
    assert ids[i] in selection;
    var less := selection[ids[i] := selection[ids[i]][..1]];
    assert Ordered(indexes[ids[i]])[..full[i]][..1] == Ordered(indexes[ids[i]])[..1];
    forall j | 0 <= j < |ids|
      ensures after[j] <= |indexes[ids[j]]| && less[ids[j]] == Ordered(indexes[ids[j]])[..after[j]]
    {
      assert j != i ==> after[j] == before[j];
    }
  }

  lemma AllReduced(full: seq<nat>)
    ensures Reduced(full, 0) == Ones(|full|) && Product(Ones(|full|)) == 1
  {
    OnesAddNothing([], |full|);
    assert [] + Ones(|full|) == Ones(|full|);
  }

  /** The reduction loop of `enrich_metadata`. */
  method SelectCells(ids: seq<string>, indexes: map<string, map<string, int>>, limit: int)
    returns (selection: map<string, seq<string>>, cells: nat)
    requires Selectable(ids, indexes)
    ensures exists sizes :: Selects(ids, indexes, selection, sizes) && Optimal(FullSizes(ids, indexes), limit, sizes)
                            && cells == Product(sizes)
  {
    hide Selectable, Selects, BestWithin, IsIndex, Product;
    ghost var full := FullSizes(ids, indexes);
    selection, cells := SelectTwo(ids, indexes);
    FullIsBest(full, limit);
    assert full == Reduced(full, |ids|);
    var i := |ids|;
    while i > 0 && cells > limit
      invariant 0 <= i <= |ids|
      invariant Selects(ids, indexes, selection, Reduced(full, i))
      invariant cells == Product(Reduced(full, i)) && BestWithin(full, limit, cells)
    {
      RoundKeeps(full, limit, i - 1, cells);
      ReducedSelects(ids, indexes, selection, i - 1);
      i := i - 1;
      cells := cells / |selection[ids[i]]|;
      selection := selection[ids[i] := selection[ids[i]][..1]];
    }
    ReducedIsChoice(full, i);
    AllReduced(full);
    ghost var sizes := Reduced(full, i);
    ProductIsPow2(sizes);
    assert Selects(ids, indexes, selection, sizes) && Optimal(full, limit, sizes) && cells == Product(sizes);
  }

  /** What was asked for at most: two categories of a dimension, or the only one. */
  lemma FullIsTwo(ids: seq<string>, indexes: map<string, map<string, int>>, i: nat)
    requires Selectable(ids, indexes) && i < |ids|
    ensures |indexes[ids[i]]| >= 1
    ensures FullSizes(ids, indexes)[i] == if |indexes[ids[i]]| == 1 then 1 else 2
  {
    hide IsIndex;
    assert |indexes[ids[i]].Keys| == |indexes[ids[i]]|;
  }

  /** A number of cells of some choice, counted dimension by dimension. */
  ghost predicate Counted(sizes: seq<nat>, counts: seq<nat>) {
    |counts| == |sizes| + 1 && counts[0] == 1 && forall i :: 0 <= i < |sizes| ==> counts[i + 1] == counts[i] * sizes[i]
  }

  lemma {:induction false} ProductCounts(sizes: seq<nat>) returns (counts: seq<nat>)
    ensures Counted(sizes, counts) && counts[|sizes|] == Product(sizes)
  {
    if sizes == [] {
      counts := [1];
    } else {
      var front := ProductCounts(sizes[..|sizes| - 1]);
      counts := front + [Product(sizes)];
      forall i | 0 <= i < |sizes| ensures counts[i + 1] == counts[i] * sizes[i] {
        assert i < |sizes| - 1 ==> front[i + 1] == front[i] * sizes[..|sizes| - 1][i];
      }
    }
  }

  /**
   The sample, plainly: a first part of the dimensions is asked in full and the rest for one category each;
   within a limit of at least 1, no other choice of one category or more from each has more cells.
   */
  lemma OptimalPlainly(full: seq<nat>, limit: int, sizes: seq<nat>) returns (k: nat)
    requires Optimal(full, limit, sizes)
    ensures k <= |full| == |sizes| && forall i :: 0 <= i < |full| ==> sizes[i] == if i < k then full[i] else 1
    ensures limit >= 1 ==> Product(sizes) <= limit
    ensures limit >= 1 ==>
      forall other ::
        (|other| == |full| && (forall i :: 0 <= i < |full| ==> 1 <= other[i] <= full[i]) && Product(other) <= limit) ==>
          Product(other) <= Product(sizes)
  {
    k :| 0 <= k <= |full| && sizes == Reduced(full, k);
    hide Product;
    forall other | |other| == |full| && (forall i :: 0 <= i < |full| ==> 1 <= other[i] <= full[i])
      ensures Choice(other, full)
    {
    }
  }
}
