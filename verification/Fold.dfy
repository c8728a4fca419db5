/** A selection by value: the largest few in a stable order, and one summary of the rest. */

module Fold {
  import opened Options

  /** Something to show and what it is worth. */
  datatype Item = Item(name: string, n: nat)

  /** The summary: a count and a total. */
  datatype Rest = Rest(count: nat, value: nat)

  datatype Folded = Folded(kept: seq<Item>, rest: Option<Rest>)

  function Total(items: seq<Item>): nat {
    if items == [] then 0 else Total(items[..|items| - 1]) + items[|items| - 1].n
  }

  function One(x: Item, v: nat): nat {
    if x.n >= v then 1 else 0
  }

  /** How many items are worth at least so much. */
  function AtLeast(items: seq<Item>, v: nat): (n: nat)
    ensures n <= |items|
  {
    if items == [] then 0
    else AtLeast(items[..|items| - 1], v) + One(items[|items| - 1], v)
  }

  /** How many items go before the `i`th: those worth more, and those worth as much that
      came before it. */
  function Rank(items: seq<Item>, i: nat): (n: nat)
    requires i < |items|
    ensures n < |items|
  {
    AtLeast(items[..i], items[i].n) + AtLeast(items[i + 1..], items[i].n + 1)
  }

  predicate Descending(items: seq<Item>) {
    forall i :: 0 < i < |items| ==> items[i - 1].n >= items[i].n
  }

  /// The sort

  function Insert(sorted: seq<Item>, x: Item): seq<Item> {
    var n := |sorted| - 1;
    if n < 0 || sorted[n].n >= x.n then sorted + [x]
    else Insert(sorted[..n], x) + [sorted[n]]
  }

  /** The library's stable sort, largest first. */
  function Sorted(items: seq<Item>): seq<Item> {
    if items == [] then []
    else Insert(Sorted(items[..|items| - 1]), items[|items| - 1])
  }

  lemma {:induction false} EarlierIsMore(items: seq<Item>, i: nat, j: nat)
    requires Descending(items) && i <= j < |items|
    ensures items[i].n >= items[j].n
    decreases j - i
  {
    if i < j {
      EarlierIsMore(items, i, j - 1);
    }
  }

  /** Where an item is put in: after all those worth as much. */
  lemma {:induction false} InsertAt(sorted: seq<Item>, x: Item) returns (p: nat)
    requires Descending(sorted)
    ensures p <= |sorted| && p == AtLeast(sorted, x.n)
    ensures forall k :: 0 <= k < |sorted| ==> (sorted[k].n >= x.n <==> k < p)
    ensures Insert(sorted, x) == sorted[..p] + [x] + sorted[p..]
    decreases |sorted|
  {
    var n := |sorted| - 1;
    if n < 0 {
      p := 0;
    } else if sorted[n].n >= x.n {
      p := |sorted|;
      forall k | 0 <= k < |sorted| ensures sorted[k].n >= x.n {
        EarlierIsMore(sorted, k, n);
      }
      AllAtLeast(sorted, x.n);
    } else {
      p := InsertAt(sorted[..n], x);
      LastAfter(sorted, p, x);
    }
  }

  lemma LastAfter(sorted: seq<Item>, p: nat, x: Item)
    requires p < |sorted|
    ensures var n := |sorted| - 1;
            sorted[..n][..p] + [x] + sorted[..n][p..] + [sorted[n]] == sorted[..p] + [x] + sorted[p..]
  {
  }

  lemma {:induction false} InsertDescends(sorted: seq<Item>, x: Item)
    requires Descending(sorted)
    ensures var inserted := Insert(sorted, x);
            |inserted| == |sorted| + 1 && Descending(inserted)
            && inserted[|sorted|] in [x] + sorted[if sorted == [] then 0 else |sorted| - 1..]
    decreases |sorted|
  {
    var n := |sorted| - 1;
    if n >= 0 && sorted[n].n < x.n {
      InsertDescends(sorted[..n], x);
    }
  }

  lemma {:induction false} InsertKeeps(sorted: seq<Item>, x: Item, v: nat)
    ensures Total(Insert(sorted, x)) == Total(sorted) + x.n
    ensures AtLeast(Insert(sorted, x), v) == AtLeast(sorted, v) + One(x, v)
    decreases |sorted|
  {
    var n := |sorted| - 1;
    var inserted := Insert(sorted, x);
    if n < 0 || sorted[n].n >= x.n {
      assert inserted[..n + 1] == sorted;
    } else {
      InsertKeeps(sorted[..n], x, v);
      assert inserted[..|inserted| - 1] == Insert(sorted[..n], x);
    }
  }

  lemma {:induction false} InsertIsTheItems(sorted: seq<Item>, x: Item)
    ensures multiset(Insert(sorted, x)) == multiset(sorted) + multiset{x}
    decreases |sorted|
  {
    var n := |sorted| - 1;
    if n >= 0 && sorted[n].n < x.n {
      InsertIsTheItems(sorted[..n], x);
      assert sorted == sorted[..n] + [sorted[n]];
    }
  }

  lemma {:induction false} AllAtLeast(items: seq<Item>, v: nat)
    requires forall k :: 0 <= k < |items| ==> items[k].n >= v
    ensures AtLeast(items, v) == |items|
    decreases |items|
  {
    if items != [] {
      AllAtLeast(items[..|items| - 1], v);
    }
  }

  lemma {:induction false} AtLeastConcat(a: seq<Item>, b: seq<Item>, v: nat)
    ensures AtLeast(a + b, v) == AtLeast(a, v) + AtLeast(b, v)
    decreases |b|
  {
    if b == [] {
      assert a + b == a;
    } else {
      assert (a + b)[..|a + b| - 1] == a + b[..|b| - 1];
      AtLeastConcat(a, b[..|b| - 1], v);
    }
  }

  lemma {:induction false} TotalConcat(a: seq<Item>, b: seq<Item>)
    ensures Total(a + b) == Total(a) + Total(b)
    decreases |b|
  {
    if b == [] {
      assert a + b == a;
    } else {
      assert (a + b)[..|a + b| - 1] == a + b[..|b| - 1];
      TotalConcat(a, b[..|b| - 1]);
    }
  }

  lemma {:induction false} SortedIsDescending(items: seq<Item>)
    ensures Descending(Sorted(items)) && |Sorted(items)| == |items|
    decreases |items|
  {
    if items != [] {
      SortedIsDescending(items[..|items| - 1]);
      InsertDescends(Sorted(items[..|items| - 1]), items[|items| - 1]);
    }
  }

  lemma {:induction false} SortedIsTheItems(items: seq<Item>)
    ensures multiset(Sorted(items)) == multiset(items)
    decreases |items|
  {
    if items != [] {
      var n := |items| - 1;
      SortedIsTheItems(items[..n]);
      InsertIsTheItems(Sorted(items[..n]), items[n]);
      assert items == items[..n] + [items[n]];
    }
  }

  /** Sorting keeps the total and how many are worth so much. */
  lemma {:induction false} SortedKeeps(items: seq<Item>, v: nat)
    ensures Total(Sorted(items)) == Total(items)
    ensures AtLeast(Sorted(items), v) == AtLeast(items, v)
    decreases |items|
  {
    if items != [] {
      var n := |items| - 1;
      SortedKeeps(items[..n], v);
      InsertKeeps(Sorted(items[..n]), items[n], v);
    }
  }

  /** Another item at the end goes before those worth less. */
  lemma RankOneMore(items: seq<Item>, i: nat)
    requires i < |items| - 1
    ensures Rank(items, i) == Rank(items[..|items| - 1], i) + One(items[|items| - 1], items[i].n + 1)
  {
    var n := |items| - 1;
    assert items[..n][..i] == items[..i];
    assert items[i + 1..][..n - i - 1] == items[..n][i + 1..];
  }

  /** An item put in pushes one along exactly when it is worth more. */
  lemma InsertPushes(sorted: seq<Item>, x: Item, r: nat)
    requires Descending(sorted) && r < |sorted|
    ensures |Insert(sorted, x)| == |sorted| + 1
    ensures Insert(sorted, x)[r + One(x, sorted[r].n + 1)] == sorted[r]
  {
    var p := InsertAt(sorted, x);
  }

  lemma InsertPlace(sorted: seq<Item>, x: Item)
    requires Descending(sorted)
    ensures |Insert(sorted, x)| == |sorted| + 1
    ensures Insert(sorted, x)[AtLeast(sorted, x.n)] == x
  {
    var p := InsertAt(sorted, x);
  }

  lemma RankOfLast(items: seq<Item>)
    requires items != []
    ensures Rank(items, |items| - 1) == AtLeast(items[..|items| - 1], items[|items| - 1].n)
  {
    assert items[|items|..] == [];
  }

  /** What sorting does with one item more. */
  lemma SortedOneMore(items: seq<Item>, sorted: seq<Item>, i: nat)
    requires i < |items| && Descending(sorted) && |sorted| == |items| - 1
    requires i < |sorted| ==> sorted[Rank(items[..|sorted|], i)] == items[i]
    requires i == |sorted| ==> AtLeast(sorted, items[i].n) == AtLeast(items[..i], items[i].n)
    ensures var after := Insert(sorted, items[|sorted|]);
            |after| == |items| && after[Rank(items, i)] == items[i]
  {
    if i < |sorted| {
      RankOneMore(items, i);
      InsertPushes(sorted, items[|sorted|], Rank(items[..|sorted|], i));
    } else {
      RankOfLast(items);
      InsertPlace(sorted, items[i]);
    }
  }

  /** Every item is sorted into the place of its rank. */
  lemma {:induction false} SortedByRank(items: seq<Item>, i: nat)
    requires i < |items|
    ensures |Sorted(items)| == |items|
    ensures Sorted(items)[Rank(items, i)] == items[i]
    decreases |items|
  {
    var n := |items| - 1;
    SortedIsDescending(items[..n]);
    if i < n {
      SortedByRank(items[..n], i);
    } else {
      SortedKeeps(items[..n], items[n].n);
    }
    SortedOneMore(items, Sorted(items[..n]), i);
  }

  /** No two items have one rank: the ranks say where every item goes. */
  lemma {:induction false} RankIsItsOwn(items: seq<Item>, i: nat, j: nat)
    requires i < j < |items|
    ensures Rank(items, i) < Rank(items, j) <==> items[i].n >= items[j].n
    ensures Rank(items, i) != Rank(items, j)
    decreases |items|
  {
    var n := |items| - 1;
    RankOneMore(items, i);
    if j < n {
      RankOneMore(items, j);
      RankIsItsOwn(items[..n], i, j);
    } else {
      assert items[n + 1..] == [];
      RankAmongAtLeast(items[..n], i, items[n].n);
    }
  }

  /** An item worth so much goes among the ones worth so much, and one worth less after
      them. */
  lemma RankAmongAtLeast(items: seq<Item>, i: nat, v: nat)
    requires i < |items|
    ensures items[i].n >= v ==> Rank(items, i) < AtLeast(items, v)
    ensures items[i].n < v ==> Rank(items, i) >= AtLeast(items, v)
  {
    CountedAround(items, i, v);
    if items[i].n >= v {
      Rises(items[..i], v, items[i].n);
      Rises(items[i + 1..], v, items[i].n + 1);
    } else {
      Rises(items[..i], items[i].n, v);
      Rises(items[i + 1..], items[i].n + 1, v);
    }
  }

  lemma CountedAround(items: seq<Item>, i: nat, v: nat)
    requires i < |items|
    ensures AtLeast(items, v) == AtLeast(items[..i], v) + One(items[i], v) + AtLeast(items[i + 1..], v)
  {
    assert items == items[..i + 1] + items[i + 1..];
    AtLeastConcat(items[..i + 1], items[i + 1..], v);
    assert items[..i + 1][..i] == items[..i];
  }

  /** The more asked for, the fewer there are. */
  lemma {:induction false} Rises(items: seq<Item>, less: nat, more: nat)
    requires less <= more
    ensures AtLeast(items, more) <= AtLeast(items, less)
    decreases |items|
  {
    if items != [] {
      Rises(items[..|items| - 1], less, more);
    }
  }

  /// Folding

  function Folding(items: seq<Item>, keep: nat): Folded {
    var sorted := Sorted(items);
    if |sorted| <= keep then Folded(sorted, None)
    else Folded(sorted[..keep], Some(Rest(|sorted| - keep, Total(sorted[keep..]))))
  }

  function RestCount(rest: Option<Rest>): nat {
    if rest.Some? then rest.value.count else 0
  }

  function RestValue(rest: Option<Rest>): nat {
    if rest.Some? then rest.value.value else 0
  }

  /** An item is kept exactly when fewer than `keep` go before it, and then at the place
      that leaves it. */
  lemma KeptByRank(items: seq<Item>, keep: nat, i: nat)
    requires i < |items|
    ensures var kept := Folding(items, keep).kept;
            && |kept| == (if |items| <= keep then |items| else keep)
            && (Rank(items, i) < |kept| ==> kept[Rank(items, i)] == items[i])
  {
    SortedByRank(items, i);
  }

  /** What is kept and what is folded are together the items there were: there is a rest
      exactly when something was left out, and nothing kept is worth less than anything in
      it. */
  lemma KeptAreTheLargest(items: seq<Item>, keep: nat) returns (others: seq<Item>)
    ensures var folded := Folding(items, keep);
            && multiset(folded.kept) + multiset(others) == multiset(items)
            && folded.rest == (if others == [] then None else Some(Rest(|others|, Total(others))))
            && Descending(folded.kept + others)
  {
    SortedIsDescending(items);
    SortedIsTheItems(items);
    var sorted := Sorted(items);
    others := if |sorted| <= keep then [] else sorted[keep..];
    assert sorted == Folding(items, keep).kept + others;
  }

  /** Folding conserves the count and the total. */
  lemma FoldingConserves(items: seq<Item>, keep: nat)
    ensures var folded := Folding(items, keep);
            && |folded.kept| + RestCount(folded.rest) == |items|
            && Total(folded.kept) + RestValue(folded.rest) == Total(items)
  {
    SortedIsDescending(items);
    SortedKeeps(items, 0);
    var sorted := Sorted(items);
    if |sorted| > keep {
      assert sorted == sorted[..keep] + sorted[keep..];
      TotalConcat(sorted[..keep], sorted[keep..]);
    }
  }

  /** The program's: sort, split the tail off, add it up. */
  method FoldItems(items: seq<Item>, keep: nat) returns (folded: Folded)
    ensures folded == Folding(items, keep)
  {
    var sorted := Sorted(items);
    if |sorted| <= keep {
      return Folded(sorted, None);
    }
    var others := sorted[keep..];
    var sum := 0;
    for i := 0 to |others|
      invariant sum == Total(others[..i])
    {
      assert others[..i + 1][..i] == others[..i];
      sum := sum + others[i].n;
    }
    assert others[..|others|] == others;
    folded := Folded(sorted[..keep], Some(Rest(|others|, sum)));
  }

  /// The report's kinds

  /** The kinds with a file in them. */
  function Nonempty(counts: seq<Item>): seq<Item> {
    if counts == [] then []
    else Nonempty(counts[..|counts| - 1]) + if counts[|counts| - 1].n > 0 then [counts[|counts| - 1]] else []
  }

  /** Dropping the empty kinds drops no file. */
  lemma {:induction false} EmptyKindsHoldNothing(counts: seq<Item>)
    ensures Total(Nonempty(counts)) == Total(counts)
    ensures |Nonempty(counts)| == AtLeast(counts, 1)
    decreases |counts|
  {
    if counts != [] {
      var n := |counts| - 1;
      EmptyKindsHoldNothing(counts[..n]);
      if counts[n].n > 0 {
        assert Nonempty(counts)[..|Nonempty(counts)| - 1] == Nonempty(counts[..n]);
      } else {
        assert Nonempty(counts) == Nonempty(counts[..n]);
      }
    }
  }

  lemma {:induction false} NonemptyAreTheKindsWithFiles(counts: seq<Item>)
    ensures forall k :: k in Nonempty(counts) <==> k in counts && k.n > 0
    decreases |counts|
  {
    if counts != [] {
      var n := |counts| - 1;
      NonemptyAreTheKindsWithFiles(counts[..n]);
      assert counts == counts[..n] + [counts[n]];
    }
  }

  /** Every file is in a kind shown or in the rest, every kind shown has files, and the
      rest counts only kinds that have. */
  lemma KindsHoldEveryFile(counts: seq<Item>, keep: nat)
    ensures var folded := Folding(Nonempty(counts), keep);
            && Total(folded.kept) + RestValue(folded.rest) == Total(counts)
            && |folded.kept| + RestCount(folded.rest) == AtLeast(counts, 1)
            && forall k :: k in folded.kept ==> k in counts && k.n > 0
  {
    EmptyKindsHoldNothing(counts);
    NonemptyAreTheKindsWithFiles(counts);
    FoldingConserves(Nonempty(counts), keep);
    var folded := Folding(Nonempty(counts), keep);
    var others := KeptAreTheLargest(Nonempty(counts), keep);
    forall k | k in folded.kept ensures k in Nonempty(counts) {
      assert k in multiset(folded.kept) + multiset(others);
    }
  }

  lemma {:induction false} NonemptyCounts(counts: seq<Item>, v: nat)
    requires v >= 1
    ensures AtLeast(Nonempty(counts), v) == AtLeast(counts, v)
    decreases |counts|
  {
    if counts != [] {
      var n := |counts| - 1;
      NonemptyCounts(counts[..n], v);
      if counts[n].n > 0 {
        assert Nonempty(counts)[..|Nonempty(counts)| - 1] == Nonempty(counts[..n]);
      } else {
        assert Nonempty(counts) == Nonempty(counts[..n]);
      }
    }
  }

  lemma {:induction false} NonemptyConcat(a: seq<Item>, b: seq<Item>)
    ensures Nonempty(a + b) == Nonempty(a) + Nonempty(b)
    decreases |b|
  {
    if b == [] {
      assert a + b == a;
    } else {
      assert (a + b)[..|a + b| - 1] == a + b[..|b| - 1];
      NonemptyConcat(a, b[..|b| - 1]);
    }
  }

  lemma NonemptySnoc(items: seq<Item>, x: Item)
    requires x.n > 0
    ensures Nonempty(items + [x]) == Nonempty(items) + [x]
  {
    assert (items + [x])[..|items|] == items;
  }

  lemma NonemptyAround(before: seq<Item>, x: Item, after: seq<Item>)
    requires x.n > 0
    ensures Nonempty(before + [x] + after) == Nonempty(before) + [x] + Nonempty(after)
  {
    NonemptySnoc(before, x);
    NonemptyConcat(before + [x], after);
  }

  lemma RankAround(before: seq<Item>, x: Item, after: seq<Item>)
    ensures Rank(before + [x] + after, |before|) == AtLeast(before, x.n) + AtLeast(after, x.n + 1)
  {
    var items := before + [x] + after;
    assert items[..|before|] == before && items[|before| + 1..] == after;
  }

  /** Among the kinds with files a kind has the rank it has among all. */
  lemma NonemptyKeepsRank(counts: seq<Item>, i: nat) returns (p: nat)
    requires i < |counts| && counts[i].n > 0
    ensures p < |Nonempty(counts)| && Nonempty(counts)[p] == counts[i]
    ensures Rank(Nonempty(counts), p) == Rank(counts, i)
  {
    p := |Nonempty(counts[..i])|;
    assert counts == counts[..i] + [counts[i]] + counts[i + 1..];
    NonemptyAround(counts[..i], counts[i], counts[i + 1..]);
    RankAround(Nonempty(counts[..i]), counts[i], Nonempty(counts[i + 1..]));
    NonemptyCounts(counts[..i], counts[i].n);
    NonemptyCounts(counts[i + 1..], counts[i].n + 1);
  }

  /** A kind with files is shown exactly when fewer than `keep` go before it, and at that
      place: those with more files, and those with as many that come before it in `counts`. */
  lemma KindsByRank(counts: seq<Item>, keep: nat, i: nat)
    requires i < |counts| && counts[i].n > 0
    ensures var kept := Folding(Nonempty(counts), keep).kept;
            && |kept| == (if AtLeast(counts, 1) <= keep then AtLeast(counts, 1) else keep)
            && (Rank(counts, i) < |kept| ==> kept[Rank(counts, i)] == counts[i])
  {
    var p := NonemptyKeepsRank(counts, i);
    EmptyKindsHoldNothing(counts);
    KeptByRank(Nonempty(counts), keep, p);
  }

  method Kinds(counts: seq<Item>, keep: nat) returns (kept: seq<Item>, rest: Option<Rest>)
    ensures Folded(kept, rest) == Folding(Nonempty(counts), keep)
  {
    var some := [];
    for i := 0 to |counts|
      invariant some == Nonempty(counts[..i])
    {
      assert counts[..i + 1][..i] == counts[..i];
      if counts[i].n > 0 {
        some := some + [counts[i]];
      }
    }
    assert counts[..|counts|] == counts;
    var folded := FoldItems(some, keep);
    kept, rest := folded.kept, folded.rest;
  }
}
