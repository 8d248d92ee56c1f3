/** Sorting with an explicit order: what sort.Strings, sort.Slice and ORDER BY compute. */
module Sorting {
  import opened Text

  ghost predicate Antisymmetric<T(!new)>(le: (T, T) -> bool) {
    forall a, b :: le(a, b) && le(b, a) ==> a == b
  }

  ghost predicate TotalPreorder<T(!new)>(le: (T, T) -> bool) {
    && (forall a, b :: le(a, b) || le(b, a))
    && (forall a, b, c :: le(a, b) && le(b, c) ==> le(a, c))
  }

  ghost predicate TotalOrder<T(!new)>(le: (T, T) -> bool) {
    TotalPreorder(le) && Antisymmetric(le)
  }

  ghost predicate Ordered<T(!new)>(s: seq<T>, le: (T, T) -> bool) {
    forall i, j :: 0 <= i < j < |s| ==> le(s[i], s[j])
  }

  ghost predicate NoDuplicates<T>(s: seq<T>) {
    forall i, j :: 0 <= i < j < |s| ==> s[i] != s[j]
  }

  function Insert<T>(s: seq<T>, x: T, le: (T, T) -> bool): (r: seq<T>)
    ensures |r| == |s| + 1
  {
    if s == [] || le(s[|s| - 1], x) then s + [x]
    else Insert(s[..|s| - 1], x, le) + [s[|s| - 1]]
  }

  function Sort<T>(s: seq<T>, le: (T, T) -> bool): (r: seq<T>)
    ensures |r| == |s|
  {
    if s == [] then [] else Insert(Sort(s[..|s| - 1], le), s[|s| - 1], le)
  }

  lemma {:induction false} InsertKeeps<T(!new)>(s: seq<T>, x: T, le: (T, T) -> bool)
    requires TotalPreorder(le) && Ordered(s, le)
    ensures Ordered(Insert(s, x, le), le)
    ensures multiset(Insert(s, x, le)) == multiset(s) + multiset{x}
  {
    if s == [] {
    } else if le(s[|s| - 1], x) {
      forall i | 0 <= i < |s| ensures le(s[i], x) {
        assert i == |s| - 1 || le(s[i], s[|s| - 1]);
      }
    } else {
      var front, last := s[..|s| - 1], s[|s| - 1];
      assert s == front + [last];
      InsertKeeps(front, x, le);
      AppendOrdered(front, x, last, le);
    }
  }

  lemma AppendOrdered<T(!new)>(front: seq<T>, x: T, last: T, le: (T, T) -> bool)
    requires TotalPreorder(le) && Ordered(front + [last], le) && !le(last, x)
    requires multiset(Insert(front, x, le)) == multiset(front) + multiset{x} && Ordered(Insert(front, x, le), le)
    ensures Ordered(Insert(front, x, le) + [last], le)
  {
    var inner := Insert(front, x, le);
    forall i | 0 <= i < |inner| ensures le(inner[i], last) {
      assert inner[i] in multiset(inner);
      if inner[i] in front {
        var j :| 0 <= j < |front| && front[j] == inner[i];
        assert (front + [last])[j] == front[j];
        assert (front + [last])[|front|] == last;
      }
    }
  }

  /** The result is an ordered permutation of the input. */
  lemma {:induction false} SortSorts<T(!new)>(s: seq<T>, le: (T, T) -> bool)
    requires TotalPreorder(le)
    ensures Ordered(Sort(s, le), le)
    ensures multiset(Sort(s, le)) == multiset(s)
  {
    if s != [] {
      SortSorts(s[..|s| - 1], le);
      assert s == s[..|s| - 1] + [s[|s| - 1]];
      InsertKeeps(Sort(s[..|s| - 1], le), s[|s| - 1], le);
    }
  }

  lemma DropLast<T>(s: seq<T>)
    requires s != []
    ensures multiset(s[..|s| - 1]) == multiset(s) - multiset{s[|s| - 1]}
  {
    assert s == s[..|s| - 1] + [s[|s| - 1]];
  }

  /** An ordered sequence is determined by its elements. */
  lemma {:induction false} OrderedUnique<T(!new)>(s: seq<T>, t: seq<T>, le: (T, T) -> bool)
    requires Antisymmetric(le) && Ordered(s, le) && Ordered(t, le)
    requires multiset(s) == multiset(t)
    ensures s == t
  {
    hide Ordered, Antisymmetric;
    assert |s| == |multiset(s)| == |multiset(t)| == |t|;
    if s != [] {
      SameLast(s, t, le);
      var n := |s| - 1;
      DropLast(s);
      DropLast(t);
      OrderedFront(s, le);
      OrderedFront(t, le);
      OrderedUnique(s[..n], t[..n], le);
      assert s == s[..n] + [s[n]] && t == t[..n] + [t[n]];
    }
  }

  lemma OrderedFront<T(!new)>(s: seq<T>, le: (T, T) -> bool)
    requires Ordered(s, le) && s != []
    ensures Ordered(s[..|s| - 1], le)
  {
  }

  lemma SameLast<T(!new)>(s: seq<T>, t: seq<T>, le: (T, T) -> bool)
    requires Antisymmetric(le) && Ordered(s, le) && Ordered(t, le)
    requires multiset(s) == multiset(t) && s != [] && t != []
    ensures s[|s| - 1] == t[|t| - 1]
  {
    LastIsGreatest(s, t, le);
    LastIsGreatest(t, s, le);
  }

  lemma LastIsGreatest<T(!new)>(s: seq<T>, t: seq<T>, le: (T, T) -> bool)
    requires Ordered(s, le) && multiset(s) == multiset(t) && s != [] && t != []
    ensures le(t[|t| - 1], s[|s| - 1]) || t[|t| - 1] == s[|s| - 1]
  {
    var y := t[|t| - 1];
    assert y in multiset(s);
    var j :| 0 <= j < |s| && s[j] == y;
  }

  /** Sorting is canonical: it depends only on the elements, and sorting again changes nothing. */
  lemma SortCanonical<T(!new)>(s: seq<T>, t: seq<T>, le: (T, T) -> bool)
    requires TotalOrder(le) && multiset(s) == multiset(t)
    ensures Sort(s, le) == Sort(t, le)
    ensures Ordered(s, le) ==> Sort(s, le) == s
  {
    SortSorts(s, le);
    SortSorts(t, le);
    OrderedUnique(Sort(s, le), Sort(t, le), le);
    if Ordered(s, le) {
      OrderedUnique(Sort(s, le), s, le);
    }
  }

  lemma SameElements<T>(s: seq<T>, t: seq<T>)
    requires multiset(s) == multiset(t)
    ensures forall x :: x in s <==> x in t
  {
    forall x ensures x in s <==> x in t {
      assert x in s <==> x in multiset(s);
      assert x in t <==> x in multiset(t);
    }
  }

  lemma {:induction false} NoDuplicatesCounts<T>(s: seq<T>)
    ensures NoDuplicates(s) <==> forall x :: multiset(s)[x] <= 1
  {
    if s != [] {
      var s', x := s[..|s| - 1], s[|s| - 1];
      assert s == s' + [x];
      NoDuplicatesCounts(s');
      assert multiset(s) == multiset(s') + multiset{x};
      if NoDuplicates(s) {
        assert x !in multiset(s');
      } else if NoDuplicates(s') {
        var i, j :| 0 <= i < j < |s| && s[i] == s[j];
        assert s'[i] in multiset(s');
        assert multiset(s)[x] > 1;
      } else {
        var y :| multiset(s')[y] > 1;
        assert multiset(s)[y] > 1;
      }
    }
  }

  /** The rows of a set, in order. */
  ghost function SortSet<T(!new)>(s: set<T>, le: (T, T) -> bool): (r: seq<T>)
    requires TotalOrder(le)
    ensures Ordered(r, le) && multiset(r) == multiset(s)
  {
    if s == {} then [] else
      var x :| x in s;
      InsertKeeps(SortSet(s - {x}, le), x, le);
      SplitSet(s, x);
      Insert(SortSet(s - {x}, le), x, le)
  }

  lemma SplitSet<T>(s: set<T>, x: T)
    requires x in s
    ensures multiset(s) == multiset(s - {x}) + multiset{x}
  {
  }

  /** Each row appears once. */
  lemma SortSetOnce<T(!new)>(s: set<T>, le: (T, T) -> bool)
    requires TotalOrder(le)
    ensures forall x :: x in SortSet(s, le) <==> x in s
    ensures NoDuplicates(SortSet(s, le))
  {
    var r := SortSet(s, le);
    forall x ensures x in r <==> x in s {
      assert x in r <==> x in multiset(r);
    }
    NoDuplicatesCounts(r);
  }

  /** Fetches the rows of a set in order, whatever order they are found in. */
  method RowsInOrder<T(!new, ==)>(s: set<T>, le: (T, T) -> bool) returns (rows: seq<T>)
    requires TotalOrder(le)
    ensures rows == SortSet(s, le)
  {
    rows := [];
    var rest := s;
    while rest != {}
      invariant rest <= s && Ordered(rows, le) && multiset(rows) == multiset(s - rest)
    {
      var x :| x in rest;
      InsertKeeps(rows, x, le);
      rows := Insert(rows, x, le);
      SplitSet(s - (rest - {x}), x);
      assert s - (rest - {x}) - {x} == s - rest;
      rest := rest - {x};
    }
    assert s - rest == s;
    OrderedUnique(rows, SortSet(s, le), le);
  }

  lemma LexOrder()
    ensures TotalOrder(LexLe)
  {
    forall a, b ensures LexLe(a, b) || LexLe(b, a) { LexTotal(a, b); }
    forall a, b | LexLe(a, b) && LexLe(b, a) ensures a == b { LexAntisymmetric(a, b); }
    forall a, b, c | LexLe(a, b) && LexLe(b, c) ensures LexLe(a, c) { LexTransitive(a, b, c); }
  }

  predicate NumLe(a: nat, b: nat) { a <= b }

  /** Sorts a slice in place, keeping exactly its elements. */
  method SortInPlace<T(!new)>(a: array<T>, le: (T, T) -> bool)
    modifies a
    ensures a[..] == Sort(old(a[..]), le)
  {
    hide Insert, Sort;
    ghost var was := a[..];
    SortNone(was, le);
    for i := 0 to a.Length
      invariant a[..] == Sort(was[..i], le) + was[i..]
    {
      ghost var sorted, now := Sort(was[..i], le), a[..];
      assert now[..i] == sorted && now[i] == was[i] && now[i + 1..] == was[i + 1..] by {
        SplitAt(now, sorted, was, i);
      }
      assert a[..i] == now[..i] && a[i + 1..] == now[i + 1..];
      InsertAt(a, i, le);
      SortOneMore(was, i, le);
    }
    assert was[..a.Length] == was && was[a.Length..] == [];
  }

  lemma SplitAt<T>(now: seq<T>, sorted: seq<T>, was: seq<T>, i: nat)
    requires i < |was| && |sorted| == i && now == sorted + was[i..]
    ensures now[..i] == sorted && now[i] == was[i] && now[i + 1..] == was[i + 1..]
  {
  }

  lemma SortNone<T>(s: seq<T>, le: (T, T) -> bool)
    ensures Sort(s[..0], le) == []
  {
  }

  lemma SortOneMore<T>(s: seq<T>, i: nat, le: (T, T) -> bool)
    requires i < |s|
    ensures Sort(s[..i + 1], le) == Insert(Sort(s[..i], le), s[i], le)
  {
    assert s[..i + 1][..i] == s[..i];
  }

  /** Moves a[i] left past every greater element of a[..i]. */
  method InsertAt<T(!new)>(a: array<T>, i: nat, le: (T, T) -> bool)
    requires i < a.Length
    modifies a
    ensures a[..] == Insert(old(a[..i]), old(a[i]), le) + old(a[i + 1..])
  {
    hide Insert;
    ghost var front, rest := a[..i], a[i + 1..];
    var x := a[i];
    var j := i;
    assert a[..] == With(front, i, x) + rest && front[..i] == front;
    while j > 0 && !le(a[j - 1], x)
      invariant j <= i && a[j] == x
      invariant a[..] == With(front, j, x) + rest
      invariant Insert(front, x, le) == Insert(front[..j], x, le) + front[j..]
    {
      assert a[j - 1] == a[..][j - 1] == front[j - 1];
      ghost var before := a[..];
      a[j], a[j - 1] := a[j - 1], a[j];
      assert a[..] == before[j := before[j - 1]][j - 1 := before[j]];
      WithMoves(front, j, x, rest);
      InsertPeels(front, j, x, le);
      j := j - 1;
    }
    assert j > 0 ==> a[j - 1] == a[..][j - 1] == front[..j][j - 1];
    InsertHere(front[..j], x, le);
  }

  lemma InsertHere<T>(s: seq<T>, x: T, le: (T, T) -> bool)
    requires s == [] || le(s[|s| - 1], x)
    ensures Insert(s, x, le) == s + [x]
  {
  }

  ghost function With<T>(front: seq<T>, j: nat, x: T): seq<T>
    requires j <= |front|
  {
    front[..j] + [x] + front[j..]
  }

  lemma WithMoves<T>(front: seq<T>, j: nat, x: T, rest: seq<T>)
    requires 0 < j <= |front|
    ensures var s := With(front, j, x) + rest;
            s[j := s[j - 1]][j - 1 := s[j]] == With(front, j - 1, x) + rest
  {
  }

  lemma InsertPeels<T>(front: seq<T>, j: nat, x: T, le: (T, T) -> bool)
    requires 0 < j <= |front| && !le(front[j - 1], x)
    ensures Insert(front[..j], x, le) + front[j..] == Insert(front[..j - 1], x, le) + front[j - 1..]
  {
    assert front[..j][..j - 1] == front[..j - 1];
    assert front[j - 1..] == [front[j - 1]] + front[j..];
  }
}
