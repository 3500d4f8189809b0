/** The optional value that JavaScript expresses with `undefined`. */
module Options {
  datatype Option<T> = None | Some(value: T)
}

/**
 Sequence operations the board code uses on JavaScript arrays: `filter`,
 and `splice` removing or inserting one element.
 */
module Seqs {

  /** `s.filter(keep)`: the elements of `s` that `keep` accepts, in their original order. */
  function Filter<T(!new)>(keep: T -> bool, s: seq<T>): (r: seq<T>)
    ensures |r| <= |s|
    ensures forall x :: x in r <==> x in s && keep(x)
  {
    if s == [] then []
    else
      var rest := Filter(keep, s[1..]);
      assert s == [s[0]] + s[1..];
      if keep(s[0]) then [s[0]] + rest else rest
  }

  /** `a` can be obtained from `b` by dropping elements, without reordering the rest. */
  ghost predicate IsSubsequence<T>(a: seq<T>, b: seq<T>)
    decreases |b|
  {
    if a == [] then true
    else if b == [] then false
    else if a[0] == b[0] then IsSubsequence(a[1..], b[1..])
    else IsSubsequence(a, b[1..])
  }

  /** No element occurs twice. */
  ghost predicate NoDuplicates<T>(s: seq<T>)
  {
    forall i, j :: 0 <= i < j < |s| ==> s[i] != s[j]
  }

  /** Filtering keeps the survivors in their original relative order. */
  lemma {:induction false} FilterIsSubsequence<T(!new)>(keep: T -> bool, s: seq<T>)
    ensures IsSubsequence(Filter(keep, s), s)
  {
    if s != [] {
      FilterIsSubsequence(keep, s[1..]);
      var rest := Filter(keep, s[1..]);
      if !keep(s[0]) && rest != [] {
        SubsequenceOfTail(rest, s);
      }
    }
  }

  /** A subsequence of the tail is a subsequence of the whole. */
  lemma {:induction false} SubsequenceOfTail<T>(a: seq<T>, b: seq<T>)
    requires b != [] && IsSubsequence(a, b[1..])
    ensures IsSubsequence(a, b)
    decreases |b|, 0
  {
    if a != [] && a[0] == b[0] {
      DropHead(a, b[1..]);
    }
  }

  /** Dropping the first element of a subsequence keeps it a subsequence. */
  lemma {:induction false} DropHead<T>(a: seq<T>, b: seq<T>)
    requires a != [] && IsSubsequence(a, b)
    ensures IsSubsequence(a[1..], b)
    decreases |b|, 1
  {
    if a[1..] != [] {
      if a[0] != b[0] {
        DropHead(a, b[1..]);
      }
      SubsequenceOfTail(a[1..], b);
    }
  }

  /** Filtering keeps every accepted occurrence and no rejected one. */
  lemma {:induction false} FilterMultiset<T(!new)>(keep: T -> bool, s: seq<T>)
    ensures forall x :: multiset(Filter(keep, s))[x] == if keep(x) then multiset(s)[x] else 0
  {
    if s != [] {
      FilterMultiset(keep, s[1..]);
      assert s == [s[0]] + s[1..];
    }
  }

  /** Filtering a list with a given head: the head if accepted, then the filtered tail. */
  lemma FilterCons<T(!new)>(keep: T -> bool, x: T, s: seq<T>)
    ensures Filter(keep, [x] + s) == (if keep(x) then [x] else []) + Filter(keep, s)
  {
    assert ([x] + s)[1..] == s;
  }

  /** Filtering distributes over concatenation. */
  lemma {:induction false} FilterAppend<T(!new)>(keep: T -> bool, s: seq<T>, t: seq<T>)
    ensures Filter(keep, s + t) == Filter(keep, s) + Filter(keep, t)
  {
    if s == [] {
      assert s + t == t;
    } else {
      var u := s + t;
      assert u[0] == s[0] && u[1..] == s[1..] + t;
      var head := if keep(s[0]) then [s[0]] else [];
      calc {
        Filter(keep, u);
        head + Filter(keep, s[1..] + t);
        { FilterAppend(keep, s[1..], t); }
        head + (Filter(keep, s[1..]) + Filter(keep, t));
        (head + Filter(keep, s[1..])) + Filter(keep, t);
        Filter(keep, s) + Filter(keep, t);
      }
    }
  }

  /** Filtering twice with the same test is filtering once. */
  lemma {:induction false} FilterIdempotent<T(!new)>(keep: T -> bool, s: seq<T>)
    ensures Filter(keep, Filter(keep, s)) == Filter(keep, s)
  {
    if s != [] {
      FilterIdempotent(keep, s[1..]);
    }
  }

  /** Filtering a sequence without duplicates leaves one without duplicates. */
  lemma {:induction false} FilterKeepsNoDuplicates<T(!new)>(keep: T -> bool, s: seq<T>)
    requires NoDuplicates(s)
    ensures NoDuplicates(Filter(keep, s))
  {
    if s != [] {
      assert NoDuplicates(s[1..]) by {
        forall i, j | 0 <= i < j < |s[1..]| ensures s[1..][i] != s[1..][j] {
          assert s[1..][i] == s[i + 1] && s[1..][j] == s[j + 1];
        }
      }
      FilterKeepsNoDuplicates(keep, s[1..]);
      var rest := Filter(keep, s[1..]);
      assert s[0] !in s[1..] by {
        forall j | 0 <= j < |s[1..]| ensures s[1..][j] != s[0] {
          assert s[1..][j] == s[j + 1];
        }
      }
      assert s[0] !in rest;
    }
  }

  /** The test `y => y !== x`. */
  function Unequal<T(==)>(x: T): T -> bool
  {
    y => y != x
  }

  /** `s.filter(y => y !== x)`: every occurrence of `x` removed. */
  function Without<T(==,!new)>(s: seq<T>, x: T): (r: seq<T>)
    ensures x !in r
    ensures forall y :: y != x ==> (y in r <==> y in s)
    ensures multiset(r) == multiset(s)[x := 0]
    ensures x !in s ==> r == s
  {
    var r := Filter(Unequal(x), s);
    FilterMultiset(Unequal(x), s);
    assert x !in s ==> r == s by {
      if x !in s { WithoutAbsent(s, x); }
    }
    r
  }

  /** Filtering out a value that does not occur changes nothing. */
  lemma {:induction false} WithoutAbsent<T(!new)>(s: seq<T>, x: T)
    requires x !in s
    ensures Filter(Unequal(x), s) == s
  {
    if s != [] {
      WithoutAbsent(s[1..], x);
      assert s == [s[0]] + s[1..];
    }
  }

  /** Removing every `x` after appending an `x` is removing every `x`. */
  lemma WithoutAppended<T(!new)>(s: seq<T>, x: T)
    ensures Without(s + [x], x) == Without(s, x)
  {
    FilterAppend(Unequal(x), s, [x]);
    assert Filter(Unequal(x), [x]) == [];
  }

  /**
   Copy then `splice(i, 1)`: the element at `i` removed and the later ones
   shifted down. JavaScript clamps a start past the end to the length, so
   then nothing is removed.
   */
  function RemoveAt<T>(s: seq<T>, i: nat): (r: seq<T>)
    ensures i < |s| ==> |r| == |s| - 1
    ensures i >= |s| ==> r == s
  {
    if i < |s| then s[..i] + s[i + 1..] else s
  }

  /**
   What RemoveAt keeps: the elements before `i` in place, the later ones one
   position down, and every element except the removed one as often as before.
   */
  lemma RemoveAtElements<T>(s: seq<T>, i: nat)
    ensures i < |s| ==> multiset(RemoveAt(s, i)) + multiset{s[i]} == multiset(s)
    ensures forall k :: 0 <= k < |RemoveAt(s, i)| ==> RemoveAt(s, i)[k] == if k < i then s[k] else s[k + 1]
  {
    if i < |s| {
      assert s == s[..i] + [s[i]] + s[i + 1..];
      var r := RemoveAt(s, i);
      forall k | 0 <= k < |r| ensures r[k] == if k < i then s[k] else s[k + 1] {
        if k >= i {
          assert r[k] == s[i + 1..][k - i];
        }
      }
    } else {
      assert RemoveAt(s, i) == s;
    }
  }

  /** The position at which `splice(i, 0, x)` inserts into `s`: `i`, clamped to the length. */
  function Clamp(i: nat, n: nat): (j: nat)
    ensures j <= n && (j == i || (j == n && n < i))
  {
    if i <= n then i else n
  }

  /**
   Copy then `splice(i, 0, x)`: `x` placed at position `i` (or at the end when
   `i` is past it), the later elements shifted up.
   */
  function InsertAt<T>(s: seq<T>, i: nat, x: T): (r: seq<T>)
    ensures |r| == |s| + 1
    ensures r[Clamp(i, |s|)] == x
  {
    var j := Clamp(i, |s|);
    s[..j] + [x] + s[j..]
  }

  /**
   What InsertAt keeps: the elements before the insertion point in place,
   the later ones one position up, and the multiset of `s` plus `x`.
   */
  lemma InsertAtElements<T>(s: seq<T>, i: nat, x: T)
    ensures multiset(InsertAt(s, i, x)) == multiset(s) + multiset{x}
    ensures forall k :: 0 <= k < |InsertAt(s, i, x)| && k != Clamp(i, |s|) ==>
      InsertAt(s, i, x)[k] == if k < Clamp(i, |s|) then s[k] else s[k - 1]
  {
    var j := Clamp(i, |s|);
    assert s == s[..j] + s[j..];
  }

  /** Inserting at `i` and then removing at `i` gives back the original. */
  lemma InsertThenRemove<T>(s: seq<T>, i: nat, x: T)
    requires i <= |s|
    ensures RemoveAt(InsertAt(s, i, x), i) == s
  {
    var r := RemoveAt(InsertAt(s, i, x), i);
    InsertAtElements(s, i, x);
    RemoveAtElements(InsertAt(s, i, x), i);
    assert |r| == |s|;
    forall k | 0 <= k < |s| ensures r[k] == s[k] {
    }
  }

  /** Removing the element at `i` and putting it back at `i` gives back the original. */
  lemma RemoveThenReinsert<T>(s: seq<T>, i: nat)
    requires i < |s|
    ensures InsertAt(RemoveAt(s, i), i, s[i]) == s
  {
    var t := RemoveAt(s, i);
    var r := InsertAt(t, i, s[i]);
    RemoveAtElements(s, i);
    InsertAtElements(t, i, s[i]);
    assert Clamp(i, |t|) == i;
    forall k | 0 <= k < |s| ensures r[k] == s[k] {
      if k < i {
        assert r[k] == t[k];
      } else if k > i {
        assert r[k] == t[k - 1];
      }
    }
  }

  /**
   Moving the element found at `i` to position `j` is a permutation: the
   length and the multiset of elements are those of `s`.
   */
  lemma MoveIsPermutation<T>(s: seq<T>, i: nat, j: nat, x: T)
    requires i < |s| && s[i] == x
    ensures |InsertAt(RemoveAt(s, i), j, x)| == |s|
    ensures multiset(InsertAt(RemoveAt(s, i), j, x)) == multiset(s)
  {
    RemoveAtElements(s, i);
    InsertAtElements(RemoveAt(s, i), j, x);
  }
}
