/**
 * The three table primitives the persistence layer is built from, stated on
 * sequences of rows in table order: the first row a filter matches, all rows
 * it matches, and the deletion of one row.
 */
module Queries {
  import opened Records

  /** The position of the first element satisfying `p`, if any. */
  function FirstIndex<T>(s: seq<T>, p: T -> bool): (r: Option<nat>)
    ensures r.Some? ==> r.value < |s| && p(s[r.value])
    ensures r.Some? ==> forall j :: 0 <= j < r.value ==> !p(s[j])
    ensures r.None? <==> forall j :: 0 <= j < |s| ==> !p(s[j])
    decreases |s|
  {
    if |s| == 0 then None
    else if p(s[0]) then Some(0)
    else match FirstIndex(s[1..], p)
      case None => None
      case Some(k) => Some(k + 1)
  }

  /** The elements satisfying `p`, in the order they appear in `s`. */
  function Filter<T>(s: seq<T>, p: T -> bool): (r: seq<T>)
    ensures |r| <= |s|
    ensures forall k :: 0 <= k < |r| ==> p(r[k]) && r[k] in s
    ensures forall j :: 0 <= j < |s| && p(s[j]) ==> s[j] in r
    ensures (forall j :: 0 <= j < |s| ==> !p(s[j])) ==> r == []
    decreases |s|
  {
    if |s| == 0 then []
    else (if p(s[0]) then [s[0]] else []) + Filter(s[1..], p)
  }

  /** The filter keeps every occurrence of a selected value and none of a rejected one. */
  lemma {:induction false} FilterCounts<T>(s: seq<T>, p: T -> bool)
    ensures forall x :: multiset(Filter(s, p))[x] == if p(x) then multiset(s)[x] else 0
    decreases |s|
  {
    if |s| > 0 {
      FilterCounts(s[1..], p);
      assert s == [s[0]] + s[1..];
    }
  }

  /** A sequence made entry by entry from `xs` by `f` shows the image of every element of `xs`. */
  lemma MapCovers<T, U>(xs: seq<T>, f: T -> U, ys: seq<U>)
    requires |ys| == |xs| && forall k :: 0 <= k < |ys| ==> ys[k] == f(xs[k])
    ensures forall x :: x in xs ==> f(x) in ys
  {
    forall x | x in xs
      ensures f(x) in ys
    {
      var k :| 0 <= k < |xs| && xs[k] == x;
      assert ys[k] == f(x);
    }
  }

  /** `s` without its element at position `i`; the others keep their order. */
  function RemoveAt<T>(s: seq<T>, i: nat): (r: seq<T>)
    requires i < |s|
    ensures |r| == |s| - 1
    ensures forall j :: 0 <= j < i ==> r[j] == s[j]
    ensures forall j :: i <= j < |r| ==> r[j] == s[j + 1]
    ensures multiset(r) == multiset(s) - multiset{s[i]}
  {
    assert s == s[..i] + [s[i]] + s[i + 1..];
    s[..i] + s[i + 1..]
  }

  /** Filtering distributes over concatenation, so it keeps the order of `s`. */
  lemma {:induction false} FilterAppend<T>(a: seq<T>, b: seq<T>, p: T -> bool)
    ensures Filter(a + b, p) == Filter(a, p) + Filter(b, p)
    decreases |a|
  {
    if |a| == 0 {
      assert a + b == b;
    } else {
      assert (a + b)[1..] == a[1..] + b;
      FilterAppend(a[1..], b, p);
    }
  }

  /** Concatenation is associative; proved apart so that no filter is in scope. */
  lemma ConcatAssoc<T>(a: seq<T>, b: seq<T>, c: seq<T>)
    ensures a + (b + c) == (a + b) + c
  {
  }

  /** An empty middle part drops out of a concatenation. */
  lemma ConcatEmpty<T>(a: seq<T>, b: seq<T>, c: seq<T>)
    requires b == []
    ensures a + b + c == a + c
  {
  }

  /** Filtering `s` is filtering its first `i` elements, then the rest. */
  lemma FilterSplit<T>(s: seq<T>, i: nat, p: T -> bool)
    requires i <= |s|
    ensures Filter(s, p) == Filter(s[..i], p) + Filter(s[i..], p)
  {
    assert s == s[..i] + s[i..];
    FilterAppend(s[..i], s[i..], p);
  }

  /** The filter of a non-empty sequence is its head's verdict followed by the filter of its tail. */
  lemma FilterHead<T>(s: seq<T>, p: T -> bool)
    requires |s| > 0
    ensures Filter(s, p) == Filter([s[0]], p) + Filter(s[1..], p)
  {
    assert Filter([s[0]], p) == if p(s[0]) then [s[0]] else [];
  }

  /** Filtering `s` is filtering the part before `s[i]`, `s[i]` itself and the part after. */
  lemma FilterAround<T>(s: seq<T>, i: nat, p: T -> bool)
    requires i < |s|
    ensures Filter(s, p) == Filter(s[..i], p) + Filter([s[i]], p) + Filter(s[i + 1..], p)
  {
    FilterSplit(s, i, p);
    FilterHead(s[i..], p);
    assert s[i..][0] == s[i] && s[i..][1..] == s[i + 1..];
    ConcatAssoc(Filter(s[..i], p), Filter([s[i]], p), Filter(s[i + 1..], p));
  }

  /** Deleting an element the filter rejects does not change what it selects. */
  lemma FilterRemoveAt<T>(s: seq<T>, i: nat, p: T -> bool)
    requires i < |s| && !p(s[i])
    ensures Filter(RemoveAt(s, i), p) == Filter(s, p)
  {
    FilterAround(s, i, p);
    assert Filter([s[i]], p) == [];
    ConcatEmpty(Filter(s[..i], p), Filter([s[i]], p), Filter(s[i + 1..], p));
    FilterAppend(s[..i], s[i + 1..], p);
    assert RemoveAt(s, i) == s[..i] + s[i + 1..];
  }

  /** Replacing a rejected element by a rejected one does not change what it selects. */
  lemma FilterUpdate<T>(s: seq<T>, i: nat, x: T, p: T -> bool)
    requires i < |s| && !p(s[i]) && !p(x)
    ensures Filter(s[i := x], p) == Filter(s, p)
  {
    var t := s[i := x];
    FilterAround(s, i, p);
    FilterAround(t, i, p);
    assert t[..i] == s[..i] && t[i + 1..] == s[i + 1..];
    assert Filter([s[i]], p) == [] && Filter([t[i]], p) == [];
  }

  /** No two elements of `s` satisfy `p`. */
  predicate AtMostOne<T>(s: seq<T>, p: T -> bool) {
    forall i, j :: 0 <= i < j < |s| && p(s[i]) ==> !p(s[j])
  }

  /** `s` without the first element satisfying `p`; unchanged when there is none. */
  function DeleteFirst<T>(s: seq<T>, p: T -> bool): (r: seq<T>)
    ensures (forall j :: 0 <= j < |s| ==> !p(s[j])) ==> r == s
    ensures (exists j :: 0 <= j < |s| && p(s[j])) ==> |r| == |s| - 1
    ensures multiset(r) <= multiset(s)
    ensures FirstIndex(s, p).Some? ==> r == RemoveAt(s, FirstIndex(s, p).value)
  {
    match FirstIndex(s, p)
    case Some(i) => RemoveAt(s, i)
    case None => s
  }

  /** Delete the first element satisfying `p`, if any, then add `x` at the end. */
  function ReplaceFirst<T>(s: seq<T>, p: T -> bool, x: T): (r: seq<T>)
    ensures |r| > 0 && r[|r| - 1] == x
    ensures (forall j :: 0 <= j < |s| ==> !p(s[j])) ==> r == s + [x]
    ensures FirstIndex(s, p).Some? ==>
      multiset(r) == multiset(s) - multiset{s[FirstIndex(s, p).value]} + multiset{x}
  {
    DeleteFirst(s, p) + [x]
  }

  /** When at most one element satisfies `p`, the first one is the only one. */
  lemma FirstIsOnly<T>(s: seq<T>, p: T -> bool)
    requires AtMostOne(s, p) && FirstIndex(s, p).Some?
    ensures forall j :: 0 <= j < |s| && j != FirstIndex(s, p).value ==> !p(s[j])
  {
    var i := FirstIndex(s, p).value;
    forall j | 0 <= j < |s| && j != i
      ensures !p(s[j])
    {
      if j > i {
        assert p(s[i]);
      }
    }
  }

  /** Deleting an element keeps "at most one" of any filter. */
  lemma RemoveAtKeepsAtMostOne<T>(s: seq<T>, i: nat, q: T -> bool)
    requires i < |s| && AtMostOne(s, q)
    ensures AtMostOne(RemoveAt(s, i), q)
  {
    var r := RemoveAt(s, i);
    forall a, b | 0 <= a < b < |r| && q(r[a])
      ensures !q(r[b])
    {
      var a' := if a < i then a else a + 1;
      var b' := if b < i then b else b + 1;
      assert r[a] == s[a'] && r[b] == s[b'] && a' < b';
    }
  }

  /** Once the only element satisfying `p` is deleted, none is left. */
  lemma DeleteFirstEmpties<T>(s: seq<T>, p: T -> bool)
    requires AtMostOne(s, p)
    ensures forall j :: 0 <= j < |DeleteFirst(s, p)| ==> !p(DeleteFirst(s, p)[j])
    ensures Filter(DeleteFirst(s, p), p) == []
  {
    match FirstIndex(s, p)
    case None =>
    case Some(i) =>
      FirstIsOnly(s, p);
      var r := RemoveAt(s, i);
      forall j | 0 <= j < |r|
        ensures !p(r[j])
      {
        if j < i { assert r[j] == s[j]; } else { assert r[j] == s[j + 1]; }
      }
  }

  /** A filter that rejects every element `p` selects sees no change from deleting the first of them. */
  lemma DeleteFirstKeepsOthers<T>(s: seq<T>, p: T -> bool, q: T -> bool)
    requires forall j :: 0 <= j < |s| && p(s[j]) ==> !q(s[j])
    ensures Filter(DeleteFirst(s, p), q) == Filter(s, q)
  {
    match FirstIndex(s, p)
    case None =>
    case Some(i) =>
      FilterRemoveAt(s, i, q);
  }

  lemma DeleteFirstKeepsAtMostOne<T>(s: seq<T>, p: T -> bool, q: T -> bool)
    requires AtMostOne(s, q)
    ensures AtMostOne(DeleteFirst(s, p), q)
  {
    match FirstIndex(s, p)
    case None =>
    case Some(i) =>
      RemoveAtKeepsAtMostOne(s, i, q);
  }

  /** After replacing, the new element is the only one `p` selects. */
  lemma ReplaceFirstSelects<T>(s: seq<T>, p: T -> bool, x: T)
    requires AtMostOne(s, p) && p(x)
    ensures Filter(ReplaceFirst(s, p, x), p) == [x]
  {
    DeleteFirstEmpties(s, p);
    FilterAppend(DeleteFirst(s, p), [x], p);
  }

  /** A filter that rejects `x` and everything `p` selects sees no change from replacing. */
  lemma ReplaceFirstKeepsOthers<T>(s: seq<T>, p: T -> bool, x: T, q: T -> bool)
    requires forall j :: 0 <= j < |s| && p(s[j]) ==> !q(s[j])
    requires !q(x)
    ensures Filter(ReplaceFirst(s, p, x), q) == Filter(s, q)
  {
    DeleteFirstKeepsOthers(s, p, q);
    FilterAppend(DeleteFirst(s, p), [x], q);
  }

  /**
   * Replacing keeps "at most one" of a filter `q`, provided that when `q`
   * accepts `x` every element it accepts is one `p` selects (and so is gone).
   */
  lemma ReplaceFirstKeepsAtMostOne<T>(s: seq<T>, p: T -> bool, x: T, q: T -> bool)
    requires AtMostOne(s, q) && AtMostOne(s, p)
    requires q(x) ==> forall j :: 0 <= j < |s| && q(s[j]) ==> p(s[j])
    ensures AtMostOne(ReplaceFirst(s, p, x), q)
  {
    var kept := DeleteFirst(s, p);
    DeleteFirstKeepsAtMostOne(s, p, q);
    DeleteFirstEmpties(s, p);
    if q(x) {
      forall j | 0 <= j < |kept|
        ensures !q(kept[j])
      {
        assert kept[j] in multiset(s);
        var k :| 0 <= k < |s| && s[k] == kept[j];
        assert !p(kept[j]);
      }
    }
    var r := kept + [x];
    forall a, b | 0 <= a < b < |r| && q(r[a])
      ensures !q(r[b])
    {
      if b < |kept| {
        assert r[a] == kept[a] && r[b] == kept[b];
      } else {
        assert r[a] == kept[a];
      }
    }
  }

  /** Overwriting one element keeps "at most one" of `q` when the new value clashes with no other. */
  lemma UpdateKeepsAtMostOne<T>(s: seq<T>, i: nat, y: T, q: T -> bool)
    requires i < |s| && AtMostOne(s, q)
    requires q(y) ==> forall j :: 0 <= j < |s| && j != i ==> !q(s[j])
    ensures AtMostOne(s[i := y], q)
  {
  }

  /** Appending `x` keeps "at most one" of `q` when `q` accepts `x` only if it accepts nothing in `s`. */
  lemma AppendKeepsAtMostOne<T>(s: seq<T>, x: T, q: T -> bool)
    requires AtMostOne(s, q)
    requires q(x) ==> forall j :: 0 <= j < |s| ==> !q(s[j])
    ensures AtMostOne(s + [x], q)
  {
    var r := s + [x];
    forall a, b | 0 <= a < b < |r| && q(r[a])
      ensures !q(r[b])
    {
      assert r[a] == s[a];
    }
  }

  /** A filter that rejects every element yields nothing. */
  lemma FilterNone<T>(s: seq<T>, p: T -> bool)
    requires forall j :: 0 <= j < |s| ==> !p(s[j])
    ensures Filter(s, p) == []
  {
  }

  /** One element between two empty parts is all there is. */
  lemma Lone<T>(a: seq<T>, x: T, c: seq<T>)
    requires a == [] && c == []
    ensures a + [x] + c == [x]
  {
  }

  /** When `s[i]` is the only element satisfying `p`, the filter yields exactly it. */
  lemma FilterOnlyAt<T>(s: seq<T>, i: nat, p: T -> bool)
    requires i < |s| && p(s[i]) && forall j :: 0 <= j < |s| && j != i ==> !p(s[j])
    ensures Filter(s, p) == [s[i]]
  {
    FilterAround(s, i, p);
    FilterNone(s[..i], p);
    FilterNone(s[i + 1..], p);
    assert Filter([s[i]], p) == [s[i]];
    Lone(Filter(s[..i], p), s[i], Filter(s[i + 1..], p));
  }

  /** Overwriting the only selected element makes the new value the only selected one. */
  lemma UpdateSelects<T>(s: seq<T>, i: nat, y: T, p: T -> bool)
    requires i < |s| && AtMostOne(s, p) && FirstIndex(s, p) == Some(i) && p(y)
    ensures Filter(s[i := y], p) == [y]
  {
    FirstIsOnly(s, p);
    FilterOnlyAt(s[i := y], i, p);
  }

  /** The first element satisfying `p` heads the list of all of them. */
  lemma {:induction false} FirstIndexHeadsFilter<T>(s: seq<T>, p: T -> bool)
    ensures FirstIndex(s, p).Some? <==> Filter(s, p) != []
    ensures FirstIndex(s, p).Some? ==> s[FirstIndex(s, p).value] == Filter(s, p)[0]
    decreases |s|
  {
    if |s| > 0 {
      FilterHead(s, p);
      if !p(s[0]) {
        FirstIndexHeadsFilter(s[1..], p);
        assert Filter(s, p) == Filter(s[1..], p);
        match FirstIndex(s[1..], p)
        case Some(k) => assert FirstIndex(s, p) == Some(k + 1) && s[k + 1] == s[1..][k];
        case None =>
      }
    }
  }

  /** An element that satisfies `p` with none before it is the first one. */
  lemma FirstIsAt<T>(s: seq<T>, p: T -> bool, i: nat)
    requires i < |s| && p(s[i]) && forall j :: 0 <= j < i ==> !p(s[j])
    ensures FirstIndex(s, p) == Some(i)
  {
    var f := FirstIndex(s, p);
    assert f.Some?;
    assert !(f.value < i);
    assert !(i < f.value);
  }
}
