/** Sequence helpers standing in for what the campaign service relies on:
    repository queries with a criterion, `find` by key, and the iteration
    order of a `Set` built from an array. */
module Seqs {

  datatype Option<+T> = None | Some(value: T)

  /** No element occurs twice in `s`. */
  predicate NoDup<T(==)>(s: seq<T>)
  {
    forall i, j :: 0 <= i < j < |s| ==> s[i] != s[j]
  }

  /** The set of elements of `s`. */
  function Elems<T(==)>(s: seq<T>): set<T>
  {
    set x | x in s
  }

  /** Splitting off the head of a sequence splits off one element, which
      is new when no element repeats. */
  lemma ElemsCons<T>(s: seq<T>)
    requires s != []
    ensures Elems(s) == {s[0]} + Elems(s[1..])
    ensures NoDup(s) ==> NoDup(s[1..]) && s[0] !in Elems(s[1..])
  {
    if NoDup(s) {
      forall i, j | 0 <= i < j < |s| - 1
        ensures s[1..][i] != s[1..][j]
      {
        assert s[1..][i] == s[i + 1] && s[1..][j] == s[j + 1];
      }
    }
  }

  /** Putting a new element in front of a sequence without repetitions
      keeps it without repetitions. */
  lemma NoDupCons<T>(x: T, s: seq<T>)
    requires x !in s && NoDup(s)
    ensures NoDup([x] + s)
  {
    var r := [x] + s;
    forall i, j | 0 <= i < j < |r|
      ensures r[i] != r[j]
    {
      assert r[j] == s[j - 1];
      if i > 0 {
        assert r[i] == s[i - 1];
      }
    }
  }

  /** A sequence has at most as many distinct elements as it has positions,
      and exactly as many when no element repeats. */
  lemma {:induction false} ElemsCard<T>(s: seq<T>)
    ensures |Elems(s)| <= |s|
    ensures |Elems(s)| == |s| <==> NoDup(s)
  {
    if s != [] {
      var t := s[1..];
      ElemsCard(t);
      assert Elems(s) == {s[0]} + Elems(t);
      if s[0] in t {
        assert Elems(s) == Elems(t);
        var j :| 0 <= j < |t| && t[j] == s[0];
        assert s[0] == s[j + 1];
      } else {
        assert |Elems(s)| == |Elems(t)| + 1;
        if NoDup(t) {
          forall i, j | 0 <= i < j < |s|
            ensures s[i] != s[j]
          {
            assert s[j] == t[j - 1];
            if i > 0 {
              assert s[i] == t[i - 1];
            }
          }
        }
        if NoDup(s) {
          forall i, j | 0 <= i < j < |t|
            ensures t[i] != t[j]
          {
            assert t[i] == s[i + 1] && t[j] == s[j + 1];
          }
        }
      }
    }
  }

  /** A sequence with no elements is empty. */
  lemma EmptyWithoutElements<T>(t: seq<T>)
    ensures (forall x :: x !in t) ==> t == []
  {
    if t != [] {
      assert t[0] in t;
    }
  }

  /** The elements of `s` that satisfy `p`, in their order in `s` (a
      repository query with a criterion). */
  function Filter<T(!new)>(s: seq<T>, p: T -> bool): (r: seq<T>)
    ensures |r| <= |s|
    ensures forall x :: x in r <==> x in s && p(x)
  {
    if s == [] then []
    else (if p(s[0]) then [s[0]] else []) + Filter(s[1..], p)
  }

  /** The position of the first occurrence of `x` in `s`. */
  function FirstIndex<T(==)>(s: seq<T>, x: T): (i: nat)
    requires x in s
    ensures i < |s| && s[i] == x
    ensures forall j :: 0 <= j < i ==> s[j] != x
  {
    if s[0] == x then 0 else FirstIndex(s[1..], x) + 1
  }

  /** Two positions that are both first occurrences of `x` coincide. */
  lemma FirstOccurrenceUnique<T>(s: seq<T>, x: T, i: nat)
    requires i < |s| && s[i] == x
    requires forall j :: 0 <= j < i ==> s[j] != x
    ensures FirstIndex(s, x) == i
  {
  }

  /** A first occurrence inside a prefix stays the first occurrence when
      the sequence is extended. */
  lemma FirstIndexOfPrefix<T>(s: seq<T>, n: nat, x: T)
    requires n <= |s| && x in s[..n]
    ensures FirstIndex(s, x) == FirstIndex(s[..n], x)
  {
    var k := FirstIndex(s[..n], x);
    assert forall j :: 0 <= j < k ==> s[j] == s[..n][j];
    FirstOccurrenceUnique(s, x, k);
  }

  /** The elements of `s` with repetitions dropped, in first-occurrence
      order: what iterating a JavaScript `Set` built by adding the elements
      of `s` one after the other yields. */
  function Distinct<T(==)>(s: seq<T>): seq<T>
  {
    if s == [] then []
    else
      var d := Distinct(s[..|s| - 1]);
      if s[|s| - 1] in d then d else d + [s[|s| - 1]]
  }

  /** Deduplication keeps every element and adds none. */
  lemma {:induction false} DistinctElements<T>(s: seq<T>)
    ensures forall x :: x in Distinct(s) <==> x in s
  {
    if s != [] {
      var init := s[..|s| - 1];
      DistinctElements(init);
      assert s == init + [s[|s| - 1]];
    }
  }

  /** Deduplication leaves no element twice. */
  lemma {:induction false} DistinctNoDup<T>(s: seq<T>)
    ensures NoDup(Distinct(s))
  {
    if s != [] {
      DistinctNoDup(s[..|s| - 1]);
    }
  }

  /** Every element of `t` occurs in `s`, and `t` lists them in the order
      of their first occurrence in `s`. */
  predicate FirstOccurrenceOrder<T(==)>(s: seq<T>, t: seq<T>)
  {
    && (forall x :: x in t ==> x in s)
    && forall i, j :: 0 <= i < j < |t| ==> FirstIndex(s, t[i]) < FirstIndex(s, t[j])
  }

  /** An order by first occurrence in `s` is one by first occurrence in any
      prefix of `s` that holds all the elements. */
  lemma OrderOnPrefix<T>(s: seq<T>, n: nat, t: seq<T>)
    requires n <= |s| && FirstOccurrenceOrder(s, t)
    requires forall x :: x in t ==> x in s[..n]
    ensures FirstOccurrenceOrder(s[..n], t)
  {
    forall x | x in t
      ensures FirstIndex(s, x) == FirstIndex(s[..n], x)
    {
      FirstIndexOfPrefix(s, n, x);
    }
  }

  /** An order by first occurrence in a prefix of `s` is one by first
      occurrence in `s`, and all those first occurrences lie in the prefix. */
  lemma OrderOnExtension<T>(s: seq<T>, n: nat, t: seq<T>)
    requires n <= |s| && FirstOccurrenceOrder(s[..n], t)
    ensures FirstOccurrenceOrder(s, t)
    ensures forall x :: x in t ==> FirstIndex(s, x) < n
  {
    forall x | x in t
      ensures x in s && FirstIndex(s, x) == FirstIndex(s[..n], x) < n
    {
      FirstIndexOfPrefix(s, n, x);
    }
  }

  /** Deduplication lists the elements in the order of their first
      occurrence in `s`. */
  lemma {:induction false} DistinctOrdered<T>(s: seq<T>)
    ensures FirstOccurrenceOrder(s, Distinct(s))
  {
    if s != [] {
      var n := |s| - 1;
      var init, last := s[..n], s[n];
      var d := Distinct(init);
      DistinctOrdered(init);
      OrderOnExtension(s, n, d);
      if last !in d {
        DistinctElements(init);
        FirstOccurrenceUnique(s, last, n);
        var r := d + [last];
        forall i, j | 0 <= i < j < |r|
          ensures FirstIndex(s, r[i]) < FirstIndex(s, r[j])
        {
          assert r[i] == d[i];
          if j < |d| {
            assert r[j] == d[j];
          }
        }
      }
    }
  }

  /** When the last element of `s` occurs only there, a sequence ordered by
      first occurrence that holds it ends with it. */
  lemma LastOccurrenceComesLast<T>(s: seq<T>, t: seq<T>)
    requires s != [] && s[|s| - 1] !in s[..|s| - 1]
    requires FirstOccurrenceOrder(s, t) && s[|s| - 1] in t
    ensures t[|t| - 1] == s[|s| - 1]
    ensures FirstOccurrenceOrder(s[..|s| - 1], t[..|t| - 1])
  {
    var n, m := |s| - 1, |t| - 1;
    var last := s[n];
    FirstOccurrenceUnique(s, last, n);
    forall q | 0 <= q < m
      ensures t[q] != last
    {
      assert FirstIndex(s, t[q]) < FirstIndex(s, t[m]);
    }
    var u := t[..m];
    forall x | x in u
      ensures x in s[..n]
    {
      var q :| 0 <= q < m && u[q] == x;
      assert x in s && x != last;
      var k := FirstIndex(s, x);
      assert s[..n][k] == x;
    }
    assert FirstOccurrenceOrder(s, u) by {
      forall i, j | 0 <= i < j < |u|
        ensures FirstIndex(s, u[i]) < FirstIndex(s, u[j])
      {
        assert u[i] == t[i] && u[j] == t[j];
      }
    }
    OrderOnPrefix(s, n, u);
  }

  /** First-occurrence deduplication is the only sequence that holds exactly
      the elements of `s` in the order of their first occurrence. */
  lemma {:induction false} DistinctCharacterized<T>(s: seq<T>, t: seq<T>)
    requires forall x :: x in s ==> x in t
    requires FirstOccurrenceOrder(s, t)
    ensures t == Distinct(s)
  {
    if s == [] {
      EmptyWithoutElements(t);
    } else {
      var n := |s| - 1;
      var init, last := s[..n], s[n];
      assert s == init + [last];
      DistinctElements(init);
      if last in init {
        assert forall x :: x in t ==> x in init;
        OrderOnPrefix(s, n, t);
        DistinctCharacterized(init, t);
      } else {
        LastOccurrenceComesLast(s, t);
        var u := t[..|t| - 1];
        assert t == u + [last];
        forall x | x in init
          ensures x in u
        {
          assert x in t && x != last;
        }
        DistinctCharacterized(init, u);
      }
    }
  }
}
