/** Sequence helpers shared by the genre union and the score table: the
    iteration order of a JavaScript `Set` (first insertion wins) and first
    positions. */
module Seqs {

  predicate Distinct<T(==)>(s: seq<T>)
  {
    forall i, j :: 0 <= i < j < |s| ==> s[i] != s[j]
  }

  /** The elements of `s`, each once, in the order of their first occurrence:
      what a `Set` filled from `s` by `add` iterates over. */
  function Dedup<T(==)>(s: seq<T>): (r: seq<T>)
    ensures Distinct(r)
    ensures |r| <= |s|
  {
    if s == [] then []
    else
      var d := Dedup(s[..|s| - 1]);
      if s[|s| - 1] in d then d else d + [s[|s| - 1]]
  }

  /** `Dedup` loses and invents nothing. */
  lemma {:induction false} DedupMembers<T>(s: seq<T>, x: T)
    ensures x in Dedup(s) <==> x in s
  {
    if s != [] {
      var p := s[..|s| - 1];
      DedupMembers(p, x);
      assert s == p + [s[|s| - 1]];
    }
  }

  /** The position of the first occurrence of `x` in `s` (`indexOf`). */
  function FirstIndex<T(==)>(s: seq<T>, x: T): (k: nat)
    requires x in s
    ensures k < |s| && s[k] == x
    ensures x !in s[..k]
  {
    if s[0] == x then 0 else 1 + FirstIndex(s[1..], x)
  }

  lemma {:induction false} FirstIndexAppend<T>(s: seq<T>, y: T, x: T)
    requires x in s
    ensures FirstIndex(s + [y], x) == FirstIndex(s, x)
  {
    if s[0] != x {
      assert (s + [y])[1..] == s[1..] + [y];
      FirstIndexAppend(s[1..], y, x);
    }
  }

  lemma FirstIndexUnique<T>(s: seq<T>, k: nat)
    requires Distinct(s) && k < |s|
    ensures FirstIndex(s, s[k]) == k
  {
    var f := FirstIndex(s, s[k]);
    assert s[f] == s[k];
  }

  /** `Dedup` lists its elements in the order in which they first occur. */
  lemma {:induction false} DedupFirstSeenOrder<T>(s: seq<T>, i: nat, j: nat)
    requires i < j < |Dedup(s)|
    ensures Dedup(s)[i] in s && Dedup(s)[j] in s
    ensures FirstIndex(s, Dedup(s)[i]) < FirstIndex(s, Dedup(s)[j])
  {
    DedupMembers(s, Dedup(s)[i]);
    DedupMembers(s, Dedup(s)[j]);
    var n := |s|;
    var p := s[..n - 1];
    var d := Dedup(p);
    assert s == p + [s[n - 1]];
    var x, y := Dedup(s)[i], Dedup(s)[j];
    if s[n - 1] in d {
      DedupFirstSeenOrder(p, i, j);
      FirstIndexAppend(p, s[n - 1], x);
      FirstIndexAppend(p, s[n - 1], y);
    } else if j < |d| {
      DedupFirstSeenOrder(p, i, j);
      FirstIndexAppend(p, s[n - 1], x);
      FirstIndexAppend(p, s[n - 1], y);
    } else {
      assert y == s[n - 1];
      DedupMembers(p, y);
      DedupMembers(p, x);
      assert x in p;
      FirstIndexAppend(p, s[n - 1], x);
      assert s[..n - 1] == p;
    }
  }

  /** Adding one more element to the source of a `Set`: it is appended to the
      iteration order unless it is already there. */
  lemma DedupSnoc<T>(s: seq<T>, x: T)
    ensures Dedup(s + [x]) == if x in Dedup(s) then Dedup(s) else Dedup(s) + [x]
  {
    assert (s + [x])[..|s + [x]| - 1] == s;
  }

  /** `s` without any occurrence of `x`, the others kept in order (`filter`). */
  function Remove<T(==)>(s: seq<T>, x: T): (r: seq<T>)
    ensures x !in r
    ensures |r| <= |s|
  {
    if s == [] then []
    else (if s[0] == x then [] else [s[0]]) + Remove(s[1..], x)
  }

  lemma {:induction false} RemoveMembers<T>(s: seq<T>, x: T, y: T)
    ensures y in Remove(s, x) <==> y in s && y != x
  {
    if s != [] {
      RemoveMembers(s[1..], x, y);
      assert s == [s[0]] + s[1..];
    }
  }

  lemma {:induction false} RemoveDistinct<T>(s: seq<T>, x: T)
    requires Distinct(s)
    ensures Distinct(Remove(s, x))
  {
    if s != [] {
      RemoveDistinct(s[1..], x);
      RemoveMembers(s[1..], x, s[0]);
      var r := Remove(s, x);
      var r' := Remove(s[1..], x);
      if s[0] != x {
        assert r == [s[0]] + r';
        forall i, j | 0 <= i < j < |r|
          ensures r[i] != r[j]
        {
          if i == 0 {
            assert r[j] == r'[j - 1];
            assert r'[j - 1] in r';
          }
        }
      }
    }
  }
}
