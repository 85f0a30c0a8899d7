/** Small vocabulary shared by the modules: optional values, the set of elements
    of a list, and lists that enumerate a set without repetition.  Go iterates a
    map in an arbitrary order; the loops of this project do the same by choosing
    an arbitrary remaining key, so every result holds for every order. */
module Collections {

  datatype Option<+T> = None | Some(value: T)

  /** The elements of a list. */
  function Elems<T>(xs: seq<T>): set<T> {
    set x | x in xs
  }

  ghost predicate NoDup<T>(xs: seq<T>) {
    forall i, j :: 0 <= i < j < |xs| ==> xs[i] != xs[j]
  }

  /** `xs` lists the members of `s`, each exactly once. */
  ghost predicate Lists<T>(xs: seq<T>, s: set<T>) {
    NoDup(xs) && Elems(xs) == s
  }

  lemma ListsAppend<T>(xs: seq<T>, s: set<T>, x: T)
    requires Lists(xs, s) && x !in s
    ensures Lists(xs + [x], s + {x})
  {
  }

  /** Two enumerations of one set are permutations of each other. */
  lemma {:induction false} ListsPermute<T>(xs: seq<T>, ys: seq<T>, s: set<T>)
    requires Lists(xs, s) && Lists(ys, s)
    ensures multiset(xs) == multiset(ys)
  {
    ListsCount(xs, s);
    ListsCount(ys, s);
  }

  lemma {:induction false} ListsCount<T>(xs: seq<T>, s: set<T>)
    requires Lists(xs, s)
    ensures multiset(xs) == multiset(s)
  {
    if xs == [] {
      assert s == {};
    } else {
      var x := xs[|xs| - 1];
      var front := xs[..|xs| - 1];
      assert xs == front + [x];
      assert x in s;
      assert Elems(front) == s - {x} by {
        forall y | y in s - {x}
          ensures y in front
        {
          assert y in xs;
        }
      }
      ListsCount(front, s - {x});
      assert multiset(xs) == multiset(front) + multiset{x};
      assert multiset(s) == multiset(s - {x}) + multiset{x};
    }
  }

  const TWO32 := 0x1_0000_0000
  const MAX_INT64 := 0x7FFF_FFFF_FFFF_FFFF

  function Lower(c: char): char {
    if 'A' <= c <= 'Z' then c - 'A' + 'a' else c
  }

  /** Equality of texts but for case. */
  predicate EqualFold(s: string, t: string) {
    |s| == |t| && forall i :: 0 <= i < |s| ==> Lower(s[i]) == Lower(t[i])
  }

  /** Which characters count as one: a letter of the alphabet and its capital. */
  lemma FoldIff(s: string, t: string)
    ensures EqualFold(s, t) <==>
            |s| == |t| && forall i :: 0 <= i < |s| ==>
              || s[i] == t[i]
              || ('A' <= s[i] <= 'Z' && t[i] as int == s[i] as int + 32)
              || ('A' <= t[i] <= 'Z' && s[i] as int == t[i] as int + 32)
  {
    if |s| == |t| {
      forall i | 0 <= i < |s|
        ensures Lower(s[i]) == Lower(t[i]) <==>
                || s[i] == t[i]
                || ('A' <= s[i] <= 'Z' && t[i] as int == s[i] as int + 32)
                || ('A' <= t[i] <= 'Z' && s[i] as int == t[i] as int + 32)
      {
        LowerIs(s[i]);
        LowerIs(t[i]);
      }
    }
  }

  lemma LowerIs(c: char)
    ensures Lower(c) as int == if 'A' <= c <= 'Z' then c as int + 32 else c as int
  {
  }
}
