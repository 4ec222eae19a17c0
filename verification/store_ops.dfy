/**
  The document store's array update operators as the handlers of
  routes/user.js use them: `$push` appends one element (written `s + [x]`),
  `$pull` removes every element equal to its argument.
 */
module StoreOps {

  /** The elements of a list, as a set. */
  function Elems<T>(s: seq<T>): set<T> {
    set x | x in s
  }

  /** No element occurs twice. */
  predicate NoDup<T(==)>(s: seq<T>) {
    forall i, j :: 0 <= i < j < |s| ==> s[i] != s[j]
  }

  /** `$pull: { list: x }`: every occurrence of x goes, the rest keeps its order. */
  function Pull<T(==,!new)>(s: seq<T>, x: T): (r: seq<T>)
    ensures forall y :: y in r <==> y in s && y != x
    ensures |r| <= |s|
    ensures x in s ==> |r| < |s|
  {
    if s == [] then []
    else (if s[0] == x then [] else [s[0]]) + Pull(s[1..], x)
  }

  /** Pulling a value that is not listed changes nothing. */
  lemma {:induction false} PullAbsent<T(!new)>(s: seq<T>, x: T)
    requires x !in s
    ensures Pull(s, x) == s
  {
    if s != [] {
      PullAbsent(s[1..], x);
    }
  }

  /** Pulling twice is pulling once. */
  lemma PullTwice<T(!new)>(s: seq<T>, x: T)
    ensures Pull(Pull(s, x), x) == Pull(s, x)
  {
    PullAbsent(Pull(s, x), x);
  }

  /** `$pull` works element by element: it distributes over concatenation. */
  lemma {:induction false} PullAppend<T(!new)>(s: seq<T>, t: seq<T>, x: T)
    ensures Pull(s + t, x) == Pull(s, x) + Pull(t, x)
  {
    if s == [] {
      assert s + t == t;
    } else {
      assert (s + t)[1..] == s[1..] + t;
      PullAppend(s[1..], t, x);
    }
  }

  /** Appending a value not yet listed keeps a duplicate-free list duplicate-free. */
  lemma PushFresh<T>(s: seq<T>, x: T)
    requires NoDup(s) && x !in s
    ensures NoDup(s + [x])
  {
    forall i, j | 0 <= i < j < |s + [x]|
      ensures (s + [x])[i] != (s + [x])[j]
    {
      if j == |s| {
        assert (s + [x])[i] == s[i];
      }
    }
  }
}
