/** Small datatypes shared by the other modules. */
module Basics {

  datatype Option<+T> = None | Some(value: T)

  datatype Result<+T, +E> = Ok(value: T) | Err(error: E)

  /** The records of one list are distinct objects. */
  ghost predicate Distinct<T>(s: seq<T>) {
    forall i, j :: 0 <= i < j < |s| ==> s[i] != s[j]
  }

  /** The elements of `s` that satisfy `p`, in order. */
  function Filter<T(!new)>(s: seq<T>, p: T -> bool): (r: seq<T>)
    ensures forall x :: x in r <==> x in s && p(x)
    ensures |r| <= |s|
  {
    if s == [] then []
    else
      var rest := Filter(s[..|s| - 1], p);
      if p(s[|s| - 1]) then rest + [s[|s| - 1]] else rest
  }

  lemma FilterSnoc<T(!new)>(s: seq<T>, x: T, p: T -> bool)
    ensures Filter(s + [x], p) == if p(x) then Filter(s, p) + [x] else Filter(s, p)
  {
    assert (s + [x])[..|s|] == s;
  }

  lemma {:induction false} FilterAppend<T(!new)>(a: seq<T>, b: seq<T>, p: T -> bool)
    ensures Filter(a + b, p) == Filter(a, p) + Filter(b, p)
    decreases |b|
  {
    if b == [] {
      assert a + b == a;
    } else {
      var before, last := b[..|b| - 1], b[|b| - 1];
      calc {
        Filter(a + b, p);
        { assert a + b == (a + before) + [last]; }
        Filter((a + before) + [last], p);
        { FilterSnoc(a + before, last, p); }
        Filter(a + before, p) + if p(last) then [last] else [];
        { FilterAppend(a, before, p); }
        Filter(a, p) + Filter(before, p) + if p(last) then [last] else [];
        Filter(a, p) + Filter(b, p);
      }
    }
  }

  lemma {:induction false} FilterNone<T(!new)>(s: seq<T>, p: T -> bool)
    requires forall x :: x in s ==> !p(x)
    ensures Filter(s, p) == []
    decreases |s|
  {
    if s != [] {
      FilterNone(s[..|s| - 1], p);
    }
  }

  lemma {:induction false} FilterDistinct<T(!new)>(s: seq<T>, p: T -> bool)
    requires Distinct(s)
    ensures Distinct(Filter(s, p))
    decreases |s|
  {
    if s != [] {
      var before, last := s[..|s| - 1], s[|s| - 1];
      FilterDistinct(before, p);
      assert last !in before;
    }
  }

  /** Filtering keeps each element as often as it occurs, or drops it altogether. */
  lemma {:induction false} FilterCounts<T(!new)>(s: seq<T>, p: T -> bool, x: T)
    ensures multiset(Filter(s, p))[x] == if p(x) then multiset(s)[x] else 0
    decreases |s|
  {
    if s != [] {
      var before, last := s[..|s| - 1], s[|s| - 1];
      FilterCounts(before, p, x);
      assert s == before + [last];
    }
  }
}

/** SHA-256 (section 6.2 of FIPS 180-4) as an unknown function on texts. */
module Hashing {

  type Sha = string -> string

  /**
   * No two different texts of `texts` share a digest. Every theorem that needs
   * collision resistance asks for it on the finite set of texts it hashes and
   * on nothing else, so the hypothesis can hold of the real function.
   */
  ghost predicate CollisionFreeOn(sha: Sha, texts: set<string>) {
    forall a, b :: a in texts && b in texts && sha(a) == sha(b) ==> a == b
  }
}
