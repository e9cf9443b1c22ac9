/** Facts about sequences shared by the backend and the frontend models. */
module Seqs {

  /** No element occurs twice. */
  predicate NoDuplicates(s: seq<string>)
  {
    forall i, j :: 0 <= i < j < |s| ==> s[i] != s[j]
  }

  /** The distinct elements of `s` in order of first occurrence: the key order of a
      Python dict built by inserting the elements of `s` one after the other. */
  function Dedup(s: seq<string>): seq<string>
  {
    if s == [] then []
    else
      var p := Dedup(s[..|s| - 1]);
      if s[|s| - 1] in p then p else p + [s[|s| - 1]]
  }

  /** The key order lists every element of `s`, and no element twice. */
  lemma {:induction false} DedupDistinct(s: seq<string>)
    ensures forall v :: v in Dedup(s) <==> v in s
    ensures NoDuplicates(Dedup(s))
  {
    if s != [] {
      var p := s[..|s| - 1];
      assert s == p + [s[|s| - 1]];
      DedupDistinct(p);
    }
  }

  /** A sequence without duplicates is its own key order. */
  lemma {:induction false} DedupOfDistinct(s: seq<string>)
    requires NoDuplicates(s)
    ensures Dedup(s) == s
  {
    if s != [] {
      var p := s[..|s| - 1];
      assert NoDuplicates(p);
      DedupOfDistinct(p);
      assert s[|s| - 1] !in p;
      assert p + [s[|s| - 1]] == s;
    }
  }

  /** The number of occurrences of `v` in `s`. */
  function Count(s: seq<string>, v: string): nat
  {
    if s == [] then 0
    else Count(s[..|s| - 1], v) + (if s[|s| - 1] == v then 1 else 0)
  }

  /** A name occurs at least once exactly when it is a member. */
  lemma {:induction false} CountPositive(s: seq<string>, v: string)
    ensures Count(s, v) > 0 <==> v in s
  {
    if s != [] {
      var p := s[..|s| - 1];
      assert s == p + [s[|s| - 1]];
      CountPositive(p, v);
    }
  }

  /** In a sequence without duplicates every member occurs exactly once. */
  lemma {:induction false} CountOfDistinct(s: seq<string>, v: string)
    requires NoDuplicates(s)
    ensures Count(s, v) == if v in s then 1 else 0
  {
    if s != [] {
      var p := s[..|s| - 1];
      assert s == p + [s[|s| - 1]];
      assert NoDuplicates(p);
      CountOfDistinct(p, v);
      assert s[|s| - 1] !in p;
    }
  }
}
