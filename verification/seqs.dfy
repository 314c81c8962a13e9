/** Sequence helpers shared by the knowledge base and the operations: the
    Python idioms `list(set(xs))` and `[x for x in xs if x in s]`. */
module Seqs {

  ghost predicate Distinct<T>(s: seq<T>) {
    forall i, j :: 0 <= i < j < |s| ==> s[i] != s[j]
  }

  function Elems<T(!new)>(s: seq<T>): (r: set<T>)
    ensures forall x :: x in r <==> x in s
  {
    set x | x in s
  }

  /** `list(set(s))`, in first-occurrence order: the source's order is set iteration
      order, which the model does not fix, so callers rely only on membership. */
  function Dedup<T(==,!new)>(s: seq<T>): (r: seq<T>)
    ensures Distinct(r)
    ensures forall x :: x in r <==> x in s
    ensures |r| <= |s|
  {
    if |s| == 0 then []
    else
      var prefix := Dedup(s[..|s| - 1]);
      assert forall x :: x in s <==> x in s[..|s| - 1] || x == s[|s| - 1] by {
        assert s == s[..|s| - 1] + [s[|s| - 1]];
      }
      if s[|s| - 1] in prefix then prefix else prefix + [s[|s| - 1]]
  }

  /** The elements of `s` that belong to `keep`, in order, duplicates included. */
  function Keep<T(==,!new)>(s: seq<T>, keep: set<T>): (r: seq<T>)
    ensures forall x :: x in r <==> x in s && x in keep
    ensures |r| <= |s|
  {
    if |s| == 0 then []
    else
      var prefix := Keep(s[..|s| - 1], keep);
      assert forall x :: x in s <==> x in s[..|s| - 1] || x == s[|s| - 1] by {
        assert s == s[..|s| - 1] + [s[|s| - 1]];
      }
      if s[|s| - 1] in keep then prefix + [s[|s| - 1]] else prefix
  }

  /** A distinct sequence has exactly as many elements as its element set. */
  lemma {:induction false} DistinctCard<T(!new)>(s: seq<T>)
    requires Distinct(s)
    ensures |Elems(s)| == |s|
  {
    if |s| > 0 {
      var prefix := s[..|s| - 1];
      assert Distinct(prefix);
      DistinctCard(prefix);
      assert s == prefix + [s[|s| - 1]];
      assert Elems(s) == Elems(prefix) + {s[|s| - 1]};
      assert s[|s| - 1] !in prefix;
    }
  }

  /** A list has at least as many entries as distinct elements, and exactly as many when it repeats none. */
  lemma {:induction false} ElemsCard<T(!new)>(s: seq<T>)
    ensures |Elems(s)| <= |s|
    ensures Distinct(s) ==> |Elems(s)| == |s|
  {
    if |s| > 0 {
      var prefix := s[..|s| - 1];
      ElemsCard(prefix);
      assert s == prefix + [s[|s| - 1]];
      assert Elems(s) == Elems(prefix) + {s[|s| - 1]};
      if Distinct(s) {
        assert Distinct(prefix);
        assert s[|s| - 1] !in prefix;
      }
    }
  }

  function Firsts<A, B>(p: seq<(A, B)>): (r: seq<A>)
    ensures |r| == |p| && forall i :: 0 <= i < |p| ==> r[i] == p[i].0
  {
    seq(|p|, i requires 0 <= i < |p| => p[i].0)
  }

  function Seconds<A, B>(p: seq<(A, B)>): (r: seq<B>)
    ensures |r| == |p| && forall i :: 0 <= i < |p| ==> r[i] == p[i].1
  {
    seq(|p|, i requires 0 <= i < |p| => p[i].1)
  }

  /** Python's `zip`: pairs up to the shorter length. */
  function Zip<A, B>(a: seq<A>, b: seq<B>): (r: seq<(A, B)>)
    ensures |r| == if |a| <= |b| then |a| else |b|
    ensures forall i :: 0 <= i < |r| ==> r[i] == (a[i], b[i])
  {
    var n := if |a| <= |b| then |a| else |b|;
    seq(n, i requires 0 <= i < n => (a[i], b[i]))
  }

  /** Splitting pairs into two parallel lists and zipping them back gives the pairs. */
  lemma ZipOfUnzip<A, B>(p: seq<(A, B)>)
    ensures Zip(Firsts(p), Seconds(p)) == p
  {
  }

  /** The two parallel lists rebuilt from their zip, when they have the same length. */
  lemma UnzipOfZip<A, B>(a: seq<A>, b: seq<B>)
    requires |a| == |b|
    ensures Firsts(Zip(a, b)) == a && Seconds(Zip(a, b)) == b
  {
  }
}
