/**
 * Sequence facts shared by the pipeline: distinctness, the position of the
 * first occurrence of a value, and "keep the first occurrence of each value"
 * (the ordering both a row de-duplication and an insertion-ordered counting
 * dictionary give).
 */
module Seqs {

  /** No value occurs twice in `s`. */
  predicate NoDuplicates<T(==)>(s: seq<T>) {
    forall i, j :: 0 <= i < j < |s| ==> s[i] != s[j]
  }

  /** The set of values of `s`. */
  function Elements<T>(s: seq<T>): set<T>
  {
    set x | x in s
  }

  /** The index at which `x` first occurs in `s`. */
  function FirstIndex<T(==)>(s: seq<T>, x: T): (r: nat)
    requires x in s
    ensures r < |s| && s[r] == x && x !in s[..r]
  {
    if s[0] == x then 0
    else
      var k := FirstIndex(s[1..], x);
      assert s[..k + 1] == [s[0]] + s[1..][..k];
      k + 1
  }

  /** In a sequence without duplicates every value sits at its first occurrence. */
  lemma FirstIndexOfDistinct<T>(s: seq<T>)
    requires NoDuplicates(s)
    ensures forall i :: 0 <= i < |s| ==> FirstIndex(s, s[i]) == i
  {
    forall i | 0 <= i < |s|
      ensures FirstIndex(s, s[i]) == i
    {
      var k := FirstIndex(s, s[i]);
      assert s[k] == s[i] && s[i] !in s[..k];
    }
  }

  /** Extending a sequence does not move the first occurrence of an old value. */
  lemma FirstIndexPrefix<T>(s: seq<T>, t: seq<T>, x: T)
    requires x in s
    ensures x in s + t && FirstIndex(s + t, x) == FirstIndex(s, x)
  {
    var k := FirstIndex(s, x);
    assert (s + t)[k] == x;
    assert (s + t)[..k] == s[..k];
  }

  /**
   * The values of `s` in the order of their first occurrence, each once:
   * a later repetition of a value already seen is dropped.
   */
  function Distinct<T(==)>(s: seq<T>): (r: seq<T>)
    ensures NoDuplicates(r)
    ensures forall i :: 0 <= i < |r| ==> r[i] in s
    ensures forall i :: 0 <= i < |s| ==> s[i] in r
    ensures |r| <= |s|
  {
    if s == [] then []
    else
      var init, last := s[..|s| - 1], s[|s| - 1];
      assert s == init + [last];
      if last in init then Distinct(init) else Distinct(init) + [last]
  }

  /**
   * Distinct lists the values of `s` in the order of their first
   * occurrence in `s`.
   */
  lemma {:induction false} DistinctOrder<T>(s: seq<T>)
    ensures forall i, j :: 0 <= i < j < |Distinct(s)| ==>
      FirstIndex(s, Distinct(s)[i]) < FirstIndex(s, Distinct(s)[j])
  {
    if s != [] {
      var init, last := s[..|s| - 1], s[|s| - 1];
      assert s == init + [last];
      DistinctOrder(init);
      var d := Distinct(init);
      forall x | x in init
        ensures FirstIndex(s, x) == FirstIndex(init, x)
      {
        FirstIndexPrefix(init, [last], x);
      }
      if last !in init {
        assert Distinct(s) == d + [last];
        assert FirstIndex(s, last) == |init| by {
          assert s[|init|] == last && s[..|init|] == init;
        }
      } else {
        assert Distinct(s) == d;
      }
    }
  }

  /**
   * Position in Distinct(s) and first occurrence in s order two values the
   * same way.
   */
  lemma DistinctOrderIff<T>(s: seq<T>, a: T, b: T)
    requires a in s && b in s
    ensures a in Distinct(s) && b in Distinct(s)
    ensures FirstIndex(Distinct(s), a) < FirstIndex(Distinct(s), b)
        <==> FirstIndex(s, a) < FirstIndex(s, b)
  {
    var d := Distinct(s);
    DistinctOrder(s);
    var i, j := FirstIndex(d, a), FirstIndex(d, b);
    if i < j {
      assert FirstIndex(s, d[i]) < FirstIndex(s, d[j]);
    } else if j < i {
      assert FirstIndex(s, d[j]) < FirstIndex(s, d[i]);
    }
  }

  /** A sequence has at most as many different values as entries; exactly as many when it has no duplicates. */
  lemma {:induction false} ElementsSize<T>(s: seq<T>)
    ensures |Elements(s)| <= |s|
    ensures NoDuplicates(s) ==> |Elements(s)| == |s|
  {
    if s != [] {
      var init, last := s[..|s| - 1], s[|s| - 1];
      assert s == init + [last];
      ElementsSize(init);
      assert Elements(s) == Elements(init) + {last};
      if NoDuplicates(s) {
        assert NoDuplicates(init);
        assert last !in Elements(init);
      }
    }
  }

  /** Distinct(s) has exactly as many entries as `s` has different values. */
  lemma DistinctLength<T>(s: seq<T>)
    ensures |Distinct(s)| == |Elements(s)|
  {
    ElementsSize(Distinct(s));
    assert Elements(Distinct(s)) == Elements(s);
  }

  /**
   * A duplicate-free sequence all of whose values occur in `t` is no longer
   * than `t`.
   */
  lemma SubsetLength<T>(s: seq<T>, t: seq<T>)
    requires NoDuplicates(s)
    requires forall x :: x in s ==> x in t
    ensures |s| <= |t|
  {
    ElementsSize(s);
    ElementsSize(t);
    var a, b := Elements(s), Elements(t);
    assert b == a + (b - a) && a * (b - a) == {};
  }

  /**
   * Pigeonhole: a duplicate-free sequence longer than `t` holds a value that
   * `t` does not; `k` is its position.
   */
  lemma Pigeonhole<T>(s: seq<T>, t: seq<T>) returns (k: nat)
    requires NoDuplicates(s) && |t| < |s|
    ensures k < |s| && s[k] !in t
  {
    ElementsSize(s);
    ElementsSize(t);
    var a, b := Elements(s), Elements(t);
    assert a == (a - b) + (a * b) && (a - b) * (a * b) == {};
    assert b == (a * b) + (b - a) && (a * b) * (b - a) == {};
    var x :| x in a - b;
    k := FirstIndex(s, x);
  }

  /** Distinct of a sequence extended by one value. */
  lemma DistinctSnoc<T>(s: seq<T>, x: T)
    ensures Distinct(s + [x]) == if x in s then Distinct(s) else Distinct(s) + [x]
  {
    assert (s + [x])[..|s|] == s;
  }
}
