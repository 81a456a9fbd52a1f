/** The two list operations of ECMA-262 `Array.prototype.filter` that the
    pages use: filtering by a predicate on the element, and filtering by the
    element's index (`filter((_, i) => i !== index)`). */
module Seqs {

  /** `s.filter(keep)`: the elements of `s` that `keep` accepts, in order. */
  function Filter<T>(keep: T -> bool, s: seq<T>): (r: seq<T>)
    ensures |r| <= |s|
  {
    if s == [] then []
    else (if keep(s[0]) then [s[0]] else []) + Filter(keep, s[1..])
  }

  /** The filtered list holds exactly the elements of `s` that `keep` accepts. */
  lemma {:induction false} FilterMembers<T>(keep: T -> bool, s: seq<T>)
    ensures forall x :: x in Filter(keep, s) ==> x in s && keep(x)
    ensures forall x :: x in s && keep(x) ==> x in Filter(keep, s)
  {
    if s != [] {
      FilterMembers(keep, s[1..]);
    }
  }

  function Not<T>(keep: T -> bool): T -> bool
  {
    x => !keep(x)
  }

  lemma {:induction false} FilterAppend<T>(keep: T -> bool, a: seq<T>, b: seq<T>)
    ensures Filter(keep, a + b) == Filter(keep, a) + Filter(keep, b)
  {
    if a == [] {
      assert a + b == b;
    } else {
      var head := if keep(a[0]) then [a[0]] else [];
      assert (a + b)[0] == a[0] && (a + b)[1..] == a[1..] + b;
      FilterAppend(keep, a[1..], b);
      calc {
        Filter(keep, a + b);
        head + Filter(keep, a[1..] + b);
        head + (Filter(keep, a[1..]) + Filter(keep, b));
        (head + Filter(keep, a[1..])) + Filter(keep, b);
        Filter(keep, a) + Filter(keep, b);
      }
    }
  }

  /** Filtering keeps everything when every element is accepted. */
  lemma {:induction false} FilterKeepsAll<T>(keep: T -> bool, s: seq<T>)
    requires forall x :: x in s ==> keep(x)
    ensures Filter(keep, s) == s
  {
    if s != [] {
      FilterKeepsAll(keep, s[1..]);
    }
  }

  /** Filtering drops everything when no element is accepted. */
  lemma {:induction false} FilterDropsAll<T>(keep: T -> bool, s: seq<T>)
    requires forall x :: x in s ==> !keep(x)
    ensures Filter(keep, s) == []
  {
    if s != [] {
      FilterDropsAll(keep, s[1..]);
    }
  }

  /** Applying the same filter twice gives the result of applying it once. */
  lemma FilterIdempotent<T>(keep: T -> bool, s: seq<T>)
    ensures Filter(keep, Filter(keep, s)) == Filter(keep, s)
  {
    FilterMembers(keep, s);
    FilterKeepsAll(keep, Filter(keep, s));
  }

  /** Two predicates that agree on the elements of `s` filter it alike. */
  lemma {:induction false} FilterCongruent<T>(keep: T -> bool, keep': T -> bool, s: seq<T>)
    requires forall x :: x in s ==> keep(x) == keep'(x)
    ensures Filter(keep, s) == Filter(keep', s)
  {
    if s != [] {
      FilterCongruent(keep, keep', s[1..]);
    }
  }

  /** A filter and its complement split `s` without losing or adding elements. */
  lemma {:induction false} FilterPartition<T>(keep: T -> bool, s: seq<T>)
    ensures multiset(Filter(keep, s)) + multiset(Filter(Not(keep), s)) == multiset(s)
  {
    if s != [] {
      var x, rest := s[0], s[1..];
      FilterPartition(keep, rest);
      var kept, dropped := Filter(keep, rest), Filter(Not(keep), rest);
      assert s == [x] + rest;
      assert multiset(s) == multiset{x} + multiset(rest);
      assert Not(keep)(x) == !keep(x);
      if keep(x) {
        assert Filter(keep, s) == [x] + kept;
        assert Filter(Not(keep), s) == dropped;
        assert multiset(Filter(keep, s)) == multiset{x} + multiset(kept);
      } else {
        assert Filter(keep, s) == kept;
        assert Filter(Not(keep), s) == [x] + dropped;
        assert multiset(Filter(Not(keep), s)) == multiset{x} + multiset(dropped);
      }
    }
  }

  /** `s.filter((_, i) => i !== index)`, written as the recursion over the
      positions of `s` that the callback sees. */
  function RemoveIndex<T>(s: seq<T>, index: int): (r: seq<T>)
    ensures |r| == if 0 <= index < |s| then |s| - 1 else |s|
  {
    if s == [] then []
    else (if index == 0 then [] else [s[0]]) + RemoveIndex(s[1..], index - 1)
  }

  /** Removing an index in range deletes exactly that element and keeps the
      others in order; an index out of range changes nothing. */
  lemma {:induction false} RemoveIndexSpec<T>(s: seq<T>, index: int)
    ensures 0 <= index < |s| ==> RemoveIndex(s, index) == s[..index] + s[index + 1..]
    ensures !(0 <= index < |s|) ==> RemoveIndex(s, index) == s
  {
    if s != [] {
      RemoveIndexSpec(s[1..], index - 1);
      if index == 0 {
      } else if 0 < index < |s| {
        calc {
          RemoveIndex(s, index);
          [s[0]] + (s[1..][..index - 1] + s[1..][index..]);
          { assert [s[0]] + s[1..][..index - 1] == s[..index]; assert s[1..][index..] == s[index + 1..]; }
          s[..index] + s[index + 1..];
        }
      } else {
        assert [s[0]] + s[1..] == s;
      }
    }
  }
}
