/**
  Tables are sequences of rows. This module gives the relational operations
  the handlers use: selecting rows (`WHERE`), the row multiplication of an
  inner join over a to-many relation, and the "no two equal rows" property
  that the store does not enforce for Favorite, Cart and Subscription.
*/
module Rows {

  /** The rows of `s` that satisfy `keep`, in table order. */
  function Filter<T(==,!new)>(s: seq<T>, keep: T -> bool): (r: seq<T>)
    ensures |r| <= |s|
    decreases |s|
  {
    if s == [] then []
    else Filter(s[..|s| - 1], keep) + if keep(s[|s| - 1]) then [s[|s| - 1]] else []
  }

  /** A selection holds exactly the rows of the table that meet the condition. */
  lemma {:induction false} FilterMembers<T(!new)>(s: seq<T>, keep: T -> bool)
    ensures forall x :: x in Filter(s, keep) <==> x in s && keep(x)
    decreases |s|
  {
    if s != [] {
      var init, last := s[..|s| - 1], s[|s| - 1];
      assert s == init + [last];
      FilterMembers(init, keep);
    }
  }

  /** A selection takes each row at most as often as the table holds it. */
  lemma {:induction false} FilterSubMultiset<T(!new)>(s: seq<T>, keep: T -> bool)
    ensures multiset(Filter(s, keep)) <= multiset(s)
    decreases |s|
  {
    if s != [] {
      var init, last := s[..|s| - 1], s[|s| - 1];
      assert s == init + [last];
      FilterSubMultiset(init, keep);
    }
  }

  lemma {:induction false} FilterAppend<T(!new)>(a: seq<T>, b: seq<T>, keep: T -> bool)
    ensures Filter(a + b, keep) == Filter(a, keep) + Filter(b, keep)
    decreases |b|
  {
    if b == [] {
      assert a + b == a;
    } else {
      var init := b[..|b| - 1];
      assert (a + b)[..|a + b| - 1] == a + init;
      FilterAppend(a, init, keep);
    }
  }

  /** Selecting with a condition every row meets keeps the table as it is. */
  lemma {:induction false} FilterAll<T(!new)>(s: seq<T>, keep: T -> bool)
    requires forall x | x in s :: keep(x)
    ensures Filter(s, keep) == s
    decreases |s|
  {
    if s != [] {
      var init, last := s[..|s| - 1], s[|s| - 1];
      assert s == init + [last];
      FilterAll(init, keep);
    }
  }

  /** Selecting with a condition no row meets yields no rows. */
  lemma {:induction false} FilterNone<T(!new)>(s: seq<T>, keep: T -> bool)
    requires forall x | x in s :: !keep(x)
    ensures Filter(s, keep) == []
    decreases |s|
  {
    if s != [] {
      var init := s[..|s| - 1];
      assert forall x | x in init :: x in s;
      FilterNone(init, keep);
    }
  }

  /** Two conditions that agree on every row select the same rows. */
  lemma {:induction false} FilterCongruent<T(!new)>(s: seq<T>, p: T -> bool, q: T -> bool)
    requires forall x | x in s :: p(x) == q(x)
    ensures Filter(s, p) == Filter(s, q)
    decreases |s|
  {
    if s != [] {
      var init := s[..|s| - 1];
      assert forall x | x in init :: x in s;
      FilterCongruent(init, p, q);
    }
  }

  /** Narrowing a selection by a stronger condition is selecting by that condition. */
  lemma {:induction false} FilterNarrow<T(!new)>(s: seq<T>, p: T -> bool, q: T -> bool)
    requires forall x | x in s && q(x) :: p(x)
    ensures Filter(Filter(s, p), q) == Filter(s, q)
    decreases |s|
  {
    if s != [] {
      var init, last := s[..|s| - 1], s[|s| - 1];
      assert forall x | x in init :: x in s;
      FilterNarrow(init, p, q);
      FilterAppend(Filter(init, p), if p(last) then [last] else [], q);
    }
  }

  /** Selecting keeps every copy of a row that meets the condition and no copy of the others. */
  lemma {:induction false} FilterCount<T(!new)>(s: seq<T>, keep: T -> bool, x: T)
    ensures multiset(Filter(s, keep))[x] == if keep(x) then multiset(s)[x] else 0
    decreases |s|
  {
    if s != [] {
      var init, last := s[..|s| - 1], s[|s| - 1];
      assert s == init + [last];
      FilterCount(init, keep, x);
    }
  }

  /** Every row meets `ok` (a constraint checked row by row), stated from the last row back. */
  ghost predicate AllRows<T>(s: seq<T>, ok: T -> bool)
    decreases |s|
  {
    s == [] || (AllRows(s[..|s| - 1], ok) && ok(s[|s| - 1]))
  }

  lemma {:induction false} AllRowsMeans<T>(s: seq<T>, ok: T -> bool)
    ensures AllRows(s, ok) <==> forall x | x in s :: ok(x)
    decreases |s|
  {
    if s != [] {
      var init, last := s[..|s| - 1], s[|s| - 1];
      assert s == init + [last];
      AllRowsMeans(init, ok);
    }
  }

  /** No row occurs twice: a uniqueness constraint on the whole row, checked from the last row back. */
  predicate NoDuplicates<T(==)>(s: seq<T>)
    decreases |s|
  {
    s == [] || (s[|s| - 1] !in s[..|s| - 1] && NoDuplicates(s[..|s| - 1]))
  }

  /** The same constraint stated as counts: every row occurs exactly once. */
  lemma {:induction false} NoDuplicatesMeans<T>(s: seq<T>)
    ensures NoDuplicates(s) <==> forall x | x in s :: multiset(s)[x] == 1
    decreases |s|
  {
    if s != [] {
      var init, last := s[..|s| - 1], s[|s| - 1];
      assert s == init + [last];
      assert multiset(s) == multiset(init) + multiset{last};
      NoDuplicatesMeans(init);
      if forall x | x in s :: multiset(s)[x] == 1 {
        assert multiset(s)[last] == 1;
        forall x | x in init ensures multiset(init)[x] == 1 {
          assert x in s;
        }
      }
    }
  }

  /** A row not yet in a duplicate-free table can be put in front of it. */
  lemma {:induction false} NoDuplicatesPrepend<T>(x: T, s: seq<T>)
    requires x !in s && NoDuplicates(s)
    ensures NoDuplicates([x] + s)
  {
    NoDuplicatesMeans(s);
    NoDuplicatesMeans([x] + s);
    assert multiset([x] + s) == multiset{x} + multiset(s);
  }

  lemma {:induction false} FilterKeepsNoDuplicates<T(!new)>(s: seq<T>, keep: T -> bool)
    requires NoDuplicates(s)
    ensures NoDuplicates(Filter(s, keep))
    decreases |s|
  {
    if s != [] {
      var init, last := s[..|s| - 1], s[|s| - 1];
      FilterKeepsNoDuplicates(init, keep);
      var rest := Filter(init, keep);
      if keep(last) {
        FilterMembers(init, keep);
        assert (rest + [last])[..|rest|] == rest;
      } else {
        assert Filter(s, keep) == rest;
      }
    }
  }

  /** `n` copies of `x`. */
  function Repeat<T>(x: T, n: nat): (r: seq<T>)
    ensures |r| == n
    ensures forall i | 0 <= i < n :: r[i] == x
  {
    seq(n, _ => x)
  }

  /**
    The rows an inner join over a to-many relation yields: each row of `s`
    once per related row, `times(x)` being the number of related rows that
    match `x`, in table order.
  */
  function Fanout<T(==,!new)>(s: seq<T>, times: T -> nat): (r: seq<T>)
    ensures forall x | x in r :: x in s && times(x) > 0
    ensures forall x | x in s && times(x) > 0 :: x in r
    decreases |s|
  {
    if s == [] then []
    else
      var init, last := s[..|s| - 1], s[|s| - 1];
      assert s == init + [last];
      var copies := Repeat(last, times(last));
      assert times(last) > 0 ==> copies[0] == last;
      Fanout(init, times) + copies
  }

  /**
    When no row matches more than one related row, the join is the plain
    selection of the rows that match one.
  */
  lemma {:induction false} FanoutAsFilter<T(!new)>(s: seq<T>, times: T -> nat, keep: T -> bool)
    requires forall x | x in s :: times(x) == if keep(x) then 1 else 0
    ensures Fanout(s, times) == Filter(s, keep)
    decreases |s|
  {
    if s != [] {
      var init, last := s[..|s| - 1], s[|s| - 1];
      assert forall x | x in init :: x in s;
      FanoutAsFilter(init, times, keep);
      assert Repeat(last, times(last)) == if keep(last) then [last] else [];
    }
  }

  /** A join that matches nothing yields no rows. */
  lemma {:induction false} FanoutEmpty<T(!new)>(s: seq<T>, times: T -> nat)
    requires forall x | x in s :: times(x) == 0
    ensures Fanout(s, times) == []
    decreases |s|
  {
    if s != [] {
      var init := s[..|s| - 1];
      assert forall x | x in init :: x in s;
      FanoutEmpty(init, times);
    }
  }
}
