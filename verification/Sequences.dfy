/** Facts about sequences that several modules need. */
module Sequences {
  function CountIf<T>(p: T -> bool, xs: seq<T>): nat {
    if xs == [] then 0 else CountIf(p, xs[..|xs| - 1]) + if p(xs[|xs| - 1]) then 1 else 0
  }

  lemma SameMembers<T>(xs: seq<T>, ys: seq<T>)
    requires multiset(xs) == multiset(ys)
    ensures forall x :: x in xs <==> x in ys
  {
    assert forall x :: x in xs <==> x in multiset(xs);
    assert forall x :: x in ys <==> x in multiset(ys);
  }

  lemma {:induction false} CountOfConcat<T>(p: T -> bool, xs: seq<T>, ys: seq<T>)
    ensures CountIf(p, xs + ys) == CountIf(p, xs) + CountIf(p, ys)
  {
    if ys == [] {
      assert xs + ys == xs;
    } else {
      assert (xs + ys)[..|xs + ys| - 1] == xs + ys[..|ys| - 1];
      CountOfConcat(p, xs, ys[..|ys| - 1]);
    }
  }

  lemma Cancelled<T>(a: multiset<T>, b: multiset<T>, x: T)
    requires a + multiset{x} == b + multiset{x}
    ensures a == b
  {
    assert a == (a + multiset{x}) - multiset{x};
    assert b == (b + multiset{x}) - multiset{x};
  }

  /** Two permutations stay permutations when the last element of one leaves both. */
  lemma OneRemoved<T>(xs: seq<T>, ys: seq<T>, j: nat)
    requires xs != [] && multiset(xs) == multiset(ys) && j < |ys| && ys[j] == xs[|xs| - 1]
    ensures multiset(xs[..|xs| - 1]) == multiset(ys[..j] + ys[j + 1..])
  {
    var x, before, front, back := ys[j], xs[..|xs| - 1], ys[..j], ys[j + 1..];
    calc {
      multiset(before) + multiset{x};
    == { assert xs == before + [x]; }
      multiset(xs);
    ==
      multiset(ys);
    == { assert ys == front + [x] + back; }
      multiset(front + back) + multiset{x};
    }
    Cancelled(multiset(before), multiset(front + back), x);
  }

  lemma {:induction false} CountOfPermutation<T>(p: T -> bool, xs: seq<T>, ys: seq<T>)
    requires multiset(xs) == multiset(ys)
    ensures CountIf(p, xs) == CountIf(p, ys)
  {
    if xs == [] {
      assert |multiset(ys)| == 0;
    } else {
      var x := xs[|xs| - 1];
      assert x in multiset(xs);
      var j :| 0 <= j < |ys| && ys[j] == x;
      OneRemoved(xs, ys, j);
      CountOfPermutation(p, xs[..|xs| - 1], ys[..j] + ys[j + 1..]);
      CountWithout(p, ys, j);
    }
  }

  lemma CountWithout<T>(p: T -> bool, ys: seq<T>, j: nat)
    requires j < |ys|
    ensures CountIf(p, ys) == CountIf(p, ys[..j] + ys[j + 1..]) + if p(ys[j]) then 1 else 0
  {
    hide CountIf;
    var front, y, back := ys[..j], ys[j], ys[j + 1..];
    assert ys == front + [y] + back;
    CountOfConcat(p, front, back);
    CountOfConcat(p, front + [y], back);
    CountOfConcat(p, front, [y]);
    CountOfOne(p, y);
  }

  lemma CountOfOne<T>(p: T -> bool, y: T)
    ensures CountIf(p, [y]) == if p(y) then 1 else 0
  {
    assert [y][..0] == [];
  }
}
