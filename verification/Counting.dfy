/** How many elements of a sequence satisfy a predicate, as the size of an index set. */
module Counting {
  function Where<T>(xs: seq<T>, f: T -> bool): set<nat> {
    set i: nat | i < |xs| && f(xs[i])
  }

  function CountOf<T>(xs: seq<T>, f: T -> bool): nat {
    |Where(xs, f)|
  }

  function Bit(b: bool): nat {
    if b then 1 else 0
  }

  lemma CountNone<T>(xs: seq<T>, f: T -> bool)
    requires forall i :: 0 <= i < |xs| ==> !f(xs[i])
    ensures CountOf(xs, f) == 0
  {
    assert Where(xs, f) == {};
  }

  lemma {:induction false} CountAll<T>(xs: seq<T>, f: T -> bool)
    requires forall i :: 0 <= i < |xs| ==> f(xs[i])
    ensures CountOf(xs, f) == |xs|
  {
    if xs == [] {
      CountNone(xs, f);
    } else {
      var before := xs[..|xs| - 1];
      CountAll(before, f);
      CountAppended(before, xs[|xs| - 1], f);
      assert xs == before + [xs[|xs| - 1]];
    }
  }

  lemma CountAppended<T>(xs: seq<T>, x: T, f: T -> bool)
    ensures CountOf(xs + [x], f) == CountOf(xs, f) + Bit(f(x))
  {
    assert Where(xs + [x], f) == Where(xs, f) + if f(x) then {|xs|} else {};
  }

  lemma CountChanged<T>(xs: seq<T>, p: nat, x: T, f: T -> bool)
    requires p < |xs|
    ensures CountOf(xs[p := x], f) + Bit(f(xs[p])) == CountOf(xs, f) + Bit(f(x))
  {
    var rest := Where(xs, f) - {p};
    assert Where(xs, f) == rest + if f(xs[p]) then {p} else {};
    assert Where(xs[p := x], f) == rest + if f(x) then {p} else {};
  }

  lemma {:induction false} SubsetSize(a: set<nat>, b: set<nat>)
    requires a <= b
    ensures |a| <= |b|
  {
    if a != {} {
      var x :| x in a;
      SubsetSize(a - {x}, b - {x});
    }
  }

  lemma CountMonotone<T>(xs: seq<T>, f: T -> bool, g: T -> bool)
    requires forall i :: 0 <= i < |xs| && f(xs[i]) ==> g(xs[i])
    ensures CountOf(xs, f) <= CountOf(xs, g)
  {
    SubsetSize(Where(xs, f), Where(xs, g));
  }

  lemma {:induction false} CountConcat<T>(xs: seq<T>, ys: seq<T>, f: T -> bool)
    ensures CountOf(xs + ys, f) == CountOf(xs, f) + CountOf(ys, f)
  {
    if ys == [] {
      CountNone(ys, f);
      assert xs + ys == xs;
    } else {
      var before, y := ys[..|ys| - 1], ys[|ys| - 1];
      CountConcat(xs, before, f);
      CountAppended(xs + before, y, f);
      CountAppended(before, y, f);
      assert xs + ys == xs + before + [y] && ys == before + [y];
    }
  }

  lemma CountSplit<T>(xs: seq<T>, f: T -> bool, g: T -> bool, h: T -> bool)
    requires forall i :: 0 <= i < |xs| ==> (f(xs[i]) <==> g(xs[i]) || h(xs[i])) && !(g(xs[i]) && h(xs[i]))
    ensures CountOf(xs, f) == CountOf(xs, g) + CountOf(xs, h)
  {
    assert Where(xs, f) == Where(xs, g) + Where(xs, h);
    assert Where(xs, g) !! Where(xs, h);
  }
}
