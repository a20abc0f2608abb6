/** What selecting and counting the elements of a list mean, whatever loop does it. */
module Sequences {

  /** `ys` are the images of kept elements of `xs`, taken from the positions `origin`. */
  predicate Images<A, B(==)>(xs: seq<A>, keep: A -> bool, f: A -> B, ys: seq<B>, origin: seq<nat>) {
    |origin| == |ys| && forall n | 0 <= n < |ys| :: origin[n] < |xs| && keep(xs[origin[n]]) && ys[n] == f(xs[origin[n]])
  }

  predicate Ascending(origin: seq<nat>) {
    forall n, m | 0 <= n < m < |origin| :: origin[n] < origin[m]
  }

  /** No kept element is missing. */
  predicate Covers<A>(xs: seq<A>, keep: A -> bool, origin: seq<nat>) {
    forall i | 0 <= i < |xs| && keep(xs[i]) :: i in origin
  }

  /** `ys` are the images of exactly the kept elements of `xs`, in order. */
  predicate Sifts<A, B(==)>(xs: seq<A>, keep: A -> bool, f: A -> B, ys: seq<B>, origin: seq<nat>) {
    Images(xs, keep, f, ys, origin) && Ascending(origin) && Covers(xs, keep, origin)
  }

  lemma SiftsNone<A, B>(keep: A -> bool, f: A -> B)
    ensures Sifts([], keep, f, [], [])
  {
  }

  lemma {:induction false} SiftsSnoc<A, B>(
      xs: seq<A>, x: A, keep: A -> bool, f: A -> B, ys: seq<B>, origin: seq<nat>) returns (more: seq<nat>)
    requires Sifts(xs, keep, f, ys, origin)
    ensures Sifts(xs + [x], keep, f, if keep(x) then ys + [f(x)] else ys, more)
  {
    more := if keep(x) then origin + [|xs|] else origin;
    forall i | 0 <= i < |xs + [x]| && keep((xs + [x])[i]) ensures i in more {
      if i < |xs| {
        assert i in origin;
      } else {
        assert more[|origin|] == i;
      }
    }
  }

  function Shift(origin: seq<nat>): seq<nat> {
    seq(|origin|, n requires 0 <= n < |origin| => origin[n] + 1)
  }

  lemma {:induction false} CoversCons<A>(x: A, xs: seq<A>, keep: A -> bool, origin: seq<nat>)
    requires Covers(xs, keep, origin)
    ensures Covers([x] + xs, keep, (if keep(x) then [0] else []) + Shift(origin))
  {
    var more := (if keep(x) then [0] else []) + Shift(origin);
    forall i | 0 <= i < |xs| + 1 && keep(([x] + xs)[i]) ensures i in more {
      if i > 0 {
        var n :| 0 <= n < |origin| && origin[n] == i - 1;
        assert Shift(origin)[n] == i;
      }
    }
  }

  lemma {:induction false} SiftsCons<A, B>(
      x: A, xs: seq<A>, keep: A -> bool, f: A -> B, ys: seq<B>, origin: seq<nat>) returns (more: seq<nat>)
    requires Sifts(xs, keep, f, ys, origin)
    ensures Sifts([x] + xs, keep, f, if keep(x) then [f(x)] + ys else ys, more)
  {
    more := (if keep(x) then [0] else []) + Shift(origin);
    CoversCons(x, xs, keep, origin);
    ImagesCons(x, xs, keep, f, ys, origin);
    AscendingCons(origin, keep(x));
    hide Covers, Images, Ascending, Shift;
  }

  lemma AscendingCons(origin: seq<nat>, front: bool)
    requires Ascending(origin)
    ensures Ascending((if front then [0] else []) + Shift(origin))
  {
  }

  lemma {:induction false} ImagesCons<A, B>(
      x: A, xs: seq<A>, keep: A -> bool, f: A -> B, ys: seq<B>, origin: seq<nat>)
    requires Images(xs, keep, f, ys, origin)
    ensures Images([x] + xs, keep, f, if keep(x) then [f(x)] + ys else ys, (if keep(x) then [0] else []) + Shift(origin))
  {
    var all, d := [x] + xs, if keep(x) then 1 else 0;
    var zs, more := if keep(x) then [f(x)] + ys else ys, (if keep(x) then [0] else []) + Shift(origin);
    forall n | 0 <= n < |zs| ensures more[n] < |all| && keep(all[more[n]]) && zs[n] == f(all[more[n]]) {
      if n >= d {
        assert more[n] == origin[n - d] + 1 && all[more[n]] == xs[origin[n - d]];
      }
    }
  }

  /** So the list is determined. */
  lemma {:induction false} SiftsOnce<A, B>(
      xs: seq<A>, keep: A -> bool, f: A -> B, ys: seq<B>, origin: seq<nat>, zs: seq<B>, other: seq<nat>)
    requires Sifts(xs, keep, f, ys, origin) && Sifts(xs, keep, f, zs, other)
    ensures ys == zs
  {
    forall i ensures i in origin <==> i in other {
      if i in origin {
        var n :| 0 <= n < |origin| && origin[n] == i;
      }
      if i in other {
        var n :| 0 <= n < |other| && other[n] == i;
      }
    }
    AscendingOnce(origin, other);
  }

  lemma {:induction false} AscendingOnce(a: seq<nat>, b: seq<nat>)
    requires Ascending(a) && Ascending(b) && forall i :: i in a <==> i in b
    ensures a == b
  {
    if b != [] {
      assert b[0] in b;
    }
    if a != [] {
      assert a[|a| - 1] in b;
      var x, y := a[|a| - 1], b[|b| - 1];
      var a0, b0 := a[..|a| - 1], b[..|b| - 1];
      assert y in a;
      LastIsGreatest(a, y);
      LastIsGreatest(b, x);
      assert x == y;
      forall i ensures i in a0 <==> i in a && i != x {
        InFront(a, i);
      }
      forall i ensures i in b0 <==> i in b && i != x {
        InFront(b, i);
      }
      AscendingOnce(a0, b0);
    }
  }

  lemma InFront(a: seq<nat>, i: nat)
    requires Ascending(a) && a != []
    ensures i in a[..|a| - 1] <==> i in a && i != a[|a| - 1]
  {
    assert a == a[..|a| - 1] + [a[|a| - 1]];
  }

  lemma LastIsGreatest(a: seq<nat>, i: nat)
    requires Ascending(a) && i in a
    ensures i <= a[|a| - 1]
  {
  }

  /** How many elements are of a kind. */
  function Tally<A>(xs: seq<A>, kind: A -> bool): nat {
    if xs == [] then 0 else (if kind(xs[0]) then 1 else 0) + Tally(xs[1..], kind)
  }

  lemma {:induction false} TallyAppend<A>(a: seq<A>, b: seq<A>, kind: A -> bool)
    ensures Tally(a + b, kind) == Tally(a, kind) + Tally(b, kind)
  {
    if a == [] {
      assert a + b == b;
    } else {
      assert (a + b)[1..] == a[1..] + b;
      TallyAppend(a[1..], b, kind);
    }
  }
}
