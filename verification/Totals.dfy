/** Sums over all farmers. */
module Totals {
  import opened Settlement

  function Total(fs: seq<Position>, f: Position -> real): real {
    if fs == [] then 0.0 else f(fs[0]) + Total(fs[1..], f)
  }

  lemma {:induction false} TotalConcat(fs: seq<Position>, gs: seq<Position>, f: Position -> real)
    ensures Total(fs + gs, f) == Total(fs, f) + Total(gs, f)
  {
    if fs == [] {
      assert fs + gs == gs;
    } else {
      assert (fs + gs)[1..] == fs[1..] + gs;
      TotalConcat(fs[1..], gs, f);
    }
  }

  lemma TotalOne(p: Position, f: Position -> real)
    ensures Total([p], f) == f(p)
  {
    assert Total([p][1..], f) == 0.0;
  }

  /** Taking farmer `i` out of the sum. */
  lemma TotalAround(fs: seq<Position>, i: nat, f: Position -> real)
    requires i < |fs|
    ensures Total(fs, f) == Total(fs[..i] + fs[i + 1..], f) + f(fs[i])
  {
    assert fs == fs[..i] + ([fs[i]] + fs[i + 1..]);
    TotalConcat(fs[..i], [fs[i]] + fs[i + 1..], f);
    TotalConcat([fs[i]], fs[i + 1..], f);
    TotalOne(fs[i], f);
    TotalConcat(fs[..i], fs[i + 1..], f);
  }

  lemma TotalReplace(fs: seq<Position>, i: nat, q: Position, f: Position -> real)
    requires i < |fs|
    ensures Total(fs[i := q], f) == Total(fs, f) - f(fs[i]) + f(q)
  {
    var gs := fs[i := q];
    TotalAround(fs, i, f);
    TotalAround(gs, i, f);
    assert gs[..i] + gs[i + 1..] == fs[..i] + fs[i + 1..];
  }

  lemma {:induction false} TotalMono(fs: seq<Position>, f: Position -> real, g: Position -> real)
    requires forall p :: p in fs ==> f(p) <= g(p)
    ensures Total(fs, f) <= Total(fs, g)
  {
    if fs != [] {
      assert fs[0] in fs;
      TotalMono(fs[1..], f, g);
    }
  }

  lemma {:induction false} TotalSum(fs: seq<Position>, f: Position -> real, g: Position -> real, h: Position -> real)
    requires forall p :: p in fs ==> h(p) == f(p) + g(p)
    ensures Total(fs, h) == Total(fs, f) + Total(fs, g)
  {
    if fs != [] {
      assert fs[0] in fs;
      TotalSum(fs[1..], f, g, h);
    }
  }

  function Times(k: real, x: real): real {
    k * x
  }

  lemma {:induction false} TotalScale(fs: seq<Position>, f: Position -> real, k: real, g: Position -> real)
    requires forall p :: p in fs ==> g(p) == Times(k, f(p))
    ensures Total(fs, g) == Times(k, Total(fs, f))
  {
    if fs != [] {
      assert fs[0] in fs;
      TotalScale(fs[1..], f, k, g);
      assert k * (f(fs[0]) + Total(fs[1..], f)) == k * f(fs[0]) + k * Total(fs[1..], f);
    }
  }

  /** Of non-negative terms, each is at most the sum. */
  lemma {:induction false} TotalBoundsEach(fs: seq<Position>, i: nat, f: Position -> real)
    requires i < |fs| && forall p :: p in fs ==> 0.0 <= f(p)
    ensures 0.0 <= f(fs[i]) <= Total(fs, f)
  {
    assert fs[0] in fs;
    TotalNonNegative(fs[1..], f);
    if i > 0 {
      TotalBoundsEach(fs[1..], i - 1, f);
    }
  }

  lemma {:induction false} TotalNonNegative(fs: seq<Position>, f: Position -> real)
    requires forall p :: p in fs ==> 0.0 <= f(p)
    ensures 0.0 <= Total(fs, f)
  {
    if fs != [] {
      assert fs[0] in fs;
      TotalNonNegative(fs[1..], f);
    }
  }
}
