/** Volume-fraction selection and validation: one fraction per registered
    constituent, accumulated into a per-namespace total, and the check that
    the fiber and matrix totals together make up the whole composite. */
module Fractions {
  import opened Tables

  /** Left-to-right accumulation `total += v`, starting from 0.0. */
  function Sum(xs: seq<real>): real {
    if xs == [] then 0.0 else Sum(xs[..|xs| - 1]) + xs[|xs| - 1]
  }

  /** Sums split at any point: the total of a concatenation is the sum of
      the partial totals. */
  lemma {:induction false} SumAppend(xs: seq<real>, ys: seq<real>)
    ensures Sum(xs + ys) == Sum(xs) + Sum(ys)
    decreases |ys|
  {
    if ys == [] {
      assert xs + ys == xs;
    } else {
      var n := |ys| - 1;
      assert (xs + ys)[..|xs + ys| - 1] == xs + ys[..n];
      SumAppend(xs, ys[..n]);
    }
  }

  /** Fractions taken from the form's [0, 1] inputs keep the total between
      0 and the number of inputs. */
  lemma {:induction false} SumBounds(xs: seq<real>)
    requires forall i :: 0 <= i < |xs| ==> 0.0 <= xs[i] <= 1.0
    ensures 0.0 <= Sum(xs) <= |xs| as real
  {
    if xs != [] {
      SumBounds(xs[..|xs| - 1]);
    }
  }

  /** A name listed once is not among the names before it. */
  lemma FreshKey(order: seq<Name>, i: nat)
    requires Distinct(order) && i < |order|
    ensures Distinct(order[..i]) && order[i] !in Elements(order[..i])
  {
    ElementsListed(order[..i], order[i]);
  }

  /** The selection dict built by writing `selections[order[i]] = vfs[i]`
      for each i in turn. */
  function Tabulate(order: seq<Name>, vfs: seq<real>): (sel: Table<real>)
    requires Distinct(order) && |vfs| == |order|
    ensures sel.Valid() && sel.order == order
    ensures forall i :: 0 <= i < |order| ==> order[i] in sel.entries && sel.entries[order[i]] == vfs[i]
    decreases |order|
  {
    if order == [] then Empty()
    else
      var n := |order| - 1;
      FreshKey(order, n);
      Put(Tabulate(order[..n], vfs[..n]), order[n], vfs[n])
  }

  /** Writing the next fraction extends the selection built from a prefix. */
  lemma TabulateStep(order: seq<Name>, vfs: seq<real>, i: nat)
    requires Distinct(order) && |vfs| == |order| && i < |order|
    ensures Distinct(order[..i]) && Distinct(order[..i + 1])
    ensures Tabulate(order[..i], vfs[..i]).Valid()
    ensures Tabulate(order[..i + 1], vfs[..i + 1]) == Put(Tabulate(order[..i], vfs[..i]), order[i], vfs[i])
  {
    assert order[..i + 1][..i] == order[..i];
    assert vfs[..i + 1][..i] == vfs[..i];
  }

  /** The values of the selection, in order, are the fractions it was built from. */
  lemma TabulatedValues(order: seq<Name>, vfs: seq<real>)
    requires Distinct(order) && |vfs| == |order|
    ensures Values(Tabulate(order, vfs)) == vfs
  {
  }

  /** The collection loop for one namespace: for each registered name, in
      registry order, the fraction read for it is recorded under that name
      and added to the running total. Zero fractions are kept. */
  method CollectFractions<V>(registry: Table<V>, vfs: seq<real>) returns (sel: Table<real>, total: real)
    requires registry.Valid() && |vfs| == |registry.order|
    ensures sel == Tabulate(registry.order, vfs)
    ensures sel.entries.Keys == registry.entries.Keys
    ensures total == Sum(vfs) && total == Sum(Values(sel))
  {
    sel, total := Empty(), 0.0;
    for i := 0 to |registry.order|
      invariant Distinct(registry.order[..i])
      invariant sel == Tabulate(registry.order[..i], vfs[..i])
      invariant total == Sum(vfs[..i])
    {
      assert vfs[..i + 1][..i] == vfs[..i];
      TabulateStep(registry.order, vfs, i);
      sel := Put(sel, registry.order[i], vfs[i]);
      total := total + vfs[i];
    }
    assert registry.order[..|registry.order|] == registry.order;
    assert vfs[..|vfs|] == vfs;
    TabulatedValues(registry.order, vfs);
  }

  /** numpy.isclose(a, b, rtol, atol): |a - b| <= atol + rtol * |b|. */
  function IsClose(a: real, b: real, rtol: real, atol: real): bool {
    Abs(a - b) <= atol + rtol * Abs(b)
  }

  function Abs(x: real): real {
    if x < 0.0 then -x else x
  }

  /** numpy's default relative tolerance, in force since the call only
      overrides the absolute one. */
  const DefaultRtol: real := 0.00001
  const BalanceAtol: real := 0.01

  /** The balance check of the composite form: the combined total must be
      close to 1.0 with absolute tolerance 0.01 (and the default relative
      tolerance on top). */
  function FractionsBalanced(total: real): (ok: bool)
    ensures ok <==> 0.98999 <= total <= 1.01001
  {
    IsClose(total, 1.0, DefaultRtol, BalanceAtol)
  }

  /** Totals just inside the 0.01 band pass, totals one hundredth outside
      it fail. */
  lemma ToleranceBoundary()
    ensures FractionsBalanced(0.991) && FractionsBalanced(1.009)
    ensures FractionsBalanced(1.01) && FractionsBalanced(0.99)
    ensures !FractionsBalanced(0.98) && !FractionsBalanced(1.02)
  {
  }
}
