/** Generalised rule-of-mixtures homogenisation: every selected fiber and
    matrix is a constituent with a volume fraction; E1, nu12 and density are
    fraction-weighted (Voigt) sums, E2 and G12 reciprocals of
    fraction-weighted compliance (Reuss) sums, and nu21 follows from
    reciprocity. */
module Mixtures {
  import opened Tables
  import opened Materials
  import opened Fractions

  /** One constituent of the mixture with its volume fraction. */
  datatype Share = Share(c: Constituent, v: real)

  /** What one constituent adds to an accumulator, as the loops write it:
      `E * vf`, `vf / E`, `vf / G`, `nu * vf`, `density * vf`, and `vf` for
      the plain fraction total. */
  datatype Rule = VoigtE | ReussE | ReussG | VoigtNu | VoigtRho | Fraction

  function Term(s: Share, r: Rule): real {
    match r
    case VoigtE => s.c.E * s.v
    case ReussE => s.v / s.c.E
    case ReussG => s.v / s.c.G
    case VoigtNu => s.c.nu * s.v
    case VoigtRho => s.c.density * s.v
    case Fraction => s.v
  }

  /** The accumulator after visiting `ss` left to right from 0.0. */
  function Mixture(ss: seq<Share>, r: Rule): real {
    if ss == [] then 0.0 else Mixture(ss[..|ss| - 1], r) + Term(ss[|ss| - 1], r)
  }

  function Total(ss: seq<Share>): real {
    Mixture(ss, Fraction)
  }

  /** No fraction is negative (the form's inputs start at 0). */
  predicate Admitted(ss: seq<Share>) {
    forall i :: 0 <= i < |ss| ==> ss[i].v >= 0.0
  }

  /** Non-negative fractions with a positive total: the only inputs the
      composite form hands to the computation. */
  predicate WellPosed(ss: seq<Share>) {
    Admitted(ss) && Total(ss) > 0.0
  }

  /** With non-negative fractions every accumulator is non-negative, and
      all but the Poisson sum (a ratio may be 0) are positive once some
      fraction is. This keeps the divisions by the Reuss sums and by E1
      away from zero. */
  lemma {:induction false} MixtureSign(ss: seq<Share>, r: Rule)
    requires Admitted(ss)
    ensures Mixture(ss, r) >= 0.0
    ensures r != VoigtNu && Total(ss) > 0.0 ==> Mixture(ss, r) > 0.0
  {
    if ss != [] {
      var n := |ss| - 1;
      var s := ss[n];
      assert Admitted(ss[..n]) by {
        forall i | 0 <= i < n ensures ss[..n][i].v >= 0.0 {
          assert ss[..n][i] == ss[i];
        }
      }
      MixtureSign(ss[..n], r);
      MixtureSign(ss[..n], Fraction);
      assert s.v >= 0.0;
      TermSign(s, r);
    }
  }

  lemma TermSign(s: Share, r: Rule)
    requires s.v >= 0.0
    ensures Term(s, r) >= 0.0
    ensures r != VoigtNu && s.v > 0.0 ==> Term(s, r) > 0.0
  {
    match r
    case VoigtE => assert s.c.E * s.v >= 0.0;
    case ReussE => assert s.v / s.c.E >= 0.0;
    case ReussG => assert s.v / s.c.G >= 0.0;
    case VoigtNu => assert s.c.nu * s.v >= 0.0;
    case VoigtRho => assert s.c.density * s.v >= 0.0;
    case Fraction =>
  }

  /** An accumulator over a concatenation is the sum of the accumulators
      over the parts: the fiber loop followed by the matrix loop computes
      the fiber sum plus the matrix sum. */
  lemma {:induction false} MixtureAppend(a: seq<Share>, b: seq<Share>, r: Rule)
    ensures Mixture(a + b, r) == Mixture(a, r) + Mixture(b, r)
    decreases |b|
  {
    if b == [] {
      assert a + b == a;
    } else {
      var n := |b| - 1;
      assert (a + b)[..|a + b| - 1] == a + b[..n];
      MixtureAppend(a, b[..n], r);
    }
  }

  /** The total of the shares is the plain sum of their fractions. */
  lemma {:induction false} TotalIsSum(ss: seq<Share>, xs: seq<real>)
    requires |ss| == |xs| && forall i :: 0 <= i < |ss| ==> ss[i].v == xs[i]
    ensures Total(ss) == Sum(xs)
  {
    if ss != [] {
      var n := |ss| - 1;
      TotalIsSum(ss[..n], xs[..n]);
    }
  }

  lemma AdmittedSplit(a: seq<Share>, b: seq<Share>)
    ensures Admitted(a + b) <==> Admitted(a) && Admitted(b)
  {
    if Admitted(a + b) {
      forall i | 0 <= i < |a| ensures a[i].v >= 0.0 { assert (a + b)[i] == a[i]; }
      forall i | 0 <= i < |b| ensures b[i].v >= 0.0 { assert (a + b)[|a| + i] == b[i]; }
    }
  }

  // ---------------------------------------------------------------------
  // The ply properties

  /** The six homogenised ply properties. */
  datatype Ply = Ply(E1: real, E2: real, G12: real, nu12: real, nu21: real, density: real)

  /** The five accumulators of the computation: E1, the E2 and G12
      denominators, nu12 and density. */
  datatype Sums = Sums(e1: real, e2Denominator: real, g12Denominator: real, nu12: real, density: real)

  /** The accumulators after visiting `ss`. */
  function SumsOver(ss: seq<Share>): Sums {
    Sums(Mixture(ss, VoigtE), Mixture(ss, ReussE), Mixture(ss, ReussG),
         Mixture(ss, VoigtNu), Mixture(ss, VoigtRho))
  }

  /** The loop body for one constituent `c` at fraction `v`:
      `E1 += E * vf`, `E2_denominator += vf / E`, `G12_denominator += vf / G`,
      `nu12 += nu * vf`, `density += density * vf`. */
  function Add(a: Sums, c: Constituent, v: real): Sums {
    Sums(a.e1 + c.E * v, a.e2Denominator + v / c.E, a.g12Denominator + v / c.G,
         a.nu12 + c.nu * v, a.density + c.density * v)
  }

  function Join(a: Sums, b: Sums): Sums {
    Sums(a.e1 + b.e1, a.e2Denominator + b.e2Denominator, a.g12Denominator + b.g12Denominator,
         a.nu12 + b.nu12, a.density + b.density)
  }

  /** The closing step of the computation: E2 and G12 are the reciprocals
      of their denominators, nu21 = nu12 * E2 / E1. */
  function Finish(sums: Sums): Ply
    requires sums.e1 > 0.0 && sums.e2Denominator > 0.0 && sums.g12Denominator > 0.0
  {
    Ply(sums.e1, 1.0 / sums.e2Denominator, 1.0 / sums.g12Denominator, sums.nu12,
        sums.nu12 * (1.0 / sums.e2Denominator) / sums.e1, sums.density)
  }

  /** A well-posed mixture keeps every accumulator the closing step
      divides by away from zero. */
  lemma SumsSign(ss: seq<Share>)
    requires WellPosed(ss)
    ensures SumsOver(ss).e1 > 0.0 && SumsOver(ss).e2Denominator > 0.0 && SumsOver(ss).g12Denominator > 0.0
    ensures SumsOver(ss).nu12 >= 0.0 && SumsOver(ss).density > 0.0
  {
    MixtureSign(ss, VoigtE);
    MixtureSign(ss, ReussE);
    MixtureSign(ss, ReussG);
    MixtureSign(ss, VoigtNu);
    MixtureSign(ss, VoigtRho);
  }

  /** The rule of mixtures over the given shares. */
  function Mix(ss: seq<Share>): (ply: Ply)
    requires WellPosed(ss)
    ensures ply.E1 > 0.0 && ply.E2 > 0.0 && ply.G12 > 0.0 && ply.density > 0.0
    ensures ply.nu12 >= 0.0 && ply.nu21 >= 0.0
  {
    SumsSign(ss);
    Finish(SumsOver(ss))
  }

  /** The minor Poisson's ratio satisfies the reciprocal relation
      nu21 * E1 == nu12 * E2 of an orthotropic ply. */
  lemma Reciprocity(ss: seq<Share>)
    requires WellPosed(ss)
    ensures Mix(ss).nu21 * Mix(ss).E1 == Mix(ss).nu12 * Mix(ss).E2
  {
    var ply := Mix(ss);
    assert ply.nu21 == ply.nu12 * ply.E2 / ply.E1;
  }

  /** The accumulators over a concatenation are the accumulators over the
      parts, added: the fiber loop followed by the matrix loop computes the
      fiber sums plus the matrix sums. */
  lemma SumsAppend(a: seq<Share>, b: seq<Share>)
    ensures SumsOver(a + b) == Join(SumsOver(a), SumsOver(b))
  {
    MixtureAppend(a, b, VoigtE);
    MixtureAppend(a, b, ReussE);
    MixtureAppend(a, b, ReussG);
    MixtureAppend(a, b, VoigtNu);
    MixtureAppend(a, b, VoigtRho);
  }

  // ---------------------------------------------------------------------
  // Selections drawn from the registry

  /** A selection dict for one namespace: every name it holds is registered
      and every fraction lies in the [0, 1] range of the form's inputs. */
  ghost predicate Selection(registry: Table<Constituent>, sel: Table<real>) {
    && sel.Valid()
    && sel.entries.Keys <= registry.entries.Keys
    && forall k :: k in sel.entries ==> 0.0 <= sel.entries[k] <= 1.0
  }

  /** The registered constituents of a selection, in selection order, with
      their fractions. */
  function Shares(registry: Table<Constituent>, sel: Table<real>): (ss: seq<Share>)
    requires sel.Valid() && sel.entries.Keys <= registry.entries.Keys
    ensures |ss| == |sel.order|
    ensures forall i :: 0 <= i < |ss| ==> sel.order[i] in registry.entries
  {
    var vs := Values(sel);
    seq(|sel.order|, i requires 0 <= i < |sel.order| => Share(registry.entries[sel.order[i]], vs[i]))
  }

  /** A selection's fractions are non-negative and its total is the sum of
      the selection's values. */
  lemma SelectionShares(registry: Table<Constituent>, sel: Table<real>)
    requires Selection(registry, sel)
    ensures Admitted(Shares(registry, sel))
    ensures Total(Shares(registry, sel)) == Sum(Values(sel))
  {
    var ss, vs := Shares(registry, sel), Values(sel);
    forall i | 0 <= i < |ss| ensures ss[i].v >= 0.0 {
      assert sel.order[i] in sel.entries;
    }
    TotalIsSum(ss, vs);
  }

  /** The selection dict the collection loop builds from in-range
      fractions is a selection of that registry, and its values are the
      fractions. */
  lemma TabulatedSelection(registry: Table<Constituent>, vfs: seq<real>)
    requires registry.Valid() && |vfs| == |registry.order|
    requires forall i :: 0 <= i < |vfs| ==> 0.0 <= vfs[i] <= 1.0
    ensures Selection(registry, Tabulate(registry.order, vfs))
    ensures Values(Tabulate(registry.order, vfs)) == vfs
  {
    var sel := Tabulate(registry.order, vfs);
    TabulatedValues(registry.order, vfs);
    forall k | k in sel.entries ensures 0.0 <= sel.entries[k] <= 1.0 {
      ElementsListed(sel.order, k);
      var i :| 0 <= i < |sel.order| && sel.order[i] == k;
    }
  }

  /** The shares of a tabulated selection pair each registered record,
      in registry order, with the fraction read for it. */
  lemma TabulatedShares(registry: Table<Constituent>, vfs: seq<real>)
    requires registry.Valid() && |vfs| == |registry.order|
    requires forall i :: 0 <= i < |vfs| ==> 0.0 <= vfs[i] <= 1.0
    ensures Selection(registry, Tabulate(registry.order, vfs))
    ensures |Shares(registry, Tabulate(registry.order, vfs))| == |registry.order|
    ensures forall i :: 0 <= i < |registry.order| ==>
      registry.order[i] in registry.entries
      && Shares(registry, Tabulate(registry.order, vfs))[i] == Share(registry.entries[registry.order[i]], vfs[i])
  {
    TabulatedSelection(registry, vfs);
  }

  /** Fiber and matrix selections that pass the balance check make a
      well-posed mixture: the check keeps the total away from 0. */
  lemma BalancedSelectionsWellPosed(fibers: Table<Constituent>, matrices: Table<Constituent>,
                                    fiberSel: Table<real>, matrixSel: Table<real>)
    requires Selection(fibers, fiberSel) && Selection(matrices, matrixSel)
    requires FractionsBalanced(Sum(Values(fiberSel)) + Sum(Values(matrixSel)))
    ensures WellPosed(Shares(fibers, fiberSel) + Shares(matrices, matrixSel))
    ensures Total(Shares(fibers, fiberSel) + Shares(matrices, matrixSel))
            == Sum(Values(fiberSel)) + Sum(Values(matrixSel))
  {
    var fs, ms := Shares(fibers, fiberSel), Shares(matrices, matrixSel);
    SelectionShares(fibers, fiberSel);
    SelectionShares(matrices, matrixSel);
    AdmittedSplit(fs, ms);
    MixtureAppend(fs, ms, Fraction);
  }

  // ---------------------------------------------------------------------
  // The computation loops

  /** One accumulation loop of the composite form: for each selected name,
      in selection order, the constituent's contributions to E1, the E2 and
      G12 denominators, nu12 and density are added to the accumulators,
      which start at `start`. */
  method Accumulate(registry: Table<Constituent>, sel: Table<real>, start: Sums) returns (sums: Sums)
    requires Selection(registry, sel)
    ensures sums == Join(start, SumsOver(Shares(registry, sel)))
  {
    ghost var ss := Shares(registry, sel);
    var vfs := Values(sel);
    sums := start;
    for i := 0 to |sel.order|
      invariant sums == Join(start, SumsOver(ss[..i]))
    {
      var c := registry.entries[sel.order[i]];
      var vf := vfs[i];
      Advance(ss, i, c, vf, start);
      sums := Add(sums, c, vf);
    }
    assert ss[..|ss|] == ss;
  }

  /** Adding share `i`'s contributions advances the accumulators by one. */
  lemma Advance(ss: seq<Share>, i: nat, c: Constituent, v: real, base: Sums)
    requires i < |ss| && ss[i] == Share(c, v)
    ensures Join(base, SumsOver(ss[..i + 1])) == Add(Join(base, SumsOver(ss[..i])), c, v)
  {
    StepSums(ss, i);
  }

  /** The accumulators over one more share are the loop body applied to
      the accumulators over the shares before it. */
  lemma StepSums(ss: seq<Share>, i: nat)
    requires i < |ss|
    ensures SumsOver(ss[..i + 1]) == Add(SumsOver(ss[..i]), ss[i].c, ss[i].v)
  {
    var prefix := ss[..i + 1];
    assert prefix[..i] == ss[..i];
    assert prefix[i] == ss[i];
  }

  /** The computation of the composite form: the accumulators start at zero,
      take the fiber contributions, then the matrix contributions; then the
      closing step. The result is the rule of mixtures over all selected
      constituents, fibers first. */
  method Homogenize(fibers: Table<Constituent>, matrices: Table<Constituent>,
                    fiberSel: Table<real>, matrixSel: Table<real>) returns (ply: Ply)
    requires Selection(fibers, fiberSel) && Selection(matrices, matrixSel)
    requires FractionsBalanced(Sum(Values(fiberSel)) + Sum(Values(matrixSel)))
    ensures WellPosed(Shares(fibers, fiberSel) + Shares(matrices, matrixSel))
    ensures ply == Mix(Shares(fibers, fiberSel) + Shares(matrices, matrixSel))
  {
    ghost var fs, ms := Shares(fibers, fiberSel), Shares(matrices, matrixSel);
    BalancedSelectionsWellPosed(fibers, matrices, fiberSel, matrixSel);
    var sums := Accumulate(fibers, fiberSel, Sums(0.0, 0.0, 0.0, 0.0, 0.0));
    sums := Accumulate(matrices, matrixSel, sums);
    FibersThenMatrices(fs, ms);
    SumsSign(fs + ms);
    ply := Finish(sums);
  }

  /** The accumulators after the fiber loop from zero and then the matrix
      loop are those of the mixture of fibers followed by matrices. */
  lemma FibersThenMatrices(fs: seq<Share>, ms: seq<Share>)
    ensures Join(Join(Sums(0.0, 0.0, 0.0, 0.0, 0.0), SumsOver(fs)), SumsOver(ms)) == SumsOver(fs + ms)
  {
    SumsAppend(fs, ms);
  }
}
