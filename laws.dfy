/** Properties of the rule of mixtures promised by its design: a lone
    constituent homogenises to itself, the order in which the two
    namespaces are visited does not matter, the transverse (Reuss) modulus
    never exceeds the longitudinal (Voigt) one for a whole composite, and
    the Carbon/Epoxy worked example. */
module MixtureLaws {
  import opened Materials
  import opened Mixtures

  /** Shares whose fractions are all zero contribute nothing. */
  lemma {:induction false} ZeroShares(ss: seq<Share>, r: Rule)
    requires forall i :: 0 <= i < |ss| ==> ss[i].v == 0.0
    ensures Mixture(ss, r) == 0.0
  {
    if ss != [] {
      var n := |ss| - 1;
      ZeroShares(ss[..n], r);
      assert Term(ss[n], r) == 0.0;
    }
  }

  /** When only share `k` has a non-zero fraction, every accumulator is
      that share's own term. */
  lemma {:induction false} LoneShare(ss: seq<Share>, k: nat, r: Rule)
    requires k < |ss|
    requires forall i :: 0 <= i < |ss| && i != k ==> ss[i].v == 0.0
    ensures Mixture(ss, r) == Term(ss[k], r)
  {
    var n := |ss| - 1;
    if k == n {
      ZeroShares(ss[..n], r);
    } else {
      LoneShare(ss[..n], k, r);
      assert Term(ss[n], r) == 0.0;
    }
  }

  /** One constituent at fraction 1.0, every other at 0.0: the ply has
      the constituent's own moduli, Poisson's ratio and density. */
  lemma SingleConstituent(ss: seq<Share>, k: nat)
    requires k < |ss| && ss[k].v == 1.0
    requires forall i :: 0 <= i < |ss| && i != k ==> ss[i].v == 0.0
    ensures WellPosed(ss)
    ensures Mix(ss) == Ply(ss[k].c.E, ss[k].c.E, ss[k].c.G, ss[k].c.nu, ss[k].c.nu, ss[k].c.density)
  {
    var c := ss[k].c;
    LoneShare(ss, k, Fraction);
    LoneShare(ss, k, VoigtE);
    LoneShare(ss, k, ReussE);
    LoneShare(ss, k, ReussG);
    LoneShare(ss, k, VoigtNu);
    LoneShare(ss, k, VoigtRho);
    assert SumsOver(ss) == Sums(c.E, 1.0 / c.E, 1.0 / c.G, c.nu, c.density);
    FinishLone(c);
  }

  /** The closing step undoes the reciprocals of a lone constituent. */
  lemma FinishLone(c: Constituent)
    ensures Finish(Sums(c.E, 1.0 / c.E, 1.0 / c.G, c.nu, c.density)) == Ply(c.E, c.E, c.G, c.nu, c.nu, c.density)
  {
    assert 1.0 / (1.0 / c.E) == c.E;
    assert 1.0 / (1.0 / c.G) == c.G;
    assert c.nu * c.E / c.E == c.nu;
  }

  /** Visiting the matrices before the fibers gives the same ply. */
  lemma GroupOrderIrrelevant(a: seq<Share>, b: seq<Share>)
    requires WellPosed(a + b)
    ensures WellPosed(b + a)
    ensures Mix(a + b) == Mix(b + a)
  {
    AdmittedSplit(a, b);
    AdmittedSplit(b, a);
    MixtureAppend(a, b, Fraction);
    MixtureAppend(b, a, Fraction);
    SumsAppend(a, b);
    SumsAppend(b, a);
  }

  /** For non-negative x, y: x >= 2y as soon as x * x >= 4 * y * y. */
  lemma RootBound(x: real, y: real)
    requires x >= 0.0 && y >= 0.0 && x * x >= 4.0 * y * y
    ensures x >= 2.0 * y
  {
    var d := x + 2.0 * y;
    if d > 0.0 {
      assert (x - 2.0 * y) * d == x * x - 4.0 * y * y;
      assert x - 2.0 * y == (x * x - 4.0 * y * y) / d;
    }
  }

  /** The step of the Voigt-Reuss inequality: adding a share with
      fraction v keeps Voigt * Reuss at least the squared total. */
  lemma VoigtReussStep(voigt: real, reuss: real, total: real, e: real, v: real)
    requires voigt >= 0.0 && reuss >= 0.0 && total >= 0.0 && e >= 0.1 && v >= 0.0
    requires voigt * reuss >= total * total
    ensures (voigt + e * v) * (reuss + v / e) >= (total + v) * (total + v)
  {
    var x := voigt / e + e * reuss;
    assert x * x == (voigt / e - e * reuss) * (voigt / e - e * reuss) + 4.0 * voigt * reuss;
    assert x * x >= 4.0 * total * total;
    RootBound(x, total);
    assert v * x >= 2.0 * total * v;
    assert (voigt + e * v) * (reuss + v / e) == voigt * reuss + v * x + v * v;
  }

  /** The Voigt sum of the moduli times the Reuss sum of the compliances
      is at least the squared fraction total (Cauchy-Schwarz). */
  lemma {:induction false} VoigtReussProduct(ss: seq<Share>)
    requires Admitted(ss)
    ensures Mixture(ss, VoigtE) * Mixture(ss, ReussE) >= Total(ss) * Total(ss)
  {
    if ss != [] {
      var n := |ss| - 1;
      assert Admitted(ss[..n]) by {
        forall i | 0 <= i < n ensures ss[..n][i].v >= 0.0 {
          assert ss[..n][i] == ss[i];
        }
      }
      VoigtReussProduct(ss[..n]);
      MixtureSign(ss[..n], VoigtE);
      MixtureSign(ss[..n], ReussE);
      MixtureSign(ss[..n], Fraction);
      assert ss[n].v >= 0.0;
      VoigtReussStep(Mixture(ss[..n], VoigtE), Mixture(ss[..n], ReussE), Total(ss[..n]),
                     ss[n].c.E, ss[n].v);
    }
  }

  /** The transverse modulus is bounded by the longitudinal one, scaled by
      the squared fraction total; for fractions summing to exactly 1,
      E2 <= E1. */
  lemma ReussBelowVoigt(ss: seq<Share>)
    requires WellPosed(ss)
    ensures Mix(ss).E2 * Total(ss) * Total(ss) <= Mix(ss).E1
    ensures Total(ss) == 1.0 ==> Mix(ss).E2 <= Mix(ss).E1
  {
    VoigtReussProduct(ss);
    MixtureSign(ss, ReussE);
    var reuss := Mixture(ss, ReussE);
    var t2 := Total(ss) * Total(ss);
    assert Mix(ss).E2 == 1.0 / reuss;
    assert Mix(ss).E2 * t2 == t2 / reuss;
    assert t2 / reuss <= Mixture(ss, VoigtE);
  }

  /** Reciprocity of the Poisson's ratios and the Voigt-Reuss bound for a
      ply over fractions totalling `total`. */
  predicate ObeysLaws(ply: Ply, total: real) {
    && ply.nu21 * ply.E1 == ply.nu12 * ply.E2
    && ply.E2 * total * total <= ply.E1
  }

  /** The two laws above for a ply known to be the mixture of `ss`, with
      its fraction total. */
  lemma PlyLaws(ply: Ply, ss: seq<Share>, total: real)
    requires WellPosed(ss) && ply == Mix(ss) && total == Total(ss)
    ensures ObeysLaws(ply, total)
  {
    Reciprocity(ss);
    ReussBelowVoigt(ss);
  }

  /** Carbon (E = 230, nu = 0.2, G = 90, density = 1.8) at 0.6 with Epoxy
      (E = 3.5, nu = 0.35, G = 1.3, density = 1.2) at 0.4. */
  lemma CarbonEpoxy()
    ensures
      var ss := [Share(Constituent(230.0, 0.2, 90.0, 1.8), 0.6),
                 Share(Constituent(3.5, 0.35, 1.3, 1.2), 0.4)];
      && WellPosed(ss)
      && Mix(ss) == Ply(139.4, 8050.0 / 941.0, 1950.0 / 613.0, 0.26,
                        0.26 * (8050.0 / 941.0) / 139.4, 1.56)
  {
    var carbon, epoxy := Share(Constituent(230.0, 0.2, 90.0, 1.8), 0.6),
                         Share(Constituent(3.5, 0.35, 1.3, 1.2), 0.4);
    var ss := [carbon, epoxy];
    Pair(carbon, epoxy, Fraction);
    Pair(carbon, epoxy, VoigtE);
    Pair(carbon, epoxy, ReussE);
    Pair(carbon, epoxy, ReussG);
    Pair(carbon, epoxy, VoigtNu);
    Pair(carbon, epoxy, VoigtRho);
    assert Total(ss) == 1.0;
  }

  /** A two-share mixture is the sum of the two terms. */
  lemma Pair(a: Share, b: Share, r: Rule)
    ensures Mixture([a, b], r) == Term(a, r) + Term(b, r)
  {
    assert [a][..0] == [];
    assert Mixture([a], r) == Term(a, r);
    assert [a, b][..1] == [a];
  }
}
