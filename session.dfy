/** The per-session state of the materials module: the fiber and matrix
    registries and the store of composite definitions, with the three
    forms that change them (add fiber, add matrix, define composite). */
module Session {
  import opened Tables
  import opened Materials
  import opened Fractions
  import opened Mixtures
  import opened MixtureLaws

  /** A stored composite definition: the ply properties and the fraction
      dicts of both namespaces, zero entries included. */
  datatype Composite = Composite(properties: Ply, fiberConstituents: Table<real>, matrixConstituents: Table<real>)

  /** What one rendering of the composite form ends in. */
  datatype Outcome =
    | MissingConstituents   // a registry is empty: the form stops with a warning
    | Unbalanced(total: real) // the fractions do not sum to 1.0: an error, no computation
    | Idle                  // balanced, but the button was not pressed or the name is empty
    | Stored(composite: Composite)

  /** Every fraction lies in the [0, 1] range of the form's inputs. */
  predicate InUnitRange(xs: seq<real>) {
    forall i :: 0 <= i < |xs| ==> 0.0 <= xs[i] <= 1.0
  }

  /** What the form reads: one fraction per registered fiber and per
      registered matrix, in registry order. */
  ghost predicate FormInput(fibers: Table<Constituent>, matrices: Table<Constituent>,
                            fiberVfs: seq<real>, matrixVfs: seq<real>) {
    && fibers.Valid() && matrices.Valid()
    && |fiberVfs| == |fibers.order| && |matrixVfs| == |matrices.order|
    && InUnitRange(fiberVfs) && InUnitRange(matrixVfs)
  }

  /** The constituents the computation visits: every registered fiber,
      in registry order, then every registered matrix, each with the
      fraction read for it (TabulatedShares states the pairing). */
  function Constituents(fibers: Table<Constituent>, matrices: Table<Constituent>,
                        fiberVfs: seq<real>, matrixVfs: seq<real>): seq<Share>
    requires FormInput(fibers, matrices, fiberVfs, matrixVfs)
  {
    TabulatedSelection(fibers, fiberVfs);
    TabulatedSelection(matrices, matrixVfs);
    Shares(fibers, Tabulate(fibers.order, fiberVfs)) + Shares(matrices, Tabulate(matrices.order, matrixVfs))
  }

  /** The composite a balanced form defines. */
  function CompositeOf(fibers: Table<Constituent>, matrices: Table<Constituent>,
                       fiberVfs: seq<real>, matrixVfs: seq<real>): Composite
    requires FormInput(fibers, matrices, fiberVfs, matrixVfs)
    requires FractionsBalanced(Sum(fiberVfs) + Sum(matrixVfs))
  {
    var fiberSel, matrixSel := Tabulate(fibers.order, fiberVfs), Tabulate(matrices.order, matrixVfs);
    TabulatedSelection(fibers, fiberVfs);
    TabulatedSelection(matrices, matrixVfs);
    BalancedSelectionsWellPosed(fibers, matrices, fiberSel, matrixSel);
    Composite(Mix(Constituents(fibers, matrices, fiberVfs, matrixVfs)), fiberSel, matrixSel)
  }

  /** The composite form as a whole, from the registries, the name, the
      fractions and whether the button was pressed. */
  function Submit(fibers: Table<Constituent>, matrices: Table<Constituent>, name: Name,
                  fiberVfs: seq<real>, matrixVfs: seq<real>, pressed: bool): Outcome
    requires FormInput(fibers, matrices, fiberVfs, matrixVfs)
  {
    if fibers.order == [] || matrices.order == [] then MissingConstituents
    else if !FractionsBalanced(Sum(fiberVfs) + Sum(matrixVfs)) then Unbalanced(Sum(fiberVfs) + Sum(matrixVfs))
    else if !pressed || name == "" then Idle
    else Stored(CompositeOf(fibers, matrices, fiberVfs, matrixVfs))
  }

  /** A composite is stored exactly when both registries are non-empty,
      the fractions balance, the button is pressed and a name is given. */
  lemma StoredExactly(fibers: Table<Constituent>, matrices: Table<Constituent>, name: Name,
                      fiberVfs: seq<real>, matrixVfs: seq<real>, pressed: bool)
    requires FormInput(fibers, matrices, fiberVfs, matrixVfs)
    ensures Submit(fibers, matrices, name, fiberVfs, matrixVfs, pressed).Stored? <==>
      && fibers.entries != map[] && matrices.entries != map[]
      && 0.98999 <= Sum(fiberVfs) + Sum(matrixVfs) <= 1.01001
      && pressed && name != ""
    ensures Submit(fibers, matrices, name, fiberVfs, matrixVfs, pressed).MissingConstituents? <==>
      fibers.entries == map[] || matrices.entries == map[]
  {
    EmptyRegistry(fibers);
    EmptyRegistry(matrices);
  }

  lemma EmptyRegistry(t: Table<Constituent>)
    requires t.Valid()
    ensures t.order == [] <==> t.entries == map[]
  {
    if t.order != [] {
      ElementsAt(t.order, 0);
    }
  }

  /** An unbalanced form reports its combined total, which lies outside
      the accepted band; in particular a form whose fractions are all
      zero is rejected here. */
  lemma UnbalancedReportsTotal(fibers: Table<Constituent>, matrices: Table<Constituent>, name: Name,
                               fiberVfs: seq<real>, matrixVfs: seq<real>, pressed: bool)
    requires FormInput(fibers, matrices, fiberVfs, matrixVfs)
    requires fibers.order != [] && matrices.order != []
    ensures Sum(fiberVfs) + Sum(matrixVfs) == 0.0 ==>
      Submit(fibers, matrices, name, fiberVfs, matrixVfs, pressed) == Unbalanced(0.0)
    ensures Submit(fibers, matrices, name, fiberVfs, matrixVfs, pressed).Unbalanced? ==>
      var total := Submit(fibers, matrices, name, fiberVfs, matrixVfs, pressed).total;
      total == Sum(fiberVfs) + Sum(matrixVfs) && (total < 0.98999 || total > 1.01001)
  {
  }

  /** A stored composite keeps, keyed by name and in registry order, the
      fraction read for every registered fiber and matrix. */
  lemma StoredSelections(fibers: Table<Constituent>, matrices: Table<Constituent>,
                         fiberVfs: seq<real>, matrixVfs: seq<real>)
    requires FormInput(fibers, matrices, fiberVfs, matrixVfs)
    requires FractionsBalanced(Sum(fiberVfs) + Sum(matrixVfs))
    ensures var c := CompositeOf(fibers, matrices, fiberVfs, matrixVfs);
      && c.fiberConstituents.Valid() && c.fiberConstituents.order == fibers.order
      && c.fiberConstituents.entries.Keys == fibers.entries.Keys
      && (forall i :: 0 <= i < |fiberVfs| ==> c.fiberConstituents.entries[fibers.order[i]] == fiberVfs[i])
      && c.matrixConstituents.Valid() && c.matrixConstituents.order == matrices.order
      && c.matrixConstituents.entries.Keys == matrices.entries.Keys
      && (forall i :: 0 <= i < |matrixVfs| ==> c.matrixConstituents.entries[matrices.order[i]] == matrixVfs[i])
  {
  }

  /** The ply of a stored composite is the rule of mixtures over the
      form's constituents, a well-posed mixture whose fraction total is the
      combined total the balance check accepted; so its moduli and density
      are positive and its Poisson's ratios non-negative. */
  lemma StoredProperties(fibers: Table<Constituent>, matrices: Table<Constituent>,
                         fiberVfs: seq<real>, matrixVfs: seq<real>)
    requires FormInput(fibers, matrices, fiberVfs, matrixVfs)
    requires FractionsBalanced(Sum(fiberVfs) + Sum(matrixVfs))
    ensures WellPosed(Constituents(fibers, matrices, fiberVfs, matrixVfs))
    ensures Total(Constituents(fibers, matrices, fiberVfs, matrixVfs)) == Sum(fiberVfs) + Sum(matrixVfs)
    ensures CompositeOf(fibers, matrices, fiberVfs, matrixVfs).properties
            == Mix(Constituents(fibers, matrices, fiberVfs, matrixVfs))
    ensures var p := CompositeOf(fibers, matrices, fiberVfs, matrixVfs).properties;
      && p.E1 > 0.0 && p.E2 > 0.0 && p.G12 > 0.0 && p.density > 0.0
      && p.nu12 >= 0.0 && p.nu21 >= 0.0
  {
    var fiberSel, matrixSel := Tabulate(fibers.order, fiberVfs), Tabulate(matrices.order, matrixVfs);
    TabulatedSelection(fibers, fiberVfs);
    TabulatedSelection(matrices, matrixVfs);
    BalancedSelectionsWellPosed(fibers, matrices, fiberSel, matrixSel);
    var ss := Shares(fibers, fiberSel) + Shares(matrices, matrixSel);
    assert Constituents(fibers, matrices, fiberVfs, matrixVfs) == ss;
    var p := CompositeOf(fibers, matrices, fiberVfs, matrixVfs).properties;
    assert p == Mix(ss);
  }

  /** The stored ply obeys the laws of the rule of mixtures: the minor
      Poisson's ratio is reciprocal, and E2 scaled by the square of the
      checked total never exceeds E1. */
  lemma StoredLaws(fibers: Table<Constituent>, matrices: Table<Constituent>,
                   fiberVfs: seq<real>, matrixVfs: seq<real>)
    requires FormInput(fibers, matrices, fiberVfs, matrixVfs)
    requires FractionsBalanced(Sum(fiberVfs) + Sum(matrixVfs))
    ensures ObeysLaws(CompositeOf(fibers, matrices, fiberVfs, matrixVfs).properties, Sum(fiberVfs) + Sum(matrixVfs))
  {
    StoredProperties(fibers, matrices, fiberVfs, matrixVfs);
    var p := CompositeOf(fibers, matrices, fiberVfs, matrixVfs).properties;
    var ss := Constituents(fibers, matrices, fiberVfs, matrixVfs);
    PlyLaws(p, ss, Sum(fiberVfs) + Sum(matrixVfs));
  }

  /** The computation branch of the composite form, over the selection
      dicts the collection loops built. */
  method Compute(fibers: Table<Constituent>, matrices: Table<Constituent>,
                 fiberSel: Table<real>, matrixSel: Table<real>,
                 ghost fiberVfs: seq<real>, ghost matrixVfs: seq<real>) returns (composite: Composite)
    requires FormInput(fibers, matrices, fiberVfs, matrixVfs)
    requires FractionsBalanced(Sum(fiberVfs) + Sum(matrixVfs))
    requires fiberSel == Tabulate(fibers.order, fiberVfs) && matrixSel == Tabulate(matrices.order, matrixVfs)
    ensures composite == CompositeOf(fibers, matrices, fiberVfs, matrixVfs)
  {
    TabulatedSelection(fibers, fiberVfs);
    TabulatedSelection(matrices, matrixVfs);
    var ply := Homogenize(fibers, matrices, fiberSel, matrixSel);
    composite := Composite(ply, fiberSel, matrixSel);
  }

  /** The composite form up to the store write: stop if a registry is
      empty, otherwise collect both namespaces' fractions and decide. */
  method Evaluate(fibers: Table<Constituent>, matrices: Table<Constituent>, name: Name,
                  fiberVfs: seq<real>, matrixVfs: seq<real>, pressed: bool) returns (outcome: Outcome)
    requires FormInput(fibers, matrices, fiberVfs, matrixVfs)
    ensures outcome == Submit(fibers, matrices, name, fiberVfs, matrixVfs, pressed)
  {
    if fibers.order == [] || matrices.order == [] {
      return MissingConstituents;
    }
    var fiberSel, fiberTotal := CollectFractions(fibers, fiberVfs);
    var matrixSel, matrixTotal := CollectFractions(matrices, matrixVfs);
    outcome := Decide(fibers, matrices, name, fiberSel, matrixSel, fiberTotal + matrixTotal, pressed,
                      fiberVfs, matrixVfs);
  }

  /** The rest of the form once the fractions are collected: check the
      balance of the combined total, and compute the ply only when the
      button is pressed with a name. */
  method Decide(fibers: Table<Constituent>, matrices: Table<Constituent>, name: Name,
                fiberSel: Table<real>, matrixSel: Table<real>, total: real, pressed: bool,
                ghost fiberVfs: seq<real>, ghost matrixVfs: seq<real>) returns (outcome: Outcome)
    requires FormInput(fibers, matrices, fiberVfs, matrixVfs)
    requires fibers.order != [] && matrices.order != []
    requires fiberSel == Tabulate(fibers.order, fiberVfs) && matrixSel == Tabulate(matrices.order, matrixVfs)
    requires total == Sum(fiberVfs) + Sum(matrixVfs)
    ensures outcome == Submit(fibers, matrices, name, fiberVfs, matrixVfs, pressed)
  {
    if !FractionsBalanced(total) {
      return Unbalanced(total);
    }
    if !pressed || name == "" {
      return Idle;
    }
    var composite := Compute(fibers, matrices, fiberSel, matrixSel, fiberVfs, matrixVfs);
    SubmitStores(fibers, matrices, name, fiberVfs, matrixVfs, pressed);
    outcome := Stored(composite);
  }

  lemma SubmitStores(fibers: Table<Constituent>, matrices: Table<Constituent>, name: Name,
                     fiberVfs: seq<real>, matrixVfs: seq<real>, pressed: bool)
    requires FormInput(fibers, matrices, fiberVfs, matrixVfs)
    requires fibers.order != [] && matrices.order != []
    requires FractionsBalanced(Sum(fiberVfs) + Sum(matrixVfs)) && pressed && name != ""
    ensures Submit(fibers, matrices, name, fiberVfs, matrixVfs, pressed)
            == Stored(CompositeOf(fibers, matrices, fiberVfs, matrixVfs))
  {
  }

  const Carbon := Constituent(230.0, 0.2, 90.0, 1.8)
  const Epoxy := Constituent(3.5, 0.35, 1.3, 1.2)

  /** The worked example through the whole form: Carbon registered as the
      only fiber, Epoxy as the only matrix, fractions 0.6 and 0.4, button
      pressed under the name "Carbon/Epoxy". */
  lemma CarbonEpoxyForm(fibers: Table<Constituent>, matrices: Table<Constituent>)
    requires fibers == Register(Empty(), "Carbon", Carbon) && matrices == Register(Empty(), "Epoxy", Epoxy)
    ensures FormInput(fibers, matrices, [0.6], [0.4])
    ensures Submit(fibers, matrices, "Carbon/Epoxy", [0.6], [0.4], true)
            == Stored(Composite(Ply(139.4, 8050.0 / 941.0, 1950.0 / 613.0, 0.26,
                                    0.26 * (8050.0 / 941.0) / 139.4, 1.56),
                                Tabulate(["Carbon"], [0.6]), Tabulate(["Epoxy"], [0.4])))
  {
    assert fibers.order == ["Carbon"] && matrices.order == ["Epoxy"];
    assert Sum([0.6]) == 0.6 && Sum([0.4]) == 0.4 by {
      assert [0.6][..0] == [] && [0.4][..0] == [];
    }
    assert FormInput(fibers, matrices, [0.6], [0.4]);
    SubmitStores(fibers, matrices, "Carbon/Epoxy", [0.6], [0.4], true);
    StoredProperties(fibers, matrices, [0.6], [0.4]);
    SingletonShares(fibers, "Carbon", Carbon, 0.6);
    SingletonShares(matrices, "Epoxy", Epoxy, 0.4);
    assert Constituents(fibers, matrices, [0.6], [0.4]) == [Share(Carbon, 0.6), Share(Epoxy, 0.4)];
    CarbonEpoxy();
  }

  /** A registry holding one record, read at fraction v, contributes the
      single share of that record. */
  lemma SingletonShares(registry: Table<Constituent>, name: Name, c: Constituent, v: real)
    requires name != "" && registry == Register(Empty(), name, c) && 0.0 <= v <= 1.0
    ensures registry.order == [name]
    ensures Selection(registry, Tabulate([name], [v]))
    ensures Shares(registry, Tabulate([name], [v])) == [Share(c, v)]
  {
    TabulatedShares(registry, [v]);
  }

  /** The same registries with the matrix fraction lowered to 0.3 fail the
      balance check with total 0.9; with the name left empty the balanced
      form computes nothing. */
  lemma CarbonEpoxyRejected(fibers: Table<Constituent>, matrices: Table<Constituent>)
    requires fibers == Register(Empty(), "Carbon", Carbon) && matrices == Register(Empty(), "Epoxy", Epoxy)
    ensures FormInput(fibers, matrices, [0.6], [0.3]) && FormInput(fibers, matrices, [0.6], [0.4])
    ensures Submit(fibers, matrices, "Carbon/Epoxy", [0.6], [0.3], true) == Unbalanced(0.9)
    ensures Submit(fibers, matrices, "", [0.6], [0.4], true) == Idle
  {
    assert fibers.order == ["Carbon"] && matrices.order == ["Epoxy"];
    assert Sum([0.6]) == 0.6 && Sum([0.4]) == 0.4 && Sum([0.3]) == 0.3 by {
      assert [0.6][..0] == [] && [0.4][..0] == [] && [0.3][..0] == [];
    }
  }

  /** The session state: the two constituent registries (`materials_db`)
      and the composite definitions store. */
  class Store {
    var fibers: Table<Constituent>
    var matrices: Table<Constituent>
    var definitions: Table<Composite>

    ghost predicate Valid()
      reads this
    {
      fibers.Valid() && matrices.Valid() && definitions.Valid()
    }

    /** A new session starts with empty registries and no definitions. */
    constructor()
      ensures Valid()
      ensures fibers == Empty() && matrices == Empty() && definitions == Empty()
    {
      fibers, matrices, definitions := Empty(), Empty(), Empty();
    }

    /** The Add Fiber button: a named record is inserted or overwritten in
        the fiber registry; an empty name is refused and changes nothing. */
    method AddFiber(name: Name, c: Constituent) returns (added: bool)
      requires Valid()
      modifies this
      ensures Valid()
      ensures added == (name != "")
      ensures fibers == Register(old(fibers), name, c)
      ensures matrices == old(matrices) && definitions == old(definitions)
    {
      added := name != "";
      if added {
        fibers := Put(fibers, name, c);
      }
    }

    /** The Add Matrix button, the same over the matrix registry. */
    method AddMatrix(name: Name, c: Constituent) returns (added: bool)
      requires Valid()
      modifies this
      ensures Valid()
      ensures added == (name != "")
      ensures matrices == Register(old(matrices), name, c)
      ensures fibers == old(fibers) && definitions == old(definitions)
    {
      added := name != "";
      if added {
        matrices := Put(matrices, name, c);
      }
    }

    /** The composite form: evaluate it against the registries and, when
        it ends in a computed composite, write the definition under the
        form's name, replacing any earlier one. */
    method DefineComposite(name: Name, fiberVfs: seq<real>, matrixVfs: seq<real>, pressed: bool)
      returns (outcome: Outcome)
      requires Valid() && FormInput(fibers, matrices, fiberVfs, matrixVfs)
      modifies this
      ensures Valid()
      ensures outcome == Submit(old(fibers), old(matrices), name, fiberVfs, matrixVfs, pressed)
      ensures fibers == old(fibers) && matrices == old(matrices)
      ensures outcome.Stored? ==> definitions == Put(old(definitions), name, outcome.composite)
      ensures !outcome.Stored? ==> definitions == old(definitions)
    {
      outcome := Evaluate(fibers, matrices, name, fiberVfs, matrixVfs, pressed);
      if outcome.Stored? {
        definitions := Put(definitions, name, outcome.composite);
      }
    }
  }
}
