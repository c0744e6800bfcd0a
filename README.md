# Composite material engine

A Dafny model of the engine inside the Streamlit "Advanced Composite
Material Analysis Tool" (`streamlit_app.py`), with proofs about it. The
engine is the "Material Properties" module. It has three parts:

- **Constituent registries.** The session's `materials_db` holds two
  insertion-ordered dicts, `fibers` and `matrices`. Each maps a name to a
  record `{E, nu, G, density}`. The Add Fiber and Add Matrix buttons insert
  or overwrite the record under a non-empty name and refuse an empty one.
- **Fraction collection and balance check.** The composite form reads one
  volume fraction per registered fiber and per registered matrix, in
  registry order. It records each fraction in a selection dict, zeros
  included, and adds it to a running total. The combined total must pass
  `np.isclose(total, 1.0, atol=0.01)`. The form stops early, with a
  warning, when either registry is empty.
- **Rule of mixtures and the definitions store.** When the button is
  pressed, the check passed and a composite name is given, the form runs
  two accumulation loops, fibers first and then matrices:
  - E1, nu12 and density are fraction-weighted (Voigt) sums.
  - E2 and G12 are reciprocals of fraction-weighted compliance (Reuss) sums.
  - nu21 = nu12 · E2 / E1.

  The six values are then written to `composite_definitions` under the
  name, together with both selection dicts, replacing any earlier entry.

Modules, in dependency order:

- `Tables` (`tables.dfy`): the insertion-ordered dict, a key order plus a
  map. An overwrite keeps a key's position; an insert appends it.
- `Materials` (`materials.dfy`): constituent records. The entry widgets'
  bounds are subset types: moduli and density at least 0.1, Poisson's ratio
  in [0, 0.5].
- `Fractions` (`fractions.dfy`): the collection loop `CollectFractions`,
  proved against the specification function `Tabulate`, and the `isclose`
  balance check.
- `Mixtures` (`mixtures.dfy`): the rule of mixtures as a specification
  function `Mix` over a sequence of (constituent, fraction) shares. The
  accumulation loops `Accumulate` and `Homogenize` are proved equal to it.
- `MixtureLaws` (`laws.dfy`): properties of `Mix`:
  - a lone constituent gives back its own properties;
  - the order of the two namespaces does not matter;
  - Voigt–Reuss bound: E2 ≤ E1 when the fractions sum to 1;
  - the Carbon/Epoxy worked example.
- `Session` (`session.dfy`): the class `Store` holding the two registries
  and the definitions store, with one method per button. `Submit` is the
  specification function of the composite form. `Evaluate`, `Decide` and
  `Compute` are the imperative form, proved equal to `Submit`, and the
  lemmas state what `Submit` guarantees.

Widget reads become parameters:

- text inputs → a `Name`;
- number inputs → a `Constituent` or a sequence of fractions aligned with
  the registry order;
- the Calculate Composite Properties button → the `bool` `pressed`;
- the Add Fiber and Add Matrix buttons → calls to `Store.AddFiber` and `Store.AddMatrix`.

Quantities are mathematical reals.

## Model

| member | source | states |
|---|---|---|
| Tables.Put | streamlit_app.py:79-84 | writing `d[k] = v` leaves `k` mapped to exactly `v`, every other key present or absent as before with its old value, keeps the key order when `k` was present and appends `k` otherwise; the dict stays well formed (distinct keys, order listing exactly the keys) |
| Tables.OverwriteDiscardsEarlier | streamlit_app.py:216-225 | writing a key twice gives the same dict as the last write alone: nothing of an earlier definition under that name survives |
| Materials.Register | streamlit_app.py:77-87 | adding a record under a non-empty name maps that name to exactly the given record; every other name keeps its membership and its record; an empty name leaves the registry unchanged |
| Session.Store.constructor | streamlit_app.py:45-53 | a new session starts with empty fiber and matrix registries and an empty definitions store |
| Session.Store.AddFiber | streamlit_app.py:77-87 | the Add Fiber button reports success exactly for a non-empty name, registers the record in the fiber registry as `Register` states, and leaves the matrix registry and the definitions unchanged |
| Session.Store.AddMatrix | streamlit_app.py:109-119 | the Add Matrix button, the same over the matrix registry, leaving the fibers and the definitions unchanged |
| Fractions.Tabulate | streamlit_app.py:140-153 | the selection dict has exactly the registry's key order and maps the i-th registered name to the i-th fraction read |
| Fractions.CollectFractions | streamlit_app.py:139-175 | the collection loop builds exactly `Tabulate` of the fractions, whose keys are exactly the registry's (zero fractions kept), and returns a total equal to the sum of the fractions read and to the sum of the selection's values |
| Fractions.SumBounds | streamlit_app.py:145-154 | fractions from the [0, 1] inputs give a namespace total between 0 and the number of registered constituents |
| Fractions.FractionsBalanced | streamlit_app.py:181 | the balance check accepts a combined total exactly when it lies in [0.98999, 1.01001], i.e. `abs(total - 1) <= 0.01 + 1e-5` |
| Fractions.ToleranceBoundary | streamlit_app.py:181 | totals 0.99, 0.991, 1.009 and 1.01 are accepted; 0.98 and 1.02 are rejected |
| Mixtures.Add | streamlit_app.py:196-200 | the loop body for one constituent (the same five updates at lines 205-209); `Mixtures.StepSums` proves that applying it to the accumulators over the shares before share i gives the accumulators over the shares up to and including i |
| Mixtures.StepSums | streamlit_app.py:196-200 | the accumulators over the shares up to and including share i are one application of the loop body to the accumulators over the shares before it |
| Mixtures.MixtureSign | streamlit_app.py:187-209 | with non-negative fractions every accumulator is non-negative, and all but the Poisson sum are positive once the fraction total is positive |
| Mixtures.SumsSign | streamlit_app.py:196-213 | for a well-posed mixture E1 and both Reuss denominators are positive, so the divisions at lines 211-213 are defined, and nu12 and density are non-negative and positive |
| Mixtures.Finish | streamlit_app.py:211-213 | the closing step, defined only when E1 and both denominators are positive (`SumsSign` shows a well-posed mixture meets that); `Reciprocity` and `MixtureLaws.ReussBelowVoigt` prove what the ply it builds satisfies |
| Mixtures.Mix | streamlit_app.py:187-213 | the rule of mixtures over a well-posed mixture gives positive E1, E2, G12 and density and non-negative nu12 and nu21 |
| Mixtures.Reciprocity | streamlit_app.py:213 | the computed nu21 satisfies nu21 · E1 = nu12 · E2 exactly |
| Mixtures.SumsAppend | streamlit_app.py:193-209 | accumulating over fibers and then matrices gives the fiber accumulators plus the matrix accumulators |
| Mixtures.TabulatedShares | streamlit_app.py:143-195 | the shares of a collected selection pair each registered record, in registry order, with the fraction read for it; every selected name is registered |
| Mixtures.BalancedSelectionsWellPosed | streamlit_app.py:181-185 | selections that pass the balance check form a mixture with non-negative fractions and a positive total equal to the checked total |
| Mixtures.Accumulate | streamlit_app.py:194-200 | one accumulation loop adds every selected constituent's contributions to E1, the E2 and G12 denominators, nu12 and density to the starting accumulators |
| Mixtures.Homogenize | streamlit_app.py:187-213 | the two loops from zero and the closing divisions compute exactly `Mix` over the fibers followed by the matrices, and that mixture is well posed |
| MixtureLaws.SingleConstituent | streamlit_app.py:194-213 | one constituent at fraction 1 and all others at 0 give E1 = E2 = E, G12 = G, nu12 = nu21 = nu and the constituent's density |
| MixtureLaws.GroupOrderIrrelevant | streamlit_app.py:193-209 | visiting the matrices before the fibers gives the same ply |
| MixtureLaws.VoigtReussProduct | streamlit_app.py:196-197 | the E1 sum times the E2 denominator is at least the square of the fraction total |
| MixtureLaws.ReussBelowVoigt | streamlit_app.py:196-211 | E2 · total² ≤ E1, so E2 ≤ E1 when the fractions sum to exactly 1 |
| MixtureLaws.PlyLaws | streamlit_app.py:211-213 | a ply that is the mixture of given shares obeys reciprocity and the Voigt–Reuss bound for their fraction total (`ObeysLaws`) |
| MixtureLaws.CarbonEpoxy | streamlit_app.py:187-213 | Carbon (230, 0.2, 90, 1.8) at 0.6 with Epoxy (3.5, 0.35, 1.3, 1.2) at 0.4 gives E1 = 139.4, E2 = 8050/941, G12 = 1950/613, nu12 = 0.26, density = 1.56 |
| Session.CompositeOf | streamlit_app.py:216-225 | the record a balanced form writes: `StoredSelections` proves its selection dicts hold every registered name with the fraction read for it; `StoredProperties` and `StoredLaws` prove its ply is the well-posed mixture of the form's constituents, with positive moduli and density, reciprocal Poisson's ratios and the Voigt–Reuss bound |
| Session.Submit | streamlit_app.py:131-185 | the composite form's outcome, decided in the source's order: a missing registry, then an unbalanced total, then an unpressed button or an empty name, and only then a stored composite; `StoredExactly`, `UnbalancedReportsTotal` and `SubmitStores` prove what each outcome requires |
| Session.EmptyRegistry | streamlit_app.py:131 | a registry has no keys exactly when its key order is empty |
| Session.StoredExactly | streamlit_app.py:131-185 | the form stores a composite if and only if both registries are non-empty, the total lies in the accepted band, the button is pressed and the name is non-empty; it stops with the missing-constituents warning if and only if a registry is empty |
| Session.UnbalancedReportsTotal | streamlit_app.py:180-183 | an unbalanced form reports the combined total, which lies outside the band; all-zero fractions are rejected with total 0 |
| Session.SubmitStores | streamlit_app.py:185 | non-empty registries, an accepted total, a pressed button and a name lead to the stored composite |
| Session.StoredSelections | streamlit_app.py:216-225 | a stored composite's fiber and matrix dicts have exactly the registries' names, in registry order, each mapped to the fraction read for it |
| Session.StoredProperties | streamlit_app.py:185-225 | a stored composite's ply is `Mix` over the registered fibers then matrices with their fractions; that mixture is well posed, its total equals the checked total, and its moduli and density are positive and its Poisson's ratios non-negative |
| Session.StoredLaws | streamlit_app.py:211-225 | the stored ply satisfies nu21 · E1 = nu12 · E2 and E2 · total² ≤ E1 for the checked total (`MixtureLaws.ObeysLaws`) |
| Session.Compute | streamlit_app.py:185-225 | the computation branch returns exactly the composite record the form defines |
| Session.Decide | streamlit_app.py:179-225 | after collection, the balance check, the button and name test, and the computation give exactly the form's outcome |
| Session.Evaluate | streamlit_app.py:128-185 | the empty-registry stop, both collection loops and the rest of the form give exactly the outcome `Submit` specifies |
| Session.Store.DefineComposite | streamlit_app.py:128-225 | the form's outcome is `Submit` over the current registries; the registries are unchanged; a stored composite is written with `Put` under the name, replacing any earlier definition and leaving the others alone; otherwise the store is unchanged |
| Session.CarbonEpoxyForm | streamlit_app.py:128-225 | registering Carbon and Epoxy and submitting fractions 0.6 and 0.4 under "Carbon/Epoxy" stores the ply of `CarbonEpoxy` with selections {Carbon: 0.6} and {Epoxy: 0.4} |
| Session.CarbonEpoxyRejected | streamlit_app.py:179-185 | the same registries with fractions 0.6 and 0.3 are rejected with total 0.9; with an empty name the balanced form computes nothing |

## Left out

- Streamlit rendering is not modelled: page setup, CSS, sidebar, tabs, columns, and the success/warning/error/info messages. The only trace of a message is which `Outcome` or `added` flag the model returns.
- The pandas tables, the `.2f`/`.4f` formatting, the pie charts and their positive-only filters, and the "Defined Composites" listing (lines 89-94, 121-126, 227-269) are display only.
- `laminate_layers` is never used. The Single Ply, Laminate and Failure Prediction modes are stubs that only print a note (lines 55-56, 271-283). Neither is modelled.
- Widget defaults are not modelled (230.0, 0.2, ... for the records; 0.6 and 0.4 for the first fraction of each namespace). Every read is a parameter, so a default is just one possible argument.
- Widget bounds are not checked at run time. They are subset types (`Modulus`, `Ratio`, `MassDensity`) and the `FormInput` requirement (fractions in [0, 1], one per registered constituent), because the widgets cannot produce anything else.
- The widget key clash is not modelled. A fiber and a matrix with the same name share the key `vf_{name}`, and Streamlit rejects the second widget. The model gives each namespace its own fraction.
- Streamlit's rerun cycle is reduced to calls on one `Store` object: the script re-executes on every interaction, and reruns within one session run in sequence. Concurrent sessions are separate `Store` objects.
- IEEE-754 floating point is left out. Quantities are reals: the sums, the divisions and `np.isclose` are exact, so rounding in the last digits of the results and of the balance test is not modelled.
- Some error kinds are not modelled because the code has no code path for them:
  - a selection naming an unregistered constituent cannot happen, because selections are built from the registry's own keys;
  - a zero fraction total is already rejected by the balance check.
- MixtureLaws.CarbonEpoxy: the figures are the exact values of the code's formulas, E1 = 139.4, E2 = 8050/941 ≈ 8.55 and G12 = 1950/613 ≈ 3.18. Figures for the same inputs computed any other way (for instance E2 ≈ 8.97) are not what the application computes.
