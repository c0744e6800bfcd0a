/** Constituent records of the materials database: one record per fiber or
    matrix, with the four properties the entry form collects. */
module Materials {
  import opened Tables

  /** The entry form's number inputs carry these bounds, so every record
      that reaches the database satisfies them: moduli and density at least
      0.1, Poisson's ratio between 0 and 0.5. */
  type Modulus = x: real | x >= 0.1 witness 0.1
  type Ratio = x: real | 0.0 <= x <= 0.5 witness 0.0
  type MassDensity = x: real | x >= 0.1 witness 0.1

  /** Young's modulus E and shear modulus G in GPa, Poisson's ratio nu,
      density in g/cm^3. */
  datatype Constituent = Constituent(E: Modulus, nu: Ratio, G: Modulus, density: MassDensity)

  /** Adding a record through the form: a non-empty name is inserted or
      overwritten; an empty name leaves the namespace as it was. */
  function Register(t: Table<Constituent>, name: Name, c: Constituent): (r: Table<Constituent>)
    requires t.Valid()
    ensures r.Valid()
    ensures name == "" ==> r == t
    ensures name != "" ==> name in r.entries && r.entries[name] == c
    ensures forall k :: k != name ==> (k in r.entries <==> k in t.entries)
    ensures forall k :: k != name && k in t.entries ==> r.entries[k] == t.entries[k]
  {
    if name != "" then Put(t, name, c) else t
  }
}
