/** Insertion-ordered dictionaries keyed by name, as the application's
    registries and stores use them: a key keeps the position of its first
    insertion, and writing an existing key replaces its value in place. */
module Tables {

  type Name = string

  /** No element of `s` occurs twice. */
  predicate Distinct(s: seq<Name>) {
    forall i, j :: 0 <= i < j < |s| ==> s[i] != s[j]
  }

  /** The names listed in `s`. */
  function Elements(s: seq<Name>): set<Name> {
    if s == [] then {} else Elements(s[..|s| - 1]) + {s[|s| - 1]}
  }

  lemma {:induction false} ElementsListed(s: seq<Name>, k: Name)
    ensures k in Elements(s) <==> exists i :: 0 <= i < |s| && s[i] == k
  {
    if s != [] {
      var n := |s| - 1;
      ElementsListed(s[..n], k);
      if k in Elements(s[..n]) {
        var i :| 0 <= i < n && s[..n][i] == k;
        assert s[i] == k;
      } else if k != s[n] {
        forall i | 0 <= i < |s| ensures s[i] != k {
          if i < n { assert s[..n][i] == s[i]; }
        }
      }
    }
  }

  lemma ElementsAt(s: seq<Name>, i: nat)
    requires i < |s|
    ensures s[i] in Elements(s)
  {
    ElementsListed(s, s[i]);
  }

  /** `order` lists the keys of `entries`, each once, oldest first. */
  datatype Table<V> = Table(order: seq<Name>, entries: map<Name, V>) {
    ghost predicate Valid() {
      Distinct(order) && entries.Keys == Elements(order)
    }
  }

  function Empty<V>(): (t: Table<V>)
    ensures t.Valid() && t.order == [] && t.entries == map[]
  {
    Table([], map[])
  }

  /** `t[k] = v`: insert or overwrite, leave every other key alone, and keep
      the position of a key that is already there. */
  function Put<V>(t: Table<V>, k: Name, v: V): (r: Table<V>)
    requires t.Valid()
    ensures r.Valid()
    ensures k in r.entries && r.entries[k] == v
    ensures forall j :: j != k ==> (j in r.entries <==> j in t.entries)
    ensures forall j :: j != k && j in t.entries ==> r.entries[j] == t.entries[j]
    ensures k in t.entries ==> r.order == t.order
    ensures k !in t.entries ==> r.order == t.order + [k]
  {
    if k in t.entries then Table(t.order, t.entries[k := v])
    else
      var order := t.order + [k];
      assert order[..|order| - 1] == t.order;
      assert forall i :: 0 <= i < |t.order| ==> t.order[i] != k by {
        forall i | 0 <= i < |t.order| ensures t.order[i] != k {
          ElementsAt(t.order, i);
        }
      }
      Table(order, t.entries[k := v])
  }

  /** The last write to a key wins: nothing of the earlier value survives. */
  lemma OverwriteDiscardsEarlier<V>(t: Table<V>, k: Name, v0: V, v1: V)
    requires t.Valid()
    ensures Put(Put(t, k, v0), k, v1) == Put(t, k, v1)
  {
    var once, twice := Put(t, k, v1), Put(Put(t, k, v0), k, v1);
    assert twice.entries == once.entries;
  }

  /** The values of a table in key order. */
  function Values<V>(t: Table<V>): (vs: seq<V>)
    requires t.Valid()
    ensures |vs| == |t.order|
    ensures forall i :: 0 <= i < |vs| ==> t.order[i] in t.entries && vs[i] == t.entries[t.order[i]]
  {
    assert forall i :: 0 <= i < |t.order| ==> t.order[i] in t.entries by {
      forall i | 0 <= i < |t.order| ensures t.order[i] in t.entries {
        ElementsAt(t.order, i);
      }
    }
    seq(|t.order|, i requires 0 <= i < |t.order| => t.entries[t.order[i]])
  }
}
