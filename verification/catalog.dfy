/** The fixed category catalog (`CATEGORIAS`): an insertion-ordered map from
    category key to the emoji-prefixed label shown on buttons and replies. */
module Catalog {
  import opened Wrappers

  /** The catalog entries as (key, label) pairs, in the dictionary's insertion order. */
  const Entries: seq<(string, string)> := [
    ("alimentacion", "🥦 Alimentación"),
    ("vivienda", "🏠 Vivienda"),
    ("transporte", "🚗 Transporte"),
    ("salud", "🏥 Salud"),
    ("entretenimiento", "🎮 Entretenimiento"),
    ("ropa", "👕 Ropa"),
    ("otros", "📝 Otros")
  ]

  /** `CATEGORIAS.keys()`, in order. */
  function Keys(): (keys: seq<string>)
    ensures |keys| == |Entries|
    ensures forall i | 0 <= i < |Entries| :: keys[i] == Entries[i].0
  {
    seq(|Entries|, i requires 0 <= i < |Entries| => Entries[i].0)
  }

  /** The label of an entry of an association list with the given key; the
      catalog's keys are distinct, so for it there is at most one such entry. */
  function Lookup(entries: seq<(string, string)>, key: string): (r: Option<string>)
    ensures r.None? <==> forall i | 0 <= i < |entries| :: entries[i].0 != key
    ensures r.Some? ==> (key, r.value) in entries
  {
    if |entries| == 0 then None
    else if entries[0].0 == key then Some(entries[0].1)
    else
      var r := Lookup(entries[1..], key);
      assert forall i | 1 <= i < |entries| :: entries[i] == entries[1..][i - 1];
      r
  }

  /** `CATEGORIAS[key]`: the label, or nothing where Python raises `KeyError`. */
  function LabelOf(key: string): (r: Option<string>)
    ensures r.Some? <==> key in Keys()
    ensures r.Some? ==> (key, r.value) in Entries
  {
    Lookup(Entries, key)
  }

  /** The catalog has seven distinct keys, none containing `_`, each with a non-empty label. */
  lemma CatalogShape()
    ensures |Keys()| == 7
    ensures forall i, j | 0 <= i < j < |Keys()| :: Keys()[i] != Keys()[j]
    ensures forall i | 0 <= i < |Keys()| :: '_' !in Keys()[i]
    ensures forall i | 0 <= i < |Entries| :: |Entries[i].1| > 0
  {
  }

  /** Looking a listed key up returns the label stored beside it. */
  lemma LabelOfEntry(i: nat)
    requires i < |Entries|
    ensures LabelOf(Entries[i].0) == Some(Entries[i].1)
  {
    CatalogShape();
    var k := Entries[i].0;
    var l := LabelOf(k).value;
    var j :| 0 <= j < |Entries| && Entries[j] == (k, l);
    assert Keys()[j] == Keys()[i];
  }
}
