/**
 * The fixed palette of wire types (connecting-wires/app.js, `wireTypes`).
 * A socket's identity is its colour: that is the attribute the game compares.
 */
module Catalog {

  datatype WireType = WireType(color: string, symbol: string)

  /** The eight catalog entries, in the order the source lists them. */
  const WireTypes: seq<WireType> := [
    WireType("#ff0000", "\U{25A0}"),
    WireType("#1111ff", "\U{25B2}"),
    WireType("#ffe100", "\U{2605}"),
    WireType("#ff00ff", "\U{25CF}"),
    WireType("#00ff00", "\U{2666}"),
    WireType("#ff6600", "\U{271A}"),
    WireType("#00ffff", "\U{25BC}"),
    WireType("#ffffff", "\U{2660}")
  ]

  /** No two entries of `ws` share a colour. */
  predicate ColorsDistinct(ws: seq<WireType>) {
    forall i, j :: 0 <= i < j < |ws| ==> ws[i].color != ws[j].color
  }

  /** The catalog has eight entries with pairwise distinct colours. */
  lemma CatalogColorsDistinct()
    ensures |WireTypes| == 8
    ensures ColorsDistinct(WireTypes)
  {
  }

  /** Within the catalog, the colour alone identifies the entry. */
  lemma ColorIdentifiesEntry(a: WireType, b: WireType)
    requires a in WireTypes && b in WireTypes
    ensures a.color == b.color <==> a == b
  {
    CatalogColorsDistinct();
    var i :| 0 <= i < |WireTypes| && WireTypes[i] == a;
    var j :| 0 <= j < |WireTypes| && WireTypes[j] == b;
    if i < j {
      assert WireTypes[i].color != WireTypes[j].color;
    } else if j < i {
      assert WireTypes[j].color != WireTypes[i].color;
    }
  }
}
