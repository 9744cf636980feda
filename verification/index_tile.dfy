/** One gallery tile of the place pages of bingo/generate_indexes.py, and how its fields can
    be read back. */
module IndexTile {
  import opened Text

  /** One gallery tile: a link to the image, the image itself and a caption, all naming `rel`. The
      double quotes around attribute values are written as `Quote`. */
  function Tile(rel: string): string {
    "<div class=" + Quote + "tile" + Quote + "><a href=" + Quote + rel + Quote + " target=" + Quote + "_blank"
      + Quote + "><img src=" + Quote + rel + Quote + " alt=" + Quote + rel + Quote + "></a><div class=" + Quote
      + "cap" + Quote + ">" + rel + "</div></div>"
  }

  /** The pieces of a tile between its double quotes: piece 3 is the link target, piece 7 the
      image source, piece 9 the alternative text, and the last piece carries the caption. */
  function TilePieces(rel: string): seq<string> {
    ["<div class=", "tile", "><a href=", rel, " target=", "_blank", "><img src=", rel, " alt=", rel,
     "></a><div class=", "cap", ">" + rel + "</div></div>"]
  }

  /** Cutting a tile at its double quotes gives its pieces back, so every field of the tile
      names `rel`, provided `rel` holds no double quote. */
  lemma TileFields(rel: string)
    requires '"' !in rel
    ensures Split(Tile(rel), '"') == TilePieces(rel)
  {
    var xs := TilePieces(rel);
    LiteralPiecesUnquoted();
    assert '"' !in xs[12] by {
      assert xs[12] == ">" + rel + "</div></div>";
    }
    assert forall k :: 0 <= k < |xs| ==> '"' !in xs[k];
    TileJoin(rel);
    SplitJoin(xs, '"');
  }

  /** The literal pieces of a tile hold no double quote. */
  lemma LiteralPiecesUnquoted()
    ensures '"' !in "<div class=" && '"' !in "tile" && '"' !in "><a href=" && '"' !in " target="
    ensures '"' !in "_blank" && '"' !in "><img src=" && '"' !in " alt=" && '"' !in "></a><div class="
    ensures '"' !in "cap"
  {
  }

  /** A tile is its pieces joined by double quotes. */
  lemma TileJoin(rel: string)
    ensures Tile(rel) == Join(Quote, TilePieces(rel))
  {
    var xs := TilePieces(rel);
    assert xs[..1] == [xs[0]];
    JoinPrefix(Quote, xs, 1);
    JoinPrefix(Quote, xs, 2);
    JoinPrefix(Quote, xs, 3);
    JoinPrefix(Quote, xs, 4);
    JoinPrefix(Quote, xs, 5);
    JoinPrefix(Quote, xs, 6);
    JoinPrefix(Quote, xs, 7);
    JoinPrefix(Quote, xs, 8);
    JoinPrefix(Quote, xs, 9);
    JoinPrefix(Quote, xs, 10);
    JoinPrefix(Quote, xs, 11);
    JoinPrefix(Quote, xs, 12);
    assert xs[..13] == xs;
    ConcatAssoc(Join(Quote, xs[..12]) + Quote, ">", rel, "</div></div>");
  }

  lemma TileOneLine(rel: string)
    requires '\n' !in rel
    ensures '\n' !in Tile(rel)
  {
    TileJoin(rel);
    var pieces := TilePieces(rel);
    assert forall k :: 0 <= k < |pieces| ==> '\n' !in pieces[k];
    JoinWithout(Quote, pieces, '\n');
  }
}
