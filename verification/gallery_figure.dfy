/** One figure block of the image gallery of generate_gallery_html.py, and how its fields can be
    read back. */
module GalleryFigure {
  import opened Text
  import opened HtmlEscape

  /** The text a relative path is shown as: backslashes turned into '/', then HTML-escaped. */
  function Safe(rel: string): string {
    Escape(ReplaceChar(rel, '\\', '/'))
  }

  /** One figure: a link to the image, the image itself and a caption, all naming `safe`. The
      double quotes around attribute values are written as `Quote`. */
  function Figure(safe: string): string {
    "      <div class=" + Quote + "figure" + Quote + ">\n        <a href=" + Quote + safe + Quote + " target="
      + Quote + "_blank" + Quote + " rel=" + Quote + "noopener" + Quote + ">\n          <img src=" + Quote + safe
      + Quote + " alt=" + Quote + safe + Quote + ">\n        </a>\n        <div class=" + Quote + "caption" + Quote
      + ">" + safe + "</div>\n      </div>\n"
  }

  /** The pieces of a figure between its double quotes: piece 3 is the link target, piece 9 the
      image source, piece 11 the alternative text, and the last piece carries the caption. */
  function FigurePieces(safe: string): seq<string> {
    ["      <div class=", "figure", ">\n        <a href=", safe, " target=", "_blank", " rel=", "noopener",
     ">\n          <img src=", safe, " alt=", safe, ">\n        </a>\n        <div class=", "caption",
     ">" + safe + "</div>\n      </div>\n"]
  }

  /** Cutting a figure at its double quotes gives its pieces back, provided `safe` holds no
      double quote. */
  lemma FigureFields(safe: string)
    requires '"' !in safe
    ensures Split(Figure(safe), '"') == FigurePieces(safe)
  {
    var xs := FigurePieces(safe);
    HeadPiecesUnquoted();
    TailPiecesUnquoted();
    assert '"' !in xs[14] by {
      assert xs[14] == ">" + safe + "</div>\n      </div>\n";
    }
    assert forall k :: 0 <= k < |xs| ==> '"' !in xs[k];
    FigureJoin(safe);
    SplitJoin(xs, '"');
  }

  /** The literal pieces of the opening link hold no double quote. */
  lemma HeadPiecesUnquoted()
    ensures '"' !in "      <div class=" && '"' !in "figure" && '"' !in ">\n        <a href="
    ensures '"' !in " target=" && '"' !in "_blank" && '"' !in " rel=" && '"' !in "noopener"
  {
  }

  /** The literal pieces of the image and the caption hold no double quote. */
  lemma TailPiecesUnquoted()
    ensures '"' !in ">\n          <img src=" && '"' !in " alt="
    ensures '"' !in ">\n        </a>\n        <div class=" && '"' !in "caption"
  {
  }

  /** The figure of a relative path: its link target, image source, alternative text and
      caption are the same escaped text, which holds no double quote, and which reads back as
      the path with '/' for every backslash. */
  lemma FigureOfPath(rel: string)
    ensures Split(Figure(Safe(rel)), '"') == FigurePieces(Safe(rel))
    ensures Unescape(Safe(rel)) == ReplaceChar(rel, '\\', '/')
    ensures '\\' !in Unescape(Safe(rel))
  {
    var plain := ReplaceChar(rel, '\\', '/');
    EscapeSafe(plain);
    assert forall i :: 0 <= i < |Safe(rel)| ==> Safe(rel)[i] != '"';
    FigureFields(Safe(rel));
    UnescapeEscape(plain);
  }

  /** A figure is its pieces joined by double quotes. */
  lemma FigureJoin(safe: string)
    ensures Figure(safe) == Join(Quote, FigurePieces(safe))
  {
    var xs := FigurePieces(safe);
    assert xs[..1] == [xs[0]];
    JoinPrefix(Quote, xs, 1);
    JoinPrefix(Quote, xs, 2);
    JoinPrefix(Quote, xs, 3);
    JoinPrefix(Quote, xs, 4);
    JoinPrefix(Quote, xs, 5);
    JoinPrefix(Quote, xs, 6);
    JoinPrefix(Quote, xs, 7);
    JoinPrefix(Quote, xs, 8);
    JoinPrefix(Quote, xs, 9);
    JoinPrefix(Quote, xs, 10);
    JoinPrefix(Quote, xs, 11);
    JoinPrefix(Quote, xs, 12);
    JoinPrefix(Quote, xs, 13);
    JoinPrefix(Quote, xs, 14);
    assert xs[..15] == xs;
    ConcatAssoc(Join(Quote, xs[..14]) + Quote, ">", safe, "</div>\n      </div>\n");
  }
}
