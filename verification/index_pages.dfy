/** The per-place index pages of bingo/generate_indexes.py: for every place folder under
    'stedenendorpen' an index.html with a title, a short description and a grid of tiles, one
    per image in the folder. The directory walk and the file writes are inputs and outputs. */
module IndexPages {
  import opened Seqs
  import opened Text
  import opened Sorting
  import opened Dealing
  import opened IndexTemplate
  import opened IndexTile

  /** A file the walk keeps: its lower-cased name ends in .png, .jpg, .jpeg or .webp. Unlike the
      app's photo pool, files directly in the place folder count too. */
  predicate IsImageFile(e: FileEntry) {
    EndsWithAny(Lower(e.name), PhotoExtensions)
  }

  /** `collect_images(place_dir)`: the relative paths of the image files under the place
      folder, sorted. `files` is the walk of the place folder, with `dir` relative to it. */
  function CollectImages(files: seq<FileEntry>): (r: seq<string>)
    ensures SortedBy(r, Identity)
    ensures multiset(r) == multiset(RelPaths(Filter(files, IsImageFile)))
  {
    Sort(RelPaths(Filter(files, IsImageFile)))
  }

  /** The collected paths are exactly the relative paths of the image files: every image file is
      listed, and every listed path belongs to an image file. */
  lemma CollectImagesExactly(files: seq<FileEntry>)
    ensures forall i :: 0 <= i < |files| && IsImageFile(files[i]) ==> RelPath(files[i]) in CollectImages(files)
    ensures forall x :: x in CollectImages(files) ==>
              exists i :: 0 <= i < |files| && IsImageFile(files[i]) && RelPath(files[i]) == x
  {
    var images := Filter(files, IsImageFile);
    var paths := RelPaths(images);
    var r := CollectImages(files);
    forall i | 0 <= i < |files| && IsImageFile(files[i])
      ensures RelPath(files[i]) in r
    {
      var k :| 0 <= k < |images| && images[k] == files[i];
      assert paths[k] == RelPath(files[i]);
      assert RelPath(files[i]) in multiset(paths);
    }
    forall x | x in r
      ensures exists i :: 0 <= i < |files| && IsImageFile(files[i]) && RelPath(files[i]) == x
    {
      assert x in multiset(paths);
      var k :| 0 <= k < |paths| && paths[k] == x;
      assert images[k] in files;
      var i :| 0 <= i < |files| && files[i] == images[k];
    }
  }

  /** The text after the place name in a page title (an em dash, then "Fotoverslag"). */
  const TitleSuffix: string := " \U{2014} Fotoverslag"

  /** The title of a place page. */
  function PageTitle(name: string): (r: string)
    ensures |r| == |name| + |TitleSuffix|
    ensures r[..|name|] == Title(PlaceName(name))
    ensures r[|name|..] == TitleSuffix
  {
    DisplayName(name) + TitleSuffix
  }

  /** The title shows the place name up to letter case, with '-' and '_' turned into spaces. */
  lemma PageTitleShowsName(name: string)
    ensures forall i :: 0 <= i < |name| && (name[i] == '-' || name[i] == '_') ==> PageTitle(name)[i] == ' '
    ensures forall i :: 0 <= i < |name| && name[i] != '-' && name[i] != '_' ==>
              LowerChar(PageTitle(name)[i]) == LowerChar(name[i])
  {
    var p := PlaceName(name);
    forall i | 0 <= i < |name|
      ensures name[i] == '-' || name[i] == '_' ==> PageTitle(name)[i] == ' '
      ensures name[i] != '-' && name[i] != '_' ==> LowerChar(PageTitle(name)[i]) == LowerChar(name[i])
    {
      assert PageTitle(name)[i] == TitleChar(p, i);
    }
  }

  /** Folder names that differ only in '-' against '_' get the same title. */
  lemma PageTitleIgnoresSeparators(name: string)
    ensures PageTitle(PlaceName(name)) == PageTitle(name)
  {
    PlaceNameIdempotent(name);
  }

  /** The description under the heading. */
  function Description(name: string): string {
    "Welkom! Dit is een korte pagina over " + DisplayName(name)
      + ". Hieronder vind je een selectie afbeeldingen uit deze map."
  }

  const GridOpen: string := "<section><div class=\"grid\">"
  const GridClose: string := "</div></section>"
  const Placeholder: string := "<p>Er zijn (nog) geen afbeeldingen of de galerij is uitgeschakeld.</p>"

  /** The tiles of `images`, in their order. */
  function Tiles(images: seq<string>): (r: seq<string>)
    ensures |r| == |images|
    ensures forall k :: 0 <= k < |images| ==> r[k] == Tile(images[k])
  {
    seq(|images|, k requires 0 <= k < |images| => Tile(images[k]))
  }

  /** `body_parts`: with the gallery on and at least one image, the grid opening, one tile per
      image in order, and the grid closing; otherwise only the placeholder paragraph. */
  function BodyParts(images: seq<string>, withGallery: bool): (r: seq<string>)
    ensures withGallery && images != [] ==>
              && |r| == |images| + 2 && r[0] == GridOpen && r[|r| - 1] == GridClose
              && forall k :: 0 <= k < |images| ==> r[k + 1] == Tile(images[k])
    ensures !withGallery || images == [] ==> r == [Placeholder]
  {
    if withGallery && |images| > 0 then [GridOpen] + Tiles(images) + [GridClose] else [Placeholder]
  }

  /** A page: the head, the body parts one per line, and the tail. */
  function Page(head: string, parts: seq<string>, tail: string): (r: string)
    ensures StartsWith(r, head) && EndsWith(r, tail)
  {
    var r := head + Join("\n", parts) + tail;
    assert r[..|head|] == head;
    assert r[|r| - |tail|..] == tail;
    r
  }

  /** Between head and tail, a page holds its parts one per line: cutting that stretch at its
      line breaks gives the parts back, as long as no part holds a line break. */
  lemma PageLines(head: string, parts: seq<string>, tail: string)
    requires parts != []
    requires forall k :: 0 <= k < |parts| ==> '\n' !in parts[k]
    ensures var page := Page(head, parts, tail);
            && |head| + |tail| <= |page|
            && Split(page[|head|..|page| - |tail|], '\n') == parts
  {
    var page := Page(head, parts, tail);
    assert page[|head|..|page| - |tail|] == Join("\n", parts);
    assert "\n" == ['\n'];
    SplitJoin(parts, '\n');
  }

  /** `build_html(place_name, images, with_gallery)` */
  function BuildHtml(name: string, images: seq<string>, withGallery: bool): (r: string)
    ensures StartsWith(r, Head(PageTitle(name), Description(name)))
    ensures EndsWith(r, HtmlTail)
  {
    Page(Head(PageTitle(name), Description(name)), BodyParts(images, withGallery), HtmlTail)
  }

  /** No part of a gallery body spans two lines when no image path holds a line break. */
  lemma GalleryPartsOneLine(images: seq<string>)
    requires images != []
    requires forall k :: 0 <= k < |images| ==> '\n' !in images[k]
    ensures forall k :: 0 <= k < |BodyParts(images, true)| ==> '\n' !in BodyParts(images, true)[k]
  {
    var parts := BodyParts(images, true);
    forall k | 0 <= k < |parts|
      ensures '\n' !in parts[k]
    {
      if k == 0 {
        assert parts[k] == GridOpen;
        assert '\n' !in GridOpen;
      } else if k == |parts| - 1 {
        assert parts[k] == GridClose;
        assert '\n' !in GridClose;
      } else {
        assert parts[k] == Tile(images[k - 1]);
        TileOneLine(images[k - 1]);
      }
    }
  }

  /** Between the head and the tail, a page with a gallery holds the body parts one per line, as
      long as no image path holds a line break. */
  lemma GalleryLines(name: string, images: seq<string>)
    requires images != []
    requires forall k :: 0 <= k < |images| ==> '\n' !in images[k]
    ensures var page := BuildHtml(name, images, true);
            var head := Head(PageTitle(name), Description(name));
            && |head| + |HtmlTail| <= |page|
            && Split(page[|head|..|page| - |HtmlTail|], '\n') == BodyParts(images, true)
  {
    GalleryPartsOneLine(images);
    PageLines(Head(PageTitle(name), Description(name)), BodyParts(images, true), HtmlTail);
  }

  /** Between `head` and `tail`, `page` holds one line per body part, and the lines between the
      first and the last are the tiles of `images`, read back field by field at their double
      quotes. */
  predicate ListsTiles(page: string, head: string, tail: string, images: seq<string>) {
    && |head| + |tail| <= |page|
    && var lines := Split(page[|head|..|page| - |tail|], '\n');
    && |lines| == |images| + 2
    && forall k :: 0 <= k < |images| ==> Split(lines[k + 1], '"') == TilePieces(images[k])
  }

  /** Any page made of a gallery body lists its images' tiles, whatever its head and tail. */
  lemma PageListsTiles(head: string, tail: string, images: seq<string>)
    requires images != []
    requires forall k :: 0 <= k < |images| ==> '\n' !in images[k] && '"' !in images[k]
    ensures ListsTiles(Page(head, BodyParts(images, true), tail), head, tail, images)
  {
    GalleryPartsOneLine(images);
    PageLines(head, BodyParts(images, true), tail);
    forall k | 0 <= k < |images|
      ensures Split(Tile(images[k]), '"') == TilePieces(images[k])
    {
      TileFields(images[k]);
    }
  }

  /** A page with the gallery on lists every image, in order, one tile per line, and each tile
      names its image as link target, image source, alternative text and caption. */
  lemma GalleryListsImages(name: string, images: seq<string>)
    requires images != []
    requires forall k :: 0 <= k < |images| ==> '\n' !in images[k] && '"' !in images[k]
    ensures ListsTiles(BuildHtml(name, images, true), Head(PageTitle(name), Description(name)), HtmlTail, images)
  {
    PageListsTiles(Head(PageTitle(name), Description(name)), HtmlTail, images);
  }

  /** With the gallery off, or without images, the body is the placeholder paragraph alone. */
  lemma NoGalleryPlaceholder(name: string, images: seq<string>, withGallery: bool)
    requires !withGallery || images == []
    ensures BuildHtml(name, images, withGallery)
            == Head(PageTitle(name), Description(name)) + Placeholder + HtmlTail
  {
  }

  /** One entry of the 'stedenendorpen' listing: its name, whether it is a folder, whether it
      already holds an index.html, and the walk of its files. */
  datatype PlaceEntry = PlaceEntry(name: string, isDir: bool, hasIndex: bool, files: seq<FileEntry>)

  function EntryName(e: PlaceEntry): string { e.name }

  predicate IsPlace(e: PlaceEntry) { e.isDir }
  predicate HasIndex(e: PlaceEntry) { e.isDir && e.hasIndex }
  predicate LacksIndex(e: PlaceEntry) { e.isDir && !e.hasIndex }

  /** An index.html written: the place name and the page. */
  datatype Write = Write(name: string, page: string)

  /** The page written for a place: `build_html(name, collect_images(place_path), ...)`. */
  function PlacePage(withGallery: bool, e: PlaceEntry): string {
    BuildHtml(e.name, CollectImages(e.files), withGallery)
  }

  /** The page maker of a run with or without --no-gallery. */
  function Renderer(noGallery: bool): PlaceEntry -> string {
    e => PlacePage(!noGallery, e)
  }

  /** How a written page is counted. `AfterWrite` is the script's rule: it asks whether the file
      exists after writing it, which it always does, so with --overwrite every written page is
      "updated". `BeforeWrite` counts by whether the file existed before the write. */
  datatype CountRule = AfterWrite | BeforeWrite

  predicate CountsAsUpdated(rule: CountRule, overwrite: bool, existed: bool) {
    match rule
    case AfterWrite => overwrite
    case BeforeWrite => existed
  }

  /** The three counters and the pages written, in order. */
  datatype Report = Report(created: nat, updated: nat, skipped: nat, writes: seq<Write>)

  /** The places whose index.html gets written: every folder with --overwrite, otherwise the
      folders without one. */
  function ToWrite(places: seq<PlaceEntry>, overwrite: bool): seq<PlaceEntry> {
    if overwrite then Filter(places, IsPlace) else Filter(places, LacksIndex)
  }

  /** The loop of `main` over `places`: non-folders are passed over, a folder with an index.html
      is skipped unless --overwrite is given, and every other folder gets the page `render`
      makes for it, counted by `rule`. */
  function Walk(places: seq<PlaceEntry>, overwrite: bool, render: PlaceEntry -> string, rule: CountRule): (r: Report)
    ensures r.created + r.updated == |r.writes|
  {
    if places == [] then Report(0, 0, 0, [])
    else
      var prev := Walk(places[..|places| - 1], overwrite, render, rule);
      var e := places[|places| - 1];
      if !e.isDir then prev
      else if e.hasIndex && !overwrite then prev.(skipped := prev.skipped + 1)
      else
        var w := prev.(writes := prev.writes + [Write(e.name, render(e))]);
        if CountsAsUpdated(rule, overwrite, e.hasIndex) then w.(updated := w.updated + 1)
        else w.(created := w.created + 1)
  }

  /** The pages written are those of the places to write, in the order of `places`. */
  lemma {:induction false} WalkWrites(places: seq<PlaceEntry>, overwrite: bool, render: PlaceEntry -> string, rule: CountRule)
    ensures var r := Walk(places, overwrite, render, rule);
            var todo := ToWrite(places, overwrite);
            |r.writes| == |todo| && forall k :: 0 <= k < |todo| ==> r.writes[k] == Write(todo[k].name, render(todo[k]))
  {
    if places != [] {
      WalkWrites(places[..|places| - 1], overwrite, render, rule);
      WalkWritesStep(places, overwrite, render, rule);
    }
  }

  /** One more place adds itself to the places to write exactly when it adds its page to the
      pages written. */
  lemma WalkWritesStep(places: seq<PlaceEntry>, overwrite: bool, render: PlaceEntry -> string, rule: CountRule)
    requires places != []
    ensures var init := places[..|places| - 1];
            var e := places[|places| - 1];
            var more := if e.isDir && (overwrite || !e.hasIndex) then [e] else [];
            && ToWrite(places, overwrite) == ToWrite(init, overwrite) + more
            && Walk(places, overwrite, render, rule).writes
               == Walk(init, overwrite, render, rule).writes + (if more == [] then [] else [Write(e.name, render(e))])
  {
  }

  /** Only folders that already hold an index.html are skipped, and only without --overwrite. */
  lemma {:induction false} WalkSkipped(places: seq<PlaceEntry>, overwrite: bool, render: PlaceEntry -> string, rule: CountRule)
    ensures Walk(places, overwrite, render, rule).skipped == if overwrite then 0 else |Filter(places, HasIndex)|
  {
    if places != [] {
      WalkSkipped(places[..|places| - 1], overwrite, render, rule);
    }
  }

  /** The script's counting: with --overwrite nothing is "created", without it nothing is
      "updated". */
  lemma {:induction false} WalkAfterWrite(places: seq<PlaceEntry>, overwrite: bool, render: PlaceEntry -> string)
    ensures var r := Walk(places, overwrite, render, AfterWrite);
            if overwrite then r.created == 0 else r.updated == 0
  {
    if places != [] {
      WalkAfterWrite(places[..|places| - 1], overwrite, render);
    }
  }

  /** Counting by the file's presence before the write: "created" counts the folders that had no
      index.html, "updated" those that had one and were overwritten. */
  lemma {:induction false} WalkBeforeWrite(places: seq<PlaceEntry>, overwrite: bool, render: PlaceEntry -> string)
    ensures var r := Walk(places, overwrite, render, BeforeWrite);
            && r.created == |Filter(places, LacksIndex)|
            && r.updated == if overwrite then |Filter(places, HasIndex)| else 0
  {
    if places != [] {
      WalkBeforeWrite(places[..|places| - 1], overwrite, render);
    }
  }

  /** Every folder has an index.html or lacks one. */
  lemma {:induction false} PlacesSplit(places: seq<PlaceEntry>)
    ensures |Filter(places, IsPlace)| == |Filter(places, HasIndex)| + |Filter(places, LacksIndex)|
  {
    if places != [] {
      PlacesSplit(places[..|places| - 1]);
    }
  }

  /** `main` with the 'stedenendorpen' folder present: the listing in name order, walked with
      the script's counting. */
  function Main(listing: seq<PlaceEntry>, overwrite: bool, noGallery: bool): (r: Report)
    ensures r.created + r.updated == |r.writes|
  {
    Walk(SortBy(listing, EntryName), overwrite, Renderer(noGallery), AfterWrite)
  }

  /** `main` with its counting corrected to ask whether index.html existed before the write. */
  function MainCorrected(listing: seq<PlaceEntry>, overwrite: bool, noGallery: bool): (r: Report)
    ensures r.created + r.updated == |r.writes|
  {
    Walk(SortBy(listing, EntryName), overwrite, Renderer(noGallery), BeforeWrite)
  }

  /** The script's counters: non-folders count nowhere; without --overwrite the folders with an
      index.html are "skipped" and the others "created"; with --overwrite every folder is
      "updated", whether or not it had an index.html. */
  lemma MainCounts(listing: seq<PlaceEntry>, overwrite: bool, noGallery: bool)
    ensures var r := Main(listing, overwrite, noGallery);
            && r.created + r.updated + r.skipped == |Filter(listing, IsPlace)|
            && (overwrite ==> r.created == 0 && r.skipped == 0 && r.updated == |Filter(listing, IsPlace)|)
            && (!overwrite ==> r.updated == 0 && r.skipped == |Filter(listing, HasIndex)|
                               && r.created == |Filter(listing, LacksIndex)|)
  {
    var sorted := SortBy(listing, EntryName);
    WalkWrites(sorted, overwrite, Renderer(noGallery), AfterWrite);
    WalkSkipped(sorted, overwrite, Renderer(noGallery), AfterWrite);
    WalkAfterWrite(sorted, overwrite, Renderer(noGallery));
    FilterPermutation(sorted, listing, IsPlace);
    FilterPermutation(sorted, listing, HasIndex);
    FilterPermutation(sorted, listing, LacksIndex);
    PlacesSplit(listing);
  }

  /** The pages are written in name order, one per place to write, each the page of its
      place. */
  lemma MainWrites(listing: seq<PlaceEntry>, overwrite: bool, noGallery: bool)
    ensures var r := Main(listing, overwrite, noGallery);
            var todo := ToWrite(SortBy(listing, EntryName), overwrite);
            && SortedBy(todo, EntryName)
            && |r.writes| == |todo|
            && (forall k :: 0 <= k < |todo| ==> r.writes[k] == Write(todo[k].name, PlacePage(!noGallery, todo[k])))
  {
    var sorted := SortBy(listing, EntryName);
    var todo := ToWrite(sorted, overwrite);
    WalkWrites(sorted, overwrite, Renderer(noGallery), AfterWrite);
    if overwrite {
      FilterIsSubsequence(sorted, IsPlace);
    } else {
      FilterIsSubsequence(sorted, LacksIndex);
    }
    SubsequenceSorted(todo, sorted, EntryName);
  }

  /** The places written are exactly the folders without an index.html, plus, with --overwrite,
      those with one: a skipped folder is not rewritten. */
  lemma ToWriteExactly(listing: seq<PlaceEntry>, overwrite: bool)
    ensures forall e :: e in ToWrite(SortBy(listing, EntryName), overwrite) <==>
              e in listing && e.isDir && (overwrite || !e.hasIndex)
  {
    var sorted := SortBy(listing, EntryName);
    forall e
      ensures e in ToWrite(sorted, overwrite) <==> e in listing && e.isDir && (overwrite || !e.hasIndex)
    {
      assert e in sorted <==> e in listing by {
        assert e in multiset(sorted) <==> e in multiset(listing);
      }
    }
  }

  /** The script's counting with --overwrite: a folder without an index.html is reported as
      "updated" although its index.html is new. */
  lemma OverwriteCountsNewPlaceAsUpdated()
    ensures var r := Main([PlaceEntry("amersfoort", true, false, [])], true, false);
            r.created == 0 && r.updated == 1
  {
    MainCounts([PlaceEntry("amersfoort", true, false, [])], true, false);
    assert Filter([PlaceEntry("amersfoort", true, false, [])], IsPlace) == [PlaceEntry("amersfoort", true, false, [])];
  }

  /** The corrected counting: "created" counts exactly the folders that had no index.html,
      "updated" exactly those overwritten, and "skipped" those left alone. */
  lemma CorrectedCounts(listing: seq<PlaceEntry>, overwrite: bool, noGallery: bool)
    ensures var r := MainCorrected(listing, overwrite, noGallery);
            && r.created == |Filter(listing, LacksIndex)|
            && r.updated == (if overwrite then |Filter(listing, HasIndex)| else 0)
            && r.skipped == (if overwrite then 0 else |Filter(listing, HasIndex)|)
  {
    var sorted := SortBy(listing, EntryName);
    WalkSkipped(sorted, overwrite, Renderer(noGallery), BeforeWrite);
    WalkBeforeWrite(sorted, overwrite, Renderer(noGallery));
    FilterPermutation(sorted, listing, HasIndex);
    FilterPermutation(sorted, listing, LacksIndex);
  }

  /** Corrected, the example folder counts as "created". */
  lemma CorrectedCountsNewPlaceAsCreated()
    ensures var r := MainCorrected([PlaceEntry("amersfoort", true, false, [])], true, false);
            r.created == 1 && r.updated == 0
  {
    CorrectedCounts([PlaceEntry("amersfoort", true, false, [])], true, false);
    var l := [PlaceEntry("amersfoort", true, false, [])];
    assert Filter(l, LacksIndex) == l;
    assert Filter(l, HasIndex) == [];
  }
}
