/** The places overview page of bingo/generate_gallery_html.py: one card per place folder under
    'stedenendorpen', each linking to that place's index page, with a thumbnail and a description
    looked up in 'beschrijvingen.json'. The file system is passed in: whether the places folder
    exists, its listing, the parsed descriptions file and, per place, the folders its walk meets. */
module PlacesGallery {
  import opened Wrappers
  import opened Seqs
  import opened Text
  import opened Sorting
  import opened Dealing
  import opened PlacesTemplate

  /** The folder, below the base folder, that holds one folder per place. */
  const PlacesFolder: string := "stedenendorpen"

  const OverviewTitle: string := "Overzicht dorpen en steden"

  const OverviewSubtitle: string := "Klik op een kaart om de indexpagina van het dorp of de stad te openen."

  /** The name endings that mark a thumbnail candidate. */
  const CardImageExts: seq<string> := [".png", ".jpg", ".jpeg", ".webp"]

  /** The descriptions key of the fallback template, and the placeholder it may hold. */
  const DefaultKey: string := "_default"
  const PlacePlaceholder: string := "{plaats}"

  /** The exit status of a run without a places folder. */
  const MissingFolderStatus: nat := 2

  /** A JSON value as `json.load` returns it. */
  datatype Json =
    | JNull
    | JBool(b: bool)
    | JNumber(x: real)
    | JString(s: string)
    | JArray(items: seq<Json>)
    | JObject(fields: map<string, Json>)

  /** Python truth of a looked-up value; `None` stands for a missing key. */
  predicate Truthy(v: Option<Json>) {
    match v
    case None => false
    case Some(JNull) => false
    case Some(JBool(b)) => b
    case Some(JNumber(x)) => x != 0.0
    case Some(JString(s)) => s != ""
    case Some(JArray(items)) => items != []
    case Some(JObject(fields)) => fields != map[]
  }

  /** Python's `a or b`: `a` when it is truthy, else `b`. */
  function Or(a: Option<Json>, b: Option<Json>): (r: Option<Json>)
    ensures Truthy(r) <==> Truthy(a) || Truthy(b)
    ensures r == a || r == b
    ensures Truthy(a) ==> r == a
  {
    if Truthy(a) then a else b
  }

  /** `load_descriptions`: the parsed file when it holds an object, else no descriptions.
      `None` stands for a file that is missing, unreadable or not valid JSON. */
  function LoadDescriptions(file: Option<Json>): (r: map<string, Json>)
    ensures r != map[] ==> file == Some(JObject(r))
    ensures file.Some? && file.value.JObject? ==> r == file.value.fields
  {
    match file
    case Some(JObject(fields)) => fields
    case _ => map[]
  }

  /** `descs.get(key)` */
  function Get(descs: map<string, Json>, key: string): Option<Json> {
    if key in descs then Some(descs[key]) else None
  }

  /** A looked-up value as description text: a string is used, anything else shows nothing. */
  function TextOf(v: Option<Json>): string {
    if v.Some? && v.value.JString? then v.value.s else ""
  }

  /** The description of a card, as `build_card_html` picks it. */
  function Description(name: string, descs: map<string, Json>): string {
    var plaats := DisplayName(name);
    var custom := Or(Or(Get(descs, name), Get(descs, plaats)), Get(descs, Title(name)));
    var chosen :=
      if Truthy(custom) then custom
      else match Get(descs, DefaultKey)
        case Some(JString(tpl)) => Some(JString(ReplaceAll(tpl, PlacePlaceholder, plaats)))
        case _ => custom;
    TextOf(chosen)
  }

  /** The description fallback chain, case by case: the folder name, the shown name and the
      title-cased folder name are tried in that order and the first truthy entry wins (text if
      it is a string, nothing otherwise); without a hit, a string '_default' entry is used with
      every '{plaats}' replaced by the shown name; failing that, nothing. */
  lemma DescriptionChain(name: string, descs: map<string, Json>)
    ensures Truthy(Get(descs, name)) ==> Description(name, descs) == TextOf(Get(descs, name))
    ensures !Truthy(Get(descs, name)) && Truthy(Get(descs, DisplayName(name)))
            ==> Description(name, descs) == TextOf(Get(descs, DisplayName(name)))
    ensures !Truthy(Get(descs, name)) && !Truthy(Get(descs, DisplayName(name))) && Truthy(Get(descs, Title(name)))
            ==> Description(name, descs) == TextOf(Get(descs, Title(name)))
    ensures !Truthy(Get(descs, name)) && !Truthy(Get(descs, DisplayName(name))) && !Truthy(Get(descs, Title(name)))
            ==> Description(name, descs)
                == match Get(descs, DefaultKey)
                   case Some(JString(tpl)) => ReplaceAll(tpl, PlacePlaceholder, DisplayName(name))
                   case _ => ""
  {
    var plaats := DisplayName(name);
    var custom := Or(Or(Get(descs, name), Get(descs, plaats)), Get(descs, Title(name)));
    if !Truthy(custom) {
      assert TextOf(custom) == "";
    }
  }

  /** A truthy entry that is not a string hides the '_default' template: the card shows no
      description. */
  lemma NumberEntryHidesDefault()
    ensures Description("amersfoort", map["amersfoort" := JNumber(1.0), DefaultKey := JString("Foto's uit {plaats}")]) == ""
  {
    var descs := map["amersfoort" := JNumber(1.0), DefaultKey := JString("Foto's uit {plaats}")];
    assert Truthy(Get(descs, "amersfoort"));
    DescriptionChain("amersfoort", descs);
  }

  /** A folder met by the walk of a place folder: its path relative to the place folder (empty
      for the place folder itself) and its file names. */
  datatype Folder = Folder(dir: string, files: seq<string>)

  /** `f.lower().endswith(IMAGE_EXTS)` */
  predicate IsCardImage(f: string) {
    EndsWithAny(Lower(f), CardImageExts)
  }

  /** The first image file of one folder, in sorted name order. */
  function FirstInFolder(files: seq<string>): (r: Option<string>)
    ensures r.None? <==> forall i :: 0 <= i < |files| ==> !IsCardImage(files[i])
    ensures r.Some? ==> r.value in files && IsCardImage(r.value)
    ensures r.Some? ==> forall i :: 0 <= i < |files| && IsCardImage(files[i]) ==> StrLe(r.value, files[i])
  {
    FirstOfSorted(files, IsCardImage);
    FirstWhere(Sort(files), IsCardImage)
  }

  /** A folder without image files. */
  predicate Barren(f: Folder) {
    FirstInFolder(f.files).None?
  }

  /** `first_image_in_folder`: the path, relative to the place folder, of the first image of
      the first folder of the walk that holds one. */
  function FirstImage(walk: seq<Folder>): (r: Option<string>)
    ensures r.None? <==> forall d :: 0 <= d < |walk| ==> Barren(walk[d])
    ensures r.Some? ==> exists d :: 0 <= d < |walk| && FirstOfWalk(walk, d, r.value)
  {
    if walk == [] then None
    else
      var first := FirstInFolder(walk[0].files);
      if first.Some? then
        assert FirstOfWalk(walk, 0, RelPath(FileEntry(walk[0].dir, first.value)));
        Some(RelPath(FileEntry(walk[0].dir, first.value)))
      else
        var r := FirstImage(walk[1..]);
        FirstImageStep(walk, r);
        r
  }

  /** Folder `d` is the first of the walk with an image, and `p` is the path of its first image. */
  predicate FirstOfWalk(walk: seq<Folder>, d: nat, p: string)
    requires d < |walk|
  {
    && !Barren(walk[d])
    && (forall e :: 0 <= e < d ==> Barren(walk[e]))
    && p == RelPath(FileEntry(walk[d].dir, FirstInFolder(walk[d].files).value))
  }

  /** The walk's first image, when its first folder has none, is that of the rest of the walk. */
  lemma FirstImageStep(walk: seq<Folder>, r: Option<string>)
    requires walk != [] && Barren(walk[0])
    requires r.None? <==> forall d :: 0 <= d < |walk| - 1 ==> Barren(walk[1..][d])
    requires r.Some? ==> exists d :: 0 <= d < |walk| - 1 && FirstOfWalk(walk[1..], d, r.value)
    ensures r.None? <==> forall d :: 0 <= d < |walk| ==> Barren(walk[d])
    ensures r.Some? ==> exists d :: 0 <= d < |walk| && FirstOfWalk(walk, d, r.value)
  {
    assert forall d :: 1 <= d < |walk| ==> walk[d] == walk[1..][d - 1];
    if r.Some? {
      var d :| 0 <= d < |walk| - 1 && FirstOfWalk(walk[1..], d, r.value);
      assert FirstOfWalk(walk, d + 1, r.value);
    }
  }

  /** The thumbnail part of a card: the place's first image when thumbnails are on and one was
      found, else the shown name on a coloured block. */
  function Thumb(name: string, plaats: string, withThumb: bool, first: Option<string>): string {
    if withThumb && first.Some? then
      "<div class=\"thumb\"><img src=\"" + PlacesFolder + "/" + name + "/" + first.value + "\" alt=\"" + plaats + "\"></div>"
    else "<div class=\"no-thumb\">" + plaats + "</div>"
  }

  /** `os.path.relpath(os.path.join(place_dir, 'index.html'), base_dir)` */
  function RelIndex(name: string): string {
    PlacesFolder + "/" + name + "/index.html"
  }

  /** The link target lies in the places folder, in the folder of the place itself. */
  lemma RelIndexInPlaceFolder(name: string)
    requires name != "" && '/' !in name
    ensures StartsWith(RelIndex(name), PlacesFolder + "/")
    ensures EndsWith(RelIndex(name), "/index.html")
    ensures Dirname(RelIndex(name)) == PlacesFolder + "/" + name
  {
    var dir := PlacesFolder + "/" + name;
    var p := RelIndex(name);
    assert p == dir + "/index.html";
    var head := LastSlashPrefix(p);
    assert p[|dir|] == '/';
    assert forall i :: |dir| < i < |p| ==> p[i] != '/';
    assert head == dir + "/";
    assert head[0] != '/';
    assert RStrip(head, '/') == dir;
  }

  /** A card, with the parts it is assembled from. */
  function CardText(href: string, thumb: string, heading: string, desc: string): string {
    "<a class=\"card-link\" href=\"" + href + "\" target=\"_blank\">" + "  <div class=\"card\">" + "    " + thumb
      + "    <div class=\"content\">" + "      <h3>" + heading + "</h3>" + "      <p>" + desc + "</p>" + "    </div>"
      + "  </div>" + "</a>"
  }

  /** `build_card_html` for the place folder `name`, whose walk meets `walk`. */
  function Card(name: string, descs: map<string, Json>, withThumb: bool, walk: seq<Folder>): string {
    var plaats := DisplayName(name);
    CardText(RelIndex(name), Thumb(name, plaats, withThumb, FirstImage(walk)), plaats, Description(name, descs))
  }

  /** A card opens with the link to the place's index page, holds the thumbnail part, the shown
      name as heading and the description, and closes the link. */
  lemma CardShows(href: string, thumb: string, heading: string, desc: string)
    ensures StartsWith(CardText(href, thumb, heading, desc), "<a class=\"card-link\" href=\"" + href + "\" target=\"_blank\">")
    ensures Occurs(CardText(href, thumb, heading, desc), thumb)
    ensures Occurs(CardText(href, thumb, heading, desc), "<h3>" + heading + "</h3>")
    ensures Occurs(CardText(href, thumb, heading, desc), "<p>" + desc + "</p>")
    ensures EndsWith(CardText(href, thumb, heading, desc), "</a>")
  {
    var link := "<a class=\"card-link\" href=\"" + href + "\" target=\"_blank\">";
    var a := link + "  <div class=\"card\">" + "    ";
    var c := "    <div class=\"content\">" + "      ";
    var e := "    </div>" + "  </div>" + "</a>";
    var card := CardText(href, thumb, heading, desc);
    CardGroups(href, thumb, heading, desc);
    OccursThree(a, thumb, c, "<h3>" + heading + "</h3>", "      ", "<p>" + desc + "</p>", e);
    assert card[..|link|] == link;
    assert card[|card| - 4..] == "</a>";
  }

  /** A card regrouped around its thumbnail, heading and description. */
  lemma CardGroups(href: string, thumb: string, heading: string, desc: string)
    ensures CardText(href, thumb, heading, desc)
         == ("<a class=\"card-link\" href=\"" + href + "\" target=\"_blank\">" + "  <div class=\"card\">" + "    ")
            + thumb + ("    <div class=\"content\">" + "      ") + ("<h3>" + heading + "</h3>") + "      "
            + ("<p>" + desc + "</p>") + ("    </div>" + "  </div>" + "</a>")
  {
    assert "      <h3>" == "      " + "<h3>";
    assert "      <p>" == "      " + "<p>";
  }

  /** The card of a place: it links to the place's index page and is headed by its shown name;
      with thumbnails on and an image in the place's walk, the image shown is the first image
      of the walk, reached through the place folder; otherwise the shown name fills the
      thumbnail block. */
  lemma CardOfPlace(name: string, descs: map<string, Json>, withThumb: bool, walk: seq<Folder>)
    ensures StartsWith(Card(name, descs, withThumb, walk), "<a class=\"card-link\" href=\"" + RelIndex(name) + "\" target=\"_blank\">")
    ensures Occurs(Card(name, descs, withThumb, walk), "<h3>" + DisplayName(name) + "</h3>")
    ensures Occurs(Card(name, descs, withThumb, walk), "<p>" + Description(name, descs) + "</p>")
    ensures withThumb && FirstImage(walk).Some? ==>
              Occurs(Card(name, descs, withThumb, walk), "<div class=\"thumb\"><img src=\"" + PlacesFolder + "/" + name
                     + "/" + FirstImage(walk).value + "\" alt=\"" + DisplayName(name) + "\"></div>")
    ensures !withThumb || (forall d :: 0 <= d < |walk| ==> Barren(walk[d])) ==>
              Occurs(Card(name, descs, withThumb, walk), "<div class=\"no-thumb\">" + DisplayName(name) + "</div>")
  {
    var plaats := DisplayName(name);
    CardShows(RelIndex(name), Thumb(name, plaats, withThumb, FirstImage(walk)), plaats, Description(name, descs));
  }

  /** A listing entry of the places folder. */
  datatype DirEntry = DirEntry(name: string, isDir: bool)

  function DirName(e: DirEntry): string { e.name }

  predicate IsDirEntry(e: DirEntry) { e.isDir }

  function Names(es: seq<DirEntry>): (r: seq<string>)
    ensures |r| == |es|
    ensures forall i :: 0 <= i < |es| ==> r[i] == es[i].name
  {
    seq(|es|, i requires 0 <= i < |es| => es[i].name)
  }

  /** `[name for name in sorted(os.listdir(steden_dir)) if os.path.isdir(...)]` */
  function Places(listing: seq<DirEntry>): (r: seq<string>)
    ensures SortedBy(r, Identity)
  {
    var sorted := SortBy(listing, DirName);
    var dirs := Filter(sorted, IsDirEntry);
    FilterIsSubsequence(sorted, IsDirEntry);
    SubsequenceSorted(dirs, sorted, DirName);
    Names(dirs)
  }

  /** The places are exactly the folders of the listing. */
  lemma PlacesExactly(listing: seq<DirEntry>)
    ensures forall i :: 0 <= i < |listing| && listing[i].isDir ==> listing[i].name in Places(listing)
    ensures forall x :: x in Places(listing) ==> exists i :: 0 <= i < |listing| && listing[i].isDir && listing[i].name == x
  {
    var sorted := SortBy(listing, DirName);
    var dirs := Filter(sorted, IsDirEntry);
    forall i | 0 <= i < |listing| && listing[i].isDir
      ensures listing[i].name in Places(listing)
    {
      assert listing[i] in multiset(sorted);
      var k :| 0 <= k < |dirs| && dirs[k] == listing[i];
      assert Places(listing)[k] == listing[i].name;
    }
    forall x | x in Places(listing)
      ensures exists i :: 0 <= i < |listing| && listing[i].isDir && listing[i].name == x
    {
      var k :| 0 <= k < |Places(listing)| && Places(listing)[k] == x;
      assert dirs[k] in sorted;
      assert dirs[k] in multiset(listing);
      var i :| 0 <= i < |listing| && listing[i] == dirs[k];
    }
  }

  /** One card per place, in order. */
  function Cards(places: seq<string>, descs: map<string, Json>, withThumb: bool, walks: string -> seq<Folder>): (r: seq<string>)
    ensures |r| == |places|
    ensures forall k :: 0 <= k < |places| ==> r[k] == Card(places[k], descs, withThumb, walks(places[k]))
  {
    seq(|places|, k requires 0 <= k < |places| => Card(places[k], descs, withThumb, walks(places[k])))
  }

  /** `"\n".join([head] + cards + [tail])` */
  function Overview(head: string, cards: seq<string>, tail: string): string {
    Join("\n", [head] + cards + [tail])
  }

  /** The overview is the head, the cards and the tail, each on its own line: card `k` has the
      head and the cards before it in front of it, and the cards after it and the tail behind. */
  lemma OverviewLayout(head: string, cards: seq<string>, tail: string)
    ensures cards == [] ==> Overview(head, cards, tail) == head + "\n" + tail
    ensures cards != [] ==> Overview(head, cards, tail) == head + "\n" + Join("\n", cards) + "\n" + tail
    ensures forall k :: 0 <= k < |cards| ==>
              Overview(head, cards, tail)
              == Join("\n", [head] + cards[..k]) + "\n" + cards[k] + "\n" + Join("\n", cards[k + 1..] + [tail])
  {
    JoinFramed("\n", head, cards, tail);
    forall k | 0 <= k < |cards|
      ensures Overview(head, cards, tail)
              == Join("\n", [head] + cards[..k]) + "\n" + cards[k] + "\n" + Join("\n", cards[k + 1..] + [tail])
    {
      JoinFramedAt("\n", head, cards, tail, k);
    }
  }

  /** Why a run stops early. */
  datatype Failure = MissingPlacesFolder

  /** The exit status of a run. */
  function ExitStatus(r: Result<string, Failure>): nat {
    if r.Ok? then 0 else MissingFolderStatus
  }

  /** `main`: without a places folder the run stops with status 2; otherwise the page holds one
      card per place folder, in sorted order, between the head and the tail. */
  function Main(hasPlacesFolder: bool, descFile: Option<Json>, listing: seq<DirEntry>, noThumbs: bool,
                walks: string -> seq<Folder>): (r: Result<string, Failure>)
    ensures r.Err? <==> !hasPlacesFolder
    ensures ExitStatus(r) == if hasPlacesFolder then 0 else 2
  {
    if !hasPlacesFolder then Err(MissingPlacesFolder)
    else
      var descs := LoadDescriptions(descFile);
      var cards := Cards(Places(listing), descs, !noThumbs, walks);
      Ok(Overview(OverviewHead(OverviewTitle, OverviewSubtitle), cards, OverviewTail))
  }

  /** A run with a places folder shows the card of every place folder of the listing, at the
      place's position in sorted order. */
  lemma MainShowsEveryPlace(descFile: Option<Json>, listing: seq<DirEntry>, noThumbs: bool,
                            walks: string -> seq<Folder>, i: nat)
    requires i < |listing| && listing[i].isDir
    ensures var r := Main(true, descFile, listing, noThumbs, walks);
            var places := Places(listing);
            r.Ok? && exists k :: (0 <= k < |places| && places[k] == listing[i].name
              && var cards := Cards(places, LoadDescriptions(descFile), !noThumbs, walks);
                  r.value == Join("\n", [OverviewHead(OverviewTitle, OverviewSubtitle)] + cards[..k]) + "\n"
                             + Card(listing[i].name, LoadDescriptions(descFile), !noThumbs, walks(listing[i].name))
                             + "\n" + Join("\n", cards[k + 1..] + [OverviewTail]))
  {
    var places := Places(listing);
    PlacesExactly(listing);
    var k :| 0 <= k < |places| && places[k] == listing[i].name;
    var cards := Cards(places, LoadDescriptions(descFile), !noThumbs, walks);
    OverviewLayout(OverviewHead(OverviewTitle, OverviewSubtitle), cards, OverviewTail);
  }
}
