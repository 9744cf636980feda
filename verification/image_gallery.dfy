/** The image gallery of generate_gallery_html.py: every image below the base folder, except
    those directly in it, sorted by lower-cased relative path, one figure per image between a
    fixed head and tail. The directory walk is the input list of files met. */
module ImageGallery {
  import opened Seqs
  import opened Text
  import opened Sorting
  import opened Dealing
  import opened HtmlEscape
  import opened GalleryTemplate
  import opened GalleryFigure

  /** Files directly in the base folder are not collected. */
  const IncludeRootFiles: bool := false

  /** The file suffixes, lower-cased, that mark an image. */
  const ImageExts: seq<string> := [".png", ".jpg", ".jpeg", ".webp", ".gif", ".bmp", ".tif", ".tiff"]

  /** `s.rfind(c)`: the last position of `c`, or -1. */
  function LastIndexOf(s: string, c: char): (i: int)
    ensures -1 <= i < |s|
    ensures i == -1 ==> c !in s
    ensures i >= 0 ==> s[i] == c && c !in s[i + 1..]
  {
    if s == [] then -1
    else if s[|s| - 1] == c then |s| - 1
    else
      var i := LastIndexOf(s[..|s| - 1], c);
      assert s == s[..|s| - 1] + [s[|s| - 1]];
      if i >= 0 then assert s[i + 1..] == s[..|s| - 1][i + 1..] + [s[|s| - 1]]; i else i
  }

  /** `PurePath(name).suffix`: from the last dot on, unless that dot starts or ends the name. */
  function Suffix(name: string): (r: string)
    ensures r == [] || (2 <= |r| < |name| && r[0] == '.' && EndsWith(name, r) && '.' !in r[1..])
  {
    var i := LastIndexOf(name, '.');
    if 0 < i < |name| - 1 then
      assert name[i..][1..] == name[i + 1..];
      name[i..]
    else []
  }

  /** A non-empty stem followed by a dot and a dot-free, non-empty ending has that ending, dot
      included, as its suffix. With the shape `Suffix` ensures, this pins the suffix down. */
  lemma SuffixOfStem(stem: string, ext: string)
    requires stem != [] && |ext| >= 2 && ext[0] == '.' && '.' !in ext[1..]
    ensures Suffix(stem + ext) == ext
  {
    var name := stem + ext;
    var i := LastIndexOf(name, '.');
    assert name[|stem|] == '.';
    assert name[|stem| + 1..] == ext[1..];
    assert name[|stem|..] == ext;
  }

  /** Hidden files and names ending in a dot have no suffix; only the last dot counts. */
  lemma SuffixExamples()
    ensures Suffix(".png") == []
    ensures Suffix("foto.") == []
    ensures Suffix("IMG_01.JPG") == ".JPG"
    ensures Suffix("kaart.tar.gz") == ".gz"
  {
    assert LastIndexOf(".png", '.') == 0;
    assert LastIndexOf("foto.", '.') == 4;
    SuffixOfStem("IMG_01", ".JPG");
    assert "IMG_01" + ".JPG" == "IMG_01.JPG";
    SuffixOfStem("kaart.tar", ".gz");
    assert "kaart.tar" + ".gz" == "kaart.tar.gz";
  }

  /** A file the gallery takes: its lower-cased suffix is an image suffix, and it lies in a
      sub-folder (the base folder's own files are skipped). */
  predicate IsGalleryImage(e: FileEntry) {
    Lower(Suffix(e.name)) in ImageExts && (IncludeRootFiles || e.dir != "")
  }

  /** Every file of a sub-folder named stem plus image suffix, in any case, is taken. */
  lemma GalleryImageOfStem(dir: string, stem: string, ext: string)
    requires dir != "" && stem != [] && Lower(ext) in ImageExts
    ensures IsGalleryImage(FileEntry(dir, stem + ext))
  {
    var k :| 0 <= k < |ImageExts| && ImageExts[k] == Lower(ext);
    assert forall j :: 1 <= j < |ext| ==> Lower(ext)[j] != '.';
    assert ext[0] == '.' by { assert Lower(ext)[0] == '.'; }
    assert '.' !in ext[1..] by {
      forall j | 0 <= j < |ext[1..]| ensures ext[1..][j] != '.' {
        assert Lower(ext)[j + 1] != '.';
      }
    }
    SuffixOfStem(stem, ext);
  }

  /** A taken file lies in a sub-folder, and its lower-cased name ends in an image suffix that
      is shorter than the name. */
  lemma GalleryImageShape(e: FileEntry)
    requires IsGalleryImage(e)
    ensures e.dir != ""
    ensures exists k :: 0 <= k < |ImageExts| && EndsWith(Lower(e.name), ImageExts[k]) && |ImageExts[k]| < |e.name|
  {
    var sfx := Suffix(e.name);
    var k :| 0 <= k < |ImageExts| && ImageExts[k] == Lower(sfx);
    LowerEndsWith(e.name, sfx);
    assert EndsWith(Lower(e.name), ImageExts[k]) && |ImageExts[k]| < |e.name|;
  }

  /** `collect_images`: the relative paths of the taken files, sorted by their lower-cased text. */
  function CollectImages(files: seq<FileEntry>): (r: seq<string>)
    ensures SortedBy(r, Lower)
    ensures multiset(r) == multiset(RelPaths(Filter(files, IsGalleryImage)))
  {
    SortBy(RelPaths(Filter(files, IsGalleryImage)), Lower)
  }

  /** Every taken file's relative path is collected. */
  lemma CollectImagesComplete(files: seq<FileEntry>, i: nat)
    requires i < |files| && IsGalleryImage(files[i])
    ensures RelPath(files[i]) in CollectImages(files)
  {
    var images := Filter(files, IsGalleryImage);
    var paths := RelPaths(images);
    var k :| 0 <= k < |images| && images[k] == files[i];
    assert paths[k] == RelPath(files[i]);
    assert RelPath(files[i]) in multiset(paths);
  }

  /** Every collected path is the relative path of a taken file, which lies in a sub-folder:
      no file of the base folder itself is collected. */
  lemma CollectImagesSound(files: seq<FileEntry>, x: string)
    requires x in CollectImages(files)
    ensures exists i :: 0 <= i < |files| && IsGalleryImage(files[i]) && files[i].dir != "" && RelPath(files[i]) == x
  {
    var images := Filter(files, IsGalleryImage);
    var paths := RelPaths(images);
    assert x in multiset(paths);
    var k :| 0 <= k < |paths| && paths[k] == x;
    assert images[k] in files;
    var i :| 0 <= i < |files| && files[i] == images[k];
    assert IsGalleryImage(files[i]);
  }

  /** The figure of one image. */
  function Block(image: string): string {
    Figure(Safe(image))
  }

  /** One figure per image, in order. */
  function Blocks(images: seq<string>): (r: seq<string>)
    ensures |r| == |images|
    ensures forall k :: 0 <= k < |images| ==> r[k] == Figure(Safe(images[k]))
  {
    Map(images, Block)
  }

  /** The figures of `images` between a head and a tail, concatenated. */
  function Framed(head: string, images: seq<string>, tail: string): string {
    Join("", [head] + Blocks(images) + [tail])
  }

  /** `build_html`: `"".join([head] + blocks + [tail])`. */
  function BuildHtml(images: seq<string>): string {
    Framed(GalleryHead, images, GalleryTail)
  }

  /** Framed figures are the head, the figures and the tail; with no images, head and tail. */
  lemma FramedLayout(head: string, images: seq<string>, tail: string)
    ensures Framed(head, images, tail) == head + Join("", Blocks(images)) + tail
    ensures images == [] ==> Framed(head, images, tail) == head + tail
  {
    var blocks := Blocks(images);
    JoinNoSepFramed(head, blocks, tail);
    if images == [] {
      assert blocks == [];
    }
  }

  /** The figure of image `k` stands between the head with the figures of the images before it
      and the figures of the images after it with the tail. */
  lemma FramedFigureAt(head: string, images: seq<string>, tail: string, k: nat)
    requires k < |images|
    ensures Framed(head, images, tail)
         == head + Join("", Blocks(images[..k])) + Figure(Safe(images[k])) + Join("", Blocks(images[k + 1..])) + tail
  {
    var blocks := Blocks(images);
    JoinNoSepFramedAt(head, blocks, tail, k);
    MapTake(images, Block, k);
    MapDrop(images, Block, k + 1);
  }

  /** The gallery page is its head, one figure per image in order, and its tail. */
  lemma PageLayout(images: seq<string>)
    ensures BuildHtml(images) == GalleryHead + Join("", Blocks(images)) + GalleryTail
    ensures images == [] ==> BuildHtml(images) == GalleryHead + GalleryTail
  {
    FramedLayout(GalleryHead, images, GalleryTail);
  }

  /** On the gallery page, the figure of image `k` has exactly the figures of the earlier images
      before it and those of the later images after it. */
  lemma PageFigureAt(images: seq<string>, k: nat)
    requires k < |images|
    ensures BuildHtml(images)
         == GalleryHead + Join("", Blocks(images[..k])) + Figure(Safe(images[k]))
            + Join("", Blocks(images[k + 1..])) + GalleryTail
  {
    FramedFigureAt(GalleryHead, images, GalleryTail, k);
  }

  /** `main`'s page for the files met by the walk. */
  function Gallery(files: seq<FileEntry>): string {
    BuildHtml(CollectImages(files))
  }

  /** Every image has its figure among the framed figures. */
  lemma FramedShowsImage(head: string, images: seq<string>, tail: string, x: string)
    requires x in images
    ensures Occurs(Framed(head, images, tail), Figure(Safe(x)))
  {
    var k :| 0 <= k < |images| && images[k] == x;
    FramedFigureAt(head, images, tail, k);
    var pre, post := head + Join("", Blocks(images[..k])), Join("", Blocks(images[k + 1..])) + tail;
    ConcatAssoc3(pre + Figure(Safe(x)), Join("", Blocks(images[k + 1..])), tail);
    OccursAtMiddle(pre, Figure(Safe(x)), post);
  }

  /** Every taken file has its figure on the gallery page. */
  lemma GalleryShowsEveryImage(files: seq<FileEntry>, i: nat)
    requires i < |files| && IsGalleryImage(files[i])
    ensures Occurs(Gallery(files), Figure(Safe(RelPath(files[i]))))
  {
    CollectImagesComplete(files, i);
    FramedShowsImage(GalleryHead, CollectImages(files), GalleryTail, RelPath(files[i]));
  }
}
