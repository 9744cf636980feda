# Family photo bingo, modelled in Dafny

This project models the logic of a small family photo bingo. The app deals nine photos per card, preferring the photos of the `stedenendorpen` ("towns and villages") folder. It replays a story, given as an ordered list of photo links, against a deck of cards and logs when each card completes one line, two lines and the full card. Next to it live scripts that write static HTML pages: one index page per place folder, an overview page with one card per place, and a plain image gallery.

Everything is modelled as pure functions over immutable values:

- A directory walk or listing is an input sequence of entries.
- The descriptions file `beschrijvingen.json` is an optional JSON value.
- Session state is a value passed in and returned.
- Every random shuffle or sample is driven by an arbitrary draw function `rand: nat -> nat`. The shuffle is Python's Fisher-Yates pass, and a sample is the first `k` entries of such a shuffle.
- Paths use '/' as separator (POSIX).

Modules, in the order of the program:

- `Lines`: the eight winning lines of a 3x3 card, `count_lines` and `line_breakdown`. Short masks reproduce Python's `IndexError` under short-circuit evaluation.
- `Dealing`, `Shuffling`: the photo pool and the priority-first deal of a card.
- `Story`: splitting imported links by pool membership and grouping them into steps.
- `DayPool`: the day pool and the simulated players' cards.
- `Simulation`, `SimulationFacts`: the replay loop, and the invariant that yields its promises.
- `WinPhase`: the milestone state machine of the playing page's script.
- `SimpleBingo`: the single-page bingo at the repository root.
- `IndexTemplate`, `IndexTile`, `IndexPages`: `bingo/generate_indexes.py`.
- `PlacesTemplate`, `PlacesGallery`: `bingo/generate_gallery_html.py`.
- `DescriptionSync`: the app's "Synchroniseer beschrijvingen.json" action.
- `HtmlEscape`, `GalleryTemplate`, `GalleryFigure`, `ImageGallery`: `generate_gallery_html.py` at the root.
- `Wrappers`, `Seqs`, `Text`, `Sorting`: shared helpers. They model Python's `str.lower`, `str.title`, `str.replace`, `str.split`, `"sep".join`, `os.path.dirname` and `sorted`.

## Model

| member | source | states |
|---|---|---|
| Lines.CountLines | bingo/bingo.py:299-310 | The count on a nine-cell mask is at most 8 and equals the number of winning patterns whose three cells are all marked. |
| Lines.CountLinesExtremes | bingo/bingo.py:299-310 | An all-unmarked card has 0 lines and a fully marked card has all 8. |
| Lines.CountInMonotone | bingo/bingo.py:299-310 | Marking more cells never completes fewer lines. |
| Lines.LineBreakdown | bingo/bingo.py:385-392 | On a mask of at least nine cells the breakdown exists. Then h <= 3, v <= 3, d <= 2, and h+v+d is the number of complete winning lines, which equals `count_lines` on a nine-cell mask. |
| Lines.BreakdownOfFullMask | bingo/bingo.py:385-392 | A fully marked mask whose breakdown does not raise has at least nine cells and all eight lines. |
| Lines.ShortFullMaskRaises | bingo/bingo.py:385-392 | A fully marked card shorter than nine cells makes `line_breakdown` raise. |
| Lines.ShortEmptyMaskQuiet | bingo/bingo.py:385-392 | A short card with cells 0 to 6 unmarked does not raise: every line stops at its first, unmarked cell. |
| Lines.ProbeCountStopsAtFirst | bingo/bingo.py:389-391 | Lines whose first cell exists and is unmarked are read without raising, and none is complete. |
| Dealing.PhotoPool | bingo/bingo.py:36-46 | The pool is sorted and is a permutation of the relative paths of the sub-folder files with a photo extension. Files in the app folder itself are left out. |
| Dealing.PrioritySplit | bingo/bingo.py:48-50 | Priority and other photos partition the pool: multisets and lengths add up, and a duplicate-free pool gives disjoint lists. |
| Dealing.PickNine | bingo/bingo.py:65-77 | With at least nine priority photos, the selection is nine of them. Otherwise it holds every priority photo and has min(9, all) entries. It draws only from the two lists and is duplicate-free when they are. |
| Dealing.SelectionFacts | bingo/bingo.py:242-249 | `pick_nine` on shuffled lists is the prefix of the shuffled priority photos followed by the shuffled others, with the same guarantees as the session deal. |
| Dealing.DealSessionCard | bingo/bingo.py:52-81 | A card is dealt exactly when the pool has at least nine photos. It has nine entries, all from the pool, and is duplicate-free for a duplicate-free pool. It is a permutation of the day's selection. It holds only priority photos when there are at least nine of them, else every priority photo. |
| Dealing.SameDaySameSelection | bingo/bingo.py:60-81 | Two users on the same day differ only by the per-user reshuffle: their cards hold the same nine photos. |
| Shuffling.Shuffle | bingo/bingo.py:67-68 | A shuffle is a permutation of its input: same length, same multiset, duplicate-free when the input is. |
| Shuffling.Sample | bingo.py:25 | A sample of `k` has length `k`, is a sub-multiset of the input and is duplicate-free when the input is. |
| Story.SplitImport | bingo/bingo.py:327-329 | The valid and the invalid links each keep story order (subsequences of the links). All valid links are pool photos and no invalid link is. Together they are a permutation of the links. |
| Story.StepLabelOfPlacePhoto | bingo/bingo.py:344-346 | A photo under `stedenendorpen/<place>/...` belongs to the step `stedenendorpen/<place>`, whatever lies below. |
| Story.StepLabelOfLoosePhoto | bingo/bingo.py:344-349 | A link without a directory is a step of its own. |
| Story.AddToStep | bingo/bingo.py:350 | `setdefault(...).append(h)` keeps labels distinct, adds a new label at the end, and appends `h` to exactly the step with that label. |
| Story.GroupStepsLabels | bingo/bingo.py:342-352 | The step labels are the distinct link labels in order of first occurrence. |
| Story.GroupStepsItems | bingo/bingo.py:342-352 | Each step holds exactly the links with its label, in story order. |
| Story.EachLinkInOneStep | bingo/bingo.py:342-352 | Every valid link lies in exactly one step, the one labelled with its step label. |
| DayPool.MakeDayPool | bingo/bingo.py:359-366 | The day pool has min(size, all photos) entries. It is a prefix of the shuffled priority photos followed by the shuffled others: priority photos come first, then others. It is duplicate-free when the inputs are. |
| DayPool.MakeCard | bingo/bingo.py:368-371 | A pool of fewer than nine gives a copy of the pool. Otherwise the card is nine entries drawn from the pool, duplicate-free when the pool is. |
| DayPool.CardsFromDayPool | bingo/bingo.py:372 | Every simulated card is made of day-pool photos. |
| Simulation.Mark | bingo/bingo.py:399-403 | A card's marks grow by exactly the revealed photos it holds. |
| Simulation.CardEvents | bingo/bingo.py:414-443 | A card's events at a step carry that step and card number, come in milestone order, are only for milestones not yet logged, and "Volle kaart" only for a fully marked card. |
| Simulation.CardEventsExactly | bingo/bingo.py:414-443 | A milestone is logged at a step exactly when the card reaches it then for the first time. |
| Simulation.StepTally | bingo/bingo.py:445-456 | A step's counts nest: full <= two lines <= one line <= cards, and each direction count is at most the one-line count. |
| Simulation.EvaluateCards | bingo/bingo.py:408-411 | The evaluation fails exactly when `line_breakdown` raises on some card. Otherwise each card's breakdown is `line_breakdown` of its mask, and its full flag is `all(mask)`. |
| Simulation.StepOnce | bingo/bingo.py:397-471 | One step appends one result with the step number and label and nested counts. It extends the events with events of this step only, grows every card's marks by the revealed photos it holds, and never clears a flag. It cannot fail when every card has nine photos. |
| SimulationFacts.MarksOnlyGrow | bingo/bingo.py:399-403 | What a card has marked after `a` steps it still has after any later step. |
| SimulationFacts.MilestonesInOrder | bingo/bingo.py:414-443 | For each card, later events are for strictly higher milestones, at steps that never go back. |
| SimulationFacts.MilestoneAtMostOnce | bingo/bingo.py:414-443 | No card logs the same milestone twice. |
| SimulationFacts.EventIffFlag | bingo/bingo.py:414-443 | A card has logged a milestone exactly when its `has_...` flag is set at the end. |
| SimulationFacts.StepCountsNest | bingo/bingo.py:458-467 | There is one result per step, numbered from 1 and labelled with the step's folder, and every step's counts nest. |
| SimulationFacts.FirstBingoIsFirstLine | bingo/bingo.py:469-471 | `first_bingo_step` is the first step with a one-line card, with that step's count. It stays unset exactly when no step has one. |
| SimulationFacts.FullCardMeansAllRevealed | bingo/bingo.py:434-443 | A "Volle kaart" event means every photo of that card was revealed by that step. |
| SimulationFacts.NoFullCardWithoutReveal | bingo/bingo.py:434-443 | A card holding a photo that no step reveals never logs "Volle kaart". |
| SimulationFacts.FullCardsNeverRaise | bingo/bingo.py:385-392 | When every card has nine photos the replay never raises. |
| SimulationFacts.ShortCardRaisesWhenFull | bingo/bingo.py:368-371 | An eight-photo fallback card survives a step that reveals nothing, but the replay raises at the step that completes it. |
| WinPhase.CountSelected | bingo/bingo.py:204 | The selected count is at most the number of items and equals it exactly when all are selected. |
| WinPhase.Toggle | bingo/bingo.py:195-215 | A click flips exactly the clicked item. The phase stays or rises by one, and it rises exactly when the next milestone's guard holds after the flip: 1 line from phase 0, 2 lines from phase 1, all 9 selected from phase 2. Something is announced exactly when the phase rises. |
| WinPhase.ToggleTwice | bingo/bingo.py:196-197 | Clicking the same item twice restores the selection. |
| WinPhase.PlayPhases | bingo/bingo.py:195-215 | Over any sequence of clicks the phase never exceeds 3 and equals the number of announcements, so each milestone is announced at most once. |
| WinPhase.ShortGridNeverFull | bingo/bingo.py:184-191 | With fewer than nine items on the grid the full-card prize is never announced. |
| WinPhase.LastItemWinsFullCard | bingo/bingo.py:213-214 | In phase 2 on a nine-item grid, selecting the last unselected item announces the full card. |
| WinPhase.DeselectCanAnnounce | bingo/bingo.py:195-212 | A click that deselects an item can still announce a milestone, here the two-line one. |
| SimpleBingo.AllPhotos | bingo.py:18 | The photos are the listing's names whose lower-cased form ends in png, jpg or jpeg, in listing order. |
| SimpleBingo.DotlessEndingIsPhoto | bingo.py:18 | Without a dot in the endings, "xpng" counts as a photo, while "notes.txt" does not. |
| SimpleBingo.PageRun | bingo.py:20-26 | Fewer than nine photos shows a warning and leaves the session alone. Otherwise a card of nine photos from the listing is dealt if there is none, duplicate-free for a duplicate-free listing, with nine cleared marks. The bingo message shows exactly when all marks are set. |
| SimpleBingo.ToggleFound | bingo.py:43 | A click flips only the clicked cell's mark. |
| SimpleBingo.ToggleTwice | bingo.py:43 | Clicking a cell twice restores the session. |
| SimpleBingo.BingoNeedsAllNine | bingo.py:53-55 | After a click the message shows exactly when the clicked cell was the last unmarked one. |
| SimpleBingo.NewCard | bingo.py:57-59 | "Nieuwe kaart" fails exactly when there is no card, and otherwise drops the card. |
| SimpleBingo.NewCardClearsMarks | bingo.py:24-26 | After "Nieuwe kaart" the next run deals a fresh card with all marks cleared and no bingo. |
| IndexPages.CollectImages | bingo/generate_indexes.py:48-57 | The images are sorted and are a permutation of the relative paths of the files whose lower-cased name ends in .png, .jpg, .jpeg or .webp. |
| IndexPages.CollectImagesExactly | bingo/generate_indexes.py:48-57 | Every image file is listed, and every listed path belongs to an image file. |
| IndexPages.PageTitle | bingo/generate_indexes.py:60-61 | The title is the place name with '-' and '_' as spaces, title-cased, followed by " — Fotoverslag". |
| IndexPages.PageTitleShowsName | bingo/generate_indexes.py:60-61 | The title shows the place name up to letter case, with '-' and '_' as spaces. |
| IndexPages.PageTitleIgnoresSeparators | bingo/generate_indexes.py:60-61 | Names differing only in '-' versus '_' get the same title. |
| IndexPages.BodyParts | bingo/generate_indexes.py:65-79 | With the gallery on and images, the body is the grid opening, one tile per image in order, and the grid closing. Otherwise it is exactly the placeholder paragraph. |
| IndexPages.PageLines | bingo/generate_indexes.py:81 | Between head and tail the page holds its parts one per line: cutting at line breaks gives them back. |
| IndexPages.PageListsTiles | bingo/generate_indexes.py:66-81 | Whatever its head and tail, a page with a gallery body has one line per body part, and the line after the grid opening for image k is that image's tile, read back field by field at its double quotes. |
| IndexPages.GalleryListsImages | bingo/generate_indexes.py:66-77 | With the gallery on, line k+1 of the body is image k's tile, whose href, src, alt and caption all read back as the image path. |
| IndexPages.NoGalleryPlaceholder | bingo/generate_indexes.py:78-81 | With the gallery off or no images, the page is the head, the placeholder and the tail. |
| IndexTile.TileFields | bingo/generate_indexes.py:70-76 | Cutting a tile at its double quotes gives the link target, image source, alternative text and caption back as the path. |
| IndexPages.WalkWrites | bingo/generate_indexes.py:102-117 | The pages written are those of the places to write, in listing order. |
| IndexPages.WalkSkipped | bingo/generate_indexes.py:107-110 | Only folders that already hold an index.html are skipped, and only without --overwrite. |
| IndexPages.MainCounts | bingo/generate_indexes.py:102-127 | Non-folders count nowhere. Without --overwrite, folders with an index.html are skipped and the others created. With it, every folder counts as updated. |
| IndexPages.MainWrites | bingo/generate_indexes.py:102-117 | Pages are written in name order, one per place to write, each being the page of its place. |
| IndexPages.ToWriteExactly | bingo/generate_indexes.py:102-110 | The places written are exactly the folders without an index.html, plus those with one under --overwrite. |
| IndexPages.OverwriteCountsNewPlaceAsUpdated | bingo/generate_indexes.py:119-127 | As written, with --overwrite a folder without an index.html is reported as updated. |
| IndexPages.CorrectedCounts | bingo/generate_indexes.py:119-127 | Counted by presence before the write: created counts the folders without an index.html, updated those overwritten, skipped those left alone. |
| IndexPages.CorrectedCountsNewPlaceAsCreated | bingo/generate_indexes.py:119-127 | Corrected, the new folder of the example counts as created. |
| PlacesGallery.Or | bingo/generate_gallery_html.py:81 | Python's `or` on looked-up values: a truthy left side is the result; the result is truthy exactly when either side is, and is always one of them. |
| PlacesGallery.LoadDescriptions | bingo/generate_gallery_html.py:53-62 | A JSON object gives its entries; anything else gives the empty map. |
| PlacesGallery.DescriptionChain | bingo/generate_gallery_html.py:75-86 | The folder name, the shown name and the title-cased name are tried in order and the first truthy entry wins (its text if a string, else ''). Failing that, a string `_default` with every '{plaats}' replaced by the shown name. Else ''. |
| PlacesGallery.NumberEntryHidesDefault | bingo/generate_gallery_html.py:81-86 | A truthy non-string entry wins the lookup and shows no description, although a `_default` exists. |
| PlacesGallery.FirstInFolder | bingo/generate_gallery_html.py:69-71 | A folder gives no image exactly when none of its files has an image extension. Otherwise it gives one of its image files that sorts first among them. |
| PlacesGallery.FirstImage | bingo/generate_gallery_html.py:66-72 | No image exactly when every folder of the walk has none. Otherwise the first image of the first folder that holds one. |
| PlacesGallery.RelIndexInPlaceFolder | bingo/generate_gallery_html.py:77-78 | The card's link target lies in the places folder, in the place's own folder, and names its index.html. |
| PlacesGallery.CardShows | bingo/generate_gallery_html.py:102-112 | A card opens with the link, holds the thumbnail part, the heading and the description, and closes the link. |
| PlacesGallery.CardOfPlace | bingo/generate_gallery_html.py:75-112 | A place's card links to its index page and shows the shown name as heading and its description. With thumbnails and an image found, it shows the thumbnail under `stedenendorpen/<name>/`. Without thumbnails or without any image, it shows the `no-thumb` block with the shown name. |
| PlacesGallery.PlacesExactly | bingo/generate_gallery_html.py:131 | The places are exactly the folders of the listing (and they are sorted). |
| PlacesGallery.Cards | bingo/generate_gallery_html.py:140-143 | One card per place, in order, each the card of its place. |
| PlacesGallery.OverviewLayout | bingo/generate_gallery_html.py:138-148 | The page is head, cards and tail, each on its own line: card k has the head and the earlier cards before it and the later cards and the tail after it. |
| PlacesGallery.Main | bingo/generate_gallery_html.py:125-127 | Without the places folder the run fails with status 2; otherwise it succeeds with status 0. |
| PlacesGallery.MainShowsEveryPlace | bingo/generate_gallery_html.py:129-148 | Every folder of the listing has its card on the page, at its sorted position between head and tail. |
| DescriptionSync.EnsureDefault | bingo/bingo.py:718-721 | The result has a string `_default`. An existing string template is kept as is; otherwise the fallback text is stored. No other entry changes. |
| DescriptionSync.AddMissing | bingo/bingo.py:729-737 | Existing entries keep their text. Every place gets an entry, and only places are added, each with the template filled with its shown name. The added names are exactly the places that had none, without repeats and in folder order. |
| DescriptionSync.RemoveOrphans | bingo/bingo.py:739-745 | Exactly the orphaned keys other than `_default` are removed. The rest keep their text. |
| DescriptionSync.SyncWith | bingo/bingo.py:698-745 | Fails exactly without the places folder. The action's guarantees hold: a string `_default`; with adding on, every place has an entry and the added names are exactly the places that had none; kept entries are unchanged; with removal on, the removed keys are exactly the orphans other than `_default`, and they leave the file; a place name is never removed; nothing is removed without removal switched on; every key written was in the file or is a place, and a key new to the file is among the added names, so nothing is added without adding switched on. |
| DescriptionSync.AsWrittenRemovesUsedEntry | bingo/bingo.py:742-745 | As written, the entry "Den Haag" that the overview shows for folder "den-haag" is removed as orphaned. |
| DescriptionSync.CorrectedKeepsUsedEntries | bingo/bingo.py:742-745 | Judged by the lookup keys, an entry that the overview card or the app's index generator looks up for some place is never removed. |
| DescriptionSync.CorrectedKeepsSpacedName | bingo/bingo.py:603-606 | The entry "den haag", which the app's index generator reads for the folder "den-haag", is kept by the corrected rule. |
| HtmlEscape.UnescapeEscape | generate_gallery_html.py:73 | Escaping loses nothing: unescaping the five references gives the text back. |
| HtmlEscape.EscapeSafe | generate_gallery_html.py:73 | Escaped text holds no '<', '>', '"' or "'". |
| HtmlEscape.EscapePlain | generate_gallery_html.py:73 | Text without special characters is left as it is. |
| GalleryFigure.FigureFields | generate_gallery_html.py:74-80 | Cutting a figure at its double quotes gives link target, image source, alternative text and caption, all equal to the escaped path. |
| GalleryFigure.FigureOfPath | generate_gallery_html.py:71-80 | A path's figure has the escaped path in all four places, and it reads back as the path with '/' for every backslash. |
| ImageGallery.Suffix | generate_gallery_html.py:23 | The suffix is empty or is a final '.' part that is shorter than the name, holds no other dot and ends the name. |
| ImageGallery.SuffixOfStem | generate_gallery_html.py:23 | A non-empty stem followed by a dotted extension has that extension as its suffix. |
| ImageGallery.SuffixExamples | generate_gallery_html.py:23 | ".png" and "foto." have no suffix; "IMG_01.JPG" has ".JPG"; "kaart.tar.gz" has ".gz". |
| ImageGallery.GalleryImageOfStem | generate_gallery_html.py:11-27 | Every file in a sub-folder named stem plus an image extension, in any case, is taken. |
| ImageGallery.GalleryImageShape | generate_gallery_html.py:9-27 | A taken file lies in a sub-folder, and its lower-cased name ends in one of the eight extensions. |
| ImageGallery.CollectImages | generate_gallery_html.py:15-30 | The images are sorted by lower-cased relative path and are a permutation of the taken files' paths. |
| ImageGallery.CollectImagesComplete | generate_gallery_html.py:15-30 | Every taken file is collected. |
| ImageGallery.CollectImagesSound | generate_gallery_html.py:15-30 | Every collected path is a taken file in a sub-folder, never a file of the base folder itself. |
| ImageGallery.Blocks | generate_gallery_html.py:69-81 | One figure per image, in order. |
| ImageGallery.FramedLayout | generate_gallery_html.py:69-83 | The page is head, figures and tail; with no images, head and tail. |
| ImageGallery.FramedFigureAt | generate_gallery_html.py:69-83 | Figure k sits right after the head and the earlier figures and before the later ones and the tail. |
| ImageGallery.PageFigureAt | generate_gallery_html.py:32-83 | On the gallery page, figure k sits between the head with the earlier figures and the later figures with the tail. |
| ImageGallery.GalleryShowsEveryImage | generate_gallery_html.py:15-83 | Every taken file has its figure on the gallery page. |

## Left out

- Streamlit calls, page reruns, messages (`st.warning`, `st.success`, "Geen afbeeldingen gevonden", printed counts) and the expanders listing added and removed names are not modelled. Only the values they show are.
- File I/O, `os.walk`, `os.listdir`, base64 loading, JSON parsing and dumping are not modelled. They are inputs: entry sequences, a walk of folders, an optional JSON value. A descriptions file that is missing or unreadable is `None`.
- Randomness: the internals of `random.seed`, `random.shuffle` and `random.sample`, and the date-derived seed, are not modelled. Draws are an arbitrary function, and "same day" means the same draw functions.
- The confetti, sound, alert and CSS parts of the page script are left out, and so are the print-cards HTML of the app and the landkaart (map image) lookup. The playing page's script is modelled only through its `toggle` state machine.
- The regex-based href extraction and the `wrap_figures` beautifier are left out. The model starts from the extracted links.
- The app's own index generator (bingo/bingo.py, "Genereer index.html bestanden") is not modelled. Its walk, skipping and counting follow bingo/generate_indexes.py, which is modelled, but it differs in what it writes: it reads `beschrijvingen.json` and looks up a description under the folder name, the name with '-' and '_' as spaces and the title-cased name, falling back to a string `_default` with '{plaats}' filled in and then to the fixed text, and its footer names the Bingo tool. Only its lookup keys enter the model, through `DescriptionSync.LookupKeysOf`.
- Template texts (page heads and tails) are constants. Their contents are not reasoned about beyond layout.
- Text.Title, Text.Lower: ASCII models of `str.title` and `str.lower`. Non-ASCII letters are treated as non-letters, and Unicode case rules are not modelled.
- Sorting.SortBy: Python's `sort` is stable on equal keys, and the model's insertion sort does not promise any order between entries with equal keys. For the lower-cased gallery sort, that order is left open.
- ImageGallery.CollectImages: paths that are equal after lower-casing keep their walk order in Python's stable sort; the model promises the sorted order and the permutation but not the order among such paths, because its insertion sort is not proved stable.
- PlacesGallery.CardOfPlace: the thumbnail path uses '/' as `os.path.join` does on POSIX. The `if first_img_abs` test is modelled as "an image was found", because a found path is never empty.
- DescriptionSync.RemoveOrphans: the removed keys are returned as a set. The order in which the app lists them (sorted) is not modelled.
- DescriptionSync.SyncWith: a failure to write the file back is an I/O error and is not modelled.
- `count_lines` is documented for nine-cell masks; `Lines.CountLines` requires nine cells. `line_breakdown`, which the app calls, is modelled for masks of any length.

## Findings

| source | as written | input that shows it | evidently intended | confidence | as-written member | corrected member |
|---|---|---|---|---|---|---|
| bingo/generate_indexes.py:119-127 | The counter tests `os.path.exists(index_path)` after writing the file, so with `--overwrite` every written page counts as "updated". | A folder `amersfoort` without index.html, run with `--overwrite`: reported as updated, created 0. | Count by whether index.html existed before the write: a new page is "created". | medium, not executed | IndexPages.OverwriteCountsNewPlaceAsUpdated | IndexPages.CorrectedCounts |
| bingo/bingo.py:742-745 | An entry is an orphan when the key, `key.title()` and `key.replace(' ', '-')` are all missing from the folder names, so a key spelled as the shown name of a lower-case folder is removed. | Descriptions `{"Den Haag": "Hofstad"}` and the folder `den-haag`: the overview card for `den-haag` shows "Hofstad", yet the sync removes "Den Haag". | Remove only entries that no reader of the file looks up for any place: the key is none of a folder's name, the name with '-' and '_' as spaces (the app's index generator), the shown name (the overview card) and `name.title()` (both). | medium, not executed | DescriptionSync.AsWrittenRemovesUsedEntry | DescriptionSync.CorrectedKeepsUsedEntries |
