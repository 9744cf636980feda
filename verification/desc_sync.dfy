/** Synchronising 'beschrijvingen.json' with the place folders (bingo/bingo.py, the
    "Synchroniseer beschrijvingen.json" button): make sure a '_default' template exists, add an
    entry filled from it for every place folder without one, and optionally drop the entries of
    folders that no longer exist. The descriptions file and the listing are passed in; the
    written file is the returned map. */
module DescriptionSync {
  import opened Wrappers
  import opened Seqs
  import opened Text
  import opened Sorting
  import opened PlacesGallery

  /** The template stored when the file has no string '_default' entry. */
  const FallbackTemplate: string :=
    "Welkom! Dit is een korte pagina over {plaats}. Hieronder vind je een selectie afbeeldingen uit deze map."

  /** The description an added place gets: the template with every '{plaats}' replaced by the
      shown name. */
  function Fill(tpl: string, name: string): string {
    ReplaceAll(tpl, PlacePlaceholder, DisplayName(name))
  }

  /** The descriptions with a string '_default' entry, and that template. An existing string
      template is kept; anything else under '_default' is replaced by the fallback. */
  function EnsureDefault(data: map<string, Json>): (r: (map<string, Json>, string))
    ensures DefaultKey in r.0 && r.0[DefaultKey] == JString(r.1)
    ensures forall k :: k != DefaultKey ==> (k in r.0 <==> k in data)
    ensures forall k :: k in data && k != DefaultKey ==> r.0[k] == data[k]
    ensures DefaultKey in data && data[DefaultKey].JString? ==> r == (data, data[DefaultKey].s)
    ensures !(DefaultKey in data && data[DefaultKey].JString?) ==> r.1 == FallbackTemplate
  {
    if DefaultKey in data && data[DefaultKey].JString? then (data, data[DefaultKey].s)
    else (data[DefaultKey := JString(FallbackTemplate)], FallbackTemplate)
  }

  /** The loop over the place folders that adds the missing ones: the new descriptions and the
      names added, in folder order. */
  function AddMissing(data: map<string, Json>, places: seq<string>, tpl: string): (r: (map<string, Json>, seq<string>))
    decreases |places|
    ensures forall k :: k in data ==> k in r.0 && r.0[k] == data[k]
    ensures forall k :: k in r.0 ==> k in data || k in places
    ensures forall i :: 0 <= i < |places| ==> places[i] in r.0
    ensures forall k :: k in r.0 && k !in data ==> r.0[k] == JString(Fill(tpl, k))
    ensures forall x :: x in r.1 <==> x in places && x !in data
    ensures Distinct(r.1)
    ensures IsSubsequence(r.1, places)
  {
    if places == [] then (data, [])
    else
      var name := places[0];
      assert forall i :: 1 <= i < |places| ==> places[i] == places[1..][i - 1];
      if name in data then
        SubsequenceSkip(name, AddMissing(data, places[1..], tpl).1, places[1..]);
        assert [name] + places[1..] == places;
        AddMissing(data, places[1..], tpl)
      else
        var (d, added) := AddMissing(data[name := JString(Fill(tpl, name))], places[1..], tpl);
        assert name !in added;
        SubsequenceCons(name, added, places[1..]);
        assert [name] + places[1..] == places;
        (d, [name] + added)
  }

  /** How an entry is judged to have no folder. `AsWritten` is the script's test: the key, its
      title-cased form and the key with spaces turned into '-' are all absent from the folder
      names. `LookupKeys` treats an entry as orphaned only when no reader of the file would look
      it up for any place: the key is none of the keys `LookupKeysOf` lists for a folder. */
  datatype OrphanRule = AsWritten | LookupKeys

  /** The keys under which a place's description is looked up: the overview card tries the
      folder name, the shown name and the title-cased name (bingo/generate_gallery_html.py); the
      app's index generator tries the folder name, the name with '-' and '_' as spaces and the
      title-cased name (bingo/bingo.py). */
  function LookupKeysOf(place: string): seq<string> {
    [place, PlaceName(place), DisplayName(place), Title(place)]
  }

  predicate IsOrphan(rule: OrphanRule, key: string, places: seq<string>) {
    match rule
    case AsWritten => key !in places && Title(key) !in places && ReplaceChar(key, ' ', '-') !in places
    case LookupKeys => forall i :: 0 <= i < |places| ==> key !in LookupKeysOf(places[i])
  }

  /** The loop over the sorted keys other than '_default' that drops the orphaned entries: the
      remaining descriptions and the set of keys removed. */
  function RemoveOrphans(data: map<string, Json>, places: seq<string>, rule: OrphanRule): (r: (map<string, Json>, set<string>))
    ensures r.1 <= data.Keys && DefaultKey !in r.1
    ensures forall k :: k in r.1 <==> k in data && k != DefaultKey && IsOrphan(rule, k, places)
    ensures r.0.Keys == data.Keys - r.1
    ensures forall k :: k in r.0 ==> r.0[k] == data[k]
  {
    var removed := set k | k in data.Keys && k != DefaultKey && IsOrphan(rule, k, places);
    (map k | k in data.Keys && k !in removed :: data[k], removed)
  }

  /** The outcome of a synchronisation: the descriptions written back and the names reported as
      added and removed. */
  datatype Synced = Synced(data: map<string, Json>, added: seq<string>, removed: set<string>)

  /** Why a synchronisation stops early. */
  datatype SyncFailure = NoPlacesFolder

  /** The button's action under an orphan rule. Without the places folder it stops with an
      error. Otherwise: a string '_default' entry is kept; with adding on, every place folder has
      an entry, the added names are exactly the folders that had none and each gets the filled
      template; entries that were there keep their text unless removed; with removal switched on
      exactly the orphaned keys other than '_default' are removed and leave the file, and none
      without it; a folder's own name is never removed; every key written was there before or is
      a place, and a key new to the file is one of the added names, so nothing is added without
      adding switched on. */
  function SyncWith(rule: OrphanRule, hasPlacesFolder: bool, file: Option<Json>, listing: seq<DirEntry>,
                    addMissing: bool, removeOrphans: bool): (r: Result<Synced, SyncFailure>)
    ensures r.Err? <==> !hasPlacesFolder
    ensures r.Ok? ==>
              var (start, tpl) := EnsureDefault(LoadDescriptions(file));
              var places := Places(listing);
              && DefaultKey in r.value.data && r.value.data[DefaultKey] == JString(tpl)
              && (addMissing ==> forall i :: 0 <= i < |places| ==> places[i] in r.value.data)
              && (forall x :: x in r.value.added <==> addMissing && x in places && x !in start)
              && (forall k :: k in r.value.data && k !in start ==> r.value.data[k] == JString(Fill(tpl, k)))
              && (forall k :: k in start && k !in r.value.removed ==> k in r.value.data && r.value.data[k] == start[k])
              && (forall k :: k in r.value.removed ==> k != DefaultKey && IsOrphan(rule, k, places) && k !in places)
              && (removeOrphans ==> forall k :: k in r.value.removed <==>
                    k in start && k != DefaultKey && IsOrphan(rule, k, places))
              && (forall k :: k in r.value.removed ==> k !in r.value.data)
              && (forall k :: k in r.value.data ==> k in start || k in places)
              && (forall k :: k in r.value.data && k !in start ==> k in r.value.added)
              && (!removeOrphans ==> r.value.removed == {})
  {
    if !hasPlacesFolder then Err(NoPlacesFolder)
    else
      var (withDefault, tpl) := EnsureDefault(LoadDescriptions(file));
      var places := Places(listing);
      var (added, names) := if addMissing then AddMissing(withDefault, places, tpl) else (withDefault, []);
      var (kept, removed) := if removeOrphans then RemoveOrphans(added, places, rule) else (added, {});
      assert forall k :: k in removed ==> k !in places by {
        forall k | k in removed && k in places
          ensures false
        {
          OrphanNotPlace(rule, k, places);
        }
      }
      Ok(Synced(kept, names, removed))
  }

  /** Under either rule, a folder's own name is not an orphan. */
  lemma OrphanNotPlace(rule: OrphanRule, k: string, places: seq<string>)
    requires k in places
    ensures !IsOrphan(rule, k, places)
  {
    var i :| 0 <= i < |places| && places[i] == k;
    assert k == LookupKeysOf(places[i])[0];
  }

  /** The script's synchronisation. */
  function Sync(hasPlacesFolder: bool, file: Option<Json>, listing: seq<DirEntry>, addMissing: bool,
                removeOrphans: bool): Result<Synced, SyncFailure>
  {
    SyncWith(AsWritten, hasPlacesFolder, file, listing, addMissing, removeOrphans)
  }

  /** The synchronisation with orphans judged by the keys any reader of the file looks up. */
  function SyncCorrected(hasPlacesFolder: bool, file: Option<Json>, listing: seq<DirEntry>, addMissing: bool,
                         removeOrphans: bool): Result<Synced, SyncFailure>
  {
    SyncWith(LookupKeys, hasPlacesFolder, file, listing, addMissing, removeOrphans)
  }

  /** The script drops an entry the overview page uses: the entry "Den Haag" describes the folder
      "den-haag" on the overview page, yet it is removed as orphaned. */
  lemma AsWrittenRemovesUsedEntry()
    ensures var data := map["Den Haag" := JString("Hofstad")];
            var listing := [DirEntry("den-haag", true)];
            && Description("den-haag", data) == "Hofstad"
            && "Den Haag" in Sync(true, Some(JObject(data)), listing, false, true).value.removed
  {
    var data := map["Den Haag" := JString("Hofstad")];
    var listing := [DirEntry("den-haag", true)];
    DenHaagNames();
    SingleFolderPlaces("den-haag");
    DenHaagDescription(data);
    var start := EnsureDefault(LoadDescriptions(Some(JObject(data)))).0;
    assert "Den Haag" in start;
    assert IsOrphan(AsWritten, "Den Haag", ["den-haag"]);
  }

  /** The overview page shows the "Den Haag" entry for the folder "den-haag". */
  lemma DenHaagDescription(data: map<string, Json>)
    requires data == map["Den Haag" := JString("Hofstad")]
    requires DisplayName("den-haag") == "Den Haag"
    ensures Description("den-haag", data) == "Hofstad"
  {
    assert !Truthy(Get(data, "den-haag"));
    DescriptionChain("den-haag", data);
  }

  /** A listing of a single folder has that folder as its only place. */
  lemma SingleFolderPlaces(name: string)
    ensures Places([DirEntry(name, true)]) == [name]
  {
    var listing := [DirEntry(name, true)];
    assert listing[..0] == [];
    assert SortBy(listing, DirName) == listing;
    assert Filter(listing, IsDirEntry) == listing;
  }

  /** The names the example above involves. */
  lemma DenHaagNames()
    ensures DisplayName("den-haag") == "Den Haag"
    ensures Title("Den Haag") == "Den Haag"
    ensures ReplaceChar("Den Haag", ' ', '-') == "Den-Haag"
  {
    assert PlaceName("den-haag") == "den haag";
    TitleOf("den haag");
    TitleOf("Den Haag");
  }

  /** `str.title` on the two spellings of the example. */
  lemma TitleOf(s: string)
    requires s == "den haag" || s == "Den Haag"
    ensures Title(s) == "Den Haag"
  {
    var t := Title(s);
    assert t[0] == TitleChar(s, 0);
    assert t[4] == TitleChar(s, 4);
    assert forall i :: 0 <= i < 8 && i != 0 && i != 4 ==> t[i] == TitleChar(s, i);
  }

  lemma OrphanNotLookupKey(key: string, places: seq<string>, i: nat)
    requires i < |places| && key in LookupKeysOf(places[i])
    ensures !IsOrphan(LookupKeys, key, places)
  {
  }

  /** Judged by the lookup keys, no entry that some place's card looks up is ever removed. */
  lemma CorrectedKeepsUsedEntries(file: Option<Json>, listing: seq<DirEntry>, addMissing: bool,
                                  removeOrphans: bool, i: nat, key: string)
    requires var places := Places(listing); i < |places| && key in LookupKeysOf(places[i])
    requires key in EnsureDefault(LoadDescriptions(file)).0
    ensures key in SyncCorrected(true, file, listing, addMissing, removeOrphans).value.data
  {
    OrphanNotLookupKey(key, Places(listing), i);
  }

  /** The entry "den haag", which the app's index generator reads for the folder "den-haag", is
      kept when orphans are judged by the lookup keys. */
  lemma CorrectedKeepsSpacedName()
    ensures var data := map["den haag" := JString("Hofstad")];
            "den haag" in SyncCorrected(true, Some(JObject(data)), [DirEntry("den-haag", true)], false, true).value.data
  {
    var data := map["den haag" := JString("Hofstad")];
    var listing := [DirEntry("den-haag", true)];
    SingleFolderPlaces("den-haag");
    assert PlaceName("den-haag") == "den haag";
    assert "den haag" == LookupKeysOf(Places(listing)[0])[1];
    CorrectedKeepsUsedEntries(Some(JObject(data)), listing, false, true, 0, "den haag");
  }
}
