/** The single-page family photo bingo (bingo.py at the repository root): nine random photos
    from one folder, one found/not-found mark per cell, and a full-card check. Each page run
    reads the folder listing and the session; the session is passed in and returned. */
module SimpleBingo {
  import opened Wrappers
  import opened Seqs
  import opened Text
  import opened Shuffling

  /** The endings the photo filter accepts. They carry no dot, so any name ending in these
      letters passes. */
  const PhotoEndings: seq<string> := ["png", "jpg", "jpeg"]

  /** `f.lower().endswith(('png', 'jpg', 'jpeg'))` */
  predicate IsPhotoName(f: string) {
    EndsWithAny(Lower(f), PhotoEndings)
  }

  /** `all_photos`: the listing's photo names, in listing order. */
  function AllPhotos(listing: seq<string>): (r: seq<string>)
    ensures forall i :: 0 <= i < |r| ==> r[i] in listing && IsPhotoName(r[i])
    ensures forall i :: 0 <= i < |listing| && IsPhotoName(listing[i]) ==> listing[i] in r
    ensures IsSubsequence(r, listing)
  {
    FilterIsSubsequence(listing, IsPhotoName);
    Filter(listing, IsPhotoName)
  }

  /** A name without a dot before its ending still counts as a photo. */
  lemma DotlessEndingIsPhoto()
    ensures IsPhotoName("xpng")
    ensures IsPhotoName("IMG.JPEG")
    ensures !IsPhotoName("notes.txt")
  {
    assert Lower("xpng") == "xpng";
    assert EndsWith(Lower("xpng"), PhotoEndings[0]);
    assert Lower("IMG.JPEG") == "img.jpeg";
    assert EndsWith(Lower("IMG.JPEG"), PhotoEndings[2]);
    assert Lower("notes.txt") == "notes.txt";
  }

  /** `st.session_state`: the dealt card (`my_cards`, absent before the first deal and after
      "Nieuwe kaart") and the marks (`found`). */
  datatype Session = Session(card: Option<seq<string>>, found: seq<bool>)

  /** What a page run shows: the warning about too few photos, or the grid with its marks and
      whether the bingo message appears. */
  datatype View = TooFewPhotos | Grid(card: seq<string>, found: seq<bool>, bingo: bool)

  datatype Run = Run(session: Session, view: View)

  /** A session holding a card of nine photos and nine marks. */
  predicate Dealt(s: Session) {
    s.card.Some? && |s.card.value| == 9 && |s.found| == 9
  }

  /** `all(st.session_state.found)` */
  predicate AllFound(found: seq<bool>) {
    forall i :: 0 <= i < |found| ==> found[i]
  }

  /** One page run over the folder `listing`: with fewer than nine photos only a warning; else a
      card is dealt if the session has none (`random.sample(all_photos, 9)`, all marks cleared)
      and the grid is shown with the bingo message exactly when all marks are set. */
  function PageRun(s: Session, listing: seq<string>, rand: nat -> nat): (r: Run)
    requires s.card.Some? ==> Dealt(s)
    ensures |AllPhotos(listing)| < 9 ==> r == Run(s, TooFewPhotos)
    ensures |AllPhotos(listing)| >= 9 ==> Dealt(r.session) && r.view.Grid?
    ensures r.view.Grid? ==> r.view.card == r.session.card.value && r.view.found == r.session.found
    ensures r.view.Grid? ==> (r.view.bingo <==> AllFound(r.session.found))
    ensures s.card.Some? ==> r.session == s
    ensures s.card.None? && r.view.Grid? ==>
              && (forall i :: 0 <= i < 9 ==> !r.session.found[i])
              && (forall i :: 0 <= i < 9 ==> r.session.card.value[i] in AllPhotos(listing))
              && (Distinct(listing) ==> Distinct(r.session.card.value))
  {
    var photos := AllPhotos(listing);
    if |photos| < 9 then Run(s, TooFewPhotos)
    else if s.card.Some? then Run(s, Grid(s.card.value, s.found, AllFound(s.found)))
    else
      var card := Deal(photos, rand);
      var found := seq(9, _ => false);
      assert Distinct(listing) ==> Distinct(card) by {
        if Distinct(listing) { FilterDistinct(listing, IsPhotoName); }
      }
      Run(Session(Some(card), found), Grid(card, found, AllFound(found)))
  }

  /** `random.sample(all_photos, 9)` */
  function Deal(photos: seq<string>, rand: nat -> nat): (card: seq<string>)
    requires |photos| >= 9
    ensures |card| == 9
    ensures forall i :: 0 <= i < 9 ==> card[i] in photos
    ensures Distinct(photos) ==> Distinct(card)
  {
    SampleFrom(photos, 9, rand);
    Sample(photos, 9, rand)
  }

  /** Clicking the button of cell `i`: `found[i] = not found[i]`. */
  function ToggleFound(s: Session, i: nat): (r: Session)
    requires Dealt(s) && i < 9
    ensures Dealt(r) && r.card == s.card
    ensures r.found[i] == !s.found[i]
    ensures forall j :: 0 <= j < 9 && j != i ==> r.found[j] == s.found[j]
  {
    Session(s.card, s.found[i := !s.found[i]])
  }

  /** Clicking a cell twice restores the marks. */
  lemma ToggleTwice(s: Session, i: nat)
    requires Dealt(s) && i < 9
    ensures ToggleFound(ToggleFound(s, i), i) == s
  {
  }

  /** The bingo message shows exactly when all nine cells are marked: a click completes the card
      only if the clicked cell was the last unmarked one. */
  lemma BingoNeedsAllNine(s: Session, i: nat, listing: seq<string>, rand: nat -> nat)
    requires Dealt(s) && i < 9 && |AllPhotos(listing)| >= 9
    ensures PageRun(ToggleFound(s, i), listing, rand).view.bingo
            <==> !s.found[i] && forall j :: 0 <= j < 9 && j != i ==> s.found[j]
  {
    var t := ToggleFound(s, i);
    if AllFound(t.found) {
      forall j | 0 <= j < 9 && j != i ensures s.found[j] {
        assert t.found[j] == s.found[j];
      }
    }
  }

  /** The error `del st.session_state.my_cards` raises when there is no card. */
  datatype NewCardError = NoCardToDelete

  /** "Nieuwe kaart genereren": drop the card. The marks stay, but the next page run deals a new
      card and clears them. */
  function NewCard(s: Session): (r: Result<Session, NewCardError>)
    ensures s.card.None? <==> r.Err?
    ensures r.Ok? ==> r.value.card.None? && r.value.found == s.found
  {
    if s.card.None? then Err(NoCardToDelete) else Ok(Session(None, s.found))
  }

  /** After "Nieuwe kaart", the next page run with enough photos shows a fresh, unmarked card. */
  lemma NewCardClearsMarks(s: Session, listing: seq<string>, rand: nat -> nat)
    requires Dealt(s) && |AllPhotos(listing)| >= 9
    ensures NewCard(s).Ok?
    ensures var r := PageRun(NewCard(s).value, listing, rand);
            Dealt(r.session) && !r.view.bingo
            && forall i :: 0 <= i < 9 ==> !r.session.found[i]
  {
    var n := NewCard(s).value;
    var r := PageRun(n, listing, rand);
    assert !r.session.found[0];
  }
}
