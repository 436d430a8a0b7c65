/** The notes view: search and type tabs over all notes, newest first, the
    per-tab counts and the form that captures a new note. */
module Notes {
  import opened Wrappers
  import opened Dates
  import opened Seqs
  import opened Text
  import opened Models

  /** The tab on display: every note, or one note type. */
  datatype Tab = AllNotes | OfType(noteType: NoteType)

  /** The content or the video name contains the term, ignoring case. A note
      without a video name is matched on its content only. */
  predicate MatchesSearch(n: Note, term: string)
  {
    ContainsIgnoreCase(n.content, term)
    || (n.videoName.Some? && ContainsIgnoreCase(n.videoName.value, term))
  }

  /** A note matches exactly when the lower-cased term occurs in its
      lower-cased content, or in its lower-cased video name when it has one. */
  lemma MatchesSearchIff(n: Note, term: string)
    ensures MatchesSearch(n, term) <==>
      OccursIn(Lower(n.content), Lower(term)) || (n.videoName.Some? && OccursIn(Lower(n.videoName.value), Lower(term)))
  {
    ContainsIgnoreCaseIff(n.content, term);
    if n.videoName.Some? {
      ContainsIgnoreCaseIff(n.videoName.value, term);
    }
  }

  predicate MatchesTab(n: Note, tab: Tab)
  {
    tab.AllNotes? || n.noteType == tab.noteType
  }

  predicate Shown(n: Note, term: string, tab: Tab)
  {
    MatchesSearch(n, term) && MatchesTab(n, tab)
  }

  /** The empty search keeps every note of the tab. */
  lemma EmptySearchShowsTab(n: Note, tab: Tab)
    ensures Shown(n, "", tab) <==> MatchesTab(n, tab)
  {
    EmptyTermMatches(n.content);
  }

  // ----------------------------------------------------------- newest first

  /** Every creation time is a real instant (each is written from the clock). */
  predicate Stamped(s: seq<Note>)
  {
    forall i :: 0 <= i < |s| ==> ValidInstant(s[i].createdAt)
  }

  /** `new Date(n.createdAt).getTime()`; only read for real instants. */
  function Stamp(n: Note): int
  {
    if ValidInstant(n.createdAt) then Time(n.createdAt) else 0
  }

  /** Ordered by creation time, newest first. */
  predicate NewestFirst(s: seq<Note>)
    requires Stamped(s)
  {
    forall i, j :: 0 <= i < j < |s| ==> Time(s[i].createdAt) >= Time(s[j].createdAt)
  }

  /** `sort((a, b) => b.createdAt - a.createdAt)`: the same notes, newest
      first. */
  function SortNewestFirst(s: seq<Note>): (r: seq<Note>)
    requires Stamped(s)
    ensures multiset(r) == multiset(s)
    ensures Stamped(r) && NewestFirst(r)
  {
    var r := SortDesc(s, Stamp);
    forall i | 0 <= i < |r| ensures ValidInstant(r[i].createdAt) {
      assert r[i] in multiset(s);
    }
    r
  }

  /** The notes a tab and search term keep, in stored order. */
  function Matching(notes: seq<Note>, term: string, tab: Tab): (r: seq<Note>)
    ensures forall i :: 0 <= i < |r| ==> Shown(r[i], term, tab)
    ensures Stamped(notes) ==> Stamped(r)
  {
    var r := Filter(notes, (n: Note) => Shown(n, term, tab));
    FilterSubset(notes, (n: Note) => Shown(n, term, tab));
    assert forall i :: 0 <= i < |r| ==> r[i] in multiset(notes);
    r
  }

  /** `filteredNotes`: the kept notes, newest first. */
  function Visible(notes: seq<Note>, term: string, tab: Tab): (r: seq<Note>)
    requires Stamped(notes)
    ensures Stamped(r) && NewestFirst(r)
    ensures multiset(r) == multiset(Matching(notes, term, tab))
  {
    SortNewestFirst(Matching(notes, term, tab))
  }

  /** A note is listed exactly when it is stored and matches both the search
      and the tab. */
  lemma VisibleExact(notes: seq<Note>, term: string, tab: Tab, x: Note)
    requires Stamped(notes)
    ensures x in Visible(notes, term, tab) <==> x in notes && Shown(x, term, tab)
  {
    var m := Matching(notes, term, tab);
    var p := (n: Note) => Shown(n, term, tab);
    assert x in Visible(notes, term, tab) <==> x in multiset(m);
    if x in notes && Shown(x, term, tab) {
      var i :| 0 <= i < |notes| && notes[i] == x;
      FilterKeeps(notes, p, i);
    }
    if x in m {
      var j :| 0 <= j < |m| && m[j] == x;
      FilterFrom(notes, p, j);
    }
  }

  /** The empty search on the "All" tab lists every note, each as often as it
      is stored. */
  lemma EmptySearchAllNotes(notes: seq<Note>)
    requires Stamped(notes)
    ensures multiset(Visible(notes, "", AllNotes)) == multiset(notes)
  {
    forall i | 0 <= i < |notes| ensures Shown(notes[i], "", AllNotes) {
      EmptyTermMatches(notes[i].content);
    }
    FilterAll(notes, (n: Note) => Shown(n, "", AllNotes));
  }

  // ------------------------------------------------------------------ counts

  /** The count beside a tab, over all notes whatever the search. */
  function TabCount(notes: seq<Note>, tab: Tab): (c: nat)
    ensures c <= |notes|
    ensures tab.AllNotes? ==> c == |notes|
  {
    var r := Filter(notes, (n: Note) => MatchesTab(n, tab));
    assert tab.AllNotes? ==> r == notes by {
      if tab.AllNotes? { FilterAll(notes, (n: Note) => MatchesTab(n, tab)); }
    }
    |r|
  }

  /** The seven type counts add up to the "All" count. */
  lemma {:induction false} TypeCountsSum(notes: seq<Note>)
    ensures TabCount(notes, OfType(AppIdea)) + TabCount(notes, OfType(SocialMedia))
      + TabCount(notes, OfType(NoteType.DevOps)) + TabCount(notes, OfType(Career))
      + TabCount(notes, OfType(Improvement)) + TabCount(notes, OfType(AiAutomation))
      + TabCount(notes, OfType(General)) == TabCount(notes, AllNotes)
  {
    if |notes| > 0 {
      TypeCountsSum(notes[1..]);
    }
  }

  // -------------------------------------------------------------------- form

  /** The capture form: blank content is refused; otherwise a new note with
      the trimmed content, created `now`, not attached to a task. Video name
      and timestamp are kept for DevOps notes only. */
  function SubmitNote(content: string, noteType: NoteType, videoName: string, timestamp: string,
                      id: string, now: Instant): (r: Option<Note>)
    ensures r.None? <==> Blank(content)
    ensures r.Some? ==> var n := r.value;
      && n.id == id && n.noteType == noteType && n.createdAt == now && n.taskId.None?
      && |n.content| > 0 && !IsWhite(n.content[0]) && !IsWhite(n.content[|n.content| - 1])
      && (exists i :: TrimmedAt(content, n.content, i))
      && (n.videoName.Some? <==> noteType == NoteType.DevOps)
      && (n.timestamp.Some? <==> noteType == NoteType.DevOps)
      && (noteType == NoteType.DevOps ==> n.videoName == Some(videoName) && n.timestamp == Some(timestamp))
  {
    TrimEmptyIffBlank(content);
    var trimmed := Trim(content);
    if trimmed == [] then None
    else
      var devOps := noteType == NoteType.DevOps;
      Some(Note(id, None, noteType, trimmed,
                if devOps then Some(timestamp) else None,
                if devOps then Some(videoName) else None,
                now))
  }

  /** A captured note is listed under its own tab and under "All", for any
      term its content contains. */
  lemma SubmittedNoteListed(notes: seq<Note>, content: string, noteType: NoteType, videoName: string,
                            timestamp: string, id: string, now: Instant, term: string)
    requires Stamped(notes) && ValidInstant(now) && !Blank(content)
    requires ContainsIgnoreCase(Trim(content), term)
    ensures var n := SubmitNote(content, noteType, videoName, timestamp, id, now).value;
      && n in Visible(notes + [n], term, AllNotes)
      && n in Visible(notes + [n], term, OfType(noteType))
  {
    TrimEmptyIffBlank(content);
    var n := SubmitNote(content, noteType, videoName, timestamp, id, now).value;
    assert (notes + [n])[|notes|] == n;
    VisibleExact(notes + [n], term, AllNotes, n);
    VisibleExact(notes + [n], term, OfType(noteType), n);
  }
}
