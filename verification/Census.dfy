// The census cache of utils/census.go: what a refresh keeps of a source that
// failed to load.

module Census {
  import opened Options
  import opened Sorting

  datatype Entry = Entry(id: string, note: string)
  datatype File = File(name: string, entries: seq<Entry>)

  /** One source in one refresh: switched off or not configured, failed, or loaded. */
  datatype Load<T> = Skipped | Failed | Loaded(value: T)

  datatype Source = Source(url: bool, files: seq<string>)

  datatype Refresh = Cleared | Refresh(url: Load<seq<Entry>>, files: Load<seq<File>>)

  function Appended(xs: seq<string>, x: string): seq<string> {
    if x in xs then xs else xs + [x]
  }

  lemma AppendedDistinct(xs: seq<string>, x: string)
    requires NoDuplicates(xs)
    ensures NoDuplicates(Appended(xs, x))
  {}

  /** The loop of appendUnique. */
  method AppendUnique(xs: seq<string>, x: string) returns (r: seq<string>)
    ensures r == Appended(xs, x)
  {
    for i := 0 to |xs|
      invariant x !in xs[..i]
    {
      if xs[i] == x {
        return xs;
      }
    }
    assert xs[..|xs|] == xs;
    r := xs + [x];
  }

  // ----- what the sources say -----

  function Mentioned(trim: string -> string, es: seq<Entry>): set<string> {
    set e | e in es && trim(e.id) != "" :: trim(e.id)
  }

  /** The files that mention id, each once, in order. */
  function FilesWith(trim: string -> string, fs: seq<File>, id: string): (r: seq<string>)
    ensures NoDuplicates(r)
  {
    if fs == [] then []
    else
      var f := fs[|fs| - 1];
      var r := FilesWith(trim, fs[..|fs| - 1], id);
      if id in Mentioned(trim, f.entries) then
        AppendedDistinct(r, f.name);
        Appended(r, f.name)
      else r
  }

  /** File i mentions id, and is the first of its name that does. */
  predicate FirstMention(trim: string -> string, fs: seq<File>, id: string, i: nat) {
    && i < |fs| && id in Mentioned(trim, fs[i].entries)
    && forall j :: 0 <= j < i && fs[j].name == fs[i].name ==> id !in Mentioned(trim, fs[j].entries)
  }

  /** The names are those of the files that first mention id, in order and all of them; at says where. */
  ghost predicate Lists(trim: string -> string, fs: seq<File>, id: string, at: seq<nat>, names: seq<string>) {
    && |at| == |names|
    && (forall k :: 0 <= k < |at| ==> FirstMention(trim, fs, id, at[k]) && fs[at[k]].name == names[k])
    && (forall k, m :: 0 <= k < m < |at| ==> at[k] < at[m])
    && (forall i: nat :: FirstMention(trim, fs, id, i) ==> i in at)
  }

  /** A name is listed if a file of that name mentions the ID. */
  lemma ListedIff(trim: string -> string, fs: seq<File>, id: string, at: seq<nat>, names: seq<string>, name: string)
    requires Lists(trim, fs, id, at, names)
    ensures name in names <==> exists j: nat :: j < |fs| && fs[j].name == name && id in Mentioned(trim, fs[j].entries)
  {
    hide Mentioned;
    if j: nat :| j < |fs| && fs[j].name == name && id in Mentioned(trim, fs[j].entries) {
      var i := FirstOf(trim, fs, id, name, j);
      var k :| 0 <= k < |at| && at[k] == i;
      assert names[k] == name;
    }
    if name in names {
      var k :| 0 <= k < |names| && names[k] == name;
      assert FirstMention(trim, fs, id, at[k]);
    }
  }

  lemma MentionMore(trim: string -> string, front: seq<File>, f: File, id: string)
    ensures forall i: nat :: i < |front| ==> (FirstMention(trim, front + [f], id, i) <==> FirstMention(trim, front, id, i))
    ensures FirstMention(trim, front + [f], id, |front|) <==>
      id in Mentioned(trim, f.entries)
      && !exists j: nat :: j < |front| && front[j].name == f.name && id in Mentioned(trim, front[j].entries)
  {
    hide Mentioned;
    var fs := front + [f];
    assert forall j :: 0 <= j < |front| ==> fs[j] == front[j];
    assert fs[|front|] == f;
  }

  lemma ListsSnoc(trim: string -> string, front: seq<File>, f: File, id: string, at: seq<nat>, names: seq<string>)
    requires Lists(trim, front, id, at, names)
    ensures if id in Mentioned(trim, f.entries) && f.name !in names then
              Lists(trim, front + [f], id, at + [|front|], names + [f.name])
            else Lists(trim, front + [f], id, at, names)
  {
    ListedIff(trim, front, id, at, names, f.name);
    MentionMore(trim, front, f, id);
    assert forall i: nat :: FirstMention(trim, front + [f], id, i) ==> i <= |front|;
    hide FirstMention, Mentioned;
    var fs := front + [f];
    assert forall j :: 0 <= j < |front| ==> fs[j] == front[j];
    assert forall k :: 0 <= k < |at| ==> at[k] < |front| by { InsideFront(trim, front, id, at, names); }
  }

  lemma InsideFront(trim: string -> string, front: seq<File>, id: string, at: seq<nat>, names: seq<string>)
    requires Lists(trim, front, id, at, names)
    ensures forall k :: 0 <= k < |at| ==> at[k] < |front|
  {}

  /** The files of an ID are listed in the order in which they first mention it, all of them. */
  lemma {:induction false} FilesInOrder(trim: string -> string, fs: seq<File>, id: string) returns (at: seq<nat>)
    ensures Lists(trim, fs, id, at, FilesWith(trim, fs, id))
  {
    at := [];
    if fs != [] {
      var n := |fs| - 1;
      var names := FilesWith(trim, fs[..n], id);
      at := FilesInOrder(trim, fs[..n], id);
      ListsSnoc(trim, fs[..n], fs[n], id, at, names);
      assert fs == fs[..n] + [fs[n]];
      if id in Mentioned(trim, fs[n].entries) && fs[n].name !in names {
        at := at + [n];
      }
      hide Lists, Mentioned;
    }
  }

  lemma {:induction false} FirstOf(trim: string -> string, fs: seq<File>, id: string, name: string, j: nat) returns (i: nat)
    requires j < |fs| && fs[j].name == name && id in Mentioned(trim, fs[j].entries)
    ensures FirstMention(trim, fs, id, i) && fs[i].name == name
    decreases j
  {
    hide Mentioned;
    i := j;
    if !FirstMention(trim, fs, id, j) {
      var k: nat :| k < j && fs[k].name == name && id in Mentioned(trim, fs[k].entries);
      i := FirstOf(trim, fs, id, name, k);
    }
  }

  function AllMentioned(trim: string -> string, fs: seq<File>): set<string> {
    set f, id | f in fs && id in Mentioned(trim, f.entries) :: id
  }

  // ----- what they note -----

  function NoteAt(notes: map<string, string>, id: string): Option<string> {
    if id in notes then Some(notes[id]) else None
  }

  /** A later note, if there is one, takes the place of an earlier one. */
  function Over(was: Option<string>, now: Option<string>): Option<string> {
    if now.Some? then now else was
  }

  predicate Notes(trim: string -> string, e: Entry, id: string) {
    id != "" && trim(e.id) == id && trim(e.note) != ""
  }

  /** The last note for id, if any says something. */
  function NoteIn(trim: string -> string, es: seq<Entry>, id: string): Option<string> {
    if es == [] then None
    else
      var e := es[|es| - 1];
      if Notes(trim, e, id) then Some(trim(e.note)) else NoteIn(trim, es[..|es| - 1], id)
  }

  /** Entry i notes something for id, and none after it does. */
  ghost predicate LastNote(trim: string -> string, es: seq<Entry>, id: string, i: nat) {
    i < |es| && Notes(trim, es[i], id) && forall j :: i < j < |es| ==> !Notes(trim, es[j], id)
  }

  lemma {:induction false} NoteInIsLast(trim: string -> string, es: seq<Entry>, id: string)
    ensures forall i: nat :: LastNote(trim, es, id, i) ==> NoteIn(trim, es, id) == Some(trim(es[i].note))
    ensures NoteIn(trim, es, id).Some? ==> exists i: nat :: LastNote(trim, es, id, i)
  {
    if es != [] {
      var n := |es| - 1;
      var front := es[..n];
      NoteInIsLast(trim, front, id);
      if Notes(trim, es[n], id) {
        assert LastNote(trim, es, id, n);
      } else {
        assert forall i: nat :: i < n ==> (LastNote(trim, es, id, i) <==> LastNote(trim, front, id, i));
      }
    }
  }

  lemma {:induction false} NoteInAppend(trim: string -> string, a: seq<Entry>, b: seq<Entry>, id: string)
    ensures NoteIn(trim, a + b, id) == Over(NoteIn(trim, a, id), NoteIn(trim, b, id))
    decreases |b|
  {
    if b == [] {
      assert a + b == a;
    } else {
      assert (a + b)[..|a + b| - 1] == a + b[..|b| - 1];
      NoteInAppend(trim, a, b[..|b| - 1], id);
    }
  }

  function EntriesOf(fs: seq<File>): seq<Entry> {
    if fs == [] then [] else EntriesOf(fs[..|fs| - 1]) + fs[|fs| - 1].entries
  }

  /** All that a refresh reads, in order. */
  function AllEntries(r: Refresh): seq<Entry>
    requires r.Refresh?
  {
    (if r.url.Loaded? then r.url.value else []) + (if r.files.Loaded? then EntriesOf(r.files.value) else [])
  }

  // ----- two caches that know nothing of each other -----

  /** The last good load of each source. */
  datatype LastGood = LastGood(url: set<string>, files: map<string, seq<string>>)

  const NOTHING := LastGood({}, map[])

  function NextUrl(trim: string -> string, was: set<string>, load: Load<seq<Entry>>): set<string> {
    match load
    case Skipped => {}
    case Failed => was
    case Loaded(es) => Mentioned(trim, es)
  }

  function NextFiles(trim: string -> string, was: map<string, seq<string>>, load: Load<seq<File>>): map<string, seq<string>> {
    match load
    case Skipped => map[]
    case Failed => was
    case Loaded(fs) => map id | id in AllMentioned(trim, fs) :: FilesWith(trim, fs, id)
  }

  function Next(trim: string -> string, was: LastGood, r: Refresh): LastGood {
    match r
    case Cleared => NOTHING
    case Refresh(url, files) => LastGood(NextUrl(trim, was.url, url), NextFiles(trim, was.files, files))
  }

  function After(trim: string -> string, rs: seq<Refresh>): LastGood {
    if rs == [] then NOTHING else Next(trim, After(trim, rs[..|rs| - 1]), rs[|rs| - 1])
  }

  lemma AfterSnoc(trim: string -> string, rs: seq<Refresh>, r: Refresh)
    ensures After(trim, rs + [r]) == Next(trim, After(trim, rs), r)
  {
    assert (rs + [r])[..|rs|] == rs;
  }

  /** From refresh k on the url source loaded once, with id, and then only failed. */
  ghost predicate UrlHolds(trim: string -> string, rs: seq<Refresh>, id: string, k: nat) {
    && k < |rs| && rs[k].Refresh? && rs[k].url.Loaded? && id in Mentioned(trim, rs[k].url.value)
    && forall j :: k < j < |rs| ==> rs[j].Refresh? && rs[j].url.Failed?
  }

  ghost predicate FilesHold(trim: string -> string, rs: seq<Refresh>, id: string, k: nat) {
    && k < |rs| && rs[k].Refresh? && rs[k].files.Loaded? && id in AllMentioned(trim, rs[k].files.value)
    && forall j :: k < j < |rs| ==> rs[j].Refresh? && rs[j].files.Failed?
  }

  /** Over every run the url cache is the last successful load since the source was last off or cleared. */
  lemma {:induction false} UrlIsLastLoad(trim: string -> string, rs: seq<Refresh>, id: string)
    ensures id in After(trim, rs).url <==> exists k: nat :: UrlHolds(trim, rs, id, k)
  {
    if rs != [] {
      var front, n := rs[..|rs| - 1], |rs| - 1;
      UrlIsLastLoad(trim, front, id);
      if id in After(trim, rs).url {
        if rs[n].url.Loaded? {
          assert UrlHolds(trim, rs, id, n);
        } else {
          var k: nat :| UrlHolds(trim, front, id, k);
          assert UrlHolds(trim, rs, id, k);
        }
      }
      if k: nat :| UrlHolds(trim, rs, id, k) {
        if k < n {
          assert UrlHolds(trim, front, id, k);
        }
      }
    }
  }

  lemma {:induction false} FilesAreLastLoad(trim: string -> string, rs: seq<Refresh>, id: string)
    ensures id in After(trim, rs).files <==> exists k: nat :: FilesHold(trim, rs, id, k)
    ensures forall k: nat :: FilesHold(trim, rs, id, k) ==>
      After(trim, rs).files[id] == FilesWith(trim, rs[k].files.value, id)
  {
    if rs != [] {
      var front, n := rs[..|rs| - 1], |rs| - 1;
      FilesAreLastLoad(trim, front, id);
      if id in After(trim, rs).files {
        if rs[n].files.Loaded? {
          assert FilesHold(trim, rs, id, n);
        } else {
          var k: nat :| FilesHold(trim, front, id, k);
          assert FilesHold(trim, rs, id, k);
        }
      }
      forall k: nat | FilesHold(trim, rs, id, k)
        ensures id in After(trim, rs).files && After(trim, rs).files[id] == FilesWith(trim, rs[k].files.value, id)
      {
        if k < n {
          assert FilesHold(trim, front, id, k);
        }
      }
    }
  }

  ghost predicate Censed(trim: string -> string, rs: seq<Refresh>, id: string) {
    (exists k: nat :: UrlHolds(trim, rs, id, k)) || (exists k: nat :: FilesHold(trim, rs, id, k))
  }

  /** A source that had id before failed, and keeps it. */
  predicate Holds(was: LastGood, r: Refresh, id: string) {
    r.Refresh? && ((r.url.Failed? && id in was.url) || (r.files.Failed? && id in was.files))
  }

  /** The note of id after these refreshes: one that is read, or else the one before if a failed source keeps the ID. */
  function NoteAfter(trim: string -> string, rs: seq<Refresh>, id: string): Option<string> {
    if rs == [] || rs[|rs| - 1].Cleared? then None
    else
      var front, r := rs[..|rs| - 1], rs[|rs| - 1];
      Over(if Holds(After(trim, front), r, id) then NoteAfter(trim, front, id) else None, NoteIn(trim, AllEntries(r), id))
  }

  /** The last note that the refresh reads for id is this one. */
  ghost predicate ReadsNote(trim: string -> string, r: Refresh, id: string, note: string) {
    r.Refresh? && exists i: nat :: LastNote(trim, AllEntries(r), id, i) && note == trim(AllEntries(r)[i].note)
  }

  ghost predicate ReadsNoNote(trim: string -> string, r: Refresh, id: string) {
    r.Refresh? && forall i: nat :: !LastNote(trim, AllEntries(r), id, i)
  }

  /** Refresh k read this note for id, and since then each refresh read none and kept the ID through a failed source. */
  ghost predicate NoteHolds(trim: string -> string, rs: seq<Refresh>, id: string, note: string, k: nat) {
    && k < |rs| && ReadsNote(trim, rs[k], id, note)
    && forall j :: k < j < |rs| ==> Holds(After(trim, rs[..j]), rs[j], id) && ReadsNoNote(trim, rs[j], id)
  }

  lemma NoteRead(trim: string -> string, r: Refresh, id: string, note: string)
    requires r.Refresh?
    ensures NoteIn(trim, AllEntries(r), id) == Some(note) <==> ReadsNote(trim, r, id, note)
    ensures NoteIn(trim, AllEntries(r), id).None? <==> ReadsNoNote(trim, r, id)
  {
    NoteInIsLast(trim, AllEntries(r), id);
    hide NoteIn, AllEntries, LastNote;
  }

  /** A note is held up to a refresh if it is read there, or held before and not lost there. */
  lemma NoteHoldsSnoc(trim: string -> string, rs: seq<Refresh>, id: string, note: string)
    requires rs != []
    ensures var front, r := rs[..|rs| - 1], rs[|rs| - 1];
      (exists k: nat :: NoteHolds(trim, rs, id, note, k)) <==>
        || ReadsNote(trim, r, id, note)
        || ((exists k: nat :: NoteHolds(trim, front, id, note, k)) && Holds(After(trim, front), r, id) && ReadsNoNote(trim, r, id))
  {
    hide After, Holds, ReadsNote, ReadsNoNote;
    var front, n := rs[..|rs| - 1], |rs| - 1;
    forall j | 0 <= j < n
      ensures front[..j] == rs[..j] && front[j] == rs[j]
    {}
    if ReadsNote(trim, rs[n], id, note) {
      assert NoteHolds(trim, rs, id, note, n);
    }
    if k: nat :| NoteHolds(trim, rs, id, note, k) && k < n {
      assert NoteHolds(trim, front, id, note, k);
    }
    if Holds(After(trim, front), rs[n], id) && ReadsNoNote(trim, rs[n], id) {
      if k: nat :| NoteHolds(trim, front, id, note, k) {
        assert NoteHolds(trim, rs, id, note, k);
      }
    }
  }

  /** Over every run of refreshes the note of an ID is the last that was read while the cache kept the ID. */
  lemma {:induction false} NoteIsLastRead(trim: string -> string, rs: seq<Refresh>, id: string, note: string)
    ensures NoteAfter(trim, rs, id) == Some(note) <==> exists k: nat :: NoteHolds(trim, rs, id, note, k)
  {
    if rs != [] {
      var r := rs[|rs| - 1];
      NoteIsLastRead(trim, rs[..|rs| - 1], id, note);
      NoteHoldsSnoc(trim, rs, id, note);
      if r.Refresh? {
        NoteRead(trim, r, id, note);
      }
      hide After, NoteIn, AllEntries, NoteHolds, LastNote;
    }
  }

  // ----- the merged cache -----

  const ABSENT := Source(false, [])

  function At(sources: map<string, Source>, id: string): Source {
    if id in sources then sources[id] else ABSENT
  }

  /** An ID is there for a reason. */
  ghost predicate Full(sources: map<string, Source>) {
    forall id <- sources :: sources[id] != ABSENT
  }

  function Said(good: LastGood, id: string): Source {
    Source(id in good.url, if id in good.files then good.files[id] else [])
  }

  /** The one map that the code keeps says what the two caches say. */
  ghost predicate Merges(sources: map<string, Source>, good: LastGood) {
    Full(sources) && forall id :: At(sources, id) == Said(good, id)
  }

  ghost predicate Proper(good: LastGood) {
    forall id <- good.files :: good.files[id] != [] && NoDuplicates(good.files[id])
  }

  /** Notes belong to censed IDs and say something. */
  ghost predicate Noted(sources: map<string, Source>, notes: map<string, string>) {
    forall id <- notes :: id in sources && notes[id] != ""
  }

  class Cache {
    const trim: string -> string
    var ids: seq<string>
    var sources: map<string, Source>
    var notes: map<string, string>
    /** Every refresh so far, and what the two separate caches would hold after them. */
    ghost var refreshes: seq<Refresh>
    ghost var good: LastGood

    constructor (trim: string -> string)
      ensures Valid() && refreshes == [] && this.trim == trim
    {
      this.trim, ids, sources, notes, refreshes, good := trim, [], map[], map[], [], NOTHING;
    }

    ghost predicate Valid()
      reads this
    {
      && good == After(trim, refreshes)
      && Merges(sources, good) && Proper(good) && Noted(sources, notes)
      && (forall id :: NoteAt(notes, id) == NoteAfter(trim, refreshes, id))
      && Sorted(ids) && NoDuplicates(ids) && Elements(ids) == sources.Keys
    }

    /**
     * Over every run of refreshes an ID is censed exactly when it was in the last
     * successful load of a source that has since been neither off nor cleared.
     */
    method IsIDCensed(id: string) returns (r: bool)
      requires Valid()
      ensures r <==> trim(id) != "" && Censed(trim, refreshes, trim(id))
      ensures forall x :: x in ids <==> Censed(trim, refreshes, x)
    {
      forall x
        ensures x in ids <==> Censed(trim, refreshes, x)
      {
        assert x in ids <==> x in Elements(ids);
        assert At(sources, x) == Said(good, x);
        UrlIsLastLoad(trim, refreshes, x);
        FilesAreLastLoad(trim, refreshes, x);
      }
      var checkID := trim(id);
      assert checkID in ids <==> checkID in Elements(ids);
      r := checkID != "" && checkID in sources;
    }

    /** One refresh; gotUrl and gotFiles are what a download or a directory read would give. */
    method RefreshCache(c: Settings, gotUrl: Option<seq<Entry>>, gotFiles: Option<seq<File>>)
      requires Valid()
      modifies this
      ensures Valid() && refreshes == old(refreshes) + [Asked(c, gotUrl, gotFiles)]
      ensures good == Next(trim, old(good), Asked(c, gotUrl, gotFiles))
      ensures forall id, note :: NoteAt(notes, id) == Some(note) <==> exists k: nat :: NoteHolds(trim, refreshes, id, note, k)
    {
      hide After, UrlHolds, FilesHold, NoteAfter, NoteHolds, NoteIn, AllEntries, Holds;
      var r := LoadEach(c, gotUrl, gotFiles);
      hide Asked;
      NotesSnoc(trim, refreshes, r);
      NotesAreLastRead(trim, refreshes + [r]);
      AfterSnoc(trim, refreshes, r);
      refreshes := refreshes + [r];
      good := Next(trim, good, r);
      if r.Cleared? {
        ids, sources, notes := [], map[], map[];
        return;
      }
      hide Merges, Proper, Noted;
      var newSources, newNotes := Collect(trim, r);
      ghost var collected, collectedNotes := newSources, newNotes;
      ProperFiles(sources, old(good));
      if r.url.Failed? || r.files.Failed? {
        newSources, newNotes := Restore(newSources, newNotes, sources, notes, r.url.Failed?, r.files.Failed?);
      }
      NotesKept(sources, old(good), r, notes, collectedNotes, newNotes);
      Merged(trim, old(good), r, sources, collected, newSources);
      StaysProper(trim, old(good), r);
      var merged := Keys(newSources);
      SortSorted(merged);
      SortKeepsDistinct(merged);
      ids, sources, notes := Sort(merged), newSources, newNotes;
    }
  }

  /** What the loads of this refresh say of id. */
  function Heard(trim: string -> string, r: Refresh, id: string): Source
    requires r.Refresh?
  {
    Source(r.url.Loaded? && id in Mentioned(trim, r.url.value), if r.files.Loaded? then FilesWith(trim, r.files.value, id) else [])
  }

  method Collect(trim: string -> string, r: Refresh) returns (sources: map<string, Source>, notes: map<string, string>)
    requires r.Refresh?
    ensures Full(sources) && Noted(sources, notes)
    ensures forall id :: At(sources, id) == Heard(trim, r, id)
    ensures forall id :: NoteAt(notes, id) == NoteIn(trim, AllEntries(r), id)
  {
    hide NoteIn;
    sources, notes := map[], map[];
    NothingNoted(trim);
    if r.url.Loaded? {
      sources, notes := LoadUrl(trim, r.url.value);
    }
    var files := if r.files.Loaded? then EntriesOf(r.files.value) else [];
    if r.files.Loaded? {
      sources, notes := LoadFiles(trim, sources, notes, r.files.value);
    }
    forall id
      ensures NoteAt(notes, id) == NoteIn(trim, AllEntries(r), id)
    {
      NoteInAppend(trim, if r.url.Loaded? then r.url.value else [], files, id);
    }
  }

  lemma NothingNoted(trim: string -> string)
    ensures forall id :: NoteIn(trim, [], id) == None
  {}

  /** The note of an ID after a refresh that read these: kept with the ID if it read none. */
  function KeptNote(held: bool, was: Option<string>, now: Option<string>): Option<string> {
    Over(if held then was else None, now)
  }

  lemma NotesSnoc(trim: string -> string, rs: seq<Refresh>, r: Refresh)
    ensures forall id ::
      NoteAfter(trim, rs + [r], id)
      == if r.Cleared? then None
         else KeptNote(Holds(After(trim, rs), r, id), NoteAfter(trim, rs, id), NoteIn(trim, AllEntries(r), id))
  {
    assert (rs + [r])[..|rs|] == rs;
  }

  lemma NotesAreLastRead(trim: string -> string, rs: seq<Refresh>)
    ensures forall id, note :: NoteAfter(trim, rs, id) == Some(note) <==> exists k: nat :: NoteHolds(trim, rs, id, note, k)
  {
    forall id, note
      ensures NoteAfter(trim, rs, id) == Some(note) <==> exists k: nat :: NoteHolds(trim, rs, id, note, k)
    {
      NoteIsLastRead(trim, rs, id, note);
    }
  }

  /** A source that failed keeps an ID of its own. */
  predicate Keeps(was: Source, urlFailed: bool, filesFailed: bool) {
    (urlFailed && was.url) || (filesFailed && was.files != [])
  }

  /** What restoring keeps is what the two caches hold. */
  lemma NotesKept(
    prev: map<string, Source>, good: LastGood, r: Refresh, was: map<string, string>, read: map<string, string>, notes: map<string, string>)
    requires Merges(prev, good) && Proper(good) && r.Refresh?
    requires if r.url.Failed? || r.files.Failed? then
               forall id :: NoteAt(notes, id)
                 == KeptNote(Keeps(At(prev, id), r.url.Failed?, r.files.Failed?), NoteAt(was, id), NoteAt(read, id))
             else notes == read
    ensures forall id :: NoteAt(notes, id) == KeptNote(Holds(good, r, id), NoteAt(was, id), NoteAt(read, id))
  {
    forall id
      ensures NoteAt(notes, id) == KeptNote(Holds(good, r, id), NoteAt(was, id), NoteAt(read, id))
    {
      assert At(prev, id) == Said(good, id);
    }
  }

  lemma ProperFiles(prev: map<string, Source>, good: LastGood)
    requires Merges(prev, good) && Proper(good)
    ensures forall id :: NoDuplicates(At(prev, id).files)
  {}

  /** What this refresh says, with what a failed source said before. */
  function Restored(now: Source, was: Source, urlFailed: bool, filesFailed: bool): Source {
    Source(now.url || (urlFailed && was.url), if filesFailed then was.files else now.files)
  }

  lemma Merged(
    trim: string -> string, was: LastGood, r: Refresh, prev: map<string, Source>, sources0: map<string, Source>, sources: map<string, Source>)
    requires r.Refresh? && Merges(prev, was) && Full(sources)
    requires forall id :: At(sources0, id) == Heard(trim, r, id)
    requires forall id :: At(sources, id) == Restored(At(sources0, id), At(prev, id), r.url.Failed?, r.files.Failed?)
    ensures Merges(sources, Next(trim, was, r))
  {
    forall id
      ensures At(sources, id) == Said(Next(trim, was, r), id)
    {
      assert At(prev, id) == Said(was, id) && At(sources0, id) == Heard(trim, r, id);
      if r.files.Loaded? {
        NoFiles(trim, r.files.value, id);
      }
    }
  }

  lemma StaysProper(trim: string -> string, was: LastGood, r: Refresh)
    requires Proper(was)
    ensures Proper(Next(trim, was, r))
  {
    if r.Refresh? && r.files.Loaded? {
      forall id <- AllMentioned(trim, r.files.value)
        ensures FilesWith(trim, r.files.value, id) != []
      {
        NoFiles(trim, r.files.value, id);
      }
    }
  }

  datatype Settings = Settings(enabled: bool, urlOn: bool, filesOn: bool, url: string, directory: string)

  /** What one run of the refresh does with each source. */
  function Asked(c: Settings, gotUrl: Option<seq<Entry>>, gotFiles: Option<seq<File>>): Refresh {
    if !c.enabled || (!c.urlOn && !c.filesOn) then Cleared
    else
      Refresh(
        if !c.urlOn || c.url == "" then Skipped else if gotUrl.None? then Failed else Loaded(gotUrl.value),
        if !c.filesOn || c.directory == "" then Skipped else if gotFiles.None? then Failed else Loaded(gotFiles.value))
  }

  /** The settings decide which source is tried. */
  method LoadEach(c: Settings, gotUrl: Option<seq<Entry>>, gotFiles: Option<seq<File>>) returns (r: Refresh)
    ensures r == Asked(c, gotUrl, gotFiles)
  {
    if !c.enabled {
      return Cleared;
    }
    if !c.urlOn && !c.filesOn {
      return Cleared;
    }
    var url, files := Skipped, Skipped;
    if c.urlOn && c.url != "" {
      url := if gotUrl.Some? then Loaded(gotUrl.value) else Failed;
    }
    if c.filesOn && c.directory != "" {
      files := if gotFiles.Some? then Loaded(gotFiles.value) else Failed;
    }
    r := Refresh(url, files);
  }

  function Note(trim: string -> string, notes: map<string, string>, id: string, note: string): map<string, string> {
    if trim(note) != "" then notes[id := trim(note)] else notes
  }

  lemma NoteOne(trim: string -> string, notes: map<string, string>, id: string, note: string)
    ensures forall other ::
      NoteAt(Note(trim, notes, id, note), other)
      == if other == id && trim(note) != "" then Some(trim(note)) else NoteAt(notes, other)
  {}

  lemma MentionedSnoc(trim: string -> string, es: seq<Entry>, j: nat)
    requires j < |es|
    ensures var id := trim(es[j].id);
      Mentioned(trim, es[..j + 1]) == Mentioned(trim, es[..j]) + if id == "" then {} else {id}
  {
    assert es[..j + 1] == es[..j] + [es[j]];
  }

  method LoadUrl(trim: string -> string, es: seq<Entry>) returns (sources: map<string, Source>, notes: map<string, string>)
    ensures Full(sources) && Noted(sources, notes)
    ensures forall id :: At(sources, id) == Source(id in Mentioned(trim, es), [])
    ensures forall id :: NoteAt(notes, id) == NoteIn(trim, es, id)
  {
    hide NoteIn;
    sources, notes := map[], map[];
    NothingNoted(trim);
    for j := 0 to |es|
      invariant Full(sources) && Noted(sources, notes)
      invariant forall id :: At(sources, id) == Source(id in Mentioned(trim, es[..j]), [])
      invariant forall id :: NoteAt(notes, id) == NoteIn(trim, es[..j], id)
    {
      MentionedSnoc(trim, es, j);
      NoteInSnoc(trim, es, j);
      var id := trim(es[j].id);
      if id == "" {
        continue;
      }
      var src := At(sources, id);
      sources := sources[id := src.(url := true)];
      NoteOne(trim, notes, id, es[j].note);
      ghost var before := notes;
      notes := Note(trim, notes, id, es[j].note);
      forall other
        ensures NoteAt(notes, other) == NoteIn(trim, es[..j + 1], other)
      {
        assert NoteAt(before, other) == NoteIn(trim, es[..j], other);
        assert Notes(trim, es[j], other) <==> other == id && trim(es[j].note) != "";
      }
    }
    assert es[..|es|] == es;
  }

  lemma NoteInSnoc(trim: string -> string, es: seq<Entry>, j: nat)
    requires j < |es|
    ensures forall id ::
      NoteIn(trim, es[..j + 1], id)
      == if Notes(trim, es[j], id) then Some(trim(es[j].note)) else NoteIn(trim, es[..j], id)
  {
    assert es[..j + 1][..j] == es[..j];
  }

  /** The files that mention an ID, after one more. */
  function WithFile(files: seq<string>, name: string, mentioned: bool): seq<string> {
    if mentioned then Appended(files, name) else files
  }

  method LoadFile(trim: string -> string, sources0: map<string, Source>, notes0: map<string, string>, f: File)
    returns (sources: map<string, Source>, notes: map<string, string>)
    requires Full(sources0) && Noted(sources0, notes0)
    ensures Full(sources) && Noted(sources, notes)
    ensures forall id ::
      At(sources, id)
      == Source(At(sources0, id).url, WithFile(At(sources0, id).files, f.name, id in Mentioned(trim, f.entries)))
    ensures forall id :: NoteAt(notes, id) == Over(NoteAt(notes0, id), NoteIn(trim, f.entries, id))
  {
    hide NoteIn;
    sources, notes := sources0, notes0;
    NothingNoted(trim);
    var es := f.entries;
    for j := 0 to |es|
      invariant forall id :: NoteAt(notes, id) == Over(NoteAt(notes0, id), NoteIn(trim, es[..j], id))
      invariant Full(sources) && Noted(sources, notes)
      invariant forall id ::
        At(sources, id)
        == Source(At(sources0, id).url, WithFile(At(sources0, id).files, f.name, id in Mentioned(trim, es[..j])))
    {
      MentionedSnoc(trim, es, j);
      NoteInSnoc(trim, es, j);
      var id := trim(es[j].id);
      if id == "" {
        continue;
      }
      var src := At(sources, id);
      var files := AppendUnique(src.files, f.name);
      sources := sources[id := src.(files := files)];
      notes := Note(trim, notes, id, es[j].note);
    }
    assert es[..|es|] == es;
  }

  method LoadFiles(trim: string -> string, sources0: map<string, Source>, notes0: map<string, string>, fs: seq<File>)
    returns (sources: map<string, Source>, notes: map<string, string>)
    requires Full(sources0) && Noted(sources0, notes0) && forall id :: At(sources0, id).files == []
    ensures Full(sources) && Noted(sources, notes)
    ensures forall id :: At(sources, id) == Source(At(sources0, id).url, FilesWith(trim, fs, id))
    ensures forall id :: NoteAt(notes, id) == Over(NoteAt(notes0, id), NoteIn(trim, EntriesOf(fs), id))
  {
    hide NoteIn;
    sources, notes := sources0, notes0;
    NothingNoted(trim);
    for i := 0 to |fs|
      invariant forall id :: NoteAt(notes, id) == Over(NoteAt(notes0, id), NoteIn(trim, EntriesOf(fs[..i]), id))
      invariant Full(sources) && Noted(sources, notes)
      invariant forall id :: At(sources, id) == Source(At(sources0, id).url, FilesWith(trim, fs[..i], id))
    {
      FilesSnoc(trim, fs, i);
      EntriesSnoc(trim, fs, i);
      sources, notes := LoadFile(trim, sources, notes, fs[i]);
    }
    assert fs[..|fs|] == fs;
  }

  lemma EntriesSnoc(trim: string -> string, fs: seq<File>, i: nat)
    requires i < |fs|
    ensures forall id ::
      NoteIn(trim, EntriesOf(fs[..i + 1]), id)
      == Over(NoteIn(trim, EntriesOf(fs[..i]), id), NoteIn(trim, fs[i].entries, id))
  {
    assert fs[..i + 1][..i] == fs[..i];
    forall id
      ensures NoteIn(trim, EntriesOf(fs[..i + 1]), id)
        == Over(NoteIn(trim, EntriesOf(fs[..i]), id), NoteIn(trim, fs[i].entries, id))
    {
      NoteInAppend(trim, EntriesOf(fs[..i]), fs[i].entries, id);
    }
  }

  lemma FilesSnoc(trim: string -> string, fs: seq<File>, i: nat)
    requires i < |fs|
    ensures forall id ::
      FilesWith(trim, fs[..i + 1], id) == WithFile(FilesWith(trim, fs[..i], id), fs[i].name, id in Mentioned(trim, fs[i].entries))
  {
    assert fs[..i + 1][..i] == fs[..i];
  }

  lemma {:induction false} NoFiles(trim: string -> string, fs: seq<File>, id: string)
    ensures FilesWith(trim, fs, id) == [] <==> id !in AllMentioned(trim, fs)
  {
    if fs != [] {
      var front := fs[..|fs| - 1];
      NoFiles(trim, front, id);
      assert fs == front + [fs[|fs| - 1]];
    }
  }

  /** Keeping the last-good part of each failed source, and its note if it has none now. */
  method Restore(
    sources0: map<string, Source>, notes0: map<string, string>, prev: map<string, Source>, prevNotes: map<string, string>,
    urlFailed: bool, filesFailed: bool)
    returns (sources: map<string, Source>, notes: map<string, string>)
    requires Full(sources0) && Noted(sources0, notes0)
    requires forall id :: filesFailed ==> At(sources0, id).files == []
    requires forall id :: NoDuplicates(At(prev, id).files)
    requires forall id <- prevNotes :: prevNotes[id] != ""
    ensures Full(sources) && Noted(sources, notes)
    ensures forall id :: At(sources, id) == Restored(At(sources0, id), At(prev, id), urlFailed, filesFailed)
    ensures forall id ::
      NoteAt(notes, id)
      == KeptNote(Keeps(At(prev, id), urlFailed, filesFailed), NoteAt(prevNotes, id), NoteAt(notes0, id))
  {
    hide Full, Noted, Restored, KeptNote, Keeps, NoDuplicates;
    sources, notes := sources0, notes0;
    var todo := prev.Keys;
    AbsentKeepsNothing(urlFailed, filesFailed);
    while todo != {}
      invariant todo <= prev.Keys
      invariant Full(sources) && Noted(sources, notes)
      invariant forall id ::
        At(sources, id) == if id in todo then At(sources0, id) else Restored(At(sources0, id), At(prev, id), urlFailed, filesFailed)
      invariant forall id ::
        NoteAt(notes, id)
        == if id in todo then NoteAt(notes0, id)
           else KeptNote(Keeps(At(prev, id), urlFailed, filesFailed), NoteAt(prevNotes, id), NoteAt(notes0, id))
    {
      var id :| id in todo;
      todo := todo - {id};
      assert prev[id] == At(prev, id);
      sources, notes := RestoreOne(sources, notes, id, prev[id], prevNotes, urlFailed, filesFailed);
    }
  }

  lemma AbsentKeepsNothing(urlFailed: bool, filesFailed: bool)
    ensures forall now: Source :: (filesFailed ==> now.files == []) ==> Restored(now, ABSENT, urlFailed, filesFailed) == now
    ensures forall was, now :: KeptNote(Keeps(ABSENT, urlFailed, filesFailed), was, now) == now
  {}

  /** The same for one ID. */
  method RestoreOne(
    sources0: map<string, Source>, notes0: map<string, string>, id: string, prevSrc: Source, prevNotes: map<string, string>,
    urlFailed: bool, filesFailed: bool)
    returns (sources: map<string, Source>, notes: map<string, string>)
    requires Full(sources0) && Noted(sources0, notes0) && NoDuplicates(prevSrc.files)
    requires filesFailed ==> At(sources0, id).files == []
    requires forall id <- prevNotes :: prevNotes[id] != ""
    ensures Full(sources) && Noted(sources, notes)
    ensures At(sources, id) == Restored(At(sources0, id), prevSrc, urlFailed, filesFailed)
    ensures NoteAt(notes, id) == KeptNote(Keeps(prevSrc, urlFailed, filesFailed), NoteAt(prevNotes, id), NoteAt(notes0, id))
    ensures forall other :: other != id ==> At(sources, other) == At(sources0, other) && NoteAt(notes, other) == NoteAt(notes0, other)
  {
    sources, notes := sources0, notes0;
    var restored := At(sources, id);
    var keep := false;
    if urlFailed && prevSrc.url {
      restored, keep := restored.(url := true), true;
    }
    if filesFailed && |prevSrc.files| > 0 {
      var files := AppendAll(restored.files, prevSrc.files);
      restored, keep := restored.(files := files), true;
    }
    if keep {
      sources := sources[id := restored];
      if id !in notes && id in prevNotes && prevNotes[id] != "" {
        notes := notes[id := prevNotes[id]];
      }
    }
  }

  /** Appending a list without duplicates to an empty one, each element with appendUnique. */
  method AppendAll(xs: seq<string>, ys: seq<string>) returns (r: seq<string>)
    requires NoDuplicates(ys)
    ensures xs == [] ==> r == ys
  {
    r := xs;
    for i := 0 to |ys|
      invariant xs == [] ==> r == ys[..i]
    {
      r := AppendUnique(r, ys[i]);
    }
  }

  /** The keys in no particular order. */
  method Keys(m: map<string, Source>) returns (r: seq<string>)
    ensures NoDuplicates(r) && Elements(r) == m.Keys
  {
    r := [];
    var todo := m.Keys;
    while todo != {}
      invariant NoDuplicates(r) && todo <= m.Keys && Elements(r) == m.Keys - todo
    {
      var id :| id in todo;
      todo := todo - {id};
      assert id !in Elements(r);
      assert Elements(r + [id]) == Elements(r) + {id};
      r := r + [id];
    }
  }
}
