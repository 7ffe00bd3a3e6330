/** The committed mutes. */
module Mutes {
  // Exporting the store's mutes to the committed file, and what that preserves.

  import opened Text
  import opened Findings
  import opened Rows
  import opened Store
  import Lifecycle

  /** One entry of the committed file. */
  datatype Entry = Entry(title: string, author: string, note: string, added: string)

  type MuteFile = map<Fingerprint, Entry>

  function OrEmpty(s: Option<string>): string {
    if s.Some? then s.value else ""
  }

  /** What an import mutes with: an empty note or author falls back to a default. */
  function CommitOf(e: Entry, defaultNote: string): Commit {
    Commit(if e.note != "" then e.note else defaultNote, if e.author != "" then e.author else "committed")
  }

  function Commits(file: MuteFile, defaultNote: string): map<Fingerprint, Commit> {
    map fp | fp in file :: CommitOf(file[fp], defaultNote)
  }

  function EntryOf(title: string, actor: Option<string>, note: Option<string>, today: string): Entry {
    Entry(title, OrEmpty(actor), OrEmpty(note), today)
  }

  /** The mutes an export adds: permanent ones the file does not have. */
  function Fresh(t: Table, file: MuteFile): set<Fingerprint> {
    set fp | fp in t && t[fp].status.Muted? && fp !in file
  }

  function Exported(t: Table, file: MuteFile, today: string): MuteFile {
    file + map fp | fp in Fresh(t, file) && fp in t :: EntryOf(t[fp].title, t[fp].actor, t[fp].note, today)
  }

  predicate Adds(row: FindingRow, file: MuteFile, fp: Fingerprint) {
    row.status.Muted? && fp !in file
  }

  function EntryFor(row: FindingRow, today: string): Entry {
    EntryOf(row.title, row.actor, row.note, today)
  }

  /** What the rows looked at add, when those in `todo` have yet to be. */
  function AddedBut(rows: RowTable, file: MuteFile, todo: set<Fingerprint>): set<Fingerprint> {
    set fp | fp in rows && fp !in todo && Adds(rows[fp], file, fp)
  }

  function ExportedBut(rows: RowTable, file: MuteFile, todo: set<Fingerprint>, today: string): MuteFile {
    file + map fp | fp in rows && fp !in todo && Adds(rows[fp], file, fp) :: EntryFor(rows[fp], today)
  }

  lemma OneMoreExported(rows: RowTable, file: MuteFile, todo: set<Fingerprint>, fp: Fingerprint, today: string)
    requires fp in rows && fp in todo
    ensures var before := ExportedBut(rows, file, todo, today);
            && (fp in before <==> fp in file)
            && ExportedBut(rows, file, todo - {fp}, today) ==
               if Adds(rows[fp], file, fp) then before[fp := EntryFor(rows[fp], today)] else before
  {
    hide EntryFor, Adds;
  }

  lemma OneMoreAdded(rows: RowTable, file: MuteFile, todo: set<Fingerprint>, fp: Fingerprint)
    requires fp in rows && fp in todo
    ensures |AddedBut(rows, file, todo - {fp})| == |AddedBut(rows, file, todo)| + if Adds(rows[fp], file, fp) then 1 else 0
  {
    hide Adds;
    assert AddedBut(rows, file, todo - {fp}) ==
           AddedBut(rows, file, todo) + if Adds(rows[fp], file, fp) then {fp} else {};
  }

  lemma ExportStarts(rows: RowTable, file: MuteFile, today: string)
    ensures ExportedBut(rows, file, rows.Keys, today) == file && AddedBut(rows, file, rows.Keys) == {}
  {
    hide EntryFor, Adds;
  }

  predicate SameMute(row: FindingRow, f: Finding) {
    row.status == f.status && row.title == f.title && row.actor == f.actor && row.note == f.note
  }

  lemma SameAdded(rows: RowTable, t: Table, file: MuteFile)
    requires t.Keys == rows.Keys && forall fp :: fp in rows ==> SameMute(rows[fp], t[fp])
    ensures AddedBut(rows, file, {}) == Fresh(t, file)
  {
  }

  lemma SameExported(rows: RowTable, t: Table, file: MuteFile, today: string)
    requires t.Keys == rows.Keys && forall fp :: fp in rows ==> SameMute(rows[fp], t[fp])
    ensures ExportedBut(rows, file, {}, today) == Exported(t, file, today)
  {
    hide EntryFor, Adds, SameMute, Fresh, AddedBut, EntryOf;
    SameAdded(rows, t, file);
    forall fp | fp in rows
      ensures EntryFor(rows[fp], today) == EntryOf(t[fp].title, t[fp].actor, t[fp].note, today)
      ensures Adds(rows[fp], file, fp) <==> fp in Fresh(t, file)
    {
      SameEntry(rows, t, file, fp, today);
    }
    assert forall fp :: fp in Fresh(t, file) ==> fp in t by { FreshKnown(t, file); }
  }

  lemma SameEntry(rows: RowTable, t: Table, file: MuteFile, fp: Fingerprint, today: string)
    requires fp in rows && fp in t && SameMute(rows[fp], t[fp])
    ensures EntryFor(rows[fp], today) == EntryOf(t[fp].title, t[fp].actor, t[fp].note, today)
    ensures Adds(rows[fp], file, fp) <==> fp in Fresh(t, file)
  {
  }

  lemma FreshKnown(t: Table, file: MuteFile)
    ensures Fresh(t, file) <= t.Keys
  {
  }

  lemma ExportEnds(rows: RowTable, file: MuteFile, today: string)
    requires StampedRows(rows)
    ensures ExportedBut(rows, file, {}, today) == Exported(TableOf(rows), file, today)
    ensures AddedBut(rows, file, {}) == Fresh(TableOf(rows), file)
  {
    hide IsStamp, InstantOf, ExportedBut, Exported, AddedBut, Fresh;
    var t := TableOf(rows);
    assert forall fp :: fp in rows ==> SameMute(rows[fp], t[fp]);
    SameAdded(rows, t, file);
    SameExported(rows, t, file, today);
  }

  /** How many were added, how many there are, and what was written, if anything. */
  method ExportMutes(store: StateStore, file: MuteFile, today: string)
    returns (added: nat, total: nat, written: Option<MuteFile>)
    requires store.Stamped()
    ensures added == |Fresh(store.Contents(), file)| && total == |Exported(store.Contents(), file, today)|
    ensures written == if added > 0 then Some(Exported(store.Contents(), file, today)) else None
  {
    hide StampedRow, FindingOf, EntryFor, ExportedBut, Exported, AddedBut, Fresh;
    var rows := store.findings;
    ExportStarts(rows, file, today);
    ExportEnds(rows, file, today);
    var merged := file;
    added := 0;
    var todo := rows.Keys;
    while todo != {}
      invariant todo <= rows.Keys
      invariant merged == ExportedBut(rows, file, todo, today) && added == |AddedBut(rows, file, todo)|
      decreases |todo|
    {
      var fp :| fp in todo;
      OneMoreExported(rows, file, todo, fp, today);
      OneMoreAdded(rows, file, todo, fp);
      if rows[fp].status.Muted? && fp !in merged {
        merged := merged[fp := EntryFor(rows[fp], today)];
        added := added + 1;
      }
      todo := todo - {fp};
    }
    total := |merged|;
    written := if added > 0 then Some(merged) else None;
  }

  /** A mute survives the loss of the database: once exported, any scan or probe on any other
      store that reads the file leaves every exported mute in force, whatever that store knew
      and whatever was sighted. Exporting again adds nothing, and no entry already in the file
      is touched. */
  lemma MutesSurvive(t: Table, file: MuteFile, today: string, other: Table, e: Lifecycle.Event, grace: nat, defaultNote: string)
    requires Lifecycle.IsScan(e) && e.committed == Commits(Exported(t, file, today), defaultNote)
    ensures forall fp :: fp in t && t[fp].status.Muted? ==>
              IsSuppressed(Lifecycle.Effect(other, e, grace), fp, e.now)
    ensures Fresh(t, Exported(t, file, today)) == {}
    ensures forall fp :: fp in file ==> fp in Exported(t, file, today) && Exported(t, file, today)[fp] == file[fp]
  {
    hide EntryOf, CommitOf, Lifecycle.Effect, IsSuppressed;
    Lifecycle.CommittedInForce(other, e, grace);
    forall fp | fp in t && t[fp].status.Muted? ensures fp in e.committed {
      assert fp in Exported(t, file, today);
    }
  }

  /** What is exported of a mute, and what an import elsewhere makes of it: the entry carries title,
      author, note and day, and the row that imports it their author and note, or the defaults. */
  lemma MutesCarryOver(
    t: Table, file: MuteFile, today: string, other: Table, e: Lifecycle.Event, grace: nat, defaultNote: string, fp: Fingerprint)
    requires Lifecycle.IsScan(e) && e.committed == Commits(Exported(t, file, today), defaultNote)
    requires fp in t && t[fp].status.Muted? && fp !in file && !IsSuppressed(other, fp, e.now)
    ensures var entry := Exported(t, file, today)[fp];
            && entry.title == t[fp].title && entry.added == today
            && entry.author == (if t[fp].actor.Some? then t[fp].actor.value else "")
            && entry.note == (if t[fp].note.Some? then t[fp].note.value else "")
    ensures var after := Lifecycle.Effect(other, e, grace);
            && fp in after && after[fp].status.Muted? && after[fp].snoozeUntil.None?
            && after[fp].note == (if t[fp].note in {None, Some("")} then Some(defaultNote) else t[fp].note)
            && after[fp].actor == (if t[fp].actor in {None, Some("")} then Some("committed") else t[fp].actor)
  {
    var entry := EntryOf(t[fp].title, t[fp].actor, t[fp].note, today);
    assert Exported(t, file, today)[fp] == entry && e.committed[fp] == CommitOf(entry, defaultNote);
    hide Exported, Commits, EntryOf, CommitOf;
    ImportedRow(other, e, grace, fp);
  }

  lemma AppliedRow(other: Table, committed: map<Fingerprint, Commit>, now: Instant, fp: Fingerprint)
    requires fp in committed && !IsSuppressed(other, fp, now)
    ensures var applied := ApplyCommitted(other, committed, now);
            && fp in applied && applied[fp].status.Muted? && applied[fp].snoozeUntil.None?
            && applied[fp].note == Some(committed[fp].note) && applied[fp].actor == Some(committed[fp].author)
  {
  }

  lemma RecordKeepsMute(t: Table, seen: map<Fingerprint, Sighting>, now: Instant, fp: Fingerprint)
    requires fp in t && t[fp].status.Muted?
    ensures fp in Record(t, seen, now) && Lifecycle.SameIntent(Record(t, seen, now)[fp], t[fp])
  {
  }

  lemma ImportedRow(other: Table, e: Lifecycle.Event, grace: nat, fp: Fingerprint)
    requires Lifecycle.IsScan(e) && fp in e.committed && !IsSuppressed(other, fp, e.now)
    ensures var after := Lifecycle.Effect(other, e, grace);
            && fp in after && after[fp].status.Muted? && after[fp].snoozeUntil.None?
            && after[fp].note == Some(e.committed[fp].note) && after[fp].actor == Some(e.committed[fp].author)
  {
    var applied := ApplyCommitted(other, e.committed, e.now);
    AppliedRow(other, e.committed, e.now, fp);
    RecordKeepsMute(applied, e.seen, e.now, fp);
    hide ApplyCommitted, IsSuppressed, Record;
  }
}
