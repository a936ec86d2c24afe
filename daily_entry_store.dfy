/** The in-memory table of daily entries (one per job and local date), its lazy
    one-time load from browser storage, find-or-create for today's entry and a
    shallow-merge update. Storage access, JSON parsing, the clock and the id
    generator are outside the model: what storage yields after parsing, today's
    date, the current timestamp and the fresh id are parameters. */
module DailyEntryStore {
  import opened Domain

  datatype DailyEntry = DailyEntry(
    id: string,
    jobId: string,
    date: string,  // YYYY-MM-DD
    labourSummary: string,
    materialsSummary: string,
    issuesSummary: string,
    createdAt: string
  )

  /** A key property of a parsed stored record, as the `typeof ... === 'string'`
      test sees it: a string, or anything else (missing included). */
  datatype Field = Str(s: string) | NotStr

  /** One element of the parsed stored array: a value that is not an object
      (null, a number, a string, a boolean), or an object. */
  datatype StoredRecord =
    | NotAnObject
    | Object(id: Field, jobId: Field, date: Field,
             labourSummary: string, materialsSummary: string, issuesSummary: string, createdAt: string)

  /** The minimal shape check of the loader. */
  predicate HasEntryShape(r: StoredRecord) {
    r.Object? && r.id.Str? && r.jobId.Str? && r.date.Str?
  }

  /** The `e as DailyEntry` view of a record that passed the shape check. */
  function AsEntry(r: StoredRecord): (e: DailyEntry)
    requires HasEntryShape(r)
    ensures e.id == r.id.s && e.jobId == r.jobId.s && e.date == r.date.s
  {
    DailyEntry(r.id.s, r.jobId.s, r.date.s, r.labourSummary, r.materialsSummary, r.issuesSummary, r.createdAt)
  }

  /** The entries the loader keeps from a parsed array: every record that passes the
      shape check, in order. */
  function LoadedEntries(records: seq<StoredRecord>): (r: seq<DailyEntry>)
    ensures |r| <= |records|
  {
    if records == [] then []
    else
      var init := LoadedEntries(records[..|records| - 1]);
      var last := records[|records| - 1];
      if HasEntryShape(last) then init + [AsEntry(last)] else init
  }

  /** Loading distributes over concatenation of the stored array. */
  lemma {:induction false} LoadedEntriesAppend(a: seq<StoredRecord>, b: seq<StoredRecord>)
    ensures LoadedEntries(a + b) == LoadedEntries(a) + LoadedEntries(b)
    decreases |b|
  {
    if b == [] {
      assert a + b == a;
    } else {
      var b' := b[..|b| - 1];
      assert (a + b)[..|a + b| - 1] == a + b';
      LoadedEntriesAppend(a, b');
    }
  }

  /** A stored array of well-shaped records is loaded whole, record by record. */
  lemma {:induction false} LoadedEntriesAllShaped(records: seq<StoredRecord>)
    requires forall k :: 0 <= k < |records| ==> HasEntryShape(records[k])
    ensures |LoadedEntries(records)| == |records|
    ensures forall k :: 0 <= k < |records| ==> LoadedEntries(records)[k] == AsEntry(records[k])
  {
    if records != [] {
      LoadedEntriesAllShaped(records[..|records| - 1]);
    }
  }

  /** Every loaded entry came from a record whose key properties are strings. */
  lemma {:induction false} LoadedEntriesFromShaped(records: seq<StoredRecord>)
    ensures forall e :: e in LoadedEntries(records) ==>
      exists k :: 0 <= k < |records| && HasEntryShape(records[k]) && AsEntry(records[k]) == e
  {
    if records != [] {
      var init := records[..|records| - 1];
      LoadedEntriesFromShaped(init);
      forall e | e in LoadedEntries(records)
        ensures exists k :: 0 <= k < |records| && HasEntryShape(records[k]) && AsEntry(records[k]) == e
      {
        if e in LoadedEntries(init) {
          var k :| 0 <= k < |init| && HasEntryShape(init[k]) && AsEntry(init[k]) == e;
          assert records[k] == init[k];
        } else {
          assert HasEntryShape(records[|records| - 1]) && AsEntry(records[|records| - 1]) == e;
        }
      }
    }
  }

  /** A record failing the shape check is dropped. */
  lemma LoadedEntriesDropsMalformed(records: seq<StoredRecord>, r: StoredRecord)
    requires !HasEntryShape(r)
    ensures LoadedEntries(records + [r]) == LoadedEntries(records)
  {
    assert (records + [r])[..|records|] == records;
  }

  /** The table after `ensureLoaded`: `stored` is `None` when there is no browser
      storage, no stored text, the text does not parse, or it is not an array. */
  function AfterLoad(entries: seq<DailyEntry>, loaded: bool, stored: Option<seq<StoredRecord>>): seq<DailyEntry> {
    if loaded || stored.None? then entries else LoadedEntries(stored.value)
  }

  /** `Array.prototype.findIndex`: the first index at or after `start` whose entry
      satisfies `p`, or -1. */
  function FindIndexFrom(entries: seq<DailyEntry>, p: DailyEntry -> bool, start: nat): (r: int)
    requires start <= |entries|
    ensures r == -1 || start <= r < |entries|
    ensures r >= 0 ==> p(entries[r]) && forall j :: start <= j < r ==> !p(entries[j])
    ensures r == -1 ==> forall j :: start <= j < |entries| ==> !p(entries[j])
    decreases |entries| - start
  {
    if start == |entries| then -1
    else if p(entries[start]) then start
    else FindIndexFrom(entries, p, start + 1)
  }

  function FindIndex(entries: seq<DailyEntry>, p: DailyEntry -> bool): (r: int)
    ensures -1 <= r < |entries|
    ensures r >= 0 ==> p(entries[r]) && forall j :: 0 <= j < r ==> !p(entries[j])
    ensures r == -1 <==> forall j :: 0 <= j < |entries| ==> !p(entries[j])
  {
    FindIndexFrom(entries, p, 0)
  }

  predicate IsEntryFor(e: DailyEntry, jobId: string, today: string) {
    e.jobId == jobId && e.date == today
  }

  /** What `getOrCreateTodayEntry` returns and leaves in the table, on the loaded table:
      the first entry for the job and day if there is one, otherwise a new blank
      entry appended at the end. */
  function GetOrCreate(entries: seq<DailyEntry>, jobId: string, today: string, newId: string, now: string)
    : (r: (seq<DailyEntry>, DailyEntry))
    ensures IsEntryFor(r.1, jobId, today)
    ensures (exists i :: 0 <= i < |entries| && IsEntryFor(entries[i], jobId, today)) ==>
      && r.0 == entries
      && exists i :: 0 <= i < |entries| && r.1 == entries[i]
           && (forall j :: 0 <= j < i ==> !IsEntryFor(entries[j], jobId, today))
    ensures (forall i :: 0 <= i < |entries| ==> !IsEntryFor(entries[i], jobId, today)) ==>
      && r.0 == entries + [r.1]
      && r.1 == DailyEntry(newId, jobId, today, "", "", "", now)
  {
    var idx := FindIndex(entries, (e: DailyEntry) => IsEntryFor(e, jobId, today));
    if idx >= 0 then (entries, entries[idx])
    else
      var created := DailyEntry(newId, jobId, today, "", "", "", now);
      (entries + [created], created)
  }

  /** A `Partial<DailyEntry>`: `None` is a property the patch does not carry. */
  datatype Patch = Patch(
    id: Option<string>,
    jobId: Option<string>,
    date: Option<string>,
    labourSummary: Option<string>,
    materialsSummary: Option<string>,
    issuesSummary: Option<string>,
    createdAt: Option<string>
  )

  function Pick(patched: Option<string>, original: string): string {
    if patched.Some? then patched.value else original
  }

  /** `{ ...e, ...patch }`. Key properties are not protected. */
  function Merge(e: DailyEntry, patch: Patch): DailyEntry {
    DailyEntry(
      Pick(patch.id, e.id), Pick(patch.jobId, e.jobId), Pick(patch.date, e.date),
      Pick(patch.labourSummary, e.labourSummary), Pick(patch.materialsSummary, e.materialsSummary),
      Pick(patch.issuesSummary, e.issuesSummary), Pick(patch.createdAt, e.createdAt))
  }

  /** `{ ...p, ...q }` of two patches. */
  function CombinePatches(p: Patch, q: Patch): Patch {
    Patch(
      if q.id.Some? then q.id else p.id,
      if q.jobId.Some? then q.jobId else p.jobId,
      if q.date.Some? then q.date else p.date,
      if q.labourSummary.Some? then q.labourSummary else p.labourSummary,
      if q.materialsSummary.Some? then q.materialsSummary else p.materialsSummary,
      if q.issuesSummary.Some? then q.issuesSummary else p.issuesSummary,
      if q.createdAt.Some? then q.createdAt else p.createdAt)
  }

  const EmptyPatch := Patch(None, None, None, None, None, None, None)

  /** An empty patch changes nothing. */
  lemma MergeEmptyPatch(e: DailyEntry)
    ensures Merge(e, EmptyPatch) == e
  {
  }

  /** Applying the same patch twice is applying it once. */
  lemma MergeIdempotent(e: DailyEntry, patch: Patch)
    ensures Merge(Merge(e, patch), patch) == Merge(e, patch)
  {
  }

  /** Two successive updates are one update with the combined patch. */
  lemma MergeCompose(e: DailyEntry, p: Patch, q: Patch)
    ensures Merge(Merge(e, p), q) == Merge(e, CombinePatches(p, q))
  {
  }

  /** The spread does not protect key fields: each one a patch carries, on its own,
      overwrites the entry's. */
  lemma MergeOverwritesKeys(e: DailyEntry, patch: Patch)
    ensures patch.id.Some? ==> Merge(e, patch).id == patch.id.value
    ensures patch.jobId.Some? ==> Merge(e, patch).jobId == patch.jobId.value
    ensures patch.date.Some? ==> Merge(e, patch).date == patch.date.value
  {
  }

  /** `after` is `entries` with only index `i`, the first holding `id`, merged
      with `patch`, and `result` is the merged entry. */
  ghost predicate UpdatedAt(entries: seq<DailyEntry>, id: string, patch: Patch,
                            after: seq<DailyEntry>, result: DailyEntry, i: int) {
    && 0 <= i < |entries| == |after|
    && entries[i].id == id
    && (forall j :: 0 <= j < i ==> entries[j].id != id)
    && after[i] == Merge(entries[i], patch) && result == after[i]
    && (forall j :: 0 <= j < |entries| && j != i ==> after[j] == entries[j])
  }

  /** What `updateDailyEntry` leaves in the table and returns, on the loaded table. */
  function Update(entries: seq<DailyEntry>, id: string, patch: Patch): (r: (seq<DailyEntry>, Option<DailyEntry>))
    ensures |r.0| == |entries|
    ensures r.1.None? <==> forall i :: 0 <= i < |entries| ==> entries[i].id != id
    ensures r.1.None? ==> r.0 == entries
    ensures r.1.Some? ==> exists i :: 0 <= i < |entries| && UpdatedAt(entries, id, patch, r.0, r.1.value, i)
  {
    var idx := FindIndex(entries, (e: DailyEntry) => e.id == id);
    if idx < 0 then (entries, None)
    else
      var updated := entries[idx := Merge(entries[idx], patch)];
      assert UpdatedAt(entries, id, patch, updated, updated[idx], idx);
      (updated, Some(updated[idx]))
  }

  /** How many entries the table holds for one job and day. */
  function CountFor(entries: seq<DailyEntry>, jobId: string, date: string): nat {
    if entries == [] then 0
    else CountFor(entries[..|entries| - 1], jobId, date)
         + (if IsEntryFor(entries[|entries| - 1], jobId, date) then 1 else 0)
  }

  lemma {:induction false} CountForZero(entries: seq<DailyEntry>, jobId: string, date: string)
    ensures CountFor(entries, jobId, date) == 0 <==> forall i :: 0 <= i < |entries| ==> !IsEntryFor(entries[i], jobId, date)
  {
    if entries != [] {
      var init := entries[..|entries| - 1];
      CountForZero(init, jobId, date);
      assert forall i :: 0 <= i < |init| ==> init[i] == entries[i];
    }
  }

  /** Find-or-create never adds a second entry for a day: the count for today's
      key becomes at least one and grows only from zero, every other key keeps its count. */
  lemma GetOrCreateCounts(entries: seq<DailyEntry>, jobId: string, today: string, newId: string, now: string,
                          otherJob: string, otherDate: string)
    ensures var after := GetOrCreate(entries, jobId, today, newId, now).0;
      && CountFor(after, jobId, today) == (if CountFor(entries, jobId, today) == 0 then 1 else CountFor(entries, jobId, today))
      && ((otherJob, otherDate) != (jobId, today) ==> CountFor(after, otherJob, otherDate) == CountFor(entries, otherJob, otherDate))
  {
    CountForZero(entries, jobId, today);
    var after := GetOrCreate(entries, jobId, today, newId, now).0;
    if CountFor(entries, jobId, today) == 0 {
      assert after[..|after| - 1] == entries;
    }
  }

  /** No two entries share a job and day. */
  ghost predicate UniqueDays(entries: seq<DailyEntry>) {
    forall i, j :: 0 <= i < j < |entries| ==>
      !(entries[i].jobId == entries[j].jobId && entries[i].date == entries[j].date)
  }

  lemma GetOrCreatePreservesUniqueDays(entries: seq<DailyEntry>, jobId: string, today: string, newId: string, now: string)
    requires UniqueDays(entries)
    ensures UniqueDays(GetOrCreate(entries, jobId, today, newId, now).0)
  {
  }

  /** A second call on the same day returns the entry the first call returned and
      leaves the table as the first call left it, whatever id and time it is given. */
  lemma GetOrCreateIdempotent(entries: seq<DailyEntry>, jobId: string, today: string,
                              id1: string, now1: string, id2: string, now2: string)
    ensures var (table, entry) := GetOrCreate(entries, jobId, today, id1, now1);
      GetOrCreate(table, jobId, today, id2, now2) == (table, entry)
  {
    var (table, entry) := GetOrCreate(entries, jobId, today, id1, now1);
    var (table2, entry2) := GetOrCreate(table, jobId, today, id2, now2);
    if exists i :: 0 <= i < |entries| && IsEntryFor(entries[i], jobId, today) {
      var i :| 0 <= i < |entries| && entry == entries[i]
               && (forall j :: 0 <= j < i ==> !IsEntryFor(entries[j], jobId, today));
      assert IsEntryFor(table[i], jobId, today);
      var i2 :| 0 <= i2 < |table| && entry2 == table[i2]
                && (forall j :: 0 <= j < i2 ==> !IsEntryFor(table[j], jobId, today));
      assert i2 == i;
    } else {
      var n := |entries|;
      assert table[n] == entry && IsEntryFor(table[n], jobId, today);
      var i2 :| 0 <= i2 < |table| && entry2 == table[i2]
                && (forall j :: 0 <= j < i2 ==> !IsEntryFor(table[j], jobId, today));
      assert i2 == n;
    }
  }

  /** Updating an id the table does not hold changes nothing and reports no entry. */
  lemma UpdateMissingId(entries: seq<DailyEntry>, id: string, patch: Patch)
    requires forall i :: 0 <= i < |entries| ==> entries[i].id != id
    ensures Update(entries, id, patch) == (entries, None)
  {
  }

  /** The module-level table and its `loaded` flag. */
  class DailyEntryTable {
    var entries: seq<DailyEntry>
    var loaded: bool

    constructor ()
      ensures entries == [] && !loaded
    {
      entries := [];
      loaded := false;
    }

    /** `ensureLoaded`: the first call replaces the table with the well-shaped stored
        records (when storage yields a parsed array); later calls do nothing. */
    method EnsureLoaded(stored: Option<seq<StoredRecord>>)
      modifies this
      ensures loaded
      ensures entries == AfterLoad(old(entries), old(loaded), stored)
      ensures old(loaded) ==> entries == old(entries)
    {
      if loaded {
        return;
      }
      loaded := true;
      if stored.None? {
        return;
      }
      var records := stored.value;
      entries := [];
      var i := 0;
      while i < |records|
        invariant 0 <= i <= |records|
        invariant loaded
        invariant entries == LoadedEntries(records[..i])
      {
        var e := records[i];
        assert records[..i + 1][..i] == records[..i];
        if HasEntryShape(e) {
          entries := entries + [AsEntry(e)];
        }
        i := i + 1;
      }
      assert records[..i] == records;
    }

    /** `getOrCreateTodayEntry(jobId)`, with today's local date, the current
        timestamp and the id the generator would return as parameters. */
    method GetOrCreateTodayEntry(jobId: string, today: string, newId: string, now: string,
                                 stored: Option<seq<StoredRecord>>)
      returns (entry: DailyEntry)
      modifies this
      ensures loaded
      ensures (entries, entry) == GetOrCreate(AfterLoad(old(entries), old(loaded), stored), jobId, today, newId, now)
    {
      EnsureLoaded(stored);
      var idx := FindIndex(entries, (e: DailyEntry) => IsEntryFor(e, jobId, today));
      if idx >= 0 {
        entry := entries[idx];
        return;
      }
      var created := DailyEntry(newId, jobId, today, "", "", "", now);
      entries := entries + [created];
      entry := created;
    }

    /** `updateDailyEntry(id, patch)`: `None` stands for `undefined`. */
    method UpdateDailyEntry(id: string, patch: Patch, stored: Option<seq<StoredRecord>>)
      returns (result: Option<DailyEntry>)
      modifies this
      ensures loaded
      ensures (entries, result) == Update(AfterLoad(old(entries), old(loaded), stored), id, patch)
    {
      EnsureLoaded(stored);
      var idx := FindIndex(entries, (e: DailyEntry) => e.id == id);
      if idx < 0 {
        result := None;
        return;
      }
      entries := entries[idx := Merge(entries[idx], patch)];
      result := Some(entries[idx]);
    }
  }

  /** Once anything has touched the table, storage is never read again: on a fresh
      table, a second call on the same day returns what the first returned and
      leaves the table as it was, whatever storage, id and time it is then given. */
  method SecondCallSameDay(jobId: string, today: string, id1: string, now1: string, id2: string, now2: string,
                           stored1: Option<seq<StoredRecord>>, stored2: Option<seq<StoredRecord>>)
    returns (first: DailyEntry, second: DailyEntry, tableAfterFirst: seq<DailyEntry>, tableAfterSecond: seq<DailyEntry>)
    ensures second == first && tableAfterSecond == tableAfterFirst
    ensures IsEntryFor(first, jobId, today)
  {
    var table := new DailyEntryTable();
    first := table.GetOrCreateTodayEntry(jobId, today, id1, now1, stored1);
    tableAfterFirst := table.entries;
    second := table.GetOrCreateTodayEntry(jobId, today, id2, now2, stored2);
    tableAfterSecond := table.entries;
    GetOrCreateIdempotent(AfterLoad([], false, stored1), jobId, today, id1, now1, id2, now2);
  }
}
