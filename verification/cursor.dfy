/**
 * `Dbcon` (Dbcon.py): a loader that keeps a cursor `rec_count` into the
 * intermediate log, inserts the entries past it into the `attendance`
 * table, and advances and saves the cursor only after the commit.
 */
module Cursor {
  import opened Wrappers
  import opened Text
  import opened Stamp
  import opened Protocol
  import opened Journal
  import opened Store

  /** The database calls that can raise `sqlite3.Error`; each flag means "this call fails". */
  datatype DbFaults = DbFaults(connect: bool, create: bool, failingInserts: set<int>, commit: bool)

  /** The keys `Dbcon` demands of an entry before inserting it. */
  const RequiredKeys: set<string> := {"ZKID", "Timestamp", "InorOut", "attype", "Device", "SN"}

  predicate Complete(entry: Entry)
  {
    RequiredKeys <= entry.Keys
  }

  /**
   * The columns inserted for one entry: `None` when a required key is missing
   * or the timestamp is not "%Y/%m/%d %H:%M:%S"; the timestamp is stored as
   * "%Y-%m-%d %H:%M:%S".
   */
  function EntryCells(entry: Entry): (r: Option<map<string, Value>>)
    ensures r.Some? <==> Complete(entry) && ParseStamp(entry["Timestamp"], '/').Some?
    ensures r.Some? ==>
      && "Timestamp" in r.value
      && r.value["Timestamp"] == Text(FormatStamp(ParseStamp(entry["Timestamp"], '/').value, '-'))
  {
    if !Complete(entry) then None
    else
      match ParseStamp(entry["Timestamp"], '/')
      case None => None
      case Some(dt) =>
        Some(map[
          "ZKID" := Text(entry["ZKID"]), "Timestamp" := Text(FormatStamp(dt, '-')),
          "InorOut" := Text(entry["InorOut"]), "attype" := Text(entry["attype"]),
          "Device" := Text(entry["Device"]), "SN" := Text(entry["SN"]),
          "Devrec" := Field(entry, "Devrec", Text(""))])
  }

  /** The rows a batch inserts, in order: entries that convert and whose INSERT does not fail. */
  function Converted(entries: seq<Entry>, failing: set<int>): (r: seq<map<string, Value>>)
    ensures |r| <= |entries|
    decreases |entries|
  {
    if entries == [] then []
    else
      var n := |entries| - 1;
      var cells := EntryCells(entries[n]);
      Converted(entries[..n], failing) + (if cells.None? || n in failing then [] else [cells.value])
  }

  lemma ConvertedStep(entries: seq<Entry>, failing: set<int>, i: nat)
    requires i < |entries|
    ensures var cells := EntryCells(entries[i]);
      Converted(entries[..i + 1], failing) == Converted(entries[..i], failing) + (if cells.None? || i in failing then [] else [cells.value])
  {
    assert entries[..i + 1][..i] == entries[..i];
  }

  /** Entries that are incomplete or unparseable are skipped without affecting the others. */
  lemma {:induction false} ConvertedOf(entries: seq<Entry>, failing: set<int>, k: nat)
    requires k < |entries| && EntryCells(entries[k]).Some? && k !in failing
    ensures EntryCells(entries[k]).value in Converted(entries, failing)
    decreases |entries|
  {
    var n := |entries| - 1;
    var before := Converted(entries[..n], failing);
    if k < n {
      assert entries[..n][k] == entries[k];
      ConvertedOf(entries[..n], failing, k);
      var tail := if EntryCells(entries[n]).None? || n in failing then [] else [EntryCells(entries[n]).value];
      assert Converted(entries, failing) == before + tail;
    } else {
      assert Converted(entries, failing) == before + [EntryCells(entries[k]).value];
    }
  }

  /** Every inserted row is the cells of one converting entry whose INSERT did not fail. */
  lemma {:induction false} ConvertedFrom(entries: seq<Entry>, failing: set<int>, c: map<string, Value>)
    requires c in Converted(entries, failing)
    ensures exists k :: 0 <= k < |entries| && k !in failing && EntryCells(entries[k]) == Some(c)
    decreases |entries|
  {
    var n := |entries| - 1;
    var prefix := entries[..n];
    var cells := EntryCells(entries[n]);
    var tail := if cells.None? || n in failing then [] else [cells.value];
    ConvertedStep(entries, failing, n);
    assert entries[..n + 1] == entries;
    if c in Converted(prefix, failing) {
      ConvertedFrom(prefix, failing, c);
      var k :| 0 <= k < |prefix| && k !in failing && EntryCells(prefix[k]) == Some(c);
      PrefixEntry(entries, n, k);
    } else {
      assert c in tail;
    }
  }

  lemma PrefixEntry(entries: seq<Entry>, n: nat, k: nat)
    requires k < n <= |entries|
    ensures entries[..n][k] == entries[k]
  {
  }

  /** The rows of a prefix of the batch come first, in the same order. */
  lemma {:induction false} ConvertedPrefix(entries: seq<Entry>, failing: set<int>, i: nat)
    requires i <= |entries|
    ensures Converted(entries[..i], failing) <= Converted(entries, failing)
    decreases |entries| - i
  {
    if i < |entries| {
      ConvertedPrefix(entries, failing, i + 1);
      ConvertedStep(entries, failing, i);
      var a, b, c := Converted(entries[..i], failing), Converted(entries[..i + 1], failing), Converted(entries, failing);
      assert a <= b && b <= c;
      assert c[..|a|] == b[..|a|] == a;
    } else {
      assert entries[..i] == entries;
    }
  }

  /** A batch in which no entry converts inserts nothing. */
  lemma {:induction false} ConvertedNone(entries: seq<Entry>, failing: set<int>)
    requires forall k :: 0 <= k < |entries| ==> EntryCells(entries[k]).None?
    ensures Converted(entries, failing) == []
    decreases |entries|
  {
    if entries != [] {
      var n := |entries| - 1;
      ConvertedNone(entries[..n], failing);
    }
  }

  /** The table after appending `cells` with consecutive ids from `next`. */
  function Appended(rows: seq<Row>, next: int, cells: seq<map<string, Value>>): (r: seq<Row>)
    ensures |r| == |rows| + |cells| && rows <= r
    ensures forall i :: 0 <= i < |cells| ==> r[|rows| + i] == Row(next + i, cells[i])
  {
    rows + seq(|cells|, i requires 0 <= i < |cells| => Row(next + i, cells[i]))
  }

  lemma AppendedOne(rows: seq<Row>, next: int, cells: seq<map<string, Value>>, c: map<string, Value>)
    ensures Appended(rows, next, cells + [c]) == Appended(rows, next, cells) + [Row(next + |cells|, c)]
  {
    var a, b := Appended(rows, next, cells + [c]), Appended(rows, next, cells) + [Row(next + |cells|, c)];
    forall i | 0 <= i < |a| ensures a[i] == b[i] {
      if i >= |rows| {
        assert a[i] == Row(next + (i - |rows|), (cells + [c])[i - |rows|]);
      }
    }
  }

  /** `content[rec_count:]`, with Python's handling of a negative start. */
  function NewEntries(content: seq<Entry>, recCount: int): (r: seq<Entry>)
    ensures recCount >= 0 ==> r == if recCount <= |content| then content[recCount..] else []
    ensures recCount < 0 ==> r == content[if -recCount <= |content| then |content| + recCount else 0..]
  {
    Slice(content, recCount, |content|)
  }

  /**
   * After a committed batch the cursor has moved by the number of new
   * entries, skipped ones included, so it never moves back; from a
   * non-negative cursor it lands on the end of the log.
   */
  lemma CursorAdvance(content: seq<Entry>, recCount: int)
    requires recCount < |content|
    ensures var moved := recCount + |NewEntries(content, recCount)|;
      recCount <= moved <= |content| && (recCount >= 0 ==> moved == |content|)
  {
  }

  /** The cursor is a decimal string in Settings.json. */
  lemma SavedCursorReadsBack(recCount: int)
    ensures ParseInt(IntToString(recCount)) == Some(recCount)
  {
    IntRoundTrip(recCount);
  }

  /** For four-digit years the stored timestamp differs from the logged one only in its date separators. */
  lemma StoredTimestamp(s: string)
    requires ParseStamp(s, '/').Some? && ParseStamp(s, '/').value.year >= 1000
    ensures FormatStamp(ParseStamp(s, '/').value, '-') == s[..4] + "-" + s[5..7] + "-" + s[8..]
  {
    ReformatChangesOnlySeparators(s, '/', '-');
  }

  /** Whether a run leaves everything as it was: nothing to read, nothing new, or a database failure. */
  predicate Untouched(file: JsonFile, recCount: int, faults: DbFaults)
  {
    !file.List? || recCount >= |file.entries| || faults.connect || faults.create || faults.commit
  }

  /** One pass of that loop: entry `i` is inserted, or skipped when it does not convert or its INSERT fails. */
  method InsertEntry(t: Table, entries: seq<Entry>, failing: set<int>, i: nat, ghost start: seq<Row>, ghost next: int)
    requires i < |entries| && t.Valid()
    requires t.rows == Appended(start, next, Converted(entries[..i], failing))
    requires t.nextId == next + |Converted(entries[..i], failing)|
    modifies t
    ensures t.Valid()
    ensures t.rows == Appended(start, next, Converted(entries[..i + 1], failing))
    ensures t.nextId == next + |Converted(entries[..i + 1], failing)|
  {
    ghost var done := Converted(entries[..i], failing);
    ConvertedStep(entries, failing, i);
    var cells := EntryCells(entries[i]);
    if cells.None? {
      // a missing key or a `strptime` ValueError: this entry only is skipped
      assert done + [] == done;
      return;
    }
    if i in failing {
      // the INSERT raised and was logged
      assert done + [] == done;
      return;
    }
    AppendedOne(start, next, done, cells.value);
    t.Insert(cells.value);
  }

  /** The `for entry in new_entries` loop of `process_attlog_file`, before the commit. */
  method InsertBatch(t: Table, entries: seq<Entry>, failing: set<int>)
    requires t.Valid()
    modifies t
    ensures t.Valid()
    ensures t.rows == Appended(old(t.rows), old(t.nextId), Converted(entries, failing))
    ensures t.nextId == old(t.nextId) + |Converted(entries, failing)|
  {
    ghost var start, next := t.rows, t.nextId;
    for i := 0 to |entries|
      invariant t.rows == Appended(start, next, Converted(entries[..i], failing))
      invariant t.nextId == next + |Converted(entries[..i], failing)|
      invariant t.Valid()
    {
      InsertEntry(t, entries, failing, i, start, next);
    }
    assert entries[..|entries|] == entries;
  }

  class Dbcon {
    /** `rec_count`: how many log entries earlier batches covered. */
    var recCount: int
    /** The "Rec Count" saved in Settings.json; `None` while the file does not exist. */
    var saved: Option<string>

    /** `Dbcon()`: the cursor comes from Settings.json, or is 0 when there is none. */
    constructor(settings: Option<string>)
      requires settings.Some? ==> ParseInt(settings.value).Some?
      ensures recCount == (if settings.Some? then ParseInt(settings.value).value else 0)
      ensures saved == settings
    {
      recCount := if settings.Some? then ParseInt(settings.value).value else 0;
      saved := settings;
    }

    /**
     * `process_attlog_file`. An empty, missing or undecodable file, a cursor at
     * or past the end, or a failed connect, CREATE TABLE or commit leave the
     * table and the cursor as they were; otherwise the batch's rows are added
     * and the cursor moves past every new entry and is saved.
     */
    method ProcessAttlogFile(file: JsonFile, t: Table, faults: DbFaults)
      requires t.Valid()
      modifies this, t
      ensures t.Valid()
      ensures Untouched(file, old(recCount), faults) ==>
        recCount == old(recCount) && saved == old(saved) && t.rows == old(t.rows) && t.nextId == old(t.nextId)
      ensures !Untouched(file, old(recCount), faults) ==>
        var batch := NewEntries(file.entries, old(recCount));
        var cells := Converted(batch, faults.failingInserts);
        && recCount == old(recCount) + |batch|
        && saved == Some(IntToString(recCount))
        && t.rows == Appended(old(t.rows), old(t.nextId), cells)
        && t.nextId == old(t.nextId) + |cells|
    {
      if !file.List? {
        return;
      }
      var content := file.entries;
      if recCount >= |content| {
        return;
      }
      var newEntries := NewEntries(content, recCount);
      if faults.connect || faults.create {
        return;
      }
      var start, next := t.rows, t.nextId;
      InsertBatch(t, newEntries, faults.failingInserts);
      if faults.commit {
        // the uncommitted inserts are rolled back when the connection closes
        t.rows, t.nextId := start, next;
        return;
      }
      recCount := recCount + |newEntries|;
      saved := Some(IntToString(recCount));
    }
  }
}
