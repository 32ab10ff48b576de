/**
 * The SQLite table `attendance` and the two passes of the sync loop that work
 * on it: `process_attlog_file` copies log records into the table unless a row
 * with the same (ZKID, Timestamp) exists (ft-zktco.py:394-432, FT-ZK.py:346-388),
 * and `post_records` sends every row without a RESPONSE to the remote API and
 * stores the receipt it gets back (ft-zktco.py:450-518, FT-ZK.py:406-474).
 */
module Store {
  import opened Wrappers
  import opened Text
  import opened Stamp
  import opened Protocol
  import opened Journal

  /** An SQLite cell. */
  datatype Value = Null | Text(s: string) | Num(n: int)

  /** A row: its `id` (INTEGER PRIMARY KEY AUTOINCREMENT) and its other columns. */
  datatype Row = Row(id: int, cells: map<string, Value>)

  /** A column's value; a column the row does not have reads as NULL. */
  function Cell(row: Row, column: string): Value
  {
    if column in row.cells then row.cells[column] else Null
  }

  /** Ids strictly increase along the table, as rowids do. */
  predicate Increasing(rows: seq<Row>)
  {
    forall i, j :: 0 <= i < j < |rows| ==> rows[i].id < rows[j].id
  }

  /** Ids increase and stay below the AUTOINCREMENT counter. */
  predicate IdsBelow(rows: seq<Row>, next: int)
  {
    (forall i :: 0 <= i < |rows| ==> rows[i].id < next) && Increasing(rows)
  }

  /** The `attendance` table, in rowid order, and the id the next insert gets. */
  class Table {
    var rows: seq<Row>
    var nextId: int

    ghost predicate Valid()
      reads this
    {
      IdsBelow(rows, nextId)
    }

    /** `CREATE TABLE attendance (...)`: empty, the first id is 1. */
    constructor()
      ensures rows == [] && nextId == 1 && Valid()
    {
      rows := [];
      nextId := 1;
    }

    /** `INSERT INTO attendance ...`: a new row with the next id. */
    method Insert(cells: map<string, Value>)
      requires Valid()
      modifies this
      ensures rows == old(rows) + [Row(old(nextId), cells)] && nextId == old(nextId) + 1
      ensures Valid()
    {
      rows := rows + [Row(nextId, cells)];
      nextId := nextId + 1;
    }

    /** `UPDATE attendance SET ... WHERE id = ?`. */
    method Update(id: int, sets: map<string, Value>)
      requires Valid()
      modifies this
      ensures rows == SetWhereId(old(rows), id, sets) && nextId == old(nextId)
      ensures Valid()
    {
      rows := SetWhereId(rows, id, sets);
    }
  }

  /** The rows with the given columns overwritten where the id matches. */
  function SetWhereId(rows: seq<Row>, id: int, sets: map<string, Value>): (r: seq<Row>)
    ensures |r| == |rows|
    ensures forall i :: 0 <= i < |rows| ==> r[i].id == rows[i].id
    ensures forall i :: 0 <= i < |rows| && rows[i].id != id ==> r[i] == rows[i]
    ensures forall i :: 0 <= i < |rows| && rows[i].id == id ==> r[i].cells == rows[i].cells + sets
  {
    seq(|rows|, i requires 0 <= i < |rows| => if rows[i].id == id then rows[i].(cells := rows[i].cells + sets) else rows[i])
  }

  // ---------------------------------------------------------------- process_attlog_file

  /** The (ZKID, Timestamp) pair `record_exists` looks up. */
  function RowKey(row: Row): (Value, Value)
  {
    (Cell(row, "ZKID"), Cell(row, "Timestamp"))
  }

  /** `record_exists(cursor, zkid, ts)`. */
  predicate Present(rows: seq<Row>, zkid: string, ts: string)
  {
    exists i :: 0 <= i < |rows| && RowKey(rows[i]) == (Text(zkid), Text(ts))
  }

  /** The loader only considers records with both a ZKID and a timestamp. */
  predicate Loadable(rec: Entry)
  {
    "ZKID" in rec && "timestamp" in rec
  }

  /** `record.get(key, default)`. */
  function Field(rec: Entry, key: string, default: Value): Value
  {
    if key in rec then Text(rec[key]) else default
  }

  /** The columns the INSERT of `process_attlog_file` fills; the three receipt columns stay NULL. */
  function InsertedCells(rec: Entry): (c: map<string, Value>)
    requires Loadable(rec)
    ensures "ZKID" in c && c["ZKID"] == Text(rec["ZKID"])
    ensures "Timestamp" in c && c["Timestamp"] == Text(rec["timestamp"])
    ensures "RESPONSE" in c && c["RESPONSE"] == Null
  {
    map[
      "ZKID" := Text(rec["ZKID"]), "Timestamp" := Text(rec["timestamp"]),
      "InorOut" := Field(rec, "inorout", Null), "attype" := Field(rec, "attype", Null),
      "col1" := Field(rec, "col1", Text("")), "col2" := Field(rec, "col2", Text("")),
      "col3" := Field(rec, "col3", Text("")), "col4" := Field(rec, "col4", Text("")),
      "col5" := Field(rec, "col5", Text("")), "col6" := Field(rec, "col6", Text("")),
      "col7" := Field(rec, "col7", Text("")), "SN" := Field(rec, "SN", Text("")),
      "log_timestamp" := Field(rec, "log_timestamp", Text("")),
      "FTID" := Null, "KEY" := Null, "RESPONSE" := Null]
  }

  /**
   * The table (rows and next id) after the loader has gone through `recs`:
   * a record is inserted when it has both keys and no row has its
   * (ZKID, Timestamp) yet, rows inserted earlier in the same run included.
   */
  function Load(rows: seq<Row>, next: int, recs: seq<Entry>): (r: (seq<Row>, int))
    ensures rows <= r.0
    ensures r.1 == next + (|r.0| - |rows|)
    ensures forall i :: |rows| <= i < |r.0| ==> r.0[i].id == next + (i - |rows|)
    decreases |recs|
  {
    if recs == [] then (rows, next)
    else
      var n := |recs| - 1;
      var (before, id) := Load(rows, next, recs[..n]);
      var rec := recs[n];
      if !Loadable(rec) || Present(before, rec["ZKID"], rec["timestamp"]) then (before, id)
      else (before + [Row(id, InsertedCells(rec))], id + 1)
  }

  lemma LoadStep(rows: seq<Row>, next: int, recs: seq<Entry>, i: nat)
    requires i < |recs|
    ensures var (before, id) := Load(rows, next, recs[..i]);
      var rec := recs[i];
      Load(rows, next, recs[..i + 1]) ==
        if !Loadable(rec) || Present(before, rec["ZKID"], rec["timestamp"]) then (before, id)
        else (before + [Row(id, InsertedCells(rec))], id + 1)
  {
    assert recs[..i + 1][..i] == recs[..i];
  }

  /** The loader keeps the AUTOINCREMENT order of ids. */
  lemma LoadKeepsIds(rows: seq<Row>, next: int, recs: seq<Entry>)
    requires IdsBelow(rows, next)
    ensures IdsBelow(Load(rows, next, recs).0, Load(rows, next, recs).1)
  {
  }

  /** Every row from index `from` on has a key that no earlier row has. */
  predicate FreshKeys(r: seq<Row>, from: nat)
  {
    forall i, j :: 0 <= i < j < |r| && from <= j ==> RowKey(r[i]) != RowKey(r[j])
  }

  /** A row the loader inserts has a key no row before it has: `record_exists` guards every insert. */
  lemma {:induction false} LoadNeverDuplicates(rows: seq<Row>, next: int, recs: seq<Entry>)
    ensures FreshKeys(Load(rows, next, recs).0, |rows|)
    decreases |recs|
  {
    if recs != [] {
      var n := |recs| - 1;
      LoadNeverDuplicates(rows, next, recs[..n]);
      var before := Load(rows, next, recs[..n]).0;
      var id := Load(rows, next, recs[..n]).1;
      var rec := recs[n];
      if Loadable(rec) && !Present(before, rec["ZKID"], rec["timestamp"]) {
        var added := Row(id, InsertedCells(rec));
        var r := before + [added];
        assert Load(rows, next, recs).0 == r;
        assert RowKey(added) == (Text(rec["ZKID"]), Text(rec["timestamp"]));
        forall i, j | 0 <= i < j < |r| && |rows| <= j ensures RowKey(r[i]) != RowKey(r[j]) {
          assert r[i] == before[i];
          if j < |before| {
            assert r[j] == before[j];
            assert RowKey(before[i]) != RowKey(before[j]);
          } else {
            assert r[j] == added;
            assert !(RowKey(before[i]) == (Text(rec["ZKID"]), Text(rec["timestamp"])));
          }
        }
      } else {
        assert Load(rows, next, recs).0 == before;
      }
    }
  }

  /**
   * Every row the loader adds holds the columns of one record of the file
   * that has both keys: records without them are skipped.
   */
  lemma {:induction false} LoadFrom(rows: seq<Row>, next: int, recs: seq<Entry>, i: nat)
    requires |rows| <= i < |Load(rows, next, recs).0|
    ensures exists k :: 0 <= k < |recs| && Loadable(recs[k]) && Load(rows, next, recs).0[i].cells == InsertedCells(recs[k])
    decreases |recs|
  {
    var n := |recs| - 1;
    var (before, id) := Load(rows, next, recs[..n]);
    var after := Load(rows, next, recs).0;
    var rec := recs[n];
    if i < |before| {
      LoadFrom(rows, next, recs[..n], i);
      var k :| 0 <= k < n && Loadable(recs[..n][k]) && before[i].cells == InsertedCells(recs[..n][k]);
      assert recs[..n][k] == recs[k];
      assert after[i] == before[i];
    } else {
      assert after == before + [Row(id, InsertedCells(rec))];
      assert after[i].cells == InsertedCells(recs[n]);
    }
  }

  /** After a run, every record that has both keys is represented by a row with its key. */
  lemma {:induction false} LoadCovers(rows: seq<Row>, next: int, recs: seq<Entry>, k: nat)
    requires k < |recs| && Loadable(recs[k])
    ensures Present(Load(rows, next, recs).0, recs[k]["ZKID"], recs[k]["timestamp"])
    decreases |recs|
  {
    var n := |recs| - 1;
    var (before, id) := Load(rows, next, recs[..n]);
    var after := Load(rows, next, recs).0;
    if k < n {
      assert recs[..n][k] == recs[k];
      LoadCovers(rows, next, recs[..n], k);
      var i :| 0 <= i < |before| && RowKey(before[i]) == (Text(recs[k]["ZKID"]), Text(recs[k]["timestamp"]));
      assert after[i] == before[i];
    } else if !Present(before, recs[k]["ZKID"], recs[k]["timestamp"]) {
      assert after[|before|] == Row(id, InsertedCells(recs[k]));
    }
  }

  /** When every record with both keys is already represented, the loader inserts nothing. */
  lemma {:induction false} LoadNothingNew(rows: seq<Row>, next: int, recs: seq<Entry>)
    requires forall k :: 0 <= k < |recs| && Loadable(recs[k]) ==> Present(rows, recs[k]["ZKID"], recs[k]["timestamp"])
    ensures Load(rows, next, recs) == (rows, next)
    decreases |recs|
  {
    if recs != [] {
      var n := |recs| - 1;
      forall k | 0 <= k < n && Loadable(recs[..n][k])
        ensures Present(rows, recs[..n][k]["ZKID"], recs[..n][k]["timestamp"])
      {
        assert recs[..n][k] == recs[k];
      }
      LoadNothingNew(rows, next, recs[..n]);
    }
  }

  /** A second run over the same log adds no rows. */
  lemma LoadIdempotent(rows: seq<Row>, next: int, recs: seq<Entry>)
    ensures var (once, id) := Load(rows, next, recs);
      Load(once, id, recs) == (once, id)
  {
    var (once, id) := Load(rows, next, recs);
    forall k | 0 <= k < |recs| && Loadable(recs[k])
      ensures Present(once, recs[k]["ZKID"], recs[k]["timestamp"])
    {
      LoadCovers(rows, next, recs, k);
    }
    LoadNothingNew(once, id, recs);
  }

  /**
   * The log may hold the same punch twice with different `log_timestamp`
   * values (`write_to_file` compares whole records); the table gets one row.
   */
  lemma RestampedPunchLoadsOnce(rows: seq<Row>, next: int, e: Entry, sn: string, first: string, again: string)
    requires Loadable(e) && !Present(rows, e["ZKID"], e["timestamp"])
    ensures var r := Load(rows, next, [Tagged(e, sn, first), Tagged(e, sn, again)]).0;
      |r| == |rows| + 1
  {
    var a, b := Tagged(e, sn, first), Tagged(e, sn, again);
    assert |"ZKID"| != |"SN"| && |"ZKID"| != |"log_timestamp"|;
    assert |"timestamp"| != |"SN"| && |"timestamp"| != |"log_timestamp"|;
    assert a["ZKID"] == e["ZKID"] && a["timestamp"] == e["timestamp"];
    assert b["ZKID"] == e["ZKID"] && b["timestamp"] == e["timestamp"];
    var recs := [a, b];
    assert recs[..1] == [a];
    var none: seq<Entry> := [];
    assert [a][..0] == none;
    assert Load(rows, next, [a][..0]) == (rows, next);
    assert Loadable(a);
    assert !Present(rows, a["ZKID"], a["timestamp"]);
    var once := Load(rows, next, [a]).0;
    assert once == rows + [Row(next, InsertedCells(a))];
    assert RowKey(once[|rows|]) == (Text(b["ZKID"]), Text(b["timestamp"]));
  }

  /** `process_attlog_file`: only a readable JSON list is loaded; then the whole run is committed. */
  method ProcessAttlogFile(file: JsonFile, t: Table)
    requires t.Valid()
    modifies t
    ensures file.List? ==> (t.rows, t.nextId) == Load(old(t.rows), old(t.nextId), file.entries)
    ensures !file.List? ==> t.rows == old(t.rows) && t.nextId == old(t.nextId)
    ensures t.Valid()
  {
    if !file.List? {
      return;
    }
    var content := file.entries;
    ghost var start, next := t.rows, t.nextId;
    for i := 0 to |content|
      invariant (t.rows, t.nextId) == Load(start, next, content[..i])
      invariant t.Valid()
    {
      LoadStep(start, next, content, i);
      var rec := content[i];
      if !("ZKID" in rec && "timestamp" in rec) {
        continue;
      }
      if !Present(t.rows, rec["ZKID"], rec["timestamp"]) {
        t.Insert(InsertedCells(rec));
      }
    }
    assert content[..|content|] == content;
  }

  // ---------------------------------------------------------------- post_records

  /** The columns `post_records` leaves out of the payload. */
  const PostExcluded: set<string> :=
    {"id", "FTID", "RESPONSE", "KEY", "col1", "col2", "col3", "col4", "col5", "col6", "col7", "log_timestamp"}

  /**
   * The payload's date rewrite: a text value with '-' and ':' that `strptime`
   * reads as "%Y-%m-%d %H:%M:%S" is written as "%Y/%m/%d %H:%M:%S"; any other
   * value goes out unchanged.
   */
  function Rewrite(v: Value): (r: Value)
    ensures r != v ==> v.Text? && r.Text? && ParseStamp(v.s, '-').Some?
    ensures v.Text? && ParseStamp(v.s, '-').Some? ==> r == Text(FormatStamp(ParseStamp(v.s, '-').value, '/'))
  {
    if v.Text? && '-' in v.s && ':' in v.s then
      match ParseStamp(v.s, '-')
      case Some(dt) => Text(FormatStamp(dt, '/'))
      case None => v
    else v
  }

  /** For four-digit years the rewrite turns the two date dashes into slashes and nothing else. */
  lemma RewriteOnlySeparators(s: string)
    requires ParseStamp(s, '-').Some? && ParseStamp(s, '-').value.year >= 1000
    ensures Rewrite(Text(s)) == Text(s[..4] + "/" + s[5..7] + "/" + s[8..])
  {
    ReformatChangesOnlySeparators(s, '-', '/');
    assert s[4] == '-' && s[13] == ':';
  }

  /** The JSON object posted for a row: every column but the excluded ones, dates rewritten. */
  function Payload(row: Row, excluded: set<string>): (p: map<string, Value>)
    ensures p.Keys == row.cells.Keys - excluded
    ensures forall k :: k in p ==> p[k] == Rewrite(row.cells[k])
  {
    map k | k in row.cells && k !in excluded :: Rewrite(row.cells[k])
  }

  /** What the remote API did with one POST. */
  datatype Exchange =
    | Failed                                                     // `requests` raised, or the body is not JSON
    | Answered(status: int, first: Option<map<string, Value>>)   // `None`: the JSON body has no element 0

  /** `post_records` skips a row whose RESPONSE is neither NULL nor "". */
  predicate HasResponse(row: Row)
  {
    Cell(row, "RESPONSE") != Null && Cell(row, "RESPONSE") != Text("")
  }

  /** The receipt columns set from the API's first result object. */
  function Receipt(first: map<string, Value>): (sets: map<string, Value>)
    requires "status" in first && "key" in first && "id" in first
    ensures sets.Keys == {"RESPONSE", "KEY", "FTID"}
    ensures sets["RESPONSE"] == first["status"] && sets["KEY"] == first["key"] && sets["FTID"] == first["id"]
  {
    map["RESPONSE" := first["status"], "KEY" := first["key"], "FTID" := first["id"]]
  }

  /** A reply that makes `post_records` store a receipt: HTTP 200 and a first object with a `key`. */
  predicate Accepted(reply: Exchange)
  {
    reply.Answered? && reply.status == 200 && reply.first.Some? && "key" in reply.first.value
    && "status" in reply.first.value && "id" in reply.first.value
  }

  /**
   * A reply on which `post_records` raises out of the pass: a 200 whose body
   * has no first element, or whose first object has `key` but lacks `status`
   * or `id`.
   */
  predicate Fatal(reply: Exchange)
  {
    reply.Answered? && reply.status == 200
    && (reply.first.None? || ("key" in reply.first.value && !("status" in reply.first.value && "id" in reply.first.value)))
  }

  /** The table, the payloads sent so far, and whether the pass has been cut short. */
  datatype Pass = Pass(rows: seq<Row>, sent: seq<map<string, Value>>, halted: bool)

  /** One row of the snapshot `post_records` iterates over. */
  function PostStep(p: Pass, row: Row, reply: Exchange): (r: Pass)
    ensures |r.rows| == |p.rows|
    ensures forall i :: 0 <= i < |p.rows| ==> r.rows[i].id == p.rows[i].id
    ensures p.halted || HasResponse(row) ==> r == p
    ensures !p.halted && !HasResponse(row) ==> r.sent == p.sent + [Payload(row, PostExcluded)]
    ensures r.halted <==> p.halted || (!HasResponse(row) && Fatal(reply))
    ensures !p.halted && !HasResponse(row) && Accepted(reply) ==>
      r.rows == SetWhereId(p.rows, row.id, Receipt(reply.first.value))
    ensures !Accepted(reply) ==> r.rows == p.rows
  {
    if p.halted || HasResponse(row) then p
    else
      var q := p.(sent := p.sent + [Payload(row, PostExcluded)]);
      if Accepted(reply) then q.(rows := SetWhereId(q.rows, row.id, Receipt(reply.first.value)))
      else if Fatal(reply) then q.(halted := true)
      else q
  }

  /** The pass over the first `n` rows of the snapshot `rows`, one reply per row. */
  function PostPass(rows: seq<Row>, replies: seq<Exchange>, n: nat): (r: Pass)
    requires n <= |rows| && |replies| == |rows|
    ensures |r.rows| == |rows| && |r.sent| <= n
  {
    if n == 0 then Pass(rows, [], false)
    else PostStep(PostPass(rows, replies, n - 1), rows[n - 1], replies[n - 1])
  }

  /** The pass never changes a row's id. */
  lemma {:induction false} PassIds(rows: seq<Row>, replies: seq<Exchange>, n: nat, k: nat)
    requires n <= |rows| && |replies| == |rows| && k < |rows|
    ensures PostPass(rows, replies, n).rows[k].id == rows[k].id
    decreases n
  {
    if n > 0 {
      PassIds(rows, replies, n - 1, k);
    }
  }

  /** `post_records`: returns the payloads it posted, in order. */
  method PostRecords(t: Table, replies: seq<Exchange>) returns (sent: seq<map<string, Value>>)
    requires t.Valid() && |replies| == |t.rows|
    modifies t
    ensures (t.rows, sent) == (PostPass(old(t.rows), replies, |replies|).rows, PostPass(old(t.rows), replies, |replies|).sent)
    ensures t.Valid()
  {
    var records := t.rows;
    sent := [];
    for i := 0 to |records|
      invariant Pass(t.rows, sent, false) == PostPass(records, replies, i)
      invariant t.Valid()
    {
      var halted;
      sent, halted := PostOne(t, sent, records[i], replies[i]);
      if halted {
        HaltedStaysHalted(records, replies, i + 1);
        return;
      }
    }
  }

  /** The body of the loop of `post_records` for one row of the snapshot. */
  method PostOne(t: Table, sent0: seq<map<string, Value>>, record: Row, reply: Exchange)
    returns (sent: seq<map<string, Value>>, halted: bool)
    requires t.Valid()
    modifies t
    ensures Pass(t.rows, sent, halted) == PostStep(Pass(old(t.rows), sent0, false), record, reply)
    ensures t.Valid()
  {
    sent, halted := sent0, false;
    if HasResponse(record) {
      return;
    }
    sent := sent + [Payload(record, PostExcluded)];
    if reply.Failed? || reply.status != 200 {
      return;
    }
    if reply.first.None? {
      // `response.json()[0]` raises: the rest of the pass is abandoned
      halted := true;
      return;
    }
    var first := reply.first.value;
    if "key" !in first {
      return;
    }
    if !("status" in first && "id" in first) {
      // the UPDATE's parameters raise `KeyError`
      halted := true;
      return;
    }
    t.Update(record.id, Receipt(first));
  }

  /** Once the pass is cut short, the remaining rows change nothing. */
  lemma {:induction false} HaltedStaysHalted(rows: seq<Row>, replies: seq<Exchange>, n: nat)
    requires n <= |rows| && |replies| == |rows| && PostPass(rows, replies, n).halted
    ensures PostPass(rows, replies, |rows|) == PostPass(rows, replies, n)
    decreases |rows| - n
  {
    if n < |rows| {
      assert PostPass(rows, replies, n + 1) == PostPass(rows, replies, n);
      HaltedStaysHalted(rows, replies, n + 1);
    }
  }

  /**
   * Whether the pass stores a receipt on row `k`: the pass reaches it before
   * any crash, the row has no RESPONSE, and the API accepts its POST.
   */
  predicate Stores(rows: seq<Row>, replies: seq<Exchange>, k: nat)
    requires k < |rows| && |replies| == |rows|
  {
    Posted(rows, replies, k) && Accepted(replies[k])
  }

  /** Whether the pass posts row `k`: it reaches the row before any crash and the row has no RESPONSE. */
  predicate Posted(rows: seq<Row>, replies: seq<Exchange>, k: nat)
    requires k < |rows| && |replies| == |rows|
  {
    !PostPass(rows, replies, k).halted && !HasResponse(rows[k])
  }

  /** Later rows only add payloads: what is posted after `k` rows starts what is posted after `n`. */
  lemma {:induction false} SentGrows(rows: seq<Row>, replies: seq<Exchange>, k: nat, n: nat)
    requires k <= n <= |rows| && |replies| == |rows|
    ensures PostPass(rows, replies, k).sent <= PostPass(rows, replies, n).sent
    decreases n
  {
    if k < n {
      SentGrows(rows, replies, k, n - 1);
    }
  }

  lemma SentStep(rows: seq<Row>, replies: seq<Exchange>, n: nat)
    requires n < |rows| && |replies| == |rows|
    ensures var before := PostPass(rows, replies, n).sent;
      PostPass(rows, replies, n + 1).sent == before + if Posted(rows, replies, n) then [Payload(rows[n], PostExcluded)] else []
  {
  }

  /** A payload is posted exactly when it is the payload of a row the pass posts. */
  lemma SentMembers(rows: seq<Row>, replies: seq<Exchange>, n: nat, x: map<string, Value>)
    requires n <= |rows| && |replies| == |rows|
    ensures x in PostPass(rows, replies, n).sent <==>
      exists k :: 0 <= k < n && Posted(rows, replies, k) && x == Payload(rows[k], PostExcluded)
  {
    if x in PostPass(rows, replies, n).sent {
      SentPosted(rows, replies, n, x);
    }
    if exists k :: 0 <= k < n && Posted(rows, replies, k) && x == Payload(rows[k], PostExcluded) {
      var k :| 0 <= k < n && Posted(rows, replies, k) && x == Payload(rows[k], PostExcluded);
      PostedSent(rows, replies, n, k);
    }
  }

  /** Every row the pass posts has its payload among those sent. */
  lemma PostedSent(rows: seq<Row>, replies: seq<Exchange>, n: nat, k: nat)
    requires k < n <= |rows| && |replies| == |rows| && Posted(rows, replies, k)
    ensures Payload(rows[k], PostExcluded) in PostPass(rows, replies, n).sent
  {
    SentStep(rows, replies, k);
    SentGrows(rows, replies, k + 1, n);
  }

  /** Every payload sent belongs to a row the pass posts. */
  lemma {:induction false} SentPosted(rows: seq<Row>, replies: seq<Exchange>, n: nat, x: map<string, Value>)
    requires n <= |rows| && |replies| == |rows| && x in PostPass(rows, replies, n).sent
    ensures exists k :: 0 <= k < n && Posted(rows, replies, k) && x == Payload(rows[k], PostExcluded)
    decreases n
  {
    SentStep(rows, replies, n - 1);
    if x in PostPass(rows, replies, n - 1).sent {
      SentPosted(rows, replies, n - 1, x);
    } else {
      assert Posted(rows, replies, n - 1) && x == Payload(rows[n - 1], PostExcluded);
    }
  }

  /** The row at `k` after `n` steps: with its receipt if the pass stored one on it, and as it was otherwise. */
  ghost predicate RowOutcome(rows: seq<Row>, replies: seq<Exchange>, n: nat, k: nat)
    requires n <= |rows| && |replies| == |rows| && k < |rows|
  {
    PostPass(rows, replies, n).rows[k] ==
      if k < n && Stores(rows, replies, k) then rows[k].(cells := rows[k].cells + Receipt(replies[k].first.value))
      else rows[k]
  }

  /**
   * After the pass a row carries RESPONSE, KEY and FTID from the API's reply
   * exactly when the pass stored a receipt on it; every other row, those
   * with a RESPONSE, those rejected and those after a crash, is as it was.
   */
  lemma PostRowOutcome(rows: seq<Row>, replies: seq<Exchange>, n: nat, k: nat)
    requires n <= |rows| && |replies| == |rows| && k < |rows|
    requires Increasing(rows)
    ensures k < n && Stores(rows, replies, k) ==>
      PostPass(rows, replies, n).rows[k] == rows[k].(cells := rows[k].cells + Receipt(replies[k].first.value))
    ensures !(k < n && Stores(rows, replies, k)) ==> PostPass(rows, replies, n).rows[k] == rows[k]
  {
    RowOutcomeAll(rows, replies, n, k);
  }

  lemma {:induction false} RowOutcomeAll(rows: seq<Row>, replies: seq<Exchange>, n: nat, k: nat)
    requires n <= |rows| && |replies| == |rows| && k < |rows|
    requires Increasing(rows)
    ensures RowOutcome(rows, replies, n, k)
    decreases n
  {
    if n > 0 {
      RowOutcomeAll(rows, replies, n - 1, k);
      RowOutcomeStep(rows, replies, n - 1, k);
    }
  }

  lemma RowOutcomeStep(rows: seq<Row>, replies: seq<Exchange>, n: nat, k: nat)
    requires n < |rows| && |replies| == |rows| && k < |rows|
    requires Increasing(rows) && RowOutcome(rows, replies, n, k)
    ensures RowOutcome(rows, replies, n + 1, k)
  {
    var p := PostPass(rows, replies, n);
    var row := rows[n];
    PassIds(rows, replies, n, k);
    if k != n {
      if !p.halted && !HasResponse(row) && Accepted(replies[n]) {
        assert rows[k].id != row.id;
      }
    } else {
      ReceiptOnce(rows, replies, n);
    }
  }

  /** Before its own turn a row is untouched, because ids are unique. */
  lemma {:induction false} ReceiptOnce(rows: seq<Row>, replies: seq<Exchange>, k: nat)
    requires k < |rows| && |replies| == |rows|
    requires Increasing(rows)
    ensures PostPass(rows, replies, k).rows[k] == rows[k]
    decreases k
  {
    if k > 0 {
      var p := PostPass(rows, replies, k - 1);
      assert rows[k - 1].id != rows[k].id;
      ReceiptOnceBefore(rows, replies, k - 1, k);
    }
  }

  lemma {:induction false} ReceiptOnceBefore(rows: seq<Row>, replies: seq<Exchange>, n: nat, k: nat)
    requires n <= k < |rows| && |replies| == |rows|
    requires Increasing(rows)
    ensures PostPass(rows, replies, n).rows[k] == rows[k]
    decreases n
  {
    if n > 0 {
      ReceiptOnceBefore(rows, replies, n - 1, k);
      assert rows[n - 1].id != rows[k].id;
    }
  }

  /** Nothing posted carries an excluded column. */
  lemma {:induction false} PayloadsExclude(rows: seq<Row>, replies: seq<Exchange>, n: nat)
    requires n <= |rows| && |replies| == |rows|
    ensures forall p :: p in PostPass(rows, replies, n).sent ==> p.Keys !! PostExcluded
    decreases n
  {
    if n > 0 {
      PayloadsExclude(rows, replies, n - 1);
    }
  }
}
