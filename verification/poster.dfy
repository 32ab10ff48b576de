/**
 * `PostScript` (Post.py): posts the rows of `attendance` that have no
 * RESPONSE yet and stores the API's receipt, remembering in
 * `last_processed_id` how far it has come.
 */
module Poster {
  import opened Wrappers
  import opened Store

  /** The columns Post.py leaves out of the payload. */
  const ScriptExcluded: set<string> := {"string", "id", "FTID", "RESPONSE", "KEY"}

  /** `SELECT * FROM attendance WHERE id > ? AND RESPONSE IS NULL`, in rowid order. */
  function Fetch(rows: seq<Row>, mark: int): (r: seq<Row>)
    ensures |r| <= |rows|
    ensures forall x :: x in r <==> x in rows && x.id > mark && Cell(x, "RESPONSE") == Null
    decreases |rows|
  {
    if rows == [] then []
    else
      var n := |rows| - 1;
      var x := rows[n];
      assert rows == rows[..n] + [x];
      Fetch(rows[..n], mark) + (if x.id > mark && Cell(x, "RESPONSE") == Null then [x] else [])
  }

  /** The fetched rows come in increasing id order. */
  lemma {:induction false} FetchIncreasing(rows: seq<Row>, mark: int)
    requires Increasing(rows)
    ensures Increasing(Fetch(rows, mark))
    decreases |rows|
  {
    if rows != [] {
      var n := |rows| - 1;
      var x := rows[n];
      IncreasingPrefix(rows, n);
      var before := Fetch(rows[..n], mark);
      FetchIncreasing(rows[..n], mark);
      if x.id > mark && Cell(x, "RESPONSE") == Null {
        forall a | 0 <= a < |before| ensures before[a].id < x.id {
          BelowLast(rows, before[a]);
        }
        IncreasingAppend(before, x);
      } else {
        assert Fetch(rows, mark) == before + [];
      }
    }
  }

  lemma IncreasingPrefix(rows: seq<Row>, n: nat)
    requires Increasing(rows) && n <= |rows|
    ensures Increasing(rows[..n])
  {
  }

  /** A row of the prefix lies below the last row. */
  lemma BelowLast(rows: seq<Row>, y: Row)
    requires Increasing(rows) && rows != [] && y in rows[..|rows| - 1]
    ensures y.id < rows[|rows| - 1].id
  {
    var n := |rows| - 1;
    var q :| 0 <= q < n && rows[..n][q] == y;
    assert rows[q] == y;
  }

  lemma IncreasingAppend(s: seq<Row>, x: Row)
    requires Increasing(s)
    requires forall a :: 0 <= a < |s| ==> s[a].id < x.id
    ensures Increasing(s + [x])
  {
    var t := s + [x];
    forall i, j | 0 <= i < j < |t| ensures t[i].id < t[j].id {
      if j < |s| {
        assert t[i] == s[i] && t[j] == s[j];
      } else {
        assert t[i] == s[i];
      }
    }
  }

  /**
   * Every row at or below the mark has a RESPONSE: no row that still needs
   * posting is hidden from `fetch_new_records`.
   */
  predicate Covered(rows: seq<Row>, mark: int)
  {
    forall i :: 0 <= i < |rows| && rows[i].id <= mark ==> Cell(rows[i], "RESPONSE") != Null
  }

  /** What `post_and_update_records` does with one reply. */
  datatype Reaction =
    | Ignored                           // `requests` raised, or a status other than 200
    | Crashed                           // `[0]` or a `KeyError` escapes: the script stops
    | Stored(sets: map<string, Value>)  // the UPDATE with status, key and id

  function React(reply: Exchange): (r: Reaction)
    ensures r.Stored? <==>
      && reply.Answered? && reply.status == 200 && reply.first.Some?
      && "status" in reply.first.value && "key" in reply.first.value && "id" in reply.first.value
    ensures r.Stored? ==> r.sets == Receipt(reply.first.value)
    ensures r.Crashed? <==> reply.Answered? && reply.status == 200 && !r.Stored?
  {
    if reply.Failed? || reply.status != 200 then Ignored
    else if reply.first.None? then Crashed
    else
      var first := reply.first.value;
      if "status" in first && "key" in first && "id" in first then Stored(Receipt(first)) else Crashed
  }

  /**
   * The state of one pass: the table, the payloads posted, the mark, whether
   * the script has stopped, and (for the corrected pass only) whether a row
   * of this pass was left without a RESPONSE.
   */
  datatype Round = Round(rows: seq<Row>, sent: seq<map<string, Value>>, mark: int, halted: bool, gap: bool)

  /**
   * One fetched row. As written, a stored receipt always moves the mark to
   * the row's id; corrected, only while no earlier row of the pass was left
   * without a RESPONSE and this row now has one.
   */
  function Step(p: Round, row: Row, reply: Exchange, corrected: bool): (r: Round)
    ensures |r.rows| == |p.rows|
    ensures forall i :: 0 <= i < |p.rows| ==> r.rows[i].id == p.rows[i].id
    ensures forall i :: 0 <= i < |p.rows| && p.rows[i].id != row.id ==> r.rows[i] == p.rows[i]
    ensures p.halted ==> r == p
    ensures !p.halted ==> r.sent == p.sent + [Payload(row, ScriptExcluded)]
    ensures r.mark == p.mark || r.mark == row.id
    ensures !corrected ==> r.gap == p.gap
    ensures r.halted <==> p.halted || React(reply).Crashed?
    ensures !p.halted && React(reply).Stored? ==> r.rows == SetWhereId(p.rows, row.id, React(reply).sets)
    ensures p.halted || !React(reply).Stored? ==> r.rows == p.rows && r.mark == p.mark
    ensures !corrected && !p.halted && React(reply).Stored? ==> r.mark == row.id
    ensures corrected && !p.halted && React(reply).Stored? ==>
      r.mark == (if !p.gap && React(reply).sets["RESPONSE"] != Null then row.id else p.mark)
    ensures corrected && !p.halted ==>
      (r.gap <==> p.gap || React(reply).Ignored? || (React(reply).Stored? && React(reply).sets["RESPONSE"] == Null))
  {
    if p.halted then p
    else
      var q := p.(sent := p.sent + [Payload(row, ScriptExcluded)]);
      match React(reply)
      case Ignored => if corrected then q.(gap := true) else q
      case Crashed => q.(halted := true)
      case Stored(sets) =>
        var updated := q.(rows := SetWhereId(q.rows, row.id, sets));
        if !corrected then updated.(mark := row.id)
        else if !p.gap && sets["RESPONSE"] != Null then updated.(mark := row.id)
        else updated.(gap := true)
  }

  /** The pass over the first `n` fetched rows. */
  function RunUpTo(rows: seq<Row>, mark: int, records: seq<Row>, replies: seq<Exchange>, n: nat, corrected: bool): (r: Round)
    requires n <= |records| && |replies| == |records|
    ensures |r.rows| == |rows| && |r.sent| <= n
    ensures forall i :: 0 <= i < |rows| ==> r.rows[i].id == rows[i].id
  {
    if n == 0 then Round(rows, [], mark, false, false)
    else Step(RunUpTo(rows, mark, records, replies, n - 1, corrected), records[n - 1], replies[n - 1], corrected)
  }

  /** Once the script has stopped, the remaining rows change nothing. */
  lemma {:induction false} HaltedRunStops(rows: seq<Row>, mark: int, records: seq<Row>, replies: seq<Exchange>, n: nat, corrected: bool)
    requires n <= |records| && |replies| == |records| && RunUpTo(rows, mark, records, replies, n, corrected).halted
    ensures RunUpTo(rows, mark, records, replies, |records|, corrected) == RunUpTo(rows, mark, records, replies, n, corrected)
    decreases |records| - n
  {
    if n < |records| {
      HaltedRunStops(rows, mark, records, replies, n + 1, corrected);
    }
  }

  /** Rows whose id no record in `[m, n)` has are left alone by those records. */
  lemma {:induction false} RunKeepsRow(rows: seq<Row>, mark: int, records: seq<Row>, replies: seq<Exchange>,
                                       m: nat, n: nat, corrected: bool, q: nat)
    requires m <= n <= |records| && |replies| == |records| && q < |rows|
    requires forall j :: m <= j < n ==> records[j].id != rows[q].id
    ensures RunUpTo(rows, mark, records, replies, n, corrected).rows[q] == RunUpTo(rows, mark, records, replies, m, corrected).rows[q]
    decreases n
  {
    if m < n {
      RunKeepsRow(rows, mark, records, replies, m, n - 1, corrected, q);
      assert records[n - 1].id != rows[q].id;
    }
  }

  /**
   * After the pass, the row of fetched record `i` carries the receipt of its
   * reply exactly when the pass was still running at it and the API's reply
   * was stored; otherwise it is as it was.
   */
  lemma RunStoresReceipt(rows: seq<Row>, mark: int, records: seq<Row>, replies: seq<Exchange>,
                         corrected: bool, i: nat, q: nat)
    requires Increasing(records) && |replies| == |records| && i < |records| && q < |rows|
    requires rows[q].id == records[i].id
    ensures var p := RunUpTo(rows, mark, records, replies, i, corrected);
      RunUpTo(rows, mark, records, replies, |records|, corrected).rows[q] ==
        if !p.halted && React(replies[i]).Stored? then rows[q].(cells := rows[q].cells + React(replies[i]).sets)
        else rows[q]
  {
    RunKeepsRow(rows, mark, records, replies, 0, i, corrected, q);
    RunKeepsRow(rows, mark, records, replies, i + 1, |records|, corrected, q);
  }

  // ---------------------------------------------------------------- as written

  /**
   * The pass as written: a failed row followed by an accepted one ends with
   * the mark at the second id, so the first, still without a RESPONSE, is
   * never fetched again.
   */
  lemma AsWrittenStrandsFailedRow()
    ensures var rows := [Row(1, map["RESPONSE" := Null]), Row(2, map["RESPONSE" := Null])];
      var ok := Answered(200, Some(map["status" := Text("ok"), "key" := Text("k"), "id" := Text("f")]));
      var records := Fetch(rows, 0);
      var r := RunUpTo(rows, 0, records, [Failed, ok], 2, false);
      |records| == 2 && r.mark == 2 && Cell(r.rows[0], "RESPONSE") == Null
      && !Covered(r.rows, r.mark) && Row(1, map["RESPONSE" := Null]) !in Fetch(r.rows, r.mark)
  {
    var row1, row2 := Row(1, map["RESPONSE" := Null]), Row(2, map["RESPONSE" := Null]);
    var rows := [row1, row2];
    var first := map["status" := Text("ok"), "key" := Text("k"), "id" := Text("f")];
    var ok := Answered(200, Some(first));
    assert rows[..1] == [row1];
    var none: seq<Row> := [];
    assert [row1][..0] == none;
    assert Fetch([row1], 0) == [row1];
    assert Fetch(rows, 0) == [row1, row2];
    var records := [row1, row2];
    assert RunUpTo(rows, 0, records, [Failed, ok], 0, false) == Round(rows, [], 0, false, false);
    assert React(Failed) == Ignored;
    var p1 := RunUpTo(rows, 0, records, [Failed, ok], 1, false);
    assert p1.rows == rows && p1.mark == 0;
    assert React(ok) == Stored(Receipt(first));
    var r := RunUpTo(rows, 0, records, [Failed, ok], 2, false);
    assert r.rows == SetWhereId(rows, 2, Receipt(first));
    assert r.rows[0] == row1;
  }

  // ---------------------------------------------------------------- corrected

  /** The id up to which the first `n` fetched rows reach. */
  function Reach(records: seq<Row>, mark: int, n: nat): int
    requires n <= |records|
  {
    if n == 0 then mark else records[n - 1].id
  }

  /** What the corrected pass keeps true after each fetched row. */
  ghost predicate PassInvariant(rows: seq<Row>, mark: int, records: seq<Row>, n: nat, p: Round)
    requires n <= |records| && |p.rows| == |rows|
  {
    && Covered(p.rows, p.mark)
    && mark <= p.mark <= Reach(records, mark, n)
    && (!p.gap && !p.halted ==> p.mark == Reach(records, mark, n))
    && (forall q :: 0 <= q < |rows| && rows[q].id > Reach(records, mark, n) ==> p.rows[q] == rows[q])
  }

  /** A row between two consecutive fetched ids already had a RESPONSE. */
  lemma BetweenFetched(rows: seq<Row>, mark: int, i: nat, q: nat)
    requires Increasing(rows) && i < |Fetch(rows, mark)| && q < |rows|
    requires Reach(Fetch(rows, mark), mark, i) < rows[q].id < Fetch(rows, mark)[i].id
    ensures Cell(rows[q], "RESPONSE") != Null
  {
    FetchIncreasing(rows, mark);
  }

  /** A receipt that moves the mark leaves every row up to the new mark answered. */
  lemma AdvanceCovers(rows: seq<Row>, mark: int, i: nat, p: Round, sets: map<string, Value>)
    requires Increasing(rows) && i < |Fetch(rows, mark)|
    requires |p.rows| == |rows| && forall q :: 0 <= q < |rows| ==> p.rows[q].id == rows[q].id
    requires PassInvariant(rows, mark, Fetch(rows, mark), i, p) && !p.gap && !p.halted
    requires "RESPONSE" in sets && sets["RESPONSE"] != Null
    ensures Covered(SetWhereId(p.rows, Fetch(rows, mark)[i].id, sets), Fetch(rows, mark)[i].id)
  {
    var f := Fetch(rows, mark);
    var x := f[i].id;
    var after := SetWhereId(p.rows, x, sets);
    forall q | 0 <= q < |rows| && after[q].id <= x ensures Cell(after[q], "RESPONSE") != Null {
      if rows[q].id == x {
        assert after[q].cells == p.rows[q].cells + sets;
      } else if rows[q].id > p.mark {
        BetweenFetched(rows, mark, i, q);
      }
    }
  }

  /** One fetched row of the corrected pass keeps the invariant. */
  lemma CorrectedStepKeeps(rows: seq<Row>, mark: int, i: nat, p: Round, reply: Exchange)
    requires Increasing(rows) && i < |Fetch(rows, mark)|
    requires |p.rows| == |rows| && forall q :: 0 <= q < |rows| ==> p.rows[q].id == rows[q].id
    requires PassInvariant(rows, mark, Fetch(rows, mark), i, p)
    ensures PassInvariant(rows, mark, Fetch(rows, mark), i + 1, Step(p, Fetch(rows, mark)[i], reply, true))
  {
    var f := Fetch(rows, mark);
    FetchIncreasing(rows, mark);
    assert Reach(f, mark, i) < f[i].id by {
      if i > 0 {
        assert f[i - 1].id < f[i].id;
      }
    }
    var r := Step(p, f[i], reply, true);
    if r.mark != p.mark {
      AdvanceKeeps(rows, mark, i, p, reply);
    } else {
      StayKeeps(rows, mark, i, p, reply);
    }
  }

  /** The step that moves the mark to the fetched row's id. */
  lemma AdvanceKeeps(rows: seq<Row>, mark: int, i: nat, p: Round, reply: Exchange)
    requires Increasing(rows) && i < |Fetch(rows, mark)|
    requires |p.rows| == |rows| && forall q :: 0 <= q < |rows| ==> p.rows[q].id == rows[q].id
    requires PassInvariant(rows, mark, Fetch(rows, mark), i, p)
    requires Reach(Fetch(rows, mark), mark, i) < Fetch(rows, mark)[i].id
    requires Step(p, Fetch(rows, mark)[i], reply, true).mark != p.mark
    ensures PassInvariant(rows, mark, Fetch(rows, mark), i + 1, Step(p, Fetch(rows, mark)[i], reply, true))
  {
    var f := Fetch(rows, mark);
    var x := f[i].id;
    var r := Step(p, f[i], reply, true);
    assert !p.halted && !p.gap && React(reply).Stored? by {
      if !p.halted && !React(reply).Stored? {
        match React(reply)
        case Ignored =>
        case Crashed =>
      }
    }
    var sets := React(reply).sets;
    assert "RESPONSE" in sets && sets["RESPONSE"] != Null && r.rows == SetWhereId(p.rows, x, sets);
    AdvanceCovers(rows, mark, i, p, sets);
    assert Reach(f, mark, i + 1) == x == r.mark;
    forall q | 0 <= q < |rows| && rows[q].id > x ensures r.rows[q] == rows[q] {
      assert p.rows[q] == rows[q];
    }
  }

  /** A step that leaves the mark where it was. */
  lemma StayKeeps(rows: seq<Row>, mark: int, i: nat, p: Round, reply: Exchange)
    requires i < |Fetch(rows, mark)|
    requires |p.rows| == |rows| && forall q :: 0 <= q < |rows| ==> p.rows[q].id == rows[q].id
    requires PassInvariant(rows, mark, Fetch(rows, mark), i, p)
    requires Reach(Fetch(rows, mark), mark, i) < Fetch(rows, mark)[i].id
    requires Step(p, Fetch(rows, mark)[i], reply, true).mark == p.mark
    ensures PassInvariant(rows, mark, Fetch(rows, mark), i + 1, Step(p, Fetch(rows, mark)[i], reply, true))
  {
    var f := Fetch(rows, mark);
    var x := f[i].id;
    var r := Step(p, f[i], reply, true);
    assert Reach(f, mark, i + 1) == x;
    assert r.gap || r.halted by {
      if !p.halted {
        match React(reply)
        case Ignored =>
        case Crashed =>
        case Stored(sets) =>
          assert x != p.mark;
      }
    }
    CoveredKept(p.rows, r.rows, p.mark, x);
    forall q | 0 <= q < |rows| && rows[q].id > x ensures r.rows[q] == rows[q] {
      assert p.rows[q] == rows[q];
    }
  }

  /** Changing only the row with an id above the mark keeps every row up to the mark answered. */
  lemma CoveredKept(before: seq<Row>, after: seq<Row>, mark: int, id: int)
    requires Covered(before, mark) && id > mark && |after| == |before|
    requires forall q :: 0 <= q < |before| ==> after[q].id == before[q].id
    requires forall q :: 0 <= q < |before| && before[q].id != id ==> after[q] == before[q]
    ensures Covered(after, mark)
  {
    forall q | 0 <= q < |after| && after[q].id <= mark ensures Cell(after[q], "RESPONSE") != Null {
      assert after[q] == before[q];
    }
  }

  lemma {:induction false} PassInvariantHolds(rows: seq<Row>, mark: int, replies: seq<Exchange>, n: nat)
    requires Increasing(rows) && Covered(rows, mark)
    requires n <= |Fetch(rows, mark)| && |replies| == |Fetch(rows, mark)|
    ensures PassInvariant(rows, mark, Fetch(rows, mark), n, RunUpTo(rows, mark, Fetch(rows, mark), replies, n, true))
  {
    var f := Fetch(rows, mark);
    var p := Round(rows, [], mark, false, false);
    for i := 0 to n
      invariant p == RunUpTo(rows, mark, f, replies, i, true)
      invariant PassInvariant(rows, mark, f, i, p)
    {
      CorrectedStepKeeps(rows, mark, i, p, replies[i]);
      p := Step(p, f[i], replies[i], true);
    }
  }

  /**
   * The corrected pass never hides a row that still needs posting: if every
   * row at or below the mark had a RESPONSE before, the same holds after,
   * and the mark does not move back.
   */
  lemma CorrectedKeepsCovered(rows: seq<Row>, mark: int, replies: seq<Exchange>)
    requires Increasing(rows) && Covered(rows, mark) && |replies| == |Fetch(rows, mark)|
    ensures var r := RunUpTo(rows, mark, Fetch(rows, mark), replies, |replies|, true);
      Covered(r.rows, r.mark) && mark <= r.mark
  {
    PassInvariantHolds(rows, mark, replies, |replies|);
  }

  class PostScript {
    /** `last_processed_id`. */
    var lastProcessedId: int

    /** `PostScript()`: the mark starts at 0 in every run of the script. */
    constructor()
      ensures lastProcessedId == 0
    {
      lastProcessedId := 0;
    }

    /** `fetch_new_records`; a database error gives no rows. */
    method FetchNewRecords(t: Table, dbOk: bool) returns (records: seq<Row>)
      ensures dbOk ==> records == Fetch(t.rows, lastProcessedId)
      ensures !dbOk ==> records == []
    {
      if !dbOk {
        return [];
      }
      records := Fetch(t.rows, lastProcessedId);
    }

    /**
     * One iteration of `post_and_update_records`, with the mark corrected:
     * every fetched row is posted and its receipt stored; the pass stops
     * where the script would raise.
     */
    method PostAndUpdateRecords(t: Table, replies: seq<Exchange>, dbOk: bool) returns (sent: seq<map<string, Value>>)
      requires t.Valid()
      requires dbOk ==> |replies| == |Fetch(t.rows, lastProcessedId)|
      requires !dbOk ==> replies == []
      modifies this, t
      ensures t.Valid()
      ensures var records := if dbOk then Fetch(old(t.rows), old(lastProcessedId)) else [];
        var r := RunUpTo(old(t.rows), old(lastProcessedId), records, replies, |records|, true);
        t.rows == r.rows && sent == r.sent && lastProcessedId == r.mark
    {
      var records := FetchNewRecords(t, dbOk);
      sent, lastProcessedId := PostFetched(t, records, replies, lastProcessedId);
    }
  }

  /** The `for record in records` loop, corrected: returns the payloads and the new mark. */
  method PostFetched(t: Table, records: seq<Row>, replies: seq<Exchange>, mark0: int)
    returns (sent: seq<map<string, Value>>, mark: int)
    requires t.Valid() && |replies| == |records|
    modifies t
    ensures t.Valid()
    ensures var r := RunUpTo(old(t.rows), mark0, records, replies, |records|, true);
      t.rows == r.rows && sent == r.sent && mark == r.mark
  {
    ghost var start := t.rows;
    sent, mark := [], mark0;
    var gap := false;
    for i := 0 to |records|
      invariant Round(t.rows, sent, mark, false, gap) == RunUpTo(start, mark0, records, replies, i, true)
      invariant t.Valid()
    {
      var halted;
      sent, mark, gap, halted := PostRecord(t, sent, mark, gap, records[i], replies[i]);
      if halted {
        HaltedRunStops(start, mark0, records, replies, i + 1, true);
        return;
      }
    }
  }

  /** The body of the loop for one fetched row, corrected. */
  method PostRecord(t: Table, sent0: seq<map<string, Value>>, mark0: int, gap0: bool, record: Row, reply: Exchange)
    returns (sent: seq<map<string, Value>>, mark: int, gap: bool, halted: bool)
    requires t.Valid()
    modifies t
    ensures Round(t.rows, sent, mark, halted, gap) == Step(Round(old(t.rows), sent0, mark0, false, gap0), record, reply, true)
    ensures t.Valid()
  {
    sent, mark, gap, halted := sent0 + [Payload(record, ScriptExcluded)], mark0, gap0, false;
    if reply.Failed? || reply.status != 200 {
      gap := true;
      return;
    }
    if reply.first.None? {
      // `response.json()[0]` raises
      halted := true;
      return;
    }
    var first := reply.first.value;
    if !("status" in first && "key" in first && "id" in first) {
      // the UPDATE's parameters raise `KeyError`
      halted := true;
      return;
    }
    var sets := Receipt(first);
    t.Update(record.id, sets);
    if !gap0 && sets["RESPONSE"] != Null {
      mark := record.id;
    } else {
      gap := true;
    }
  }
}
