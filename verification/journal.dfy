/**
 * The intermediate log `attlog.json`: the writer thread that appends the
 * punches of each queued ATTLOG packet without repeating an identical record
 * (`write_to_file`, ft-zktco.py:238-262 and FT-ZK.py:121-152), and the
 * retention sweep that drops records older than a month
 * (`clean_attlog_file`, ft-zktco.py:172-195).
 */
module Journal {
  import opened Wrappers
  import opened Text
  import opened Stamp
  import opened Protocol
  import opened Gateway

  /** What `json.load` finds in the log file. */
  datatype JsonFile =
    | Absent                      // `os.path.exists` is false
    | Undecodable                 // `json.JSONDecodeError`, an empty file included
    | NonList                     // valid JSON that is not a list
    | List(entries: seq<Entry>)

  /** The list both functions start from: anything but a JSON list counts as `[]`. */
  function Loaded(file: JsonFile): (r: seq<Entry>)
    ensures file.List? ==> r == file.entries
    ensures !file.List? ==> r == []
  {
    if file.List? then file.entries else []
  }

  // ---------------------------------------------------------------- write_to_file

  /** A parsed punch with the packet's serial and the time it was logged. */
  function Tagged(e: Entry, sn: string, stamp: string): (r: Entry)
    ensures r.Keys == e.Keys + {"SN", "log_timestamp"}
    ensures r["SN"] == sn && r["log_timestamp"] == stamp
    ensures forall k :: k in e && k != "SN" && k != "log_timestamp" ==> r[k] == e[k]
  {
    e["SN" := sn]["log_timestamp" := stamp]
  }

  /** `parse_log_entry` of each record line of a packet. */
  function Parsed(lines: seq<string>): (r: seq<Option<Entry>>)
    ensures |r| == |lines| && forall i :: 0 <= i < |lines| ==> r[i] == ParseLogEntry(lines[i])
  {
    seq(|lines|, i requires 0 <= i < |lines| => ParseLogEntry(lines[i]))
  }

  /**
   * The records one packet offers, in line order: each line that
   * `parse_log_entry` accepted, tagged with the serial and the reading of the
   * clock taken for it; lines it rejected offer nothing.
   */
  function Candidates(parsed: seq<Option<Entry>>, sn: string, clock: seq<Instant>): (r: seq<Entry>)
    requires |clock| == |parsed|
    ensures |r| <= |parsed|
    decreases |parsed|
  {
    if parsed == [] then []
    else
      var n := |parsed| - 1;
      Candidates(parsed[..n], sn, clock[..n]) + Offer(parsed[n], sn, clock[n])
  }

  /** What one line offers: its record, tagged, if `parse_log_entry` accepted it. */
  function Offer(parsed: Option<Entry>, sn: string, clock: Instant): (r: seq<Entry>)
    ensures |r| <= 1
    ensures r == [] <==> parsed.None?
  {
    match parsed
    case None => []
    case Some(e) => [Tagged(e, sn, FormatLogStamp(clock))]
  }

  /**
   * The list after offering `recs` one by one: a record is appended unless an
   * equal record (every field, `log_timestamp` included) is already there.
   */
  function Merge(data: seq<Entry>, recs: seq<Entry>): (r: seq<Entry>)
    ensures data <= r
    ensures |r| <= |data| + |recs|
    decreases |recs|
  {
    if recs == [] then data
    else
      var n := |recs| - 1;
      var m := Merge(data, recs[..n]);
      if recs[n] in m then m else m + [recs[n]]
  }

  /** An entry ends up in the merged list exactly when it was there already or was offered. */
  lemma {:induction false} MergeMembers(data: seq<Entry>, recs: seq<Entry>)
    ensures forall e :: e in Merge(data, recs) <==> e in data || e in recs
    decreases |recs|
  {
    if recs != [] {
      var n := |recs| - 1;
      MergeMembers(data, recs[..n]);
      assert recs == recs[..n] + [recs[n]];
    }
  }

  /**
   * `write_to_file` for one packet: the list read from the file, with the
   * packet's new records appended; the result is dumped back as a JSON list.
   */
  method WriteToFile(file: JsonFile, packet: Packet, clock: seq<Instant>) returns (data: seq<Entry>)
    requires |clock| == |SplitAttlogRecords(packet.attlog)|
    ensures data == Merge(Loaded(file), Candidates(Parsed(SplitAttlogRecords(packet.attlog)), packet.sn, clock))
  {
    var records := SplitAttlogRecords(packet.attlog);
    data := AppendNew(Loaded(file), records, packet.sn, clock);
  }

  /** The loop of `write_to_file`: offer each line's record in turn. */
  method AppendNew(start: seq<Entry>, records: seq<string>, sn: string, clock: seq<Instant>) returns (data: seq<Entry>)
    requires |clock| == |records|
    ensures data == Merge(start, Candidates(Parsed(records), sn, clock))
  {
    data := start;
    for i := 0 to |records|
      invariant data == Merge(start, Candidates(Parsed(records)[..i], sn, clock[..i]))
    {
      data := OfferLine(start, data, records, sn, clock, i);
    }
    WholePrefix(Parsed(records));
    WholePrefix(clock);
  }

  lemma WholePrefix<T>(s: seq<T>)
    ensures s[..|s|] == s
  {
  }

  /** One line of that loop: its record is appended unless it parses to nothing or is already there. */
  method OfferLine(ghost start: seq<Entry>, data: seq<Entry>, records: seq<string>, sn: string, clock: seq<Instant>, i: nat)
    returns (next: seq<Entry>)
    requires |clock| == |records|
    requires i < |records|
    requires data == Merge(start, Candidates(Parsed(records)[..i], sn, clock[..i]))
    ensures next == Merge(start, Candidates(Parsed(records)[..i + 1], sn, clock[..i + 1]))
  {
    ghost var parsed := Parsed(records);
    WriteStep(start, parsed, sn, clock, i);
    var record := ParseLogEntry(records[i]);
    if record.None? {
      return data;
    }
    // the parsed record with "SN" and "log_timestamp" set
    var tagged := Tagged(record.value, sn, FormatLogStamp(clock[i]));
    assert Offer(parsed[i], sn, clock[i]) == [tagged];
    next := if tagged in data then data else data + [tagged];
  }

  /** One line of the loop in `write_to_file`. */
  lemma WriteStep(data: seq<Entry>, parsed: seq<Option<Entry>>, sn: string, clock: seq<Instant>, i: nat)
    requires |clock| == |parsed|
    requires i < |parsed|
    ensures var m := Merge(data, Candidates(parsed[..i], sn, clock[..i]));
      var offered := Offer(parsed[i], sn, clock[i]);
      Merge(data, Candidates(parsed[..i + 1], sn, clock[..i + 1])) ==
        if offered == [] || offered[0] in m then m else m + [offered[0]]
  {
    var before := Candidates(parsed[..i], sn, clock[..i]);
    var offered := Offer(parsed[i], sn, clock[i]);
    CandidatesStep(parsed, sn, clock, i);
    if offered == [] {
      assert before + offered == before;
    } else {
      assert offered == [offered[0]];
      MergeOne(data, before, offered[0]);
    }
  }

  lemma CandidatesStep(parsed: seq<Option<Entry>>, sn: string, clock: seq<Instant>, i: nat)
    requires |clock| == |parsed|
    requires i < |parsed|
    ensures Candidates(parsed[..i + 1], sn, clock[..i + 1]) == Candidates(parsed[..i], sn, clock[..i]) + Offer(parsed[i], sn, clock[i])
  {
    assert parsed[..i + 1][..i] == parsed[..i];
    assert clock[..i + 1][..i] == clock[..i];
  }

  lemma MergeOne(data: seq<Entry>, recs: seq<Entry>, x: Entry)
    ensures Merge(data, recs + [x]) == if x in Merge(data, recs) then Merge(data, recs) else Merge(data, recs) + [x]
  {
    assert (recs + [x])[..|recs|] == recs;
  }

  predicate NoDuplicates(s: seq<Entry>)
  {
    forall i, j :: 0 <= i < j < |s| ==> s[i] != s[j]
  }

  /** A list without repeated records keeps that property through a merge. */
  lemma {:induction false} MergeNoDuplicates(data: seq<Entry>, recs: seq<Entry>)
    requires NoDuplicates(data)
    ensures NoDuplicates(Merge(data, recs))
    decreases |recs|
  {
    if recs != [] {
      var n := |recs| - 1;
      MergeNoDuplicates(data, recs[..n]);
    }
  }

  /** Offering only records already present changes nothing. */
  lemma {:induction false} MergeNothingNew(data: seq<Entry>, recs: seq<Entry>)
    requires forall e :: e in recs ==> e in data
    ensures Merge(data, recs) == data
    decreases |recs|
  {
    if recs != [] {
      var n := |recs| - 1;
      assert forall e :: e in recs[..n] ==> e in recs;
      MergeNothingNew(data, recs[..n]);
    }
  }

  /** Offering the same records a second time leaves the list as the first time did. */
  /**
   * A missing, undecodable or non-list file is overwritten with the offered
   * records alone, each once: nothing of the old file survives.
   */
  lemma UnreadableFileReplaced(file: JsonFile, recs: seq<Entry>)
    requires !file.List?
    ensures Merge(Loaded(file), recs) == Merge([], recs)
    ensures NoDuplicates(Merge(Loaded(file), recs))
    ensures forall e :: e in Merge(Loaded(file), recs) <==> e in recs
  {
    MergeNoDuplicates([], recs);
    MergeMembers([], recs);
  }

  lemma MergeIdempotent(data: seq<Entry>, recs: seq<Entry>)
    ensures Merge(Merge(data, recs), recs) == Merge(data, recs)
  {
    MergeMembers(data, recs);
    MergeNothingNew(Merge(data, recs), recs);
  }

  /**
   * Every line `parse_log_entry` accepts ends up in the list, tagged with the
   * packet's serial and its clock reading.
   */
  lemma CandidateOfLine(lines: seq<string>, sn: string, clock: seq<Instant>, i: nat)
    requires |clock| == |lines|
    requires i < |lines| && ParseLogEntry(lines[i]).Some?
    ensures Tagged(ParseLogEntry(lines[i]).value, sn, FormatLogStamp(clock[i])) in Candidates(Parsed(lines), sn, clock)
  {
    var parsed := Parsed(lines);
    var t := Tagged(ParseLogEntry(lines[i]).value, sn, FormatLogStamp(clock[i]));
    assert Offer(parsed[i], sn, clock[i]) == [t];
    OfferIncluded(parsed, sn, clock, i, t);
  }

  /** Whatever one line offers is among the packet's candidates. */
  lemma OfferIncluded(parsed: seq<Option<Entry>>, sn: string, clock: seq<Instant>, i: nat, x: Entry)
    requires |clock| == |parsed|
    requires i < |parsed| && x in Offer(parsed[i], sn, clock[i])
    ensures x in Candidates(parsed, sn, clock)
  {
    CandidatesStep(parsed, sn, clock, i);
    InConcatRight(x, Candidates(parsed[..i], sn, clock[..i]), Offer(parsed[i], sn, clock[i]));
    for j := i + 1 to |parsed|
      invariant x in Candidates(parsed[..j], sn, clock[..j])
    {
      CandidatesStep(parsed, sn, clock, j);
      InConcat(x, Candidates(parsed[..j], sn, clock[..j]), Offer(parsed[j], sn, clock[j]));
    }
    WholePrefix(parsed);
    WholePrefix(clock);
  }

  lemma InConcat(x: Entry, a: seq<Entry>, b: seq<Entry>)
    requires x in a
    ensures x in a + b
  {
  }

  lemma InConcatRight(x: Entry, a: seq<Entry>, b: seq<Entry>)
    requires x in b
    ensures x in a + b
  {
    var k :| 0 <= k < |b| && b[k] == x;
    assert (a + b)[|a| + k] == x;
  }

  /** Every offered record carries the packet's serial, a log stamp and the badge number. */
  lemma CandidatesTagged(lines: seq<string>, sn: string, clock: seq<Instant>)
    requires |clock| == |lines|
    ensures forall e :: e in Candidates(Parsed(lines), sn, clock) ==> "SN" in e && e["SN"] == sn && "log_timestamp" in e && "ZKID" in e
  {
    var parsed := Parsed(lines);
    forall k | 0 <= k < |parsed| && parsed[k].Some? ensures "ZKID" in parsed[k].value {
      assert parsed[k] == ParseLogEntry(lines[k]);
    }
    OffersTagged(parsed, sn, clock);
  }

  lemma {:induction false} OffersTagged(parsed: seq<Option<Entry>>, sn: string, clock: seq<Instant>)
    requires |clock| == |parsed|
    requires forall k :: 0 <= k < |parsed| && parsed[k].Some? ==> "ZKID" in parsed[k].value
    ensures forall e :: e in Candidates(parsed, sn, clock) ==> "SN" in e && e["SN"] == sn && "log_timestamp" in e && "ZKID" in e
    decreases |parsed|
  {
    if parsed != [] {
      var n := |parsed| - 1;
      OffersTagged(parsed[..n], sn, clock[..n]);
    }
  }

  /** Lines `parse_log_entry` rejects contribute nothing. */
  lemma CandidatesOfUnparsed(lines: seq<string>, sn: string, clock: seq<Instant>)
    requires |clock| == |lines|
    requires forall k :: 0 <= k < |lines| ==> ParseLogEntry(lines[k]).None?
    ensures Candidates(Parsed(lines), sn, clock) == []
  {
    NoOffers(Parsed(lines), sn, clock);
  }

  lemma {:induction false} NoOffers(parsed: seq<Option<Entry>>, sn: string, clock: seq<Instant>)
    requires |clock| == |parsed|
    requires forall k :: 0 <= k < |parsed| ==> parsed[k].None?
    ensures Candidates(parsed, sn, clock) == []
    decreases |parsed|
  {
    if parsed != [] {
      var n := |parsed| - 1;
      NoOffers(parsed[..n], sn, clock[..n]);
    }
  }

  /**
   * Equality is on the whole record, so the same punch uploaded again with a
   * different clock reading is a new record and is appended a second time.
   */
  lemma ResentPunchAppended(data: seq<Entry>, e: Entry, sn: string, first: string, again: string)
    requires Tagged(e, sn, first) in data && first != again
    requires forall d :: d in data && "log_timestamp" in d ==> d["log_timestamp"] != again
    ensures Merge(data, [Tagged(e, sn, again)]) == data + [Tagged(e, sn, again)]
  {
    var r := Tagged(e, sn, again);
    var none: seq<Entry> := [];
    assert [r][..0] == none;
    assert r["log_timestamp"] == again;
    assert r !in data;
  }

  // ---------------------------------------------------------------- clean_attlog_file

  /**
   * `now - relativedelta(months=1)`: the same day of the previous month,
   * clipped to that month's length; `None` where `datetime` raises (before
   * year 1).
   */
  function MonthBefore(now: DateTime): (r: Option<DateTime>)
    requires Valid(now)
    ensures r.None? <==> now.year == 1 && now.month == 1
    ensures r.Some? ==> Valid(r.value) && AtOrAfter(now, r.value) && r.value != now
    ensures r.Some? ==> r.value.day <= now.day && r.value.hour == now.hour && r.value.micro == now.micro
  {
    if now.year == 1 && now.month == 1 then None
    else
      var y := if now.month == 1 then now.year - 1 else now.year;
      var m := if now.month == 1 then 12 else now.month - 1;
      var d := if now.day <= DaysIn(y, m) then now.day else DaysIn(y, m);
      var r := now.(year := y, month := m, day := d);
      EarlierMonth(now, r);
      Some(r)
  }

  lemma EarlierMonth(a: DateTime, b: DateTime)
    requires a.year > b.year || (a.year == b.year && a.month > b.month)
    ensures AtOrAfter(a, b) && a != b
  {
    var ka := [a.year, a.month, a.day, a.hour, a.minute, a.second, a.micro];
    var kb := [b.year, b.month, b.day, b.hour, b.minute, b.second, b.micro];
    if a.year == b.year {
      assert ka[1..][0] > kb[1..][0];
      assert LexGeq(ka[1..], kb[1..]);
    }
  }

  /** `rec.get("log_timestamp")`. */
  function StampOf(rec: Entry): Option<string>
  {
    if "log_timestamp" in rec then Some(rec["log_timestamp"]) else None
  }

  /** A record survives the sweep: its stamp reads as a date-time at or after the threshold. */
  predicate Keep(rec: Entry, threshold: DateTime)
  {
    var read := ReadLogStamp(StampOf(rec));
    read.Read? && AtOrAfter(read.at, threshold)
  }

  /** A stamp that makes `strptime` or `int()` raise, which aborts the whole sweep. */
  predicate Spoils(rec: Entry)
  {
    ReadLogStamp(StampOf(rec)).Unreadable?
  }

  /** No record's stamp makes the sweep raise. */
  predicate NoneSpoils(recs: seq<Entry>)
    decreases |recs|
  {
    recs == [] || (NoneSpoils(recs[..|recs| - 1]) && !Spoils(recs[|recs| - 1]))
  }

  lemma NoneSpoilsStep(recs: seq<Entry>, i: nat)
    requires i < |recs|
    ensures NoneSpoils(recs[..i + 1]) <==> NoneSpoils(recs[..i]) && !Spoils(recs[i])
  {
    assert recs[..i + 1][..i] == recs[..i];
  }

  lemma {:induction false} NoneSpoilsPrefix(recs: seq<Entry>, i: nat)
    requires i <= |recs| && NoneSpoils(recs)
    ensures NoneSpoils(recs[..i])
    decreases |recs|
  {
    if i < |recs| {
      var n := |recs| - 1;
      assert recs[..i] == recs[..n][..i];
      NoneSpoilsPrefix(recs[..n], i);
    } else {
      assert recs[..i] == recs;
    }
  }

  /** `NoneSpoils` means what it says: no record of the list spoils the sweep. */
  lemma NoneSpoilsMeans(recs: seq<Entry>, i: nat)
    requires NoneSpoils(recs) && i < |recs|
    ensures !Spoils(recs[i])
  {
    NoneSpoilsPrefix(recs, i + 1);
    NoneSpoilsStep(recs, i);
  }

  /** One spoiling record anywhere spoils the whole sweep. */
  lemma SpoiledSweep(recs: seq<Entry>, i: nat)
    requires i < |recs| && Spoils(recs[i])
    ensures !NoneSpoils(recs)
  {
    if NoneSpoils(recs) {
      NoneSpoilsMeans(recs, i);
    }
  }

  /** The records kept, in their original order. */
  function Retain(recs: seq<Entry>, threshold: DateTime): (r: seq<Entry>)
    ensures |r| <= |recs|
    decreases |recs|
  {
    if recs == [] then []
    else
      var n := |recs| - 1;
      Retain(recs[..n], threshold) + (if Keep(recs[n], threshold) then [recs[n]] else [])
  }

  /** The sweep keeps exactly the records whose stamp reads at or after the threshold. */
  lemma {:induction false} RetainMembers(recs: seq<Entry>, threshold: DateTime)
    ensures forall e :: e in Retain(recs, threshold) <==> e in recs && Keep(e, threshold)
    decreases |recs|
  {
    if recs != [] {
      var n := |recs| - 1;
      RetainMembers(recs[..n], threshold);
      assert recs == recs[..n] + [recs[n]];
    }
  }

  /** Filtering distributes over concatenation: relative order is kept. */
  lemma {:induction false} RetainConcat(a: seq<Entry>, b: seq<Entry>, threshold: DateTime)
    ensures Retain(a + b, threshold) == Retain(a, threshold) + Retain(b, threshold)
    decreases |b|
  {
    if b != [] {
      var n := |b| - 1;
      assert (a + b)[..|a + b| - 1] == a + b[..n];
      assert (a + b)[|a + b| - 1] == b[n];
      RetainConcat(a, b[..n], threshold);
      var tail := if Keep(b[n], threshold) then [b[n]] else [];
      assert Retain(b, threshold) == Retain(b[..n], threshold) + tail;
      assert Retain(a + b, threshold) == Retain(a + b[..n], threshold) + tail;
    } else {
      assert a + b == a;
    }
  }

  /** Sweeping twice with the same threshold keeps what the first sweep kept. */
  lemma RetainIdempotent(recs: seq<Entry>, threshold: DateTime)
    ensures Retain(Retain(recs, threshold), threshold) == Retain(recs, threshold)
  {
    var r := Retain(recs, threshold);
    RetainMembers(recs, threshold);
    assert forall i :: 0 <= i < |r| ==> r[i] in r;
    RetainAllKept(r, threshold);
  }

  lemma RetainAllKept(recs: seq<Entry>, threshold: DateTime)
    requires forall i :: 0 <= i < |recs| ==> Keep(recs[i], threshold)
    ensures Retain(recs, threshold) == recs
  {
    for i := 0 to |recs|
      invariant Retain(recs[..i], threshold) == recs[..i]
    {
      RetainStep(recs, threshold, i);
      PrefixGrows(recs, i);
    }
    assert recs[..|recs|] == recs;
  }

  lemma PrefixGrows(recs: seq<Entry>, i: nat)
    requires i < |recs|
    ensures recs[..i] + [recs[i]] == recs[..i + 1]
  {
  }

  /**
   * The list `clean_attlog_file` writes back, or `None` when it writes
   * nothing: the file is absent, the threshold cannot be computed, or some
   * record's stamp raises.
   */
  function Sweep(file: JsonFile, now: DateTime): (r: Option<seq<Entry>>)
    requires Valid(now)
    ensures r.Some? ==> !file.Absent? && MonthBefore(now).Some?
    ensures r.Some? ==> r.value == Retain(Loaded(file), MonthBefore(now).value)
    ensures r.None? && !file.Absent? && MonthBefore(now).Some? ==> !NoneSpoils(Loaded(file))
  {
    if file.Absent? then None
    else
      var threshold := MonthBefore(now);
      if threshold.None? then None
      else if !NoneSpoils(Loaded(file)) then None
      else Some(Retain(Loaded(file), threshold.value))
  }

  method CleanAttlogFile(file: JsonFile, now: DateTime) returns (written: Option<seq<Entry>>)
    requires Valid(now)
    ensures written == Sweep(file, now)
  {
    if file.Absent? {
      return None;
    }
    var records := Loaded(file);
    var threshold := MonthBefore(now);
    if threshold.None? {
      return None;
    }
    var kept: seq<Entry> := [];
    for i := 0 to |records|
      invariant kept == Retain(records[..i], threshold.value)
      invariant NoneSpoils(records[..i])
    {
      RetainStep(records, threshold.value, i);
      var read := ReadLogStamp(StampOf(records[i]));
      if read.Unreadable? {
        SpoiledSweep(records, i);
        return None;
      }
      NoneSpoilsStep(records, i);
      assert Keep(records[i], threshold.value) <==> read.Read? && AtOrAfter(read.at, threshold.value);
      if read.Read? && AtOrAfter(read.at, threshold.value) {
        kept := kept + [records[i]];
      }
    }
    assert records[..|records|] == records;
    written := Some(kept);
  }

  lemma RetainStep(recs: seq<Entry>, threshold: DateTime, i: nat)
    requires i < |recs|
    ensures Retain(recs[..i + 1], threshold) == Retain(recs[..i], threshold) + (if Keep(recs[i], threshold) then [recs[i]] else [])
  {
    assert recs[..i + 1][..i] == recs[..i];
  }

  /**
   * A record `write_to_file` stamped at a clock reading that, cut to the
   * millisecond, is at or after the threshold is kept by the sweep.
   */
  lemma StampedRecordKept(e: Entry, sn: string, clock: DateTime, threshold: DateTime)
    requires Valid(clock) && clock.year >= 1000
    requires AtOrAfter(clock.(micro := clock.micro / 1000 * 1000), threshold)
    ensures Keep(Tagged(e, sn, FormatLogStamp(clock)), threshold)
    ensures !Spoils(Tagged(e, sn, FormatLogStamp(clock)))
  {
    LogStampRoundTrip(clock);
  }
}
