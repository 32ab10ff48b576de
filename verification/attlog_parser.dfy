/**
 * `AttLogParser` (attlog_parser.py): scans the text of the intermediate log
 * for lines mentioning "attlog", keys each by (zkid, timestamp, attype), and
 * appends the keys it has not seen before to sanatise.json.
 */
module LineDedup {
  import opened Wrappers
  import opened Text

  /** One sanatise.json entry; `attype` is `None` (JSON null) when the line has only two fields. */
  datatype Punch = Punch(zkid: string, timestamp: string, attype: Option<string>)

  /** What `parse_and_write` makes of one line. */
  datatype LineKind =
    | Skipped        // no "attlog" in it, or fewer than two tab fields
    | Raises         // field 0, or field 2 when present, is blank: `.split()[0]` raises
    | Keyed(punch: Punch)

  function LineKey(line: string): (r: LineKind)
    ensures r.Skipped? <==> !Contains(line, "attlog") || |SplitOn(line, '\t')| < 2
    ensures r.Keyed? ==>
      && r.punch.timestamp == SplitOn(line, '\t')[1]
      && NoSpace(r.punch.zkid) && r.punch.zkid != []
      && (r.punch.attype.None? <==> |SplitOn(line, '\t')| == 2)
  {
    if !Contains(line, "attlog") then Skipped else KeyOfFields(SplitOn(line, '\t'))
  }

  /** The key of a line mentioning "attlog", from its tab-separated fields. */
  function KeyOfFields(parts: seq<string>): (r: LineKind)
    ensures r.Skipped? <==> |parts| < 2
    ensures r.Keyed? ==>
      && r.punch.timestamp == parts[1]
      && NoSpace(r.punch.zkid) && r.punch.zkid != []
      && (r.punch.attype.None? <==> |parts| == 2)
  {
    if |parts| < 2 then Skipped
    else
      var first := Split(parts[0]);
      if first == [] then Raises
      else if |parts| > 2 && Split(parts[2]) == [] then Raises
      else Keyed(Punch(first[0], parts[1], if |parts| > 2 then Some(Split(parts[2])[0]) else None))
  }

  /** The key is built from the first whitespace-separated word of field 0 and of field 2; a blank one raises. */
  lemma KeyOfFieldsWords(parts: seq<string>)
    ensures KeyOfFields(parts).Raises? <==>
      |parts| >= 2 && (Split(parts[0]) == [] || (|parts| > 2 && Split(parts[2]) == []))
    ensures KeyOfFields(parts).Keyed? ==>
      && Split(parts[0]) != [] && KeyOfFields(parts).punch.zkid == Split(parts[0])[0]
      && KeyOfFields(parts).punch.attype == (if |parts| > 2 then Some(Split(parts[2])[0]) else None)
  {
  }

  /** The same for a whole line of the log: its fields are its tab-separated pieces. */
  lemma LineKeyWords(line: string)
    ensures LineKey(line).Raises? <==>
      && Contains(line, "attlog") && |SplitOn(line, '\t')| >= 2
      && (Split(SplitOn(line, '\t')[0]) == [] || (|SplitOn(line, '\t')| > 2 && Split(SplitOn(line, '\t')[2]) == []))
    ensures LineKey(line).Keyed? ==>
      && Split(SplitOn(line, '\t')[0]) != []
      && LineKey(line).punch.zkid == Split(SplitOn(line, '\t')[0])[0]
      && LineKey(line).punch.attype ==
         (if |SplitOn(line, '\t')| > 2 then Some(Split(SplitOn(line, '\t')[2])[0]) else None)
  {
    KeyOfFieldsWords(SplitOn(line, '\t'));
  }

  lemma IndexOfFirst(prefix: string, c: char, rest: string)
    requires c !in prefix
    ensures IndexOf(prefix + [c] + rest, c) == |prefix|
  {
    var s := prefix + [c] + rest;
    assert s[|prefix|] == c;
  }

  lemma IndexOfNone(s: string, c: char)
    requires c !in s
    ensures IndexOf(s, c) == |s|
  {
  }

  lemma NoSpaceNoTab(s: string)
    requires NoSpace(s)
    ensures '\t' !in s
  {
  }

  /** Splitting three tab-free fields joined by tabs gives them back. */
  lemma SplitOnThree(a: string, b: string, c: string)
    requires '\t' !in a && '\t' !in b && '\t' !in c
    ensures SplitOn(a + "\t" + b + "\t" + c, '\t') == [a, b, c]
  {
    var line := a + "\t" + b + "\t" + c;
    var tail := b + "\t" + c;
    assert line == a + ['\t'] + tail;
    IndexOfFirst(a, '\t', tail);
    assert line[|a| + 1..] == tail && line[..|a|] == a;
    assert tail == b + ['\t'] + c;
    IndexOfFirst(b, '\t', c);
    assert tail[|b| + 1..] == c && tail[..|b|] == b;
    IndexOfNone(c, '\t');
    assert SplitOn(c, '\t') == [c];
    assert SplitOn(tail, '\t') == [b, c];
  }

  /** A line made of three tab-separated fields is keyed by their first tokens and the middle field. */
  lemma LineKeyOfFields(zkid: string, timestamp: string, attype: string)
    requires zkid != [] && NoSpace(zkid) && attype != [] && NoSpace(attype) && '\t' !in timestamp
    requires Contains(zkid + "\t" + timestamp + "\t" + attype, "attlog")
    ensures LineKey(zkid + "\t" + timestamp + "\t" + attype) == Keyed(Punch(zkid, timestamp, Some(attype)))
  {
    NoSpaceNoTab(zkid);
    NoSpaceNoTab(attype);
    SplitOnThree(zkid, timestamp, attype);
    SplitSingle(zkid);
    SplitSingle(attype);
    assert KeyOfFields([zkid, timestamp, attype]) == Keyed(Punch(zkid, timestamp, Some(attype)));
  }

  /** The keys seen so far, the new ones in order, and whether a line raised. */
  datatype Scan = Scan(seen: set<Punch>, added: seq<Punch>, failed: bool)

  /** What each line of the text is. */
  function Kinds(lines: seq<string>): (r: seq<LineKind>)
    ensures |r| == |lines| && forall i :: 0 <= i < |lines| ==> r[i] == LineKey(lines[i])
  {
    seq(|lines|, i requires 0 <= i < |lines| => LineKey(lines[i]))
  }

  /** The `for line in lines` loop of `parse_and_write`, from the keys already known. */
  function ScanLines(existing: set<Punch>, kinds: seq<LineKind>): (r: Scan)
    ensures |r.added| <= |kinds|
    decreases |kinds|
  {
    if kinds == [] then Scan(existing, [], false)
    else
      var n := |kinds| - 1;
      var s := ScanLines(existing, kinds[..n]);
      if s.failed then s
      else
        match kinds[n]
        case Skipped => s
        case Raises => s.(failed := true)
        case Keyed(p) => if p in s.seen then s else Scan(s.seen + {p}, s.added + [p], false)
  }

  /** The keys known after a scan are the earlier ones and the new ones, and no new one was known before. */
  lemma {:induction false} ScanSeen(existing: set<Punch>, kinds: seq<LineKind>)
    ensures var r := ScanLines(existing, kinds);
      && (forall p :: p in r.seen <==> p in existing || p in r.added)
      && (forall p :: p in r.added ==> p !in existing)
    decreases |kinds|
  {
    if kinds != [] {
      ScanSeen(existing, kinds[..|kinds| - 1]);
    }
  }

  lemma ScanStep(existing: set<Punch>, kinds: seq<LineKind>, i: nat)
    requires i < |kinds|
    ensures var s := ScanLines(existing, kinds[..i]);
      ScanLines(existing, kinds[..i + 1]) ==
        if s.failed then s
        else match kinds[i]
          case Skipped => s
          case Raises => s.(failed := true)
          case Keyed(p) => if p in s.seen then s else Scan(s.seen + {p}, s.added + [p], false)
  {
    assert kinds[..i + 1][..i] == kinds[..i];
  }

  /** Once a line has raised, the rest of the text changes nothing. */
  lemma {:induction false} ScanFailedStays(existing: set<Punch>, kinds: seq<LineKind>, i: nat)
    requires i <= |kinds| && ScanLines(existing, kinds[..i]).failed
    ensures ScanLines(existing, kinds) == ScanLines(existing, kinds[..i])
    decreases |kinds| - i
  {
    if i < |kinds| {
      ScanStep(existing, kinds, i);
      ScanFailedStays(existing, kinds, i + 1);
    } else {
      assert kinds[..i] == kinds;
    }
  }

  predicate Distinct(ps: seq<Punch>)
  {
    forall i, j :: 0 <= i < j < |ps| ==> ps[i] != ps[j]
  }

  /** No key is emitted twice within one call. */
  lemma {:induction false} ScanDistinct(existing: set<Punch>, kinds: seq<LineKind>)
    ensures Distinct(ScanLines(existing, kinds).added)
    decreases |kinds|
  {
    if kinds != [] {
      var n := |kinds| - 1;
      ScanDistinct(existing, kinds[..n]);
      ScanSeen(existing, kinds[..n]);
      ScanStep(existing, kinds, n);
      assert kinds[..n + 1] == kinds;
      var s, r := ScanLines(existing, kinds[..n]), ScanLines(existing, kinds);
      if r.added != s.added {
        forall i | 0 <= i < |s.added| ensures s.added[i] != r.added[|s.added|] {
          assert s.added[i] in s.added;
        }
      }
    }
  }

  /** After a scan that did not raise, every line is accounted for: its key is among the seen ones. */
  lemma {:induction false} ScanCovers(existing: set<Punch>, kinds: seq<LineKind>, k: nat)
    requires k < |kinds| && !ScanLines(existing, kinds).failed
    ensures !kinds[k].Raises?
    ensures kinds[k].Keyed? ==> kinds[k].punch in ScanLines(existing, kinds).seen
    decreases |kinds|
  {
    var n := |kinds| - 1;
    ScanStep(existing, kinds, n);
    assert kinds[..n + 1] == kinds;
    if k < n {
      assert kinds[..n][k] == kinds[k];
      ScanCovers(existing, kinds[..n], k);
    }
  }

  /** When every line is already known, a scan emits nothing. */
  lemma {:induction false} ScanNothingNew(existing: set<Punch>, kinds: seq<LineKind>)
    requires forall k :: 0 <= k < |kinds| ==> !kinds[k].Raises?
    requires forall k :: 0 <= k < |kinds| && kinds[k].Keyed? ==> kinds[k].punch in existing
    ensures ScanLines(existing, kinds) == Scan(existing, [], false)
    decreases |kinds|
  {
    if kinds != [] {
      var n := |kinds| - 1;
      forall k | 0 <= k < n ensures !kinds[..n][k].Raises?
        && (kinds[..n][k].Keyed? ==> kinds[..n][k].punch in existing)
      {
        assert kinds[..n][k] == kinds[k];
      }
      ScanNothingNew(existing, kinds[..n]);
    }
  }

  /** Scanning the same text again, from the keys the first scan left, emits nothing. */
  lemma ScanAgain(existing: set<Punch>, kinds: seq<LineKind>)
    requires !ScanLines(existing, kinds).failed
    ensures var seen := ScanLines(existing, kinds).seen;
      ScanLines(seen, kinds) == Scan(seen, [], false)
  {
    forall k | 0 <= k < |kinds|
      ensures !kinds[k].Raises?
      ensures kinds[k].Keyed? ==> kinds[k].punch in ScanLines(existing, kinds).seen
    {
      ScanCovers(existing, kinds, k);
    }
    ScanNothingNew(ScanLines(existing, kinds).seen, kinds);
  }

  function Max(a: int, b: int): int
  {
    if a < b then b else a
  }

  class AttLogParser {
    /** `existing_data`: every key ever emitted or found in sanatise.json. */
    var existingData: set<Punch>
    /** `last_position`: how far into attlog.json the parser has read. */
    var lastPosition: nat
    /** The entries of sanatise.json. */
    var output: seq<Punch>

    /** Every entry of sanatise.json is a known key. */
    ghost predicate Valid()
      reads this
    {
      forall p :: p in output ==> p in existingData
    }

    /** `AttLogParser()`: `load_existing_data` reads the keys of sanatise.json, or none when it is absent. */
    constructor(outputFile: Option<seq<Punch>>)
      ensures output == outputFile.GetOr([])
      ensures existingData == set p | p in output
      ensures lastPosition == 0
      ensures Valid()
    {
      output := outputFile.GetOr([]);
      existingData := set p | p in outputFile.GetOr([]);
      lastPosition := 0;
    }

    /**
     * `parse_and_write`: new keys are added to `existing_data` as they are
     * found; when no line raises they are appended to sanatise.json in order.
     * A line that raises ends the call and nothing is written, though the
     * keys found before it stay known.
     */
    method ParseAndWrite(content: string) returns (ok: bool)
      requires Valid()
      modifies this
      ensures Valid()
      ensures var s := ScanLines(old(existingData), Kinds(SplitLines(content)));
        && existingData == s.seen && ok == !s.failed
        && output == old(output) + (if s.failed then [] else s.added)
        && lastPosition == old(lastPosition)
    {
      var sanitized;
      sanitized, ok := ScanText(SplitLines(content));
      if ok && sanitized != [] {
        output := output + sanitized;
      }
    }

    /** The line loop of `parse_and_write`: the new keys in order, or `false` when a line raises. */
    method ScanText(lines: seq<string>) returns (sanitized: seq<Punch>, ok: bool)
      requires Valid()
      modifies this
      ensures Valid()
      ensures var s := ScanLines(old(existingData), Kinds(lines));
        && existingData == s.seen && ok == !s.failed && (ok ==> sanitized == s.added)
        && (ok ==> forall p :: p in sanitized ==> p in existingData)
        && output == old(output) && lastPosition == old(lastPosition)
    {
      ghost var kinds := Kinds(lines);
      ghost var start := existingData;
      sanitized := [];
      for i := 0 to |lines|
        invariant Scan(existingData, sanitized, false) == ScanLines(start, kinds[..i])
        invariant output == old(output) && lastPosition == old(lastPosition)
        invariant start <= existingData
        invariant forall p :: p in sanitized ==> p in existingData
      {
        var raised;
        sanitized, raised := ScanLine(lines[i], start, kinds, i, sanitized);
        if raised {
          ScanFailedStays(start, kinds, i + 1);
          return sanitized, false;
        }
      }
      assert kinds[..|kinds|] == kinds;
      return sanitized, true;
    }

    /** One pass of that loop: line `i` raises, is skipped, or adds its key when it is new. */
    method ScanLine(line: string, ghost start: set<Punch>, ghost kinds: seq<LineKind>, i: nat, sanitized: seq<Punch>)
      returns (next: seq<Punch>, raised: bool)
      requires i < |kinds| && kinds[i] == LineKey(line)
      requires Scan(existingData, sanitized, false) == ScanLines(start, kinds[..i])
      requires forall p :: p in sanitized ==> p in existingData
      modifies this
      ensures ScanLines(start, kinds[..i + 1]) == Scan(existingData, next, raised)
      ensures forall p :: p in next ==> p in existingData
      ensures old(existingData) <= existingData
      ensures output == old(output) && lastPosition == old(lastPosition)
    {
      ScanStep(start, kinds, i);
      var key := LineKey(line);
      if key.Raises? {
        return sanitized, true;
      }
      next := sanitized;
      raised := false;
      if key.Keyed? && key.punch !in existingData {
        next := sanitized + [key.punch];
        existingData := existingData + {key.punch};
      }
    }

    /** `process_existing_attlog`: the whole of attlog.json, when it exists. */
    method ProcessExistingAttlog(file: Option<string>) returns (ok: bool)
      requires Valid()
      modifies this
      ensures Valid()
      ensures file.None? ==> ok && existingData == old(existingData) && output == old(output)
      ensures file.Some? ==> var s := ScanLines(old(existingData), Kinds(SplitLines(file.value)));
        && existingData == s.seen && ok == !s.failed
        && output == old(output) + (if s.failed then [] else s.added)
      ensures lastPosition == old(lastPosition)
    {
      if file.None? {
        return true;
      }
      ok := ParseAndWrite(file.value);
    }

    /**
     * `check_for_new_content`: reads attlog.json from `last_position` to its
     * end, moves `last_position` there, and parses what it read.
     */
    method CheckForNewContent(file: Option<string>) returns (ok: bool)
      requires Valid()
      modifies this
      ensures Valid()
      ensures file.None? ==> ok && lastPosition == old(lastPosition)
      ensures file.Some? ==> lastPosition == Max(old(lastPosition), |file.value|)
      ensures file.None? || old(lastPosition) >= |file.value| ==>
        ok && existingData == old(existingData) && output == old(output)
      ensures file.Some? && old(lastPosition) < |file.value| ==>
        var s := ScanLines(old(existingData), Kinds(SplitLines(file.value[old(lastPosition)..])));
        && existingData == s.seen && ok == !s.failed
        && output == old(output) + (if s.failed then [] else s.added)
    {
      if file.None? {
        return true;
      }
      var text := file.value;
      if lastPosition >= |text| {
        // reading at or past the end gives "", and `tell()` stays where `seek` put it
        return true;
      }
      var newContent := text[lastPosition..];
      lastPosition := |text|;
      ok := ParseAndWrite(newContent);
    }
  }
}
