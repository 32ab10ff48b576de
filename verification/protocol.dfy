/**
 * Reading an ATTLOG upload: the payload after the `Content-Length` header,
 * the device serial from the `SN=` query token, the payload's lines, and one
 * punch record per line (ft-zktco.py:209-236, identical in FT-ZK.py:86-119).
 */
module Protocol {
  import opened Wrappers
  import opened Text

  /** One JSON object of the intermediate log, field name to text. */
  type Entry = map<string, string>

  const ContentLengthTag: string := "Content-Length:"

  // ---------------------------------------------------------------- extract_attlog

  /** `s` is non-blank and has no whitespace at either end. */
  predicate Trimmed(s: string)
  {
    s != [] && !IsSpace(s[0]) && !IsSpace(s[|s| - 1])
  }

  lemma StripTrimmed(s: string)
    ensures Strip(s) != [] ==> Trimmed(Strip(s))
  {
    StripShape(s);
  }

  /**
   * `extract_attlog(data)`: the first "Content-Length:" names a length `n`; the
   * payload is the `n` characters after the line break that ends that header
   * line, stripped. `None` when there is no such header or its value is not an
   * integer. Python's `find` and slicing are followed exactly, so a header line
   * without a line break and a negative length behave as they do in CPython.
   */
  function ExtractAttlog(data: string): (r: Option<string>)
    ensures r.Some? ==> Contains(data, ContentLengthTag)
    ensures r.Some? && r.value != [] ==> Trimmed(r.value)
  {
    var header := LengthHeader(data);
    if header.None? then None
    else
      var raw := RawPayload(data, header.value.0, header.value.1);
      StripTrimmed(raw);
      Some(Strip(raw))
  }

  /**
   * The index where the search for the end of the first "Content-Length:"
   * line stopped, and the integer on that line.
   */
  function LengthHeader(data: string): (r: Option<(int, int)>)
    ensures r.Some? ==> Contains(data, ContentLengthTag)
  {
    var cl := Find(data, ContentLengthTag, 0);
    if cl == -1 then None
    else
      var clStart := cl + |ContentLengthTag|;
      var clEnd := Find(data, "\n", clStart);
      var length := ParseInt(Slice(data, clStart, clEnd));
      if length.None? then None else Some((clEnd, length.value))
  }

  /** The `n` characters after the line break found from `clEnd`, as Python slices them. */
  function RawPayload(data: string, clEnd: int, n: int): string
  {
    var dataStart := Find(data, "\n", clEnd) + 1;
    Slice(data, dataStart, dataStart + n)
  }

  /** The first "Content-Length:" header starts at `p` and its line ends with the line break at `e`. */
  predicate HeaderLineAt(data: string, p: int, e: int)
  {
    && OccursAt(data, ContentLengthTag, p)
    && (forall j :: 0 <= j < p ==> !OccursAt(data, ContentLengthTag, j))
    && p + |ContentLengthTag| <= e < |data| && data[e] == '\n'
    && '\n' !in data[p + |ContentLengthTag|..e]
  }

  lemma HeaderLineFound(data: string, p: int, e: int)
    requires HeaderLineAt(data, p, e)
    ensures Find(data, ContentLengthTag, 0) == p
    ensures Find(data, "\n", p + |ContentLengthTag|) == e
    ensures Find(data, "\n", e) == e
    ensures Slice(data, p + |ContentLengthTag|, e) == data[p + |ContentLengthTag|..e]
  {
    FindAt(data, ContentLengthTag, 0, p);
    var q := p + |ContentLengthTag|;
    assert data[e..e + 1] == "\n";
    assert OccursAt(data, "\n", e);
    forall j | q <= j < e ensures !OccursAt(data, "\n", j) {
      assert data[j] == data[q..e][j - q];
      assert data[j..j + 1] == [data[j]];
    }
    FindAt(data, "\n", q, e);
    FindAt(data, "\n", e, e);
  }

  /**
   * For a request whose first "Content-Length:" header carries a length `n >= 0`
   * on a line of its own, the payload is what follows that line, cut to at most
   * `n` characters and stripped. Headers after Content-Length are part of it.
   */
  lemma ExtractAttlogWellFormed(data: string, p: int, e: int, n: nat)
    requires HeaderLineAt(data, p, e)
    requires ParseInt(data[p + |ContentLengthTag|..e]) == Some(n)
    ensures ExtractAttlog(data) == Some(Strip(Take(data[e + 1..], n)))
  {
    HeaderLineFound(data, p, e);
    ExtractAttlogSteps(data, p, e, n);
    PayloadAt(data, e, n);
    assert ExtractAttlog(data) == Some(Strip(RawPayload(data, e, n)));
  }

  lemma ExtractAttlogSteps(data: string, p: int, e: int, n: int)
    requires p >= 0 && Find(data, ContentLengthTag, 0) == p
    requires Find(data, "\n", p + |ContentLengthTag|) == e
    requires ParseInt(Slice(data, p + |ContentLengthTag|, e)) == Some(n)
    ensures LengthHeader(data) == Some((e, n))
  {
    var clStart := Find(data, ContentLengthTag, 0) + |ContentLengthTag|;
    assert clStart == p + |ContentLengthTag|;
    assert Find(data, "\n", clStart) == e;
    assert ParseInt(Slice(data, clStart, e)) == Some(n);
  }

  /** At most the first `n` elements of `s`. */
  function Take(s: string, n: nat): (r: string)
    ensures |r| <= n && StartsWith(s, r)
    ensures |s| >= n ==> |r| == n
  {
    if n <= |s| then s[..n] else s
  }

  lemma PayloadAt(data: string, e: int, n: nat)
    requires 0 <= e < |data| && Find(data, "\n", e) == e
    ensures RawPayload(data, e, n) == Take(data[e + 1..], n)
  {
    SliceFrom(data, e + 1, e + 1 + n);
  }

  /** Without a "Content-Length:" header there is no payload. */
  lemma ExtractAttlogNeedsHeader(data: string)
    requires !Contains(data, ContentLengthTag)
    ensures ExtractAttlog(data) == None
  {
  }

  /** A first "Content-Length:" header whose value is not an integer yields no payload. */
  lemma ExtractAttlogBadLength(data: string, p: int, e: int)
    requires HeaderLineAt(data, p, e)
    requires ParseInt(data[p + |ContentLengthTag|..e]) == None
    ensures ExtractAttlog(data) == None
  {
    HeaderLineFound(data, p, e);
    BadLengthSteps(data, p, e);
  }

  lemma BadLengthSteps(data: string, p: int, e: int)
    requires p >= 0 && Find(data, ContentLengthTag, 0) == p
    requires Find(data, "\n", p + |ContentLengthTag|) == e
    requires ParseInt(Slice(data, p + |ContentLengthTag|, e)) == None
    ensures LengthHeader(data) == None
  {
    var clStart := Find(data, ContentLengthTag, 0) + |ContentLengthTag|;
    var clEnd := Find(data, "\n", clStart);
    assert clStart == p + |ContentLengthTag| && clEnd == e;
    var length := ParseInt(Slice(data, clStart, clEnd));
    assert length == None;
  }

  // ---------------------------------------------------------------- extract_sn

  /** The characters of `[^&\s]`. */
  predicate SerialChar(c: char)
  {
    c != '&' && !IsSpace(c)
  }

  /** `SN=` followed by at least one serial character starts at `j`: where `re.search(r'SN=([^&\s]+)')` can match. */
  predicate SerialAt(data: string, j: int)
  {
    OccursAt(data, "SN=", j) && j + 3 < |data| && SerialChar(data[j + 3])
  }

  function SerialRun(s: string): (n: nat)
    ensures n <= |s|
    ensures forall i :: 0 <= i < n ==> SerialChar(s[i])
    ensures n < |s| ==> !SerialChar(s[n])
  {
    if s == [] || !SerialChar(s[0]) then 0 else 1 + SerialRun(s[1..])
  }

  function FirstSerialFrom(data: string, i: nat): (r: Option<nat>)
    ensures r.Some? ==> i <= r.value && SerialAt(data, r.value)
                        && forall j :: i <= j < r.value ==> !SerialAt(data, j)
    ensures r.None? ==> forall j :: i <= j ==> !SerialAt(data, j)
    decreases |data| - i
  {
    if i + 3 >= |data| then None
    else if SerialAt(data, i) then Some(i)
    else FirstSerialFrom(data, i + 1)
  }

  /**
   * `extract_sn(data)`: at the leftmost `SN=` followed by a serial character,
   * the longest run of characters other than '&' and whitespace; `None` when
   * there is no such place.
   */
  function ExtractSn(data: string): (r: Option<string>)
    ensures r.None? <==> forall j :: !SerialAt(data, j)
    ensures r.Some? ==> exists j :: SerialAt(data, j) && (forall k :: 0 <= k < j ==> !SerialAt(data, k))
                                     && j + 3 + |r.value| <= |data| && r.value == data[j + 3..j + 3 + |r.value|]
                                     && (j + 3 + |r.value| == |data| || !SerialChar(data[j + 3 + |r.value|]))
    ensures r.Some? ==> r.value != [] && forall i :: 0 <= i < |r.value| ==> SerialChar(r.value[i])
  {
    match FirstSerialFrom(data, 0)
    case None => None
    case Some(j) =>
      var n := SerialRun(data[j + 3..]);
      Some(data[j + 3..j + 3 + n])
  }

  // ---------------------------------------------------------------- split_attlog_records

  lemma StripKeepsNoLineBreak(s: string)
    ensures NoLineBreak(s) ==> NoLineBreak(Strip(s))
  {
    if NoLineBreak(s) {
      StripShape(s);
      var t, k := Strip(s), |s| - |LStrip(s)|;
      assert t == s[k..k + |t|];
      forall j | 0 <= j < |t| ensures !IsLineBreak(t[j]) {
        assert t[j] == s[k + j];
      }
    }
  }

  /** No string of `lines` holds a line boundary. */
  predicate NoneBreaks(lines: seq<string>)
  {
    forall i :: 0 <= i < |lines| ==> NoLineBreak(lines[i])
  }

  /** The record a line gives: the line stripped, or nothing when it is blank. */
  function Record(line: string): seq<string>
  {
    if Strip(line) == [] then [] else [Strip(line)]
  }

  /** The pieces `f` gives for each element of `xs`, in order. */
  function FlatMap<T, U>(f: T -> seq<U>, xs: seq<T>): seq<U>
  {
    if xs == [] then [] else f(xs[0]) + FlatMap(f, xs[1..])
  }

  lemma {:induction false} FlatMapConcat<T, U>(f: T -> seq<U>, a: seq<T>, b: seq<T>)
    ensures FlatMap(f, a + b) == FlatMap(f, a) + FlatMap(f, b)
    decreases |a|
  {
    if a == [] {
      assert a + b == b;
    } else {
      assert (a + b)[0] == a[0] && (a + b)[1..] == a[1..] + b;
      FlatMapConcat(f, a[1..], b);
    }
  }

  lemma {:induction false} FlatMapMembers<T, U>(f: T -> seq<U>, xs: seq<T>, u: U)
    ensures u in FlatMap(f, xs) <==> exists i :: 0 <= i < |xs| && u in f(xs[i])
    decreases |xs|
  {
    if xs != [] {
      var tail := xs[1..];
      FlatMapMembers(f, tail, u);
      if u in FlatMap(f, xs) && u !in f(xs[0]) {
        var i :| 0 <= i < |tail| && u in f(tail[i]);
        assert xs[i + 1] == tail[i];
      }
      if exists i :: 0 <= i < |xs| && u in f(xs[i]) {
        var i :| 0 <= i < |xs| && u in f(xs[i]);
        if i > 0 {
          assert tail[i - 1] == xs[i];
        }
      }
    }
  }

  /** `[line.strip() for line in lines if line.strip()]`. */
  function NonBlankStripped(lines: seq<string>): seq<string>
  {
    FlatMap(Record, lines)
  }

  /** Every record is trimmed, and lines without breaks give records without breaks. */
  lemma {:induction false} NonBlankStrippedShape(lines: seq<string>)
    ensures forall i :: 0 <= i < |NonBlankStripped(lines)| ==> Trimmed(NonBlankStripped(lines)[i])
    ensures NoneBreaks(lines) ==> NoneBreaks(NonBlankStripped(lines))
  {
    if lines != [] {
      var t := Strip(lines[0]);
      StripTrimmed(lines[0]);
      StripKeepsNoLineBreak(lines[0]);
      NoneBreaksTail(lines);
      NonBlankStrippedShape(lines[1..]);
      var rest := NonBlankStripped(lines[1..]);
      NoneBreaksCons(t, rest);
    }
  }

  lemma NoneBreaksTail(lines: seq<string>)
    requires lines != []
    ensures NoneBreaks(lines) ==> NoLineBreak(lines[0]) && NoneBreaks(lines[1..])
  {
    if NoneBreaks(lines) {
      forall i | 0 <= i < |lines| - 1 ensures NoLineBreak(lines[1..][i]) {
        assert lines[1..][i] == lines[i + 1];
      }
    }
  }

  lemma NoneBreaksCons(t: string, rest: seq<string>)
    ensures Trimmed(t) && (forall i :: 0 <= i < |rest| ==> Trimmed(rest[i])) ==>
      forall i :: 0 <= i < |[t] + rest| ==> Trimmed(([t] + rest)[i])
    ensures NoLineBreak(t) && NoneBreaks(rest) ==> NoneBreaks([t] + rest)
  {
  }

  /**
   * `split_attlog_records(s)`: the lines of the payload, each stripped, blank
   * ones dropped. Every record is non-blank, has no whitespace at its ends
   * and holds no line break.
   */
  function SplitAttlogRecords(s: string): (r: seq<string>)
    ensures forall i :: 0 <= i < |r| ==> Trimmed(r[i]) && NoLineBreak(r[i])
  {
    var lines := SplitLines(Strip(s));
    assert NoneBreaks(lines);
    NonBlankStrippedShape(lines);
    NonBlankStripped(lines)
  }

  /** A record is exactly a line that is not blank, stripped. */
  lemma NonBlankStrippedMembers(lines: seq<string>, t: string)
    ensures t in NonBlankStripped(lines) <==> t != [] && exists i :: 0 <= i < |lines| && Strip(lines[i]) == t
  {
    FlatMapMembers(Record, lines, t);
    if t != [] && exists i :: 0 <= i < |lines| && Strip(lines[i]) == t {
      var i :| 0 <= i < |lines| && Strip(lines[i]) == t;
      assert t in Record(lines[i]);
    }
  }

  /** The records of a payload are its stripped non-blank lines, in order. */
  lemma SplitAttlogRecordsLines(s: string, k: nat, t: string)
    requires k <= |SplitLines(Strip(s))|
    ensures var lines := SplitLines(Strip(s));
      SplitAttlogRecords(s) == NonBlankStripped(lines[..k]) + NonBlankStripped(lines[k..])
    ensures t in SplitAttlogRecords(s) <==>
      t != [] && exists i :: 0 <= i < |SplitLines(Strip(s))| && Strip(SplitLines(Strip(s))[i]) == t
  {
    var lines := SplitLines(Strip(s));
    assert lines == lines[..k] + lines[k..];
    FlatMapConcat(Record, lines[..k], lines[k..]);
    NonBlankStrippedMembers(lines, t);
  }

  /** A payload of one punch line is one record. */
  lemma SplitAttlogRecordsSingle(line: string)
    requires Trimmed(line) && NoLineBreak(line)
    ensures SplitAttlogRecords(line) == [line]
  {
    StripIdentity(line);
    SplitLinesSingle(line);
    var none: seq<string> := [];
    assert Record(line) == [line] && [line][1..] == none;
    assert FlatMap(Record, none) == none;
    assert NonBlankStripped([line]) == [line] + none;
  }

  // ---------------------------------------------------------------- parse_log_entry

  /** The key `f"col{i}"`. */
  function ColKey(i: nat): string
  {
    "col" + NatToString(i)
  }

  lemma ColKeyInjective(a: nat, b: nat)
    requires ColKey(a) == ColKey(b)
    ensures a == b
  {
    assert ColKey(a)[3..] == NatToString(a);
    assert ColKey(b)[3..] == NatToString(b);
    NatToStringInjective(a, b);
  }

  /** `{f"col{i}": token for i, token in enumerate(extra, start=1)}`. */
  function Columns(extra: seq<string>): (m: map<string, string>)
    ensures |extra| > 0 ==> ColKey(|extra|) in m && m[ColKey(|extra|)] == extra[|extra| - 1]
  {
    if extra == [] then map[]
    else
      var last := |extra| - 1;
      Columns(extra[..last])[ColKey(last + 1) := extra[last]]
  }

  /** The `col` key of each extra token maps to that token. */
  lemma {:induction false} ColumnsAt(extra: seq<string>, i: nat)
    requires 1 <= i <= |extra|
    ensures ColKey(i) in Columns(extra) && Columns(extra)[ColKey(i)] == extra[i - 1]
    decreases |extra|
  {
    var last := |extra| - 1;
    if i <= last {
      ColumnsAt(extra[..last], i);
      if ColKey(i) == ColKey(last + 1) {
        ColKeyInjective(i, last + 1);
      }
      assert extra[..last][i - 1] == extra[i - 1];
    }
  }

  /** The `col` keys are `col1` up to one per extra token, and nothing else. */
  lemma {:induction false} ColumnsKeys(extra: seq<string>)
    ensures Columns(extra).Keys == (set i | 1 <= i <= |extra| :: ColKey(i))
    decreases |extra|
  {
    if extra != [] {
      var last := |extra| - 1;
      ColumnsKeys(extra[..last]);
      KeysGrow(last);
    }
  }

  lemma KeysGrow(n: nat)
    ensures (set i | 1 <= i <= n :: ColKey(i)) + {ColKey(n + 1)} == (set i | 1 <= i <= n + 1 :: ColKey(i))
  {
  }

  const FixedKeys: set<string> := {"ZKID", "timestamp", "inorout", "attype"}

  lemma ColKeyNotFixed(i: nat)
    ensures ColKey(i) !in FixedKeys
  {
    assert ColKey(i)[0] == 'c';
  }

  /** The entry built from the tokens of a line with at least five of them. */
  function EntryOf(t: seq<string>): (e: Entry)
    requires |t| >= 5
    ensures e.Keys == FixedKeys + (set i | 1 <= i <= |t| - 5 :: ColKey(i))
    ensures e["ZKID"] == t[0] && e["timestamp"] == t[1] + " " + t[2]
    ensures e["inorout"] == t[3] && e["attype"] == t[4]
    ensures forall i :: 1 <= i <= |t| - 5 ==> e[ColKey(i)] == t[4 + i]
  {
    var cols := Columns(t[5..]);
    ColumnsKeys(t[5..]);
    forall i | 1 <= i <= |t| - 5 ensures ColKey(i) !in FixedKeys && cols[ColKey(i)] == t[4 + i] {
      ColKeyNotFixed(i);
      ColumnsAt(t[5..], i);
    }
    var fixed := map["ZKID" := t[0], "timestamp" := t[1] + " " + t[2], "inorout" := t[3], "attype" := t[4]];
    fixed + cols
  }

  /**
   * `parse_log_entry(entry)`: `None` when the line has fewer than five
   * whitespace-separated tokens; otherwise ZKID, timestamp (date and time
   * joined by one space), inorout and attype by position, and `col1`, `col2`,
   * ... for the tokens after the fifth.
   */
  function ParseLogEntry(entry: string): (r: Option<Entry>)
    ensures r.None? <==> |Split(entry)| < 5
    ensures r.Some? ==> r.value == EntryOf(Split(entry))
  {
    var t := Split(entry);
    if |t| < 5 then None else Some(EntryOf(t))
  }

  // ---------------------------------------------------------------- the device's line format

  lemma TokenLengthOfJoin(w: string, sep: char, rest: string)
    requires w != [] && NoSpace(w) && IsSpace(sep)
    ensures TokenLength(w + [sep] + rest) == |w|
    decreases |w|
  {
    if |w| > 1 {
      assert (w + [sep] + rest)[1..] == w[1..] + [sep] + rest;
      TokenLengthOfJoin(w[1..], sep, rest);
    }
  }

  lemma SplitSkipsSpace(c: char, s: string)
    requires IsSpace(c)
    ensures Split([c] + s) == Split(s)
  {
    assert ([c] + s)[1..] == s;
    assert LStrip([c] + s) == LStrip(s);
  }

  lemma SplitFirstToken(w: string, sep: char, rest: string)
    requires w != [] && NoSpace(w) && IsSpace(sep)
    ensures Split(w + [sep] + rest) == [w] + Split(rest)
  {
    var s := w + [sep] + rest;
    assert s[0] == w[0];
    assert LStrip(s) == s;
    TokenLengthOfJoin(w, sep, rest);
    assert s[..|w|] == w;
    assert s[|w|..] == [sep] + rest;
    SplitSkipsSpace(sep, rest);
  }

  /** Tokens without whitespace, joined by a whitespace separator, split back into the same tokens. */
  lemma {:induction false} SplitJoin(tokens: seq<string>, sep: char)
    requires IsSpace(sep)
    requires forall i :: 0 <= i < |tokens| ==> tokens[i] != [] && NoSpace(tokens[i])
    ensures Split(Join(tokens, sep)) == tokens
    decreases |tokens|
  {
    if tokens == [] {
    } else if |tokens| == 1 {
      SplitSingle(tokens[0]);
    } else {
      var tail := tokens[1..];
      var rest := Join(tail, sep);
      assert Join(tokens, sep) == tokens[0] + [sep] + rest;
      assert tokens[0] != [] && NoSpace(tokens[0]);
      SplitFirstToken(tokens[0], sep, rest);
      forall i | 0 <= i < |tail| ensures tail[i] != [] && NoSpace(tail[i]) {
        assert tail[i] == tokens[i + 1];
      }
      SplitJoin(tail, sep);
      ConsTail(tokens);
    }
  }

  lemma ConsTail<T>(s: seq<T>)
    requires s != []
    ensures [s[0]] + s[1..] == s
  {
  }

  /**
   * A tab-separated punch line as the terminal sends it (user id, date, time,
   * status, verify type, then further device fields) parses back into exactly
   * those fields: the first five by name, the rest as `col1`, `col2`, ...
   */
  lemma AttlogLineRoundTrip(fields: seq<string>)
    requires |fields| >= 5
    requires forall i :: 0 <= i < |fields| ==> fields[i] != [] && NoSpace(fields[i])
    ensures ParseLogEntry(Join(fields, '\t')) == Some(EntryOf(fields))
  {
    SplitJoin(fields, '\t');
  }
}
