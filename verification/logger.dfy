/**
 * logger_setup.py: the filter that drops a message equal to the one just
 * before it, and the size cap on server.log.
 */
module LogSetup {
  import opened Wrappers

  /** `MAX_LOG_SIZE`: 1 GiB. */
  const MaxLogSize: nat := 1024 * 1024 * 1024

  /**
   * The size of server.log after `setup_logger`: `None` when the file does
   * not exist; a file at or over the cap is emptied.
   */
  function SizeAfterSetup(size: Option<nat>): (r: Option<nat>)
    ensures r.None? <==> size.None?
    ensures r.Some? ==> r.value < MaxLogSize
    ensures r != size <==> size.Some? && size.value >= 1073741824
  {
    if size.Some? && size.value >= MaxLogSize then Some(0) else size
  }

  /**
   * The messages a fresh filter lets through: every message that differs
   * from the one offered just before it.
   */
  function Passed(msgs: seq<string>): (r: seq<string>)
    ensures |r| <= |msgs|
    ensures msgs != [] ==> r != [] && r[|r| - 1] == msgs[|msgs| - 1]
    decreases |msgs|
  {
    if msgs == [] then []
    else
      var n := |msgs| - 1;
      Passed(msgs[..n]) + (if n > 0 && msgs[n - 1] == msgs[n] then [] else [msgs[n]])
  }

  /** The first message always passes. */
  lemma {:induction false} FirstPasses(msgs: seq<string>)
    requires msgs != []
    ensures Passed(msgs)[0] == msgs[0]
    decreases |msgs|
  {
    var n := |msgs| - 1;
    if n > 0 {
      assert msgs[..n][0] == msgs[0];
      FirstPasses(msgs[..n]);
    }
  }

  /** No message directly follows an equal one. */
  predicate NoRepeats(r: seq<string>)
  {
    forall i :: 0 <= i < |r| - 1 ==> r[i] != r[i + 1]
  }

  /** What passes never holds the same message twice in a row. */
  lemma {:induction false} NoAdjacentRepeats(msgs: seq<string>)
    ensures NoRepeats(Passed(msgs))
    decreases |msgs|
  {
    if msgs != [] {
      var n := |msgs| - 1;
      NoAdjacentRepeats(msgs[..n]);
      var p, r := Passed(msgs[..n]), Passed(msgs);
      if n == 0 {
        assert |r| == 1;
      } else if msgs[n - 1] == msgs[n] {
        assert r == p;
      } else {
        assert msgs[..n][n - 1] == msgs[n - 1];
        assert r == p + [msgs[n]] && r[|p| - 1] == msgs[n - 1];
        forall i | 0 <= i < |r| - 1 ensures r[i] != r[i + 1] {
          if i < |p| - 1 {
            assert r[i] == p[i] && r[i + 1] == p[i + 1];
          } else {
            assert i == |p| - 1;
          }
        }
      }
    }
  }

  /** Dropping only repeats loses no message: the same messages pass, just not back to back. */
  lemma {:induction false} SameMessages(msgs: seq<string>)
    ensures forall m :: m in Passed(msgs) <==> m in msgs
    decreases |msgs|
  {
    if msgs != [] {
      var n := |msgs| - 1;
      SameMessages(msgs[..n]);
      assert msgs == msgs[..n] + [msgs[n]];
      if n > 0 && msgs[n - 1] == msgs[n] {
        assert msgs[..n][n - 1] == msgs[n];
      }
    }
  }

  /** What passes of a prefix of the messages is a prefix of what passes of them all. */
  lemma {:induction false} PassedPrefix(msgs: seq<string>, i: nat)
    requires i <= |msgs|
    ensures Passed(msgs[..i]) <= Passed(msgs)
    decreases |msgs|
  {
    if i < |msgs| {
      var n := |msgs| - 1;
      assert msgs[..n][..i] == msgs[..i];
      PassedPrefix(msgs[..n], i);
    } else {
      assert msgs[..i] == msgs;
    }
  }

  /**
   * A message that differs from the one just before it passes, at the
   * position after everything that passed before it; so a message repeated
   * after a different one passes again.
   */
  lemma NonAdjacentRepeatPasses(msgs: seq<string>, i: nat)
    requires 0 < i < |msgs| && msgs[i - 1] != msgs[i]
    ensures |Passed(msgs[..i])| < |Passed(msgs)|
    ensures Passed(msgs)[|Passed(msgs[..i])|] == msgs[i]
  {
    var before := msgs[..i + 1];
    assert before[..i] == msgs[..i];
    assert Passed(before) == Passed(msgs[..i]) + [msgs[i]];
    PassedPrefix(msgs, i + 1);
  }

  class DeduplicationFilter {
    /** `last_log`: the last message offered, `None` before the first. */
    var lastLog: Option<string>

    constructor()
      ensures lastLog.None?
    {
      lastLog := None;
    }

    /** `filter`: a message equal to the last one is dropped; every message becomes the last one. */
    method Filter(msg: string) returns (pass: bool)
      modifies this
      ensures pass <==> old(lastLog) != Some(msg)
      ensures lastLog == Some(msg)
    {
      if lastLog == Some(msg) {
        return false;
      }
      lastLog := Some(msg);
      return true;
    }
  }

  /**
   * A fresh filter offered the messages one by one lets through exactly
   * `Passed(msgs)`, and remembers the last message offered.
   */
  method FilterEach(msgs: seq<string>) returns (passed: seq<string>, f: DeduplicationFilter)
    ensures passed == Passed(msgs)
    ensures f.lastLog == if msgs == [] then None else Some(msgs[|msgs| - 1])
  {
    f := new DeduplicationFilter();
    passed := [];
    for i := 0 to |msgs|
      invariant passed == Passed(msgs[..i])
      invariant f.lastLog == if i == 0 then None else Some(msgs[i - 1])
    {
      var pass := f.Filter(msgs[i]);
      assert msgs[..i + 1][..i] == msgs[..i];
      if pass {
        passed := passed + [msgs[i]];
      }
    }
    assert msgs[..|msgs|] == msgs;
  }
}
