/** The calculation history: a list of entries, most recent first, in which
    consecutive identical calculations are merged into one entry that carries a
    repeat count.

    The log is a run-length encoding of the calculations recorded since it was
    last emptied: `Expand` decodes it, `Replay` builds it by recording one
    calculation at a time, and the lemmas below show that the two are inverse
    to each other. */
module History {
  import opened Optional

  /** One history entry. The count is optional in the entry type; an absent
      count is read as 1. */
  datatype Entry = Entry(input: string, result: string, count: Option<int>)

  /** The history, most recent entry first. */
  type Log = seq<Entry>

  /** One calculation as made: the raw input and the result text shown for it. */
  datatype Calc = Calc(input: string, result: string)

  /** The value of `count || 1`: an absent count, and the falsy count 0, read as 1. */
  function Multiplicity(count: Option<int>): int {
    match count
    case None => 1
    case Some(n) => if n == 0 then 1 else n
  }

  /** The calculation an entry stands for. */
  function CalcOf(e: Entry): Calc {
    Calc(e.input, e.result)
  }

  /** The history after a successful calculation of `input` giving `result`. */
  function Record(log: Log, input: string, result: string): (r: Log)
    ensures |r| > 0 && CalcOf(r[0]) == Calc(input, result)
    ensures |log| > 0 && CalcOf(log[0]) == Calc(input, result) ==>
      && |r| == |log|
      && r[0].count == Some(Multiplicity(log[0].count) + 1)
      && r[1..] == log[1..]
    ensures !(|log| > 0 && CalcOf(log[0]) == Calc(input, result)) ==>
      r == [Entry(input, result, Some(1))] + log
  {
    if |log| > 0 && log[0].input == input && log[0].result == result then
      [log[0].(count := Some(Multiplicity(log[0].count) + 1))] + log[1..]
    else
      [Entry(input, result, Some(1))] + log
  }

  /** `clearHistory`: the history becomes empty. */
  function Clear(log: Log): (r: Log)
    ensures |r| == 0
  {
    []
  }

  /** `handleHistoryItemClick` reads the entry's input and nothing else. */
  function Restore(item: Entry): string {
    item.input
  }

  /** The shape every history built by `Record` from the empty history has:
      every count is present and at least 1, and no two neighbouring entries
      stand for the same calculation. */
  predicate WellFormed(log: Log) {
    && (forall k :: 0 <= k < |log| ==> log[k].count.Some? && log[k].count.value >= 1)
    && (forall k :: 0 < k < |log| ==> CalcOf(log[k - 1]) != CalcOf(log[k]))
  }

  /** `n` copies of `c` (none when `n` is not positive). */
  function Repeat(c: Calc, n: int): (r: seq<Calc>)
    ensures |r| == if n <= 0 then 0 else n
    ensures forall k :: 0 <= k < |r| ==> r[k] == c
    decreases n
  {
    if n <= 0 then [] else [c] + Repeat(c, n - 1)
  }

  /** Run-length decoding: every calculation the log stands for, most recent
      first, each entry contributing as many copies as its count. */
  function Expand(log: Log): seq<Calc>
    decreases |log|
  {
    if |log| == 0 then [] else Repeat(CalcOf(log[0]), Multiplicity(log[0].count)) + Expand(log[1..])
  }

  /** The sum of the counts of the entries. */
  function SumCounts(log: Log): int
    decreases |log|
  {
    if |log| == 0 then 0 else Multiplicity(log[0].count) + SumCounts(log[1..])
  }

  /** Records each calculation of `made` (most recent first) onto `log`, the
      oldest first. */
  function RecordAll(log: Log, made: seq<Calc>): Log
    decreases |made|
  {
    if |made| == 0 then log
    else Record(RecordAll(log, made[1..]), made[0].input, made[0].result)
  }

  /** The history built from the empty one by recording `made`, oldest first. */
  function Replay(made: seq<Calc>): Log {
    RecordAll([], made)
  }

  /** Recording keeps the history well formed. */
  lemma RecordKeepsWellFormed(log: Log, input: string, result: string)
    requires WellFormed(log)
    ensures WellFormed(Record(log, input, result))
  {
    var r := Record(log, input, result);
    if |log| > 0 && CalcOf(log[0]) == Calc(input, result) {
      assert forall k :: 0 < k < |r| ==> r[k] == log[k];
    } else {
      assert forall k :: 0 < k < |r| ==> r[k] == log[k - 1];
    }
  }

  /** Every entry of `log` stands for a calculation satisfying `ok`. */
  predicate AllCalcs(log: Log, ok: Calc -> bool) {
    forall k :: 0 <= k < |log| ==> ok(CalcOf(log[k]))
  }

  /** Recording keeps any property that the new calculation and every
      calculation already in the history share: recording only ever adds the
      new calculation. */
  lemma RecordKeepsAll(log: Log, input: string, result: string, ok: Calc -> bool)
    requires AllCalcs(log, ok) && ok(Calc(input, result))
    ensures AllCalcs(Record(log, input, result), ok)
  {
    var r := Record(log, input, result);
    if |log| > 0 && CalcOf(log[0]) == Calc(input, result) {
      assert forall k :: 0 < k < |r| ==> r[k] == log[k];
    } else {
      assert forall k :: 0 < k < |r| ==> r[k] == log[k - 1];
    }
  }

  /** Recording a calculation adds exactly that calculation, at the front, to
      the calculations the history stands for. */
  lemma RecordExpands(log: Log, input: string, result: string)
    requires WellFormed(log)
    ensures Expand(Record(log, input, result)) == [Calc(input, result)] + Expand(log)
  {
    var r := Record(log, input, result);
    if |log| > 0 && CalcOf(log[0]) == Calc(input, result) {
      var n := Multiplicity(log[0].count);
      assert Multiplicity(r[0].count) == n + 1;
      assert r[1..] == log[1..];
      assert Repeat(Calc(input, result), n + 1) == [Calc(input, result)] + Repeat(Calc(input, result), n);
    } else {
      assert r[1..] == log;
      assert Repeat(Calc(input, result), 1) == [Calc(input, result)];
    }
  }

  /** For a well-formed history the sum of the counts is the number of
      calculations it stands for. */
  lemma {:induction false} SumCountsIsExpandLength(log: Log)
    requires WellFormed(log)
    ensures SumCounts(log) == |Expand(log)|
    decreases |log|
  {
    if |log| > 0 {
      assert WellFormed(log[1..]) by {
        assert forall k :: 0 <= k < |log| - 1 ==> log[1..][k] == log[k + 1];
      }
      SumCountsIsExpandLength(log[1..]);
    }
  }

  /** Replaying any sequence of calculations from the empty history gives a
      well-formed history that stands for exactly those calculations, so its
      counts are all at least 1 and add up to the number of calculations. */
  lemma {:induction false} ReplayFaithful(made: seq<Calc>)
    ensures WellFormed(Replay(made))
    ensures Expand(Replay(made)) == made
    ensures SumCounts(Replay(made)) == |made|
    decreases |made|
  {
    if |made| > 0 {
      ReplayFaithful(made[1..]);
      var prev := Replay(made[1..]);
      RecordKeepsWellFormed(prev, made[0].input, made[0].result);
      RecordExpands(prev, made[0].input, made[0].result);
      assert [Calc(made[0].input, made[0].result)] + made[1..] == made;
    }
    SumCountsIsExpandLength(Replay(made));
  }

  /** Recording a batch on top of another batch is recording both together. */
  lemma {:induction false} RecordAllAppend(log: Log, newer: seq<Calc>, older: seq<Calc>)
    ensures RecordAll(log, newer + older) == RecordAll(RecordAll(log, older), newer)
    decreases |newer|
  {
    if |newer| > 0 {
      assert (newer + older)[1..] == newer[1..] + older;
      RecordAllAppend(log, newer[1..], older);
    } else {
      assert newer + older == older;
    }
  }

  /** Recording the same calculation `n` times onto a history whose head is a
      different calculation adds one entry with count `n`. */
  lemma {:induction false} RecordRepeated(log: Log, c: Calc, n: int)
    requires n >= 1
    requires |log| == 0 || CalcOf(log[0]) != c
    ensures RecordAll(log, Repeat(c, n)) == [Entry(c.input, c.result, Some(n))] + log
    decreases n
  {
    var made := Repeat(c, n);
    assert made[0] == c;
    if n == 1 {
      assert made[1..] == [];
    } else {
      assert made[1..] == Repeat(c, n - 1);
      RecordRepeated(log, c, n - 1);
    }
  }

  /** A well-formed history is determined by the calculations it stands for:
      replaying its run-length decoding rebuilds it exactly. */
  lemma {:induction false} ReplayExpand(log: Log)
    requires WellFormed(log)
    ensures Replay(Expand(log)) == log
    decreases |log|
  {
    if |log| > 0 {
      var tail := log[1..];
      assert WellFormed(tail) by {
        assert forall k :: 0 <= k < |tail| ==> tail[k] == log[k + 1];
      }
      ReplayExpand(tail);
      var c := CalcOf(log[0]);
      var n := log[0].count.value;
      assert Multiplicity(log[0].count) == n;
      RecordAllAppend([], Repeat(c, n), Expand(tail));
      assert |tail| == 0 || CalcOf(tail[0]) != c by {
        if |tail| > 0 {
          assert CalcOf(log[0]) != CalcOf(log[1]);
        }
      }
      RecordRepeated(tail, c, n);
      assert Entry(c.input, c.result, Some(n)) == log[0];
      assert [log[0]] + tail == log;
    }
  }
}
