/** The rule-run loop of `seed_large_dq_history`: round-robin over the rules, committed batch by batch. */
module RunHistorySeeder {
  import opened Results
  import opened Counting
  import opened Resumption

  datatype RuleRun = RuleRun(ruleId: int, failed: bool, violations: nat, ageMinutes: nat)

  /** The run at position `i` (from 0) of the history; the source counts positions from 1. */
  function RunAt(ids: seq<int>, i: nat): RuleRun
    requires ids != []
  {
    RuleRun(ids[i % |ids|], (i + 1) % 13 != 0, (i + 1) % 13, (i + 1) % 100000)
  }

  /** The first `n` runs of an uninterrupted history. */
  function History(ids: seq<int>, n: nat): (h: seq<RuleRun>)
    requires ids != []
    ensures |h| == n && forall i :: 0 <= i < n ==> h[i] == RunAt(ids, i)
  {
    seq(n, i requires 0 <= i < n => RunAt(ids, i))
  }

  function RunsOf(runs: seq<RuleRun>, id: int): nat {
    if runs == [] then 0 else
    RunsOf(runs[..|runs| - 1], id) + if runs[|runs| - 1].ruleId == id then 1 else 0
  }

  lemma NextPosition(n: nat, m: nat)
    requires m > 0
    ensures (n + 1) / m == n / m + (if n % m + 1 == m then 1 else 0)
    ensures (n + 1) % m == if n % m + 1 == m then 0 else n % m + 1
  {
    var q, r := n / m, n % m;
    assert n == q * m + r;
    if r + 1 == m {
      assert (q + 1) * m == q * m + m;
      QuotientUnique(n + 1, m, q + 1, 0);
    } else {
      QuotientUnique(n + 1, m, q, r + 1);
    }
  }

  /**
   In a history of `n` runs the rule at position `j` has run once per full round, and once more if the last round
   reached it.
   */
  lemma {:induction false} RunsPerRule(ids: seq<int>, n: nat, j: nat)
    requires NoDup(ids) && j < |ids|
    ensures RunsOf(History(ids, n), ids[j]) == n / |ids| + if j < n % |ids| then 1 else 0
  {
    var m := |ids|;
    if n == 0 {
      QuotientUnique(0, m, 0, 0);
    } else {
      RunsPerRule(ids, n - 1, j);
      NextPosition(n - 1, m);
      assert History(ids, n)[..n - 1] == History(ids, n - 1);
      assert ids[(n - 1) % m] == ids[j] <==> (n - 1) % m == j;
    }
  }

  /** The run counts of any two rules differ by at most one. */
  lemma HistoryIsBalanced(ids: seq<int>, n: nat, a: int, b: int)
    requires NoDup(ids) && a in ids && b in ids
    ensures -1 <= RunsOf(History(ids, n), a) - RunsOf(History(ids, n), b) <= 1
  {
    var i :| 0 <= i < |ids| && ids[i] == a;
    var j :| 0 <= j < |ids| && ids[j] == b;
    RunsPerRule(ids, n, i);
    RunsPerRule(ids, n, j);
  }

  datatype Outcome = Finished | Interrupted | Raised

  /** The rows of one batch, from position `from`. */
  method MakeBatch(ids: seq<int>, from: nat, size: nat) returns (batch: seq<RuleRun>)
    requires ids != []
    ensures |batch| == size && forall k :: 0 <= k < size ==> batch[k] == RunAt(ids, from + k)
  {
    batch := [];
    for offset := 0 to size
      invariant |batch| == offset
      invariant forall k :: 0 <= k < offset ==> batch[k] == RunAt(ids, from + k)
    {
      var position := from + offset + 1;
      var violations := position % 13;
      batch := batch + [RuleRun(ids[(position - 1) % |ids|], violations != 0, violations, position % 100000)];
    }
  }

  /** The run rows of the listed rules. */
  class RunTable {
    var runs: seq<RuleRun>

    constructor ()
      ensures runs == []
    {
      runs := [];
    }

    /**
     One execution of the batch loop, cut off after `commits` batches unless that is None. Rows depend on their
     position only, so what is added, as many full batches as commits came about or all that is missing, continues
     the history from the existing count. A chunk size of zero raises before anything is added, and a negative one
     adds nothing.
     */
    method Seed(ids: seq<int>, target: int, chunkSize: int, commits: Option<nat>) returns (outcome: Outcome)
      requires ids != []
      modifies this
      ensures old(runs) <= runs
      ensures forall i :: |old(runs)| <= i < |runs| ==> runs[i] == RunAt(ids, i)
      ensures chunkSize <= 0 ==> runs == old(runs) && outcome == if chunkSize == 0 then Raised else Finished
      ensures chunkSize > 0 ==>
                var missing: nat := if target > |old(runs)| then target - |old(runs)| else 0;
                && |runs| == |old(runs)| + RowsAdded(commits, chunkSize, missing)
                && outcome == if RowsAdded(commits, chunkSize, missing) == missing then Finished else Interrupted
    {
      hide RunAt, ChunkRows;
      var existing := |runs|;
      var remaining: nat := if target > existing then target - existing else 0;
      if chunkSize <= 0 {
        return if chunkSize == 0 then Raised else Finished;
      }
      var start: nat := 0;
      var flushed := 0;
      ChunkRowsStep(0, chunkSize);
      while start < remaining
        invariant start == ChunkRows(flushed, chunkSize) && (commits.Some? ==> flushed <= commits.value)
        invariant old(runs) <= runs
        invariant |runs| == existing + if start < remaining then start else remaining
        invariant forall i :: existing <= i < |runs| ==> runs[i] == RunAt(ids, i)
        decreases remaining - start
      {
        var size := if chunkSize < remaining - start then chunkSize else remaining - start;
        if commits == Some(flushed) {
          OneIsAChunk(chunkSize);
          return Interrupted;
        }
        ChunkRowsStep(flushed, chunkSize);
        var batch := MakeBatch(ids, existing + start, size);
        runs := runs + batch;
        flushed := flushed + 1;
        start := start + chunkSize;
      }
      if commits.Some? {
        ChunkRowsGrow(flushed, commits.value, chunkSize);
      }
      OneIsAChunk(chunkSize);
      outcome := Finished;
    }

    /**
     Any interrupted executions and then a complete one, with the same rules: the table holds as many runs as
     the largest target asked for, exactly those of an uninterrupted history, and the rules share them evenly.
     */
    method SeedUntilDone(ids: seq<int>, target: nat, chunkSize: nat, interruptions: seq<nat>)
      requires NoDup(ids) && ids != [] && chunkSize > 0
      requires runs == History(ids, |runs|)
      modifies this
      ensures runs == History(ids, if target > |old(runs)| then target else |old(runs)|)
      ensures forall a, b :: a in ids && b in ids ==> -1 <= RunsOf(runs, a) - RunsOf(runs, b) <= 1
    {
      for i := 0 to |interruptions|
        invariant runs == History(ids, |runs|)
        invariant |runs| == |old(runs)| || |old(runs)| < |runs| <= target
      {
        var before := runs;
        var _ := Seed(ids, target, chunkSize, Some(interruptions[i]));
        Continues(ids, before, runs);
      }
      var before := runs;
      var _ := Seed(ids, target, chunkSize, None);
      Continues(ids, before, runs);
      forall a, b | a in ids && b in ids ensures -1 <= RunsOf(runs, a) - RunsOf(runs, b) <= 1 {
        HistoryIsBalanced(ids, |runs|, a, b);
      }
    }
  }

  lemma OneIsAChunk(chunkSize: int)
    requires chunkSize > 0
    ensures Chunk(chunkSize) == chunkSize
  {}

  lemma Continues(ids: seq<int>, before: seq<RuleRun>, after: seq<RuleRun>)
    requires ids != []
    requires before == History(ids, |before|) && before <= after
    requires forall i :: |before| <= i < |after| ==> after[i] == RunAt(ids, i)
    ensures after == History(ids, |after|)
  {
    forall i | 0 <= i < |after| ensures after[i] == RunAt(ids, i) {
      if i < |before| {
        assert after[i] == before[i];
      }
    }
  }
}
