/**
 `_seed_incidents` and `_seed_audit_events`: rows numbered from the existing count on, whose other values are taken
 in turn from cycles that every run starts anew, committed chunk by chunk.
 */
module TurnSeeders {
  import opened Results
  import opened Resumption

  // ----- incidents -----

  datatype Status = Open | Investigating | Mitigated | Resolved | Closed | Reopened | Recurring

  datatype Severity = Sev1 | Sev2 | Sev3 | Sev4

  datatype SourceType = DqRule | DqProfile | PlatformJob | ByHand

  const STATUSES: seq<Status> := [Open, Investigating, Mitigated, Resolved, Closed, Reopened, Recurring]
  const SEVERITIES: seq<Severity> := [Sev1, Sev2, Sev3, Sev4]
  const SOURCE_TYPES: seq<SourceType> := [DqRule, DqProfile, PlatformJob, ByHand]

  datatype Incident = Incident(number: nat, table: nat, status: Status, severity: Severity, sourceType: SourceType,
                               seenMinutesAgo: Option<nat>, postmortem: bool, sourceRef: nat)

  /** The incident at position `i` (from 0) of the table, made as the `k`-th (from 0) of a run, over `tables` tables. */
  function IncidentAt(tables: nat, i: nat, k: nat): Incident
    requires tables > 0
  {
    var n, status := i + 1, STATUSES[k % 7];
    Incident(n, i % tables, status, SEVERITIES[k % 4], SOURCE_TYPES[k % 4],
             if status == Open || status == Investigating || status == Recurring then Some(n % 1440) else None,
             !(status == Open || status == Investigating), n % 5000 + 1)
  }

  // ----- audit events -----

  datatype Action =
    | TableUpdate | TableReview | RuleEvaluate | IncidentUpdate | PrivacyReview | OwnerReassign | JobFinish
    | AuditExport

  datatype SourceModule = Catalog | DataQuality | Incidents | PrivacyAccess | Governance | Platform | Audit

  datatype Category = Export | GovernanceChange

  const ACTIONS: seq<Action> :=
    [TableUpdate, TableReview, RuleEvaluate, IncidentUpdate, PrivacyReview, OwnerReassign, JobFinish, AuditExport]
  const SOURCE_MODULES: seq<SourceModule> :=
    [Catalog, DataQuality, Incidents, PrivacyAccess, Governance, Platform, Audit]

  datatype AuditEvent = AuditEvent(number: nat, table: nat, action: Action, sourceModule: SourceModule,
                                   sensitive: bool, category: Option<Category>)

  function AuditEventAt(tables: nat, i: nat, k: nat): AuditEvent
    requires tables > 0
  {
    var n, action := i + 1, ACTIONS[k % 8];
    AuditEvent(n, i % tables, action, SOURCE_MODULES[k % 7], n % 7 == 0,
               if action == AuditExport then Some(Export) else if n % 5 == 0 then Some(GovernanceChange) else None)
  }

  // ----- rows in turn -----

  /** What makes the row at a position as the `k`-th of its run. */
  type Maker<T> = (nat, nat) -> T

  /** The first `n` rows of a run that starts at position `from`. */
  function RunOf<T>(make: Maker<T>, from: nat, n: nat): (rows: seq<T>)
    ensures |rows| == n && forall k :: 0 <= k < n ==> rows[k] == make(from + k, k)
  {
    seq(n, k requires 0 <= k < n => make(from + k, k))
  }

  /** The turn matters exactly modulo `p`. */
  ghost predicate TurnsEvery<T(!new)>(make: Maker<T>, p: nat)
    requires p > 0
  {
    forall i: nat, k: nat, l: nat :: make(i, k) == make(i, l) <==> k % p == l % p
  }

  lemma ModOfMod(k: nat, m: nat, p: nat)
    requires m > 0 && p > 0
    ensures (k % (m * p)) % p == k % p
  {
    var q := k / (m * p);
    assert k == q * (m * p) + k % (m * p) == (q * m) * p + k % (m * p);
    ModOfSum(q * m, p, k % (m * p));
  }

  /** Differences below `m * 7` that are multiples of 7 and of `m` are none, for lengths of 4 and 8. */
  lemma SmallMultiple(m: int, c: int, d: int)
    requires m == 4 || m == 8
    requires 7 * c == m * d && -m < c < m
    ensures c == 0
  {}

  lemma SmallResidues(m: nat, r: nat, s: nat)
    requires m == 4 || m == 8
    requires r < 7 * m && s < 7 * m && r % 7 == s % 7 && r % m == s % m
    ensures r == s
  {
    if m == 4 {
      SmallMultiple(4, r / 7 - s / 7, r / 4 - s / 4);
    } else {
      SmallMultiple(8, r / 7 - s / 7, r / 8 - s / 8);
    }
  }

  lemma Residues(k: nat, l: nat)
    ensures k % 7 == l % 7 && k % 4 == l % 4 <==> k % 28 == l % 28
    ensures k % 7 == l % 7 && k % 8 == l % 8 <==> k % 56 == l % 56
  {
    ModOfMod(k, 4, 7);
    ModOfMod(l, 4, 7);
    ModOfMod(k, 7, 4);
    ModOfMod(l, 7, 4);
    ModOfMod(k, 8, 7);
    ModOfMod(l, 8, 7);
    ModOfMod(k, 7, 8);
    ModOfMod(l, 7, 8);
    if k % 7 == l % 7 && k % 4 == l % 4 {
      SmallResidues(4, k % 28, l % 28);
    }
    if k % 7 == l % 7 && k % 8 == l % 8 {
      SmallResidues(8, k % 56, l % 56);
    }
  }

  /** Seven statuses and four severities come round together every 28 incidents. */
  lemma IncidentsTurnEvery28(tables: nat)
    requires tables > 0
    ensures TurnsEvery((i: nat, k: nat) => IncidentAt(tables, i, k), 28)
  {
    forall i: nat, k: nat, l: nat
      ensures IncidentAt(tables, i, k) == IncidentAt(tables, i, l) <==> k % 28 == l % 28 {
      Residues(k, l);
      assert STATUSES[k % 7] == STATUSES[l % 7] <==> k % 7 == l % 7;
      assert SEVERITIES[k % 4] == SEVERITIES[l % 4] <==> k % 4 == l % 4;
    }
  }

  /** Eight actions and seven modules come round together every 56 events. */
  lemma AuditEventsTurnEvery56(tables: nat)
    requires tables > 0
    ensures TurnsEvery((i: nat, k: nat) => AuditEventAt(tables, i, k), 56)
  {
    forall i: nat, k: nat, l: nat
      ensures AuditEventAt(tables, i, k) == AuditEventAt(tables, i, l) <==> k % 56 == l % 56 {
      Residues(k, l);
      assert ACTIONS[k % 8] == ACTIONS[l % 8] <==> k % 8 == l % 8;
      assert SOURCE_MODULES[k % 7] == SOURCE_MODULES[l % 7] <==> k % 7 == l % 7;
    }
  }

  /** `max(target - existing, 0)` */
  function Missing(target: int, existing: nat): nat {
    if target > existing then target - existing else 0
  }

  class SeededTable<T(!new)> {
    var rows: seq<T>

    constructor ()
      ensures rows == []
    {
      rows := [];
    }

    /**
     One run, cut off after `commits` commits unless that is None: the rows added are those of the positions from the
     existing count on, as many full chunks as commits came about or all, and then it returns how many.
     */
    method Seed(make: Maker<T>, target: int, chunkSize: int, commits: Option<nat>) returns (finished: bool, made: nat)
      modifies this
      ensures var missing := Missing(target, |old(rows)|);
              && rows == old(rows) + RunOf(make, |old(rows)|, RowsAdded(commits, chunkSize, missing))
              && (finished <==> RowsAdded(commits, chunkSize, missing) == missing)
              && (finished ==> made == missing)
    {
      hide ChunkRows, RowsAdded, RunOf;
      var existing, remaining := |rows|, Missing(target, |rows|);
      NothingMissing(commits, chunkSize);
      if remaining == 0 {
        return true, 0;
      }
      ChunkRowsStep(0, Chunk(chunkSize));
      RunStarts(make, existing);
      ghost var sent: nat := 0;
      var buffer: seq<T> := [];
      var flushed := 0;
      for k := 0 to remaining
        invariant rows == old(rows) + RunOf(make, existing, sent)
        invariant sent + |buffer| == k && RunOf(make, existing, sent) + buffer == RunOf(make, existing, k)
        invariant Chunked(sent, |buffer|, flushed, chunkSize, commits)
      {
        RunStep(make, existing, k);
        assert RunOf(make, existing, sent) + (buffer + [make(existing + k, k)])
            == RunOf(make, existing, sent) + buffer + [make(existing + k, k)];
        buffer := buffer + [make(existing + k, k)];
        if |buffer| >= chunkSize {
          if commits == Some(flushed) {
            CutShort(remaining, sent, |buffer|, flushed, chunkSize);
            return false, k + 1;
          }
          assert old(rows) + RunOf(make, existing, sent) + buffer == old(rows) + (RunOf(make, existing, sent) + buffer);
          rows := rows + buffer;
          ChunkRowsStep(flushed, Chunk(chunkSize));
          sent, buffer, flushed := sent + |buffer|, [], flushed + 1;
        }
      }
      AllAdded(remaining, sent, |buffer|, flushed, chunkSize, commits);
      if buffer != [] {
        if commits == Some(flushed) {
          CutShort(remaining, sent, |buffer|, flushed, chunkSize);
          return false, remaining;
        }
        assert old(rows) + RunOf(make, existing, sent) + buffer == old(rows) + (RunOf(make, existing, sent) + buffer);
        rows := rows + buffer;
      }
      finished, made := true, remaining;
    }

    /**
     Runs cut off one after the other, then one that is not: every position is filled once, in order, and the last run
     returns how many the others had left. The table is the one an uninterrupted run fills if and only if every run
     that found something missing resumed at a multiple of the length after which all cycles come round together.
     */
    method SeedUntilDone(make: Maker<T>, ghost p: nat, target: nat, chunkSize: int, interruptions: seq<nat>)
      returns (made: nat)
      requires rows == [] && p > 0 && TurnsEvery(make, p)
      modifies this
      ensures |rows| == target && InPlace(rows, make)
      ensures made == target - RowsAfter(target, chunkSize, interruptions)
      ensures rows == RunOf(make, 0, target)
         <==> forall j :: 0 <= j <= |interruptions| ==> InTurn(p, target, chunkSize, interruptions[..j])
    {
      hide RowsAfter, RowsAdded, InTurn, TurnsEvery, RunOf, InPlace;
      NothingAfter(make, p, target, chunkSize, interruptions);
      for i := 0 to |interruptions|
        invariant After(rows, make, p, target, chunkSize, interruptions[..i])
      {
        ghost var before := rows;
        var _, _ := Seed(make, target, chunkSize, Some(interruptions[i]));
        assert interruptions[..i + 1] == interruptions[..i] + [interruptions[i]];
        OneMoreRun(before, make, p, target, chunkSize, interruptions[..i], interruptions[i]);
      }
      assert interruptions[..|interruptions|] == interruptions;
      ghost var before := rows;
      var finished;
      finished, made := Seed(make, target, chunkSize, None);
      LastRun(before, make, p, target, chunkSize, interruptions);
    }
  }

  lemma RunStarts<T>(make: Maker<T>, from: nat)
    ensures RunOf(make, from, 0) == []
  {}

  lemma RunStep<T>(make: Maker<T>, from: nat, n: nat)
    ensures RunOf(make, from, n + 1) == RunOf(make, from, n) + [make(from + n, n)]
  {}

  lemma NothingMissing(commits: Option<nat>, chunkSize: int)
    ensures RowsAdded(commits, chunkSize, 0) == 0
  {}

  /** A row for position `i`, made in whatever turn. */
  ghost predicate RowFor<T(!new)>(row: T, make: Maker<T>, i: nat) {
    exists k: nat :: row == make(i, k)
  }

  /** Every row is one for its own position. */
  ghost predicate InPlace<T(!new)>(rows: seq<T>, make: Maker<T>) {
    forall i :: 0 <= i < |rows| ==> RowFor(rows[i], make, i)
  }

  /** The table after runs that died. */
  ghost predicate After<T(!new)>(rows: seq<T>, make: Maker<T>, p: nat, target: nat, chunkSize: int, runs: seq<nat>)
    requires p > 0
  {
    && |rows| == RowsAfter(target, chunkSize, runs)
    && InPlace(rows, make)
    && (rows == RunOf(make, 0, |rows|) <==> PassedInTurn(p, target, chunkSize, runs, |rows|))
  }

  lemma NothingAfter<T(!new)>(make: Maker<T>, p: nat, target: nat, chunkSize: int, runs: seq<nat>)
    requires p > 0
    ensures After([], make, p, target, chunkSize, runs[..0])
  {
    var none: seq<T> := [];
    assert RunOf(make, 0, 0) == none;
  }

  /** A resumed run makes the rows of an uninterrupted one exactly when it starts its cycles in turn. */
  lemma ResumedRowsIff<T(!new)>(make: Maker<T>, p: nat, existing: nat, n: nat)
    requires p > 0 && n > 0 && TurnsEvery(make, p)
    ensures RunOf(make, existing, n) == RunOf(make, 0, existing + n)[existing..] <==> existing % p == 0
  {
    var a, b := RunOf(make, existing, n), RunOf(make, 0, existing + n)[existing..];
    TurnsAgreeIff(p, existing, n);
    forall i | 0 <= i < n ensures a[i] == b[i] <==> SameTurn(p, existing, i) {
      assert a[i] == make(existing + i, i) && b[i] == make(existing + i, existing + i);
    }
    if a == b {
      forall i | 0 <= i < n ensures SameTurn(p, existing, i) {
        assert a[i] == b[i];
      }
    }
  }

  lemma OneMoreInPlace<T(!new)>(rows: seq<T>, row: T, make: Maker<T>)
    requires InPlace(rows, make) && RowFor(row, make, |rows|)
    ensures InPlace(rows + [row], make)
  {
    hide RowFor;
  }

  lemma {:induction false} MoreInPlace<T(!new)>(before: seq<T>, make: Maker<T>, n: nat)
    requires InPlace(before, make)
    ensures InPlace(before + RunOf(make, |before|, n), make)
  {
    hide InPlace, RunOf;
    if n == 0 {
      RunStarts(make, |before|);
      assert before + [] == before;
    } else {
      var k, e: nat := n - 1, |before| + n - 1;
      MoreInPlace(before, make, k);
      RunStep(make, |before|, k);
      var rows, row := before + RunOf(make, |before|, k), make(e, k);
      OneMoreInPlace(rows, row, make);
      assert rows + [row] == before + (RunOf(make, |before|, k) + [row]);
    }
  }

  lemma MoreRows<T(!new)>(before: seq<T>, make: Maker<T>, p: nat, n: nat)
    requires p > 0 && TurnsEvery(make, p)
    ensures before + RunOf(make, |before|, n) == RunOf(make, 0, |before| + n)
       <==> before == RunOf(make, 0, |before|) && (n == 0 || |before| % p == 0)
  {
    hide TurnsEvery;
    var e, more := |before|, RunOf(make, |before|, n);
    var whole := RunOf(make, 0, e + n);
    assert whole[..e] == RunOf(make, 0, e);
    Halves(before, more, whole);
    if n > 0 {
      ResumedRowsIff(make, p, e, n);
    }
  }

  lemma Halves<T>(a: seq<T>, b: seq<T>, whole: seq<T>)
    requires |whole| == |a| + |b|
    ensures a + b == whole <==> a == whole[..|a|] && b == whole[|a|..]
  {
    assert whole == whole[..|a|] + whole[|a|..];
    if a + b == whole {
      assert a == (a + b)[..|a|] && b == (a + b)[|a|..];
    }
  }

  lemma OneMoreRun<T(!new)>(before: seq<T>, make: Maker<T>, p: nat, target: nat, chunkSize: int, runs: seq<nat>,
                            run: nat)
    requires p > 0 && TurnsEvery(make, p) && After(before, make, p, target, chunkSize, runs)
    ensures After(before + RunOf(make, |before|, RowsAdded(Some(run), chunkSize, Missing(target, |before|))),
                  make, p, target, chunkSize, runs + [run])
  {
    hide TurnsEvery, InPlace, RunOf, RowsAdded, PassedInTurn;
    var n := RowsAdded(Some(run), chunkSize, Missing(target, |before|));
    assert (runs + [run])[..|runs|] == runs;
    assert |before| <= target && RowsAfter(target, chunkSize, runs + [run]) == |before| + n;
    MoreInPlace(before, make, n);
    MoreRows(before, make, p, n);
    RunsPassed(p, target, chunkSize, runs, run, |before| + n);
  }

  lemma LastRun<T(!new)>(before: seq<T>, make: Maker<T>, p: nat, target: nat, chunkSize: int, runs: seq<nat>)
    requires p > 0 && TurnsEvery(make, p) && After(before, make, p, target, chunkSize, runs)
    ensures var n := RowsAdded(None, chunkSize, Missing(target, |before|));
            var rows := before + RunOf(make, |before|, n);
            && n == target - RowsAfter(target, chunkSize, runs) && |rows| == target && InPlace(rows, make)
            && (rows == RunOf(make, 0, target)
                <==> forall j :: 0 <= j <= |runs| ==> InTurn(p, target, chunkSize, runs[..j]))
  {
    hide TurnsEvery, InPlace, RunOf, RowsAfter;
    var n := RowsAdded(None, chunkSize, Missing(target, |before|));
    assert RowsAfter(target, chunkSize, runs) <= target;
    MoreInPlace(before, make, n);
    MoreRows(before, make, p, n);
    StartsPassed(p, target, chunkSize, runs, target);
  }
}
