/**
 `_seed_row_count_snapshots`: a seeder that commits chunk by chunk and resumes from a row count. A run can be
 cut off at any of its commits; what it had not committed is lost.
 */
module SnapshotSeeder {
  import opened Results
  import opened Counting
  import opened Resumption

  datatype Source = CatalogProfile | Manual | PostgresCount | SqlCount

  const SOURCES: seq<Source> := [CatalogProfile, Manual, PostgresCount, SqlCount]

  datatype CountMethod = Count | Profile

  datatype Confidence = High | Medium

  /**
   A snapshot row: the table and snapshot it is for, and the values made up for it; its age is from the run's start.
   */
  datatype Snapshot = Snapshot(tableId: int, index: int, source: Source, countedBy: CountMethod, confidence: Confidence,
                               rowCount: int, ageHours: int)

  /** What the seeder wants for a table and a snapshot number, whichever run makes it. */
  datatype Wanted = Wanted(tableId: int, index: int, rowCount: int, ageHours: int)

  predicate Counted(source: Source) {
    source == PostgresCount || source == SqlCount
  }

  /** The `k`-th row (from 0) a run makes, the sources taken in turn; every run starts over with the first. */
  function RowOf(w: Wanted, k: nat): Snapshot {
    var source := SOURCES[k % 4];
    Snapshot(w.tableId, w.index, source, if Counted(source) then Count else Profile,
             if Counted(source) then High else Medium, w.rowCount, w.ageHours)
  }

  /** What a single run makes of a list of wanted rows. */
  function RunRows(ws: seq<Wanted>): (rows: seq<Snapshot>)
    ensures |rows| == |ws| && forall i :: 0 <= i < |ws| ==> rows[i] == RowOf(ws[i], i)
  {
    seq(|ws|, i requires 0 <= i < |ws| => RowOf(ws[i], i))
  }

  function WantedOf(s: Snapshot): Wanted {
    Wanted(s.tableId, s.index, s.rowCount, s.ageHours)
  }

  function AllWanted(rows: seq<Snapshot>): (ws: seq<Wanted>)
    ensures |ws| == |rows| && forall i :: 0 <= i < |ws| ==> ws[i] == WantedOf(rows[i])
  {
    seq(|rows|, i requires 0 <= i < |rows| => WantedOf(rows[i]))
  }

  /** Snapshot `n` (from 0) of table number `t` (from 0); the source counts both from 1. */
  function Slot(tableId: int, t: nat, n: nat): Wanted {
    Wanted(tableId, n + 1, (t + 1) * 1000 + (n + 1) * 17, (t + 1) % 720 + (n + 1))
  }

  /** The first `n` snapshots of a table. */
  function TableSlots(tableId: int, t: nat, n: nat): (ws: seq<Wanted>)
    ensures |ws| == n && forall i :: 0 <= i < n ==> ws[i] == Slot(tableId, t, i)
  {
    seq(n, i requires 0 <= i < n => Slot(tableId, t, i))
  }

  /** Everything wanted, table by table. */
  function Product(tables: seq<int>, perTable: nat): seq<Wanted> {
    if tables == [] then [] else
    var k := |tables| - 1;
    Product(tables[..k], perTable) + TableSlots(tables[k], k, perTable)
  }

  lemma {:induction false} ProductPrefix(tables: seq<int>, perTable: nat, k: nat)
    requires k <= |tables|
    ensures Product(tables[..k], perTable) <= Product(tables, perTable)
  {
    if k < |tables| {
      ProductPrefix(tables[..|tables| - 1], perTable, k);
      assert tables[..|tables| - 1][..k] == tables[..k];
    } else {
      assert tables[..k] == tables;
    }
  }

  /** What is passed over or made after `done` whole tables and `n` snapshots of the next one. */
  function Passed(tables: seq<int>, perTable: nat, done: nat, n: nat): seq<Wanted>
    requires done < |tables| && n <= perTable
  {
    Product(tables[..done], perTable) + TableSlots(tables[done], done, n)
  }

  lemma PassedStep(tables: seq<int>, perTable: nat, done: nat, n: nat)
    requires done < |tables| && n < perTable
    ensures Passed(tables, perTable, done, n + 1) == Passed(tables, perTable, done, n) + [Slot(tables[done], done, n)]
    ensures Passed(tables, perTable, done, n + 1) <= Product(tables, perTable)
  {
    ProductPrefix(tables, perTable, done + 1);
    assert tables[..done + 1][..done] == tables[..done];
    assert TableSlots(tables[done], done, n + 1) == TableSlots(tables[done], done, n) + [Slot(tables[done], done, n)];
    assert TableSlots(tables[done], done, n + 1) <= TableSlots(tables[done], done, perTable);
  }

  lemma TableDone(tables: seq<int>, perTable: nat, done: nat)
    requires done < |tables|
    ensures Passed(tables, perTable, done, perTable) == Product(tables[..done + 1], perTable)
    ensures Passed(tables, perTable, done, 0) == Product(tables[..done], perTable)
  {
    assert tables[..done + 1][..done] == tables[..done];
  }

  lemma {:induction false} ProductSize(tables: seq<int>, perTable: nat)
    ensures |Product(tables, perTable)| == |tables| * perTable
  {
    if tables != [] {
      var k := |tables| - 1;
      ProductSize(tables[..k], perTable);
      assert |tables| * perTable == k * perTable + perTable;
    }
  }

  lemma {:induction false} ProductTables(tables: seq<int>, perTable: nat, i: nat)
    requires i < |Product(tables, perTable)|
    ensures Product(tables, perTable)[i].tableId in tables
  {
    var k := |tables| - 1;
    if i < |Product(tables[..k], perTable)| {
      ProductTables(tables[..k], perTable, i);
    }
  }

  /** No table and snapshot number occur together twice. */
  ghost predicate PairsDiffer(ws: seq<Wanted>) {
    forall i, j :: 0 <= i < j < |ws| ==> ws[i].tableId != ws[j].tableId || ws[i].index != ws[j].index
  }

  /** With distinct tables nothing is wanted twice. */
  lemma {:induction false} ProductDiffers(tables: seq<int>, perTable: nat)
    requires NoDup(tables)
    ensures PairsDiffer(Product(tables, perTable))
  {
    if tables != [] {
      var k := |tables| - 1;
      var front := Product(tables[..k], perTable);
      ProductDiffers(tables[..k], perTable);
      forall i | 0 <= i < |front| ensures front[i].tableId != tables[k] {
        ProductTables(tables[..k], perTable, i);
      }
    }
  }

  // ----- one run -----

  /** The local variables of a run: the buffer, the rows still to skip, the rows made, the commits. */
  datatype Progress = Progress(rows: seq<Snapshot>, skip: nat, total: nat, flushed: nat)

  /** After a commit the buffer is empty. */
  function Flushed(p: Progress): Progress {
    Progress([], p.skip, p.total, p.flushed + 1)
  }

  /** Where a run stands after passing `passed`: it has skipped up to `existing` and made what lies beyond. */
  ghost predicate Resumed(passed: seq<Wanted>, existing: nat, mine: seq<Snapshot>, skip: nat, total: nat) {
    && total == |mine|
    && (|passed| <= existing ==> skip == existing - |passed| && mine == [])
    && (|passed| >= existing ==> skip == 0 && mine == RunRows(passed[existing..]))
  }

  /** What a run that dies leaves: full chunks of what it was asked for, as many as commits came about. */
  ghost predicate Died(added: seq<Snapshot>, asked: seq<Wanted>, chunkSize: int, commits: Option<nat>) {
    && added <= RunRows(asked)
    && commits.Some? && |added| == ChunkRows(commits.value, Chunk(chunkSize)) < |asked|
  }

  lemma Skipped(passed: seq<Wanted>, w: Wanted, existing: nat, mine: seq<Snapshot>, skip: nat, total: nat)
    requires Resumed(passed, existing, mine, skip, total) && skip > 0
    ensures Resumed(passed + [w], existing, mine, skip - 1, total)
  {
    if |passed| + 1 == existing {
      assert (passed + [w])[existing..] == [];
    }
  }

  lemma NothingYet(tables: seq<int>, perTable: nat, existing: nat)
    ensures Resumed(Product(tables[..0], perTable), existing, [], existing, 0)
    ensures Product(tables[..0], perTable) <= Product(tables, perTable)
  {
    assert Product(tables[..0], perTable) == [];
  }

  lemma Extended(passed: seq<Wanted>, w: Wanted, existing: nat, mine: seq<Snapshot>, total: nat)
    requires Resumed(passed, existing, mine, 0, total)
    ensures Resumed(passed + [w], existing, mine + [RowOf(w, total)], 0, total + 1)
  {
    hide RowOf;
    assert |passed| >= existing;
    assert (passed + [w])[existing..] == passed[existing..] + [w];
    assert RunRows(passed[existing..] + [w]) == RunRows(passed[existing..]) + [RowOf(w, |passed| - existing)];
  }

  /** A run that cannot commit a buffer leaves what it had committed before. */
  lemma CutOff(passed: seq<Wanted>, wanted: seq<Wanted>, existing: nat, added: seq<Snapshot>, rows: seq<Snapshot>,
               skip: nat, total: nat, flushed: nat, chunkSize: int, commits: Option<nat>)
    requires Resumed(passed, existing, added + rows, skip, total) && passed <= wanted && existing <= |wanted|
    requires |added| == ChunkRows(flushed, Chunk(chunkSize)) && rows != []
    requires commits == Some(flushed)
    ensures Died(added, wanted[existing..], chunkSize, commits)
  {
    hide ChunkRows, RowOf;
    var mine := added + rows;
    assert added == mine[..|added|];
    assert |passed| >= existing;
    PrefixRows(passed[existing..], wanted[existing..]);
    assert passed[existing..] <= wanted[existing..];
    assert |mine| <= |wanted[existing..]|;
  }

  lemma PrefixRows(ws: seq<Wanted>, more: seq<Wanted>)
    ensures ws <= more ==> RunRows(ws) <= RunRows(more)
  {
    hide RowOf;
  }

  /** What a run leaves that found rows of `wanted` missing from position `existing` on. */
  ghost predicate RunLeaves(finished: bool, total: nat, added: seq<Snapshot>, wanted: seq<Wanted>, existing: nat,
                            chunkSize: int, commits: Option<nat>)
    requires existing < |wanted|
  {
    var missing := |wanted| - existing;
    && |added| == RowsAdded(commits, chunkSize, missing)
    && (finished <==> |added| == missing)
    && (finished ==> total == |added|)
    && added == RunRows(wanted[existing..])[..|added|]
    && (added != [] ==> (added == RunRows(wanted)[existing..existing + |added|] <==> existing % 4 == 0))
  }

  lemma DiedLeaves(added: seq<Snapshot>, total: nat, wanted: seq<Wanted>, existing: nat, chunkSize: int,
                   commits: Option<nat>)
    requires existing < |wanted| && Died(added, wanted[existing..], chunkSize, commits)
    ensures RunLeaves(false, total, added, wanted, existing, chunkSize, commits)
  {
    hide ChunkRows, RowOf;
    ResumedRowsIff(wanted, existing, |added|);
  }

  lemma DoneLeaves(added: seq<Snapshot>, total: nat, wanted: seq<Wanted>, existing: nat, chunkSize: int,
                   commits: Option<nat>)
    requires existing < |wanted| && added == RunRows(wanted[existing..]) && total == |wanted| - existing
    requires RowsAdded(commits, chunkSize, |wanted| - existing) == |wanted| - existing
    ensures RunLeaves(true, total, added, wanted, existing, chunkSize, commits)
  {
    hide ChunkRows, RowOf, RowsAdded;
    AsManyRows(wanted[existing..]);
    ResumedRowsIff(wanted, existing, |added|);
  }

  class SnapshotTable {
    var committed: seq<Snapshot>

    constructor ()
      ensures committed == []
    {
      committed := [];
    }

    /** `session.execute(insert(...), rows); session.commit()` */
    method Commit(rows: seq<Snapshot>)
      modifies this
      ensures committed == old(committed) + rows
    {
      committed := committed + rows;
    }

    /** The inner loop, over the snapshots of table number `t`; not alive when a commit did not come about. */
    method SeedTable(tables: seq<int>, perTable: nat, t: nat, chunkSize: int, commits: Option<nat>, p: Progress,
                     ghost existing: nat, ghost before: seq<Snapshot>, ghost sent: seq<Snapshot>)
      returns (alive: bool, q: Progress, ghost added: seq<Snapshot>)
      requires t < |tables| && committed == before + sent
      requires Resumed(Product(tables[..t], perTable), existing, sent + p.rows, p.skip, p.total)
      requires Chunked(|sent|, |p.rows|, p.flushed, chunkSize, commits)
      requires existing < |Product(tables, perTable)|
      modifies this
      ensures committed == before + added
      ensures alive ==> Resumed(Product(tables[..t + 1], perTable), existing, added + q.rows, q.skip, q.total)
      ensures alive ==> Chunked(|added|, |q.rows|, q.flushed, chunkSize, commits)
      ensures !alive ==> Died(added, Product(tables, perTable)[existing..], chunkSize, commits)
    {
      hide Resumed, Passed, Product, RowOf, ChunkRows, Died;
      q := p;
      added := sent;
      alive := true;
      TableDone(tables, perTable, t);
      var n := 0;
      while n < perTable && alive
        invariant 0 <= n <= perTable
        invariant committed == before + added
        invariant alive ==> Resumed(Passed(tables, perTable, t, n), existing, added + q.rows, q.skip, q.total)
        invariant alive ==> Chunked(|added|, |q.rows|, q.flushed, chunkSize, commits)
        invariant !alive ==> Died(added, Product(tables, perTable)[existing..], chunkSize, commits)
      {
        PassedStep(tables, perTable, t, n);
        if q.skip > 0 {
          Skipped(Passed(tables, perTable, t, n), Slot(tables[t], t, n), existing, added + q.rows, q.skip, q.total);
          q := q.(skip := q.skip - 1);
        } else {
          Extended(Passed(tables, perTable, t, n), Slot(tables[t], t, n), existing, added + q.rows, q.total);
          var row := RowOf(Slot(tables[t], t, n), q.total);
          assert added + (q.rows + [row]) == (added + q.rows) + [row];
          q := q.(rows := q.rows + [row], total := q.total + 1);
          if |q.rows| >= chunkSize {
            if commits == Some(q.flushed) {
              CutOff(Passed(tables, perTable, t, n + 1), Product(tables, perTable), existing, added, q.rows, q.skip,
                     q.total, q.flushed, chunkSize, commits);
              alive := false;
            } else {
              Commit(q.rows);
              ChunkRowsStep(q.flushed, Chunk(chunkSize));
              added := added + q.rows;
              assert added + [] == added;
              q := Flushed(q);
            }
          }
        }
        n := n + 1;
      }
      if alive {
        TableDone(tables, perTable, t);
      }
    }

    /**
     One run. `commits` is how many commits come about before the process dies, None when it does not die.
     Whatever was there before, the run adds rows for the wanted ones from position `existing` on, in order and
     without gap: full chunks up to its death, or all of them, and then it returns how many. What it adds is what
     an uninterrupted run puts at the same positions if and only if it resumed at a multiple of four.
     */
    method Seed(tables: seq<int>, snapshotsPerTable: int, chunkSize: int, commits: Option<nat>)
      returns (finished: bool, total: nat, ghost added: seq<Snapshot>)
      modifies this
      ensures committed == old(committed) + added
      ensures var wanted := Product(tables, if snapshotsPerTable > 0 then snapshotsPerTable else 0);
              var existing := |old(committed)|;
              && (existing >= |wanted| ==> finished && added == [] && total == 0)
              && (existing < |wanted| ==> RunLeaves(finished, total, added, wanted, existing, chunkSize, commits))
    {
      hide Resumed, Passed, Product, RowOf, ChunkRows, RunLeaves, Died, RowsAdded, RunRows;
      var perTable: nat := if snapshotsPerTable > 0 then snapshotsPerTable else 0;
      var existing: nat := |committed|;
      NothingYet(tables, perTable, existing);
      ProductSize(tables, perTable);
      if existing >= |tables| * perTable {
        return true, 0, [];
      }
      var p := Progress([], existing, 0, 0);
      added := [];
      assert added + p.rows == [];
      ChunkRowsStep(0, Chunk(chunkSize));
      var alive := true;
      var t := 0;
      while t < |tables|
        invariant 0 <= t <= |tables|
        invariant committed == old(committed) + added
        invariant Resumed(Product(tables[..t], perTable), existing, added + p.rows, p.skip, p.total)
        invariant Chunked(|added|, |p.rows|, p.flushed, chunkSize, commits)
      {
        alive, p, added := SeedTable(tables, perTable, t, chunkSize, commits, p, existing, old(committed), added);
        if !alive {
          DiedLeaves(added, p.total, Product(tables, perTable), existing, chunkSize, commits);
          return false, p.total, added;
        }
        t := t + 1;
      }
      assert tables[..t] == tables;
      AllMade(Product(tables, perTable), existing, added, p.rows, p.skip, p.total, p.flushed, chunkSize, commits);
      if p.rows != [] {
        if commits == Some(p.flushed) {
          CutOff(Product(tables, perTable), Product(tables, perTable), existing, added, p.rows, p.skip, p.total,
                 p.flushed, chunkSize, commits);
          DiedLeaves(added, p.total, Product(tables, perTable), existing, chunkSize, commits);
          return false, p.total, added;
        }
        Commit(p.rows);
        added := added + p.rows;
        p := Flushed(p);
      }
      assert added + p.rows == added;
      DoneLeaves(added, p.total, Product(tables, perTable), existing, chunkSize, commits);
      finished, total := true, p.total;
    }

    /**
     Runs cut off one after the other, then one that is not: every wanted row is there exactly once, and the last
     run reports the rows the others had left. The table is the one an uninterrupted run fills if and only if
     every run that found something missing resumed at a multiple of four.
     */
    method SeedUntilDone(tables: seq<int>, snapshotsPerTable: nat, chunkSize: int, interruptions: seq<nat>)
      returns (total: nat)
      requires committed == []
      requires NoDup(tables)
      modifies this
      ensures AllWanted(committed) == Product(tables, snapshotsPerTable)
      ensures PairsDiffer(AllWanted(committed))
      ensures total == |committed| - RowsAfter(|committed|, chunkSize, interruptions)
      ensures committed == RunRows(Product(tables, snapshotsPerTable))
         <==> forall j :: 0 <= j <= |interruptions| ==> InTurn(4, |committed|, chunkSize, interruptions[..j])
    {
      hide RunRows, Product, RowOf, AllWanted, RowsAfter, RowsAdded, NoDup, PairsDiffer, InTurn, RunLeaves;
      ghost var wanted := Product(tables, snapshotsPerTable);
      NothingAfter(wanted, chunkSize, interruptions);
      for i := 0 to |interruptions|
        invariant After(committed, wanted, chunkSize, interruptions[..i])
      {
        ghost var before := committed;
        var done, made, added := Seed(tables, snapshotsPerTable, chunkSize, Some(interruptions[i]));
        assert interruptions[..i + 1] == interruptions[..i] + [interruptions[i]];
        OneMoreRun(done, made, before, added, wanted, chunkSize, interruptions[..i], interruptions[i]);
      }
      assert interruptions[..|interruptions|] == interruptions;
      ghost var before := committed;
      ghost var added;
      var finished;
      finished, total, added := Seed(tables, snapshotsPerTable, chunkSize, None);
      LastRun(finished, total, before, added, wanted, chunkSize, interruptions);
      ProductDiffers(tables, snapshotsPerTable);
    }
  }

  lemma AllMade(wanted: seq<Wanted>, existing: nat, added: seq<Snapshot>, rows: seq<Snapshot>, skip: nat, total: nat,
                flushed: nat, chunkSize: int, commits: Option<nat>)
    requires Resumed(wanted, existing, added + rows, skip, total) && existing < |wanted|
    requires Chunked(|added|, |rows|, flushed, chunkSize, commits)
    ensures added + rows == RunRows(wanted[existing..]) && total == |wanted| - existing
    ensures rows == [] || commits != Some(flushed) ==>
              RowsAdded(commits, chunkSize, |wanted| - existing) == |wanted| - existing
  {
    hide ChunkRows, RunRows, Chunked, RowsAdded;
    AsManyRows(wanted[existing..]);
    AllAdded(|wanted| - existing, |added|, |rows|, flushed, chunkSize, commits);
  }

  lemma AsManyRows(ws: seq<Wanted>)
    ensures |RunRows(ws)| == |ws|
  {}

  /**
   A run that resumes at row `existing` gives its rows other sources, and with them other methods and confidences,
   than an uninterrupted run gives the same rows, exactly when it did not resume at a multiple of four.
   */
  lemma ResumedRowsIff(wanted: seq<Wanted>, existing: nat, n: nat)
    requires existing + n <= |wanted|
    ensures n > 0 ==>
              (RunRows(wanted[existing..])[..n] == RunRows(wanted)[existing..existing + n] <==> existing % 4 == 0)
  {
    if n > 0 {
      var a, b := RunRows(wanted[existing..])[..n], RunRows(wanted)[existing..existing + n];
      assert a[0] == RowOf(wanted[existing], 0) && b[0] == RowOf(wanted[existing], existing);
      TurnsAgreeIff(4, existing, n);
      if existing % 4 == 0 {
        forall i | 0 <= i < n ensures a[i] == b[i] {
          assert SameTurn(4, existing, i);
        }
      }
    }
  }

  // ----- runs one after the other -----

  /** The table after runs that died: a prefix of what is wanted, and the one an uninterrupted run fills or not. */
  ghost predicate After(committed: seq<Snapshot>, wanted: seq<Wanted>, chunkSize: int, runs: seq<nat>) {
    && |committed| == RowsAfter(|wanted|, chunkSize, runs)
    && AllWanted(committed) == wanted[..|committed|]
    && (committed == RunRows(wanted)[..|committed|] <==> PassedInTurn(4, |wanted|, chunkSize, runs, |committed|))
  }

  lemma NothingAfter(wanted: seq<Wanted>, chunkSize: int, runs: seq<nat>)
    ensures After([], wanted, chunkSize, runs[..0])
  {
    assert AllWanted([]) == [];
  }

  lemma LeavesMeans(finished: bool, total: nat, before: seq<Snapshot>, added: seq<Snapshot>, wanted: seq<Wanted>,
                    chunkSize: int, commits: Option<nat>)
    requires |before| < |wanted| && RunLeaves(finished, total, added, wanted, |before|, chunkSize, commits)
    requires AllWanted(before) == wanted[..|before|]
    ensures AllWanted(before + added) == wanted[..|before + added|]
    ensures before + added == RunRows(wanted)[..|before + added|]
       <==> before == RunRows(wanted)[..|before|] && (added == [] || |before| % 4 == 0)
  {
    hide RowsAdded;
    var all, rows := before + added, RunRows(wanted);
    forall i | 0 <= i < |all| ensures WantedOf(all[i]) == wanted[i] {
      if i < |before| {
        assert AllWanted(before)[i] == wanted[i];
      } else {
        assert all[i] == RunRows(wanted[|before|..])[i - |before|];
      }
    }
    hide AllWanted, RowOf, RunRows;
    assert rows[..|all|] == rows[..|before|] + rows[|before|..|all|];
    if all == rows[..|all|] {
      assert before == all[..|before|] && added == all[|before|..];
    }
  }

  lemma LeavesCount(finished: bool, total: nat, added: seq<Snapshot>, wanted: seq<Wanted>, existing: nat,
                    chunkSize: int, commits: Option<nat>)
    requires existing < |wanted| && RunLeaves(finished, total, added, wanted, existing, chunkSize, commits)
    ensures |added| == RowsAdded(commits, chunkSize, |wanted| - existing) <= |wanted| - existing
    ensures commits.None? ==> |added| == |wanted| - existing == total
  {}

  lemma OneMoreRun(finished: bool, total: nat, before: seq<Snapshot>, added: seq<Snapshot>, wanted: seq<Wanted>,
                   chunkSize: int, runs: seq<nat>, run: nat)
    requires After(before, wanted, chunkSize, runs)
    requires |before| >= |wanted| ==> added == []
    requires |before| < |wanted| ==> RunLeaves(finished, total, added, wanted, |before|, chunkSize, Some(run))
    ensures After(before + added, wanted, chunkSize, runs + [run])
  {
    hide AllWanted, RunRows, RowsAdded, PassedInTurn, RunLeaves;
    var all, w := before + added, |wanted|;
    assert (runs + [run])[..|runs|] == runs;
    if |before| < w {
      LeavesCount(finished, total, added, wanted, |before|, chunkSize, Some(run));
      LeavesMeans(finished, total, before, added, wanted, chunkSize, Some(run));
    } else {
      assert all == before;
    }
    RunsPassed(4, w, chunkSize, runs, run, |all|);
  }

  lemma LastRun(finished: bool, total: nat, before: seq<Snapshot>, added: seq<Snapshot>, wanted: seq<Wanted>,
                chunkSize: int, runs: seq<nat>)
    requires After(before, wanted, chunkSize, runs)
    requires |before| >= |wanted| ==> added == [] && total == 0
    requires |before| < |wanted| ==> RunLeaves(finished, total, added, wanted, |before|, chunkSize, None)
    ensures AllWanted(before + added) == wanted
    ensures total == |before + added| - RowsAfter(|wanted|, chunkSize, runs)
    ensures before + added == RunRows(wanted)
       <==> forall j :: 0 <= j <= |runs| ==> InTurn(4, |wanted|, chunkSize, runs[..j])
  {
    hide AllWanted, RunRows, RunLeaves, RowsAfter;
    var w := |wanted|;
    AsManyRows(wanted);
    if |before| < w {
      LeavesCount(finished, total, added, wanted, |before|, chunkSize, None);
      LeavesMeans(finished, total, before, added, wanted, chunkSize, None);
    } else {
      assert before + added == before;
    }
    assert wanted[..w] == wanted && RunRows(wanted)[..w] == RunRows(wanted);
    StartsPassed(4, w, chunkSize, runs, w);
  }
}
