/**
 What the seeders of large tables have in common: rows committed in chunks, runs that can die at any commit and resume
 from a row count, and values taken in turn from cycles that every run starts anew.
 */
module Resumption {
  import opened Results

  // ----- how far runs get -----

  /** `len(rows) >= chunk_size` is asked after adding a row, so a chunk holds at least one. */
  function Chunk(chunkSize: int): (c: nat)
    ensures c >= 1
  {
    if chunkSize > 1 then chunkSize else 1
  }

  /** The rows in `n` chunks. */
  function ChunkRows(n: nat, c: nat): nat {
    n * c
  }

  lemma ChunkRowsStep(n: nat, c: nat)
    ensures ChunkRows(n + 1, c) == ChunkRows(n, c) + c
    ensures ChunkRows(0, c) == 0
  {}

  lemma {:induction false} ChunkRowsGrow(n: nat, m: nat, c: nat)
    requires n <= m
    ensures ChunkRows(n, c) <= ChunkRows(m, c)
    decreases m - n
  {
    hide ChunkRows;
    if n < m {
      ChunkRowsStep(n, c);
      ChunkRowsGrow(n + 1, m, c);
    }
  }

  /** How many of `missing` rows a run adds that dies after `commits` commits, or does not die. */
  function RowsAdded(commits: Option<nat>, chunkSize: int, missing: nat): (n: nat)
    ensures n <= missing
  {
    if commits.None? || ChunkRows(commits.value, Chunk(chunkSize)) >= missing then missing
    else ChunkRows(commits.value, Chunk(chunkSize))
  }

  /** How many of `wanted` rows there are after runs that die after the given numbers of commits. */
  function RowsAfter(wanted: nat, chunkSize: int, runs: seq<nat>): (n: nat)
    ensures n <= wanted
  {
    if runs == [] then 0 else
    var k := |runs| - 1;
    var before := RowsAfter(wanted, chunkSize, runs[..k]);
    before + RowsAdded(Some(runs[k]), chunkSize, wanted - before)
  }

  lemma {:induction false} RowsAfterGrows(wanted: nat, chunkSize: int, runs: seq<nat>, j: nat)
    requires j <= |runs|
    ensures RowsAfter(wanted, chunkSize, runs[..j]) <= RowsAfter(wanted, chunkSize, runs)
  {
    if j < |runs| {
      var k := |runs| - 1;
      RowsAfterGrows(wanted, chunkSize, runs[..k], j);
      assert runs[..k][..j] == runs[..j];
    } else {
      assert runs[..j] == runs;
    }
  }

  /** Full chunks are committed, less than a chunk is waiting, and no more commits were made than come about. */
  ghost predicate Chunked(sent: nat, waiting: nat, flushed: nat, chunkSize: int, commits: Option<nat>) {
    && sent == ChunkRows(flushed, Chunk(chunkSize)) && waiting < Chunk(chunkSize)
    && (commits.Some? ==> flushed <= commits.value)
  }

  /** A run that made all it was asked for, and has the commits for its last buffer, has added all of it. */
  lemma AllAdded(missing: nat, sent: nat, waiting: nat, flushed: nat, chunkSize: int, commits: Option<nat>)
    requires Chunked(sent, waiting, flushed, chunkSize, commits) && sent + waiting == missing
    ensures waiting == 0 || commits != Some(flushed) ==> RowsAdded(commits, chunkSize, missing) == missing
  {
    hide ChunkRows;
    if commits.Some? {
      ChunkRowsStep(flushed, Chunk(chunkSize));
      ChunkRowsGrow(flushed, commits.value, Chunk(chunkSize));
      if flushed < commits.value {
        ChunkRowsGrow(flushed + 1, commits.value, Chunk(chunkSize));
      }
    }
  }

  /** A run that dies with something in its buffer has added its full chunks and no more. */
  lemma CutShort(missing: nat, sent: nat, waiting: nat, flushed: nat, chunkSize: int)
    requires sent == ChunkRows(flushed, Chunk(chunkSize)) && waiting > 0 && sent + waiting <= missing
    ensures RowsAdded(Some(flushed), chunkSize, missing) == sent < missing
  {}

  // ----- cycles -----

  /** Whether a cycle of length `p` started at row `existing` is, `i` rows on, where one started at row 0 is. */
  predicate SameTurn(p: nat, existing: nat, i: nat)
    requires p > 0
  {
    i % p == (existing + i) % p
  }

  /** A cycle started at a row is in step with one started at row 0 exactly when the row is a multiple of its length. */
  lemma TurnsAgreeIff(p: nat, existing: nat, n: nat)
    requires p > 0 && n > 0
    ensures (forall i :: 0 <= i < n ==> SameTurn(p, existing, i)) <==> existing % p == 0
  {
    if existing % p == 0 {
      forall i | 0 <= i < n ensures SameTurn(p, existing, i) {
        ModOfSum(existing / p, p, i);
        assert existing == (existing / p) * p;
      }
    } else {
      SmallMod(p);
      assert !SameTurn(p, existing, 0);
    }
  }

  lemma SmallMod(p: nat)
    requires p > 0
    ensures 0 % p == 0
  {}

  lemma {:induction false} ModOfSum(q: nat, p: nat, i: nat)
    requires p > 0
    ensures (q * p + i) % p == i % p
  {
    var a, b := i / p, i % p;
    assert i == a * p + b;
    assert q * p + i == (q + a) * p + b by {
      assert (q + a) * p == q * p + a * p;
    }
    QuotientUnique(q * p + i, p, q + a, b);
  }

  lemma QuotientUnique(n: nat, m: nat, q: nat, r: nat)
    requires m > 0 && n == q * m + r && r < m
    ensures n / m == q && n % m == r
  {
    var a, b := n / m, n % m;
    assert n == a * m + b;
    assert (a - q) * m == r - b;
    assert (q - a) * m == b - r;
    if a > q {
      MulMono(1, a - q, m);
      assert false;
    } else if a < q {
      MulMono(1, q - a, m);
      assert false;
    }
  }

  lemma MulMono(a: int, b: int, m: nat)
    requires a <= b
    ensures a * m <= b * m
  {}

  // ----- runs one after the other -----

  /** Whether a run that follows `runs` either finds nothing missing or resumes at a multiple of `p`. */
  predicate InTurn(p: nat, wanted: nat, chunkSize: int, runs: seq<nat>)
    requires p > 0
  {
    RowsAfter(wanted, chunkSize, runs) < wanted ==> RowsAfter(wanted, chunkSize, runs) % p == 0
  }

  /** Whether every run among `runs` whose start has been passed resumed at a multiple of `p`. */
  ghost predicate PassedInTurn(p: nat, wanted: nat, chunkSize: int, runs: seq<nat>, rows: nat)
    requires p > 0
  {
    forall j :: 0 <= j <= |runs| && RowsAfter(wanted, chunkSize, runs[..j]) < rows ==>
      RowsAfter(wanted, chunkSize, runs[..j]) % p == 0
  }

  /** A run's start is passed when the run adds something; earlier starts had been passed by then, or are its own. */
  lemma RunsPassed(p: nat, w: nat, chunkSize: int, runs: seq<nat>, run: nat, rows: nat)
    requires p > 0 && rows == RowsAfter(w, chunkSize, runs + [run])
    ensures PassedInTurn(p, w, chunkSize, runs + [run], rows)
       <==> var before := RowsAfter(w, chunkSize, runs);
            PassedInTurn(p, w, chunkSize, runs, before) && (before == rows || before % p == 0)
  {
    var more := runs + [run];
    assert more[..|more|] == more && more[..|runs|] == runs;
    assert forall j :: 0 <= j <= |runs| ==> more[..j] == runs[..j];
    RowsAfterGrows(w, chunkSize, more, |runs|);
    StartsPassed(p, w, chunkSize, runs, rows);
  }

  lemma StartsPassed(p: nat, w: nat, chunkSize: int, runs: seq<nat>, rows: nat)
    requires p > 0 && rows >= RowsAfter(w, chunkSize, runs)
    ensures PassedInTurn(p, w, chunkSize, runs, rows)
       <==> var before := RowsAfter(w, chunkSize, runs);
            PassedInTurn(p, w, chunkSize, runs, before) && (before == rows || before % p == 0)
  {
    hide RowsAfter;
    forall j | 0 <= j <= |runs| ensures RowsAfter(w, chunkSize, runs[..j]) <= RowsAfter(w, chunkSize, runs) {
      RowsAfterGrows(w, chunkSize, runs, j);
    }
    assert runs[..|runs|] == runs;
  }

  /** With chunks of a multiple of a cycle's length, interruptions leave no trace: every run resumes in turn. */
  lemma {:induction false} ChunksInTurn(p: nat, wanted: nat, chunkSize: int, runs: seq<nat>)
    requires p > 0 && chunkSize > 0 && chunkSize % p == 0
    ensures InTurn(p, wanted, chunkSize, runs)
  {
    if runs == [] {
      SmallMod(p);
    } else {
      var k := |runs| - 1;
      ChunksInTurn(p, wanted, chunkSize, runs[..k]);
      var before, q := RowsAfter(wanted, chunkSize, runs[..k]), chunkSize / p;
      if RowsAfter(wanted, chunkSize, runs) < wanted {
        assert chunkSize == q * p;
        assert ChunkRows(runs[k], chunkSize) == (runs[k] * q) * p;
        ModOfSum(runs[k] * q, p, before);
      }
    }
  }

  /**
   The default chunk of 5000 is a multiple of 4, the cycle of the snapshots, but not of 28 or 56, those of the
   incidents and audit events: a default run of either that dies after one commit is resumed out of turn.
   */
  lemma DefaultChunks(wanted: nat, runs: seq<nat>)
    ensures InTurn(4, wanted, 5000, runs)
    ensures wanted > 5000 ==> !InTurn(28, wanted, 5000, [1]) && !InTurn(56, wanted, 5000, [1])
  {
    ChunksInTurn(4, wanted, 5000, runs);
    var none: seq<nat> := [];
    assert [1][..0] == none && RowsAfter(wanted, 5000, none) == 0;
    assert ChunkRows(1, 5000) == 5000;
  }
}
