/** The access-log migration: http_request rows move from the audit log to a new table, and its sequence follows. */
module LogMigration {
  import opened Results
  import opened PyStrings
  import opened Counting
  import opened PkSequences

  /** An audit row: the columns the migration looks at, the text under `duration_ms`, and the rest, which it copies. */
  datatype AuditRow = AuditRow(id: int, action: Option<string>, route: Option<string>, durationMs: Option<string>,
                               rest: int)

  datatype AccessRow = AccessRow(id: int, route: string, apiVersion: string, moduleName: string, durationMs: int,
                                 rest: int)

  /** `WHERE action = 'http_request'`; a NULL action is not selected. */
  predicate IsRequest(r: AuditRow) {
    r.action == Some("http_request")
  }

  /** `split_part(s, '/', 1)` */
  function FirstPart(s: string): string {
    if s == "" || s[0] == '/' then "" else [s[0]] + FirstPart(s[1..])
  }

  function ApiVersion(route: string): string {
    if StartsWith(route, "/api/v1/") || route == "/api/v1" then "v1" else "legacy"
  }

  function ModuleName(route: string): string {
    if StartsWith(route, "/api/v1/") then FirstPart(route[8..])
    else if StartsWith(route, "/api/") then FirstPart(route[5..])
    else "api"
  }

  /** What the database makes of the values moved. */
  datatype Server = Server(
    numeric: string -> Option<real>,  // the cast of a text to numeric, None where it raises or is not finite
    indexable: string -> bool         // whether a text is short enough for an index entry
  )

  /** The cast of a numeric to an integer, half away from zero. */
  function Rounded(d: real): int {
    if d >= 0.0 then (d + 0.5).Floor else -((0.5 - d).Floor)
  }

  /** The range of a 32-bit integer column. */
  predicate FitsInteger(n: int) {
    -0x8000_0000 <= n <= 0x7FFF_FFFF
  }

  /** `CAST(COALESCE(text::numeric, 0) AS integer)`, None where it raises. */
  function Duration(text: Option<string>, server: Server): Option<int> {
    match text
    case None => Some(0)
    case Some(s) =>
      match server.numeric(s)
      case None => None
      case Some(d) => if FitsInteger(Rounded(d)) then Some(Rounded(d)) else None
  }

  /**
   Whether the new table takes a request: it wants a route that its indexes take, an integer duration, and an
   integer key, where the audit log has keys of 64 bits.
   */
  predicate Movable(r: AuditRow, server: Server) {
    && r.route.Some? && server.indexable(r.route.value) && server.indexable(ModuleName(r.route.value))
    && Duration(r.durationMs, server).Some? && FitsInteger(r.id)
  }

  function ToAccess(r: AuditRow, server: Server): AccessRow
    requires Movable(r, server)
  {
    var route := r.route.value;
    AccessRow(r.id, route, ApiVersion(route), ModuleName(route), Duration(r.durationMs, server).value, r.rest)
  }

  predicate AllMovable(rows: seq<AuditRow>, server: Server) {
    forall r :: r in rows ==> Movable(r, server)
  }

  function Converted(rows: seq<AuditRow>, server: Server): (cs: seq<AccessRow>)
    requires AllMovable(rows, server)
    ensures |cs| == |rows| && forall i :: 0 <= i < |cs| ==> cs[i] == ToAccess(rows[i], server)
  {
    seq(|rows|, i requires 0 <= i < |rows| => ToAccess(rows[i], server))
  }

  function AuditIds(rows: seq<AuditRow>): (ids: seq<int>)
    ensures |ids| == |rows| && forall i :: 0 <= i < |ids| ==> ids[i] == rows[i].id
  {
    seq(|rows|, i requires 0 <= i < |rows| => rows[i].id)
  }

  function AccessIds(rows: seq<AccessRow>): (ids: seq<int>)
    ensures |ids| == |rows| && forall i :: 0 <= i < |ids| ==> ids[i] == rows[i].id
  {
    seq(|rows|, i requires 0 <= i < |rows| => rows[i].id)
  }

  function Requests(rows: seq<AuditRow>): seq<AuditRow> {
    Filter(rows, r => IsRequest(r))
  }

  function Others(rows: seq<AuditRow>): seq<AuditRow> {
    Filter(rows, r => !IsRequest(r))
  }

  lemma IdsAppend(a: seq<AuditRow>, r: AuditRow)
    ensures AuditIds(a + [r]) == AuditIds(a) + [r.id]
  {}

  lemma SplitStep(rows: seq<AuditRow>, r: AuditRow)
    ensures Requests(rows + [r]) == if IsRequest(r) then Requests(rows) + [r] else Requests(rows)
    ensures Others(rows + [r]) == if IsRequest(r) then Others(rows) else Others(rows) + [r]
  {
    hide IsRequest;
    assert (rows + [r])[..|rows|] == rows;
  }

  /** Selecting and deleting by the same condition splits the rows: nothing is lost and nothing is doubled. */
  lemma {:induction false} SplitConserves(rows: seq<AuditRow>)
    ensures |Requests(rows)| + |Others(rows)| == |rows|
    ensures multiset(AuditIds(Requests(rows))) + multiset(AuditIds(Others(rows))) == multiset(AuditIds(rows))
  {
    hide IsRequest, Requests, Others, AuditIds;
    if rows == [] {
      NothingToSplit();
    } else {
      var k := |rows| - 1;
      SplitConserves(rows[..k]);
      assert rows == rows[..k] + [rows[k]];
      SplitStep(rows[..k], rows[k]);
      IdsAppend(rows[..k], rows[k]);
      IdsAppend(Requests(rows[..k]), rows[k]);
      IdsAppend(Others(rows[..k]), rows[k]);
    }
  }

  lemma NothingToSplit()
    ensures Requests([]) == [] && Others([]) == [] && AuditIds([]) == []
  {}

  lemma ConvertedIds(rows: seq<AuditRow>, server: Server)
    requires AllMovable(rows, server)
    ensures AccessIds(Converted(rows, server)) == AuditIds(rows)
    ensures forall a :: a in Converted(rows, server) ==> a.id in AuditIds(rows)
  {
    hide ApiVersion, ModuleName, Rounded, Duration;
    forall a | a in Converted(rows, server) ensures a.id in AuditIds(rows) {
      var i :| 0 <= i < |rows| && Converted(rows, server)[i] == a;
      assert AuditIds(rows)[i] == a.id;
    }
  }

  /**
   Requests that stop the migration: no route or too long a one, a bad or too large duration, a key beyond 32 bits.
   */
  lemma StoppingRequests(server: Server, rest: int)
    requires server.numeric("n/a") == None && server.numeric("3000000000") == Some(3000000000.0)
    requires server.indexable("/api/v1/x") && server.indexable("x")
    ensures !Movable(AuditRow(1, Some("http_request"), None, None, rest), server)
    ensures !Movable(AuditRow(1, Some("http_request"), Some("/api/v1/x"), Some("n/a"), rest), server)
    ensures !Movable(AuditRow(1, Some("http_request"), Some("/api/v1/x"), Some("3000000000"), rest), server)
    ensures forall route :: !server.indexable(route) ==>
              !Movable(AuditRow(1, Some("http_request"), Some(route), None, rest), server)
    ensures !Movable(AuditRow(0x8000_0000, Some("http_request"), Some("/api/v1/x"), None, rest), server)
    ensures Movable(AuditRow(1, Some("http_request"), Some("/api/v1/x"), None, rest), server)
  {
    assert Rounded(3000000000.0) == 3000000000 by {
      assert (3000000000.0 + 0.5).Floor == 3000000000;
    }
    assert ModuleName("/api/v1/x") == FirstPart("x") == "x" by {
      assert StartsWith("/api/v1/x", "/api/v1/") && "/api/v1/x"[8..] == "x";
      assert FirstPart("") == "";
    }
  }

  /** The largest id moved is within the bounds of the new table's sequence. */
  lemma MovedFit(rows: seq<AuditRow>, server: Server)
    requires AllMovable(rows, server)
    ensures FRESH_SERIAL.Accepts(Target(AuditIds(rows)))
  {
    hide Duration;
    MaxBounds(AuditIds(rows));
    if rows != [] {
      var i :| 0 <= i < |rows| && AuditIds(rows)[i] == MaxOrZero(AuditIds(rows));
      assert Movable(rows[i], server);
    }
  }

  class LogDatabase {
    var audit: seq<AuditRow>
    var access: seq<AccessRow>
    var accessSequence: SeqState

    constructor (audit: seq<AuditRow>)
      ensures this.audit == audit && access == [] && accessSequence == FRESH_SERIAL
    {
      this.audit, access, accessSequence := audit, [], FRESH_SERIAL;
    }

    /**
     The data part of `upgrade`, just after the table is created. A request that the new table does not take
     raises, and the transaction rolls back; otherwise exactly the requests move, each id stays in exactly one of
     the two tables, and the next default id of the new table is above all of them. `late` are the rows that other
     transactions commit between the INSERT and the DELETE, which each see what is committed by then: the requests
     among them are deleted without having been copied, and nothing else is lost.
     */
    method MoveRequests(server: Server, late: seq<AuditRow>) returns (ok: bool)
      requires access == [] && accessSequence == FRESH_SERIAL
      modifies this
      ensures ok <==> forall r :: r in old(audit) && IsRequest(r) ==> Movable(r, server)
      ensures !ok ==> audit == old(audit) && access == [] && accessSequence == FRESH_SERIAL
      ensures ok ==> AllMovable(Requests(old(audit)), server) && access == Converted(Requests(old(audit)), server)
      ensures ok ==> audit == Others(old(audit)) + Others(late)
      ensures ok ==>
                multiset(AccessIds(access)) + multiset(AuditIds(audit)) + multiset(AuditIds(Requests(late)))
                == multiset(AuditIds(old(audit) + late))
      ensures ok ==> |access| + |audit| + |Requests(late)| == |old(audit)| + |late|
      ensures ok ==> PythonAligned(FRESH_SERIAL, AccessIds(access)) == Some(accessSequence)
      ensures ok ==> forall r :: r in access ==> r.id < accessSequence.Next()
    {
      hide PythonAligned, SqlAligned, AuditIds, AccessIds, Movable, Requests, Others;
      var moved := Requests(audit);
      if !AllMovable(moved, server) {
        RequestsAre(audit);
        return false;
      }
      RequestsAre(audit);
      SplitConserves(audit + late);
      SplitAppend(audit, late);
      ConvertedIds(moved, server);
      AlignmentsAgree(FRESH_SERIAL, AuditIds(moved));
      MovedFit(moved, server);
      IdsOfBoth(moved, Requests(late));
      access := Converted(moved, server);
      audit := Others(audit + late);
      accessSequence := SqlAligned(accessSequence, AccessIds(access)).value;
      ok := true;
    }
  }

  lemma RequestsAre(rows: seq<AuditRow>)
    ensures forall r :: r in Requests(rows) <==> r in rows && IsRequest(r)
  {}

  lemma {:induction false} SplitAppend(a: seq<AuditRow>, b: seq<AuditRow>)
    ensures Requests(a + b) == Requests(a) + Requests(b) && Others(a + b) == Others(a) + Others(b)
  {
    hide IsRequest, Requests, Others;
    if b == [] {
      NothingToSplit();
      assert a + b == a;
    } else {
      var k := |b| - 1;
      SplitAppend(a, b[..k]);
      assert a + b == (a + b[..k]) + [b[k]] && b == b[..k] + [b[k]];
      SplitStep(a + b[..k], b[k]);
      SplitStep(b[..k], b[k]);
    }
  }

  lemma IdsOfBoth(a: seq<AuditRow>, b: seq<AuditRow>)
    ensures AuditIds(a + b) == AuditIds(a) + AuditIds(b)
  {}
}
