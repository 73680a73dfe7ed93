/**
 A primary-key sequence and what setting it to the ids of a table makes of it, in the SQL form and the Python form.
 */
module PkSequences {
  import opened Results

  /** A PostgreSQL sequence without CYCLE: its state, and its increment and bounds, which `setval` leaves alone. */
  datatype SeqState = SeqState(lastValue: int, isCalled: bool, step: int, low: int, high: int) {
    /** The value `nextval` will return, unless it is out of bounds. */
    function Next(): int {
      if isCalled then lastValue + step else lastValue
    }

    predicate Accepts(n: int) {
      low <= n <= high
    }

    /** `setval`, None where it raises. */
    function SetVal(value: int, called: bool): Option<SeqState> {
      if Accepts(value) then Some(this.(lastValue := value, isCalled := called)) else None
    }

    /** The value after `i` more steps. */
    function Later(i: nat): int {
      Next() + i * step
    }

    /** Whether `count` more values are within the bounds of a sequence that counts up. */
    predicate HasRoom(count: nat) {
      step > 0 && (count > 0 ==> low <= Next() && Later(count - 1) <= high)
    }
  }

  const BIGINT_MAX := 0x7FFF_FFFF_FFFF_FFFF
  const INTEGER_MAX := 0x7FFF_FFFF

  /** A sequence as CREATE SEQUENCE leaves it. */
  const FRESH := SeqState(1, false, 1, 1, BIGINT_MAX)

  /** The sequence of a new integer key column. */
  const FRESH_SERIAL := SeqState(1, false, 1, 1, INTEGER_MAX)

  /** `MAX(id)`, NULL for an empty table. */
  function MaxId(ids: seq<int>): Option<int> {
    if ids == [] then None else
    var k := |ids| - 1;
    match MaxId(ids[..k])
    case None => Some(ids[k])
    case Some(m) => Some(if ids[k] > m then ids[k] else m)
  }

  /** `COALESCE(MAX(id), 0)`, which is negative when all ids are. */
  function MaxOrZero(ids: seq<int>): int {
    MaxId(ids).GetOr(0)
  }

  lemma {:induction false} MaxBounds(ids: seq<int>)
    ensures forall x :: x in ids ==> x <= MaxOrZero(ids)
    ensures ids != [] ==> MaxOrZero(ids) in ids && MaxId(ids).Some?
  {
    if ids != [] {
      var k := |ids| - 1;
      MaxBounds(ids[..k]);
      assert ids == ids[..k] + [ids[k]];
      var m := MaxId(ids[..k]);
      if k == 0 {
        assert m == None;
        assert MaxId(ids) == Some(ids[k]);
      } else {
        assert m.Some? && m.value in ids[..k];
        assert MaxId(ids) == Some(if ids[k] > m.value then ids[k] else m.value);
      }
    }
  }

  /** The value both forms set: the largest id, or 1 when no id is positive. */
  function Target(ids: seq<int>): int {
    if MaxOrZero(ids) > 1 then MaxOrZero(ids) else 1
  }

  /** `setval(sequence, GREATEST(max, 1), max > 0)`: the statement of the access-log migration. */
  function SqlAligned(s: SeqState, ids: seq<int>): Option<SeqState> {
    s.SetVal(Target(ids), MaxOrZero(ids) > 0)
  }

  /** The two branches of the realignment migration. */
  function PythonAligned(s: SeqState, ids: seq<int>): Option<SeqState> {
    if MaxOrZero(ids) > 0 then s.SetVal(MaxOrZero(ids), true) else s.SetVal(1, false)
  }

  /**
   Both forms leave the same sequence, or both raise. The next value is then one step from the largest id, or 1
   when no id is positive, and it is above every id exactly when the sequence counts up or no id is positive.
   */
  lemma AlignmentsAgree(s: SeqState, ids: seq<int>)
    ensures SqlAligned(s, ids) == PythonAligned(s, ids)
    ensures PythonAligned(s, ids).Some? <==> s.Accepts(Target(ids))
    ensures PythonAligned(s, ids).Some? ==>
              var next := PythonAligned(s, ids).value.Next();
              && next == (if MaxOrZero(ids) > 0 then MaxOrZero(ids) + s.step else 1)
              && ((forall x :: x in ids ==> x < next) <==> s.step > 0 || MaxOrZero(ids) <= 0)
  {
    MaxBounds(ids);
  }

  /** A sequence set for the given ids, its increment and bounds unchanged. */
  function SetFor(s: SeqState, ids: seq<int>): SeqState {
    s.(lastValue := Target(ids), isCalled := MaxOrZero(ids) > 0)
  }

  /** Set for its ids, a sequence is above all of them exactly when it counts up or no id is positive. */
  lemma SetForIsSafe(s: SeqState, ids: seq<int>)
    ensures (forall x :: x in ids ==> x < SetFor(s, ids).Next()) <==> s.step > 0 || MaxOrZero(ids) <= 0
  {
    MaxBounds(ids);
  }

  lemma LaterIsOneStep(s: SeqState, i: nat)
    ensures s.Later(i + 1) == s.Later(i) + s.step
    ensures s.Later(0) == s.Next()
  {}

  lemma {:induction false} LaterGrows(s: SeqState, i: nat, j: nat)
    requires s.step > 0 && i <= j
    ensures s.Later(i) <= s.Later(j)
    decreases j - i
  {
    if i < j {
      LaterIsOneStep(s, i);
      LaterGrows(s, i + 1, j);
    }
  }
}
