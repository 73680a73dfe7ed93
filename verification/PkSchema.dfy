/**
 The realignment migration over a schema: which sequence each integer key column owns, which one its default draws
 from, what `_align_pk_sequence` does to them, and the inserts that follow.
 */
module PkSchema {
  import opened Results
  import opened Counting
  import opened PkSequences

  datatype Key = Key(table: string, column: string)

  /** The sequence a column owns, where it owns one. */
  type Owners = map<Key, string>

  // ----- names -----

  predicate IsLetter(c: char) {
    'a' <= c <= 'z' || 'A' <= c <= 'Z' || c == '_'
  }

  /** `[A-Za-z_][A-Za-z0-9_]*`, which `_quoted` asks of every name. */
  predicate IsIdentifier(name: string) {
    name != "" && IsLetter(name[0]) && forall i :: 0 < i < |name| ==> IsLetter(name[i]) || '0' <= name[i] <= '9'
  }

  function GeneratedName(k: Key): string {
    k.table + "_" + k.column + "_seq"
  }

  /** The sequence that is set for a column: its own, or the one of the generated name. */
  function NameFor(owned: Owners, k: Key): string {
    if k in owned then owned[k] else GeneratedName(k)
  }

  /**
   `ALTER SEQUENCE ... OWNED BY`, where the column owns none: a sequence has one owner, so another column loses it.
   */
  function Takes(owned: Owners, k: Key): Owners {
    if k in owned then owned
    else (map j | j in owned && owned[j] != GeneratedName(k) :: owned[j])[k := GeneratedName(k)]
  }

  function OwnedAfter(owned: Owners, order: seq<Key>): Owners {
    if order == [] then owned else
    var n := |order| - 1;
    Takes(OwnedAfter(owned, order[..n]), order[n])
  }

  /** The sequence that is set when the loop comes to column number `i`. */
  function UsedName(owned: Owners, order: seq<Key>, i: nat): string
    requires i < |order|
  {
    NameFor(OwnedAfter(owned, order[..i]), order[i])
  }

  ghost predicate OneOwner(owned: Owners) {
    forall j, k :: j in owned && k in owned && owned[j] == owned[k] ==> j == k
  }

  lemma TakesKeepsOneOwner(owned: Owners, k: Key)
    requires OneOwner(owned)
    ensures OneOwner(Takes(owned, k)) && k in Takes(owned, k) && Takes(owned, k)[k] == NameFor(owned, k)
  {}

  // ----- columns that do not interfere -----

  /** Names generated for columns without a sequence differ from each other and from every sequence owned by another. */
  ghost predicate Separate(owned: Owners, order: seq<Key>) {
    && (forall k, j :: k in order && k !in owned && j in owned ==> owned[j] != GeneratedName(k))
    && (forall k, j :: k in order && j in order && k !in owned && j !in owned && k != j ==>
          GeneratedName(k) != GeneratedName(j))
  }

  lemma {:induction false} SeparateOwners(owned: Owners, order: seq<Key>, i: nat)
    requires Separate(owned, order) && i <= |order|
    ensures var m := OwnedAfter(owned, order[..i]);
            && (forall k :: k in owned ==> k in m && m[k] == owned[k])
            && (forall k :: k in m ==> k in owned || (k in order[..i] && m[k] == GeneratedName(k)))
  {
    hide GeneratedName;
    if i > 0 {
      SeparateOwners(owned, order, i - 1);
      var k := order[i - 1];
      assert order[..i][..i - 1] == order[..i - 1] && order[..i] == order[..i - 1] + [k];
      assert k in order;
      var m := OwnedAfter(owned, order[..i - 1]);
      forall j | j in m && k !in m && j != k ensures m[j] != GeneratedName(k) {
        if j !in owned {
          assert j in order;
        }
      }
    }
  }

  /** Separate columns keep the sequences they own, and every column is set on a sequence of its own. */
  lemma SeparateNames(owned: Owners, order: seq<Key>)
    requires Separate(owned, order) && OneOwner(owned) && NoDup(order)
    ensures forall i :: 0 <= i < |order| ==>
              && UsedName(owned, order, i) == NameFor(owned, order[i])
              && (order[i] in OwnedAfter(owned, order[..i]) <==> order[i] in owned)
    ensures forall i, j :: 0 <= i < j < |order| ==> UsedName(owned, order, i) != UsedName(owned, order, j)
  {
    hide GeneratedName;
    forall i | 0 <= i < |order|
      ensures UsedName(owned, order, i) == NameFor(owned, order[i])
      ensures order[i] in OwnedAfter(owned, order[..i]) <==> order[i] in owned
    {
      SeparateOwners(owned, order, i);
    }
    forall i, j | 0 <= i < j < |order| ensures NameFor(owned, order[i]) != NameFor(owned, order[j]) {
      assert order[i] in order && order[j] in order;
    }
  }

  // ----- the schema -----

  /** A sequence by name, as CREATE SEQUENCE IF NOT EXISTS finds or leaves it. */
  function Current(sequences: map<string, SeqState>, name: string): SeqState {
    if name in sequences then sequences[name] else FRESH
  }

  /** Setting sequences does not change their increments and bounds, and drops none. */
  ghost predicate SameKinds(before: map<string, SeqState>, after: map<string, SeqState>) {
    && (forall n :: n in before ==> n in after)
    && (forall n ::
          Current(after, n).(lastValue := 0, isCalled := false)
            == Current(before, n).(lastValue := 0, isCalled := false))
  }

  /** What a schema holds of its sequences and defaults. */
  datatype View = View(sequences: map<string, SeqState>, owned: Owners, defaults: map<Key, string>)

  /** What aligning a column makes of them. */
  function Aligned(v: View, k: Key, ids: seq<int>): View {
    var used := NameFor(v.owned, k);
    View(v.sequences[used := SetFor(Current(v.sequences, used), ids)], Takes(v.owned, k),
         if k in v.owned then v.defaults else v.defaults[k := used])
  }

  /**
   Whether a column can be aligned when `mine` are the sequences owned by then: the names are identifiers, a
   generated name is not taken by another kind of relation, and the value to set is within the bounds.
   */
  predicate Alignable(schema: string, others: set<string>, v: View, k: Key, ids: seq<int>, mine: Owners) {
    && IsIdentifier(schema) && IsIdentifier(k.table) && IsIdentifier(k.column)
    && (k !in mine ==> GeneratedName(k) !in others)
    && Current(v.sequences, NameFor(mine, k)).Accepts(Target(ids))
  }

  /** The column defaults to the sequence it owns, or owns none, and then gets a default with its sequence. */
  predicate DrawsFromOwn(v: View, k: Key) {
    k in v.owned ==> k in v.defaults && v.defaults[k] == v.owned[k]
  }

  /** No column among the first `n` is set on the sequence of column number `i` after it. */
  ghost predicate LastUse(owned: Owners, order: seq<Key>, i: nat, n: nat)
    requires i < n <= |order|
  {
    forall j :: i < j < n ==> UsedName(owned, order, j) != UsedName(owned, order, i)
  }

  ghost predicate SameDefault(a: View, b: View, k: Key) {
    (k in a.defaults <==> k in b.defaults) && (k in a.defaults ==> a.defaults[k] == b.defaults[k])
  }

  /** None of the first `n` columns is set on a sequence. */
  ghost predicate Unused(owned: Owners, order: seq<Key>, name: string, n: nat)
    requires n <= |order|
  {
    forall i :: 0 <= i < n ==> UsedName(owned, order, i) != name
  }

  ghost predicate SameSequence(a: View, b: View, name: string) {
    && (name in a.sequences <==> name in b.sequences)
    && (name in a.sequences ==> a.sequences[name] == b.sequences[name])
  }

  /**
   How column number `i` comes out: the last use of its sequence set it, and it has a new default if it owned none.
   */
  ghost predicate Outcome(before: View, after: View, order: seq<Key>, ids: map<Key, seq<int>>, i: nat, n: nat)
    requires i < n <= |order| && order[i] in ids
  {
    var used := UsedName(before.owned, order, i);
    && used in after.sequences
    && (LastUse(before.owned, order, i, n) ==>
          after.sequences[used] == SetFor(Current(before.sequences, used), ids[order[i]]))
    && (if order[i] in OwnedAfter(before.owned, order[..i]) then SameDefault(before, after, order[i])
        else order[i] in after.defaults && after.defaults[order[i]] == used)
  }

  /** The schema after the first `n` columns are aligned. */
  ghost predicate AlignedUpTo(before: View, after: View, order: seq<Key>, ids: map<Key, seq<int>>, n: nat)
    requires n <= |order| && forall k :: k in order ==> k in ids
  {
    && after.owned == OwnedAfter(before.owned, order[..n])
    && SameKinds(before.sequences, after.sequences)
    && (forall name :: Unused(before.owned, order, name, n) ==> SameSequence(before, after, name))
    && (forall k :: k !in order[..n] ==> SameDefault(before, after, k))
    && (forall i :: 0 <= i < n ==> Outcome(before, after, order, ids, i, n))
  }

  /** Aligning another column leaves how an earlier one comes out, unless both are set on one sequence. */
  lemma OutcomeKept(before: View, v: View, order: seq<Key>, ids: map<Key, seq<int>>, i: nat, n: nat)
    requires NoDup(order) && i < n < |order| && order[i] in ids && order[n] in ids
    requires v.owned == OwnedAfter(before.owned, order[..n]) && Outcome(before, v, order, ids, i, n)
    ensures Outcome(before, Aligned(v, order[n], ids[order[n]]), order, ids, i, n + 1)
  {
    hide Takes, NameFor, Target, MaxOrZero, OwnedAfter, SetFor, Current;
    var k := order[n];
    assert NameFor(v.owned, k) == UsedName(before.owned, order, n);
    if LastUse(before.owned, order, i, n + 1) {
      assert LastUse(before.owned, order, i, n);
      assert UsedName(before.owned, order, i) != UsedName(before.owned, order, n);
    }
    assert order[i] != k;
  }

  lemma NewOutcome(before: View, v: View, order: seq<Key>, ids: map<Key, seq<int>>, n: nat)
    requires n < |order| && order[n] in ids
    requires v.owned == OwnedAfter(before.owned, order[..n])
    requires SameKinds(before.sequences, v.sequences) && SameDefault(before, v, order[n])
    ensures var after := Aligned(v, order[n], ids[order[n]]);
            Outcome(before, after, order, ids, n, n + 1) && SameKinds(before.sequences, after.sequences)
  {
    hide Takes, NameFor, Target, MaxOrZero, OwnedAfter;
    assert NameFor(v.owned, order[n]) == UsedName(before.owned, order, n);
  }

  lemma AlignedOneMore(before: View, v: View, order: seq<Key>, ids: map<Key, seq<int>>, n: nat)
    requires NoDup(order) && n < |order| && forall k :: k in order ==> k in ids
    requires AlignedUpTo(before, v, order, ids, n)
    ensures AlignedUpTo(before, Aligned(v, order[n], ids[order[n]]), order, ids, n + 1)
  {
    hide Takes, NameFor, Target, MaxOrZero, SetFor, Outcome, SameKinds;
    var k := order[n];
    assert order[..n + 1][..n] == order[..n] && order[..n + 1] == order[..n] + [k];
    assert k !in order[..n];
    NewOutcome(before, v, order, ids, n);
    var after := Aligned(v, k, ids[k]);
    assert after.owned == OwnedAfter(before.owned, order[..n + 1]);
    assert UsedName(before.owned, order, n) == NameFor(v.owned, k);
    hide OwnedAfter, UsedName;
    forall name | Unused(before.owned, order, name, n + 1) ensures SameSequence(before, after, name) {
      assert Unused(before.owned, order, name, n);
      assert UsedName(before.owned, order, n) != name;
    }
    forall j | j !in order[..n + 1] ensures SameDefault(before, after, j) {
      assert SameDefault(before, v, j);
    }
    var m := n + 1;
    forall i | 0 <= i < m ensures Outcome(before, after, order, ids, i, m) {
      if i < n {
        assert Outcome(before, v, order, ids, i, n);
        OutcomeKept(before, v, order, ids, i, n);
      }
    }
  }

  /** Separate columns that draw from their own sequences come out safe, unless those count down. */
  lemma SeparateOutcome(before: View, after: View, order: seq<Key>, ids: map<Key, seq<int>>, i: nat)
    requires NoDup(order) && i < |order| && forall k :: k in order ==> k in ids
    requires AlignedUpTo(before, after, order, ids, |order|)
    requires OneOwner(before.owned) && Separate(before.owned, order)
    requires DrawsFromOwn(before, order[i])
    ensures var k := order[i];
            && k in after.defaults && after.defaults[k] in after.sequences
            && var s := after.sequences[after.defaults[k]];
               (forall x :: x in ids[k] ==> x < s.Next()) <==> s.step > 0 || MaxOrZero(ids[k]) <= 0
  {
    hide Current, Takes, Target, MaxOrZero, Separate, OneOwner, OwnedAfter, SetFor;
    SeparateNames(before.owned, order);
    assert Outcome(before, after, order, ids, i, |order|);
    var used := UsedName(before.owned, order, i);
    SetForIsSafe(Current(before.sequences, used), ids[order[i]]);
    SetForKeepsStep(Current(before.sequences, used), ids[order[i]]);
  }

  /** The next value of a sequence with a step, set for some ids. */
  function NextAfter(step: int, ids: seq<int>): int {
    if MaxOrZero(ids) > 0 then MaxOrZero(ids) + step else 1
  }

  /** Column number `i` draws from the sequence it was set on, which column number `j` was the last to be set on. */
  ghost predicate SharesWithLast(before: View, after: View, order: seq<Key>, i: nat, j: nat)
    requires i <= j < |order|
  {
    && order[i] in after.defaults && after.defaults[order[i]] == UsedName(before.owned, order, i)
    && UsedName(before.owned, order, i) == UsedName(before.owned, order, j)
    && LastUse(before.owned, order, j, |order|)
  }

  /** A sequence that several columns are set on is left one step after the largest id of the last of them. */
  lemma SharedOutcome(before: View, after: View, order: seq<Key>, ids: map<Key, seq<int>>, j: nat)
    requires j < |order| && forall k :: k in order ==> k in ids
    requires AlignedUpTo(before, after, order, ids, |order|) && LastUse(before.owned, order, j, |order|)
    ensures var used := UsedName(before.owned, order, j);
            && used in after.sequences
            && after.sequences[used].Next() == NextAfter(after.sequences[used].step, ids[order[j]])
  {
    hide UsedName, OwnedAfter;
    assert Outcome(before, after, order, ids, j, |order|);
  }

  /**
   Two columns whose generated names coincide, `a.b_c` and `a_b.c`, with ids 9 and 5: whether neither owns a sequence
   or the second owns it, both can be aligned and are set on the same one, which the loop leaves at 6, above the id of
   the second but below that of the first, which draws from it.
   */
  lemma CoincidingNames(before: View, after: View, ids: map<Key, seq<int>>)
    requires var (a, b) := (Key("a", "b_c"), Key("a_b", "c"));
             && a in ids && b in ids && ids[a] == [9] && ids[b] == [5]
             && (before.owned == map[] || before.owned == map[b := "a_b_c_seq"])
             && Current(before.sequences, "a_b_c_seq").step == 1
             && AlignedUpTo(before, after, [a, b], ids, 2)
    ensures var (a, b) := (Key("a", "b_c"), Key("a_b", "c"));
            && !Separate(before.owned, [a, b])
            && a in after.defaults && after.defaults[a] == "a_b_c_seq"
            && b in after.owned && after.owned[b] == "a_b_c_seq"
            && "a_b_c_seq" in after.sequences && 5 < after.sequences["a_b_c_seq"].Next() == 6 <= 9
  {
    var a, b, name := Key("a", "b_c"), Key("a_b", "c"), "a_b_c_seq";
    CoincidingUse(before.owned);
    var order := [a, b];
    assert order[..2] == order;
    assert Outcome(before, after, order, ids, 0, 2);
    assert LastUse(before.owned, order, 1, 2);
    hide AlignedUpTo, UsedName, OwnedAfter, GeneratedName;
    SharedOutcome(before, after, order, ids, 1);
    MaxOfOne(5);
    SameStep(before, after, order, ids, name);
  }

  lemma MaxOfOne(n: int)
    ensures MaxOrZero([n]) == n
  {
    assert MaxId([n][..0]) == None;
  }

  lemma SameStep(before: View, after: View, order: seq<Key>, ids: map<Key, seq<int>>, name: string)
    requires forall k :: k in order ==> k in ids
    requires AlignedUpTo(before, after, order, ids, |order|)
    ensures Current(after.sequences, name).step == Current(before.sequences, name).step
  {}

  lemma CoincidingUse(owned: Owners)
    requires owned == map[] || owned == map[Key("a_b", "c") := "a_b_c_seq"]
    ensures var (a, b) := (Key("a", "b_c"), Key("a_b", "c"));
            && UsedName(owned, [a, b], 0) == UsedName(owned, [a, b], 1) == "a_b_c_seq"
            && a !in OwnedAfter(owned, [a, b][..0])
            && b in OwnedAfter(owned, [a, b]) && OwnedAfter(owned, [a, b])[b] == "a_b_c_seq"
            && !Separate(owned, [a, b])
  {
    var a, b, name := Key("a", "b_c"), Key("a_b", "c"), "a_b_c_seq";
    assert GeneratedName(a) == name && GeneratedName(b) == name;
    assert a != b;
    hide GeneratedName;
    var order := [a, b];
    assert order[..0] == [] && order[..1] == [a] && [a][..0] == [];
    assert a in order && b in order;
    var none: seq<Key> := [];
    assert OwnedAfter(owned, none) == owned;
    assert OwnedAfter(owned, [a]) == Takes(owned, a);
    assert b !in Takes(owned, a);
    assert OwnedAfter(owned, order) == Takes(Takes(owned, a), b);
  }

  lemma SetForKeepsStep(s: SeqState, ids: seq<int>)
    ensures SetFor(s, ids).step == s.step
  {}

  class KeySchema {
    const name: string
    const others: set<string>  // relations of the schema that are no sequences
    var ids: map<Key, seq<int>>
    var sequences: map<string, SeqState>
    var owned: Owners
    var defaults: map<Key, string>  // the sequence a column's default draws from

    constructor (name: string, others: set<string>, ids: map<Key, seq<int>>, sequences: map<string, SeqState>,
                 owned: Owners, defaults: map<Key, string>)
      ensures this.name == name && this.others == others && this.ids == ids
      ensures this.sequences == sequences && this.owned == owned && this.defaults == defaults
    {
      this.name, this.others, this.ids := name, others, ids;
      this.sequences, this.owned, this.defaults := sequences, owned, defaults;
    }

    ghost predicate Valid()
      reads this
    {
      && (forall k :: k in owned ==> owned[k] in sequences)
      && (forall k :: k in defaults ==> defaults[k] in sequences)
      && OneOwner(owned)
      && sequences.Keys !! others
    }

    function Now(): View
      reads this
    {
      View(sequences, owned, defaults)
    }

    /** The column draws its ids from a sequence whose next value is above all of them. */
    predicate Safe(k: Key)
      reads this
    {
      && k in ids && k in defaults && defaults[k] in sequences
      && forall x :: x in ids[k] ==> x < sequences[defaults[k]].Next()
    }

    /** The ids of a column are below the next value its sequence has once it is set for another column. */
    predicate BelowNextAfter(k: Key, last: Key)
      reads this
    {
      && k in ids && last in ids && k in defaults && defaults[k] in sequences
      && forall x :: x in ids[k] ==> x < NextAfter(sequences[defaults[k]].step, ids[last])
    }

    /** The column draws its ids from a sequence that counts up, or holds no positive id. */
    predicate UpOrEmpty(k: Key)
      reads this
    {
      && k in ids && k in defaults && defaults[k] in sequences
      && (sequences[defaults[k]].step > 0 || MaxOrZero(ids[k]) <= 0)
    }

    /**
     `_align_pk_sequence`; false when it raises, and then nothing has changed. A sequence of the generated name that
     is there already is taken as it is, and from whoever owns it. A default is only set with a sequence taken.
     */
    method Align(k: Key) returns (ok: bool)
      requires Valid() && k in ids
      modifies this
      ensures Valid() && ids == old(ids)
      ensures ok <==> Alignable(name, others, old(Now()), k, ids[k], old(owned))
      ensures Now() == if ok then Aligned(old(Now()), k, ids[k]) else old(Now())
      ensures ok && DrawsFromOwn(old(Now()), k) ==> (Safe(k) <==> UpOrEmpty(k))
    {
      hide IsIdentifier, GeneratedName, MaxOrZero;
      if !(IsIdentifier(name) && IsIdentifier(k.table) && IsIdentifier(k.column)) {
        return false;
      }
      var used := NameFor(owned, k);
      if k !in owned && used in others {
        return false;
      }
      var state := Current(sequences, used);
      var max := MaxOrZero(ids[k]);
      var aligned := if max > 0 then state.SetVal(max, true) else state.SetVal(1, false);
      if aligned.None? {
        return false;
      }
      SetForIsSafe(state, ids[k]);
      TakesKeepsOneOwner(owned, k);
      if k !in owned {
        defaults := defaults[k := used];
      }
      owned := Takes(owned, k);
      sequences := sequences[used := aligned.value];
      ok := true;
    }

    /**
     The loop of `upgrade` over the key columns of the schema; false when it raises, which it does exactly when some
     column cannot be aligned by the time the loop comes to it. Every sequence used is left as the last column that
     used it wants it, and a column that draws from one is safe exactly when its ids are below the next value after the
     last column's; the other sequences are not touched. When the columns are separate, those that draw from their
     own sequence are left safe exactly when it counts up or they hold no positive id.
     */
    method AlignAll(order: seq<Key>) returns (ok: bool)
      requires Valid() && NoDup(order) && forall k :: k in order ==> k in ids
      modifies this
      ensures Valid() && ids == old(ids)
      ensures ok <==> forall i :: 0 <= i < |order| ==>
                Alignable(name, others, old(Now()), order[i], ids[order[i]], OwnedAfter(old(owned), order[..i]))
      ensures ok ==> AlignedUpTo(old(Now()), Now(), order, ids, |order|)
      ensures ok ==> forall i, j :: 0 <= i <= j < |order| && SharesWithLast(old(Now()), Now(), order, i, j) ==>
                (Safe(order[i]) <==> BelowNextAfter(order[i], order[j]))
      ensures ok && Separate(old(owned), order) ==>
                forall k :: k in order && DrawsFromOwn(old(Now()), k) ==> (Safe(k) <==> UpOrEmpty(k))
    {
      hide AlignedUpTo, Aligned, Alignable, SharesWithLast, NextAfter;
      hide Separate, OneOwner, NoDup, MaxOrZero, OwnedAfter, DrawsFromOwn;
      ghost var before := Now();
      NothingAligned(before, order, ids);
      for i := 0 to |order|
        invariant Valid() && ids == old(ids)
        invariant AlignedUpTo(before, Now(), order, ids, i)
        invariant forall j :: 0 <= j < i ==>
                    Alignable(name, others, before, order[j], ids[order[j]], OwnedAfter(before.owned, order[..j]))
      {
        AlignableWhenReached(name, others, before, Now(), order, ids, i);
        AlignedOneMore(before, Now(), order, ids, i);
        ok := Align(order[i]);
        if !ok {
          return;
        }
      }
      ok := true;
      SharedAreSafeIff(before, order);
      if Separate(before.owned, order) {
        SeparateAreSafe(before, order);
      }
    }

    lemma SharedAreSafeIff(before: View, order: seq<Key>)
      requires NoDup(order) && forall k :: k in order ==> k in ids
      requires AlignedUpTo(before, Now(), order, ids, |order|)
      ensures forall i, j :: 0 <= i <= j < |order| && SharesWithLast(before, Now(), order, i, j) ==>
                (Safe(order[i]) <==> BelowNextAfter(order[i], order[j]))
    {
      hide AlignedUpTo, NoDup, NextAfter, UsedName;
      forall i, j | 0 <= i <= j < |order| && SharesWithLast(before, Now(), order, i, j)
        ensures Safe(order[i]) <==> BelowNextAfter(order[i], order[j]) {
        SharedOutcome(before, Now(), order, ids, j);
      }
    }

    lemma SeparateAreSafe(before: View, order: seq<Key>)
      requires NoDup(order) && forall k :: k in order ==> k in ids
      requires AlignedUpTo(before, Now(), order, ids, |order|)
      requires OneOwner(before.owned) && Separate(before.owned, order)
      ensures forall k :: k in order && DrawsFromOwn(before, k) ==> (Safe(k) <==> UpOrEmpty(k))
    {
      hide AlignedUpTo, Separate, OneOwner, NoDup, MaxOrZero, DrawsFromOwn;
      forall k | k in order && DrawsFromOwn(before, k) ensures Safe(k) <==> UpOrEmpty(k) {
        var i :| 0 <= i < |order| && order[i] == k;
        SeparateOutcome(before, Now(), order, ids, i);
      }
    }

    /**
     An INSERT that leaves the key to the column's default. Without a default the key is missing; an exhausted
     sequence gives no value; a value that is a key already is used up.
     */
    method InsertDefault(k: Key) returns (ok: bool, drawn: Option<int>)
      requires Valid() && k in ids
      modifies this
      ensures Valid() && owned == old(owned) && defaults == old(defaults)
      ensures drawn == if k !in defaults then None else
                       var s := old(sequences)[defaults[k]];
                       if s.Accepts(s.Next()) then Some(s.Next()) else None
      ensures ok <==> drawn.Some? && drawn.value !in old(ids)[k]
      ensures ids == if ok then old(ids)[k := old(ids)[k] + [drawn.value]] else old(ids)
      ensures sequences == if drawn.None? then old(sequences) else
                           var s := old(sequences)[defaults[k]].(lastValue := drawn.value, isCalled := true);
                           old(sequences)[defaults[k] := s]
      ensures old(Safe(k)) && old(sequences)[defaults[k]].HasRoom(1) ==> ok && Safe(k)
    {
      if k !in defaults {
        return false, None;
      }
      var s := sequences[defaults[k]];
      if !s.Accepts(s.Next()) {
        return false, None;
      }
      drawn := Some(s.Next());
      sequences := sequences[defaults[k] := s.(lastValue := s.Next(), isCalled := true)];
      ok := drawn.value !in ids[k];
      if ok {
        ids := ids[k := ids[k] + [drawn.value]];
      }
    }

    /**
     From a safe state any number of inserts for which the sequence has room succeed, one step apart, with ids that
     differ from each other and from all others of the column; other columns keep theirs.
     */
    method InsertMany(k: Key, count: nat) returns (newIds: seq<int>)
      requires Valid() && Safe(k) && sequences[defaults[k]].HasRoom(count)
      modifies this
      ensures Valid() && Safe(k) && owned == old(owned) && defaults == old(defaults)
      ensures |newIds| == count && ids == old(ids)[k := old(ids)[k] + newIds]
      ensures forall i :: 0 <= i < count ==>
                newIds[i] == old(sequences)[defaults[k]].Later(i) && newIds[i] !in old(ids)[k]
      ensures NoDup(newIds)
      ensures NoDup(old(ids)[k]) ==> NoDup(ids[k])
      ensures forall n :: n != defaults[k] ==> Current(sequences, n) == Current(old(sequences), n)
    {
      newIds := [];
      ghost var first := sequences[defaults[k]];
      assert ids[k] + [] == ids[k] && ids == ids[k := ids[k]];
      for n := 0 to count
        invariant Valid() && Safe(k) && owned == old(owned) && defaults == old(defaults)
        invariant |newIds| == n && ids == old(ids)[k := old(ids)[k] + newIds]
        invariant sequences[defaults[k]].(lastValue := 0, isCalled := true) == first.(lastValue := 0, isCalled := true)
        invariant sequences[defaults[k]].Next() == first.Later(n)
        invariant forall i :: 0 <= i < n ==> newIds[i] == first.Later(i) < first.Later(n) && newIds[i] !in old(ids)[k]
        invariant NoDup(newIds)
        invariant NoDup(old(ids)[k]) ==> NoDup(ids[k])
        invariant forall m :: m != defaults[k] ==> Current(sequences, m) == Current(old(sequences), m)
      {
        LaterIsOneStep(first, n);
        LaterGrows(first, n, count - 1);
        LaterGrows(first, 0, n);
        var _, drawn := InsertDefault(k);
        assert old(ids)[k] + newIds + [drawn.value] == old(ids)[k] + (newIds + [drawn.value]);
        newIds := newIds + [drawn.value];
      }
    }
  }

  lemma NothingAligned(v: View, order: seq<Key>, ids: map<Key, seq<int>>)
    requires forall k :: k in order ==> k in ids
    ensures AlignedUpTo(v, v, order, ids, 0)
  {
    assert order[..0] == [];
  }

  /** A column can be aligned when the loop comes to it if it can from the sequences there were at the start. */
  lemma AlignableWhenReached(schema: string, others: set<string>, before: View, v: View, order: seq<Key>,
                             ids: map<Key, seq<int>>, n: nat)
    requires n < |order| && forall k :: k in order ==> k in ids
    requires AlignedUpTo(before, v, order, ids, n)
    ensures Alignable(schema, others, v, order[n], ids[order[n]], v.owned)
       <==> Alignable(schema, others, before, order[n], ids[order[n]], OwnedAfter(before.owned, order[..n]))
  {
    hide Current, NameFor, Target, IsIdentifier, GeneratedName, OwnedAfter, Outcome;
  }
}
