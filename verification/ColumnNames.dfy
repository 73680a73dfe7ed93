/**
 How Spark reads the text given to `F.col`: dots separate parts, backticks quote a part, and a column is found
 by its name without regard to case. The profiler quotes every name; the rule executor passes names as they are.
 */
module ColumnNames {
  import opened Results
  import opened Counting
  import opened PyStrings

  /** What follows an opening backtick, up to the closing one; a doubled backtick stands for itself. */
  function Unquoted(s: string): Option<string>
    decreases |s|
  {
    if s == "" then None
    else if s[0] != '`' then Before(s[0], Unquoted(s[1..]))
    else if |s| == 1 then Some("")
    else if s[1] == '`' then Before('`', Unquoted(s[2..]))
    else None
  }

  function Before(c: char, r: Option<string>): Option<string> {
    match r case None => None case Some(s) => Some([c] + s)
  }

  /** The one part a column reference consists of; None for a star, for several parts and for misplaced backticks. */
  function Identifier(name: string): Option<string> {
    if name == "*" then None
    else if name != "" && name[0] == '`' then Unquoted(name[1..])
    else if '.' in name || '`' in name then None
    else Some(name)
  }

  /** The column a reference means: the only one of that name, whatever the case. */
  function Resolve(columns: seq<string>, name: string): Option<string> {
    match Identifier(name)
    case None => None
    case Some(n) => Only(Filter(columns, c => Lower(c) == Lower(n)))
  }

  function Only(found: seq<string>): Option<string> {
    if |found| == 1 then Some(found[0]) else None
  }

  /** A name that is read as it stands. */
  predicate Plain(name: string) {
    name != "*" && '.' !in name && '`' !in name
  }

  /** No other column differs from `name` only by case. */
  predicate Alone(columns: seq<string>, name: string) {
    |Filter(columns, c => Lower(c) == Lower(name))| == 1
  }

  /** `_col`: the name with its backticks doubled, between backticks. */
  function Quote(name: string): string {
    "`" + Replace(name, '`', "``") + "`"
  }

  lemma {:induction false} UnquotedReadsBack(name: string)
    ensures Unquoted(Replace(name, '`', "``") + "`") == Some(name)
  {
    if name != "" {
      UnquotedReadsBack(name[1..]);
      var rest := Replace(name[1..], '`', "``") + "`";
      var s := Replace(name, '`', "``") + "`";
      if name[0] == '`' {
        assert s == "``" + rest;
        assert s[2..] == rest;
      } else {
        assert s == [name[0]] + rest;
        assert s[1..] == rest;
      }
      assert [name[0]] + name[1..] == name;
    }
  }

  lemma ResolvesOnlyTo(columns: seq<string>, name: string)
    requires name in columns
    ensures Only(Filter(columns, c => Lower(c) == Lower(name))) == if Alone(columns, name) then Some(name) else None
  {
    var found := Filter(columns, c => Lower(c) == Lower(name));
    assert name in found;
  }

  /** A quoted name always finds its column, whatever characters it holds, unless another differs only by case. */
  lemma QuoteFinds(columns: seq<string>, name: string)
    requires name in columns
    ensures Resolve(columns, Quote(name)) == if Alone(columns, name) then Some(name) else None
  {
    UnquotedReadsBack(name);
    var s := Quote(name);
    assert s[1..] == Replace(name, '`', "``") + "`";
    ResolvesOnlyTo(columns, name);
  }

  lemma {:induction false} UnquotedIsShorter(s: string)
    ensures Unquoted(s).Some? ==> |Unquoted(s).value| < |s|
    decreases |s|
  {
    if s != "" {
      UnquotedIsShorter(s[1..]);
      if |s| >= 2 {
        UnquotedIsShorter(s[2..]);
      }
    }
  }

  /** A name given as it stands finds its own column exactly when it is plain and no other differs only by case. */
  lemma PlainFinds(columns: seq<string>, name: string)
    requires name in columns
    ensures Resolve(columns, name) == Some(name) <==> Plain(name) && Alone(columns, name)
  {
    ResolvesOnlyTo(columns, name);
    if name != "" && name[0] == '`' {
      UnquotedIsShorter(name[1..]);
    }
  }

  /** A name without backticks finds its own column or none. */
  lemma UnquotedFindsOrFails(columns: seq<string>, name: string)
    requires name in columns && '`' !in name
    ensures Resolve(columns, name).Some? <==> Plain(name) && Alone(columns, name)
  {
    ResolvesOnlyTo(columns, name);
  }

  /** The columns a list of references means. */
  function ResolveAll(columns: seq<string>, names: seq<string>): (r: Option<seq<string>>)
    ensures r.Some? ==> |r.value| == |names|
    ensures r.Some? ==> forall i :: 0 <= i < |names| ==> Resolve(columns, names[i]) == Some(r.value[i])
    ensures r.None? ==> exists i :: 0 <= i < |names| && Resolve(columns, names[i]).None?
  {
    if names == [] then Some([]) else
    var k := |names| - 1;
    match (ResolveAll(columns, names[..k]), Resolve(columns, names[k]))
    case (Some(found), Some(c)) => Some(found + [c])
    case _ => None
  }
}
