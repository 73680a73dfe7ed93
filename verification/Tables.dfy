/** Tables with SQL NULL, as a DataFrame read over JDBC shows them, and the library functions left open. */
module Tables {
  import opened Results

  /** The kinds of columns that Spark's analysis tells apart; a moment is a date or a timestamp. */
  datatype Kind = NumberKind | TextKind | MomentKind | BooleanKind | BinaryKind | ArrayKind(of: Kind)

  /**
   SQL NULL, a number of a whole or a fractional type, a text, or a value of another kind with its CAST AS STRING
   and its place in the order of its kind, which is 0 for false and 1 for true.
   */
  datatype Cell = Null | Num(n: real, whole: bool) | Text(s: string) | Value(kind: Kind, text: string, place: real)

  /** The kind of a value, None for NULL, which has every kind. */
  function KindOf(c: Cell): Option<Kind> {
    match c
    case Null => None
    case Num(_, _) => Some(NumberKind)
    case Text(_) => Some(TextKind)
    case Value(kind, _, _) => Some(kind)
  }

  /** The columns of a table and their kinds. */
  datatype Header = Header(names: seq<string>, kinds: map<string, Kind>) {
    function KindAt(c: string): Kind {
      if c in kinds then kinds[c] else TextKind
    }
  }

  type Row = map<string, Cell>

  datatype Table = Table(columns: seq<string>, kinds: map<string, Kind>, rows: seq<Row>) {
    function Head(): Header {
      Header(columns, kinds)
    }

    predicate Has(cols: seq<string>) {
      forall c :: c in cols ==> c in columns
    }
  }

  /** The cell of a column; NULL for a column the row does not have. */
  function At(r: Row, c: string): Cell {
    if c in r then r[c] else Null
  }

  /** The key of a row; grouping, partitioning and `distinct` treat NULLs as equal. */
  function Key(r: Row, cols: seq<string>): (k: seq<Cell>)
    ensures |k| == |cols| && forall i :: 0 <= i < |k| ==> k[i] == At(r, cols[i])
  {
    seq(|cols|, i requires 0 <= i < |cols| => At(r, cols[i]))
  }

  function Keys(rows: seq<Row>, cols: seq<string>): (ks: seq<seq<Cell>>)
    ensures |ks| == |rows| && forall i :: 0 <= i < |ks| ==> ks[i] == Key(rows[i], cols)
  {
    seq(|rows|, i requires 0 <= i < |rows| => Key(rows[i], cols))
  }

  function Column(rows: seq<Row>, c: string): (cells: seq<Cell>)
    ensures |cells| == |rows| && forall i :: 0 <= i < |cells| ==> cells[i] == At(rows[i], c)
  {
    seq(|rows|, i requires 0 <= i < |rows| => At(rows[i], c))
  }

  /** Library behaviour the model leaves open: every theorem holds for every choice of these. */
  datatype Env = Env(
    matches: (string, string) -> bool,     // the regex engine: text, pattern
    compiles: string -> bool,              // whether the engine accepts a pattern
    show: (real, bool) -> string,          // CAST(number AS STRING), of a whole or a fractional type
    number: (string, bool) -> Option<real>,  // the cast of a text to a whole or a fractional type, None when it is NULL
    placed: (string, Kind) -> Option<real>,  // the place of a text cast to another kind, None when it is NULL
    pyText: (real, bool) -> string,        // Python's str of a number
    pyFloat: string -> Option<real>,       // Python's float of a text, None when it raises
    instant: string -> Option<real>,       // to_timestamp, None when it is NULL
    now: real,                             // current_timestamp
    hoursAgo: real -> string               // the ISO text of the instant that many hours before now
  )
}
