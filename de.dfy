/**
 * The result deserializer of the Postgres client. A query result is an
 * untyped grid of text cells; the type the caller asks for (its `Shape`)
 * decides how a cursor of a row and a column index walks the grid:
 * a sequence walks rows, a tuple walks columns from the current one, a
 * struct or map walks all columns from the first, and a scalar reads the
 * cell under the cursor.
 *
 * The behaviour of serde's visitors (derived structs, tuples, vectors,
 * hash maps and the integer range checks) decides results as much as the
 * deserializer does, so it is modelled here too.
 */
module Deserialize {

  import opened Wrappers
  import opened Text
  import Utf8
  import opened SqlParams

  /** The OID of `timestamptz`. */
  const TimestamptzOid: Oid := 1184

  /** One column of a result: its name, type OID and wire format. */
  datatype Column = Column(name: string, typeOid: Oid, format: Format)

  /** A query result: the columns, and per row one cell per column, `None` for SQL NULL. */
  datatype Grid = Grid(columns: seq<Column>, rows: seq<seq<Option<seq<Utf8.byte>>>>)

  function NFields(g: Grid): nat { |g.columns| }

  function NTuples(g: Grid): nat { |g.rows| }

  /** `PQfformat`: text for a column index out of range. */
  function FieldFormat(g: Grid, col: nat): Format {
    if col < |g.columns| then g.columns[col].format else TextFormat
  }

  /** `PQftype`: the invalid OID 0 for a column index out of range. */
  function FieldType(g: Grid, col: nat): Oid {
    if col < |g.columns| then g.columns[col].typeOid else 0
  }

  /** `field_name`: None for a column index out of range. */
  function FieldName(g: Grid, col: nat): Option<string> {
    if col < |g.columns| then Some(g.columns[col].name) else None
  }

  /** `value`: None for a NULL cell and for indices out of range. */
  function CellValue(g: Grid, row: nat, col: nat): Option<seq<Utf8.byte>> {
    if row < |g.rows| && col < |g.rows[row]| then g.rows[row][col] else None
  }

  /** The `Deserializer` position: `row_index` and `col_index`. */
  datatype Cursor = Cursor(row: nat, col: nat)

  /** The type asked for, as the deserializer sees it through serde's calls. */
  datatype Shape =
    | BoolShape
    | IntShape(kind: IntKind)
    | StringShape
    /** `()` and unit structs. */
    | UnitShape
    /** `Vec<T>`. */
    | SeqShape(elem: Shape)
    /** Tuples, tuple structs and newtype structs (a tuple of one). */
    | TupleShape(elems: seq<Shape>)
    /** A derived struct with its field names and types, in declaration order. */
    | StructShape(fields: seq<(string, Shape)>)
    /** `HashMap<K, V>`. */
    | MapShape(key: Shape, value: Shape)
    /** A type that calls `deserialize_any`. */
    | AnyShape
    /** `IgnoredAny`. */
    | IgnoredShape
    /** `Option<T>`: its read, `deserialize_option`, is `unimplemented!()`; a struct field no column names is `None`. */
    | OptionShape(inner: Shape)
    /** Floats, `char`, bytes and enums, whose methods are `unimplemented!()`. */
    | UnimplementedShape

  /** A decoded value. */
  datatype Value =
    | BoolV(b: bool)
    | IntV(n: int)
    | StrV(s: string)
    | UnitV
    | ListV(items: seq<Value>)
    | TupleV(items: seq<Value>)
    /** Field values in declaration order. */
    | StructV(fields: seq<Value>)
    /** The entries in the order they were inserted into the map. */
    | MapV(entries: seq<(Value, Value)>)
    /** `None`, the value serde gives an `Option` field that no column names. */
    | NoneV

  /** The `SqlState` codes the deserializer raises. */
  datatype SqlState =
    | DeserializeErrorAnyNotSupported
    | DeserializeErrorExpectedBoolean
    | DeserializeErrorUnexpectedNull
    | DeserializeErrorExpectedNull

  /** The deserializer's errors: its own codes, and the ones serde's visitors build with `Error::custom`. */
  datatype DeError =
    | StateError(state: SqlState)
    | InvalidValue(n: int)
    | InvalidLength(len: nat)
    | DuplicateField(field: string)
    | MissingField(field: string)
    | Custom(message: string)

  const IgnoredAnyMessage: string := "Postgres does not support Deserializer::deserialize_ignored_any"
  const InvalidDateMessage: string := "invalid date format"

  /** What a read gives: a value, an error returned to the caller, or a panic. */
  datatype Answer = Ok(value: Value) | Err(error: DeError) | Panic

  /** An answer and the cursor it leaves behind. */
  datatype Outcome = Outcome(answer: Answer, cur: Cursor)

  /**
   * The re-formatting of a `timestamptz` cell (chrono's `parse_from_str`
   * followed by `to_rfc3339`), taken as given: None when the text does not
   * parse.
   */
  type Reformat = string -> Option<string>

  /** The words the boolean read accepts for `b`. */
  function BoolWords(b: bool): set<string> {
    if b then {"true", "t", "yes", "y", "1"} else {"false", "f", "no", "n", "0"}
  }

  /** The text of the cell under the cursor; None when `unwrap` panics on NULL or on invalid UTF-8. */
  function CellText(g: Grid, c: Cursor): Option<string> {
    match CellValue(g, c.row, c.col)
    case None => None
    case Some(b) => Utf8.Decode(b)
  }

  /** `deserialize_bool`: a boolean is one of its words; other text is the one error. */
  function DecodeBool(g: Grid, c: Cursor): (r: Answer)
    ensures r.Ok? ==> r.value.BoolV? && CellText(g, c).Some? && CellText(g, c).value in BoolWords(r.value.b)
    ensures r.Err? ==> r.error == StateError(DeserializeErrorExpectedBoolean)
    ensures r.Panic? <==> FieldFormat(g, c.col) != TextFormat || CellText(g, c).None?
  {
    if FieldFormat(g, c.col) != TextFormat then Panic
    else
      match CellText(g, c)
      case None => Panic
      case Some(t) =>
        match t
        case "true" => Ok(BoolV(true))
        case "t" => Ok(BoolV(true))
        case "yes" => Ok(BoolV(true))
        case "y" => Ok(BoolV(true))
        case "1" => Ok(BoolV(true))
        case "false" => Ok(BoolV(false))
        case "f" => Ok(BoolV(false))
        case "no" => Ok(BoolV(false))
        case "n" => Ok(BoolV(false))
        case "0" => Ok(BoolV(false))
        case _ => Err(StateError(DeserializeErrorExpectedBoolean))
  }

  /**
   * `deserialize_i64`, which every integer width calls: the text parses as
   * an `i64` or the `unwrap` panics; serde's visitor for the requested type
   * then range-checks the `i64`.
   */
  function DecodeInt(g: Grid, c: Cursor, k: IntKind): (r: Answer)
    ensures r.Ok? ==> r.value.IntV? && MinOf(k) <= r.value.n <= MaxOf(k) && I64Min <= r.value.n <= I64Max
    ensures r.Err? ==> r.error.InvalidValue? && !(MinOf(k) <= r.error.n <= MaxOf(k))
  {
    if FieldFormat(g, c.col) != TextFormat then Panic
    else
      match CellText(g, c)
      case None => Panic
      case Some(t) =>
        match ParseI64(t)
        case None => Panic
        case Some(v) => if MinOf(k) <= v <= MaxOf(k) then Ok(IntV(v)) else Err(InvalidValue(v))
  }

  /**
   * `deserialize_string`: outside a `timestamptz` column the string's UTF-8
   * bytes are the cell's; a NULL cell and a timestamp that does not parse
   * are errors.
   */
  function DecodeString(g: Grid, tz: Reformat, c: Cursor): (r: Answer)
    ensures r.Ok? ==> r.value.StrV? && CellValue(g, c.row, c.col).Some?
    ensures r.Ok? && FieldType(g, c.col) != TimestamptzOid ==> Utf8.Encode(r.value.s) == CellValue(g, c.row, c.col).value
    ensures FieldFormat(g, c.col) == TextFormat && CellValue(g, c.row, c.col).None? ==>
              r == Err(StateError(DeserializeErrorUnexpectedNull))
    ensures r.Err? ==> r.error in {StateError(DeserializeErrorUnexpectedNull), Custom(InvalidDateMessage)}
  {
    if FieldFormat(g, c.col) != TextFormat then Panic
    else
      match CellValue(g, c.row, c.col)
      case None => Err(StateError(DeserializeErrorUnexpectedNull))
      case Some(b) =>
        match Utf8.Decode(b)
        case None => Panic
        case Some(s) =>
          Utf8.EncodeDecode(b);
          if FieldType(g, c.col) == TimestamptzOid then
            match tz(s)
            case Some(t) => Ok(StrV(t))
            case None => Err(Custom(InvalidDateMessage))
          else Ok(StrV(s))
  }

  /** `deserialize_unit`: unit is read from an empty result or a NULL cell. */
  function DecodeUnit(g: Grid, c: Cursor): (r: Answer)
    ensures r.Ok? ==> r.value == UnitV && (NFields(g) == 0 || NTuples(g) == 0 || CellValue(g, c.row, c.col).None?)
    ensures r.Err? ==> r.error == StateError(DeserializeErrorExpectedNull) && CellValue(g, c.row, c.col).Some?
    ensures r.Panic? ==> FieldFormat(g, c.col) != TextFormat
  {
    if NFields(g) == 0 || NTuples(g) == 0 then Ok(UnitV)
    else if FieldFormat(g, c.col) != TextFormat then Panic
    else if CellValue(g, c.row, c.col).None? then Ok(UnitV)
    else Err(StateError(DeserializeErrorExpectedNull))
  }

  /** The shapes that read one cell, or none, and leave the cursor where it was. */
  predicate IsScalar(sh: Shape) {
    !(sh.SeqShape? || sh.TupleShape? || sh.StructShape? || sh.MapShape?)
  }

  /** A value of the type a scalar shape asks for, within the range of an integer type. */
  predicate Fits(sh: Shape, v: Value) {
    match sh
    case BoolShape => v.BoolV?
    case IntShape(k) => v.IntV? && MinOf(k) <= v.n <= MaxOf(k)
    case StringShape => v.StrV?
    case UnitShape => v == UnitV
    case _ => false
  }

  /** The read of one cell: a success has the type asked for; `Option` and the unimplemented types panic. */
  function DecodeScalar(g: Grid, tz: Reformat, sh: Shape, c: Cursor): (r: Answer)
    requires IsScalar(sh)
    ensures r.Ok? ==> Fits(sh, r.value)
    ensures sh.AnyShape? || sh.IgnoredShape? ==> r.Err?
    ensures sh.OptionShape? || sh.UnimplementedShape? ==> r.Panic?
  {
    match sh
    case BoolShape => DecodeBool(g, c)
    case IntShape(k) => DecodeInt(g, c, k)
    case StringShape => DecodeString(g, tz, c)
    case UnitShape => DecodeUnit(g, c)
    case AnyShape => Err(StateError(DeserializeErrorAnyNotSupported))
    case IgnoredShape => Err(Custom(IgnoredAnyMessage))
    case OptionShape(_) => Panic
    case UnimplementedShape => Panic
  }

  /** A successful read never moves back a row, and moves back a column only to end at or past the last one. */
  predicate Advances(g: Grid, c: Cursor, r: Outcome) {
    r.answer.Ok? ==> r.cur.row >= c.row && (r.cur.col >= c.col || r.cur.col >= NFields(g))
  }

  function Left(n: nat, i: nat): nat {
    if i < n then n - i else 0
  }

  /** `T::deserialize(&mut deserializer)` from cursor `c`. */
  function Decode(g: Grid, tz: Reformat, sh: Shape, c: Cursor): (r: Outcome)
    ensures Advances(g, c, r)
    decreases sh, 2
  {
    match sh
    case SeqShape(_) => DecodeRows(g, tz, sh, c, [])
    case TupleShape(_) => DecodeTuple(g, tz, sh, c, [])
    case StructShape(fields) => DecodeFields(g, tz, sh, c.(col := 0), seq(|fields|, _ => None))
    case MapShape(_, _) => DecodeEntries(g, tz, sh, c.(col := 0), [])
    case _ => Outcome(DecodeScalar(g, tz, sh, c), c)
  }

  /**
   * `deserialize_seq` with serde's vector visitor: while `row_index` is
   * below the row count, read one element and step to the next row (after
   * an error too, but not after a panic).
   */
  function DecodeRows(g: Grid, tz: Reformat, sh: Shape, c: Cursor, acc: seq<Value>): (r: Outcome)
    requires sh.SeqShape?
    ensures Advances(g, c, r)
    decreases sh, 1, Left(NTuples(g), c.row)
  {
    if c.row < NTuples(g) then
      var o := Decode(g, tz, sh.elem, c);
      var next := o.cur.(row := o.cur.row + 1);
      match o.answer
      case Ok(v) => DecodeRows(g, tz, sh, next, acc + [v])
      case Err(e) => Outcome(Err(e), next)
      case Panic => Outcome(Panic, o.cur)
    else Outcome(Ok(ListV(acc)), c)
  }

  /**
   * `deserialize_tuple` with serde's tuple visitor: element `i` is read at
   * `col_index`, which then steps to the next column; when `col_index`
   * reaches the column count before all elements are read, the visitor
   * reports the length it got.
   */
  function DecodeTuple(g: Grid, tz: Reformat, sh: Shape, c: Cursor, acc: seq<Value>): (r: Outcome)
    requires sh.TupleShape? && |acc| <= |sh.elems|
    ensures Advances(g, c, r)
    decreases sh, 1, |sh.elems| - |acc|
  {
    if |acc| == |sh.elems| then Outcome(Ok(TupleV(acc)), c)
    else if c.col < NFields(g) then
      var o := Decode(g, tz, sh.elems[|acc|], c);
      var next := o.cur.(col := o.cur.col + 1);
      match o.answer
      case Ok(v) => DecodeTuple(g, tz, sh, next, acc + [v])
      case Err(e) => Outcome(Err(e), next)
      case Panic => Outcome(Panic, o.cur)
    else Outcome(Err(InvalidLength(|acc|)), c)
  }

  /** The index of the first field called `name`. */
  function FieldIndex(fields: seq<(string, Shape)>, name: string): (r: Option<nat>)
    ensures r.Some? ==> r.value < |fields| && fields[r.value].0 == name
    ensures r.Some? ==> forall j :: 0 <= j < r.value ==> fields[j].0 != name
    ensures r.None? ==> forall j :: 0 <= j < |fields| ==> fields[j].0 != name
    decreases |fields|
  {
    if fields == [] then None
    else if fields[0].0 == name then Some(0)
    else
      match FieldIndex(fields[1..], name)
      case None => None
      case Some(i) => Some(i + 1)
  }

  /**
   * The first field that was not read and is not an `Option`: serde's
   * `missing_field` fills an `Option` with `None` and fails for any other type.
   */
  function FirstMissing(fields: seq<(string, Shape)>, present: seq<bool>): (r: Option<nat>)
    requires |present| == |fields|
    ensures r.Some? ==> r.value < |fields| && !present[r.value] && !fields[r.value].1.OptionShape?
    ensures r.Some? ==> forall j :: 0 <= j < r.value ==> present[j] || fields[j].1.OptionShape?
    ensures r.None? ==> forall j :: 0 <= j < |fields| ==> present[j] || fields[j].1.OptionShape?
    decreases |fields|
  {
    if fields == [] then None
    else if !present[0] && !fields[0].1.OptionShape? then Some(0)
    else
      match FirstMissing(fields[1..], present[1..])
      case None => None
      case Some(i) => Some(i + 1)
  }

  /** Which fields have been read. */
  function Present(seen: seq<Option<Value>>): (present: seq<bool>)
    ensures |present| == |seen|
  {
    seq(|seen|, j requires 0 <= j < |seen| => seen[j].Some?)
  }

  /** The struct's field values: those read, and `None` for the rest. */
  function FieldValues(seen: seq<Option<Value>>): (vs: seq<Value>)
    ensures |vs| == |seen|
  {
    seq(|seen|, j requires 0 <= j < |seen| => if seen[j].Some? then seen[j].value else NoneV)
  }

  /** The derived visitor once the columns are exhausted: the first missing field, or the struct. */
  function StructEnd(fields: seq<(string, Shape)>, seen: seq<Option<Value>>): Answer
    requires |seen| == |fields|
  {
    match FirstMissing(fields, Present(seen))
    case Some(i) => Err(MissingField(fields[i].0))
    case None => Ok(StructV(FieldValues(seen)))
  }

  /**
   * `deserialize_struct` (through `deserialize_map`) with serde's derived
   * struct visitor. While `col_index` is below the column count the key is
   * the column's name: an unknown name reads its value as `IgnoredAny`,
   * which fails; a field read twice fails; otherwise the field's value is
   * read at the same column and the column steps on. At the end the first
   * field never read that is not an `Option` is reported missing; the others are `None`.
   */
  function DecodeFields(g: Grid, tz: Reformat, sh: Shape, c: Cursor, seen: seq<Option<Value>>): (r: Outcome)
    requires sh.StructShape? && |seen| == |sh.fields|
    ensures Advances(g, c, r)
    ensures r.answer.Ok? ==> r.cur.col >= NFields(g)
    decreases sh, 1, Left(NFields(g), c.col)
  {
    if c.col < NFields(g) then
      var name := g.columns[c.col].name;
      match FieldIndex(sh.fields, name)
      case None => Outcome(Err(Custom(IgnoredAnyMessage)), c.(col := c.col + 1))
      case Some(i) =>
        if seen[i].Some? then Outcome(Err(DuplicateField(name)), c)
        else
          var o := Decode(g, tz, sh.fields[i].1, c);
          var next := o.cur.(col := o.cur.col + 1);
          match o.answer
          case Ok(v) => DecodeFields(g, tz, sh, next, seen[i := Some(v)])
          case Err(e) => Outcome(Err(e), next)
          case Panic => Outcome(Panic, o.cur)
    else
      Outcome(StructEnd(sh.fields, seen), c)
  }

  /**
   * `deserialize_map` with serde's hash map visitor. While `col_index` is
   * below the column count, the key is read at the cursor, then the value
   * where the key left the cursor, and then the column steps on.
   */
  function DecodeEntries(g: Grid, tz: Reformat, sh: Shape, c: Cursor, acc: seq<(Value, Value)>): (r: Outcome)
    requires sh.MapShape?
    ensures Advances(g, c, r)
    ensures r.answer.Ok? ==> r.cur.col >= NFields(g)
    decreases sh, 1, Left(NFields(g), c.col)
  {
    if c.col < NFields(g) then
      var ko := Decode(g, tz, sh.key, c);
      match ko.answer
      case Ok(k) =>
        var vo := Decode(g, tz, sh.value, ko.cur);
        var next := vo.cur.(col := vo.cur.col + 1);
        (match vo.answer
         case Ok(v) => DecodeEntries(g, tz, sh, next, acc + [(k, v)])
         case Err(e) => Outcome(Err(e), next)
         case Panic => Outcome(Panic, vo.cur))
      case Err(e) => Outcome(Err(e), ko.cur)
      case Panic => Outcome(Panic, ko.cur)
    else Outcome(Ok(MapV(acc)), c)
  }

  /** `from_result`: a fresh deserializer at row 0, column 0. */
  function FromResult(g: Grid, tz: Reformat, sh: Shape): (r: Answer)
    ensures IsScalar(sh) && r.Ok? ==> Fits(sh, r.value)
    ensures sh.SeqShape? && NTuples(g) == 0 ==> r == Ok(ListV([]))
    ensures sh.MapShape? && NFields(g) == 0 ==> r == Ok(MapV([]))
  {
    assert sh.SeqShape? && NTuples(g) == 0 ==> DecodeRows(g, tz, sh, Cursor(0, 0), []).answer == Ok(ListV([]));
    assert sh.MapShape? && NFields(g) == 0 ==> DecodeEntries(g, tz, sh, Cursor(0, 0), []).answer == Ok(MapV([]));
    Decode(g, tz, sh, Cursor(0, 0)).answer
  }

  // ---------------------------------------------------------------------
  // The deserializer and its iterators

  /**
   * `Deserializer`: the result it reads and the cursor that the row, tuple
   * and column iterators move. Each method leaves the answer and the cursor
   * that the functions above prescribe.
   */
  class Deserializer {
    const grid: Grid
    const tz: Reformat
    var rowIndex: nat
    var colIndex: nat

    /** `Deserializer::from_result`. */
    constructor (g: Grid, tz: Reformat)
      ensures grid == g && this.tz == tz && rowIndex == 0 && colIndex == 0
    {
      grid := g;
      this.tz := tz;
      rowIndex := 0;
      colIndex := 0;
    }

    function Position(): Cursor
      reads this
    {
      Cursor(rowIndex, colIndex)
    }

    /** `T::deserialize(&mut *self)`. */
    method Deserialize(sh: Shape) returns (a: Answer)
      modifies this
      ensures Outcome(a, Position()) == Decode(grid, tz, sh, old(Position()))
      decreases sh, 2
    {
      match sh
      case SeqShape(_) =>
        a := DeserializeSeq(sh);
      case TupleShape(_) =>
        a := DeserializeTuple(sh);
      case StructShape(_) =>
        colIndex := 0;
        a := DeserializeStruct(sh);
      case MapShape(_, _) =>
        colIndex := 0;
        a := DeserializeMap(sh);
      case _ =>
        a := DecodeScalar(grid, tz, sh, Position());
    }

    /** `deserialize_seq`: the vector visitor driving `RowIterator`. */
    method DeserializeSeq(sh: Shape) returns (a: Answer)
      requires sh.SeqShape?
      modifies this
      ensures Outcome(a, Position()) == DecodeRows(grid, tz, sh, old(Position()), [])
      decreases sh, 1
    {
      var items: seq<Value> := [];
      while rowIndex < NTuples(grid)
        invariant DecodeRows(grid, tz, sh, old(Position()), []) == DecodeRows(grid, tz, sh, Position(), items)
        decreases Left(NTuples(grid), rowIndex)
      {
        var e := Deserialize(sh.elem);
        if e.Panic? {
          return Panic;
        }
        rowIndex := rowIndex + 1;
        if e.Err? {
          return e;
        }
        items := items + [e.value];
      }
      return Ok(ListV(items));
    }

    /** `deserialize_tuple`: the tuple visitor driving `TupleIterator`. */
    method DeserializeTuple(sh: Shape) returns (a: Answer)
      requires sh.TupleShape?
      modifies this
      ensures Outcome(a, Position()) == DecodeTuple(grid, tz, sh, old(Position()), [])
      decreases sh, 1
    {
      var items: seq<Value> := [];
      while |items| < |sh.elems|
        invariant |items| <= |sh.elems|
        invariant DecodeTuple(grid, tz, sh, old(Position()), []) == DecodeTuple(grid, tz, sh, Position(), items)
        decreases |sh.elems| - |items|
      {
        if colIndex >= NFields(grid) {
          return Err(InvalidLength(|items|));
        }
        var e := Deserialize(sh.elems[|items|]);
        if e.Panic? {
          return Panic;
        }
        colIndex := colIndex + 1;
        if e.Err? {
          return e;
        }
        items := items + [e.value];
      }
      return Ok(TupleV(items));
    }

    /** `deserialize_struct`: the derived struct visitor driving `ColumnIterator`. */
    method DeserializeStruct(sh: Shape) returns (a: Answer)
      requires sh.StructShape?
      modifies this
      ensures Outcome(a, Position()) == DecodeFields(grid, tz, sh, old(Position()), seq(|sh.fields|, _ => None))
      decreases sh, 1
    {
      var seen: seq<Option<Value>> := seq(|sh.fields|, _ => None);
      while colIndex < NFields(grid)
        invariant |seen| == |sh.fields|
        invariant DecodeFields(grid, tz, sh, old(Position()), seq(|sh.fields|, _ => None))
                  == DecodeFields(grid, tz, sh, Position(), seen)
        decreases Left(NFields(grid), colIndex)
      {
        var name := FieldName(grid, colIndex).value;
        var i := FieldIndex(sh.fields, name);
        if i.None? {
          colIndex := colIndex + 1;
          return Err(Custom(IgnoredAnyMessage));
        }
        if seen[i.value].Some? {
          return Err(DuplicateField(name));
        }
        var e := Deserialize(sh.fields[i.value].1);
        if e.Panic? {
          return Panic;
        }
        colIndex := colIndex + 1;
        if e.Err? {
          return e;
        }
        seen := seen[i.value := Some(e.value)];
      }
      assert DecodeFields(grid, tz, sh, Position(), seen) == Outcome(StructEnd(sh.fields, seen), Position());
      var missing := FirstMissing(sh.fields, Present(seen));
      if missing.Some? {
        return Err(MissingField(sh.fields[missing.value].0));
      }
      return Ok(StructV(FieldValues(seen)));
    }

    /** `deserialize_map`: the hash map visitor driving `ColumnIterator`. */
    method DeserializeMap(sh: Shape) returns (a: Answer)
      requires sh.MapShape?
      modifies this
      ensures Outcome(a, Position()) == DecodeEntries(grid, tz, sh, old(Position()), [])
      decreases sh, 1
    {
      var entries: seq<(Value, Value)> := [];
      while colIndex < NFields(grid)
        invariant DecodeEntries(grid, tz, sh, old(Position()), []) == DecodeEntries(grid, tz, sh, Position(), entries)
        decreases Left(NFields(grid), colIndex)
      {
        ghost var c := Position();
        var k := Deserialize(sh.key);
        if !k.Ok? {
          return k;
        }
        ghost var afterKey := Position();
        var v := Deserialize(sh.value);
        if v.Panic? {
          return Panic;
        }
        ghost var afterValue := Position();
        colIndex := colIndex + 1;
        if v.Err? {
          return v;
        }
        assert DecodeEntries(grid, tz, sh, c, entries)
               == DecodeEntries(grid, tz, sh, afterValue.(col := afterValue.col + 1), entries + [(k.value, v.value)]);
        entries := entries + [(k.value, v.value)];
      }
      return Ok(MapV(entries));
    }
  }

  // ---------------------------------------------------------------------
  // Scalar reads

  /**
   * The boolean table: a text cell reads as `b` exactly when its text is one
   * of the words for `b`; any other text is the `ExpectedBoolean` error.
   * A NULL cell or invalid UTF-8 panics, and so does a binary column.
   */
  lemma BoolTable(g: Grid, c: Cursor, b: bool)
    ensures FieldFormat(g, c.col) == TextFormat && CellText(g, c).Some? ==>
      (DecodeBool(g, c) == Ok(BoolV(b)) <==> CellText(g, c).value in BoolWords(b))
    ensures DecodeBool(g, c).Err? <==>
      FieldFormat(g, c.col) == TextFormat && CellText(g, c).Some?
      && CellText(g, c).value !in BoolWords(true) + BoolWords(false)
    ensures DecodeBool(g, c).Err? ==> DecodeBool(g, c).error == StateError(DeserializeErrorExpectedBoolean)
    ensures DecodeBool(g, c).Panic? <==> FieldFormat(g, c.col) != TextFormat || CellText(g, c).None?
  {
  }

  /**
   * Every integer width reads the cell as an `i64`: a text that does not
   * parse panics, and a parsed value is the answer exactly when it fits the
   * requested type.
   */
  lemma IntReadsI64(g: Grid, c: Cursor, k: IntKind, v: int)
    requires FieldFormat(g, c.col) == TextFormat && CellText(g, c).Some?
    ensures DecodeInt(g, c, k).Panic? <==> ParseI64(CellText(g, c).value).None?
    ensures DecodeInt(g, c, k) == Ok(IntV(v)) <==> ParseI64(CellText(g, c).value) == Some(v) && MinOf(k) <= v <= MaxOf(k)
    ensures DecodeInt(g, c, k) == Err(InvalidValue(v)) <==> ParseI64(CellText(g, c).value) == Some(v) && !(MinOf(k) <= v <= MaxOf(k))
  {
  }

  /**
   * As written, `deserialize_u64` also parses the text as an `i64`, so the
   * decimal text of a `u64` above `i64::MAX` makes the `unwrap` panic.
   */
  lemma U64AboveI64Panics(g: Grid, c: Cursor, n: int)
    requires FieldFormat(g, c.col) == TextFormat && CellText(g, c) == Some(DecimalString(n))
    requires I64Max < n <= U64Max
    ensures DecodeInt(g, c, U64) == Panic
  {
    DigitsValueOfNatString(n);
  }

  /** The integer read with `deserialize_u64` parsing the text as a `u64`, the other widths unchanged. */
  function IntendedDecodeInt(g: Grid, c: Cursor, k: IntKind): (r: Answer)
    ensures r.Ok? ==> r.value.IntV? && MinOf(k) <= r.value.n <= MaxOf(k)
    ensures r.Err? ==> k != U64 && r.error.InvalidValue?
  {
    if k != U64 then DecodeInt(g, c, k)
    else if FieldFormat(g, c.col) != TextFormat then Panic
    else
      match CellText(g, c)
      case None => Panic
      case Some(t) =>
        match ParseU64(t)
        case None => Panic
        case Some(v) => Ok(IntV(v))
  }

  /** With the correction every `u64` value reads back from its decimal text. */
  lemma IntendedU64Reads(g: Grid, c: Cursor, n: int)
    requires FieldFormat(g, c.col) == TextFormat && CellText(g, c) == Some(DecimalString(n))
    requires 0 <= n <= U64Max
    ensures IntendedDecodeInt(g, c, U64) == Ok(IntV(n))
  {
    ParseU64OfDecimalString(n);
  }

  /** The decimal text of an integer in range of `i64` and of the requested type reads back as that integer. */
  lemma IntCellReadsBack(g: Grid, c: Cursor, k: IntKind, n: int)
    requires FieldFormat(g, c.col) == TextFormat && CellText(g, c) == Some(DecimalString(n))
    requires I64Min <= n <= I64Max && MinOf(k) <= n <= MaxOf(k)
    ensures DecodeInt(g, c, k) == Ok(IntV(n))
  {
    ParseI64OfDecimalString(n);
  }

  /** A string read of a NULL cell in a text column is the `UnexpectedNull` error. */
  lemma StringOfNull(g: Grid, tz: Reformat, c: Cursor)
    requires FieldFormat(g, c.col) == TextFormat && CellValue(g, c.row, c.col).None?
    ensures DecodeString(g, tz, c) == Err(StateError(DeserializeErrorUnexpectedNull))
  {
  }

  /** The text of a non-NULL cell outside a `timestamptz` column comes back unchanged. */
  lemma StringUnchanged(g: Grid, tz: Reformat, c: Cursor, b: seq<Utf8.byte>, s: string)
    requires FieldFormat(g, c.col) == TextFormat && FieldType(g, c.col) != TimestamptzOid
    requires CellValue(g, c.row, c.col) == Some(b) && Utf8.Decode(b) == Some(s)
    ensures DecodeString(g, tz, c) == Ok(StrV(s))
  {
  }

  /**
   * The unit read succeeds when the result has no columns or no rows;
   * otherwise, in a text column, exactly when the cell under the cursor is
   * NULL, and it is the `ExpectedNull` error when it is not.
   */
  lemma UnitIff(g: Grid, c: Cursor)
    ensures NFields(g) == 0 || NTuples(g) == 0 ==> DecodeUnit(g, c) == Ok(UnitV)
    ensures NFields(g) > 0 && NTuples(g) > 0 && FieldFormat(g, c.col) == TextFormat ==>
      (DecodeUnit(g, c).Ok? <==> CellValue(g, c.row, c.col).None?)
      && (!DecodeUnit(g, c).Ok? ==> DecodeUnit(g, c) == Err(StateError(DeserializeErrorExpectedNull)))
  {
  }

  /** `deserialize_any` and `deserialize_ignored_any` fail whatever the input, without moving the cursor. */
  lemma AnyAndIgnoredFail(g: Grid, tz: Reformat, c: Cursor)
    ensures Decode(g, tz, AnyShape, c) == Outcome(Err(StateError(DeserializeErrorAnyNotSupported)), c)
    ensures Decode(g, tz, IgnoredShape, c) == Outcome(Err(Custom(IgnoredAnyMessage)), c)
  {
  }

  /** Only a struct or a map read resets the column: where it starts does not matter. */
  lemma StructAndMapIgnoreColumn(g: Grid, tz: Reformat, sh: Shape, c: Cursor, col: nat)
    requires sh.StructShape? || sh.MapShape?
    ensures Decode(g, tz, sh, c) == Decode(g, tz, sh, c.(col := col))
  {
  }

  // ---------------------------------------------------------------------
  // Sequences, tuples and structs of scalars

  /** A scalar read leaves the cursor where it was. */
  lemma ScalarStays(g: Grid, tz: Reformat, sh: Shape, c: Cursor)
    requires IsScalar(sh)
    ensures Decode(g, tz, sh, c) == Outcome(DecodeScalar(g, tz, sh, c), c)
  {
  }

  /** One turn of the row loop over a scalar element type. */
  lemma RowStep(g: Grid, tz: Reformat, sh: Shape, c: Cursor, acc: seq<Value>)
    requires sh.SeqShape? && IsScalar(sh.elem) && c.row < NTuples(g)
    ensures var a := DecodeScalar(g, tz, sh.elem, c);
            DecodeRows(g, tz, sh, c, acc)
            == if a.Ok? then DecodeRows(g, tz, sh, Cursor(c.row + 1, c.col), acc + [a.value])
               else if a.Err? then Outcome(a, Cursor(c.row + 1, c.col))
               else Outcome(a, c)
  {
    ScalarStays(g, tz, sh.elem, c);
  }

  /** The values of a list of successful answers. */
  function Values(answers: seq<Answer>): (vs: seq<Value>)
    requires forall i :: 0 <= i < |answers| ==> answers[i].Ok?
    ensures |vs| == |answers| && forall i :: 0 <= i < |answers| ==> answers[i] == Ok(vs[i])
  {
    seq(|answers|, i requires 0 <= i < |answers| => answers[i].value)
  }

  /** The answers have no failure before index `k`, and fail at `k`. */
  predicate FirstFailure(answers: seq<Answer>, k: int) {
    0 <= k < |answers| && !answers[k].Ok? && forall i :: 0 <= i < k ==> answers[i].Ok?
  }

  predicate AllOk(answers: seq<Answer>) {
    forall i :: 0 <= i < |answers| ==> answers[i].Ok?
  }

  /** The reads of a scalar shape down column `col` from row `start` to the last row. */
  function ColumnReads(g: Grid, tz: Reformat, elem: Shape, col: nat, start: nat): (rs: seq<Answer>)
    requires IsScalar(elem)
    ensures |rs| == Left(NTuples(g), start)
  {
    seq(Left(NTuples(g), start), i requires 0 <= i => DecodeScalar(g, tz, elem, Cursor(start + i, col)))
  }

  /** What a visitor reading answers in order has, once it stops: every value read, or the first answer that is not one. */
  datatype Gathered = AllRead(values: seq<Value>) | FailedAt(failure: Answer)

  /** Reads the answers in order after the values `acc`, stopping at the first that is not a value. */
  function Gather(rs: seq<Answer>, acc: seq<Value>): Gathered
    decreases |rs|
  {
    if rs == [] then AllRead(acc)
    else if rs[0].Ok? then Gather(rs[1..], acc + [rs[0].value])
    else FailedAt(rs[0])
  }

  /** Gathering reads everything exactly when every answer is a value, and then lists them all in order. */
  lemma {:induction false} GatherAllOk(rs: seq<Answer>, acc: seq<Value>)
    ensures Gather(rs, acc).AllRead? <==> AllOk(rs)
    ensures AllOk(rs) ==> Gather(rs, acc) == AllRead(acc + Values(rs))
    decreases |rs|
  {
    if rs == [] {
      assert acc + Values(rs) == acc;
    } else if rs[0].Ok? {
      var rest := rs[1..];
      GatherAllOk(rest, acc + [rs[0].value]);
      AllOkCons(rs);
      if AllOk(rs) {
        ValuesCons(rs);
        assert acc + Values(rs) == (acc + [rs[0].value]) + Values(rest);
      }
    }
  }

  /** The answers are all values exactly when the first is and the rest are. */
  lemma AllOkCons(rs: seq<Answer>)
    requires rs != []
    ensures AllOk(rs) <==> rs[0].Ok? && AllOk(rs[1..])
  {
    assert forall i :: 0 < i < |rs| ==> rs[i] == rs[1..][i - 1];
  }

  /** The values of answers that all read are the first value followed by the rest's. */
  lemma ValuesCons(rs: seq<Answer>)
    requires rs != [] && AllOk(rs)
    ensures AllOk(rs[1..]) && Values(rs) == [rs[0].value] + Values(rs[1..])
  {
    AllOkCons(rs);
    var vs := Values(rs);
    var ws := [rs[0].value] + Values(rs[1..]);
    assert |vs| == |ws|;
    forall i | 0 <= i < |vs|
      ensures vs[i] == ws[i]
    {
      if i > 0 {
        assert rs[i] == rs[1..][i - 1];
      }
    }
  }

  /** Otherwise gathering stops at the first answer that is not a value. */
  lemma {:induction false} GatherFails(rs: seq<Answer>, acc: seq<Value>)
    requires !AllOk(rs)
    ensures exists k :: FirstFailure(rs, k) && Gather(rs, acc) == FailedAt(rs[k])
    decreases |rs|
  {
    if rs[0].Ok? {
      var rest := rs[1..];
      assert forall i :: 0 < i < |rs| ==> rs[i] == rest[i - 1];
      assert !AllOk(rest);
      GatherFails(rest, acc + [rs[0].value]);
      var k :| FirstFailure(rest, k) && Gather(rest, acc + [rs[0].value]) == FailedAt(rest[k]);
      assert FirstFailure(rs, k + 1);
    } else {
      assert FirstFailure(rs, 0);
    }
  }

  /** The vector visitor's answer: the list of the values, or the failure. */
  function AsList(gd: Gathered): Answer {
    match gd
    case AllRead(vs) => Ok(ListV(vs))
    case FailedAt(a) => a
  }

  /** The tuple visitor's answer: the tuple once `arity` values are read, the length it got when fewer are, or the failure. */
  function AsTuple(gd: Gathered, arity: nat): Answer {
    match gd
    case AllRead(vs) => if |vs| == arity then Ok(TupleV(vs)) else Err(InvalidLength(|vs|))
    case FailedAt(a) => a
  }

  /** The reads down a column are the read at the first row followed by the reads from the next. */
  lemma ColumnReadsCons(g: Grid, tz: Reformat, elem: Shape, col: nat, start: nat)
    requires IsScalar(elem) && start < NTuples(g)
    ensures var rs := ColumnReads(g, tz, elem, col, start);
            rs[0] == DecodeScalar(g, tz, elem, Cursor(start, col))
            && rs[1..] == ColumnReads(g, tz, elem, col, start + 1)
  {
  }

  /** The row loop over a scalar element type gathers the reads down its column. */
  lemma {:induction false} RowsGather(g: Grid, tz: Reformat, sh: Shape, c: Cursor, acc: seq<Value>)
    requires sh.SeqShape? && IsScalar(sh.elem)
    ensures DecodeRows(g, tz, sh, c, acc).answer == AsList(Gather(ColumnReads(g, tz, sh.elem, c.col, c.row), acc))
    decreases Left(NTuples(g), c.row)
  {
    if c.row < NTuples(g) {
      RowStep(g, tz, sh, c, acc);
      ColumnReadsCons(g, tz, sh.elem, c.col, c.row);
      var a := DecodeScalar(g, tz, sh.elem, c);
      if a.Ok? {
        RowsGather(g, tz, sh, Cursor(c.row + 1, c.col), acc + [a.value]);
      }
    }
  }

  /**
   * A sequence of a scalar type reads the cell of every remaining row in
   * row order, in the column where it started: it succeeds exactly when
   * every read does, with one element per row, and otherwise gives the
   * first failing read.
   */
  lemma RowsOfScalar(g: Grid, tz: Reformat, sh: Shape, c: Cursor, acc: seq<Value>)
    requires sh.SeqShape? && IsScalar(sh.elem)
    ensures var r := DecodeRows(g, tz, sh, c, acc);
            var rs := ColumnReads(g, tz, sh.elem, c.col, c.row);
            (r.answer.Ok? <==> AllOk(rs))
            && (r.answer.Ok? ==> r.answer.value == ListV(acc + Values(rs)))
            && (!r.answer.Ok? ==> exists k :: FirstFailure(rs, k) && r.answer == rs[k])
  {
    var rs := ColumnReads(g, tz, sh.elem, c.col, c.row);
    RowsGather(g, tz, sh, c, acc);
    GatherAllOk(rs, acc);
    if !AllOk(rs) {
      GatherFails(rs, acc);
    }
  }

  /** The same for a whole query: `Vec<T>` of a scalar `T` has one element per row, in row order. */
  lemma SeqOfScalar(g: Grid, tz: Reformat, elem: Shape)
    requires IsScalar(elem)
    ensures var r := FromResult(g, tz, SeqShape(elem));
            var rs := ColumnReads(g, tz, elem, 0, 0);
            (r.Ok? <==> AllOk(rs))
            && (r.Ok? ==> r.value.ListV? && |r.value.items| == NTuples(g) && r.value.items == Values(rs))
  {
    RowsOfScalar(g, tz, SeqShape(elem), Cursor(0, 0), []);
    var rs := ColumnReads(g, tz, elem, 0, 0);
    if AllOk(rs) {
      assert [] + Values(rs) == Values(rs);
    }
  }

  predicate AllScalar(elems: seq<Shape>) {
    forall j :: 0 <= j < |elems| ==> IsScalar(elems[j])
  }

  function Min(a: nat, b: nat): nat {
    if a <= b then a else b
  }

  /**
   * The reads of a tuple of scalar types along row `c.row` from column
   * `c.col`, element `from + j` at column `c.col + j`, for as long as there are
   * elements left and columns left.
   */
  function TupleReads(g: Grid, tz: Reformat, elems: seq<Shape>, first: nat, c: Cursor): (rs: seq<Answer>)
    requires first <= |elems| && AllScalar(elems)
    ensures |rs| == Min(|elems| - first, Left(NFields(g), c.col))
  {
    seq(Min(|elems| - first, Left(NFields(g), c.col)),
        j requires 0 <= j < Min(|elems| - first, Left(NFields(g), c.col)) =>
          DecodeScalar(g, tz, elems[first + j], Cursor(c.row, c.col + j)))
  }

  lemma TupleReadsCons(g: Grid, tz: Reformat, elems: seq<Shape>, first: nat, c: Cursor)
    requires first < |elems| && AllScalar(elems) && c.col < NFields(g)
    ensures var rs := TupleReads(g, tz, elems, first, c);
            rs[0] == DecodeScalar(g, tz, elems[first], c)
            && rs[1..] == TupleReads(g, tz, elems, first + 1, Cursor(c.row, c.col + 1))
  {
    var rs := TupleReads(g, tz, elems, first, c);
    var ts := TupleReads(g, tz, elems, first + 1, Cursor(c.row, c.col + 1));
    assert |rs[1..]| == |ts|;
    forall j | 0 <= j < |ts|
      ensures rs[1..][j] == ts[j]
    {
      assert rs[1..][j] == rs[j + 1];
      assert first + (j + 1) == (first + 1) + j && c.col + (j + 1) == (c.col + 1) + j;
    }
  }

  /** The tuple loop over scalar types gathers the reads along its row, and a success ends one column past the last element. */
  lemma {:induction false} TupleGather(g: Grid, tz: Reformat, sh: Shape, c: Cursor, acc: seq<Value>)
    requires sh.TupleShape? && |acc| <= |sh.elems| && AllScalar(sh.elems)
    ensures var r := DecodeTuple(g, tz, sh, c, acc);
            r.answer == AsTuple(Gather(TupleReads(g, tz, sh.elems, |acc|, c), acc), |sh.elems|)
            && (r.answer.Ok? ==> r.cur == Cursor(c.row, c.col + |sh.elems| - |acc|))
    decreases |sh.elems| - |acc|
  {
    if |acc| < |sh.elems| && c.col < NFields(g) {
      var rs := TupleReads(g, tz, sh.elems, |acc|, c);
      TupleStep(g, tz, sh, c, acc);
      TupleReadsCons(g, tz, sh.elems, |acc|, c);
      if rs[0].Ok? {
        TupleGather(g, tz, sh, Cursor(c.row, c.col + 1), acc + [rs[0].value]);
        assert Gather(rs, acc) == Gather(rs[1..], acc + [rs[0].value]);
      } else {
        assert Gather(rs, acc) == FailedAt(rs[0]);
      }
    }
  }

  /** One turn of the tuple loop over a scalar element type. */
  lemma TupleStep(g: Grid, tz: Reformat, sh: Shape, c: Cursor, acc: seq<Value>)
    requires sh.TupleShape? && |acc| < |sh.elems| && AllScalar(sh.elems) && c.col < NFields(g)
    ensures var a := DecodeScalar(g, tz, sh.elems[|acc|], c);
            DecodeTuple(g, tz, sh, c, acc)
            == if a.Ok? then DecodeTuple(g, tz, sh, Cursor(c.row, c.col + 1), acc + [a.value])
               else if a.Err? then Outcome(a, Cursor(c.row, c.col + 1))
               else Outcome(a, c)
  {
    var e := sh.elems[|acc|];
    assert IsScalar(e);
    ScalarStays(g, tz, e, c);
    var o := Decode(g, tz, e, c);
    assert o.cur == c && o.answer == DecodeScalar(g, tz, e, c);
  }

  /**
   * A tuple (or tuple struct, or newtype struct) of scalar types read from
   * cursor `c` reads element `j` at column `c.col + j` of the same row. It
   * succeeds exactly when the row has a column for every element and every
   * read succeeds; when the columns run out first after successful reads,
   * the error is the number of elements read; otherwise it is the first
   * failing read.
   */
  lemma TupleOfScalars(g: Grid, tz: Reformat, elems: seq<Shape>, c: Cursor)
    requires AllScalar(elems)
    ensures var r := Decode(g, tz, TupleShape(elems), c);
            var rs := TupleReads(g, tz, elems, 0, c);
            (r.answer.Ok? <==> AllOk(rs) && |elems| <= Left(NFields(g), c.col))
            && (r.answer.Ok? ==> r.answer.value == TupleV(Values(rs)) && r.cur == Cursor(c.row, c.col + |elems|))
            && (AllOk(rs) && Left(NFields(g), c.col) < |elems| ==> r.answer == Err(InvalidLength(Left(NFields(g), c.col))))
            && (!AllOk(rs) ==> exists k :: FirstFailure(rs, k) && r.answer == rs[k])
  {
    var rs := TupleReads(g, tz, elems, 0, c);
    TupleGather(g, tz, TupleShape(elems), c, []);
    GatherAllOk(rs, []);
    if AllOk(rs) {
      assert [] + Values(rs) == Values(rs);
    } else {
      GatherFails(rs, []);
    }
  }

  /** A tuple whose reads all succeed, with a column for every element, is the tuple of the values read. */
  lemma TupleOfValues(g: Grid, tz: Reformat, elems: seq<Shape>, vs: seq<Value>)
    requires AllScalar(elems) && |elems| <= NFields(g) && |vs| == |elems|
    requires forall j :: 0 <= j < |elems| ==> DecodeScalar(g, tz, elems[j], Cursor(0, j)) == Ok(vs[j])
    ensures FromResult(g, tz, TupleShape(elems)) == Ok(TupleV(vs))
  {
    var rs := TupleReads(g, tz, elems, 0, Cursor(0, 0));
    assert forall j :: 0 <= j < |rs| ==> rs[j] == Ok(vs[j]);
    TupleOfScalars(g, tz, elems, Cursor(0, 0));
    assert Values(rs) == vs;
  }

  // ---------------------------------------------------------------------
  // A vector of tuples

  /**
   * As written, the row iterator leaves `col_index` where the previous
   * element left it. A tuple that spans every column leaves it at the
   * column count, so the tuple of the second row finds no column and its
   * visitor reports length 0: a `Vec` of such tuples fails on any result
   * with two rows or more, however good the cells are.
   */
  lemma VecOfTuplesFails(g: Grid, tz: Reformat, elems: seq<Shape>)
    requires AllScalar(elems) && 0 < |elems| == NFields(g) && NTuples(g) >= 2
    requires AllOk(TupleReads(g, tz, elems, 0, Cursor(0, 0)))
    ensures FromResult(g, tz, SeqShape(TupleShape(elems))) == Err(InvalidLength(0))
  {
    var sh := SeqShape(TupleShape(elems));
    TupleOfScalars(g, tz, elems, Cursor(0, 0));
    var first := Decode(g, tz, TupleShape(elems), Cursor(0, 0));
    assert first.answer.Ok? && first.cur == Cursor(0, |elems|);
    var second := Cursor(1, |elems|);
    assert [] + [first.answer.value] == [first.answer.value];
    assert DecodeRows(g, tz, sh, Cursor(0, 0), []) == DecodeRows(g, tz, sh, second, [first.answer.value]);
    assert Decode(g, tz, TupleShape(elems), second) == Outcome(Err(InvalidLength(0)), second);
  }

  /** The row walk with `col_index` reset to 0 before each element, as a vector of records evidently needs. */
  function IntendedRows(g: Grid, tz: Reformat, sh: Shape, c: Cursor, acc: seq<Value>): (r: Outcome)
    requires sh.SeqShape?
    ensures r.answer.Ok? ==> r.answer.value.ListV? && |acc| <= |r.answer.value.items| <= |acc| + Left(NTuples(g), c.row)
    ensures r.answer.Ok? ==> r.answer.value.items[..|acc|] == acc
    decreases Left(NTuples(g), c.row)
  {
    if c.row < NTuples(g) then
      var o := Decode(g, tz, sh.elem, Cursor(c.row, 0));
      var next := o.cur.(row := o.cur.row + 1);
      match o.answer
      case Ok(v) => IntendedRows(g, tz, sh, next, acc + [v])
      case Err(e) => Outcome(Err(e), next)
      case Panic => Outcome(Panic, o.cur)
    else Outcome(Ok(ListV(acc)), c)
  }

  /** The reads of an element of any shape from column 0 of every row from `start` on. */
  function RowReads(g: Grid, tz: Reformat, elem: Shape, start: nat): (rs: seq<Answer>)
    ensures |rs| == Left(NTuples(g), start)
  {
    seq(Left(NTuples(g), start), i requires 0 <= i => Decode(g, tz, elem, Cursor(start + i, 0)).answer)
  }

  lemma RowReadsCons(g: Grid, tz: Reformat, elem: Shape, start: nat)
    requires start < NTuples(g)
    ensures var rs := RowReads(g, tz, elem, start);
            rs[0] == Decode(g, tz, elem, Cursor(start, 0)).answer && rs[1..] == RowReads(g, tz, elem, start + 1)
  {
    var rs := RowReads(g, tz, elem, start);
    var ts := RowReads(g, tz, elem, start + 1);
    assert |rs[1..]| == |ts|;
    forall i | 0 <= i < |ts|
      ensures rs[1..][i] == ts[i]
    {
      assert rs[1..][i] == rs[i + 1];
      assert start + (i + 1) == (start + 1) + i;
    }
  }

  /** With the reset, every row's tuple of scalar types is read from the first column. */
  lemma {:induction false} IntendedRowsGather(g: Grid, tz: Reformat, sh: Shape, c: Cursor, acc: seq<Value>)
    requires sh.SeqShape? && sh.elem.TupleShape? && AllScalar(sh.elem.elems)
    ensures IntendedRows(g, tz, sh, c, acc).answer == AsList(Gather(RowReads(g, tz, sh.elem, c.row), acc))
    decreases Left(NTuples(g), c.row)
  {
    if c.row < NTuples(g) {
      RowReadsCons(g, tz, sh.elem, c.row);
      var o := Decode(g, tz, sh.elem, Cursor(c.row, 0));
      TupleOfScalars(g, tz, sh.elem.elems, Cursor(c.row, 0));
      if o.answer.Ok? {
        IntendedRowsGather(g, tz, sh, o.cur.(row := o.cur.row + 1), acc + [o.answer.value]);
      }
    }
  }

  /**
   * With the reset, a vector of tuples of scalar types that fit the columns
   * holds one tuple per row, row `r`'s tuple being the values of row `r`'s
   * cells, whenever every cell reads successfully.
   */
  lemma IntendedVecOfTuples(g: Grid, tz: Reformat, elems: seq<Shape>)
    requires AllScalar(elems) && |elems| <= NFields(g)
    requires forall r :: 0 <= r < NTuples(g) ==> AllOk(TupleReads(g, tz, elems, 0, Cursor(r, 0)))
    ensures IntendedRows(g, tz, SeqShape(TupleShape(elems)), Cursor(0, 0), []).answer
            == Ok(ListV(seq(NTuples(g), r requires 0 <= r < NTuples(g) && AllOk(TupleReads(g, tz, elems, 0, Cursor(r, 0))) => TupleV(Values(TupleReads(g, tz, elems, 0, Cursor(r, 0)))))))
  {
    var sh := SeqShape(TupleShape(elems));
    var rs := RowReads(g, tz, TupleShape(elems), 0);
    var want := seq(NTuples(g), r requires 0 <= r < NTuples(g) && AllOk(TupleReads(g, tz, elems, 0, Cursor(r, 0))) => TupleV(Values(TupleReads(g, tz, elems, 0, Cursor(r, 0)))));
    forall r | 0 <= r < NTuples(g)
      ensures rs[r] == Ok(want[r])
    {
      TupleOfScalars(g, tz, elems, Cursor(r, 0));
    }
    IntendedRowsGather(g, tz, sh, Cursor(0, 0), []);
    GatherAllOk(rs, []);
    assert Values(rs) == want;
    assert [] + Values(rs) == want;
  }

  // ---------------------------------------------------------------------
  // Structs whose fields are the columns

  /** The result's columns are the struct's fields, by name and in order, and no two fields share a name. */
  predicate InColumnOrder(g: Grid, fields: seq<(string, Shape)>) {
    |fields| == NFields(g)
    && (forall i :: 0 <= i < |fields| ==> g.columns[i].name == fields[i].0)
    && (forall i, j :: 0 <= i < j < |fields| ==> fields[i].0 != fields[j].0)
  }

  predicate ScalarFields(fields: seq<(string, Shape)>) {
    forall i :: 0 <= i < |fields| ==> IsScalar(fields[i].1)
  }

  /** The reads of the fields from `first` on, field `i` at column `i` of row `row`. */
  function FieldReads(g: Grid, tz: Reformat, fields: seq<(string, Shape)>, row: nat, first: nat): (rs: seq<Answer>)
    requires first <= |fields| && ScalarFields(fields)
    ensures |rs| == |fields| - first
  {
    seq(|fields| - first, j requires 0 <= j < |fields| - first => DecodeScalar(g, tz, fields[first + j].1, Cursor(row, first + j)))
  }

  lemma FieldReadsCons(g: Grid, tz: Reformat, fields: seq<(string, Shape)>, row: nat, first: nat)
    requires first < |fields| && ScalarFields(fields)
    ensures var rs := FieldReads(g, tz, fields, row, first);
            rs[0] == DecodeScalar(g, tz, fields[first].1, Cursor(row, first))
            && rs[1..] == FieldReads(g, tz, fields, row, first + 1)
  {
  }

  /** The fields read so far: the values `acc` for the first ones, none for the rest. */
  function Seen(acc: seq<Value>, n: nat): (seen: seq<Option<Value>>)
    requires |acc| <= n
    ensures |seen| == n
  {
    seq(n, j requires 0 <= j < n => if j < |acc| then Some(acc[j]) else None)
  }

  /** The struct visitor's answer: the struct once every field is read, or the failure. */
  function AsStruct(gd: Gathered): Answer {
    match gd
    case AllRead(vs) => Ok(StructV(vs))
    case FailedAt(a) => a
  }

  /** Each column names the field of its own index. */
  lemma ColumnNamesItsField(g: Grid, fields: seq<(string, Shape)>, i: nat)
    requires InColumnOrder(g, fields) && i < |fields|
    ensures FieldIndex(fields, g.columns[i].name) == Some(i)
  {
  }

  /**
   * The column loop over a struct whose fields are the columns in order
   * gathers the field reads from the current column on, and a success ends
   * at the column count, on the same row.
   */
  lemma {:induction false} FieldsGather(g: Grid, tz: Reformat, sh: Shape, c: Cursor, acc: seq<Value>)
    requires sh.StructShape? && InColumnOrder(g, sh.fields) && ScalarFields(sh.fields)
    requires |acc| == c.col <= |sh.fields|
    ensures var r := DecodeFields(g, tz, sh, c, Seen(acc, |sh.fields|));
            r.answer == AsStruct(Gather(FieldReads(g, tz, sh.fields, c.row, c.col), acc))
            && (r.answer.Ok? ==> r.cur == Cursor(c.row, NFields(g)))
    decreases |sh.fields| - c.col
  {
    var n := |sh.fields|;
    var seen := Seen(acc, n);
    if c.col < n {
      ColumnNamesItsField(g, sh.fields, c.col);
      FieldReadsCons(g, tz, sh.fields, c.row, c.col);
      var e := sh.fields[c.col].1;
      ScalarStays(g, tz, e, c);
      var a := DecodeScalar(g, tz, e, c);
      assert seen[c.col] == None;
      if a.Ok? {
        assert seen[c.col := Some(a.value)] == Seen(acc + [a.value], n);
        FieldsGather(g, tz, sh, Cursor(c.row, c.col + 1), acc + [a.value]);
      }
    } else {
      AllSeenEnd(sh.fields, acc);
    }
  }

  /** Once every field has been read, the struct holds the values read, in field order. */
  lemma AllSeenEnd(fields: seq<(string, Shape)>, acc: seq<Value>)
    requires |acc| == |fields|
    ensures StructEnd(fields, Seen(acc, |fields|)) == Ok(StructV(acc))
  {
    var seen := Seen(acc, |fields|);
    assert forall j :: 0 <= j < |fields| ==> Present(seen)[j];
    assert FirstMissing(fields, Present(seen)) == None;
    assert FieldValues(seen) == acc;
  }

  /**
   * A struct whose fields are the result's columns, in order and with
   * scalar types, reads field `i` from column `i` of the cursor's row: it
   * succeeds exactly when every read does, with the fields' values in
   * order, and otherwise gives the first failing read. Where the read
   * starts within the row does not matter.
   */
  lemma StructInColumnOrder(g: Grid, tz: Reformat, fields: seq<(string, Shape)>, c: Cursor)
    requires InColumnOrder(g, fields) && ScalarFields(fields)
    ensures var r := Decode(g, tz, StructShape(fields), c);
            var rs := FieldReads(g, tz, fields, c.row, 0);
            (r.answer.Ok? <==> AllOk(rs))
            && (r.answer.Ok? ==> r.answer.value == StructV(Values(rs)) && r.cur == Cursor(c.row, NFields(g)))
            && (!AllOk(rs) ==> exists k :: FirstFailure(rs, k) && r.answer == rs[k])
  {
    var rs := FieldReads(g, tz, fields, c.row, 0);
    assert seq(|fields|, _ => None) == Seen([], |fields|);
    FieldsGather(g, tz, StructShape(fields), c.(col := 0), []);
    GatherAllOk(rs, []);
    if AllOk(rs) {
      assert [] + Values(rs) == Values(rs);
    } else {
      GatherFails(rs, []);
    }
  }

  /** The struct reads of every row from `start` on. */
  function StructRows(g: Grid, tz: Reformat, fields: seq<(string, Shape)>, start: nat): (rs: seq<Answer>)
    ensures |rs| == Left(NTuples(g), start)
  {
    seq(Left(NTuples(g), start), i requires 0 <= i => Decode(g, tz, StructShape(fields), Cursor(start + i, 0)).answer)
  }

  lemma {:induction false} StructRowsGather(g: Grid, tz: Reformat, sh: Shape, c: Cursor, acc: seq<Value>)
    requires sh.SeqShape? && sh.elem.StructShape? && InColumnOrder(g, sh.elem.fields) && ScalarFields(sh.elem.fields)
    ensures DecodeRows(g, tz, sh, c, acc).answer == AsList(Gather(StructRows(g, tz, sh.elem.fields, c.row), acc))
    decreases Left(NTuples(g), c.row)
  {
    if c.row < NTuples(g) {
      var rs := StructRows(g, tz, sh.elem.fields, c.row);
      assert rs[1..] == StructRows(g, tz, sh.elem.fields, c.row + 1);
      StructAndMapIgnoreColumn(g, tz, sh.elem, c, 0);
      StructInColumnOrder(g, tz, sh.elem.fields, c);
      var o := Decode(g, tz, sh.elem, c);
      assert rs[0] == o.answer;
      if o.answer.Ok? {
        StructRowsGather(g, tz, sh, Cursor(c.row + 1, NFields(g)), acc + [o.answer.value]);
      }
    }
  }

  /**
   * A vector of such structs holds one struct per row, row `r`'s struct
   * being the values of row `r`'s cells, whenever every cell reads
   * successfully: each struct read starts again at the first column.
   */
  lemma VecOfStructs(g: Grid, tz: Reformat, fields: seq<(string, Shape)>)
    requires InColumnOrder(g, fields) && ScalarFields(fields)
    requires forall r :: 0 <= r < NTuples(g) ==> AllOk(FieldReads(g, tz, fields, r, 0))
    ensures FromResult(g, tz, SeqShape(StructShape(fields)))
            == Ok(ListV(seq(NTuples(g), r requires 0 <= r < NTuples(g) && AllOk(FieldReads(g, tz, fields, r, 0)) => StructV(Values(FieldReads(g, tz, fields, r, 0))))))
  {
    var sh := SeqShape(StructShape(fields));
    var rs := StructRows(g, tz, fields, 0);
    var want := seq(NTuples(g), r requires 0 <= r < NTuples(g) && AllOk(FieldReads(g, tz, fields, r, 0)) => StructV(Values(FieldReads(g, tz, fields, r, 0))));
    forall r | 0 <= r < NTuples(g)
      ensures rs[r] == Ok(want[r])
    {
      StructInColumnOrder(g, tz, fields, Cursor(r, 0));
    }
    StructRowsGather(g, tz, sh, Cursor(0, 0), []);
    GatherAllOk(rs, []);
    assert Values(rs) == want;
    assert [] + Values(rs) == want;
  }

  // ---------------------------------------------------------------------
  // Structs whose fields the columns name, in any order

  /** The first column at or after `k` called `name`. */
  function ColumnFrom(g: Grid, name: string, k: nat): (r: Option<nat>)
    requires k <= NFields(g)
    ensures r.Some? ==> k <= r.value < NFields(g) && g.columns[r.value].name == name
    ensures r.None? ==> forall j :: k <= j < NFields(g) ==> g.columns[j].name != name
    decreases NFields(g) - k
  {
    if k == NFields(g) then None
    else if g.columns[k].name == name then Some(k)
    else ColumnFrom(g, name, k + 1)
  }

  /** The column called `name`, if any. */
  function ColumnIndex(g: Grid, name: string): (r: Option<nat>)
    ensures r.Some? ==> r.value < NFields(g) && g.columns[r.value].name == name
    ensures r.None? ==> forall j :: 0 <= j < NFields(g) ==> g.columns[j].name != name
  {
    ColumnFrom(g, name, 0)
  }

  /** Every column names a field, and no two columns and no two fields share a name. */
  predicate ByName(g: Grid, fields: seq<(string, Shape)>) {
    (forall i, j :: 0 <= i < j < |fields| ==> fields[i].0 != fields[j].0)
    && (forall i, j :: 0 <= i < j < NFields(g) ==> g.columns[i].name != g.columns[j].name)
    && (forall k :: 0 <= k < NFields(g) ==> FieldIndex(fields, g.columns[k].name).Some?)
  }

  /** With distinct column names, the column a column's name finds is that column. */
  lemma ColumnIndexOfColumn(g: Grid, fields: seq<(string, Shape)>, k: nat)
    requires ByName(g, fields) && k < NFields(g)
    ensures ColumnIndex(g, g.columns[k].name) == Some(k)
  {
    assert ColumnIndex(g, g.columns[k].name).Some?;
  }

  /** The field that column `k` names. */
  function FieldOf(g: Grid, fields: seq<(string, Shape)>, k: nat): (i: nat)
    requires ByName(g, fields) && k < NFields(g)
    ensures i < |fields| && fields[i].0 == g.columns[k].name
  {
    FieldIndex(fields, g.columns[k].name).value
  }

  /** The column loop's reads from column `first` on: each cell as the type of the field its column names. */
  function NamedReads(g: Grid, tz: Reformat, fields: seq<(string, Shape)>, row: nat, first: nat): (rs: seq<Answer>)
    requires ByName(g, fields) && ScalarFields(fields) && first <= NFields(g)
    ensures |rs| == NFields(g) - first
  {
    seq(NFields(g) - first, j requires 0 <= j < NFields(g) - first =>
          DecodeScalar(g, tz, fields[FieldOf(g, fields, first + j)].1, Cursor(row, first + j)))
  }

  lemma NamedReadsCons(g: Grid, tz: Reformat, fields: seq<(string, Shape)>, row: nat, first: nat)
    requires ByName(g, fields) && ScalarFields(fields) && first < NFields(g)
    ensures var rs := NamedReads(g, tz, fields, row, first);
            rs[0] == DecodeScalar(g, tz, fields[FieldOf(g, fields, first)].1, Cursor(row, first))
            && rs[1..] == NamedReads(g, tz, fields, row, first + 1)
  {
    var rs := NamedReads(g, tz, fields, row, first);
    var rest := NamedReads(g, tz, fields, row, first + 1);
    forall j | 0 <= j < |rest|
      ensures rs[1..][j] == rest[j]
    {
      assert first + (j + 1) == (first + 1) + j;
    }
  }

  /** The fields read once the columns before `|vs|` gave the values `vs`: each holds its column's value. */
  function SeenByName(g: Grid, fields: seq<(string, Shape)>, vs: seq<Value>): (seen: seq<Option<Value>>)
    ensures |seen| == |fields|
  {
    seq(|fields|, i requires 0 <= i < |fields| =>
          match ColumnIndex(g, fields[i].0)
          case Some(k) => if k < |vs| then Some(vs[k]) else None
          case None => None)
  }

  /** Which fields a column names. */
  function Named(g: Grid, fields: seq<(string, Shape)>): (named: seq<bool>)
    ensures |named| == |fields| && forall i :: 0 <= i < |fields| ==> named[i] == ColumnIndex(g, fields[i].0).Some?
  {
    seq(|fields|, i requires 0 <= i < |fields| => ColumnIndex(g, fields[i].0).Some?)
  }

  function AsNamedStruct(g: Grid, fields: seq<(string, Shape)>, gd: Gathered): Answer {
    match gd
    case AllRead(vs) => StructEnd(fields, SeenByName(g, fields, vs))
    case FailedAt(a) => a
  }

  /** Reading column `|vs|`: the field it names is not read yet, and then holds the value read. */
  lemma SeenByNameStep(g: Grid, fields: seq<(string, Shape)>, vs: seq<Value>, v: Value)
    requires ByName(g, fields) && |vs| < NFields(g)
    ensures var i := FieldOf(g, fields, |vs|);
            SeenByName(g, fields, vs)[i] == None
            && SeenByName(g, fields, vs)[i := Some(v)] == SeenByName(g, fields, vs + [v])
  {
    var k := |vs|;
    var i := FieldOf(g, fields, k);
    ColumnIndexOfColumn(g, fields, k);
    var before := SeenByName(g, fields, vs)[i := Some(v)];
    var after := SeenByName(g, fields, vs + [v]);
    forall j | 0 <= j < |fields|
      ensures before[j] == after[j]
    {
      if j != i {
        assert fields[j].0 != fields[i].0;
      }
    }
  }

  /** At the end of the columns, the fields read are those a column names. */
  lemma PresentByName(g: Grid, fields: seq<(string, Shape)>, vs: seq<Value>)
    requires |vs| == NFields(g)
    ensures Present(SeenByName(g, fields, vs)) == Named(g, fields)
  {
  }

  /**
   * The column loop over a struct whose fields the columns name gathers the
   * reads of the columns from the current one on.
   */
  lemma {:induction false} NamedGather(g: Grid, tz: Reformat, sh: Shape, c: Cursor, acc: seq<Value>)
    requires sh.StructShape? && ByName(g, sh.fields) && ScalarFields(sh.fields)
    requires |acc| == c.col <= NFields(g)
    ensures DecodeFields(g, tz, sh, c, SeenByName(g, sh.fields, acc)).answer
            == AsNamedStruct(g, sh.fields, Gather(NamedReads(g, tz, sh.fields, c.row, c.col), acc))
    decreases NFields(g) - c.col
  {
    var fields := sh.fields;
    var rs := NamedReads(g, tz, fields, c.row, c.col);
    if c.col < NFields(g) {
      var a := NamedFieldStep(g, tz, sh, c, acc);
      if a.Ok? {
        NamedGather(g, tz, sh, Cursor(c.row, c.col + 1), acc + [a.value]);
      }
    }
  }

  /** One column of the loop over a struct whose fields the columns name: its read, and where the loop goes on. */
  lemma NamedFieldStep(g: Grid, tz: Reformat, sh: Shape, c: Cursor, acc: seq<Value>) returns (a: Answer)
    requires sh.StructShape? && ByName(g, sh.fields) && ScalarFields(sh.fields)
    requires |acc| == c.col < NFields(g)
    ensures var rs := NamedReads(g, tz, sh.fields, c.row, c.col);
            rs[0] == a && rs[1..] == NamedReads(g, tz, sh.fields, c.row, c.col + 1)
    ensures !a.Ok? ==> DecodeFields(g, tz, sh, c, SeenByName(g, sh.fields, acc)).answer == a
    ensures a.Ok? ==> DecodeFields(g, tz, sh, c, SeenByName(g, sh.fields, acc)).answer
                      == DecodeFields(g, tz, sh, Cursor(c.row, c.col + 1), SeenByName(g, sh.fields, acc + [a.value])).answer
  {
    var fields := sh.fields;
    var i := FieldOf(g, fields, c.col);
    assert FieldIndex(fields, g.columns[c.col].name) == Some(i);
    NamedReadsCons(g, tz, fields, c.row, c.col);
    a := DecodeScalar(g, tz, fields[i].1, c);
    ScalarStays(g, tz, fields[i].1, c);
    SeenByNameStep(g, fields, acc, if a.Ok? then a.value else UnitV);
  }

  /**
   * A struct of scalar fields that the columns name, in any order (no
   * column unknown, no name twice), reads each column's cell as the type of
   * the field the column names. When every read succeeds, each field holds
   * the value read from the column called by its name, and an `Option`
   * field no column names is `None`; a field of another type that no column
   * names is the `MissingField` error. Otherwise the first failing read, in
   * column order, is the answer.
   */
  lemma StructByName(g: Grid, tz: Reformat, fields: seq<(string, Shape)>, c: Cursor)
    requires ByName(g, fields) && ScalarFields(fields)
    ensures var r := Decode(g, tz, StructShape(fields), c).answer;
            var rs := NamedReads(g, tz, fields, c.row, 0);
            var missing := FirstMissing(fields, Named(g, fields));
            (AllOk(rs) && missing.Some? ==> r == Err(MissingField(fields[missing.value].0)))
            && (AllOk(rs) && missing.None? ==>
                  r.Ok? && r.value.StructV? && |r.value.fields| == |fields|
                  && forall i :: 0 <= i < |fields| ==>
                       r.value.fields[i] == match ColumnIndex(g, fields[i].0)
                                            case Some(k) => rs[k].value
                                            case None => NoneV)
            && (!AllOk(rs) ==> exists k :: FirstFailure(rs, k) && r == rs[k])
  {
    var sh := StructShape(fields);
    var rs := NamedReads(g, tz, fields, c.row, 0);
    var r := Decode(g, tz, sh, c).answer;
    assert r == DecodeFields(g, tz, sh, c.(col := 0), SeenByName(g, fields, [])).answer by {
      assert seq(|fields|, _ => None) == SeenByName(g, fields, []);
    }
    NamedGather(g, tz, sh, c.(col := 0), []);
    if AllOk(rs) {
      GatherAllOk(rs, []);
      assert [] + Values(rs) == Values(rs);
      assert r == StructEnd(fields, SeenByName(g, fields, Values(rs)));
      NamedStructFields(g, fields, rs);
    } else {
      GatherFails(rs, []);
    }
  }

  /** The struct built from all column reads holds each field's column value, or `None`; or a field is missing. */
  lemma NamedStructFields(g: Grid, fields: seq<(string, Shape)>, rs: seq<Answer>)
    requires AllOk(rs) && |rs| == NFields(g)
    ensures var r := StructEnd(fields, SeenByName(g, fields, Values(rs)));
            var missing := FirstMissing(fields, Named(g, fields));
            (missing.Some? ==> r == Err(MissingField(fields[missing.value].0)))
            && (missing.None? ==>
                  r.Ok? && r.value.StructV? && |r.value.fields| == |fields|
                  && forall i :: 0 <= i < |fields| ==>
                       r.value.fields[i] == match ColumnIndex(g, fields[i].0)
                                            case Some(k) => rs[k].value
                                            case None => NoneV)
  {
    PresentByName(g, fields, Values(rs));
  }

  /** The struct `{a: i64, b: Option<i64>}` read from one column `a`: `b` is `None`. */
  lemma OptionFieldMissing(g: Grid, tz: Reformat, fields: seq<(string, Shape)>, row: nat, n: int)
    requires fields == [("a", IntShape(I64)), ("b", OptionShape(IntShape(I64)))]
    requires g.columns == [Column("a", Int8Oid, TextFormat)]
    requires CellText(g, Cursor(row, 0)) == Some(DecimalString(n)) && I64Min <= n <= I64Max
    ensures Decode(g, tz, StructShape(fields), Cursor(row, 0)).answer == Ok(StructV([IntV(n), NoneV]))
  {
    assert ByName(g, fields) && ScalarFields(fields) by {
      assert FieldIndex(fields, "a") == Some(0);
    }
    var rs := NamedReads(g, tz, fields, row, 0);
    assert rs == [Ok(IntV(n))] by {
      assert FieldOf(g, fields, 0) == 0;
      IntCellReadsBack(g, Cursor(row, 0), I64, n);
    }
    assert ColumnIndex(g, "a") == Some(0) && ColumnIndex(g, "b") == None;
    assert FirstMissing(fields, Named(g, fields)) == None by {
      assert Named(g, fields) == [true, false];
    }
    StructByName(g, tz, fields, Cursor(row, 0));
    var r := Decode(g, tz, StructShape(fields), Cursor(row, 0)).answer;
    assert r.value.fields == [IntV(n), NoneV];
  }

  // ---------------------------------------------------------------------
  // Maps of scalars

  /** Column `k`'s entry reads: the key and the value, both from the cell of column `k`. */
  predicate EntryOk(g: Grid, tz: Reformat, sh: Shape, row: nat, k: nat)
    requires sh.MapShape? && IsScalar(sh.key) && IsScalar(sh.value)
  {
    DecodeScalar(g, tz, sh.key, Cursor(row, k)).Ok? && DecodeScalar(g, tz, sh.value, Cursor(row, k)).Ok?
  }

  /** The failure of column `k`'s entry: the key's, or else the value's. */
  function EntryFailure(g: Grid, tz: Reformat, sh: Shape, row: nat, k: nat): Answer
    requires sh.MapShape? && IsScalar(sh.key) && IsScalar(sh.value)
  {
    var ka := DecodeScalar(g, tz, sh.key, Cursor(row, k));
    if !ka.Ok? then ka else DecodeScalar(g, tz, sh.value, Cursor(row, k))
  }

  /** Every entry from column `first` on reads. */
  predicate AllEntriesOk(g: Grid, tz: Reformat, sh: Shape, row: nat, first: nat)
    requires sh.MapShape? && IsScalar(sh.key) && IsScalar(sh.value)
  {
    forall k :: first <= k < NFields(g) ==> EntryOk(g, tz, sh, row, k)
  }

  /** Column `k` holds the first entry from column `first` on that fails. */
  predicate FirstBadEntry(g: Grid, tz: Reformat, sh: Shape, row: nat, first: nat, k: nat)
    requires sh.MapShape? && IsScalar(sh.key) && IsScalar(sh.value)
  {
    first <= k < NFields(g) && !EntryOk(g, tz, sh, row, k) && forall j :: first <= j < k ==> EntryOk(g, tz, sh, row, j)
  }

  /** The entries of the columns from `first` on. */
  function Entries(g: Grid, tz: Reformat, sh: Shape, row: nat, first: nat): (es: seq<(Value, Value)>)
    requires sh.MapShape? && IsScalar(sh.key) && IsScalar(sh.value) && first <= NFields(g)
    requires AllEntriesOk(g, tz, sh, row, first)
    ensures |es| == NFields(g) - first
  {
    seq(NFields(g) - first, j requires 0 <= j < NFields(g) - first && EntryOk(g, tz, sh, row, first + j) =>
          (DecodeScalar(g, tz, sh.key, Cursor(row, first + j)).value,
           DecodeScalar(g, tz, sh.value, Cursor(row, first + j)).value))
  }

  /** One turn of the entry loop: the entry of the current column, or its failure. */
  lemma EntryStep(g: Grid, tz: Reformat, sh: Shape, c: Cursor, acc: seq<(Value, Value)>)
    requires sh.MapShape? && IsScalar(sh.key) && IsScalar(sh.value) && c.col < NFields(g)
    ensures EntryOk(g, tz, sh, c.row, c.col) ==>
              DecodeEntries(g, tz, sh, c, acc)
              == DecodeEntries(g, tz, sh, Cursor(c.row, c.col + 1),
                               acc + [(DecodeScalar(g, tz, sh.key, c).value, DecodeScalar(g, tz, sh.value, c).value)])
    ensures !EntryOk(g, tz, sh, c.row, c.col) ==> DecodeEntries(g, tz, sh, c, acc).answer == EntryFailure(g, tz, sh, c.row, c.col)
  {
    ScalarStays(g, tz, sh.key, c);
    ScalarStays(g, tz, sh.value, c);
  }

  lemma EntriesCons(g: Grid, tz: Reformat, sh: Shape, row: nat, first: nat, acc: seq<(Value, Value)>)
    requires sh.MapShape? && IsScalar(sh.key) && IsScalar(sh.value) && first < NFields(g)
    requires AllEntriesOk(g, tz, sh, row, first) && EntryOk(g, tz, sh, row, first)
    ensures acc + Entries(g, tz, sh, row, first)
            == (acc + [(DecodeScalar(g, tz, sh.key, Cursor(row, first)).value, DecodeScalar(g, tz, sh.value, Cursor(row, first)).value)])
               + Entries(g, tz, sh, row, first + 1)
  {
    assert Entries(g, tz, sh, row, first)[1..] == Entries(g, tz, sh, row, first + 1);
  }

  /** The entry loop from the current column on gives the entries of those columns when all of them read. */
  lemma {:induction false} EntriesGather(g: Grid, tz: Reformat, sh: Shape, c: Cursor, acc: seq<(Value, Value)>)
    requires sh.MapShape? && IsScalar(sh.key) && IsScalar(sh.value) && c.col <= NFields(g)
    requires AllEntriesOk(g, tz, sh, c.row, c.col)
    ensures DecodeEntries(g, tz, sh, c, acc).answer == Ok(MapV(acc + Entries(g, tz, sh, c.row, c.col)))
    decreases NFields(g) - c.col
  {
    if c.col < NFields(g) {
      EntryStep(g, tz, sh, c, acc);
      assert EntryOk(g, tz, sh, c.row, c.col);
      var e := (DecodeScalar(g, tz, sh.key, c).value, DecodeScalar(g, tz, sh.value, c).value);
      EntriesGather(g, tz, sh, Cursor(c.row, c.col + 1), acc + [e]);
      EntriesCons(g, tz, sh, c.row, c.col, acc);
    } else {
      assert acc + Entries(g, tz, sh, c.row, c.col) == acc;
    }
  }

  /** Otherwise the entry loop stops at the first column whose entry fails, with that failure. */
  lemma {:induction false} EntriesFail(g: Grid, tz: Reformat, sh: Shape, c: Cursor, acc: seq<(Value, Value)>, k: nat)
    requires sh.MapShape? && IsScalar(sh.key) && IsScalar(sh.value)
    requires FirstBadEntry(g, tz, sh, c.row, c.col, k)
    ensures DecodeEntries(g, tz, sh, c, acc).answer == EntryFailure(g, tz, sh, c.row, k)
    decreases NFields(g) - c.col
  {
    EntryStep(g, tz, sh, c, acc);
    if k > c.col {
      assert EntryOk(g, tz, sh, c.row, c.col);
      var e := (DecodeScalar(g, tz, sh.key, c).value, DecodeScalar(g, tz, sh.value, c).value);
      assert FirstBadEntry(g, tz, sh, c.row, c.col + 1, k);
      EntriesFail(g, tz, sh, Cursor(c.row, c.col + 1), acc + [e], k);
    }
  }

  /**
   * A hash map of scalar keys and values reads every column of the row:
   * the cell of column `k` gives both the key and the value of the `k`th
   * entry. When every read succeeds the entries are those, in column order;
   * otherwise the first failing read, key before value, is the answer.
   */
  lemma MapOfScalars(g: Grid, tz: Reformat, key: Shape, value: Shape, c: Cursor)
    requires IsScalar(key) && IsScalar(value)
    ensures var sh := MapShape(key, value);
            var r := Decode(g, tz, sh, c).answer;
            (AllEntriesOk(g, tz, sh, c.row, 0) ==>
               r.Ok? && r.value.MapV? && |r.value.entries| == NFields(g)
               && forall k :: 0 <= k < NFields(g) ==>
                    EntryOk(g, tz, sh, c.row, k) && r.value.entries[k] == (DecodeScalar(g, tz, key, Cursor(c.row, k)).value,
                                           DecodeScalar(g, tz, value, Cursor(c.row, k)).value))
            && forall k :: FirstBadEntry(g, tz, sh, c.row, 0, k) ==> r == EntryFailure(g, tz, sh, c.row, k)
  {
    var sh := MapShape(key, value);
    forall k | FirstBadEntry(g, tz, sh, c.row, 0, k)
      ensures Decode(g, tz, sh, c).answer == EntryFailure(g, tz, sh, c.row, k)
    {
      EntriesFail(g, tz, sh, c.(col := 0), [], k);
    }
    if AllEntriesOk(g, tz, sh, c.row, 0) {
      EntriesGather(g, tz, sh, c.(col := 0), []);
      assert [] + Entries(g, tz, sh, c.row, 0) == Entries(g, tz, sh, c.row, 0);
    }
  }

  // ---------------------------------------------------------------------
  // The key of a map entry

  /**
   * As written, the key of an entry is read from the cell, not from the
   * column's name: a `HashMap<String, String>` over columns `a` and `b`
   * whose row holds `x` and `y` maps `x` to `x` and `y` to `y`.
   */
  lemma MapKeyIsCellText(g: Grid, tz: Reformat, t: Oid)
    requires t != TimestamptzOid && g.columns == [Column("a", t, TextFormat), Column("b", t, TextFormat)]
    requires |g.rows| > 0 && g.rows[0] == [Some(Utf8.Encode("x")), Some(Utf8.Encode("y"))]
    ensures FromResult(g, tz, MapShape(StringShape, StringShape)) == Ok(MapV([(StrV("x"), StrV("x")), (StrV("y"), StrV("y"))]))
  {
    var sh := MapShape(StringShape, StringShape);
    Utf8.DecodeEncode("x");
    Utf8.DecodeEncode("y");
    StringUnchanged(g, tz, Cursor(0, 0), Utf8.Encode("x"), "x");
    StringUnchanged(g, tz, Cursor(0, 1), Utf8.Encode("y"), "y");
    assert EntryOk(g, tz, sh, 0, 0) && EntryOk(g, tz, sh, 0, 1);
    MapOfScalars(g, tz, StringShape, StringShape, Cursor(0, 0));
    var r := FromResult(g, tz, sh);
    assert r.value.entries == [(StrV("x"), StrV("x")), (StrV("y"), StrV("y"))];
  }

  /** A one-cell result holding `name`: what the key is read from when it is the column's name. */
  function NameCell(name: string): (g: Grid)
    ensures NFields(g) == 1 && CellText(g, Cursor(0, 0)) == Utf8.Decode(Utf8.Encode(name))
  {
    Grid([Column(name, 0, TextFormat)], [[Some(Utf8.Encode(name))]])
  }

  /**
   * The entry loop with the key each column evidently stands for: the
   * column's name, read as the key type; the value is read as written.
   */
  function IntendedDecodeEntries(g: Grid, tz: Reformat, sh: Shape, c: Cursor, acc: seq<(Value, Value)>): (r: Outcome)
    requires sh.MapShape?
    ensures r.answer.Ok? ==> r.cur.col >= NFields(g)
    decreases Left(NFields(g), c.col)
  {
    if c.col < NFields(g) then
      var ko := Decode(NameCell(g.columns[c.col].name), tz, sh.key, Cursor(0, 0));
      match ko.answer
      case Ok(k) =>
        var vo := Decode(g, tz, sh.value, c);
        var next := vo.cur.(col := vo.cur.col + 1);
        (match vo.answer
         case Ok(v) => IntendedDecodeEntries(g, tz, sh, next, acc + [(k, v)])
         case Err(e) => Outcome(Err(e), next)
         case Panic => Outcome(Panic, vo.cur))
      case Err(e) => Outcome(Err(e), c)
      case Panic => Outcome(Panic, c)
    else Outcome(Ok(MapV(acc)), c)
  }

  /** A string key read from the name cell is the column's name. */
  lemma NameKey(name: string, tz: Reformat)
    ensures Decode(NameCell(name), tz, StringShape, Cursor(0, 0)) == Outcome(Ok(StrV(name)), Cursor(0, 0))
  {
    Utf8.DecodeEncode(name);
    StringUnchanged(NameCell(name), tz, Cursor(0, 0), Utf8.Encode(name), name);
  }

  /** Every value from column `first` on reads. */
  predicate ValuesOk(g: Grid, tz: Reformat, value: Shape, row: nat, first: nat)
    requires IsScalar(value)
  {
    forall k :: first <= k < NFields(g) ==> DecodeScalar(g, tz, value, Cursor(row, k)).Ok?
  }

  /** The entries the corrected loop builds from column `first` on: each column's name, and its cell's value. */
  function NameEntries(g: Grid, tz: Reformat, value: Shape, row: nat, first: nat): (es: seq<(Value, Value)>)
    requires IsScalar(value) && first <= NFields(g) && ValuesOk(g, tz, value, row, first)
    ensures |es| == NFields(g) - first
    decreases NFields(g) - first
  {
    if first == NFields(g) then []
    else
      assert DecodeScalar(g, tz, value, Cursor(row, first)).Ok?;
      [(StrV(g.columns[first].name), DecodeScalar(g, tz, value, Cursor(row, first)).value)]
      + NameEntries(g, tz, value, row, first + 1)
  }

  /** One turn of the corrected loop with string keys and a value that reads. */
  lemma IntendedEntryStep(g: Grid, tz: Reformat, value: Shape, c: Cursor, acc: seq<(Value, Value)>)
    requires IsScalar(value) && c.col < NFields(g) && DecodeScalar(g, tz, value, c).Ok?
    ensures IntendedDecodeEntries(g, tz, MapShape(StringShape, value), c, acc)
            == IntendedDecodeEntries(g, tz, MapShape(StringShape, value), Cursor(c.row, c.col + 1),
                                     acc + [(StrV(g.columns[c.col].name), DecodeScalar(g, tz, value, c).value)])
  {
    var name := g.columns[c.col].name;
    var v := DecodeScalar(g, tz, value, c).value;
    NameKey(name, tz);
    ScalarStays(g, tz, value, c);
    var sh := MapShape(StringShape, value);
    assert Decode(NameCell(name), tz, sh.key, Cursor(0, 0)).answer == Ok(StrV(name));
    assert Decode(g, tz, sh.value, c) == Outcome(Ok(v), c);
  }

  /**
   * Corrected: with string keys, the entries from the current column on
   * map each column's name to the value read from its cell, when every
   * value reads.
   */
  lemma {:induction false} IntendedEntriesByName(g: Grid, tz: Reformat, value: Shape, c: Cursor, acc: seq<(Value, Value)>)
    requires IsScalar(value) && c.col <= NFields(g) && ValuesOk(g, tz, value, c.row, c.col)
    ensures IntendedDecodeEntries(g, tz, MapShape(StringShape, value), c, acc).answer
            == Ok(MapV(acc + NameEntries(g, tz, value, c.row, c.col)))
    decreases NFields(g) - c.col
  {
    if c.col < NFields(g) {
      assert DecodeScalar(g, tz, value, c).Ok?;
      IntendedEntryStep(g, tz, value, c, acc);
      var e := (StrV(g.columns[c.col].name), DecodeScalar(g, tz, value, c).value);
      IntendedEntriesByName(g, tz, value, Cursor(c.row, c.col + 1), acc + [e]);
      assert acc + NameEntries(g, tz, value, c.row, c.col) == (acc + [e]) + NameEntries(g, tz, value, c.row, c.col + 1);
    } else {
      assert acc + NameEntries(g, tz, value, c.row, c.col) == acc;
    }
  }

  /** Corrected: the same two columns give the map from `a` to `x` and from `b` to `y`. */
  lemma IntendedMapKeyIsName(g: Grid, tz: Reformat, t: Oid)
    requires t != TimestamptzOid && g.columns == [Column("a", t, TextFormat), Column("b", t, TextFormat)]
    requires |g.rows| > 0 && g.rows[0] == [Some(Utf8.Encode("x")), Some(Utf8.Encode("y"))]
    ensures IntendedDecodeEntries(g, tz, MapShape(StringShape, StringShape), Cursor(0, 0), []).answer
            == Ok(MapV([(StrV("a"), StrV("x")), (StrV("b"), StrV("y"))]))
  {
    Utf8.DecodeEncode("x");
    Utf8.DecodeEncode("y");
    StringUnchanged(g, tz, Cursor(0, 0), Utf8.Encode("x"), "x");
    StringUnchanged(g, tz, Cursor(0, 1), Utf8.Encode("y"), "y");
    IntendedEntriesByName(g, tz, StringShape, Cursor(0, 0), []);
    assert [] + NameEntries(g, tz, StringShape, 0, 0) == [(StrV("a"), StrV("x")), (StrV("b"), StrV("y"))];
  }
}
