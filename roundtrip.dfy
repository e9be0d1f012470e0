/**
 * Parameters sent by `query!` and read back by `from_result`, through a
 * server that echoes them (`SELECT $1, $2, ...`). The server reads each
 * text-format parameter as a C string, up to its first 0 byte, and sends
 * its text back in one text-format column of the parameter's type.
 */
module RoundTrip {

  import opened Wrappers
  import opened Text
  import Utf8
  import opened SqlParams
  import opened Deserialize

  /** The bytes of a C string: everything before the first 0 byte. */
  function CString(v: seq<Utf8.byte>): (t: seq<Utf8.byte>)
    ensures |t| <= |v| && t == v[..|t|] && 0 !in t
    ensures |t| < |v| ==> v[|t|] == 0
    decreases |v|
  {
    if v == [] || v[0] == 0 then [] else [v[0]] + CString(v[1..])
  }

  /** A byte string without 0 bytes, terminated by one, is read back whole. */
  lemma {:induction false} CStringOfTerminated(b: seq<Utf8.byte>)
    requires 0 !in b
    ensures CString(b + [0]) == b
    decreases |b|
  {
    if b != [] {
      assert (b + [0])[1..] == b[1..] + [0];
      CStringOfTerminated(b[1..]);
    }
  }

  /** The result of echoing the parameters: one column per parameter, and one row. */
  function Echo(a: QueryArgs): (g: Grid)
    requires |a.types| == |a.values|
    ensures NFields(g) == |a.types| && NTuples(g) == 1 && |g.rows[0]| == |a.values|
  {
    Grid(seq(|a.types|, i requires 0 <= i < |a.types| => Column("?column?", a.types[i], TextFormat)),
         [seq(|a.values|, i requires 0 <= i < |a.values| =>
            match a.values[i] case None => None case Some(v) => Some(CString(v)))])
  }

  /**
   * The largest integer a column of this type holds: the server refuses to
   * read a larger parameter of the type (`smallint`, `integer`, `bigint`).
   */
  function ServerMax(oid: Oid): (m: int)
    ensures oid == Int2Oid ==> m == 0x7FFF
    ensures oid == Int4Oid ==> m == 0x7FFF_FFFF
    ensures m <= I64Max
  {
    if oid == Int2Oid then 0x7FFF else if oid == Int4Oid then 0x7FFF_FFFF else I64Max
  }

  /**
   * The parameters the echo gives back exactly: integers the server's column
   * type holds, and strings without U+0000.
   */
  predicate Echoes(p: Param) {
    Valid(p) && match p
                case Str(s) => '\0' !in s
                case Int(_, n) => n <= ServerMax(TypeOid(p))
  }

  /** An integer is echoed exactly when it fits the signed column of its width: only large `u16`, `u32` and `u64` are refused. */
  lemma EchoesSigned(k: IntKind, n: int)
    requires MinOf(k) <= n <= MaxOf(k)
    ensures Echoes(Int(k, n)) <==> match k
                                   case U16 => n <= 0x7FFF
                                   case U32 => n <= 0x7FFF_FFFF
                                   case U64 => n <= I64Max
                                   case _ => true
  {
  }

  /** The type a caller reads a parameter back as. */
  function ShapeOf(p: Param): (sh: Shape)
    ensures IsScalar(sh)
  {
    match p
    case Str(_) => StringShape
    case Int(k, _) => IntShape(k)
  }

  /** The value a parameter stands for. */
  function ValueOf(p: Param): Value {
    match p
    case Str(s) => StrV(s)
    case Int(_, n) => IntV(n)
  }

  /** The cell of parameter `i` holds the UTF-8 bytes of its text, without the terminating 0. */
  lemma EchoCell(params: seq<Param>, i: nat)
    requires i < |params| && (params[i].Str? ==> '\0' !in params[i].text)
    ensures var g := Echo(QueryArgsOf(params));
            FieldFormat(g, i) == TextFormat && FieldType(g, i) == TypeOid(params[i])
            && CellText(g, Cursor(0, i)) == Some(TextOf(params[i]))
  {
    var p := params[i];
    var a := QueryArgsOf(params);
    assert Entry(a, i) == (TypeOid(p), SqlParams.Value(p), TextFormat);
    var t := TextOf(p);
    Utf8.EncodeZero(t);
    if p.Int? {
      DecimalHasNoNul(p.n);
    }
    CStringOfTerminated(Utf8.Encode(t));
    Utf8.DecodeEncode(t);
  }

  /** A cell holding a parameter's text, in a column of the parameter's type, reads back as the parameter's value. */
  lemma TextReadsBack(g: Grid, tz: Reformat, p: Param, c: Cursor)
    requires Echoes(p) && FieldFormat(g, c.col) == TextFormat && FieldType(g, c.col) == TypeOid(p)
    requires CellText(g, c) == Some(TextOf(p))
    ensures DecodeScalar(g, tz, ShapeOf(p), c) == Ok(ValueOf(p))
  {
    match p
    case Int(k, n) =>
      RangeWithinI64(k);
      IntCellReadsBack(g, c, k, n);
    case Str(s) =>
      StringUnchanged(g, tz, c, CellValue(g, c.row, c.col).value, s);
  }

  /** Parameter `i`, read back at its own column as the type it was sent as, is the value sent. */
  lemma EchoReadsBack(params: seq<Param>, i: nat, tz: Reformat)
    requires i < |params| && Echoes(params[i])
    ensures DecodeScalar(Echo(QueryArgsOf(params)), tz, ShapeOf(params[i]), Cursor(0, i)) == Ok(ValueOf(params[i]))
  {
    EchoCell(params, i);
    TextReadsBack(Echo(QueryArgsOf(params)), tz, params[i], Cursor(0, i));
  }

  function ShapesOf(params: seq<Param>): (shs: seq<Shape>)
    ensures |shs| == |params| && forall i :: 0 <= i < |params| ==> shs[i] == ShapeOf(params[i])
  {
    seq(|params|, i requires 0 <= i < |params| => ShapeOf(params[i]))
  }

  function ValuesOf(params: seq<Param>): (vs: seq<Value>)
    ensures |vs| == |params| && forall i :: 0 <= i < |params| ==> vs[i] == ValueOf(params[i])
  {
    seq(|params|, i requires 0 <= i < |params| => ValueOf(params[i]))
  }

  /** Every parameter reads back from its own column of the echoed row. */
  lemma EchoRowReadsBack(params: seq<Param>, tz: Reformat)
    requires forall i :: 0 <= i < |params| ==> Echoes(params[i])
    ensures forall j :: 0 <= j < |params| ==>
              DecodeScalar(Echo(QueryArgsOf(params)), tz, ShapesOf(params)[j], Cursor(0, j)) == Ok(ValuesOf(params)[j])
  {
    forall j | 0 <= j < |params|
      ensures DecodeScalar(Echo(QueryArgsOf(params)), tz, ShapesOf(params)[j], Cursor(0, j)) == Ok(ValuesOf(params)[j])
    {
      EchoReadsBack(params, j, tz);
    }
  }

  /**
   * Round trip: echoing any list of such parameters and reading the result
   * back as the tuple of their types gives the values sent, in order.
   */
  lemma TupleRoundTrip(params: seq<Param>, tz: Reformat)
    requires forall i :: 0 <= i < |params| ==> Echoes(params[i])
    ensures FromResult(Echo(QueryArgsOf(params)), tz, TupleShape(ShapesOf(params))) == Ok(TupleV(ValuesOf(params)))
  {
    var g := Echo(QueryArgsOf(params));
    EchoRowReadsBack(params, tz);
    EchoedTuple(g, tz, params);
  }

  /** A grid whose first row reads back each parameter in its own column gives the tuple of their values. */
  lemma EchoedTuple(g: Grid, tz: Reformat, params: seq<Param>)
    requires NFields(g) == |params|
    requires forall j :: 0 <= j < |params| ==> DecodeScalar(g, tz, ShapesOf(params)[j], Cursor(0, j)) == Ok(ValuesOf(params)[j])
    ensures FromResult(g, tz, TupleShape(ShapesOf(params))) == Ok(TupleV(ValuesOf(params)))
  {
    TupleOfValues(g, tz, ShapesOf(params), ValuesOf(params));
  }

  /** Round trip of one parameter read back as a scalar. */
  lemma ScalarRoundTrip(p: Param, tz: Reformat)
    requires Echoes(p)
    ensures FromResult(Echo(QueryArgsOf([p])), tz, ShapeOf(p)) == Ok(ValueOf(p))
  {
    EchoReadsBack([p], 0, tz);
  }
}
