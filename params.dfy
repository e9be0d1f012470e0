/**
 * Query parameters of the Postgres client: each built-in parameter type
 * maps a value to a type OID, an optional byte string and a wire format,
 * and the `query!` macro lays the parameters out as three parallel arrays.
 */
module SqlParams {

  import opened Wrappers
  import opened Text
  import opened Utf8

  /** OIDs of the PostgreSQL built-in types, as the `pg_type` catalog numbers them. */
  type Oid = nat

  const Int8Oid: Oid := 20
  const Int2Oid: Oid := 21
  const Int4Oid: Oid := 23
  const CStringOid: Oid := 2275

  /** libpq's `Format`. */
  datatype Format = TextFormat | BinaryFormat

  /** The Rust integer types with a `SqlParam` implementation. */
  datatype IntKind = U8 | U16 | U32 | U64 | I8 | I16 | I32 | I64

  function Bits(k: IntKind): nat {
    match k
    case U8 => 8 case I8 => 8
    case U16 => 16 case I16 => 16
    case U32 => 32 case I32 => 32
    case U64 => 64 case I64 => 64
  }

  /** `MIN` of the integer type. */
  function MinOf(k: IntKind): int {
    match k
    case U8 => 0 case U16 => 0 case U32 => 0 case U64 => 0
    case I8 => -0x80 case I16 => -0x8000 case I32 => -0x8000_0000 case I64 => I64Min
  }

  /** `MAX` of the integer type. */
  function MaxOf(k: IntKind): int {
    match k
    case U8 => 0xFF case U16 => 0xFFFF case U32 => 0xFFFF_FFFF case U64 => U64Max
    case I8 => 0x7F case I16 => 0x7FFF case I32 => 0x7FFF_FFFF case I64 => I64Max
  }

  /** Every type but `u64` lies within the range of `i64`. */
  lemma RangeWithinI64(k: IntKind)
    ensures I64Min <= MinOf(k) && MaxOf(k) <= U64Max
    ensures k != U64 ==> MaxOf(k) <= I64Max
  {
  }

  /** A parameter passed to `query!`: a string slice or an integer of one of the eight types. */
  datatype Param = Str(text: string) | Int(kind: IntKind, n: int)

  /** The integer fits its Rust type. */
  predicate Valid(p: Param) {
    p.Int? ==> MinOf(p.kind) <= p.n <= MaxOf(p.kind)
  }

  /** `SqlParam::type`. */
  function TypeOid(p: Param): (oid: Oid)
    ensures p.Str? ==> oid == CStringOid
    ensures p.Int? && Bits(p.kind) <= 16 ==> oid == Int2Oid
    ensures p.Int? && Bits(p.kind) == 32 ==> oid == Int4Oid
    ensures p.Int? && Bits(p.kind) == 64 ==> oid == Int8Oid
  {
    match p
    case Str(_) => CStringOid
    case Int(k, _) =>
      match k
      case U8 => Int2Oid case U16 => Int2Oid case U32 => Int4Oid case U64 => Int8Oid
      case I8 => Int2Oid case I16 => Int2Oid case I32 => Int4Oid case I64 => Int8Oid
  }

  /** The text a parameter stands for: the string itself, or the integer's `to_string()`. */
  function TextOf(p: Param): (t: string)
    ensures p.Str? ==> t == p.text
    ensures p.Int? ==> IsIntegerText(t) && IntegerValue(t) == p.n
  {
    match p
    case Str(s) => s
    case Int(_, n) => DecimalString(n)
  }

  /** `SqlParam::value`: the UTF-8 bytes of the text with one 0 byte pushed after them. */
  function Value(p: Param): (v: Option<seq<byte>>)
    ensures v.Some? && |v.value| > 0 && v.value[|v.value| - 1] == 0
  {
    Some(Encode(TextOf(p)) + [0])
  }

  /** The bytes of a value before its final 0. */
  function Body(v: seq<byte>): (b: seq<byte>)
    requires |v| > 0
    ensures v == b + [v[|v| - 1]]
  {
    v[..|v| - 1]
  }

  /**
   * The bytes before the pushed 0 decode back to the parameter's text, and
   * that 0 is the only one unless the text itself holds U+0000.
   */
  lemma ValueRoundTrip(p: Param)
    ensures Decode(Body(Value(p).value)) == Some(TextOf(p))
    ensures 0 in Body(Value(p).value) <==> '\0' in TextOf(p)
  {
    var body := Encode(TextOf(p));
    DecodeEncode(TextOf(p));
    EncodeZero(TextOf(p));
    assert Body(body + [0]) == body;
  }

  /** `SqlParam::format`. */
  function FormatOf(p: Param): Format {
    TextFormat
  }

  /** The decimal text of an integer never holds U+0000. */
  lemma DecimalHasNoNul(n: int)
    ensures '\0' !in DecimalString(n)
  {
    var s := DecimalString(n);
    if n < 0 {
      assert forall i :: 1 <= i < |s| ==> s[i] == NatString(-n)[i - 1];
    }
  }

  /** So an integer's value has exactly one 0 byte, at the end. */
  lemma IntValueSingleNul(k: IntKind, n: int)
    ensures var v := Value(Int(k, n)).value; forall i :: 0 <= i < |v| - 1 ==> v[i] != 0
  {
    var v := Value(Int(k, n)).value;
    ValueRoundTrip(Int(k, n));
    DecimalHasNoNul(n);
    forall i | 0 <= i < |v| - 1 ensures v[i] != 0 {
      assert v[i] == Body(v)[i];
    }
  }

  /** The three arrays `query!` passes to `query`. */
  datatype QueryArgs = QueryArgs(types: seq<Oid>, values: seq<Option<seq<byte>>>, formats: seq<Format>)

  /** The type, value and format of the `i`-th parameter. */
  function Entry(a: QueryArgs, i: nat): (Oid, Option<seq<byte>>, Format)
    requires i < |a.types| && i < |a.values| && i < |a.formats|
  {
    (a.types[i], a.values[i], a.formats[i])
  }

  /**
   * The `query!` expansion over a list of parameters: with none, three empty
   * arrays; otherwise one entry per parameter in each array, in argument
   * order, and every entry a non-NULL text-format value.
   */
  function QueryArgsOf(params: seq<Param>): (a: QueryArgs)
    ensures |a.types| == |params| && |a.values| == |params| && |a.formats| == |params|
    ensures forall i :: 0 <= i < |params| ==> Entry(a, i) == (TypeOid(params[i]), Value(params[i]), TextFormat)
    decreases |params|
  {
    if params == [] then QueryArgs([], [], [])
    else
      var rest := QueryArgsOf(params[1..]);
      var a := QueryArgs([TypeOid(params[0])] + rest.types, [Value(params[0])] + rest.values,
                         [FormatOf(params[0])] + rest.formats);
      assert forall i :: 1 <= i < |params| ==> params[i] == params[1..][i - 1] && Entry(a, i) == Entry(rest, i - 1);
      a
  }
}
