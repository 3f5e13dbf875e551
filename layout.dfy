/**
 * The record layouts of the STDF V4 format as data: the field kinds the decoder
 * distinguishes, the values a field can hold, and one ordered schema per supported
 * record kind, taken from the Go struct declarations in declaration order.
 */
module Layout {
  import opened Bytes
  import opened Wrappers

  /** The Go field types the decoder switches on (`Basic` is the embedded `BasicRecordType`). */
  datatype FieldKind = Basic | U1 | U2 | U4 | C1 | CN | KXU1

  /** The four-byte record header: payload length, record type and record sub-type. */
  datatype RecordHeader = RecordHeader(recLen: u16, recType: byte, recSub: byte)

  /** The value held by one struct field. */
  datatype Value =
    | HeaderValue(header: RecordHeader)
    | U1Value(u1: byte)
    | U2Value(u2: u16)
    | U4Value(u4: u32)
    | C1Value(c1: byte)
    | CNValue(cn: seq<byte>)
    | KXU1Value(kx: seq<byte>)

  function KindOf(v: Value): (k: FieldKind)
  {
    match v
    case HeaderValue(_) => Basic
    case U1Value(_) => U1
    case U2Value(_) => U2
    case U4Value(_) => U4
    case C1Value(_) => C1
    case CNValue(_) => CN
    case KXU1Value(_) => KXU1
  }

  /** Go's zero value of a field of kind k (a nil slice for CN and KXU1). */
  function Zero(k: FieldKind): (v: Value)
    ensures KindOf(v) == k
  {
    match k
    case Basic => HeaderValue(RecordHeader(0, 0, 0))
    case U1 => U1Value(0)
    case U2 => U2Value(0)
    case U4 => U4Value(0)
    case C1 => C1Value(0)
    case CN => CNValue([])
    case KXU1 => KXU1Value([])
  }

  /** The numeric value of an unsigned-integer field, used as an array count. */
  function CountOf(v: Value): (r: Option<nat>)
    ensures r.Some? <==> KindOf(v) in {U1, U2, U4}
  {
    match v
    case U1Value(n) => Some(n)
    case U2Value(n) => Some(n)
    case U4Value(n) => Some(n)
    case _ => None
  }

  /** Field values that match a schema field by field, as the fields of a Go struct do. */
  ghost predicate Conforms(schema: seq<FieldKind>, fields: seq<Value>)
  {
    |fields| == |schema| && forall j :: 0 <= j < |schema| ==> KindOf(fields[j]) == schema[j]
  }

  /** A schema the decoder can walk: the embedded header first and only there, and every
      counted array right after an unsigned-integer field that gives its count. */
  ghost predicate WellFormed(schema: seq<FieldKind>)
  {
    && |schema| > 0
    && schema[0] == Basic
    && (forall j :: 0 < j < |schema| ==> schema[j] != Basic)
    && (forall j :: 0 < j < |schema| && schema[j] == KXU1 ==> schema[j - 1] in {U1, U2, U4})
  }

  /** The fields of a zero-valued struct with this schema (`var far FAR`). */
  function ZeroFields(schema: seq<FieldKind>): (fields: seq<Value>)
    ensures Conforms(schema, fields)
  {
    seq(|schema|, j requires 0 <= j < |schema| => Zero(schema[j]))
  }

  /** The record kinds the package declares a struct for. */
  datatype RecordKind = FAR | MIR | SDR

  /** n string fields in a row. */
  function Strings(n: nat): (kinds: seq<FieldKind>)
    ensures |kinds| == n && forall j :: 0 <= j < n ==> kinds[j] == CN
  {
    seq(n, _ => CN)
  }

  /** File Attributes Record: the header, CPU_TYPE and STDF_VER. */
  function FarSchema(): (schema: seq<FieldKind>)
    ensures WellFormed(schema) && |schema| == 3
    ensures forall j :: 0 < j < 3 ==> schema[j] == U1
  {
    [Basic, U1, U1]
  }

  /** Master Information Record: the header, SETUP_T .. CMOD_COD, then the strings LOT_ID .. SUPR_NAM. */
  function MirSchema(): (schema: seq<FieldKind>)
    ensures WellFormed(schema) && |schema| == 39
    ensures schema[1] == schema[2] == U4 && schema[7] == U2
    ensures forall j :: 9 <= j < 39 ==> schema[j] == CN
    ensures KXU1 !in schema
  {
    [Basic, U4, U4, U1, C1, C1, C1, U2, C1] + Strings(30)
  }

  /** Site Description Record: the header, HEAD_NUM, SITE_GRP, SITE_CNT, the SITE_NUM array, then 16 strings. */
  function SdrSchema(): (schema: seq<FieldKind>)
    ensures WellFormed(schema) && |schema| == 21
    ensures schema[1] == U1 && schema[2] == U1 && schema[3] == U1 && schema[4] == KXU1
    ensures forall j :: 5 <= j < 21 ==> schema[j] == CN
  {
    [Basic, U1, U1, U1, KXU1] + Strings(16)
  }

  /** The schema of a record kind: its struct's field types in declaration order. */
  function Schema(kind: RecordKind): (schema: seq<FieldKind>)
    ensures WellFormed(schema)
  {
    match kind
    case FAR => FarSchema()
    case MIR => MirSchema()
    case SDR => SdrSchema()
  }

  /** A record: its kind and the values of its struct's fields, header first. */
  datatype Record = Record(kind: RecordKind, fields: seq<Value>)

  /** The record's fields have the types its struct declares. */
  ghost predicate Typed(r: Record)
  {
    Conforms(Schema(r.kind), r.fields)
  }

  /** The embedded header of a record. */
  function HeaderOf(r: Record): (h: RecordHeader)
    requires Typed(r)
  {
    r.fields[0].header
  }
}
