/**
 * The record header reader and the record dispatcher (`NewStdfRecord`): four header
 * bytes select an empty record of the kind they name, or no record at all.
 */
module Header {
  import opened Bytes
  import opened Wrappers
  import opened Layout

  /** The runtime panics of the Go code, which this model turns into error results. */
  datatype Fault =
    | ShortHeader              // fewer than four header bytes
    | TruncatedField(index: nat) // a U2, U4 or counted-array field runs past the payload
    | NotACount(index: nat)      // a counted array whose count cannot be read from the field before it

  /** Reads the header: a little-endian two-byte length, a type byte and a sub-type byte. */
  function ParseHeader(a: seq<byte>): (r: Result<RecordHeader, Fault>)
    ensures r.Err? <==> |a| < 4
    ensures r.Err? ==> r.error == ShortHeader
    ensures r.Ok? ==> r.value == RecordHeader(a[0] as int + 256 * a[1] as int, a[2], a[3])
  {
    if |a| < 4 then Err(ShortHeader)
    else Ok(RecordHeader(Uint16(a), a[2], a[3]))
  }

  /** The four wire bytes of a header, as `FAR.ToByte` writes them. */
  function HeaderBytes(h: RecordHeader): (b: seq<byte>)
    ensures |b| == 4
    ensures b[0] as int + 256 * b[1] as int == h.recLen && b[2] == h.recType && b[3] == h.recSub
  {
    PutUint16(h.recLen) + [h.recType, h.recSub]
  }

  lemma HeaderRoundTrip(h: RecordHeader)
    ensures ParseHeader(HeaderBytes(h)) == Ok(h)
  {
    var b := HeaderBytes(h);
    assert b[0] as int + 256 * b[1] as int == h.recLen;
  }

  lemma HeaderBytesOfParse(a: seq<byte>)
    requires |a| >= 4
    ensures ParseHeader(a).Ok? && HeaderBytes(ParseHeader(a).value) == a[..4]
  {
    var h := ParseHeader(a).value;
    assert h.recLen % 256 == a[0] && h.recLen / 256 == a[1];
  }

  /** The (type, sub-type) codes of the supported record kinds. */
  const REGISTRY: map<(byte, byte), RecordKind> := map[(0, 10) := FAR, (1, 10) := MIR, (1, 80) := SDR]

  /** A zero-valued record of this kind holding header h (`var far FAR; far.BasicRecordType = t`). */
  function EmptyRecord(kind: RecordKind, h: RecordHeader): (r: Record)
    ensures r.kind == kind && Typed(r) && HeaderOf(r) == h
    ensures forall j :: 0 < j < |r.fields| ==> r.fields[j] == Zero(Schema(kind)[j])
  {
    var zero := ZeroFields(Schema(kind));
    Record(kind, zero[0 := HeaderValue(h)])
  }

  /**
   * `NewStdfRecord`: parses the header and returns an empty record of the kind its
   * (type, sub-type) names, or `None` (Go's `nil`) for every other pair.
   */
  function NewStdfRecord(a: seq<byte>): (r: Result<Option<Record>, Fault>)
    ensures |a| < 4 <==> r == Err(ShortHeader)
    ensures |a| >= 4 ==> r.Ok? && (r.value.Some? <==> (a[2], a[3]) in REGISTRY)
    ensures |a| >= 4 && (a[2], a[3]) in REGISTRY ==>
      r.value.value == EmptyRecord(REGISTRY[(a[2], a[3])], RecordHeader(a[0] as int + 256 * a[1] as int, a[2], a[3]))
  {
    match ParseHeader(a)
    case Err(e) => Err(e)
    case Ok(t) =>
      if t.recType == 0 then
        if t.recSub == 10 then Ok(Some(EmptyRecord(FAR, t))) else Ok(None)
      else if t.recType == 1 then
        if t.recSub == 10 then Ok(Some(EmptyRecord(MIR, t)))
        else if t.recSub == 80 then Ok(Some(EmptyRecord(SDR, t)))
        else Ok(None)
      else Ok(None)
  }

  /** Only the first four bytes decide the result. */
  lemma NewStdfRecordReadsFourBytes(a: seq<byte>, b: seq<byte>)
    requires |a| >= 4 && |b| >= 4 && a[..4] == b[..4]
    ensures NewStdfRecord(a) == NewStdfRecord(b)
  {
    assert a[0] == b[0] && a[1] == b[1] && a[2] == b[2] && a[3] == b[3];
  }

  lemma ParseHeaderExample()
    ensures ParseHeader([0x02, 0x00, 0x00, 0x0A]) == Ok(RecordHeader(2, 0, 10))
  {
  }

  lemma UnknownKindExample()
    ensures NewStdfRecord([0x00, 0x00, 99, 99]) == Ok(None)
  {
  }
}
