/**
 * The File Attributes Record encoder (`FAR.ToByte`) and its round trips with the
 * header reader and the payload decoder.
 */
module Far {
  import opened Bytes
  import opened Wrappers
  import opened Layout
  import opened Header
  import opened Codec

  /** A FAR value: a record of kind FAR whose fields have the struct's types. */
  ghost predicate IsFar(f: Record)
  {
    f.kind == FAR && Typed(f)
  }

  /**
   * The six-byte wire image of a FAR: the low and high byte of the payload length, the
   * record type, the sub-type, CPU_TYPE and STDF_VER.
   */
  ghost function FarImage(f: Record): (b: seq<byte>)
    requires IsFar(f)
  {
    var h := HeaderOf(f);
    [h.recLen % 256, h.recLen / 256, h.recType, h.recSub, f.fields[1].u1, f.fields[2].u1]
  }

  /** `FAR.ToByte`: writes the header with `PutUint16` and appends the other four bytes.
      The Go method's error result is always nil and is not modelled. */
  method ToByte(f: Record) returns (b: seq<byte>)
    requires IsFar(f)
    ensures b == FarImage(f)
  {
    var h := HeaderOf(f);
    b := PutUint16(h.recLen);
    b := b + [h.recType];
    b := b + [h.recSub];
    b := b + [f.fields[1].u1];
    b := b + [f.fields[2].u1];
  }

  /** The fields of a FAR are its header and two bytes. */
  lemma FarFields(f: Record)
    requires IsFar(f)
    ensures f.fields == [HeaderValue(HeaderOf(f)), U1Value(f.fields[1].u1), U1Value(f.fields[2].u1)]
  {
    assert KindOf(f.fields[0]) == Basic && KindOf(f.fields[1]) == U1 && KindOf(f.fields[2]) == U1;
  }

  /** Decoding any payload into an empty FAR never panics, and a payload of two bytes fills both fields. */
  lemma FarDecode(h: RecordHeader, s: seq<byte>)
    ensures Decode(s, EmptyRecord(FAR, h)).Ok?
    ensures |s| >= 2 ==> Decode(s, EmptyRecord(FAR, h)) == Ok(Record(FAR, [HeaderValue(h), U1Value(s[0]), U1Value(s[1])]))
  {
    var e := EmptyRecord(FAR, h);
    var schema := Schema(FAR);
    if |s| >= 2 {
      var f1 := e.fields[1 := U1Value(s[0])];
      var f2 := f1[2 := U1Value(s[1])];
      WalkUnfold(schema, s, 0, 0, e.fields, [], DecodeField(Basic, e.fields[0], None, 0, s, 0));
      assert e.fields[0 := e.fields[0]] == e.fields;
      WalkUnfold(schema, s, 1, 0, e.fields, [0], DecodeField(U1, e.fields[1], Some(e.fields[0]), 1, s, 0));
      WalkUnfold(schema, s, 2, 1, f1, [0, 0], DecodeField(U1, f1[2], Some(f1[1]), 2, s, 1));
      assert [] + [0] == [0] && [0] + [0] == [0, 0] && [0, 0] + [1] == [0, 0, 1] && [0, 0, 1] + [2] == [0, 0, 1, 2];
      assert Walk(schema, s, 3, 2, f2, [0, 0, 1]) == Ok(Walked(f2, [0, 0, 1, 2]));
      assert Walk(schema, s, 2, 1, f1, [0, 0]) == Walk(schema, s, 3, 2, f2, [0, 0, 1]);
      assert Walk(schema, s, 1, 0, e.fields, [0]) == Walk(schema, s, 2, 1, f1, [0, 0]);
      assert Walk(schema, s, 0, 0, e.fields, []) == Ok(Walked(f2, [0, 0, 1, 2]));
      assert f2 == [HeaderValue(h), U1Value(s[0]), U1Value(s[1])];
    }
  }

  /**
   * FAR round trip, encoder first: the header bytes of `ToByte`'s image select an empty
   * FAR holding f's header, and decoding the two payload bytes into it gives back f.
   */
  lemma FarRoundTrip(f: Record)
    requires IsFar(f) && HeaderOf(f).recType == 0 && HeaderOf(f).recSub == 10
    ensures NewStdfRecord(FarImage(f)[..4]) == Ok(Some(EmptyRecord(FAR, HeaderOf(f))))
    ensures Decode(FarImage(f)[4..6], EmptyRecord(FAR, HeaderOf(f))) == Ok(f)
  {
    var b := FarImage(f);
    var h := HeaderOf(f);
    assert b[..4] == HeaderBytes(h);
    HeaderRoundTrip(h);
    FarDecode(h, b[4..6]);
    FarFields(f);
  }

  /**
   * FAR round trip, bytes first: six bytes with type 0 and sub-type 10 select an empty FAR,
   * decode into a FAR, and that FAR's image is the six bytes again.
   */
  lemma FarWireRoundTrip(b: seq<byte>)
    requires |b| == 6 && b[2] == 0 && b[3] == 10
    ensures NewStdfRecord(b[..4]).Ok? && NewStdfRecord(b[..4]).value.Some?
    ensures
      var d := Decode(b[4..], NewStdfRecord(b[..4]).value.value);
      d.Ok? && IsFar(d.value) && FarImage(d.value) == b
  {
    var h := ParseHeader(b[..4]).value;
    FarDecode(h, b[4..]);
    HeaderBytesOfParse(b[..4]);
    assert h.recLen % 256 == b[0] && h.recLen / 256 == b[1];
  }

  /** The payload [0x02, 0x04] of a FAR decodes to CPU_TYPE 2 and STDF_VER 4. */
  lemma FarExample()
    ensures
      var h := RecordHeader(2, 0, 10);
      && NewStdfRecord([0x02, 0x00, 0x00, 0x0A, 0x02, 0x04]) == Ok(Some(EmptyRecord(FAR, h)))
      && Decode([0x02, 0x04], EmptyRecord(FAR, h)) == Ok(Record(FAR, [HeaderValue(h), U1Value(2), U1Value(4)]))
  {
    FarDecode(RecordHeader(2, 0, 10), [0x02, 0x04]);
  }
}
