/** Concrete decodings of the three record kinds, including a stop and a panic. */
module Scenarios {
  import opened Bytes
  import opened Wrappers
  import opened Layout
  import opened Header
  import opened Codec

  /** A counted array whose count field holds 3 takes the next three bytes. */
  lemma SiteNumbersExample()
    ensures DecodeField(KXU1, Zero(KXU1), Some(U1Value(3)), 4, [0x05, 0x06, 0x07], 0)
      == Ok(Step(KXU1Value([0x05, 0x06, 0x07]), 3))
  {
    var s: seq<byte> := [0x05, 0x06, 0x07];
    assert s[0..3] == s;
  }

  /** The string payload [3, 'A', 'B', 'C'] moves the cursor by 4 but stores [3, 'A', 'B']. */
  lemma CnExample()
    ensures DecodeField(CN, Zero(CN), None, 9, [0x03, 0x41, 0x42, 0x43], 0)
      == Ok(Step(CNValue([0x03, 0x41, 0x42]), 4))
  {
    CnSliceIncludesLengthByte([], [0x41, 0x42, 0x43], [], Zero(CN), None, 9);
    assert [0x41, 0x42, 0x43][..2] == [0x41, 0x42];
    assert [] + [3 as byte] + [0x41, 0x42, 0x43] + [] == [0x03, 0x41, 0x42, 0x43];
    assert [3 as byte] + [0x41, 0x42] == [0x03, 0x41, 0x42];
  }

  /**
   * An SDR payload with head 1, group 2 and three sites 5, 6, 7: the cursor reaches the end
   * after SITE_NUM, so decoding stops there and the sixteen strings keep their zero value.
   */
  lemma SdrExample(h: RecordHeader)
    ensures
      var e := EmptyRecord(SDR, h);
      Decode([1, 2, 3, 5, 6, 7], e)
        == Ok(Record(SDR, e.fields[1 := U1Value(1)][2 := U1Value(2)][3 := U1Value(3)][4 := KXU1Value([5, 6, 7])]))
  {
    SdrWalk(EmptyRecord(SDR, h).fields);
  }

  /** The walk behind `SdrExample`, for any 21 field values. */
  lemma SdrWalk(f0: seq<Value>)
    requires |f0| == 21
    ensures
      var f4 := f0[1 := U1Value(1)][2 := U1Value(2)][3 := U1Value(3)][4 := KXU1Value([5, 6, 7])];
      Walk(SdrSchema(), [1, 2, 3, 5, 6, 7], 0, 0, f0, []) == Ok(Walked(f4, [0, 0, 1, 2, 3, 6]))
  {
    var f3 := f0[1 := U1Value(1)][2 := U1Value(2)][3 := U1Value(3)];
    SdrWalkCounts(SdrSchema(), f0);
    SdrWalkSites(SdrSchema(), f3);
  }

  /**
   * The first four fields of the SDR walk: the header, then HEAD_NUM, SITE_GRP and
   * SITE_CNT, for any schema that starts as SDR's does.
   */
  lemma SdrWalkCounts(schema: seq<FieldKind>, f0: seq<Value>)
    requires |schema| == |f0| && 4 <= |schema|
    requires schema[0] == Basic && schema[1] == U1 && schema[2] == U1 && schema[3] == U1
    ensures
      var f3 := f0[1 := U1Value(1)][2 := U1Value(2)][3 := U1Value(3)];
      Walk(schema, [1, 2, 3, 5, 6, 7], 0, 0, f0, []) == Walk(schema, [1, 2, 3, 5, 6, 7], 4, 3, f3, [0, 0, 1, 2])
  {
    var s: seq<byte> := [1, 2, 3, 5, 6, 7];
    var f1 := f0[1 := U1Value(1)];
    var f2 := f1[2 := U1Value(2)];
    var f3 := f2[3 := U1Value(3)];
    assert [] + [0] == [0] && [0] + [0] == [0, 0] && [0, 0] + [1] == [0, 0, 1];
    assert [0, 0, 1] + [2] == [0, 0, 1, 2];
    assert Walk(schema, s, 0, 0, f0, []) == Walk(schema, s, 1, 0, f0, [0]) by {
      WalkUnfold(schema, s, 0, 0, f0, [], DecodeField(Basic, f0[0], None, 0, s, 0));
      assert f0[0 := f0[0]] == f0;
    }
    assert Walk(schema, s, 1, 0, f0, [0]) == Walk(schema, s, 2, 1, f1, [0, 0]) by {
      WalkUnfold(schema, s, 1, 0, f0, [0], DecodeField(U1, f0[1], Some(f0[0]), 1, s, 0));
    }
    assert Walk(schema, s, 2, 1, f1, [0, 0]) == Walk(schema, s, 3, 2, f2, [0, 0, 1]) by {
      WalkUnfold(schema, s, 2, 1, f1, [0, 0], DecodeField(U1, f1[2], Some(f1[1]), 2, s, 1));
    }
    assert Walk(schema, s, 3, 2, f2, [0, 0, 1]) == Walk(schema, s, 4, 3, f3, [0, 0, 1, 2]) by {
      WalkUnfold(schema, s, 3, 2, f2, [0, 0, 1], DecodeField(U1, f2[3], Some(f2[2]), 3, s, 2));
    }
  }

  /**
   * The rest of the SDR walk: SITE_NUM takes three bytes, and the cursor is then at the
   * end, for any schema with a counted array at field 4.
   */
  lemma SdrWalkSites(schema: seq<FieldKind>, f3: seq<Value>)
    requires |schema| == |f3| && 5 <= |schema| && schema[4] == KXU1 && f3[3] == U1Value(3)
    ensures
      var f4 := f3[4 := KXU1Value([5, 6, 7])];
      Walk(schema, [1, 2, 3, 5, 6, 7], 4, 3, f3, [0, 0, 1, 2]) == Ok(Walked(f4, [0, 0, 1, 2, 3, 6]))
  {
    var sites: seq<byte> := [5, 6, 7];
    var s: seq<byte> := [1, 2, 3] + sites;
    assert s == [1, 2, 3, 5, 6, 7] && s[3..6] == sites;
    var f4 := f3[4 := KXU1Value(sites)];
    assert [0, 0, 1, 2] + [3] == [0, 0, 1, 2, 3] && [0, 0, 1, 2, 3] + [6] == [0, 0, 1, 2, 3, 6];
    WalkUnfold(schema, s, 4, 3, f3, [0, 0, 1, 2], DecodeField(KXU1, f3[4], Some(f3[3]), 4, s, 3));
    assert Walk(schema, s, 5, 6, f4, [0, 0, 1, 2, 3]) == Ok(Walked(f4, [0, 0, 1, 2, 3, 6]));
  }

  /** A MIR payload shorter than its first U4 field makes the decoder panic on SETUP_T. */
  lemma MirShortPayloadExample(h: RecordHeader)
    ensures Decode([1, 2, 3], EmptyRecord(MIR, h)) == Err(TruncatedField(1))
  {
    var s: seq<byte> := [1, 2, 3];
    var schema := Schema(MIR);
    var f0 := EmptyRecord(MIR, h).fields;
    WalkUnfold(schema, s, 0, 0, f0, [], DecodeField(Basic, f0[0], None, 0, s, 0));
    assert f0[0 := f0[0]] == f0;
    WalkUnfold(schema, s, 1, 0, f0, [0], DecodeField(U4, f0[1], Some(f0[0]), 1, s, 0));
  }
}
