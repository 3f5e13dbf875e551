/**
 * The two places where the Go decoder departs from the format, each with its other half:
 * the CN decoding the format describes, beside the as-written slice that `Codec.DecodeField`
 * keeps, and the counted-array decoding as written, beside the numeric count that
 * `Codec.DecodeField` uses.
 */
module Defects {
  import opened Bytes
  import opened Wrappers
  import opened Layout
  import opened Header
  import opened Codec

  /**
   * The CN decoding the format describes: the byte at the cursor is the length n, and the
   * string is the n bytes after it, cut short where the payload ends.
   */
  function DecodeCnIntended(s: seq<byte>, m: nat): (r: Step)
    requires m < |s|
    ensures r.advance == 1 + s[m] as int
    ensures r.value.CNValue? && r.value.cn <= s[m + 1..]
    ensures |r.value.cn| == Min(s[m] as int, |s| - m - 1)
  {
    var n := s[m] as int;
    Step(CNValue(s[m + 1..m + 1 + Min(n, |s| - m - 1)]), 1 + n)
  }

  /**
   * The intended CN decoding stores the string itself: for a length byte n followed by n
   * bytes, at any cursor and before any further bytes, it gives back those n bytes and
   * moves the cursor past them.
   */
  lemma CnIntendedStoresString(pre: seq<byte>, str: seq<byte>, post: seq<byte>)
    requires |str| < 256
    ensures DecodeCnIntended(pre + [|str| as byte] + str + post, |pre|) == Step(CNValue(str), 1 + |str|)
  {
    var s := pre + [|str| as byte] + str + post;
    var m := |pre|;
    assert s[m] == |str|;
    assert s[m + 1..m + 1 + |str|] == str;
  }

  /**
   * Decoding of one field as the Go code is written: a counted array asserts the field
   * before it to Go's `int`, and since no modelled struct declares an `int` field that
   * assertion always panics. Every other kind decodes as `Codec.DecodeField` does.
   */
  function DecodeFieldAsWritten(kind: FieldKind, current: Value, prev: Option<Value>, i: nat, s: seq<byte>, m: nat)
    : (r: Result<Step, Fault>)
    requires m < |s|
    ensures kind == KXU1 ==> r == Err(NotACount(i))
    ensures kind != KXU1 ==> r == DecodeField(kind, current, prev, i, s, m)
  {
    if kind == KXU1 then Err(NotACount(i)) else DecodeField(kind, current, prev, i, s, m)
  }

  /** The decoder loop `Codec.Walk`, decoding each field with `DecodeFieldAsWritten`. */
  function WalkAsWritten(schema: seq<FieldKind>, s: seq<byte>, i: nat, m: nat, fields: seq<Value>, marks: seq<nat>)
    : (r: Result<Walked, Fault>)
    requires i <= |schema| == |fields| && |marks| == i
    ensures r.Ok? ==> |r.value.fields| == |fields| && i < |r.value.marks|
    ensures r.Err? ==> !r.error.ShortHeader? && i <= r.error.index < |schema|
    decreases |schema| - i
  {
    if i == |schema| || m >= |s| then Ok(Walked(fields, marks + [m]))
    else
      match DecodeFieldAsWritten(schema[i], fields[i], Previous(fields, i), i, s, m)
      case Err(e) => Err(e)
      case Ok(step) => WalkAsWritten(schema, s, i + 1, m + step.advance, fields[i := step.value], marks + [m])
  }

  /** Where no counted array lies ahead, the walk as written and the model's walk agree. */
  lemma {:induction false} WalkAsWrittenAgrees(schema: seq<FieldKind>, s: seq<byte>, i: nat, m: nat, fields: seq<Value>, marks: seq<nat>)
    requires i <= |schema| == |fields| && |marks| == i
    requires forall j :: i <= j < |schema| ==> schema[j] != KXU1
    ensures WalkAsWritten(schema, s, i, m, fields, marks) == Walk(schema, s, i, m, fields, marks)
    decreases |schema| - i
  {
    if i < |schema| && m < |s| {
      var d := DecodeField(schema[i], fields[i], Previous(fields, i), i, s, m);
      if d.Ok? {
        WalkAsWrittenAgrees(schema, s, i + 1, m + d.value.advance, fields[i := d.value.value], marks + [m]);
      }
    }
  }

  /** FAR and MIR declare no counted array, so their decoding is the same as written. */
  lemma FarMirAsWritten(s: seq<byte>, o1: Record)
    requires Typed(o1) && o1.kind != SDR
    ensures WalkAsWritten(Schema(o1.kind), s, 0, 0, o1.fields, []) == Walk(Schema(o1.kind), s, 0, 0, o1.fields, [])
  {
    var schema := Schema(o1.kind);
    if o1.kind == FAR {
      assert forall j :: 0 <= j < |schema| ==> schema[j] != KXU1 by {
        forall j | 0 <= j < |schema|
          ensures schema[j] != KXU1
        {
          if j > 0 {
            assert schema[j] == U1;
          }
        }
      }
    }
    WalkAsWrittenAgrees(schema, s, 0, 0, o1.fields, []);
  }

  /**
   * As written, the walk over a schema that starts as SDR's does panics on SITE_NUM (field
   * 4) for every payload of at least four bytes: the header and the three `U1` fields take
   * the first three bytes, and the cursor is still inside the payload.
   */
  lemma SitesAsWrittenPanics(schema: seq<FieldKind>, s: seq<byte>, f0: seq<Value>)
    requires |schema| == |f0| && 5 <= |schema| && 4 <= |s|
    requires schema[0] == Basic && schema[1] == U1 && schema[2] == U1 && schema[3] == U1 && schema[4] == KXU1
    ensures WalkAsWritten(schema, s, 0, 0, f0, []) == Err(NotACount(4))
  {
    var f1 := f0[1 := U1Value(s[0])];
    var f2 := f1[2 := U1Value(s[1])];
    var f3 := f2[3 := U1Value(s[2])];
    assert [] + [0] == [0] && [0] + [0] == [0, 0] && [0, 0] + [1] == [0, 0, 1];
    assert [0, 0, 1] + [2] == [0, 0, 1, 2];
    assert WalkAsWritten(schema, s, 0, 0, f0, []) == WalkAsWritten(schema, s, 1, 0, f0, [0]) by {
      assert f0[0 := f0[0]] == f0;
    }
    assert WalkAsWritten(schema, s, 1, 0, f0, [0]) == WalkAsWritten(schema, s, 2, 1, f1, [0, 0]);
    assert WalkAsWritten(schema, s, 2, 1, f1, [0, 0]) == WalkAsWritten(schema, s, 3, 2, f2, [0, 0, 1]);
    assert WalkAsWritten(schema, s, 3, 2, f2, [0, 0, 1]) == WalkAsWritten(schema, s, 4, 3, f3, [0, 0, 1, 2]);
  }

  /** As written, decoding an SDR payload of four or more bytes always panics on SITE_NUM. */
  lemma SdrAsWrittenPanics(h: RecordHeader, s: seq<byte>)
    requires 4 <= |s|
    ensures WalkAsWritten(SdrSchema(), s, 0, 0, EmptyRecord(SDR, h).fields, []) == Err(NotACount(4))
  {
    SitesAsWrittenPanics(SdrSchema(), s, EmptyRecord(SDR, h).fields);
  }
}
