/**
 * The generic payload decoder (`TransB2S`): a byte cursor walks a record's schema in
 * declaration order and fills each field from the payload, stopping as soon as the
 * cursor reaches the end of the payload.
 */
module Codec {
  import opened Bytes
  import opened Wrappers
  import opened Layout
  import opened Header

  /** What decoding one field yields: the field's new value and how far the cursor moves. */
  datatype Step = Step(value: Value, advance: nat)

  function Min(a: int, b: int): (r: int)
  {
    if a <= b then a else b
  }

  /** The field before field i, if there is one (the count source of a counted array). */
  function Previous(fields: seq<Value>, i: nat): (r: Option<Value>)
    requires i <= |fields|
  {
    if i == 0 then None else Some(fields[i - 1])
  }

  /**
   * Too few bytes remain, with the cursor at m, for a field of this kind: two for `U2`, four
   * for `U4`, and for a counted array the count that the field before it holds (an array
   * without a readable count can never be decoded).
   */
  ghost predicate Short(kind: FieldKind, prev: Option<Value>, s: seq<byte>, m: nat)
  {
    match kind
    case U2 => m + 2 > |s|
    case U4 => m + 4 > |s|
    case KXU1 =>
      var count := if prev.Some? then CountOf(prev.value) else None;
      count.None? || m + count.value > |s|
    case _ => false
  }

  /**
   * Decoding of field number i, of the given kind, with the cursor at m inside payload s.
   * `current` is the field's value so far and `prev` the value of the field before it.
   *
   * CN is modelled as written: the stored slice starts at the length byte itself, although
   * the format puts the string in the bytes that follow it (see `CnSliceIncludesLengthByte`).
   * KXU1 takes its count from the numeric value of the previous field, which is what the
   * format describes; the Go code's type assertion to `int` would panic on a `U1` instead
   * (see `Defects.WalkAsWritten`).
   */
  function DecodeField(kind: FieldKind, current: Value, prev: Option<Value>, i: nat, s: seq<byte>, m: nat)
    : (r: Result<Step, Fault>)
    requires m < |s|
    ensures kind == Basic ==> r == Ok(Step(current, 0))
    ensures kind != Basic && r.Ok? ==> KindOf(r.value.value) == kind
    ensures kind == U1 ==> r == Ok(Step(U1Value(s[m]), 1))
    ensures kind == C1 ==> r == Ok(Step(C1Value(s[m]), 1))
    ensures kind == U2 ==> (r.Ok? <==> m + 2 <= |s|)
    ensures kind == U2 && r.Ok? ==> r.value == Step(U2Value(s[m] as int + 256 * s[m + 1] as int), 2)
    ensures kind == U4 ==> (r.Ok? <==> m + 4 <= |s|)
    ensures kind == U4 && r.Ok? ==>
      && r.value.advance == 4 && r.value.value.U4Value?
      && r.value.value.u4 == s[m] as int + 0x100 * s[m + 1] as int + 0x1_0000 * s[m + 2] as int + 0x100_0000 * s[m + 3] as int
    ensures kind == CN ==>
      && r.Ok? && r.value.advance == 1 + s[m] as int
      && r.value.value == CNValue(s[m..m + Min(s[m], |s| - m)])
    ensures kind == KXU1 ==>
      (r.Ok? <==> prev.Some? && CountOf(prev.value).Some? && m + CountOf(prev.value).value <= |s|)
    ensures kind == KXU1 && r.Ok? ==>
      var k := CountOf(prev.value).value; r.value == Step(KXU1Value(s[m..m + k]), k)
    ensures r.Err? ==> (kind in {U2, U4, KXU1} && r.error == TruncatedField(i)) || (kind == KXU1 && r.error == NotACount(i))
  {
    match kind
    case Basic => Ok(Step(current, 0))
    case U1 => Ok(Step(U1Value(s[m]), 1))
    case U2 =>
      if m + 2 <= |s| then Ok(Step(U2Value(Uint16(s[m..m + 2])), 2)) else Err(TruncatedField(i))
    case U4 =>
      if m + 4 <= |s| then Ok(Step(U4Value(Uint32(s[m..m + 4])), 4)) else Err(TruncatedField(i))
    case C1 => Ok(Step(C1Value(s[m]), 1))
    case CN =>
      var n := s[m] as int;
      Ok(Step(CNValue(if n + m > |s| then s[m..] else s[m..n + m]), 1 + n))
    case KXU1 =>
      var count := if prev.Some? then CountOf(prev.value) else None;
      match count
      case None => Err(NotACount(i))
      case Some(k) =>
        if m + k <= |s| then Ok(Step(KXU1Value(s[m..m + k]), k)) else Err(TruncatedField(i))
  }

  /**
   * The outcome of a walk: the field values, and the cursor before each field that was
   * decoded followed by the cursor at exit. The walk stopped before field |marks| - 1.
   */
  datatype Walked = Walked(fields: seq<Value>, marks: seq<nat>)
  {
    function Stop(): int { |marks| - 1 }
  }

  /**
   * The decoder loop from field i with the cursor at m: it stops at the last field or as
   * soon as m reaches the end of the payload, and otherwise decodes field i and goes on.
   */
  function Walk(schema: seq<FieldKind>, s: seq<byte>, i: nat, m: nat, fields: seq<Value>, marks: seq<nat>)
    : (r: Result<Walked, Fault>)
    requires i <= |schema| == |fields| && |marks| == i
    ensures r.Ok? ==> |r.value.fields| == |fields|
    decreases |schema| - i
  {
    if i == |schema| || m >= |s| then Ok(Walked(fields, marks + [m]))
    else
      match DecodeField(schema[i], fields[i], Previous(fields, i), i, s, m)
      case Err(e) => Err(e)
      case Ok(step) => Walk(schema, s, i + 1, m + step.advance, fields[i := step.value], marks + [m])
  }

  /**
   * What a walk from field i leaves behind: the fields before i and from the stop on keep
   * their values, the cursor never moves back, and an early stop means the cursor reached
   * the end of the payload. A panic names a U2, U4 or counted-array field at i or later.
   */
  lemma WalkShape(schema: seq<FieldKind>, s: seq<byte>, i: nat, m: nat, fields: seq<Value>, marks: seq<nat>)
    requires i <= |schema| == |fields| && |marks| == i
    ensures
      var r := Walk(schema, s, i, m, fields, marks);
      r.Ok? ==>
        var w := r.value;
        && |w.fields| == |fields|
        && i < |w.marks| <= |schema| + 1
        && w.marks[..i] == marks
        && w.marks[i] == m
        && (forall j :: 0 <= j < i ==> w.fields[j] == fields[j])
        && (forall j :: w.Stop() <= j < |fields| ==> w.fields[j] == fields[j])
        && (forall j :: 0 <= j < |fields| && schema[j] == Basic ==> w.fields[j] == fields[j])
        && (w.Stop() < |schema| ==> w.marks[w.Stop()] >= |s|)
        && w.marks[w.Stop()] >= m
    ensures
      var r := Walk(schema, s, i, m, fields, marks);
      r.Err? ==>
        || (r.error.TruncatedField? && i <= r.error.index < |schema| && schema[r.error.index]in {U2, U4, KXU1})
        || (r.error.NotACount? && i <= r.error.index < |schema| && schema[r.error.index] == KXU1)
  {
    WalkMarks(schema, s, i, m, fields, marks);
    WalkKeeps(schema, s, i, m, fields, marks);
    WalkErrors(schema, s, i, m, fields, marks);
  }

  /** The cursor part of `WalkShape`. */
  lemma {:induction false} WalkMarks(schema: seq<FieldKind>, s: seq<byte>, i: nat, m: nat, fields: seq<Value>, marks: seq<nat>)
    requires i <= |schema| == |fields| && |marks| == i
    ensures
      var r := Walk(schema, s, i, m, fields, marks);
      r.Ok? ==>
        var w := r.value;
        && |w.fields| == |fields|
        && i < |w.marks| <= |schema| + 1
        && w.marks[..i] == marks
        && w.marks[i] == m
        && (w.Stop() < |schema| ==> w.marks[w.Stop()] >= |s|)
        && w.marks[w.Stop()] >= m
    decreases |schema| - i
  {
    if i < |schema| && m < |s| {
      var step := DecodeField(schema[i], fields[i], Previous(fields, i), i, s, m);
      WalkUnfold(schema, s, i, m, fields, marks, step);
      if step.Ok? {
        var next := fields[i := step.value.value];
        WalkMarks(schema, s, i + 1, m + step.value.advance, next, marks + [m]);
        var r := Walk(schema, s, i + 1, m + step.value.advance, next, marks + [m]);
        if r.Ok? {
          assert r.value.marks[..i] == r.value.marks[..i + 1][..i];
        }
      }
    }
  }

  /** The field part of `WalkShape`. */
  lemma {:induction false} WalkKeeps(schema: seq<FieldKind>, s: seq<byte>, i: nat, m: nat, fields: seq<Value>, marks: seq<nat>)
    requires i <= |schema| == |fields| && |marks| == i
    ensures
      var r := Walk(schema, s, i, m, fields, marks);
      r.Ok? ==>
        var w := r.value;
        && |w.fields| == |fields|
        && (forall j :: 0 <= j < i ==> w.fields[j] == fields[j])
        && (forall j :: 0 <= j < |fields| && w.Stop() <= j ==> w.fields[j] == fields[j])
        && (forall j :: 0 <= j < |fields| && schema[j] == Basic ==> w.fields[j] == fields[j])
    decreases |schema| - i
  {
    if i < |schema| && m < |s| {
      var step := DecodeField(schema[i], fields[i], Previous(fields, i), i, s, m);
      WalkUnfold(schema, s, i, m, fields, marks, step);
      if step.Ok? {
        WalkKeeps(schema, s, i + 1, m + step.value.advance, fields[i := step.value.value], marks + [m]);
        WalkMarks(schema, s, i + 1, m + step.value.advance, fields[i := step.value.value], marks + [m]);
      }
    }
  }

  /** The panic part of `WalkShape`. */
  lemma {:induction false} WalkErrors(schema: seq<FieldKind>, s: seq<byte>, i: nat, m: nat, fields: seq<Value>, marks: seq<nat>)
    requires i <= |schema| == |fields| && |marks| == i
    ensures
      var r := Walk(schema, s, i, m, fields, marks);
      r.Err? ==>
        || (r.error.TruncatedField? && i <= r.error.index < |schema| && schema[r.error.index]in {U2, U4, KXU1})
        || (r.error.NotACount? && i <= r.error.index < |schema| && schema[r.error.index] == KXU1)
    decreases |schema| - i
  {
    if i < |schema| && m < |s| {
      var step := DecodeField(schema[i], fields[i], Previous(fields, i), i, s, m);
      if step.Ok? {
        WalkErrors(schema, s, i + 1, m + step.value.advance, fields[i := step.value.value], marks + [m]);
      }
    }
  }

  /** Decoding a whole payload into a record: the walk from field 0 with the cursor at 0. */
  function Decode(s: seq<byte>, o1: Record): (r: Result<Record, Fault>)
    requires Typed(o1)
    ensures r.Ok? ==> r.value.kind == o1.kind && Typed(r.value) && HeaderOf(r.value) == HeaderOf(o1)
    ensures r.Err? ==> r.error.TruncatedField? && r.error.index < |Schema(o1.kind)|
    ensures r.Err? ==> Schema(o1.kind)[r.error.index] in {U2, U4, KXU1}
  {
    var schema := Schema(o1.kind);
    WalkConforms(schema, s, 0, 0, o1.fields, []);
    WalkCountsPresent(schema, s, 0, 0, o1.fields, []);
    WalkShape(schema, s, 0, 0, o1.fields, []);
    match Walk(schema, s, 0, 0, o1.fields, [])
    case Ok(w) => Ok(Record(o1.kind, w.fields))
    case Err(e) => Err(e)
  }

  /** Walking keeps every field of the type its schema declares. */
  lemma {:induction false} WalkConforms(schema: seq<FieldKind>, s: seq<byte>, i: nat, m: nat, fields: seq<Value>, marks: seq<nat>)
    requires i <= |schema| == |fields| && |marks| == i
    requires Conforms(schema, fields)
    ensures Walk(schema, s, i, m, fields, marks).Ok? ==> Conforms(schema, Walk(schema, s, i, m, fields, marks).value.fields)
    decreases |schema| - i
  {
    if i < |schema| && m < |s| {
      var step := DecodeField(schema[i], fields[i], Previous(fields, i), i, s, m);
      if step.Ok? {
        WalkConforms(schema, s, i + 1, m + step.value.advance, fields[i := step.value.value], marks + [m]);
      }
    }
  }

  /** On a well-formed schema with conforming fields every counted array finds its count. */
  lemma {:induction false} WalkCountsPresent(schema: seq<FieldKind>, s: seq<byte>, i: nat, m: nat, fields: seq<Value>, marks: seq<nat>)
    requires i <= |schema| == |fields| && |marks| == i
    requires WellFormed(schema) && Conforms(schema, fields)
    ensures Walk(schema, s, i, m, fields, marks).Err? ==> Walk(schema, s, i, m, fields, marks).error.TruncatedField?
    decreases |schema| - i
  {
    if i < |schema| && m < |s| {
      var step := DecodeField(schema[i], fields[i], Previous(fields, i), i, s, m);
      if step.Ok? {
        var next := fields[i := step.value.value];
        assert Conforms(schema, next);
        WalkCountsPresent(schema, s, i + 1, m + step.value.advance, next, marks + [m]);
      } else if schema[i] == KXU1 {
        assert KindOf(fields[i - 1]) in {U1, U2, U4};
      }
    }
  }

  /**
   * Field j of the walk's outcome w was decoded, as one field, at its recorded cursor
   * inside the payload, and the cursor then moved on by exactly that field's advance.
   */
  ghost predicate DecodedAt(schema: seq<FieldKind>, s: seq<byte>, w: Walked, j: nat)
    requires j < |schema| == |w.fields| && j + 1 < |w.marks|
  {
    && w.marks[j] < |s|
    && w.marks[j] <= w.marks[j + 1]
    && DecodeField(schema[j], w.fields[j], Previous(w.fields, j), j, s, w.marks[j])
       == Ok(Step(w.fields[j], w.marks[j + 1] - w.marks[j]))
  }

  /**
   * Fields are decoded strictly in declaration order by a cursor that never decreases:
   * every field from i up to the stop satisfies `DecodedAt`.
   */
  lemma {:induction false} WalkTrace(schema: seq<FieldKind>, s: seq<byte>, i: nat, m: nat, fields: seq<Value>, marks: seq<nat>)
    requires i <= |schema| == |fields| && |marks| == i
    requires Walk(schema, s, i, m, fields, marks).Ok?
    ensures
      var w := Walk(schema, s, i, m, fields, marks).value;
      && |w.fields| == |fields| && i < |w.marks| <= |schema| + 1
      && w.fields[..i] == fields[..i] && w.marks[..i] == marks && w.marks[i] == m
    ensures
      var w := Walk(schema, s, i, m, fields, marks).value;
      forall j :: i <= j < w.Stop() ==> DecodedAt(schema, s, w, j)
    decreases |schema| - i
  {
    if i < |schema| && m < |s| {
      WalkUnfold(schema, s, i, m, fields, marks, DecodeField(schema[i], fields[i], Previous(fields, i), i, s, m));
      var step := DecodeField(schema[i], fields[i], Previous(fields, i), i, s, m).value;
      var next := fields[i := step.value];
      WalkTrace(schema, s, i + 1, m + step.advance, next, marks + [m]);
      var w := Walk(schema, s, i, m, fields, marks).value;
      assert w == Walk(schema, s, i + 1, m + step.advance, next, marks + [m]).value;
      assert w.fields[..i + 1] == next[..i + 1] && w.marks[..i + 1] == marks + [m];
      assert w.fields[..i] == fields[..i] by {
        assert w.fields[..i] == w.fields[..i + 1][..i] && fields[..i] == next[..i + 1][..i];
      }
      assert w.fields[i] == w.fields[..i + 1][i] == step.value;
      assert w.marks[i] == (marks + [m])[i] == m;
      assert w.marks[..i] == (marks + [m])[..i] == marks;
      assert Previous(w.fields, i) == Previous(fields, i) by {
        if i > 0 {
          assert w.fields[i - 1] == w.fields[..i][i - 1] == fields[..i][i - 1] == fields[i - 1];
        }
      }
      forall j | i <= j < w.Stop()
        ensures DecodedAt(schema, s, w, j)
      {
        if j == i {
          TraceHead(schema, s, i, m, fields, step, w);
        }
      }
    }
  }

  /** The first field of a walk from i satisfies `DecodedAt` (a helper for `WalkTrace`). */
  lemma TraceHead(schema: seq<FieldKind>, s: seq<byte>, i: nat, m: nat, fields: seq<Value>, step: Step, w: Walked)
    requires i < |schema| == |fields| == |w.fields| && i + 1 < |w.marks| && m < |s|
    requires DecodeField(schema[i], fields[i], Previous(fields, i), i, s, m) == Ok(step)
    requires w.fields[i] == step.value && Previous(w.fields, i) == Previous(fields, i)
    requires w.marks[i] == m && w.marks[i + 1] == m + step.advance
    ensures DecodedAt(schema, s, w, i)
  {
    DecodeFieldIgnoresCurrent(schema[i], fields[i], w.fields[i], Previous(fields, i), i, s, m);
  }

  /**
   * How the whole walk ends, given the outcome p of walking the first k fields and the
   * fields `rest` from k on: a panic or an early stop is final, and otherwise the walk goes
   * on from field k with the cursor and fields p left.
   */
  ghost function Resume(schema: seq<FieldKind>, s: seq<byte>, rest: seq<Value>, k: nat, p: Result<Walked, Fault>)
    : (r: Result<Walked, Fault>)
    requires k + |rest| == |schema|
    requires p.Ok? ==> |p.value.fields| == k && 0 < |p.value.marks| <= k + 1
  {
    match p
    case Err(e) => Err(e)
    case Ok(w) =>
      if w.Stop() < k then Ok(Walked(w.fields + rest, w.marks))
      else Walk(schema, s, k, w.marks[k], w.fields + rest, w.marks[..k])
  }

  /** A walk splits at field k: walking the first k fields, then `Resume`, is the whole walk. */
  lemma {:induction false} WalkSplit(schema: seq<FieldKind>, s: seq<byte>, i: nat, m: nat, fields: seq<Value>, marks: seq<nat>, k: nat)
    requires i <= k <= |schema| == |fields| && |marks| == i
    ensures
      var p := Walk(schema[..k], s, i, m, fields[..k], marks);
      p.Ok? ==> |p.value.fields| == k && i < |p.value.marks| <= k + 1
    ensures
      Walk(schema, s, i, m, fields, marks)
        == Resume(schema, s, fields[k..], k, Walk(schema[..k], s, i, m, fields[..k], marks))
    decreases k - i
  {
    WalkMarks(schema[..k], s, i, m, fields[..k], marks);
    if i == k {
      assert fields[..k] + fields[k..] == fields;
      assert (marks + [m])[..k] == marks;
    } else if m >= |s| {
      assert fields[..k] + fields[k..] == fields;
    } else {
      assert schema[..k][i] == schema[i] && fields[..k][i] == fields[i];
      assert Previous(fields[..k], i) == Previous(fields, i);
      var d := DecodeField(schema[i], fields[i], Previous(fields, i), i, s, m);
      WalkUnfold(schema[..k], s, i, m, fields[..k], marks, d);
      WalkUnfold(schema, s, i, m, fields, marks, d);
      if d.Ok? {
        var next := fields[i := d.value.value];
        assert fields[..k][i := d.value.value] == next[..k];
        assert next[k..] == fields[k..];
        WalkSplit(schema, s, i + 1, m + d.value.advance, next, marks + [m], k);
      }
    }
  }

  /**
   * The walk from field 0 reaches field j and finds too few bytes there: it decodes every
   * field before j, in order (the trace `DecodedAt`), leaves the cursor inside the payload,
   * and field j is `Short` at that cursor.
   */
  ghost predicate ReachedShort(schema: seq<FieldKind>, s: seq<byte>, fields: seq<Value>, j: nat)
    requires j < |schema| == |fields|
  {
    var p := Walk(schema[..j], s, 0, 0, fields[..j], []);
    WalkShape(schema[..j], s, 0, 0, fields[..j], []);
    && p.Ok? && p.value.Stop() == j && p.value.marks[j] < |s|
    && (forall k :: 0 <= k < j ==> DecodedAt(schema[..j], s, p.value, k))
    && Short(schema[j], Previous(p.value.fields, j), s, p.value.marks[j])
  }

  /** The walk from field 0 panics on field j exactly when it reaches field j with too few bytes left. */
  lemma WalkFails(schema: seq<FieldKind>, s: seq<byte>, fields: seq<Value>, j: nat)
    requires j < |schema| == |fields|
    ensures
      var r := Walk(schema, s, 0, 0, fields, []);
      (r.Err? && !r.error.ShortHeader? && r.error.index == j) <==> ReachedShort(schema, s, fields, j)
  {
    WalkSplit(schema, s, 0, 0, fields, [], j);
    var p := Walk(schema[..j], s, 0, 0, fields[..j], []);
    if p.Ok? {
      WalkTrace(schema[..j], s, 0, 0, fields[..j], []);
      if p.value.Stop() == j && p.value.marks[j] < |s| {
        WalkFailsFrom(schema, s, fields, j, p.value);
      }
    } else {
      WalkShape(schema[..j], s, 0, 0, fields[..j], []);
    }
  }

  /**
   * Once the walk has decoded the fields before j and its cursor is inside the payload, it
   * panics on field j exactly when field j is `Short` there (a helper for `WalkFails`).
   */
  lemma WalkFailsFrom(schema: seq<FieldKind>, s: seq<byte>, fields: seq<Value>, j: nat, w: Walked)
    requires j < |schema| == |fields| && |w.fields| == j && |w.marks| == j + 1 && w.marks[j] < |s|
    requires Walk(schema, s, 0, 0, fields, []) == Walk(schema, s, j, w.marks[j], w.fields + fields[j..], w.marks[..j])
    ensures
      var r := Walk(schema, s, 0, 0, fields, []);
      (r.Err? && !r.error.ShortHeader? && r.error.index == j) <==> Short(schema[j], Previous(w.fields, j), s, w.marks[j])
  {
    var f := w.fields + fields[j..];
    assert Previous(f, j) == Previous(w.fields, j);
    WalkFailsHere(schema, s, j, w.marks[j], f, w.marks[..j]);
  }

  /** A field fails to decode exactly when too few bytes remain for it. */
  lemma DecodeFieldFails(kind: FieldKind, current: Value, prev: Option<Value>, i: nat, s: seq<byte>, m: nat)
    requires m < |s|
    ensures DecodeField(kind, current, prev, i, s, m).Err? <==> Short(kind, prev, s, m)
  {
  }

  /** The walk from field j with the cursor inside the payload panics on field j exactly when it is `Short`. */
  lemma WalkFailsHere(schema: seq<FieldKind>, s: seq<byte>, j: nat, m: nat, fields: seq<Value>, marks: seq<nat>)
    requires j < |schema| == |fields| && |marks| == j && m < |s|
    ensures
      var r := Walk(schema, s, j, m, fields, marks);
      (r.Err? && !r.error.ShortHeader? && r.error.index == j) <==> Short(schema[j], Previous(fields, j), s, m)
  {
    var d := DecodeField(schema[j], fields[j], Previous(fields, j), j, s, m);
    DecodeFieldFails(schema[j], fields[j], Previous(fields, j), j, s, m);
    WalkUnfold(schema, s, j, m, fields, marks, d);
    if d.Ok? {
      WalkShape(schema, s, j + 1, m + d.value.advance, fields[j := d.value.value], marks + [m]);
    }
  }

  /**
   * Decoding a payload into an empty record panics with a truncated field j exactly when the
   * walk reaches field j with too few bytes left for it.
   */
  lemma DecodeFails(s: seq<byte>, o1: Record, j: nat)
    requires Typed(o1) && j < |Schema(o1.kind)|
    ensures Decode(s, o1) == Err(TruncatedField(j)) <==> ReachedShort(Schema(o1.kind), s, o1.fields, j)
  {
    var schema := Schema(o1.kind);
    WalkCountsPresent(schema, s, 0, 0, o1.fields, []);
    WalkFails(schema, s, o1.fields, j);
  }

  /** Only the embedded header's decoding looks at the field's value so far. */
  lemma DecodeFieldIgnoresCurrent(kind: FieldKind, current: Value, other: Value, prev: Option<Value>, i: nat, s: seq<byte>, m: nat)
    requires m < |s|
    requires kind == Basic ==> DecodeField(kind, current, prev, i, s, m) == Ok(Step(other, 0))
    ensures DecodeField(kind, current, prev, i, s, m) == DecodeField(kind, other, prev, i, s, m)
  {
  }

  /** One turn of the decoder loop, as an equation (a helper for `TransB2S`). */
  lemma WalkUnfold(schema: seq<FieldKind>, s: seq<byte>, i: nat, m: nat, fields: seq<Value>, marks: seq<nat>, r: Result<Step, Fault>)
    requires i < |schema| == |fields| && |marks| == i && m < |s|
    requires r == DecodeField(schema[i], fields[i], Previous(fields, i), i, s, m)
    ensures r.Err? ==> Walk(schema, s, i, m, fields, marks) == Err(r.error)
    ensures r.Ok? ==>
      Walk(schema, s, i, m, fields, marks) == Walk(schema, s, i + 1, m + r.value.advance, fields[i := r.value.value], marks + [m])
  {
  }

  /**
   * One case of the `TransB2S` switch: decodes field i of the given kind at cursor m,
   * with `current` its value so far and `prev` the field before it.
   */
  method DecodeFieldAt(kind: FieldKind, current: Value, prev: Option<Value>, i: nat, s: seq<byte>, m: nat)
    returns (r: Result<Step, Fault>)
    requires m < |s|
    ensures r == DecodeField(kind, current, prev, i, s, m)
  {
    match kind {
      case Basic =>
        // no case of the switch matches the embedded header: the field is left as it is
        r := Ok(Step(current, 0));
      case U1 =>
        r := Ok(Step(U1Value(s[m]), 1));
      case U2 =>
        if m + 2 > |s| {
          return Err(TruncatedField(i));
        }
        r := Ok(Step(U2Value(Uint16(s[m..m + 2])), 2));
      case U4 =>
        if m + 4 > |s| {
          return Err(TruncatedField(i));
        }
        r := Ok(Step(U4Value(Uint32(s[m..m + 4])), 4));
      case C1 =>
        r := Ok(Step(C1Value(s[m]), 1));
      case CN =>
        var n := s[m] as int;
        if n + m > |s| {
          r := Ok(Step(CNValue(s[m..]), 1 + n));
        } else {
          r := Ok(Step(CNValue(s[m..n + m]), 1 + n));
        }
      case KXU1 =>
        var count := if prev.Some? then CountOf(prev.value) else None;
        if count.None? {
          return Err(NotACount(i));
        }
        var k := count.value;
        var elems := ReadArray(s, m, k, i);
        if elems.Err? {
          return Err(elems.error);
        }
        r := Ok(Step(KXU1Value(elems.value), k));
    }
  }

  /**
   * The inner loop of the `KXU1` case: copies the k bytes from the cursor, one at a time,
   * and panics on the first one past the end of the payload.
   */
  method ReadArray(s: seq<byte>, m: nat, k: nat, i: nat) returns (r: Result<seq<byte>, Fault>)
    requires m < |s|
    ensures m + k <= |s| ==> r == Ok(s[m..m + k])
    ensures m + k > |s| ==> r == Err(TruncatedField(i))
  {
    var t2: seq<byte> := [];
    var j := 0;
    while j < k
      invariant 0 <= j <= k && m + j <= |s|
      invariant t2 == s[m..m + j]
    {
      if m + j >= |s| {
        return Err(TruncatedField(i));
      }
      t2 := t2 + [s[m + j]];
      j := j + 1;
    }
    r := Ok(t2);
  }

  /**
   * `TransB2S`: decodes payload s into the fields of the empty record o1. The Go function
   * always returns a nil error; `Ok` stands for that return and `Err` for its panics.
   */
  method TransB2S(s: seq<byte>, o1: Record) returns (r: Result<Record, Fault>)
    requires Typed(o1)
    ensures r == Decode(s, o1)
  {
    var decoded := DecodeFields(Schema(o1.kind), s, o1.fields);
    match decoded
    case Ok(fields) => r := Ok(Record(o1.kind, fields));
    case Err(e) => r := Err(e);
  }

  /**
   * The `for` loop of `TransB2S` over the fields of a struct with this schema, with its
   * cursor and its break once the cursor reaches the end of the payload.
   */
  method DecodeFields(schema: seq<FieldKind>, s: seq<byte>, fields0: seq<Value>) returns (r: Result<seq<Value>, Fault>)
    requires |schema| == |fields0|
    ensures Walk(schema, s, 0, 0, fields0, []).Ok? ==> r == Ok(Walk(schema, s, 0, 0, fields0, []).value.fields)
    ensures Walk(schema, s, 0, 0, fields0, []).Err? ==> r == Err(Walk(schema, s, 0, 0, fields0, []).error)
  {
    var fields := fields0;
    var m: nat := 0;
    var i := 0;
    ghost var marks: seq<nat> := [];
    ghost var whole := Walk(schema, s, 0, 0, fields0, []);
    while i < |schema|
      invariant 0 <= i <= |schema| == |fields| && |marks| == i
      invariant Walk(schema, s, i, m, fields, marks) == whole
    {
      if m >= |s| {
        break;
      }
      var prev := if i == 0 then None else Some(fields[i - 1]);
      assert prev == Previous(fields, i);
      var step := DecodeFieldAt(schema[i], fields[i], prev, i, s, m);
      WalkUnfold(schema, s, i, m, fields, marks, step);
      if step.Err? {
        assert whole == Err(step.error);
        return Err(step.error);
      }
      fields := fields[i := step.value.value];
      marks := marks + [m];
      m := m + step.value.advance;
      i := i + 1;
    }
    assert whole == Ok(Walked(fields, marks + [m]));
    r := Ok(fields);
  }

  /**
   * The bytes a fixed-width or counted-array value occupies in a payload: its little-endian
   * image for the integer kinds, the byte itself for `C1`, the elements for `KXU1`.
   */
  ghost function FieldImage(v: Value): (b: seq<byte>)
    requires KindOf(v) in {U1, U2, U4, C1, KXU1}
  {
    match v
    case U1Value(n) => [n]
    case U2Value(n) => ToLittleEndian(n, 2)
    case U4Value(n) => ToLittleEndian(n, 4)
    case C1Value(c) => [c]
    case KXU1Value(elems) => elems
  }

  /**
   * Decoding inverts `FieldImage`: where the payload holds the image of v at the cursor
   * (and, for a counted array, the previous field holds its length), the field decodes
   * to v and the cursor moves past the image.
   */
  lemma DecodeFieldOfImage(v: Value, current: Value, prev: Option<Value>, i: nat, s: seq<byte>, m: nat)
    requires KindOf(v) in {U1, U2, U4, C1, KXU1}
    requires m < |s| && m + |FieldImage(v)| <= |s| && s[m..m + |FieldImage(v)|] == FieldImage(v)
    requires v.KXU1Value? ==> prev.Some? && CountOf(prev.value) == Some(|v.kx|)
    ensures DecodeField(KindOf(v), current, prev, i, s, m) == Ok(Step(v, |FieldImage(v)|))
  {
    match v
    case U1Value(n) =>
      assert s[m] == s[m..m + 1][0];
    case C1Value(n) =>
      assert s[m] == s[m..m + 1][0];
    case U2Value(n) =>
      FromToLittleEndian(n, 2);
      assert s[m..m + 2][..2] == FieldImage(v);
    case U4Value(n) =>
      FromToLittleEndian(n, 4);
      assert s[m..m + 4][..4] == FieldImage(v);
    case KXU1Value(elems) =>
  }

  /**
   * The CN defect: for a payload holding a string in the format's layout (a length byte n,
   * then n bytes) at any cursor, before any further bytes, the stored value starts with the
   * length byte and lacks the string's last byte, so it differs from the string unless the
   * string begins with n. The cursor does move past the whole string.
   */
  lemma CnSliceIncludesLengthByte(pre: seq<byte>, str: seq<byte>, post: seq<byte>, current: Value, prev: Option<Value>, i: nat)
    requires 0 < |str| < 256
    ensures
      var s := pre + [|str| as byte] + str + post;
      && DecodeField(CN, current, prev, i, s, |pre|) == Ok(Step(CNValue([|str| as byte] + str[..|str| - 1]), 1 + |str|))
      && (str[0] != |str| ==> DecodeField(CN, current, prev, i, s, |pre|).value.value != CNValue(str))
  {
    var s := pre + [|str| as byte] + str + post;
    var m := |pre|;
    assert s[m] == |str|;
    assert Min(s[m], |s| - m) == |str|;
    assert s[m..m + |str|] == [|str| as byte] + str[..|str| - 1];
  }
}
