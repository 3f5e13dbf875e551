# STDF V4 record header, dispatch and payload codec

A Dafny model of the core of a Go package that reads Teradyne STDF V4 files
(Standard Test Data Format). An STDF file is a flat stream of records. Each record
starts with a four-byte header: a little-endian two-byte payload length (`REC_LEN`),
a record type byte (`REC_TYP`) and a sub-type byte (`REC_SUB`). The payload that
follows is laid out according to the record kind.

The model covers the three operations of `stdf.go`:

- `NewStdfRecord` reads the header and returns an empty record of the kind its
  (type, sub-type) pair names. It knows FAR (0, 10), MIR (1, 10) and SDR (1, 80),
  and returns `nil` for every other pair.
- `TransB2S` walks a record's fields in declaration order with a byte cursor and
  fills each field from the payload. It stops as soon as the cursor reaches the end
  of the payload.
- `FAR.ToByte` writes the six-byte wire image of a File Attributes Record.

## Modules

- `Wrappers` (wrappers.dfy): `Option` (`None` is Go's `nil`) and `Result` (`Err` is a runtime panic).
- `Bytes` (bytes.dfy): `byte`, `u16`, `u32`, and little-endian reading and writing.
  These are the `binary.LittleEndian` calls the code makes.
- `Layout` (layout.dfy): the field kinds, the field values, and one schema per record kind.
  A schema is the struct's field types in declaration order.
- `Header` (header.dfy): `ParseHeader`, the `REGISTRY` table of kind codes, `EmptyRecord`
  and `NewStdfRecord`.
- `Codec` (codec.dfy): the one-field decoding `DecodeField`, the decoder loop `Walk`,
  the methods `TransB2S`, `DecodeFields` (its `for` loop), `DecodeFieldAt` (its switch) and
  `ReadArray` (the array loop inside the switch) proved against them, and lemmas about both.
- `Far` (far.dfy): `FAR.ToByte` and the FAR round trips.
- `Scenarios` (scenarios.dfy): concrete decodings of a FAR, an SDR, a MIR, a string and an array.
- `Defects` (defects.dfy): the other half of each defect of the source, described below.

## Modelling decisions

- **Schemas instead of reflection.** The Go decoder picks its behaviour from the field's
  type name, found by reflection. Here each record kind has an explicit schema, a
  `seq<FieldKind>`, and a record is its kind plus a sequence of field values.
  Field 0 of every struct is the embedded `BasicRecordType`. The schema keeps it, as
  kind `Basic`, so field numbers match the Go struct. It matches no case of the switch,
  so it consumes no bytes and keeps the header that `NewStdfRecord` stored in it.
- **Panics are error results.** The Go code panics in four places. `ParseHeader` and
  `NewStdfRecord` return `Err(ShortHeader)` when there are fewer than 4 header bytes.
  `DecodeField` returns `Err(TruncatedField(i))` when a `U2`, `U4` or `KXU1` field runs
  past the payload. It returns `Err(NotACount(i))` when a `KXU1` field has no
  unsigned-integer field before it. The model assumes that the payload slice's capacity
  equals its length. This holds for the `make([]byte, n)` buffer of the test harness.
  With a larger capacity, Go would read past the length instead of panicking.
- **`Ok` is the `nil` error.** `TransB2S` always returns `nil`.
- **Cursor trace.** `Walk` also returns `marks`: the cursor before each field it decoded,
  then the cursor at exit. These are the values of the loop variable `m`. The order and
  stopping lemmas are stated with them.
- **Lenient checks.** A CN string whose length byte runs past the payload stores the rest
  of the payload (stdf.go:152-153) and does not panic. The bytes consumed are never compared
  with `REC_LEN`. A counted array takes its count from the field just before it
  (stdf.go:159). An unknown (type, sub-type) pair gives `nil` (stdf.go:122), which is
  `Ok(None)` here.

## Defects of the source

Each defect has two members: one that decodes as the Go code is written, and one that
decodes as the format describes. Module `Defects` (defects.dfy) holds the second half of each.

- **CN value slice** (stdf.go:150-157). The doc comment at stdf.go:17-18 says the first
  byte is the count of the bytes that follow. The code stores `s[m : m+n]`, which starts
  at the length byte itself and lacks the string's last byte. The cursor does advance by
  `1 + n`, past the whole string.
  - As written: `Codec.DecodeField` keeps this slice, and the rest of the model uses it.
    `Codec.CnSliceIncludesLengthByte` states the effect for a string at any cursor.
    `Scenarios.CnExample` shows that `[3, 'A', 'B', 'C']` stores `[3, 'A', 'B']`.
  - As the format describes: `Defects.DecodeCnIntended` takes the bytes after the length
    byte. `Defects.CnIntendedStoresString` proves that it gives back the string.
- **KXU1 count** (stdf.go:159). The code asserts the previous field to Go's `int`. That
  field is a `U1`, so the assertion panics on every SDR whose payload reaches `SITE_NUM`.
  - As written: `Defects.WalkAsWritten` decodes every counted array as a panic.
    `Defects.SdrAsWrittenPanics` proves that every SDR payload of four or more bytes then
    panics on field 4. `Defects.FarMirAsWritten` proves that FAR and MIR, which have no
    counted array, decode the same either way.
  - As the format describes (stdf.go:488-489, 513-514): `Codec.DecodeField` takes the
    numeric value of the previous field as the count, and the rest of the model uses it.

## Model

| member | source | states |
|---|---|---|
| `Bytes.Uint16` | stdf.go:141 | the two-byte little-endian read is `b[0] + 256·b[1]` |
| `Bytes.Uint32` | stdf.go:144 | the four-byte little-endian read is `b[0] + 2^8·b[1] + 2^16·b[2] + 2^24·b[3]` |
| `Bytes.PutUint16` | stdf.go:236 | the two-byte image of a `u16` is its low byte, then its high byte |
| `Bytes.FromToLittleEndian` | stdf.go:236 | reading the n-byte little-endian image of v gives back v |
| `Bytes.ToFromLittleEndian` | stdf.go:141-145 | writing the value read from a byte string gives back the same bytes |
| `Header.ParseHeader` | stdf.go:97-101 | fewer than 4 bytes is `ShortHeader`; otherwise length `a[0] + 256·a[1]`, type `a[2]`, sub-type `a[3]` |
| `Header.HeaderRoundTrip` | stdf.go:99-101 | parsing the four header bytes that `FAR.ToByte` writes gives back the header |
| `Header.HeaderBytes` | stdf.go:235-238 | the header image `FAR.ToByte` writes is four bytes: the length as a little-endian pair (low byte first), then type, then sub-type |
| `Header.HeaderBytesOfParse` | stdf.go:235-238 | re-encoding a parsed header gives back the first four input bytes |
| `Header.EmptyRecord` | stdf.go:106-118 | an empty record of a kind has the struct's field types, holds the given header, and has every other field at Go's zero value |
| `Header.NewStdfRecord` | stdf.go:97-123 | `ShortHeader` exactly when fewer than 4 bytes; a record exactly when (type, sub-type) is in `REGISTRY`, namely FAR (0,10), MIR (1,10) or SDR (1,80), and then the empty record of that kind holding the parsed header; `nil` for every other pair |
| `Header.NewStdfRecordReadsFourBytes` | stdf.go:99-101 | inputs that agree on their first four bytes give the same result |
| `Header.ParseHeaderExample` | stdf.go:97-101 | `[0x02, 0x00, 0x00, 0x0A]` parses to length 2, type 0, sub-type 10 |
| `Header.UnknownKindExample` | stdf.go:122 | the pair (99, 99) yields `nil` and not a panic |
| `Layout.CountOf` | stdf.go:159 | an array count exists exactly for the unsigned-integer fields `U1`, `U2` and `U4` |
| `Layout.FarSchema` | stdf.go:225-231 | FAR is the header and two `U1` fields |
| `Layout.MirSchema` | stdf.go:379-457 | MIR is the header, SETUP_T and START_T as `U4`, BURN_TIM as `U2` at field 7, and 30 strings from field 9 on |
| `Layout.SdrSchema` | stdf.go:522-564 | SDR is the header, three `U1` fields ending with SITE_CNT, the SITE_NUM array at field 4, then 16 strings |
| `Layout.Schema` | stdf.go:184-191 | every schema has the embedded header first and nowhere else, and every counted array directly after an unsigned-integer field |
| `Codec.DecodeField` | stdf.go:133-166 | the header field consumes nothing and keeps its value; `U1`/`C1` store `s[m]` and advance 1; `U2`/`U4` store the little-endian value and advance 2 or 4, and panic exactly when fewer bytes remain; `CN` with `n = s[m]` advances `1 + n` and stores the slice from `m` of length `min(n, len - m)`; `KXU1` takes the previous field's value `k`, stores `s[m..m+k]` and advances `k`, and panics exactly when there is no count or `m + k` exceeds the payload |
| `Codec.Walk` | stdf.go:129-167 | the loop stops at the last field or once the cursor reaches the end of the payload, otherwise decodes field i with `DecodeField` and goes on from the cursor plus its advance; when it ends without a panic it returns one value per struct field |
| `Codec.WalkShape` | stdf.go:128-168 | the fields before the start and from the stop on keep their values, the header field is never changed, the cursor never decreases, an early stop means the cursor reached the end of the payload, and a panic names a `U2`, `U4` or `KXU1` field |
| `Codec.WalkTrace` | stdf.go:129-166 | every field up to the stop was decoded in declaration order, as one field, at a cursor inside the payload, and the next cursor is that one plus the field's advance |
| `Codec.WalkConforms` | stdf.go:133-166 | decoding keeps every field of the type its struct declares |
| `Codec.WalkCountsPresent` | stdf.go:158-159 | on a well-formed schema, every counted array finds its count, so the only panic is a truncated field |
| `Codec.Decode` | stdf.go:125-168 | a decoded record has the same kind and header and the struct's field types; a failure is a truncated `U2`, `U4` or `KXU1` field |
| `Codec.DecodeFieldFails` | stdf.go:141-165 | a field panics exactly when too few bytes remain for it: 2 for `U2`, 4 for `U4`, and for `KXU1` the count, or it has no count |
| `Codec.WalkSplit` | stdf.go:129-166 | walking the first k fields of a struct and then going on from field k with the cursor they left is the same as the whole walk |
| `Codec.WalkFails` | stdf.go:129-166 | the walk panics on field j exactly when it decodes every field before j in order, its cursor is still inside the payload, and field j has too few bytes left |
| `Codec.DecodeFails` | stdf.go:125-168 | decoding a payload into an empty record fails on field j exactly when the walk reaches field j with too few bytes left for it |
| `Codec.TransB2S` | stdf.go:125-168 | decoding a payload into the empty record o1 computes exactly `Decode`: the record of o1's kind holding the fields the loop leaves, or the panic the loop raises |
| `Codec.DecodeFields` | stdf.go:129-167 | the loop over the fields with its cursor and its break computes exactly `Walk` from field 0 at cursor 0: the fields it leaves, or the panic it raises |
| `Codec.DecodeFieldAt` | stdf.go:135-166 | the switch over the field type computes exactly `DecodeField` |
| `Codec.ReadArray` | stdf.go:160-163 | the loop that appends one byte per element gives the k bytes from the cursor when they lie inside the payload, and panics otherwise |
| `Codec.DecodeFieldOfImage` | stdf.go:136-149 | where the payload holds the little-endian image of a `U1`/`U2`/`U4`/`C1` value, or the elements of an array whose count field holds its length, decoding gives back the value and advances past the image |
| `Codec.CnSliceIncludesLengthByte` | stdf.go:150-157 | for a string `[n] + str` at any cursor and before any further bytes, the stored value is `[n] + str[..n-1]`, which differs from `str` unless `str` starts with `n`, and the cursor advances past the whole string |
| `Defects.DecodeCnIntended` | stdf.go:17-18 | the string as the format lays it out is a prefix of the bytes after the length byte, of length `min(n, bytes left)`, and the cursor advances by `1 + n` |
| `Defects.CnIntendedStoresString` | stdf.go:17-18 | for `[n] + str` at any cursor and before any further bytes, the format's decoding stores exactly `str` and advances `1 + n` |
| `Defects.DecodeFieldAsWritten` | stdf.go:158-159 | every `KXU1` field panics with `NotACount`, every other kind decodes as `DecodeField` |
| `Defects.WalkAsWritten` | stdf.go:129-167 | the loop as written, over `DecodeFieldAsWritten`: without a panic it returns one value per struct field and a cursor for each field it reached; a panic names a field at or after the start, never the header |
| `Defects.WalkAsWrittenAgrees` | stdf.go:129-166 | with no counted array ahead, the walk as written and the model's walk give the same outcome |
| `Defects.FarMirAsWritten` | stdf.go:125-168 | FAR and MIR decode the same as written and in the model |
| `Defects.SitesAsWrittenPanics` | stdf.go:158-159 | as written, a struct that starts as SDR's does panics on field 4 for every payload of four or more bytes |
| `Defects.SdrAsWrittenPanics` | stdf.go:158-159 | as written, decoding any SDR payload of four or more bytes panics on `SITE_NUM` |
| `Far.ToByte` | stdf.go:233-242 | returns exactly the 6 bytes `[len & 0xFF, len >> 8, type, sub-type, CPU_TYPE, STDF_VER]` |
| `Far.FarDecode` | stdf.go:125-149 | decoding any payload into an empty FAR never panics, and a payload of at least two bytes sets CPU_TYPE and STDF_VER to its first two bytes |
| `Far.FarRoundTrip` | stdf.go:97-108 | for a FAR with codes (0, 10), its image's header selects the empty FAR holding its header, and decoding the image's two payload bytes gives back the FAR |
| `Far.FarWireRoundTrip` | stdf.go:233-242 | six bytes with codes (0, 10) decode into a FAR whose image is the same six bytes |
| `Far.FarExample` | stdf.go:102-108 | the bytes `02 00 00 0A 02 04` give a FAR with length 2, CPU_TYPE 2 and STDF_VER 4 |
| `Scenarios.SiteNumbersExample` | stdf.go:158-165 | after a count field holding 3, the array takes the next three bytes `[5, 6, 7]` |
| `Scenarios.CnExample` | stdf.go:150-157 | the string payload `[3, 'A', 'B', 'C']` advances the cursor by 4 and stores `[3, 'A', 'B']` |
| `Scenarios.SdrExample` | stdf.go:129-132 | an SDR payload `[1, 2, 3, 5, 6, 7]` fills HEAD_NUM, SITE_GRP, SITE_CNT and SITE_NUM, then stops, and the 16 strings keep their zero value |
| `Scenarios.MirShortPayloadExample` | stdf.go:143-145 | a three-byte MIR payload panics on the `U4` field SETUP_T |

## Left out

- `ToString` of FAR, MIR and SDR (stdf.go:244-246, 471-475, 578-582) are left out. They only format text, and MIR's uses the local time zone.
- `MIR.ToByte` and `SDR.ToByte` (stdf.go:459-469, 566-576) are left out. They are stubs that return two zero bytes.
- The commented-out ATR record (stdf.go:268-295) is left out. It is dead code.
- The types `I1`, `I2`, `I4`, `R4`, `R8`, `C12`, `CF` and `B6` are left out. No modelled struct uses them and the decoder has no case for them. `R4` and `R8` are floating point.
- The reflection calls (`reflect.TypeOf`, `Field(i).Set`, type-name strings) are left out. The explicit schemas replace them.
- The read loop of stdf_test.go is left out. It does file I/O and logging. From it the model takes only the calling convention: the payload is the `REC_LEN` bytes after the header.
- `Codec.DecodeField`: the `KXU1` count is the previous field's numeric value, which is the format's intent. The Go assertion `.(int)` at stdf.go:159 would panic instead; `Defects.WalkAsWritten` models that panic.
- `Codec.Decode`: a panic returns only the fault. The Go struct would keep the fields already filled, but nothing reads them after a panic.
- `Far.ToByte`: the Go method's second result, an error that is always `nil`, is not returned.
