/**
  The string entity of the device detection data set: a length-prefixed UTF-8 field
  decoded from the data set's string region.

  On-stream layout of one field at the reader's cursor:
    | length prefix L  | 2 bytes, little-endian signed 16-bit |
    | payload          | L - 1 bytes (the UTF-8 text)         |
    | terminator       | 1 byte, read and discarded           |
*/
module Utf8Strings {
  import opened Wrappers
  import opened BinaryReader

  newtype int32 = x: int | -0x8000_0000 <= x < 0x8000_0000

  /** The owning data set, kept only as an identity. */
  datatype DataSet = DataSet(id: nat)

  /** A constructed string field: its owner, its offset in the string region, and its UTF-8 bytes. */
  datatype Utf8String = Utf8String(dataSet: DataSet, offset: int32, value: seq<uint8>)

  /** The longest payload a 16-bit signed prefix can declare. */
  const MaxPayloadLength: nat := 0x7FFF - 1

  /** The declared length `L` of the field at the cursor. */
  function DeclaredLength(r: Reader): int16
    requires Available(r) >= 2
  {
    Int16FromLe(r.data[r.pos], r.data[r.pos + 1])
  }

  /** A whole field starts at the cursor: a prefix, a positive length, and `L` more bytes. */
  predicate FieldFits(r: Reader) {
    && Available(r) >= 2
    && DeclaredLength(r) >= 1
    && Available(r) >= DeclaredLength(r) as int + 2
  }

  /** The payload of a field that fits: the `L - 1` bytes right after the prefix. */
  function PayloadAt(r: Reader): seq<uint8>
    requires FieldFits(r)
  {
    r.data[r.pos + 2 .. r.pos + 1 + DeclaredLength(r) as int]
  }

  /**
    The constructor: read the length prefix, read `L - 1` payload bytes, read and
    discard the terminator, leaving the reader just past the field.
  */
  function Construct(dataSet: DataSet, offset: int32, reader: Reader): (res: Result<Read<Utf8String>, ReadError>)
    // succeeds exactly when the whole field is present, with the bytes after the prefix
    // as payload and the cursor advanced by L + 2
    ensures res.Success? <==> FieldFits(reader)
    ensures res.Success? ==>
              res.value == Read(Utf8String(dataSet, offset, PayloadAt(reader)),
                                reader.(pos := reader.pos + DeclaredLength(reader) as int + 2))
    ensures res.Success? ==> |res.value.value.value| == DeclaredLength(reader) as int - 1 <= MaxPayloadLength
    // the three ways construction fails, in the order the reads happen
    ensures Available(reader) < 2 ==> res == Failure(EndOfStream)
    ensures Available(reader) >= 2 && DeclaredLength(reader) < 1 ==> res == Failure(ArgumentOutOfRange)
    ensures Available(reader) >= 2 && DeclaredLength(reader) >= 1 && !FieldFits(reader) ==>
              res == Failure(EndOfStream)
  {
    var length :- ReadInt16(reader);
    assert length.value == DeclaredLength(reader) by {
      var b := Int16ToLe(length.value);
      assert b[0] == reader.data[reader.pos] && b[1] == reader.data[reader.pos + 1];
    }
    var bytes :- ReadBytes(length.rest, length.value as int - 1);
    var terminator :- ReadByte(bytes.rest);
    assert FieldFits(reader);
    assert bytes.value == PayloadAt(reader);
    assert terminator.rest.pos == reader.pos + DeclaredLength(reader) as int + 2;
    Success(Read(Utf8String(dataSet, offset, bytes.value), terminator.rest))
  }

  /** The bytes of one field holding `payload`, with any terminator byte. */
  function EncodeField(payload: seq<uint8>, terminator: uint8): (e: seq<uint8>)
    requires |payload| <= MaxPayloadLength
    ensures |e| == |payload| + 3
  {
    Int16ToLe((|payload| + 1) as int16) + payload + [terminator]
  }

  /** The cursor is at a field that holds `payload`: its prefix, its payload and some terminator are present. */
  predicate FieldAt(r: Reader, payload: seq<uint8>) {
    && |payload| <= MaxPayloadLength
    && r.pos + |payload| + 3 <= |r.data|
    && r.data[r.pos..r.pos + 2] == Int16ToLe((|payload| + 1) as int16)
    && r.data[r.pos + 2..r.pos + 2 + |payload|] == payload
  }

  /** Construction at a field that holds `payload` yields `payload` and moves the cursor past the field. */
  lemma ConstructFieldAt(dataSet: DataSet, offset: int32, reader: Reader, payload: seq<uint8>)
    requires FieldAt(reader, payload)
    ensures Construct(dataSet, offset, reader)
              == Success(Read(Utf8String(dataSet, offset, payload), reader.(pos := reader.pos + |payload| + 3)))
  {
  }

  /** An encoded field, wherever it sits in a stream, is a field holding its payload. */
  lemma EncodeFieldAt(payload: seq<uint8>, terminator: uint8, before: seq<uint8>, after: seq<uint8>)
    requires |payload| <= MaxPayloadLength
    ensures FieldAt(Reader(before + EncodeField(payload, terminator) + after, |before|), payload)
  {
    var field := EncodeField(payload, terminator);
    var data := before + field + after;
    assert data[|before|..|before| + |field|] == field;
    assert data[|before|..|before| + 2] == field[..2];
    assert data[|before| + 2..|before| + 2 + |payload|] == field[2..2 + |payload|];
  }

  /**
    Round trip: a field written anywhere in a stream decodes back to its payload,
    whatever the terminator byte and whatever bytes surround it, and leaves the
    cursor on the first byte after it.
  */
  lemma ConstructEncodeField(dataSet: DataSet, offset: int32, payload: seq<uint8>, terminator: uint8,
                             before: seq<uint8>, after: seq<uint8>)
    requires |payload| <= MaxPayloadLength
    ensures var data := before + EncodeField(payload, terminator) + after;
            Construct(dataSet, offset, Reader(data, |before|))
              == Success(Read(Utf8String(dataSet, offset, payload), Reader(data, |before| + |payload| + 3)))
  {
    EncodeFieldAt(payload, terminator, before, after);
    ConstructFieldAt(dataSet, offset, Reader(before + EncodeField(payload, terminator) + after, |before|), payload);
  }

  /** The bytes of consecutive fields, each closed by a zero terminator. */
  function EncodeFields(payloads: seq<seq<uint8>>): seq<uint8>
    requires forall i :: 0 <= i < |payloads| ==> |payloads[i]| <= MaxPayloadLength
  {
    if payloads == [] then [] else EncodeField(payloads[0], 0) + EncodeFields(payloads[1..])
  }

  /** The total number of bytes that fields holding `payloads` occupy. */
  function FieldsSize(payloads: seq<seq<uint8>>): nat {
    if payloads == [] then 0 else |payloads[0]| + 3 + FieldsSize(payloads[1..])
  }

  /** The cursor is at consecutive fields holding `payloads`, in order. */
  predicate FieldsAt(r: Reader, payloads: seq<seq<uint8>>)
    decreases |payloads|
  {
    payloads != [] ==>
      && FieldAt(r, payloads[0])
      && FieldsAt(r.(pos := r.pos + |payloads[0]| + 3), payloads[1..])
  }

  /**
    Sequential construction, as the data set reads its string region: one entity per
    offset, each starting where the previous one left the reader. Its contract gives
    only the shape; what it decodes is stated by `ConstructFieldsAt` and
    `ConstructEncodeFields`.
  */
  function ConstructFields(dataSet: DataSet, offsets: seq<int32>, reader: Reader)
    : (res: Result<Read<seq<Utf8String>>, ReadError>)
    ensures res.Success? ==> |res.value.value| == |offsets|
    ensures res.Success? ==> res.value.rest.data == reader.data && res.value.rest.pos >= reader.pos
  {
    if offsets == [] then
      Success(Read([], reader))
    else
      var first :- Construct(dataSet, offsets[0], reader);
      var others :- ConstructFields(dataSet, offsets[1..], first.rest);
      Success(Read([first.value] + others.value, others.rest))
  }

  /** The payloads of a sequence of entities, in order. */
  function Values(entities: seq<Utf8String>): seq<seq<uint8>> {
    if entities == [] then [] else [entities[0].value] + Values(entities[1..])
  }

  /** Sequential construction is the first construction followed by the rest, from where it stopped. */
  lemma ConstructFieldsStep(dataSet: DataSet, offsets: seq<int32>, reader: Reader,
                            first: Read<Utf8String>, others: Read<seq<Utf8String>>)
    requires offsets != []
    requires Construct(dataSet, offsets[0], reader) == Success(first)
    requires ConstructFields(dataSet, offsets[1..], first.rest) == Success(others)
    ensures var res := ConstructFields(dataSet, offsets, reader);
            && res.Success?
            && Values(res.value.value) == [first.value.value] + Values(others.value)
            && res.value.rest == others.rest
  {
  }

  /**
    Consecutive fields decode in sequence: each entity gets exactly its own payload,
    and the reader ends just past the last field.
  */
  lemma {:induction false} ConstructFieldsAt(dataSet: DataSet, offsets: seq<int32>, reader: Reader,
                                             payloads: seq<seq<uint8>>)
    requires |offsets| == |payloads|
    requires FieldsAt(reader, payloads)
    ensures var res := ConstructFields(dataSet, offsets, reader);
            && res.Success?
            && Values(res.value.value) == payloads
            && res.value.rest == reader.(pos := reader.pos + FieldsSize(payloads))
    decreases |payloads|
  {
    if payloads != [] {
      var first := Read(Utf8String(dataSet, offsets[0], payloads[0]), reader.(pos := reader.pos + |payloads[0]| + 3));
      assert Construct(dataSet, offsets[0], reader) == Success(first) by {
        ConstructFieldAt(dataSet, offsets[0], reader, payloads[0]);
      }
      var others := ConstructFields(dataSet, offsets[1..], first.rest);
      assert others.Success? && Values(others.value.value) == payloads[1..]
             && others.value.rest.pos == reader.pos + FieldsSize(payloads) by {
        ConstructFieldsAt(dataSet, offsets[1..], first.rest, payloads[1..]);
      }
      ConstructFieldsStep(dataSet, offsets, reader, first, others.value);
      assert payloads == [payloads[0]] + payloads[1..];
    }
  }

  /** Encoded fields packed back to back, wherever they sit in a stream, are fields holding their payloads. */
  lemma {:induction false} EncodeFieldsAt(payloads: seq<seq<uint8>>, before: seq<uint8>, after: seq<uint8>)
    requires forall i :: 0 <= i < |payloads| ==> |payloads[i]| <= MaxPayloadLength
    ensures FieldsAt(Reader(before + EncodeFields(payloads) + after, |before|), payloads)
    ensures |EncodeFields(payloads)| == FieldsSize(payloads)
    decreases |payloads|
  {
    if payloads != [] {
      var field := EncodeField(payloads[0], 0);
      var tail := EncodeFields(payloads[1..]);
      var data := before + EncodeFields(payloads) + after;
      assert data == before + field + (tail + after) == (before + field) + tail + after;
      EncodeFieldAt(payloads[0], 0, before, tail + after);
      EncodeFieldsAt(payloads[1..], before + field, after);
    }
  }

  /**
    Fields packed back to back decode in sequence: each entity gets exactly its own
    payload, the second field starting where the first one ended, and the reader
    ends just past the last field.
  */
  lemma ConstructEncodeFields(dataSet: DataSet, offsets: seq<int32>, payloads: seq<seq<uint8>>,
                              before: seq<uint8>, after: seq<uint8>)
    requires |offsets| == |payloads|
    requires forall i :: 0 <= i < |payloads| ==> |payloads[i]| <= MaxPayloadLength
    ensures var data := before + EncodeFields(payloads) + after;
            var res := ConstructFields(dataSet, offsets, Reader(data, |before|));
            && res.Success?
            && Values(res.value.value) == payloads
            && res.value.rest == Reader(data, |before| + |EncodeFields(payloads)|)
  {
    EncodeFieldsAt(payloads, before, after);
    ConstructFieldsAt(dataSet, offsets, Reader(before + EncodeFields(payloads) + after, |before|), payloads);
  }
}
