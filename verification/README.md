# Utf8String: length-prefixed UTF-8 string fields of the device detection data set

The device detection data set keeps every string (device and property names) in one
binary string region, addressed by byte offset. `Utf8String` is the entity for one of
these strings. Its constructor decodes one field from a `BinaryReader` positioned at the
field:

| part | size | meaning |
|---|---|---|
| length prefix `L` | 2 bytes, little-endian signed 16-bit | payload length + 1 |
| payload | `L - 1` bytes | the UTF-8 bytes, kept as the read-only `Value` |
| terminator | 1 byte | read and discarded so the next read starts after the field |

`ToString` turns `Value` into a .NET string on its first call and caches the result in
`_stringValue`. Every later call returns the cached string.

The model has four modules:

- `Wrappers` (`wrappers.dfy`): the `Option` and `Result` types. A failed `Result` carries the exception the C# implementation would raise.
- `BinaryReader` (`binary_reader.dfy`): the stream as an immutable byte sequence plus a cursor. It provides the three reads the constructor uses, with the .NET semantics it relies on:
  - `ReadInt16` is little-endian two's complement and throws at end of stream.
  - `ReadBytes` rejects a negative count. At end of stream it returns fewer bytes instead of throwing.
  - `ReadByte` throws at end of stream.
- `Utf8Strings` (`utf8_string.dfy`): the entity and the constructor. The constructor is written as the three reads in the C# implementation's order. Its contract describes the result directly from the bytes: when it succeeds, which payload it returns, how far the cursor moves, and which exception ends each failing case. Round trips are proved for one field and for fields packed back to back.
- `StringCache` (`string_cache.dfy`): the `ToString` cache. It has two parts:
  - a pure state machine over an `Option<string>` slot, with lemmas about any number of consecutive calls;
  - a class that keeps the payload in a constant field, a modelling choice (see "## Left out"), and whose slot is the only non-ghost mutable field.

Points of behaviour that follow the code exactly:

- Byte order is fixed to little-endian, because `BinaryReader.ReadInt16` reads that way.
- A field needs `L + 2` bytes from the cursor: 2 for the prefix and `L` for the payload and terminator.
- `L < 1` (a malformed length) fails with `ArgumentOutOfRange`, because `ReadBytes` rejects a negative count. A truncated stream fails with `EndOfStream`.
- Invalid UTF-8 is not an error: `Encoding.UTF8.GetString` does not throw but substitutes replacement characters. So decoding is total, and `ToString` has no failure path.

## Model

| member | source | states |
|---|---|---|
| BinaryReader.Int16ToLe | FoundationV3/Mobile/Detection/Entities/Utf8String.cs:72 | The two little-endian bytes of any signed 16-bit length decode back to that length. |
| BinaryReader.Int16FromLe | FoundationV3/Mobile/Detection/Entities/Utf8String.cs:72 | The prefix is read as two's complement. A non-negative length equals low byte + 256 * high byte. A negative length is that sum minus 65536. The length is negative exactly when the high byte's top bit is set. |
| BinaryReader.ReadInt16 | FoundationV3/Mobile/Detection/Entities/Utf8String.cs:72 | Reading the prefix fails with end of stream exactly when fewer than 2 bytes remain. Otherwise the value is the one whose little-endian encoding is the next 2 bytes, and the cursor advances by 2. |
| BinaryReader.ReadBytes | FoundationV3/Mobile/Detection/Entities/Utf8String.cs:72 | A negative count fails with argument out of range. Otherwise the result is the next min(count, remaining) bytes, and the cursor moves past exactly those bytes. |
| BinaryReader.ReadByte | FoundationV3/Mobile/Detection/Entities/Utf8String.cs:76 | Reading the terminator fails with end of stream exactly when no byte remains. Otherwise it returns the byte at the cursor and advances the cursor by 1. |
| Utf8Strings.Construct | FoundationV3/Mobile/Detection/Entities/Utf8String.cs:67-77 | Construction succeeds exactly when a 2-byte prefix, L >= 1, and L more bytes are present. Value is then the L - 1 bytes after the prefix: the terminator is excluded and its value is ignored. Value has at most 32766 bytes, the cursor advances by exactly L + 2, and the data set and offset are kept. Fewer than 2 bytes gives end of stream, L < 1 gives argument out of range, and a short body gives end of stream. |
| Utf8Strings.ConstructFieldAt | FoundationV3/Mobile/Detection/Entities/Utf8String.cs:67-77 | If the cursor is at a prefix declaring \|b\|+1 followed by the bytes b and one more byte, construction yields exactly b. The cursor then moves past the field, and nothing about the terminator's value matters. |
| Utf8Strings.ConstructEncodeField | FoundationV3/Mobile/Detection/Entities/Utf8String.cs:67-77 | Round trip: a field encoded as le16(\|b\|+1) ++ b ++ [t], anywhere in a stream and for any terminator t, decodes to payload b. The cursor then sits just past the field. |
| Utf8Strings.ConstructFieldsAt | FoundationV3/Mobile/Detection/Entities/Utf8String.cs:72-76 | Reading fields one after another, each from where the previous construction left the reader, yields the payloads of consecutive fields in order. The reader then sits past all of them. |
| Utf8Strings.ConstructEncodeFields | FoundationV3/Mobile/Detection/Entities/Utf8String.cs:72-76 | Fields packed back to back decode in sequence: entity i gets exactly payload i, and the reader ends just after the last field. |
| StringCache.ToStringStep | FoundationV3/Mobile/Detection/Entities/Utf8String.cs:87-101 | One call leaves the slot set and returns what the slot holds. A slot that is already set is never replaced and nothing is decoded. The decoder runs exactly when the slot was empty. From a sound slot, the result is decode(Value). |
| StringCache.CallsFromUncached | FoundationV3/Mobile/Detection/Entities/Utf8String.cs:89-99 | Over any n >= 1 calls on a fresh entity, the decoder runs exactly once, in the first call. Every call returns decode(Value), and the slot holds that text after each call. |
| StringCache.CallsWhenCached | FoundationV3/Mobile/Detection/Entities/Utf8String.cs:89-101 | Once the slot holds decode(Value), no later call decodes or changes the slot, and every call returns the same text: ToString is idempotent. |
| StringCache.Utf8StringObject.ToString | FoundationV3/Mobile/Detection/Entities/Utf8String.cs:87-101 | On the object, ToString returns decode(Value) and leaves the slot holding it. A set slot is kept unchanged without decoding, and a first call decodes once. In the model Value is a constant field, so the call cannot modify it. |
| StringCache.Utf8StringObject.constructor | FoundationV3/Mobile/Detection/Entities/Utf8String.cs:101 | A new object has an empty slot and has not decoded. It keeps the given entity and decoder, and its cache invariant holds. |

## Left out

- The `lock (this)` and the second null check inside it (lines 91-97) exist only for concurrent callers. The model is sequential. Sequentially the inner check is always true, so only the outer check is modelled.
- `Encoding.UTF8.GetString` (line 95) is a library decoder. It is a parameter `decode`: any total, deterministic function from bytes to text. UTF-8 itself is not re-specified.
- The base class `DeviceDetectionBaseEntity` and `IDataSet` are not part of this model. The entity keeps the data set only as an opaque identity, and the offset only as a 32-bit integer that construction stores unchanged.
- `BinaryReader` and `Stream` I/O are replaced by an immutable byte sequence and a cursor. When construction fails, no reader is returned, so how far a real stream moved before the exception is not modelled.
- `Value` is a public `readonly byte[]` (line 47). `readonly` stops only the reference from being reassigned, so any holder can still write its elements. The model treats the payload as an immutable sequence. The cached text equals decode(Value) only under that assumption: in C#, writing into the array after the first `ToString` would leave later calls returning stale text.
- Utf8Strings.ConstructFields is a caller-side helper for the sequential-decoding lemma. It is not an operation of the C# implementation, and its own contract only states the shape of its result.
