/**
  The lazily materialised text of a string entity: a single cache slot that is empty
  until the first `ToString` call stores the decoded text, and never changes after.

  The UTF-8 decoder of the .NET library is a parameter `decode`: any total,
  deterministic function from bytes to text.
*/
module StringCache {
  import opened Wrappers
  import opened BinaryReader
  import opened Utf8Strings

  /** The cache slot: `None` while uncached, `Some(text)` once materialised. */
  type Cache = Option<string>

  /** What one `ToString` call returns, the slot after it, and whether it ran the decoder. */
  datatype Step = Step(text: string, cache: Cache, decoded: bool)

  /** The slot holds nothing but the decoding of the payload. */
  predicate Consistent(decode: seq<uint8> -> string, value: seq<uint8>, cache: Cache) {
    cache.Some? ==> cache.value == decode(value)
  }

  /** One sequential `ToString` call. */
  function ToStringStep(decode: seq<uint8> -> string, value: seq<uint8>, cache: Cache): (s: Step)
    // the slot is set after any call and the call returns what it holds
    ensures s.cache == Some(s.text)
    // a set slot is never replaced, and then nothing is decoded
    ensures cache.Some? ==> s.cache == cache && !s.decoded
    // the decoder runs only to fill an empty slot
    ensures s.decoded <==> cache.None?
    // the returned text is the decoding of the payload whenever the slot was sound
    ensures Consistent(decode, value, cache) ==> s.text == decode(value) && Consistent(decode, value, s.cache)
  {
    match cache
    case None =>
      var text := decode(value);
      Step(text, Some(text), true)
    case Some(text) =>
      Step(text, cache, false)
  }

  /**
    `n` consecutive `ToString` calls starting from slot `cache`. Its contract gives
    only the shape; what the calls return is stated by `CallsFromUncached` and
    `CallsWhenCached`.
  */
  function Calls(decode: seq<uint8> -> string, value: seq<uint8>, cache: Cache, n: nat): (steps: seq<Step>)
    ensures |steps| == n
    decreases n
  {
    if n == 0 then []
    else
      var s := ToStringStep(decode, value, cache);
      [s] + Calls(decode, value, s.cache, n - 1)
  }

  /** How many of the calls ran the decoder. */
  function DecodeCount(steps: seq<Step>): nat {
    if steps == [] then 0 else (if steps[0].decoded then 1 else 0) + DecodeCount(steps[1..])
  }

  /** From a filled, sound slot: no call decodes and every call returns the decoded text. */
  lemma {:induction false} CallsWhenCached(decode: seq<uint8> -> string, value: seq<uint8>, cache: Cache, n: nat)
    requires cache.Some? && Consistent(decode, value, cache)
    ensures var steps := Calls(decode, value, cache, n);
            && DecodeCount(steps) == 0
            && forall i :: 0 <= i < n ==> steps[i].text == decode(value) && steps[i].cache == cache
    decreases n
  {
    if n > 0 {
      var steps := Calls(decode, value, cache, n);
      CallsWhenCached(decode, value, cache, n - 1);
      assert steps[1..] == Calls(decode, value, cache, n - 1);
    }
  }

  /**
    Any number of calls on a fresh entity: the decoder runs exactly once (in the first
    call), every call returns the same text, the decoding of the payload, and the slot
    keeps that text from then on.
  */
  lemma {:induction false} CallsFromUncached(decode: seq<uint8> -> string, value: seq<uint8>, n: nat)
    requires n >= 1
    ensures var steps := Calls(decode, value, None, n);
            && DecodeCount(steps) == 1
            && steps[0].decoded
            && forall i :: 0 <= i < n ==> steps[i].text == decode(value) && steps[i].cache == Some(decode(value))
  {
    var steps := Calls(decode, value, None, n);
    var cached := Some(decode(value));
    CallsWhenCached(decode, value, cached, n - 1);
    assert steps[1..] == Calls(decode, value, cached, n - 1);
  }

  /**
    The object. The payload is kept in a constant field, so `ToString` cannot modify
    it; the C# array could still be written element by element, which the model
    excludes. The slot is the only non-ghost mutable field; the ghost `decodes` counts
    the decoder's runs.
  */
  class Utf8StringObject {
    const entity: Utf8String
    const decode: seq<uint8> -> string
    var stringValue: Cache
    ghost var decodes: nat

    ghost predicate Valid()
      reads this
    {
      && Consistent(decode, entity.value, stringValue)
      && (stringValue.None? <==> decodes == 0)
      && decodes <= 1
    }

    constructor(entity: Utf8String, decode: seq<uint8> -> string)
      ensures Valid()
      ensures this.entity == entity && this.decode == decode
      ensures stringValue == None
    {
      this.entity := entity;
      this.decode := decode;
      stringValue := None;
      decodes := 0;
    }

    method ToString() returns (s: string)
      requires Valid()
      modifies this
      ensures Valid()
      ensures s == decode(entity.value)
      ensures stringValue == Some(s)
      ensures old(stringValue).Some? ==> stringValue == old(stringValue) && decodes == old(decodes)
      ensures old(stringValue).None? ==> decodes == 1
    {
      var step := ToStringStep(decode, entity.value, stringValue);
      if step.decoded {
        decodes := decodes + 1;
      }
      stringValue := step.cache;
      s := step.text;
    }
  }
}
