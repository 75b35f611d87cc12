/**
 Reading a request body under a cap: refused on its headers if they already say too much, counted chunk by
 chunk as it streams, gathered into one buffer and only then parsed.
 */
module BoundedBody {
  import opened Wrappers
  import Decimal
  import Policy = CachePolicy

  type Byte = x: int | 0 <= x < 256
  type Chunk = seq<Byte>

  datatype Reason = PayloadTooLarge | UnsupportedMediaType | InvalidJson

  /** What a reader learns: the parsed value, nothing for an empty or absent body, or a refusal. */
  datatype Body<V> = Parsed(value: V) | Absent | Rejected(reason: Reason)

  datatype Headers = Headers(contentType: Option<string>, contentLength: Option<string>)

  // ---- Chunks ----

  function Flatten(chunks: seq<Chunk>): Chunk {
    if chunks == [] then [] else chunks[0] + Flatten(chunks[1..])
  }

  lemma {:induction false} FlattenConcat(a: seq<Chunk>, b: seq<Chunk>)
    ensures Flatten(a + b) == Flatten(a) + Flatten(b)
  {
    if a == [] {
      assert a + b == b;
    } else {
      assert (a + b)[1..] == a[1..] + b;
      FlattenConcat(a[1..], b);
    }
  }

  lemma FlattenPrefix(chunks: seq<Chunk>, i: nat)
    requires i < |chunks|
    ensures Flatten(chunks[..i + 1]) == Flatten(chunks[..i]) + chunks[i]
  {
    assert chunks[..i + 1] == chunks[..i] + [chunks[i]];
    FlattenConcat(chunks[..i], [chunks[i]]);
    assert Flatten([chunks[i]]) == chunks[i] + Flatten([]);
  }

  lemma PrefixIsShorter(chunks: seq<Chunk>, i: nat)
    requires i <= |chunks|
    ensures Flatten(chunks[..i]) <= Flatten(chunks)
  {
    assert chunks == chunks[..i] + chunks[i..];
    FlattenConcat(chunks[..i], chunks[i..]);
  }

  /** The first `k` chunks fit under the cap, and no longer run of whole chunks from the front does. */
  ghost predicate LongestFitting(chunks: seq<Chunk>, max: nat, k: nat) {
    && k <= |chunks| && |Flatten(chunks[..k])| <= max
    && forall j :: k < j <= |chunks| ==> |Flatten(chunks[..j])| > max
  }

  // ---- The limiter ----

  /** The counting transform: it passes chunks on until the total goes over the cap, and then fails for good. */
  class Limiter {
    const max: nat
    var seen: nat
    var failed: bool
    var passed: seq<Chunk>

    constructor (max: nat)
      ensures this.max == max && seen == 0 && !failed && passed == []
    {
      this.max := max;
      seen, failed, passed := 0, false, [];
    }

    method Transform(chunk: Chunk)
      requires !failed
      modifies this
      ensures seen == old(seen) + |chunk| && failed == (seen > max)
      ensures passed == if failed then old(passed) else old(passed) + [chunk]
    {
      seen := seen + |chunk|;
      if seen > max {
        failed := true;
        return;
      }
      passed := passed + [chunk];
    }

    /**
     A whole body through the limiter: it fails exactly when the body is over the cap, wherever its chunks
     are cut, and what it passed on is the longest run of whole chunks within the cap.
     */
    method Pipe(chunks: seq<Chunk>)
      requires seen == 0 && !failed && passed == []
      modifies this
      ensures failed <==> |Flatten(chunks)| > max
      ensures !failed ==> passed == chunks
      ensures exists k: nat :: LongestFitting(chunks, max, k) && passed == chunks[..k]
    {
      var i := 0;
      while i < |chunks| && !failed
        invariant 0 <= i <= |chunks|
        invariant seen == |Flatten(chunks[..i])| && failed == (seen > max)
        invariant failed ==> i > 0 && passed == chunks[..i - 1] && |Flatten(chunks[..i - 1])| <= max
        invariant !failed ==> passed == chunks[..i]
      {
        FlattenPrefix(chunks, i);
        Transform(chunks[i]);
        i := i + 1;
        assert chunks[..i] == chunks[..i - 1] + [chunks[i - 1]];
      }
      assert chunks[..|chunks|] == chunks;
      var k := if failed then i - 1 else i;
      forall j | k < j <= |chunks| ensures |Flatten(chunks[..j])| > max {
        PrefixIsShorter(chunks[..j], i);
        assert chunks[..j][..i] == chunks[..i];
      }
      PrefixIsShorter(chunks, i);
      assert LongestFitting(chunks, max, k);
    }
  }

  // ---- Gathering ----

  /** `bytes.set(chunk, offset)` */
  method SetAt(bytes: array<Byte>, chunk: Chunk, offset: nat)
    requires offset + |chunk| <= bytes.Length
    modifies bytes
    ensures bytes[..] == old(bytes[..])[..offset] + chunk + old(bytes[..])[offset + |chunk|..]
  {
    forall i | 0 <= i < |chunk| {
      bytes[offset + i] := chunk[i];
    }
  }

  /** Collects the chunks and their total, then copies each to its place in one buffer of that size. */
  method ReadAll(stream: seq<Chunk>) returns (bytes: array<Byte>)
    ensures fresh(bytes) && bytes[..] == Flatten(stream)
  {
    var chunks: seq<Chunk> := [];
    var total := 0;
    for i := 0 to |stream|
      invariant chunks == stream[..i] && total == |Flatten(stream[..i])|
    {
      FlattenPrefix(stream, i);
      chunks := chunks + [stream[i]];
      total := total + |stream[i]|;
    }
    assert stream[..|stream|] == stream;
    bytes := new Byte[total](i => 0);
    var offset := 0;
    for i := 0 to |chunks|
      invariant offset == |Flatten(chunks[..i])| <= bytes.Length
      invariant bytes[..offset] == Flatten(chunks[..i])
    {
      FlattenPrefix(chunks, i);
      PrefixIsShorter(chunks, i + 1);
      SetAt(bytes, chunks[i], offset);
      offset := offset + |chunks[i]|;
    }
    assert bytes[..] == bytes[..offset];
  }

  // ---- The headers ----

  /** The part before the first semicolon. */
  function FirstPart(s: string): string {
    if s == "" || s[0] == ';' then "" else [s[0]] + FirstPart(s[1..])
  }

  function TrimLeft(s: string): string {
    if s != "" && s[0] in Policy.SPACES then TrimLeft(s[1..]) else s
  }

  function TrimRight(s: string): string {
    if s != "" && s[|s| - 1] in Policy.SPACES then TrimRight(s[..|s| - 1]) else s
  }

  predicate IsJson(headers: Headers) {
    headers.contentType.Some?
      && Policy.Lower(TrimRight(TrimLeft(FirstPart(headers.contentType.value)))) == "application/json"
  }

  /** A declared length must be a number of at most 15 digits within the cap; a missing one is no objection. */
  predicate LengthAllowed(length: Option<string>, max: nat) {
    length.Some? ==> Decimal.IsDecimal(length.value, 15) && Decimal.Value(length.value) <= max
  }

  function Preflight(headers: Headers, max: nat): Option<Reason> {
    if !IsJson(headers) then Some(UnsupportedMediaType)
    else if !LengthAllowed(headers.contentLength, max) then Some(PayloadTooLarge)
    else None
  }

  /**
   A true length is accepted if and only if the body will be, except that one of more than 15 digits is
   refused under any cap.
   */
  lemma TrueLengthsAgree(total: nat, max: nat)
    ensures LengthAllowed(Some(Decimal.Digits(total)), max) <==> total <= max && total < Decimal.Power(15)
    ensures Decimal.Power(15) == 1_000_000_000_000_000
  {
    Decimal.ValueOfDigits(total);
    Decimal.LengthOfDigits(total, 15);
    Decimal.PowersOfTen();
  }

  // ---- Reading ----

  /** What reading should give, from the bytes alone. */
  function Reading<V>(headers: Headers, body: Option<Chunk>, max: nat, parse: Chunk -> Option<V>): Body<V> {
    if Preflight(headers, max).Some? then Rejected(Preflight(headers, max).value)
    else if body.None? then Absent
    else if |body.value| > max then Rejected(PayloadTooLarge)
    else if body.value == [] then Absent
    else if parse(body.value).Some? then Parsed(parse(body.value).value)
    else Rejected(InvalidJson)
  }

  function Joined(body: Option<seq<Chunk>>): Option<Chunk> {
    if body.Some? then Some(Flatten(body.value)) else None
  }

  /** `parse` stands for decoding and parsing. The outcome does not depend on where the chunks are cut. */
  method ReadBoundedJson<V>(headers: Headers, body: Option<seq<Chunk>>, max: nat, parse: Chunk -> Option<V>)
    returns (r: Body<V>)
    ensures r == Reading(headers, Joined(body), max, parse)
  {
    var refusal := Preflight(headers, max);
    if refusal.Some? {
      return Rejected(refusal.value);
    }
    if body.None? {
      return Absent;
    }
    var limiter := new Limiter(max);
    limiter.Pipe(body.value);
    if limiter.failed {
      return Rejected(PayloadTooLarge);
    }
    var bytes := ReadAll(limiter.passed);
    if bytes.Length == 0 {
      return Absent;
    }
    var value := parse(bytes[..]);
    r := if value.Some? then Parsed(value.value) else Rejected(InvalidJson);
  }

  /** A length that is not a number is refused at once, although only what streams is ever counted against the cap. */
  lemma OddLengthsAreRefused<V>(headers: Headers, body: Option<Chunk>, max: nat, parse: Chunk -> Option<V>)
    requires IsJson(headers) && headers.contentLength.Some? && !Decimal.IsDecimal(headers.contentLength.value, 15)
    ensures Reading(headers, body, max, parse) == Rejected(PayloadTooLarge)
  {
  }
}
