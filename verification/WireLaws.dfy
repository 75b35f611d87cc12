/**
 What calls to the private service and reads of a request body come to, told by status, header and byte count
 alone.
 */
module WireLaws {
  import opened Wrappers
  import Decimal
  import CachePolicy
  import T = Transport
  import B = BoundedBody

  // ---- Calls ----

  /** A wait that a header names in one to six digits. */
  predicate Names(header: Option<string>, seconds: nat) {
    && header.Some? && 1 <= |header.value| <= 6
    && (forall i :: 0 <= i < |header.value| ==> '0' <= header.value[i] <= '9')
    && seconds == Decimal.Value(header.value)
  }

  /**
   A first outcome is tried again if and only if nothing came back and it was no timeout, abort or bad body, or a
   503 came that names no wait of two seconds or more.
   */
  lemma RetriedIff<A>(sent: T.Sent<A>)
    ensures T.WorthRetrying(sent)
            <==> || sent == T.Threw(T.OtherError)
                 || (sent.Answered? && sent.raw.status == 503
                     && forall seconds: nat :: Names(sent.raw.retryAfter, seconds) ==> seconds < 2)
  {
    if sent.Answered? && sent.raw.retryAfter.Some? {
      var header := sent.raw.retryAfter.value;
      assert Decimal.IsDecimal(header, 6) <==>
             1 <= |header| <= 6 && forall i :: 0 <= i < |header| ==> '0' <= header[i] <= '9';
      if Decimal.IsDecimal(header, 6) {
        assert Names(sent.raw.retryAfter, Decimal.Value(header));
      }
    }
  }

  /** A success with its body, or a 204, is passed on as it came. */
  lemma OkIff<A>(sent: T.Sent<A>, etag: Option<string>)
    ensures T.Settled(sent, etag).Ok?
            <==> sent.Answered? && 200 <= sent.raw.status < 300 && (sent.raw.data.Some? || sent.raw.status == 204)
    ensures T.Settled(sent, etag).Ok? ==>
              var r := T.Settled(sent, etag);
              r.status == sent.raw.status && r.data == sent.raw.data && r.etag == sent.raw.etag
              && (r.replayed <==> sent.raw.replayed == Some("true"))
  {
  }

  /** A 304 keeps the tag the service sent, or else the caller's own. */
  lemma NotModifiedIff<A>(sent: T.Sent<A>, etag: Option<string>)
    ensures T.Settled(sent, etag).NotModified? <==> sent.Answered? && sent.raw.status == 304
    ensures sent.Answered? && sent.raw.status == 304 ==>
              T.Settled(sent, etag) == T.NotModified(match sent.raw.etag case Some(own) => Some(own) case None => etag)
  {
  }

  /** Any other answer is a refusal if and only if it says why in the agreed form. */
  lemma RefusedIff<A>(sent: T.Sent<A>, etag: Option<string>)
    ensures T.Settled(sent, etag).Refused?
            <==> sent.Answered? && sent.raw.status != 304 && !(200 <= sent.raw.status < 300) && sent.raw.error.Some?
    ensures T.Settled(sent, etag).Refused? ==>
              var r := T.Settled(sent, etag);
              && r.status == sent.raw.status && Some(r.problem) == sent.raw.error
              && forall seconds: nat :: r.retryAfterSeconds == Some(seconds) <==> Names(sent.raw.retryAfter, seconds)
  {
    if sent.Answered? && sent.raw.retryAfter.Some? {
      var header := sent.raw.retryAfter.value;
      assert Decimal.IsDecimal(header, 6) <==>
             1 <= |header| <= 6 && forall i :: 0 <= i < |header| ==> '0' <= header[i] <= '9';
    }
  }

  /** Everything else is unavailable, for the reason that fits. */
  lemma UnavailableReasons<A>(sent: T.Sent<A>, etag: Option<string>)
    ensures T.Settled(sent, etag) == T.Unavailable(T.Timeout) <==> sent == T.Threw(T.TimeoutError)
    ensures T.Settled(sent, etag) == T.Unavailable(T.Aborted) <==> sent == T.Threw(T.AbortError)
    ensures T.Settled(sent, etag) == T.Unavailable(T.Network) <==> sent == T.Threw(T.OtherError)
    ensures T.Settled(sent, etag) == T.Unavailable(T.MalformedResponse)
            <==> || sent == T.Threw(T.SyntaxError)
                 || (sent.Answered? && sent.raw.status != 304
                     && if 200 <= sent.raw.status < 300 then sent.raw.data.None? && sent.raw.status != 204
                        else sent.raw.error.None?)
  {
  }

  // ---- Bodies ----

  predicate Blank(s: string) {
    forall i :: 0 <= i < |s| ==> s[i] in CachePolicy.SPACES
  }

  /** Blanks, the name in any case, blanks, and parameters or nothing. */
  ghost predicate JsonType(contentType: string) {
    exists left, name, right, rest :: TypeParts(contentType, left, name, right, rest)
  }

  ghost predicate TypeParts(contentType: string, left: string, name: string, right: string, rest: string) {
    && contentType == left + name + right + rest && Blank(left) && Blank(right)
    && CachePolicy.Lower(name) == "application/json" && (rest == "" || rest[0] == ';')
  }

  lemma {:induction false} FirstPartSplits(s: string)
    ensures B.FirstPart(s) <= s && (forall i :: 0 <= i < |B.FirstPart(s)| ==> s[i] != ';')
    ensures B.FirstPart(s) == s || s[|B.FirstPart(s)|] == ';'
  {
    if s != "" && s[0] != ';' {
      FirstPartSplits(s[1..]);
      assert s == [s[0]] + s[1..];
    }
  }

  lemma {:induction false} FirstPartIs(part: string, rest: string)
    requires (forall i :: 0 <= i < |part| ==> part[i] != ';') && (rest == "" || rest[0] == ';')
    ensures B.FirstPart(part + rest) == part
  {
    if part == "" {
      assert part + rest == rest;
    } else {
      assert (part + rest)[1..] == part[1..] + rest;
      FirstPartIs(part[1..], rest);
    }
  }

  lemma {:induction false} TrimLeftSplits(s: string) returns (left: string)
    ensures s == left + B.TrimLeft(s) && Blank(left)
    ensures B.TrimLeft(s) == "" || B.TrimLeft(s)[0] !in CachePolicy.SPACES
    decreases |s|
  {
    if s != "" && s[0] in CachePolicy.SPACES {
      left := TrimLeftSplits(s[1..]);
      left := [s[0]] + left;
    } else {
      left := "";
    }
  }

  lemma {:induction false} TrimRightSplits(s: string) returns (right: string)
    ensures s == B.TrimRight(s) + right && Blank(right)
    ensures B.TrimRight(s) == "" || B.TrimRight(s)[|B.TrimRight(s)| - 1] !in CachePolicy.SPACES
    decreases |s|
  {
    if s != "" && s[|s| - 1] in CachePolicy.SPACES {
      right := TrimRightSplits(s[..|s| - 1]);
      right := right + [s[|s| - 1]];
    } else {
      right := "";
    }
  }

  lemma {:induction false} TrimLeftIs(left: string, s: string)
    requires Blank(left) && s != "" && s[0] !in CachePolicy.SPACES
    ensures B.TrimLeft(left + s) == s
    decreases |left|
  {
    if left == "" {
      assert left + s == s;
    } else {
      assert (left + s)[1..] == left[1..] + s;
      TrimLeftIs(left[1..], s);
    }
  }

  lemma {:induction false} TrimRightIs(s: string, right: string)
    requires Blank(right) && s != "" && s[|s| - 1] !in CachePolicy.SPACES
    ensures B.TrimRight(s + right) == s
    decreases |right|
  {
    if right == "" {
      assert s + right == s;
    } else {
      assert (s + right)[..|s + right| - 1] == s + right[..|right| - 1];
      TrimRightIs(s, right[..|right| - 1]);
    }
  }

  lemma NameChars(name: string, i: nat)
    requires CachePolicy.Lower(name) == "application/json" && i < |name|
    ensures name[i] != ';' && name[i] !in CachePolicy.SPACES
  {
    assert CachePolicy.LowerChar(name[i]) == "application/json"[i];
  }

  lemma PartsAreJson(contentType: string, left: string, name: string, right: string, rest: string)
    requires TypeParts(contentType, left, name, right, rest)
    ensures B.IsJson(B.Headers(Some(contentType), None))
  {
    var part := left + name + right;
    forall i | 0 <= i < |part| ensures part[i] != ';' {
      if |left| <= i < |left| + |name| {
        NameChars(name, i - |left|);
      }
    }
    FirstPartIs(part, rest);
    NameChars(name, 0);
    NameChars(name, |name| - 1);
    assert part == left + (name + right);
    TrimLeftIs(left, name + right);
    TrimRightIs(name, right);
  }

  /** A body is taken for JSON if and only if its type is application/json, in any case, with or without parameters. */
  lemma JsonIff(headers: B.Headers)
    ensures B.IsJson(headers) <==> headers.contentType.Some? && JsonType(headers.contentType.value)
  {
    if headers.contentType.Some? {
      var contentType := headers.contentType.value;
      if B.IsJson(headers) {
        var part := B.FirstPart(contentType);
        FirstPartSplits(contentType);
        var left := TrimLeftSplits(part);
        var right := TrimRightSplits(B.TrimLeft(part));
        var name := B.TrimRight(B.TrimLeft(part));
        assert contentType == part + contentType[|part|..];
        assert TypeParts(contentType, left, name, right, contentType[|part|..]);
      }
      forall left, name, right, rest | TypeParts(contentType, left, name, right, rest) ensures B.IsJson(headers) {
        PartsAreJson(contentType, left, name, right, rest);
      }
    }
  }

  /**
   A declared length that cannot be held against the body: none, or one to fifteen digits that stay within the
   cap.
   */
  predicate Declares(length: Option<string>, max: nat) {
    match length
    case None => true
    case Some(s) =>
      1 <= |s| <= 15 && (forall i :: 0 <= i < |s| ==> Decimal.IsDigit(s[i])) && Decimal.Value(s) <= max
  }

  /** The one outcome of every read: by type, declared length, real length, and only then by what the bytes say. */
  lemma ReadingIs<V>(headers: B.Headers, body: Option<B.Chunk>, max: nat, parse: B.Chunk -> Option<V>)
    ensures var r := B.Reading(headers, body, max, parse);
            var json := headers.contentType.Some? && JsonType(headers.contentType.value);
            var fits := Declares(headers.contentLength, max) && (body.Some? ==> |body.value| <= max);
            && (r == B.Rejected(B.UnsupportedMediaType) <==> !json)
            && (r == B.Rejected(B.PayloadTooLarge) <==> json && !fits)
            && (r == B.Absent <==> json && fits && (body == None || body == Some([])))
            && (r == B.Rejected(B.InvalidJson)
                <==> json && fits && body.Some? && body.value != [] && parse(body.value) == None)
            && forall v :: r == B.Parsed(v)
                           <==> json && fits && body.Some? && body.value != [] && parse(body.value) == Some(v)
  {
    JsonIff(headers);
  }
}
