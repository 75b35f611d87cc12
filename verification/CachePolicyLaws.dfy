/**
 The cache policy spelled out: the paths, queries and responses it admits, built up from their parts rather than
 taken apart by patterns.
 */
module CachePolicyLaws {
  import opened Wrappers
  import opened CachePolicy

  const UPPER := "ABCDEFGHIJKLMNOPQRSTUVWXYZ"
  const LOWER := "abcdefghijklmnopqrstuvwxyz"
  const HEX := "0123456789abcdef"

  lemma Letter(k: nat)
    requires k < 26
    ensures UPPER[k] as int == 'A' as int + k && LOWER[k] as int == 'a' as int + k
  {
  }

  /** Lower case turns each of the twenty-six letters into its partner and leaves everything else. */
  lemma LowerIs(s: string, i: nat)
    requires i < |s|
    ensures forall k :: 0 <= k < 26 && s[i] == UPPER[k] ==> Lower(s)[i] == LOWER[k]
    ensures s[i] !in UPPER ==> Lower(s)[i] == s[i]
  {
    forall k | 0 <= k < 26 && s[i] == UPPER[k] ensures Lower(s)[i] == LOWER[k] {
      Letter(k);
    }
    if 'A' <= s[i] <= 'Z' {
      Letter(s[i] as int - 'A' as int);
    }
  }

  // ---- Paths ----

  predicate Locale(s: string) {
    s == "en" || s == "ha" || s == "ig" || s == "yo"
  }

  /** A project slug: small letters, digits and hyphens, at most 120, and no hyphen first. */
  predicate Slug(s: string) {
    && 0 < |s| <= 120 && s[0] != '-' && forall c :: c in s ==> c in LOWER || c in "0123456789" || c == '-'
  }

  predicate Hex(s: string, n: nat) {
    |s| == n && forall c :: c in s ==> c in HEX
  }

  ghost predicate Uuid(s: string) {
    exists a, b, c, d, e :: Hex(a, 8) && Hex(b, 4) && Hex(c, 4) && Hex(d, 4) && Hex(e, 12)
                            && s == a + "-" + b + "-" + c + "-" + d + "-" + e
  }

  lemma SlugChars(c: char)
    ensures SlugChar(c) <==> c in LOWER || c in "0123456789"
  {
    if 'a' <= c <= 'z' {
      Letter(c as int - 'a' as int);
    }
    if '0' <= c <= '9' {
      assert c == "0123456789"[c as int - '0' as int];
    }
  }

  lemma SlugIff(s: string)
    ensures IsSlug(s) <==> Slug(s)
  {
    forall i | 0 <= i < |s| ensures SlugChar(s[i]) <==> s[i] in LOWER || s[i] in "0123456789" {
      SlugChars(s[i]);
    }
    if Slug(s) {
      assert s[0] in s;
      forall i | 0 < i < |s| ensures SlugChar(s[i]) || s[i] == '-' {
        assert s[i] in s;
      }
    }
  }

  lemma HexIff(c: char)
    ensures '0' <= c <= '9' || 'a' <= c <= 'f' <==> c in HEX
  {
    if '0' <= c <= '9' {
      assert c == HEX[c as int - '0' as int];
    }
    if 'a' <= c <= 'f' {
      assert c == HEX[c as int - 'a' as int + 10];
    }
  }

  lemma HexSlice(s: string, i: nat, j: nat)
    requires i <= j <= |s|
    ensures Hex(s[i..j], j - i) <==> forall k :: i <= k < j ==> '0' <= s[k] <= '9' || 'a' <= s[k] <= 'f'
  {
    forall k | i <= k < j ensures '0' <= s[k] <= '9' || 'a' <= s[k] <= 'f' <==> s[k] in HEX {
      HexIff(s[k]);
    }
    if Hex(s[i..j], j - i) {
      forall k | i <= k < j ensures s[k] in HEX {
        assert s[i..j][k - i] in s[i..j];
      }
    }
  }

  ghost predicate UuidParts(s: string) {
    && |s| == 36 && Hex(s[0..8], 8) && Hex(s[9..13], 4) && Hex(s[14..18], 4) && Hex(s[19..23], 4) && Hex(s[24..36], 12)
    && s[8] == '-' && s[13] == '-' && s[18] == '-' && s[23] == '-'
  }

  lemma UuidSlices(s: string, a: string, b: string, c: string, d: string, e: string)
    requires |a| == 8 && |b| == 4 && |c| == 4 && |d| == 4 && |e| == 12
    requires s == a + "-" + b + "-" + c + "-" + d + "-" + e
    ensures |s| == 36 && s[8] == '-' && s[13] == '-' && s[18] == '-' && s[23] == '-'
    ensures s[0..8] == a && s[9..13] == b && s[14..18] == c && s[19..23] == d && s[24..36] == e
  {
  }

  lemma UuidPartsIff(s: string)
    ensures Uuid(s) <==> UuidParts(s)
  {
    if UuidParts(s) {
      assert s == s[0..8] + "-" + s[9..13] + "-" + s[14..18] + "-" + s[19..23] + "-" + s[24..36];
    }
    forall a, b, c, d, e | Hex(a, 8) && Hex(b, 4) && Hex(c, 4) && Hex(d, 4) && Hex(e, 12)
                           && s == a + "-" + b + "-" + c + "-" + d + "-" + e
      ensures UuidParts(s)
    {
      UuidSlices(s, a, b, c, d, e);
    }
  }

  lemma UuidIff(s: string)
    ensures IsUuid(s) <==> Uuid(s)
  {
    UuidPartsIff(s);
    if |s| == 36 {
      HexSlice(s, 0, 8);
      HexSlice(s, 9, 13);
      HexSlice(s, 14, 18);
      HexSlice(s, 19, 23);
      HexSlice(s, 24, 36);
    }
  }

  /** Which page a path names; the source page in any case, the others as they are. */
  ghost predicate CataloguePath(path: string) {
    || (exists locale :: Locale(locale) && path == "/" + locale)
    || (exists locale :: Locale(locale) && path == "/" + locale + "/projects")
    || (exists locale, slug :: Locale(locale) && Slug(slug) && path == "/" + locale + "/projects/" + slug)
    || (exists locale, slug, id :: SourcePath(Lower(path), locale, slug, id))
    || (exists locale :: Locale(locale) && path == "/" + locale + "/trust")
    || (exists locale :: Locale(locale) && path == "/" + locale + "/offline")
  }

  ghost predicate SourcePath(path: string, locale: string, slug: string, id: string) {
    Locale(locale) && Slug(slug) && Uuid(id) && path == "/" + locale + "/projects/" + slug + "/sources/" + id
  }

  lemma UnderIff(path: string, tail: string)
    ensures Under(path, tail) <==> exists locale :: Locale(locale) && path == "/" + locale + tail
  {
    if Under(path, tail) {
      assert path == "/" + path[1..3] + path[3..];
      assert Locale(path[1..3]);
    }
    forall locale | Locale(locale) && path == "/" + locale + tail ensures Under(path, tail) {
      assert path[1..3] == locale && path[3..] == tail;
    }
  }

  lemma ProjectIff(path: string)
    ensures IsProject(path)
            <==> exists locale, slug :: Locale(locale) && Slug(slug) && path == "/" + locale + "/projects/" + slug
  {
    if IsProject(path) {
      UnderIff(path, "/projects/" + path[13..]);
      SlugIff(path[13..]);
      var locale :| Locale(locale) && path == "/" + locale + ("/projects/" + path[13..]);
      assert path == "/" + locale + "/projects/" + path[13..];
    }
    forall locale, slug | Locale(locale) && Slug(slug) && path == "/" + locale + "/projects/" + slug
      ensures IsProject(path)
    {
      assert path[13..] == slug;
      assert path == "/" + locale + ("/projects/" + slug);
      UnderIff(path, "/projects/" + slug);
      SlugIff(slug);
    }
  }

  lemma SourceIff(path: string)
    ensures IsSourcePage(path) <==> exists locale, slug, id :: SourcePath(path, locale, slug, id)
  {
    if IsSourcePage(path) {
      var n: nat :| n + 58 == |path| && IsSourcePageOf(path, n);
      var slug, id := path[13..13 + n], path[22 + n..];
      var tail := "/projects/" + slug + "/sources/" + id;
      UnderIff(path, tail);
      SlugIff(slug);
      UuidIff(id);
      var locale :| Locale(locale) && path == "/" + locale + tail;
      assert path == "/" + locale + "/projects/" + slug + "/sources/" + id;
      assert SourcePath(path, locale, slug, id);
    }
    forall locale, slug, id | SourcePath(path, locale, slug, id) ensures IsSourcePage(path) {
      SourceIsMatched(path, locale, slug, id);
    }
  }

  lemma SourceIsMatched(path: string, locale: string, slug: string, id: string)
    requires SourcePath(path, locale, slug, id)
    ensures IsSourcePage(path)
  {
    UuidIff(id);
    SlugIff(slug);
    var n := |slug|;
    var tail := "/projects/" + slug + "/sources/" + id;
    assert path == "/" + locale + tail;
    assert path[13..13 + n] == slug && path[22 + n..] == id;
    UnderIff(path, tail);
    assert IsSourcePageOf(path, n);
  }

  /** A path is handled if and only if it is one of these, put together from a locale, a slug and an id. */
  lemma PathsAreTheCatalogue(path: string)
    ensures PublicPath(path) <==> CataloguePath(path)
  {
    UnderIff(path, "");
    UnderIff(path, "/projects");
    UnderIff(path, "/trust");
    UnderIff(path, "/offline");
    ProjectIff(path);
    SourceIff(Lower(path));
    assert forall locale: string :: "/" + locale + "" == "/" + locale;
    forall k: nat | k < PATTERNS && Matches(k, path) ensures CataloguePath(path) {
      assert k == 0 || k == 1 || k == 2 || k == 3 || k == 4 || k == 5;
    }
    if CataloguePath(path) {
      assert Matches(0, path) || Matches(1, path) || Matches(2, path) || Matches(3, path) || Matches(4, path)
             || Matches(5, path);
    }
  }

  // ---- Requests ----

  predicate Absent(header: Option<string>) {
    header == None || header == Some("")
  }

  /** A plain GET to our own origin, without credentials in the URL and not one of the framework's own requests. */
  predicate Plain(request: Request, origin: string) {
    && request.url.origin == origin && request.verb == "GET" && request.url.username == "" && request.url.password == ""
    && Absent(request.rsc) && Absent(request.prefetch)
    && forall i :: 0 <= i < |request.url.params| ==> request.url.params[i].0 != "_rsc"
  }

  predicate PlainParam(p: (string, string)) {
    && |p.1| <= 512
    && (p.0 == "locality" || p.0 == "category" || p.0 == "status" || p.0 == "verification" || p.0 == "cursor")
  }

  predicate PlainQuery(params: seq<(string, string)>) {
    forall i :: 0 <= i < |params| ==> PlainParam(params[i])
  }

  lemma QueryIff(params: seq<(string, string)>)
    ensures SearchAllowed(params) <==> PlainQuery(params)
  {
    forall p ensures ParamAllowed(p) <==> PlainParam(p) {
    }
    if SearchAllowed(params) {
      forall i | 0 <= i < |params| ensures PlainParam(params[i]) {
        assert params[i] in params;
      }
    }
  }

  lemma PlainIff(request: Request, origin: string)
    ensures NotForUs(request, origin) <==> !Plain(request, origin)
  {
    var params := request.url.params;
    if p :| p in params && p.0 == "_rsc" {
      var i :| 0 <= i < |params| && params[i] == p;
    } else {
      forall i | 0 <= i < |params| ensures params[i].0 != "_rsc" {
        assert params[i] in params;
      }
    }
  }

  /** Exactly which requests the worker answers itself; every other one goes to the network untouched. */
  lemma HandledIff(request: Request, origin: string)
    ensures PublicNavigation(request, origin)
            <==> Plain(request, origin) && request.mode == "navigate" && CataloguePath(request.url.pathname)
                 && PlainQuery(request.url.params)
    ensures FrameworkFile(request, origin)
            <==> Plain(request, origin) && request.url.search == ""
                 && exists rest :: request.url.pathname == "/_next/static/" + rest
  {
    PathsAreTheCatalogue(request.url.pathname);
    QueryIff(request.url.params);
    PlainIff(request, origin);
    var path, prefix := request.url.pathname, "/_next/static/";
    if prefix <= path {
      assert path == prefix + path[|prefix|..];
      if CataloguePath(path) {
        assert PublicPath(path);
        PublicPathsAreCatalogue(path);
      }
    }
  }

  // ---- Responses ----

  predicate Apart(c: char) {
    c in SPACES || c == ','
  }

  /** The lower-cased value has one of the two words in it, with nothing else grown onto it. */
  ghost predicate SaysKeepOut(control: string) {
    exists before, word, after :: KeepOut(control, before, word, after)
  }

  ghost predicate KeepOut(control: string, before: string, word: string, after: string) {
    && control == before + word + after && (word == "no-store" || word == "private")
    && (before == "" || Apart(before[|before| - 1])) && (after == "" || Apart(after[0]) || after[0] == '=')
  }

  lemma WordKeepsOut(control: string, word: string, i: nat)
    requires WordAt(control, word, i) && (word == "no-store" || word == "private")
    ensures SaysKeepOut(control)
  {
    var before, after := control[..i], control[i + |word|..];
    assert control == before + word + after;
    assert KeepOut(control, before, word, after);
  }

  lemma KeepsOutWord(control: string, before: string, word: string, after: string)
    requires KeepOut(control, before, word, after)
    ensures Forbids(control)
  {
    var i := |before|;
    assert control[i..i + |word|] == word;
    assert WordAt(control, word, i) && i < |control|;
  }

  lemma KeepOutIff(control: string)
    ensures Forbids(control) <==> SaysKeepOut(control)
  {
    if Forbids(control) {
      var i: nat :| i < |control| && (WordAt(control, "no-store", i) || WordAt(control, "private", i));
      WordKeepsOut(control, if WordAt(control, "no-store", i) then "no-store" else "private", i);
    }
    forall before, word, after | KeepOut(control, before, word, after) ensures Forbids(control) {
      KeepsOutWord(control, before, word, after);
    }
  }

  /**
   A response may be kept if and only if it is a plain 200 of at most three megabytes that nothing marks as
   private.
   */
  lemma StorableIff(r: Response, forPage: bool)
    ensures Storable(r, forPage)
            <==> r.status == 200 && r.kind == Basic && !r.redirected && Absent(r.setCookie) && Absent(r.authorization)
                 && !SaysKeepOut(Lower(r.cacheControl))
                 && (r.contentLength == NotANumber || r.contentLength.n <= 3_145_728)
                 && (forPage ==> exists rest :: Lower(r.contentType) == "text/html" + rest)
  {
    KeepOutIff(Lower(r.cacheControl));
    var kind, html := Lower(r.contentType), "text/html";
    if html <= kind {
      assert kind == html + kind[|html|..];
    }
  }
}
