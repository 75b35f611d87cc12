/**
 The service worker's cache policy: which requests it handles at all, which responses it may store,
 and how old a saved page is.
 */
module CachePolicy {
  import opened Wrappers

  const LOCALES := ["en", "ha", "ig", "yo"]
  const FRESH_MS := 5 * 60 * 1000
  const MAX_AGE_MS := 7 * 24 * 60 * 60 * 1000
  const MAX_BYTES := 3 * 1024 * 1024
  const PAGE_QUERY_NAMES := ["locality", "category", "status", "verification", "cursor"]

  datatype Url = Url(
    origin: string, pathname: string, search: string, params: seq<(string, string)>, username: string, password: string)

  /** Request headers the policy looks at: `rsc` and `next-router-prefetch`. */
  datatype Request = Request(url: Url, verb: string, mode: string, rsc: Option<string>, prefetch: Option<string>)

  datatype ResponseType = Basic | Opaque | OpaqueRedirect

  /** `Number(...)` of a content-length header. */
  datatype Length = NotANumber | Bytes(n: int)

  /** `savedAt` is what the stamp header reads as: None when it is missing or not a finite number. */
  datatype Response = Response(
    status: int, kind: ResponseType, redirected: bool, setCookie: Option<string>, authorization: Option<string>,
    cacheControl: string, contentLength: Length, contentType: string, body: string, savedAt: Option<int>)

  datatype Class = Page | Asset | Unhandled

  predicate Truthy(header: Option<string>) {
    header.Some? && header.value != ""
  }

  // ---- Requests ----

  predicate SlugChar(c: char) {
    'a' <= c <= 'z' || '0' <= c <= '9'
  }

  predicate IsSlug(s: string) {
    1 <= |s| <= 120 && SlugChar(s[0]) && forall i :: 0 < i < |s| ==> SlugChar(s[i]) || s[i] == '-'
  }

  predicate IsUuid(s: string) {
    |s| == 36 && forall i :: 0 <= i < 36 ==>
      if i in {8, 13, 18, 23} then s[i] == '-' else '0' <= s[i] <= '9' || 'a' <= s[i] <= 'f'
  }

  function LowerChar(c: char): char {
    if 'A' <= c <= 'Z' then (c as int + 32) as char else c
  }

  function Lower(s: string): (r: string)
    ensures |r| == |s|
  {
    seq(|s|, i requires 0 <= i < |s| => LowerChar(s[i]))
  }

  /** The path is a locale followed by the tail. */
  predicate Under(path: string, tail: string) {
    |path| >= 3 && path[0] == '/' && path[1..3] in LOCALES && path[3..] == tail
  }

  predicate IsProject(path: string) {
    |path| >= 13 && Under(path, "/projects/" + path[13..]) && IsSlug(path[13..])
  }

  predicate IsSourcePage(path: string) {
    exists slug: nat :: slug + 58 == |path| && IsSourcePageOf(path, slug)
  }

  /** A source page whose project slug has the given length. */
  predicate IsSourcePageOf(path: string, slug: nat)
    requires slug + 58 == |path|
  {
    && Under(path, "/projects/" + path[13..13 + slug] + "/sources/" + path[22 + slug..])
    && IsSlug(path[13..13 + slug]) && IsUuid(path[22 + slug..])
  }

  const PATTERNS := 6

  /** The path patterns, in their order; the one for source pages ignores case. */
  predicate Matches(pattern: nat, path: string)
    requires pattern < PATTERNS
  {
    match pattern
    case 0 => Under(path, "")
    case 1 => Under(path, "/projects")
    case 2 => IsProject(path)
    case 3 => IsSourcePage(Lower(path))
    case 4 => Under(path, "/trust")
    case _ => Under(path, "/offline")
  }

  predicate PublicPath(path: string) {
    exists k: nat :: k < PATTERNS && Matches(k, path)
  }

  predicate ParamAllowed(p: (string, string)) {
    p.0 in PAGE_QUERY_NAMES && |p.1| <= 512
  }

  predicate SearchAllowed(params: seq<(string, string)>) {
    forall p :: p in params ==> ParamAllowed(p)
  }

  predicate NotForUs(request: Request, origin: string) {
    || request.url.origin != origin || request.verb != "GET" || request.url.username != "" || request.url.password != ""
    || Truthy(request.rsc) || Truthy(request.prefetch) || exists p :: p in request.url.params && p.0 == "_rsc"
  }

  /** A GET navigation in our own origin to an allowlisted catalogue page, with allowed query names only. */
  predicate PublicNavigation(request: Request, origin: string) {
    && !NotForUs(request, origin) && !("/_next/static/" <= request.url.pathname) && request.mode == "navigate"
    && PublicPath(request.url.pathname) && SearchAllowed(request.url.params)
  }

  predicate FrameworkFile(request: Request, origin: string) {
    !NotForUs(request, origin) && "/_next/static/" <= request.url.pathname && request.url.search == ""
  }

  lemma OneMoreParam(params: seq<(string, string)>, i: nat)
    requires i < |params|
    ensures SearchAllowed(params[..i + 1]) <==> SearchAllowed(params[..i]) && ParamAllowed(params[i])
  {
    assert params[..i + 1] == params[..i] + [params[i]];
  }

  /** Collects the names, with a mark after each that is not allowed. No query name may itself be the mark. */
  method CheckSearch(params: seq<(string, string)>) returns (ok: bool)
    ensures ok <==> SearchAllowed(params)
  {
    var names: seq<string> := [];
    for i := 0 to |params|
      invariant "!" in names <==> !SearchAllowed(params[..i])
    {
      OneMoreParam(params, i);
      assert "!" !in PAGE_QUERY_NAMES;
      names := names + [params[i].0];
      if params[i].0 !in PAGE_QUERY_NAMES || |params[i].1| > 512 {
        names := names + ["!"];
      }
    }
    assert params[..|params|] == params;
    ok := "!" !in names;
  }

  method Classify(request: Request, origin: string) returns (class_: Class)
    ensures class_ == Page <==> PublicNavigation(request, origin)
    ensures class_ == Asset <==> FrameworkFile(request, origin)
  {
    if NotForUs(request, origin) {
      return Unhandled;
    }
    if "/_next/static/" <= request.url.pathname {
      return if request.url.search == "" then Asset else Unhandled;
    }
    if request.mode != "navigate" {
      return Unhandled;
    }
    for k := 0 to PATTERNS
      invariant forall i: nat :: i < k ==> !Matches(i, request.url.pathname)
    {
      if Matches(k, request.url.pathname) {
        var ok := CheckSearch(request.url.params);
        return if ok then Page else Unhandled;
      }
    }
    class_ := Unhandled;
  }

  predicate Catalogue(tail: string) {
    tail == "" || "/projects" <= tail || tail == "/trust" || tail == "/offline"
  }

  lemma LowerSlice(s: string, i: nat, j: nat)
    requires i <= j <= |s|
    ensures Lower(s)[i..j] == Lower(s[i..j])
  {
  }

  lemma LowerTails()
    ensures Lower("") == "" && Lower("/projects") == "/projects" && Lower("/trust") == "/trust"
    ensures Lower("/offline") == "/offline"
    ensures forall l :: l in LOCALES ==> Lower(l) == l
  {
  }

  lemma LowerCatalogue(path: string, tail: string)
    requires Under(path, tail) && Catalogue(tail)
    ensures Lower(path)[1..3] in LOCALES && Catalogue(Lower(path)[3..])
  {
    LowerTails();
    LowerSlice(path, 1, 3);
    LowerSlice(path, 3, |path|);
    if "/projects" <= tail {
      LowerSlice(tail, 0, 9);
      assert tail[0..9] == "/projects";
    }
  }

  /** Whatever its case, a handled path is a locale and then the catalogue, the trust page or the offline page. */
  lemma PublicPathsAreCatalogue(path: string)
    requires PublicPath(path)
    ensures |path| >= 3 && Lower(path)[1..3] in LOCALES && Catalogue(Lower(path)[3..])
  {
    var k: nat :| k < PATTERNS && Matches(k, path);
    match k {
      case 0 => LowerCatalogue(path, "");
      case 1 => LowerCatalogue(path, "/projects");
      case 2 => LowerCatalogue(path, "/projects/" + path[13..]);
      case 3 =>
        var low := Lower(path);
        var slug: nat :| slug + 58 == |low| && IsSourcePageOf(low, slug);
      case 4 => LowerCatalogue(path, "/trust");
      case _ => LowerCatalogue(path, "/offline");
    }
  }

  // ---- Responses ----

  const SPACES := {' ', '\t', '\n', '\r', '\U{0B}', '\U{0C}', '\U{A0}'}

  predicate Starts(s: string, i: int)
    requires 0 <= i <= |s|
  {
    i == 0 || s[i - 1] in SPACES || s[i - 1] == ','
  }

  predicate Ends(s: string, i: int)
    requires 0 <= i <= |s|
  {
    i == |s| || s[i] in SPACES || s[i] == ',' || s[i] == '='
  }

  predicate WordAt(s: string, word: string, i: nat) {
    i + |word| <= |s| && s[i..i + |word|] == word && Starts(s, i) && Ends(s, i + |word|)
  }

  /** The regular expression over the lower-cased Cache-Control value. */
  predicate Forbids(control: string) {
    exists i: nat :: i < |control| && (WordAt(control, "no-store", i) || WordAt(control, "private", i))
  }

  predicate Storable(response: Response, forPage: bool) {
    && response.status == 200 && response.kind.Basic? && !response.redirected
    && !Truthy(response.setCookie) && !Truthy(response.authorization)
    && !Forbids(Lower(response.cacheControl))
    && (response.contentLength.NotANumber? || response.contentLength.n <= MAX_BYTES)
    && (forPage ==> "text/html" <= Lower(response.contentType))
  }

  /** A field value as a list: its members joined with commas. */
  function Join(members: seq<string>): string {
    if members == [] then ""
    else if |members| == 1 then members[0]
    else members[0] + "," + Join(members[1..])
  }

  /** A member that is a directive of the given name: blanks, the name in any case, and what may follow a token. */
  predicate IsDirective(member: string, name: string, blanks: nat) {
    && blanks + |name| <= |member|
    && (forall i :: 0 <= i < blanks ==> member[i] == ' ' || member[i] == '\t')
    && Lower(member[blanks..blanks + |name|]) == name
    && (blanks + |name| == |member| || member[blanks + |name|] in {' ', '\t', '='})
  }

  lemma DirectiveIsAWord(member: string, name: string, blanks: nat)
    requires IsDirective(member, name, blanks)
    ensures WordAt(Lower(member), name, blanks)
  {
    LowerSlice(member, blanks, blanks + |name|);
  }

  lemma WordAfterComma(first: string, rest: string, word: string, i: nat)
    requires WordAt(rest, word, i)
    ensures WordAt(first + "," + rest, word, |first| + 1 + i)
  {
    var s := first + "," + rest;
    assert s[|first| + 1 + i..|first| + 1 + i + |word|] == rest[i..i + |word|];
  }

  lemma WordBeforeComma(first: string, rest: string, word: string, i: nat)
    requires WordAt(first, word, i)
    ensures WordAt(first + "," + rest, word, i)
  {
    var s := first + "," + rest;
    assert s[i..i + |word|] == first[i..i + |word|];
  }

  lemma LowerConcat(a: string, b: string)
    ensures Lower(a + "," + b) == Lower(a) + "," + Lower(b)
  {
  }

  /** Wherever a directive stands in the list, the expression finds its name. */
  lemma {:induction false} DirectiveIsFound(members: seq<string>, k: nat, name: string, blanks: nat) returns (i: nat)
    requires k < |members| && IsDirective(members[k], name, blanks)
    ensures WordAt(Lower(Join(members)), name, i)
    decreases |members|
  {
    if k == 0 {
      DirectiveIsAWord(members[0], name, blanks);
      i := blanks;
      if |members| > 1 {
        LowerConcat(members[0], Join(members[1..]));
        WordBeforeComma(Lower(members[0]), Lower(Join(members[1..])), name, i);
      }
    } else {
      var j := DirectiveIsFound(members[1..], k - 1, name, blanks);
      LowerConcat(members[0], Join(members[1..]));
      WordAfterComma(Lower(members[0]), Lower(Join(members[1..])), name, j);
      i := |members[0]| + 1 + j;
    }
  }

  /** No response whose Cache-Control list has a no-store or private directive is ever stored. */
  lemma NoStoreAndPrivateAreRefused(response: Response, members: seq<string>, k: nat, name: string, blanks: nat,
                                    forPage: bool)
    requires response.cacheControl == Join(members)
    requires k < |members| && name in {"no-store", "private"} && IsDirective(members[k], name, blanks)
    ensures !Storable(response, forPage)
  {
    var i := DirectiveIsFound(members, k, name, blanks);
    assert i < |Lower(response.cacheControl)|;
  }

  // ---- Ages ----

  /** None stands for an infinite age. */
  function AgeMs(response: Response, now: int): Option<nat> {
    if response.savedAt.None? then None
    else Some(if now - response.savedAt.value < 0 then 0 else now - response.savedAt.value)
  }

  predicate Within(age: Option<nat>, limit: int) {
    age.Some? && age.value <= limit
  }
}
