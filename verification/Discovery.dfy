/**
 Sources that discovery found, a reviewer's decisions on them, and the one function that attaches one:
 it may add a source and a pending version to the evidence, and nothing that anyone outside can see.
 */
module Discovery {
  import opened Wrappers
  import E = Evidence

  type Id = nat

  datatype Scope = PublicScope | ReportScope
  datatype Disposition = NotReviewed | Attached | Rejected | Deferred

  /** `shown` stands for the columns the public view only repeats. */
  datatype Discovered = Discovered(
    scope: Scope, project: Id, report: Option<Id>, url: string, domain: string, title: Option<string>,
    preliminaryType: string, excerpt: string, duplicateOf: Option<Id>, injectionFlag: bool, lastRetrievedAt: int,
    shown: string, disposition: Disposition, attachedSource: Option<Id>,
    decidedBy: Option<Id>, decidedAt: Option<int>, reason: Option<string>, key: Option<Id>)

  datatype Run = Run(scope: Scope, project: Id, shown: string)
  datatype Sighting = Sighting(source: Id, run: Id)
  /** The details of an entry name the source and a review state, which is written as pending in every case. */
  datatype AuditEntry = AuditEntry(at: int, actor: Id, subject: Id, source: Id, reviewState: E.ReviewState)

  datatype Db = Db(
    ev: E.Txn, discovered: map<Id, Discovered>, runs: map<Id, Run>, sightings: map<Id, Sighting>,
    audit: map<Id, AuditEntry>, reviewers: set<Id>, keys: set<Id>)

  predicate DiscoveredChecks(d: Discovered) {
    && E.UrlChecks(d.url) && 1 <= |d.excerpt| <= 1200 && (d.scope.PublicScope? <==> d.report.None?)
    && (if d.disposition.NotReviewed? then d.decidedAt.None? && d.reason.None?
        else d.decidedAt.Some? && d.reason.Some? && d.key.Some?)
    && (d.disposition.Attached? ==> d.attachedSource.Some?)
  }

  /** The guard trigger's machine. */
  predicate MayDecide(was: Disposition, next: Disposition) {
    || next == was
    || (was.NotReviewed? && !next.NotReviewed?)
    || (was.Deferred? && (next.Attached? || next.Rejected?))
    || ((was.Attached? || was.Rejected?) && next.Deferred?)
  }

  // ---- Attaching ----

  datatype Request = Request(
    id: Id, actor: Id, now: int, sourceId: Id, versionId: Id, reason: Option<string>, key: Option<Id>, auditId: Id)

  datatype Outcome = NotFound | NotAllowed | Done | Raised

  predicate HasUrl(t: E.Tables, s: Id, url: string) {
    s in t.sources && t.sources[s].url == url
  }

  ghost predicate UrlsDiffer(t: E.Tables) {
    forall r, s :: r in t.sources && s in t.sources && t.sources[r].url == t.sources[s].url ==> r == s
  }

  ghost predicate UrlKnown(t: E.Tables, url: string) {
    exists s :: HasUrl(t, s, url)
  }

  /** The source a discovered one belongs to: the one with its URL, or the one about to be created. */
  ghost function Home(t: E.Tables, d: Discovered, p: Request): (s: Id)
    ensures UrlKnown(t, d.url) ==> HasUrl(t, s, d.url)
    ensures !UrlKnown(t, d.url) ==> s == p.sourceId
  {
    if UrlKnown(t, d.url) then var s: Id :| HasUrl(t, s, d.url); s else p.sourceId
  }

  function KindOf(d: Discovered): string {
    if d.preliminaryType in {"government_publication", "civic_research", "other_public_source"} then d.preliminaryType
    else "other_public_source"
  }

  function NewSource(d: Discovered): E.Source {
    E.Source(d.url, if d.title.Some? then d.title.value else d.domain, d.domain, KindOf(d),
             if KindOf(d) == "government_publication" then "official_source" else "independent_source", true)
  }

  function NewVersion(d: Discovered, source: Id, now: int): E.Version {
    E.Version(source, E.Digest(d.excerpt), d.excerpt, "text/plain", d.lastRetrievedAt, now, "en", E.Pending, None)
  }

  ghost function WithSource(t: E.Tables, d: Discovered, p: Request): E.Tables {
    if UrlKnown(t, d.url) then t else t.(sources := t.sources[p.sourceId := NewSource(d)])
  }

  ghost function WithVersion(t: E.Tables, d: Discovered, p: Request): E.Tables {
    var source := Home(t, d, p);
    var t1 := WithSource(t, d, p);
    if E.VersionTaken(t1, source, E.Digest(d.excerpt)) then t1
    else t1.(versions := t1.versions[p.versionId := NewVersion(d, source, p.now)])
  }

  /**
   What else the writes need: ids not in use, a new source that passes its checks, a reason and its key, a known
   reviewer.
   */
  ghost predicate Writable(db: Db, p: Request)
    requires p.id in db.discovered
  {
    var d := db.discovered[p.id];
    && (!UrlKnown(db.ev.t, d.url) ==> p.sourceId !in db.ev.t.sources && E.SourceChecks(NewSource(d)))
    && (!E.VersionTaken(WithSource(db.ev.t, d, p), Home(db.ev.t, d, p), E.Digest(d.excerpt)) ==>
        p.versionId !in db.ev.t.versions)
    && p.reason.Some? && p.key.Some? && p.key.value in db.keys && p.actor in db.reviewers
    && p.auditId !in db.audit
  }

  ghost function AttachOutcome(db: Db, p: Request): Outcome {
    if p.id !in db.discovered then NotFound
    else if !db.discovered[p.id].disposition.NotReviewed? && !db.discovered[p.id].disposition.Deferred? then NotAllowed
    else if Writable(db, p) then Done else Raised
  }

  function Decided(d: Discovered, p: Request, source: Id): Discovered {
    d.(disposition := Attached, attachedSource := Some(source), decidedBy := Some(p.actor), decidedAt := Some(p.now),
       reason := p.reason, key := p.key)
  }

  /** The database after an attach: perhaps a source, perhaps a pending version, the decision, one audit entry. */
  ghost function AfterAttach(db: Db, p: Request): Db
    requires p.id in db.discovered
  {
    var d := db.discovered[p.id];
    var source := Home(db.ev.t, d, p);
    db.(ev := db.ev.(t := WithVersion(db.ev.t, d, p)),
        discovered := db.discovered[p.id := Decided(d, p, source)],
        audit := db.audit[p.auditId := AuditEntry(p.now, p.actor, p.id, source, E.Pending)])
  }

  // ---- What the public role can read ----

  datatype RunSource = RunSource(
    run: Id, source: Id, url: string, domain: string, title: Option<string>, preliminaryType: string, excerpt: string,
    lastRetrievedAt: int, shown: string)

  datatype Views = Views(
    claims: map<E.Row, (E.Claim, E.Project)>,
    citations: map<E.Row, (E.Citation, E.Source, int)>,
    citedSources: map<Id, E.Source>,
    chunks: map<Id, (E.Chunk, E.Project, E.Source, int)>,
    runs: map<Id, (Run, E.Project)>,
    runSources: map<Id, RunSource>)

  predicate CitationShown(t: E.Tables, key: E.Row) {
    key in t.cites && E.PublicCitation(t, key, E.ParentOf(key, t.cites[key]))
  }

  predicate SourceCited(t: E.Tables, s: Id) {
    s in t.sources &&
    exists key :: key in t.cites && CitationShown(t, key) && t.versions[t.cites[key].version].source == s
  }

  predicate RunShown(db: Db, id: Id) {
    && id in db.runs && db.runs[id].scope.PublicScope?
    && db.runs[id].project in db.ev.t.projects && db.ev.t.projects[db.runs[id].project].public
  }

  predicate SightingShown(db: Db, id: Id) {
    && id in db.sightings && db.sightings[id].source in db.discovered && db.sightings[id].run in db.runs
    && var d := db.discovered[db.sightings[id].source];
    && d.scope.PublicScope? && db.runs[db.sightings[id].run].scope.PublicScope?
    && d.duplicateOf.None? && !d.injectionFlag && !d.disposition.Rejected?
  }

  function ShownSource(db: Db, id: Id): RunSource
    requires SightingShown(db, id)
  {
    var d := db.discovered[db.sightings[id].source];
    RunSource(db.sightings[id].run, db.sightings[id].source, d.url, d.domain, d.title, d.preliminaryType, d.excerpt,
              d.lastRetrievedAt, d.shown)
  }

  function ShownClaims(t: E.Tables): map<E.Row, (E.Claim, E.Project)> {
    map row | row in t.claims && E.PublicClaim(t, row) :: (t.claims[row], t.projects[t.claims[row].project])
  }

  function CitationRow(t: E.Tables, key: E.Row): (E.Citation, E.Source, int)
    requires CitationShown(t, key)
  {
    var v := t.versions[t.cites[key].version];
    (t.cites[key], t.sources[v.source], v.retrievedAt)
  }

  function ShownCitations(t: E.Tables): map<E.Row, (E.Citation, E.Source, int)> {
    map key | key in t.cites && CitationShown(t, key) :: CitationRow(t, key)
  }

  function CitedSources(t: E.Tables): map<Id, E.Source> {
    map s | s in t.sources && SourceCited(t, s) :: t.sources[s]
  }

  function ChunkRow(t: E.Tables, id: Id): (E.Chunk, E.Project, E.Source, int)
    requires E.PublicChunk(t, id)
  {
    var c := t.chunks[id];
    (c, t.projects[c.project], t.sources[c.source], t.versions[c.version].retrievedAt)
  }

  function ShownChunks(t: E.Tables): map<Id, (E.Chunk, E.Project, E.Source, int)> {
    map id | id in t.chunks && E.PublicChunk(t, id) :: ChunkRow(t, id)
  }

  function ShownRuns(db: Db): map<Id, (Run, E.Project)> {
    map id | id in db.runs && RunShown(db, id) :: (db.runs[id], db.ev.t.projects[db.runs[id].project])
  }

  function ShownRunSources(db: Db): map<Id, RunSource> {
    map id | id in db.sightings && SightingShown(db, id) :: ShownSource(db, id)
  }

  function PublicViews(db: Db): Views {
    Views(ShownClaims(db.ev.t), ShownCitations(db.ev.t), CitedSources(db.ev.t), ShownChunks(db.ev.t),
          ShownRuns(db), ShownRunSources(db))
  }

  // ---- Attaching shows nothing ----

  /** New sources and versions beside the old ones, which stay as they were; nothing else. */
  ghost predicate Extends(t: E.Tables, t': E.Tables) {
    && t'.projects == t.projects && t'.claims == t.claims && t'.cites == t.cites && t'.chunks == t.chunks
    && (forall v :: v in t.versions ==> v in t'.versions && t'.versions[v] == t.versions[v])
    && (forall s :: s in t.sources ==> s in t'.sources && t'.sources[s] == t.sources[s])
  }

  lemma SameCitation(t: E.Tables, t': E.Tables, key: E.Row)
    requires E.Intact(t) && Extends(t, t') && key in t.cites
    ensures t.cites[key].version in t.versions && t.versions[t.cites[key].version].source in t.sources
    ensures CitationShown(t', key) <==> CitationShown(t, key)
    ensures CitationShown(t, key) ==> CitationRow(t', key) == CitationRow(t, key)
  {
    assert E.CitationAllowed(t, key, t.cites[key]);
    assert E.VersionChecks(t.versions[t.cites[key].version]);
  }

  lemma SameSource(t: E.Tables, t': E.Tables, s: Id)
    requires E.Intact(t) && Extends(t, t')
    ensures SourceCited(t', s) <==> SourceCited(t, s)
  {
    forall key | key in t.cites
      ensures CitationShown(t', key) <==> CitationShown(t, key)
      ensures t.cites[key].version in t.versions && t.versions[t.cites[key].version].source in t.sources
    {
      SameCitation(t, t', key);
    }
  }

  lemma SameDocument(t: E.Tables, t': E.Tables, project: Id, source: Id, version: Id, language: string)
    requires Extends(t, t') && version in t.versions && source in t.sources
    ensures E.ApprovedDocument(t', project, source, version, language)
        <==> E.ApprovedDocument(t, project, source, version, language)
  {
    assert forall key :: E.CitesPublicly(t', key, project, version) <==> E.CitesPublicly(t, key, project, version);
  }

  lemma SameChunk(t: E.Tables, t': E.Tables, id: Id)
    requires E.Intact(t) && Extends(t, t') && id in t.chunks
    ensures E.PublicChunk(t', id) <==> E.PublicChunk(t, id)
    ensures E.PublicChunk(t, id) ==> ChunkRow(t', id) == ChunkRow(t, id)
  {
    var c := t.chunks[id];
    assert E.ChunkMatches(t, c);
    assert E.VersionChecks(t.versions[c.version]);
    SameDocument(t, t', c.project, c.source, c.version, c.language);
  }

  lemma SameShownCitations(t: E.Tables, t': E.Tables)
    requires E.Intact(t) && Extends(t, t')
    ensures ShownCitations(t') == ShownCitations(t)
  {
    forall key | key in t.cites
      ensures CitationShown(t', key) <==> CitationShown(t, key)
      ensures CitationShown(t, key) ==> CitationRow(t', key) == CitationRow(t, key)
    {
      SameCitation(t, t', key);
    }
  }

  lemma SameCitedSources(t: E.Tables, t': E.Tables)
    requires E.Intact(t) && Extends(t, t')
    ensures CitedSources(t') == CitedSources(t)
  {
    forall s ensures s in CitedSources(t') <==> s in CitedSources(t) {
      SameSource(t, t', s);
    }
  }

  lemma SameShownChunks(t: E.Tables, t': E.Tables)
    requires E.Intact(t) && Extends(t, t')
    ensures ShownChunks(t') == ShownChunks(t)
  {
    forall id | id in t.chunks
      ensures E.PublicChunk(t', id) <==> E.PublicChunk(t, id)
      ensures E.PublicChunk(t, id) ==> ChunkRow(t', id) == ChunkRow(t, id)
    {
      SameChunk(t, t', id);
    }
  }

  lemma AttachExtends(db: Db, p: Request)
    requires AttachOutcome(db, p) == Done
    ensures Extends(db.ev.t, AfterAttach(db, p).ev.t)
  {
  }

  predicate SameToThePublic(d: Discovered, e: Discovered) {
    && d.scope == e.scope && d.url == e.url && d.domain == e.domain && d.title == e.title
    && d.preliminaryType == e.preliminaryType && d.excerpt == e.excerpt && d.duplicateOf == e.duplicateOf
    && d.injectionFlag == e.injectionFlag && d.lastRetrievedAt == e.lastRetrievedAt && d.shown == e.shown
    && (d.disposition.Rejected? <==> e.disposition.Rejected?)
  }

  lemma SameRunSources(db: Db, db': Db)
    requires db'.runs == db.runs && db'.sightings == db.sightings && db'.discovered.Keys == db.discovered.Keys
    requires forall id :: id in db.discovered ==> SameToThePublic(db.discovered[id], db'.discovered[id])
    ensures ShownRunSources(db') == ShownRunSources(db)
  {
    forall id ensures SightingShown(db', id) <==> SightingShown(db, id) {
    }
  }

  lemma AttachLeavesTheRest(db: Db, p: Request)
    requires AttachOutcome(db, p) == Done
    ensures var db' := AfterAttach(db, p);
            && db'.runs == db.runs && db'.sightings == db.sightings && db'.discovered.Keys == db.discovered.Keys
            && forall id :: id in db.discovered ==> SameToThePublic(db.discovered[id], db'.discovered[id])
  {
  }

  lemma SameShownClaims(t: E.Tables, t': E.Tables)
    requires t'.projects == t.projects && t'.claims == t.claims
    ensures ShownClaims(t') == ShownClaims(t)
  {
  }

  lemma SameRuns(db: Db, db': Db)
    requires db'.runs == db.runs && db'.ev.t.projects == db.ev.t.projects
    ensures ShownRuns(db') == ShownRuns(db)
  {
  }

  /** No public view changes: facts, updates, citations, cited sources, chunks, runs and the runs' sources. */
  lemma AttachIsInvisible(db: Db, p: Request)
    requires E.Intact(db.ev.t) && AttachOutcome(db, p) == Done
    ensures PublicViews(AfterAttach(db, p)) == PublicViews(db)
  {
    AttachExtends(db, p);
    AttachLeavesTheRest(db, p);
    var db' := AfterAttach(db, p);
    SameShownClaims(db.ev.t, db'.ev.t);
    SameShownCitations(db.ev.t, db'.ev.t);
    SameCitedSources(db.ev.t, db'.ev.t);
    SameShownChunks(db.ev.t, db'.ev.t);
    SameRuns(db, db');
    SameRunSources(db, db');
  }

  // ---- Attaching as evidence statements ----

  lemma TwoStatements(x: E.Txn, a: E.Statement, b: E.Statement)
    ensures E.Exec(x, a).Some? ==> E.ExecAll(x, [a, b]) == E.Exec(E.Exec(x, a).value, b)
  {
    assert [a, b][1..] == [b];
    if E.Exec(x, a).Some? {
      E.OneStatement(E.Exec(x, a).value, b);
    }
  }

  /** Of all the checks on a new source, only an empty title or an empty domain can fail. */
  lemma NewSourceIsAllowed(d: Discovered)
    requires DiscoveredChecks(d)
    ensures E.SourceChecks(NewSource(d)) <==> d.domain != "" && d.title != Some("")
  {
  }

  lemma NoVersionYet(t: E.Tables, d: Discovered, p: Request)
    requires E.VersionsIntact(t) && !UrlKnown(t, d.url) && p.sourceId !in t.sources
    ensures !E.VersionTaken(WithSource(t, d, p), p.sourceId, E.Digest(d.excerpt))
  {
  }

  lemma NewUrlIsFree(t: E.Tables, d: Discovered, p: Request)
    requires !UrlKnown(t, d.url)
    ensures !E.UrlTaken(t, p.sourceId, d.url)
  {
    forall s | s in t.sources ensures t.sources[s].url != d.url {
      assert !HasUrl(t, s, d.url);
    }
  }

  /** What an attach does to the evidence is at most two ordinary statements, which leave no deferred event. */
  lemma AttachAsStatements(db: Db, p: Request) returns (statements: seq<E.Statement>)
    requires E.VersionsIntact(db.ev.t) && AttachOutcome(db, p) == Done && DiscoveredChecks(db.discovered[p.id])
    ensures E.ExecAll(db.ev, statements) == Some(AfterAttach(db, p).ev)
    ensures AfterAttach(db, p).ev.events == db.ev.events
  {
    var t, d := db.ev.t, db.discovered[p.id];
    var source := Home(t, d, p);
    var a, b := E.PutSource(p.sourceId, NewSource(d)), E.InsertVersion(p.versionId, NewVersion(d, source, p.now));
    if !UrlKnown(t, d.url) {
      NoVersionYet(t, d, p);
      NewUrlIsFree(t, d, p);
      TwoStatements(db.ev, a, b);
      statements := [a, b];
    } else if E.VersionTaken(t, source, E.Digest(d.excerpt)) {
      statements := [];
    } else {
      E.OneStatement(db.ev, b);
      statements := [b];
    }
  }

  // ---- What attaching promises ----

  /** A version of the source holds the excerpt word for word. */
  ghost predicate Holds(t: E.Tables, s: Id, excerpt: string) {
    exists v :: v in t.versions && t.versions[v].source == s && t.versions[v].text == excerpt
  }

  /**
   After an attach the source has the discovered URL and holds the excerpt, as a version that was there
   before or as a new pending one; whatever is new about the evidence is that source and that version.
   */
  lemma AttachedHoldsTheExcerpt(db: Db, p: Request)
    requires E.VersionsIntact(db.ev.t) && AttachOutcome(db, p) == Done
    ensures var t, t', d' := db.ev.t, AfterAttach(db, p).ev.t, AfterAttach(db, p).discovered[p.id];
            && d'.attachedSource.Some? && HasUrl(t', d'.attachedSource.value, d'.url)
            && Holds(t', d'.attachedSource.value, d'.excerpt)
            && (forall s :: s in t'.sources && s !in t.sources ==> s == d'.attachedSource.value)
            && (forall v :: v in t'.versions && v !in t.versions ==>
                  v == p.versionId && t'.versions[v].state == E.Pending && t'.versions[v].text == d'.excerpt
                  && !Holds(t, d'.attachedSource.value, d'.excerpt))
  {
    var t, d := db.ev.t, db.discovered[p.id];
    var source := Home(t, d, p);
    var t1, t' := WithSource(t, d, p), WithVersion(t, d, p);
    if E.VersionTaken(t1, source, E.Digest(d.excerpt)) {
      var v :| v in t1.versions && t1.versions[v].source == source && t1.versions[v].digest == E.Digest(d.excerpt);
      assert E.VersionChecks(t.versions[v]);
      assert t'.versions[v].text == d.excerpt;
    } else {
      assert t'.versions[p.versionId].text == d.excerpt;
      forall v | v in t.versions && t.versions[v].source == source ensures t.versions[v].text != d.excerpt {
        assert E.VersionChecks(t.versions[v]);
        assert t1.versions[v].digest != E.Digest(d.excerpt);
      }
    }
  }

  /** Once the source holds the excerpt, attaching again (after a deferral) adds no evidence at all. */
  lemma AttachingAgainAddsNothing(db: Db, p: Request)
    requires E.VersionsIntact(db.ev.t) && UrlsDiffer(db.ev.t) && AttachOutcome(db, p) == Done
    requires exists s :: HasUrl(db.ev.t, s, db.discovered[p.id].url) && Holds(db.ev.t, s, db.discovered[p.id].excerpt)
    ensures AfterAttach(db, p).ev == db.ev
  {
    var t, d := db.ev.t, db.discovered[p.id];
    var s :| HasUrl(t, s, d.url) && Holds(t, s, d.excerpt);
    assert Home(t, d, p) == s;
    var v :| v in t.versions && t.versions[v].source == s && t.versions[v].text == d.excerpt;
    assert E.VersionChecks(t.versions[v]);
  }

  /** Every version that a source with the URL has of the text is in the given review state. */
  predicate AllInState(t: E.Tables, url: string, text: string, state: E.ReviewState) {
    forall v :: v in t.versions && HasUrl(t, t.versions[v].source, url) && t.versions[v].text == text ==>
                  t.versions[v].state == state
  }

  /** The entry that an attach writes is right about the version that the attached source now has. */
  ghost predicate EntryIsTrue(db: Db, auditId: Id, d: Discovered) {
    && auditId in db.audit && d.attachedSource == Some(db.audit[auditId].source)
    && var t, entry := db.ev.t, db.audit[auditId];
    forall v :: v in t.versions && t.versions[v].source == entry.source && t.versions[v].text == d.excerpt ==>
                  t.versions[v].state == entry.reviewState
  }

  /**
   The entry always says that what was attached is pending. That is so exactly when the source with the URL
   had no version of the excerpt before, or only pending ones: a version found there keeps its state.
   */
  lemma EntryIsTrueIffOnlyPendingWasThere(db: Db, p: Request)
    requires E.VersionsIntact(db.ev.t) && UrlsDiffer(db.ev.t) && AttachOutcome(db, p) == Done
    ensures var d := db.discovered[p.id];
            EntryIsTrue(AfterAttach(db, p), p.auditId, AfterAttach(db, p).discovered[p.id])
            <==> AllInState(db.ev.t, d.url, d.excerpt, E.Pending)
  {
    var t, d := db.ev.t, db.discovered[p.id];
    var source, t' := Home(t, d, p), WithVersion(t, d, p);
    assert AfterAttach(db, p).ev.t == t' && AfterAttach(db, p).audit[p.auditId].source == source;
    forall v | v in t.versions
      ensures t'.versions[v] == t.versions[v]
      ensures HasUrl(t, t.versions[v].source, d.url) <==> t.versions[v].source == source
    {
      assert E.VersionChecks(t.versions[v]);
      if HasUrl(t, t.versions[v].source, d.url) {
        assert UrlKnown(t, d.url);
      }
    }
    forall v | v in t'.versions && v !in t.versions ensures t'.versions[v].state == E.Pending {
    }
  }

  /** The failing inputs: whatever other state the version was left in, the entry calls it pending. */
  lemma ReviewedVersionIsCalledPending(state: E.ReviewState) returns (db: Db, p: Request)
    requires state != E.Pending
    ensures E.Good(db.ev.t) && UrlsDiffer(db.ev.t) && AttachOutcome(db, p) == Done
    ensures forall id :: id in db.discovered ==> DiscoveredChecks(db.discovered[id])
    ensures var db' := AfterAttach(db, p);
            && !EntryIsTrue(db', p.auditId, db'.discovered[p.id])
            && db'.audit[p.auditId].reviewState == E.Pending
            && exists v :: v in db'.ev.t.versions && db'.ev.t.versions[v].source == db'.audit[p.auditId].source
                           && db'.ev.t.versions[v].text == db'.discovered[p.id].excerpt
                           && db'.ev.t.versions[v].state == state
  {
    var url := "https://a";
    var version := E.Version(0, E.Digest("x"), "x", "text/plain", 0, 0, "en", state, Some(0));
    var t := E.Tables(
      map[0 := E.Project("p", true)], map[0 := E.Source(url, "t", "a", "civic_research", "independent_source", true)],
      map[0 := version], map[], map[], map[]);
    var d := Discovered(PublicScope, 0, None, url, "a", None, "civic_research", "x", None, false, 0, "",
                        NotReviewed, None, None, None, None, None);
    db := Db(E.Txn(t, {}), map[0 := d], map[], map[], map[], {0}, {0});
    p := Request(0, 0, 0, 1, 1, Some("because"), Some(0), 0);
    assert HasUrl(t, 0, url) && t.versions[0].digest == E.Digest(d.excerpt);
    assert UrlKnown(t, url) && Home(t, d, p) == 0;
    assert E.VersionTaken(WithSource(t, d, p), 0, E.Digest(d.excerpt));
    assert AttachOutcome(db, p) == Done;
    var db' := AfterAttach(db, p);
    assert db'.ev.t == t;
    assert 0 in db'.ev.t.versions && db'.ev.t.versions[0].text == db'.discovered[0].excerpt;
  }

  /** Attaching keeps every public claim supported: with no new event, the deferred checks cannot fail for it. */
  lemma AttachKeepsGood(db: Db, p: Request)
    requires E.Good(db.ev.t) && AttachOutcome(db, p) == Done && DiscoveredChecks(db.discovered[p.id])
    ensures E.Good(AfterAttach(db, p).ev.t)
  {
    var x := E.Txn(db.ev.t, {});
    var db0 := db.(ev := x);
    var statements := AttachAsStatements(db0, p);
    E.CommitIffSupported(db.ev.t, statements);
    E.ExecAllKeepsIntact(x, statements);
  }

  // ---- The function itself ----

  class DiscoveryDatabase {
    const evidence: E.Database
    var discovered: map<Id, Discovered>
    var runs: map<Id, Run>
    var sightings: map<Id, Sighting>
    var audit: map<Id, AuditEntry>
    var reviewers: set<Id>
    var keys: set<Id>
    var kept: Db

    function View(): Db
      reads this, evidence
    {
      Db(evidence.Work(), discovered, runs, sightings, audit, reviewers, keys)
    }

    /** What an abort returns to. */
    predicate Anchored()
      reads this, evidence
    {
      kept.ev == E.Txn(evidence.committed, {})
    }

    constructor (evidence: E.Database, reviewers: set<Id>, keys: set<Id>)
      requires evidence.Fresh()
      ensures this.evidence == evidence && Anchored() && View() == kept
      ensures View() == Db(evidence.Work(), map[], map[], map[], map[], reviewers, keys)
    {
      this.evidence, this.reviewers, this.keys := evidence, reviewers, keys;
      discovered, runs, sightings, audit := map[], map[], map[], map[];
      kept := Db(E.Txn(evidence.committed, {}), map[], map[], map[], map[], reviewers, keys);
    }

    method RollBack()
      requires Anchored()
      modifies this, evidence
      ensures Anchored() && kept == old(kept) && View() == kept
    {
      evidence.RollBack();
      discovered, runs, sightings, audit := kept.discovered, kept.runs, kept.sightings, kept.audit;
      reviewers, keys := kept.reviewers, kept.keys;
    }

    /** SELECT the source by URL, INSERT it when there is none. */
    method FindOrAddSource(d: Discovered, p: Request) returns (ok: bool, source: Id)
      requires UrlsDiffer(evidence.Work().t)
      modifies evidence
      ensures evidence.committed == old(evidence.committed)
      ensures var t := old(evidence.Work().t);
              && ok == (!UrlKnown(t, d.url) ==> p.sourceId !in t.sources && E.SourceChecks(NewSource(d)))
              && (ok ==> source == Home(t, d, p) && evidence.Work() == old(evidence.Work()).(t := WithSource(t, d, p)))
    {
      ghost var t := evidence.Work().t;
      if s :| s in evidence.sources && evidence.sources[s].url == d.url {
        assert HasUrl(t, s, d.url);
        return true, s;
      }
      assert !UrlKnown(t, d.url);
      source := p.sourceId;
      ok := p.sourceId !in evidence.sources && E.SourceChecks(NewSource(d));
      if ok {
        evidence.sources := evidence.sources[p.sourceId := NewSource(d)];
      }
    }

    /** INSERT ... ON CONFLICT (source_id, content_sha256) DO NOTHING. */
    method AddVersionOnce(d: Discovered, p: Request, source: Id) returns (ok: bool)
      requires source in evidence.sources && DiscoveredChecks(d)
      modifies evidence
      ensures evidence.committed == old(evidence.committed)
      ensures var t := old(evidence.Work().t);
              var taken := E.VersionTaken(t, source, E.Digest(d.excerpt));
              && ok == (taken || p.versionId !in t.versions)
              && (ok ==> evidence.Work() == if taken then old(evidence.Work()) else
                           (var v := NewVersion(d, source, p.now);
                            old(evidence.Work()).(t := t.(versions := t.versions[p.versionId := v]))))
    {
      if E.VersionTaken(evidence.Work().t, source, E.Digest(d.excerpt)) {
        return true;
      }
      ok := evidence.AddVersion(p.versionId, NewVersion(d, source, p.now));
    }

    /** The decision on the discovered row, through its guard and checks, and the audit entry. */
    method DecideAndAudit(p: Request, source: Id) returns (ok: bool)
      requires p.id in discovered && DiscoveredChecks(discovered[p.id])
      requires discovered[p.id].disposition.NotReviewed? || discovered[p.id].disposition.Deferred?
      modifies this
      ensures kept == old(kept) && (runs, sightings, reviewers, keys) == old((runs, sightings, reviewers, keys))
      ensures ok == (p.reason.Some? && p.key.Some? && p.key.value in keys && p.actor in reviewers
                     && p.auditId !in old(audit))
      ensures ok ==>
                && discovered == old(discovered)[p.id := Decided(old(discovered)[p.id], p, source)]
                && audit == old(audit)[p.auditId := AuditEntry(p.now, p.actor, p.id, source, E.Pending)]
    {
      var was := discovered[p.id];
      var next := Decided(was, p, source);
      ok := MayDecide(was.disposition, next.disposition) && DiscoveredChecks(next);
      ok := ok && next.key.value in keys && p.actor in reviewers && p.auditId !in audit;
      if ok {
        discovered := discovered[p.id := next];
        audit := audit[p.auditId := AuditEntry(p.now, p.actor, p.id, source, E.Pending)];
      }
    }

    method Write(p: Request) returns (ok: bool)
      requires p.id in discovered && DiscoveredChecks(discovered[p.id]) && UrlsDiffer(View().ev.t)
      requires discovered[p.id].disposition.NotReviewed? || discovered[p.id].disposition.Deferred?
      modifies this, evidence
      ensures kept == old(kept) && evidence.committed == old(evidence.committed)
      ensures ok == Writable(old(View()), p)
      ensures ok ==> View() == AfterAttach(old(View()), p)
    {
      var d := discovered[p.id];
      var source: Id;
      ok, source := FindOrAddSource(d, p);
      if ok {
        ok := AddVersionOnce(d, p, source);
      }
      if ok {
        ok := DecideAndAudit(p, source);
      }
    }

    /** `attach_discovered_source`. */
    method AttachDiscoveredSource(p: Request) returns (outcome: Outcome)
      requires Anchored() && UrlsDiffer(View().ev.t)
      requires forall id :: id in discovered ==> DiscoveredChecks(discovered[id])
      modifies this, evidence
      ensures Anchored() && kept == old(kept)
      ensures outcome == AttachOutcome(old(View()), p)
      ensures match outcome
              case Done => View() == AfterAttach(old(View()), p)
              case Raised => View() == kept
              case _ => View() == old(View())
    {
      if p.id !in discovered {
        return NotFound;
      }
      var d := discovered[p.id];
      if !d.disposition.NotReviewed? && !d.disposition.Deferred? {
        return NotAllowed;
      }
      var ok := Write(p);
      if ok {
        outcome := Done;
      } else {
        RollBack();
        outcome := Raised;
      }
    }
  }
}
