/**
 Sources, immutable versions, facts, updates, their citations and the retrieval chunks, as tables that
 statements change inside a transaction. Constraint triggers are deferred: a statement only leaves
 events behind, and each event is checked against the final state at commit.

 Facts and updates are written from one template in the migration, so one table of claims keyed by
 (table, id) stands for both, and one table of citations for theirs.
 */
module Evidence {
  import opened Wrappers

  type Id = nat

  // ---- Rows ----

  datatype ReviewState = Pending | InReview | Approved | Rejected | Superseded

  predicate Citable(s: ReviewState) {
    s.Approved? || s.Superseded?
  }

  /** The review machine of `protect_source_versions`. */
  predicate MayBecome(was: ReviewState, next: ReviewState) {
    || next == was
    || (was.Pending? && next.InReview?)
    || (was.InReview? && (next.Approved? || next.Rejected?))
    || (was.Approved? && (next.InReview? || next.Superseded?))
    || ((was.Rejected? || was.Superseded?) && next.InReview?)
  }

  /** SHA-256 is taken to be free of collisions: a digest stands for its text. */
  datatype Digest = Digest(text: string)

  datatype Project = Project(slug: string, public: bool)
  datatype Source = Source(
    url: string, title: string, publisher: string, kind: string, informationClass: string, available: bool)
  datatype Version = Version(
    source: Id, digest: Digest, text: string, mediaType: string, retrievedAt: int, createdAt: int,
    language: string, state: ReviewState, reviewedAt: Option<int>)

  datatype Verification =
    AwaitingVerification | VerifiedOfficial | Corroborated | CommunityReviewed | Disputed | Outdated

  datatype Claim = Claim(
    project: Id, statement: string, effectiveOn: Option<int>, lastCheckedOn: Option<int>,
    verification: Verification, public: bool, publishedAt: Option<int>, createdAt: int, updatedAt: int)

  datatype Citation = Citation(parent: Id, version: Id, passage: string, location: string, start: int, createdAt: int)

  datatype Chunk = Chunk(
    project: Id, source: Id, version: Id, index: int, start: int, end: int, text: string, digest: Digest,
    language: string, active: bool)

  datatype Table = Facts | Updates
  datatype Row = Row(table: Table, id: Id)

  datatype Tables = Tables(
    projects: map<Id, Project>,
    sources: map<Id, Source>,
    versions: map<Id, Version>,
    claims: map<Row, Claim>,
    cites: map<Row, Citation>,
    chunks: map<Id, Chunk>)

  /** The claim a citation row belongs to: citations of facts cite for facts, of updates for updates. */
  function ParentOf(key: Row, c: Citation): Row {
    Row(key.table, c.parent)
  }

  // ---- Column and row checks ----

  const SPACES := {' ', '\t', '\n', '\r', '\U{0B}', '\U{0C}'}

  const KINDS := {
    "government_publication", "budget_document", "procurement_record", "audit_oversight_report", "independent_media",
    "civic_research", "community_evidence", "other_public_source"}

  predicate UrlChecks(url: string) {
    && |url| <= 2048 && (("http://" <= url && |url| > 7) || ("https://" <= url && |url| > 8))
    && forall i :: 0 <= i < |url| ==> url[i] !in SPACES
  }

  predicate SourceChecks(s: Source) {
    && UrlChecks(s.url) && s.title != "" && s.publisher != "" && s.kind in KINDS
    && s.informationClass in {"official_source", "independent_source", "community_evidence_reviewed"}
  }

  const DAY := 86_400_000_000
  const LAGOS_OFFSET := 3_600_000_000

  /** The civil date in Lagos (UTC+1 all year) of an instant in microseconds. */
  function LagosDay(at: int): int {
    (at + LAGOS_OFFSET) / DAY
  }

  /** Since 0025 a public fact may await verification; a public update still may not. */
  predicate PublicComplete(table: Table, c: Claim) {
    c.public ==>
      && c.publishedAt.Some?
      && (table.Updates? ==> !c.verification.AwaitingVerification?)
      && (c.effectiveOn.Some? || c.lastCheckedOn.Some?)
  }

  predicate ClaimChecks(table: Table, c: Claim) {
    && 1 <= |c.statement| <= 2000
    && PublicComplete(table, c)
    && (table.Updates? && c.public ==> c.effectiveOn.Some?)
    && (c.lastCheckedOn.Some? ==> c.lastCheckedOn.value <= LagosDay(c.updatedAt))
  }

  predicate VersionChecks(v: Version) {
    && v.digest == Digest(v.text)
    && 1 <= |v.text| <= 500000
    && v.language in {"en", "ha", "ig", "yo"}
    && (v.state.Pending? || v.state.InReview? || v.reviewedAt.Some?)
  }

  function Clamp(n: int, length: nat): nat {
    if n < 0 then 0 else if n > length then length else n
  }

  /** SQL's `substr(text, start + 1, count)`: what of the range lies inside the text. */
  function Substr(text: string, start: int, count: nat): string {
    text[Clamp(start, |text|)..Clamp(start + count, |text|)]
  }

  predicate CitationChecks(c: Citation) {
    1 <= |c.passage| <= 1000 && 1 <= |c.location| <= 200 && c.start >= 0
  }

  /** `verify_citation_passage`: the passage is what the cited version has at the offset. */
  predicate PassageMatches(t: Tables, c: Citation) {
    c.version in t.versions && Substr(t.versions[c.version].text, c.start, |c.passage|) == c.passage
  }

  predicate ChunkChecks(c: Chunk) {
    c.index >= 0 && 0 <= c.start < c.end && 1 <= |c.text| <= 900
  }

  /** The first half of `verify_source_chunk`. */
  predicate ChunkMatches(t: Tables, c: Chunk) {
    && c.version in t.versions
    && var v := t.versions[c.version];
    && v.source == c.source && v.language == c.language && c.end >= c.start
    && Substr(v.text, c.start, c.end - c.start) == c.text
    && |c.text| == c.end - c.start
    && c.digest == Digest(c.text)
  }

  // ---- Views ----

  predicate CitesPublicly(t: Tables, key: Row, project: Id, version: Id) {
    && key in t.cites && t.cites[key].version == version
    && var parent := ParentOf(key, t.cites[key]);
    && parent in t.claims && t.claims[parent].public && t.claims[parent].project == project
  }

  /** A row of `app.approved_source_documents`. */
  predicate ApprovedDocument(t: Tables, project: Id, source: Id, version: Id, language: string) {
    && (exists key :: key in t.cites && CitesPublicly(t, key, project, version))
    && project in t.projects && t.projects[project].public
    && version in t.versions && t.versions[version].state.Approved?
    && t.versions[version].source == source && t.versions[version].language == language
    && source in t.sources && t.sources[source].available
  }

  /** A row of `public_api.source_chunks`, with the joins and the EXISTS the view spells out. */
  predicate PublicChunk(t: Tables, id: Id) {
    && id in t.chunks
    && var c := t.chunks[id];
    && c.project in t.projects && t.projects[c.project].public
    && c.source in t.sources && t.sources[c.source].available
    && c.version in t.versions && t.versions[c.version].source == c.source
    && t.versions[c.version].state.Approved? && t.versions[c.version].language == c.language
    && c.active && ApprovedDocument(t, c.project, c.source, c.version, c.language)
  }

  /** A row of `public_api.project_facts` or `public_api.project_updates`. */
  predicate PublicClaim(t: Tables, row: Row) {
    && row in t.claims && t.claims[row].public
    && t.claims[row].project in t.projects && t.projects[t.claims[row].project].public
  }

  /** A row of `public_api.fact_citations` or `public_api.update_citations` for the given claim. */
  predicate PublicCitation(t: Tables, key: Row, row: Row) {
    && key in t.cites && ParentOf(key, t.cites[key]) == row
    && row in t.claims && t.claims[row].public
    && var v := t.cites[key].version;
    && v in t.versions && Citable(t.versions[v].state) && t.versions[v].source in t.sources
  }

  // ---- Deferred events ----

  datatype Event =
    | ClaimWritten(row: Row)
    | CitationLeft(parent: Row)
    | VersionMoved(id: Id, to: ReviewState)

  predicate Supports(t: Tables, key: Row, row: Row) {
    && key in t.cites && ParentOf(key, t.cites[key]) == row
    && t.cites[key].version in t.versions && Citable(t.versions[t.cites[key].version].state)
  }

  predicate HasSupport(t: Tables, row: Row) {
    exists key :: key in t.cites && Supports(t, key, row)
  }

  predicate PublicUnsupported(t: Tables, row: Row) {
    row in t.claims && t.claims[row].public && !HasSupport(t, row)
  }

  /** What a deferred trigger does with one event; it looks at nothing but the row the event names. */
  predicate Passes(t: Tables, e: Event) {
    match e
    case ClaimWritten(row) => !PublicUnsupported(t, row)
    case CitationLeft(parent) => !PublicUnsupported(t, parent)
    case VersionMoved(id, to) =>
      Citable(to) ||
      forall key :: key in t.cites && t.cites[key].version == id ==> !PublicUnsupported(t, ParentOf(key, t.cites[key]))
  }

  // ---- Statements ----

  /** The working state of a transaction. Events only read, so their order and number do not matter. */
  datatype Txn = Txn(t: Tables, events: set<Event>)

  datatype Statement =
    | PutProject(id: Id, project: Project)
    | PutSource(id: Id, source: Source)
    | InsertVersion(id: Id, version: Version)
    | UpdateVersion(id: Id, version: Version, namesState: bool)
    | DeleteVersion(id: Id)
    | InsertClaim(row: Row, claim: Claim)
    | UpdateClaim(row: Row, newId: Id, claim: Claim)
    | DeleteClaim(row: Row)
    | InsertCitation(row: Row, citation: Citation)
    | UpdateCitation(row: Row, newId: Id, citation: Citation)
    | DeleteCitation(row: Row)
    | InsertChunk(id: Id, chunk: Chunk)
    | UpdateChunk(id: Id, chunk: Chunk)

  predicate UrlTaken(t: Tables, id: Id, url: string) {
    exists s :: s in t.sources && s != id && t.sources[s].url == url
  }

  predicate VersionTaken(t: Tables, source: Id, digest: Digest) {
    exists v :: v in t.versions && t.versions[v].source == source && t.versions[v].digest == digest
  }

  /** Two rows of one citation table with the same (parent, version, location label). */
  predicate Clash(row: Row, c: Citation, key: Row, d: Citation) {
    key.table == row.table && d.parent == c.parent && d.version == c.version && d.location == c.location
  }

  predicate LabelTaken(t: Tables, row: Row, c: Citation) {
    exists key :: key in t.cites && key != row && Clash(row, c, key, t.cites[key])
  }

  predicate ChunkTaken(t: Tables, id: Id, c: Chunk) {
    exists k :: k in t.chunks && k != id && t.chunks[k].project == c.project && t.chunks[k].version == c.version
                && t.chunks[k].language == c.language && t.chunks[k].index == c.index
  }

  predicate Cited(t: Tables, row: Row) {
    exists key :: key in t.cites && ParentOf(key, t.cites[key]) == row
  }

  /** Triggers and constraints that a citation row must pass at once, apart from its primary key. */
  predicate CitationAllowed(t: Tables, row: Row, c: Citation) {
    && PassageMatches(t, c) && CitationChecks(c)
    && ParentOf(row, c) in t.claims
    && !LabelTaken(t, row, c)
  }

  predicate ClaimAllowed(t: Tables, row: Row, c: Claim) {
    ClaimChecks(row.table, c) && c.project in t.projects
  }

  predicate ChunkAllowed(t: Tables, id: Id, c: Chunk) {
    && ChunkMatches(t, c) && ChunkChecks(c) && !ChunkTaken(t, id, c)
    && c.project in t.projects && c.source in t.sources
    && (c.active ==> ApprovedDocument(t, c.project, c.source, c.version, c.language))
  }

  predicate SameContent(v: Version, was: Version) {
    && v.source == was.source && v.digest == was.digest && v.text == was.text && v.mediaType == was.mediaType
    && v.retrievedAt == was.retrievedAt && v.createdAt == was.createdAt && v.language == was.language
  }

  function ExecUpdateVersion(x: Txn, id: Id, version: Version, namesState: bool): Option<Txn> {
    if id !in x.t.versions then Some(x)
    else
      var was := x.t.versions[id];
      var v := if namesState then version else version.(state := was.state);
      if SameContent(v, was) && MayBecome(was.state, v.state) && VersionChecks(v)
      then Some(Txn(x.t.(versions := x.t.versions[id := v]),
                    x.events + if namesState then {VersionMoved(id, v.state)} else {}))
      else None
  }

  function ExecInsertVersion(x: Txn, id: Id, v: Version): Option<Txn> {
    if id in x.t.versions || !VersionChecks(v) || v.source !in x.t.sources || VersionTaken(x.t, v.source, v.digest)
    then None
    else Some(x.(t := x.t.(versions := x.t.versions[id := v])))
  }

  function ExecInsertClaim(x: Txn, row: Row, c: Claim): Option<Txn> {
    if row in x.t.claims || !ClaimAllowed(x.t, row, c) then None
    else Some(Txn(x.t.(claims := x.t.claims[row := c]), x.events + {ClaimWritten(row)}))
  }

  function ExecUpdateClaim(x: Txn, row: Row, newId: Id, c: Claim): Option<Txn> {
    var row' := Row(row.table, newId);
    if row !in x.t.claims then Some(x)
    else if !ClaimAllowed(x.t, row', c) || (row' != row && (row' in x.t.claims || Cited(x.t, row))) then None
    else Some(Txn(x.t.(claims := (x.t.claims - {row})[row' := c]), x.events + {ClaimWritten(row')}))
  }

  /** The citation rows the cascade deletes with a claim. */
  function CitationsOf(t: Tables, row: Row): set<Row> {
    set key | key in t.cites && ParentOf(key, t.cites[key]) == row
  }

  function ExecDeleteClaim(x: Txn, row: Row): Option<Txn> {
    if row !in x.t.claims then Some(x)
    else Some(Txn(x.t.(claims := x.t.claims - {row}, cites := x.t.cites - CitationsOf(x.t, row)),
                  x.events + if CitationsOf(x.t, row) == {} then {} else {CitationLeft(row)}))
  }

  function ExecInsertCitation(x: Txn, row: Row, c: Citation): Option<Txn> {
    if row in x.t.cites || !CitationAllowed(x.t, row, c) then None
    else Some(x.(t := x.t.(cites := x.t.cites[row := c])))
  }

  function ExecUpdateCitation(x: Txn, row: Row, newId: Id, c: Citation): Option<Txn> {
    var row' := Row(row.table, newId);
    if row !in x.t.cites then Some(x)
    else if !CitationAllowed(x.t.(cites := x.t.cites - {row}), row', c) || (row' != row && row' in x.t.cites) then None
    else Some(Txn(x.t.(cites := (x.t.cites - {row})[row' := c]),
                  x.events + {CitationLeft(ParentOf(row, x.t.cites[row]))}))
  }

  function ExecDeleteCitation(x: Txn, row: Row): Option<Txn> {
    if row !in x.t.cites then Some(x)
    else Some(Txn(x.t.(cites := x.t.cites - {row}), x.events + {CitationLeft(ParentOf(row, x.t.cites[row]))}))
  }

  /** One statement: the new working state, or None when a constraint or trigger raises. */
  function Exec(x: Txn, s: Statement): Option<Txn> {
    match s
    case PutProject(id, p) => Some(x.(t := x.t.(projects := x.t.projects[id := p])))
    case PutSource(id, source) =>
      if !SourceChecks(source) || UrlTaken(x.t, id, source.url) then None
      else Some(x.(t := x.t.(sources := x.t.sources[id := source])))
    case InsertVersion(id, v) => ExecInsertVersion(x, id, v)
    case UpdateVersion(id, v, namesState) => ExecUpdateVersion(x, id, v, namesState)
    case DeleteVersion(id) => if id in x.t.versions then None else Some(x)
    case InsertClaim(row, c) => ExecInsertClaim(x, row, c)
    case UpdateClaim(row, newId, c) => ExecUpdateClaim(x, row, newId, c)
    case DeleteClaim(row) => ExecDeleteClaim(x, row)
    case InsertCitation(row, c) => ExecInsertCitation(x, row, c)
    case UpdateCitation(row, newId, c) => ExecUpdateCitation(x, row, newId, c)
    case DeleteCitation(row) => ExecDeleteCitation(x, row)
    case InsertChunk(id, c) =>
      if id in x.t.chunks || !ChunkAllowed(x.t, id, c) then None else Some(x.(t := x.t.(chunks := x.t.chunks[id := c])))
    case UpdateChunk(id, c) =>
      if id !in x.t.chunks then Some(x)
      else if !ChunkAllowed(x.t, id, c) then None else Some(x.(t := x.t.(chunks := x.t.chunks[id := c])))
  }

  predicate CommitPasses(x: Txn) {
    forall e :: e in x.events ==> Passes(x.t, e)
  }

  /** A whole transaction: the statements in order, then every deferred event; anything raised undoes it all. */
  function ExecAll(x: Txn, statements: seq<Statement>): Option<Txn>
    decreases |statements|
  {
    if statements == [] then Some(x)
    else match Exec(x, statements[0])
         case None => None
         case Some(x') => ExecAll(x', statements[1..])
  }

  function Transact(t: Tables, statements: seq<Statement>): Tables {
    match ExecAll(Txn(t, {}), statements)
    case Some(x) => if CommitPasses(x) then x.t else t
    case None => t
  }

  lemma OneStatement(x: Txn, s: Statement)
    ensures ExecAll(x, [s]) == Exec(x, s)
  {
    assert [s][1..] == [];
  }

  /** A list of statements may be cut anywhere. */
  lemma {:induction false} ExecAllSplits(x: Txn, a: seq<Statement>, b: seq<Statement>)
    requires ExecAll(x, a).Some?
    ensures ExecAll(x, a + b) == ExecAll(ExecAll(x, a).value, b)
    decreases |a|
  {
    if a == [] {
      assert a + b == b;
    } else {
      assert (a + b)[1..] == a[1..] + b;
      ExecAllSplits(Exec(x, a[0]).value, a[1..], b);
    }
  }

  // ---- Checking only touched rows is enough ----

  /** Every public fact and every public update has a citation to an approved or superseded version. */
  ghost predicate Supported(t: Tables) {
    forall row :: row in t.claims && t.claims[row].public ==> HasSupport(t, row)
  }

  /**
   What the events of an unfinished transaction account for, compared with the state it began in: every
   claim not written since, every citation not changed or deleted since, every review state not moved since.
   */
  ghost predicate Tracked(t0: Tables, x: Txn) {
    ClaimsTracked(t0, x) && CitationsTracked(t0, x) && VersionsTracked(t0, x)
  }

  ghost predicate ClaimsTracked(t0: Tables, x: Txn) {
    forall row :: row in x.t.claims && ClaimWritten(row) !in x.events ==>
                    row in t0.claims && t0.claims[row] == x.t.claims[row]
  }

  ghost predicate CitationsTracked(t0: Tables, x: Txn) {
    forall key :: key in t0.cites && CitationLeft(ParentOf(key, t0.cites[key])) !in x.events ==>
                    key in x.t.cites && x.t.cites[key] == t0.cites[key]
  }

  ghost predicate VersionsTracked(t0: Tables, x: Txn) {
    forall v :: v in t0.versions ==>
                  v in x.t.versions &&
                  (x.t.versions[v].state == t0.versions[v].state || VersionMoved(v, x.t.versions[v].state) in x.events)
  }

  lemma EventsGrow(x: Txn, s: Statement)
    requires Exec(x, s).Some?
    ensures x.events <= Exec(x, s).value.events
  {
  }

  /** One row: a statement that changes or drops it leaves the event that says so. */
  lemma ClaimOrEvent(x: Txn, s: Statement, row: Row)
    requires Exec(x, s).Some? && row in Exec(x, s).value.t.claims && ClaimWritten(row) !in Exec(x, s).value.events
    ensures row in x.t.claims && x.t.claims[row] == Exec(x, s).value.t.claims[row]
  {
  }

  lemma CitationOrEvent(x: Txn, s: Statement, key: Row)
    requires Exec(x, s).Some? && key in x.t.cites
    requires CitationLeft(ParentOf(key, x.t.cites[key])) !in Exec(x, s).value.events
    ensures key in Exec(x, s).value.t.cites && Exec(x, s).value.t.cites[key] == x.t.cites[key]
  {
  }

  lemma VersionOrEvent(x: Txn, s: Statement, v: Id)
    requires Exec(x, s).Some? && v in x.t.versions
    ensures v in Exec(x, s).value.t.versions
    ensures var state := Exec(x, s).value.t.versions[v].state;
            state == x.t.versions[v].state || VersionMoved(v, state) in Exec(x, s).value.events
  {
  }

  lemma ExecTracks(t0: Tables, x: Txn, s: Statement)
    requires Tracked(t0, x) && Exec(x, s).Some?
    ensures Tracked(t0, Exec(x, s).value)
  {
    var y := Exec(x, s).value;
    EventsGrow(x, s);
    forall row | row in y.t.claims && ClaimWritten(row) !in y.events
      ensures row in t0.claims && t0.claims[row] == y.t.claims[row]
    {
      ClaimOrEvent(x, s, row);
    }
    forall key | key in t0.cites && CitationLeft(ParentOf(key, t0.cites[key])) !in y.events
      ensures key in y.t.cites && y.t.cites[key] == t0.cites[key]
    {
      CitationOrEvent(x, s, key);
    }
    forall v | v in t0.versions
      ensures v in y.t.versions
      ensures y.t.versions[v].state == t0.versions[v].state || VersionMoved(v, y.t.versions[v].state) in y.events
    {
      VersionOrEvent(x, s, v);
    }
  }

  lemma {:induction false} ExecAllTracks(t0: Tables, x: Txn, statements: seq<Statement>)
    requires Tracked(t0, x) && ExecAll(x, statements).Some?
    ensures Tracked(t0, ExecAll(x, statements).value)
    decreases |statements|
  {
    if statements != [] {
      ExecTracks(t0, x, statements[0]);
      ExecAllTracks(t0, Exec(x, statements[0]).value, statements[1..]);
    }
  }

  /** The ways a public claim can lose its support each leave an event, and that event refuses the commit. */
  lemma LostSupportIsNoticed(t0: Tables, x: Txn, row: Row)
    requires Tracked(t0, x) && Supported(t0) && CommitPasses(x)
    requires row in x.t.claims && x.t.claims[row].public
    ensures HasSupport(x.t, row)
  {
    if ClaimWritten(row) in x.events {
      assert Passes(x.t, ClaimWritten(row));
    } else {
      assert HasSupport(t0, row);
      var key :| key in t0.cites && Supports(t0, key, row);
      if CitationLeft(row) in x.events {
        assert Passes(x.t, CitationLeft(row));
      } else {
        assert x.t.cites[key] == t0.cites[key];
        var v := t0.cites[key].version;
        var state := x.t.versions[v].state;
        if Citable(state) {
          assert Supports(x.t, key, row);
        } else {
          assert Passes(x.t, VersionMoved(v, state));
        }
      }
    }
  }

  /**
   Whatever a transaction does, in any order and number of statements: if it began with every public
   claim supported, the state it leaves, committed or undone, has every public claim supported.
   */
  lemma TransactionsKeepSupport(t: Tables, statements: seq<Statement>)
    requires Supported(t)
    ensures Supported(Transact(t, statements))
  {
    var r := ExecAll(Txn(t, {}), statements);
    if r.Some? && CommitPasses(r.value) {
      ExecAllTracks(t, Txn(t, {}), statements);
      forall row | row in r.value.t.claims && r.value.t.claims[row].public ensures HasSupport(r.value.t, row) {
        LostSupportIsNoticed(t, r.value, row);
      }
    }
  }

  // ---- What else every state satisfies ----

  ghost predicate VersionsIntact(t: Tables) {
    forall v :: v in t.versions ==> VersionChecks(t.versions[v]) && t.versions[v].source in t.sources
  }

  ghost predicate ClaimsIntact(t: Tables) {
    forall row :: row in t.claims ==> ClaimAllowed(t, row, t.claims[row])
  }

  ghost predicate CitationsIntact(t: Tables) {
    forall key :: key in t.cites ==> CitationAllowed(t, key, t.cites[key])
  }

  ghost predicate ChunksIntact(t: Tables) {
    forall id :: id in t.chunks ==> ChunkMatches(t, t.chunks[id]) && ChunkChecks(t.chunks[id])
  }

  /** Row checks, references and unique keys: none of these needs the events. */
  ghost predicate Intact(t: Tables) {
    VersionsIntact(t) && ClaimsIntact(t) && CitationsIntact(t) && ChunksIntact(t)
  }

  /** Evidence only grows: a version is never removed and its content never changes. */
  ghost predicate Preserves(t: Tables, t': Tables) {
    forall v :: v in t.versions ==> v in t'.versions && SameContent(t'.versions[v], t.versions[v])
  }

  lemma ExecPreserves(x: Txn, s: Statement)
    requires Exec(x, s).Some?
    ensures Preserves(x.t, Exec(x, s).value.t)
    ensures forall id :: id in x.t.sources ==> id in Exec(x, s).value.t.sources
    ensures forall id :: id in x.t.projects ==> id in Exec(x, s).value.t.projects
  {
  }

  /** Quotations keep matching as long as versions keep their content. */
  lemma StillMatches(t: Tables, t': Tables)
    requires Preserves(t, t')
    ensures forall c :: PassageMatches(t, c) ==> PassageMatches(t', c)
    ensures forall c :: ChunkMatches(t, c) ==> ChunkMatches(t', c)
  {
  }

  /** The statements that write claims or citations; the others leave both tables alone. */
  predicate WritesClaims(s: Statement) {
    s.InsertClaim? || s.UpdateClaim? || s.DeleteClaim? || s.InsertCitation? || s.UpdateCitation? || s.DeleteCitation?
  }

  lemma LeavesClaims(x: Txn, s: Statement)
    requires Exec(x, s).Some? && !WritesClaims(s)
    ensures Exec(x, s).value.t.cites == x.t.cites && Exec(x, s).value.t.claims == x.t.claims
  {
  }

  lemma LeavesVersionsAndChunks(x: Txn, s: Statement)
    requires Exec(x, s).Some? && WritesClaims(s)
    ensures Exec(x, s).value.t.versions == x.t.versions && Exec(x, s).value.t.chunks == x.t.chunks
    ensures Exec(x, s).value.t.sources == x.t.sources && Exec(x, s).value.t.projects == x.t.projects
  {
  }

  lemma ExecKeepsClaims(x: Txn, s: Statement, row: Row)
    requires ClaimsIntact(x.t) && Exec(x, s).Some?
    requires row in Exec(x, s).value.t.claims
    ensures ClaimAllowed(Exec(x, s).value.t, row, Exec(x, s).value.t.claims[row])
  {
    ExecPreserves(x, s);
    if !WritesClaims(s) {
      LeavesClaims(x, s);
    } else {
      LeavesVersionsAndChunks(x, s);
    }
  }

  lemma ExecKeepsVersions(x: Txn, s: Statement, v: Id)
    requires VersionsIntact(x.t) && Exec(x, s).Some?
    requires v in Exec(x, s).value.t.versions
    ensures VersionChecks(Exec(x, s).value.t.versions[v])
    ensures Exec(x, s).value.t.versions[v].source in Exec(x, s).value.t.sources
  {
    ExecPreserves(x, s);
    if WritesClaims(s) {
      LeavesVersionsAndChunks(x, s);
    }
  }

  lemma ExecKeepsChunks(x: Txn, s: Statement, id: Id)
    requires ChunksIntact(x.t) && Exec(x, s).Some?
    requires id in Exec(x, s).value.t.chunks
    ensures ChunkMatches(Exec(x, s).value.t, Exec(x, s).value.t.chunks[id])
    ensures ChunkChecks(Exec(x, s).value.t.chunks[id])
  {
    ExecPreserves(x, s);
    StillMatches(x.t, Exec(x, s).value.t);
    if WritesClaims(s) {
      LeavesVersionsAndChunks(x, s);
    }
  }

  ghost predicate PartOf(cites: map<Row, Citation>, of: map<Row, Citation>) {
    forall key :: key in cites ==> key in of && cites[key] == of[key]
  }

  /** Dropping citations, and nothing those left depend on, keeps them allowed. */
  lemma FewerCitations(t: Tables, t': Tables, key: Row)
    requires CitationsIntact(t) && Preserves(t, t') && PartOf(t'.cites, t.cites)
    requires key in t'.cites && ParentOf(key, t'.cites[key]) in t'.claims
    ensures CitationAllowed(t', key, t'.cites[key])
  {
    assert CitationAllowed(t, key, t.cites[key]);
    forall other | other in t'.cites && other != key ensures !Clash(key, t'.cites[key], other, t'.cites[other]) {
      assert !Clash(key, t.cites[key], other, t.cites[other]);
    }
  }

  /** Writing one allowed citation beside others that were allowed keeps all of them allowed. */
  lemma OneMoreCitation(t: Tables, rest: map<Row, Citation>, row: Row, c: Citation, key: Row)
    requires CitationsIntact(t) && PartOf(rest, t.cites) && row !in rest
    requires CitationAllowed(t.(cites := rest), row, c)
    requires key in rest[row := c]
    ensures CitationAllowed(t.(cites := rest[row := c]), key, rest[row := c][key])
  {
    var cites := rest[row := c];
    if key != row {
      assert CitationAllowed(t, key, t.cites[key]);
      assert !Clash(row, c, key, rest[key]);
    }
    forall other | other in cites && other != key ensures !Clash(key, cites[key], other, cites[other]) {
      if other != row && key != row {
        assert !Clash(key, t.cites[key], other, t.cites[other]);
      }
    }
  }

  /** No claim that is still cited moves to another id, and a deleted one takes its citations with it. */
  lemma UpdatedClaimKeepsCitations(x: Txn, row: Row, newId: Id, c: Claim, key: Row)
    requires CitationsIntact(x.t) && ExecUpdateClaim(x, row, newId, c).Some?
    requires key in x.t.cites
    ensures var t' := ExecUpdateClaim(x, row, newId, c).value.t; CitationAllowed(t', key, t'.cites[key])
  {
    assert CitationAllowed(x.t, key, x.t.cites[key]);
    FewerCitations(x.t, ExecUpdateClaim(x, row, newId, c).value.t, key);
  }

  lemma DeletedClaimKeepsCitations(x: Txn, row: Row, key: Row)
    requires CitationsIntact(x.t) && key in ExecDeleteClaim(x, row).value.t.cites
    ensures var t' := ExecDeleteClaim(x, row).value.t; CitationAllowed(t', key, t'.cites[key])
  {
    assert CitationAllowed(x.t, key, x.t.cites[key]);
    FewerCitations(x.t, ExecDeleteClaim(x, row).value.t, key);
  }

  lemma InsertedClaimKeepsCitations(x: Txn, row: Row, c: Claim, key: Row)
    requires CitationsIntact(x.t) && ExecInsertClaim(x, row, c).Some? && key in x.t.cites
    ensures var t' := ExecInsertClaim(x, row, c).value.t; CitationAllowed(t', key, t'.cites[key])
  {
    assert CitationAllowed(x.t, key, x.t.cites[key]);
    FewerCitations(x.t, ExecInsertClaim(x, row, c).value.t, key);
  }

  lemma DeletedCitationKeepsOthers(x: Txn, row: Row, key: Row)
    requires CitationsIntact(x.t) && key in ExecDeleteCitation(x, row).value.t.cites
    ensures var t' := ExecDeleteCitation(x, row).value.t; CitationAllowed(t', key, t'.cites[key])
  {
    assert CitationAllowed(x.t, key, x.t.cites[key]);
    FewerCitations(x.t, ExecDeleteCitation(x, row).value.t, key);
  }

  lemma InsertedCitationKeepsAll(x: Txn, row: Row, c: Citation, key: Row)
    requires CitationsIntact(x.t) && ExecInsertCitation(x, row, c).Some?
    requires key in ExecInsertCitation(x, row, c).value.t.cites
    ensures var t' := ExecInsertCitation(x, row, c).value.t; CitationAllowed(t', key, t'.cites[key])
  {
    OneMoreCitation(x.t, x.t.cites, row, c, key);
  }

  lemma UpdatedCitationKeepsAll(x: Txn, row: Row, newId: Id, c: Citation, key: Row)
    requires CitationsIntact(x.t) && ExecUpdateCitation(x, row, newId, c).Some?
    requires key in ExecUpdateCitation(x, row, newId, c).value.t.cites
    ensures var t' := ExecUpdateCitation(x, row, newId, c).value.t; CitationAllowed(t', key, t'.cites[key])
  {
    if row in x.t.cites {
      OneMoreCitation(x.t, x.t.cites - {row}, Row(row.table, newId), c, key);
    }
  }

  lemma OtherStatementKeepsCitations(x: Txn, s: Statement, key: Row)
    requires CitationsIntact(x.t) && Exec(x, s).Some? && !WritesClaims(s) && key in x.t.cites
    ensures var t' := Exec(x, s).value.t; key in t'.cites && CitationAllowed(t', key, t'.cites[key])
  {
    LeavesClaims(x, s);
    ExecPreserves(x, s);
    assert CitationAllowed(x.t, key, x.t.cites[key]);
    FewerCitations(x.t, Exec(x, s).value.t, key);
  }

  lemma ExecKeepsCitations(x: Txn, s: Statement, key: Row)
    requires CitationsIntact(x.t) && Exec(x, s).Some?
    requires key in Exec(x, s).value.t.cites
    ensures CitationAllowed(Exec(x, s).value.t, key, Exec(x, s).value.t.cites[key])
  {
    match s {
      case InsertCitation(row, c) => InsertedCitationKeepsAll(x, row, c, key);
      case UpdateCitation(row, newId, c) => UpdatedCitationKeepsAll(x, row, newId, c, key);
      case InsertClaim(row, c) => InsertedClaimKeepsCitations(x, row, c, key);
      case UpdateClaim(row, newId, c) => UpdatedClaimKeepsCitations(x, row, newId, c, key);
      case DeleteClaim(row) => DeletedClaimKeepsCitations(x, row, key);
      case DeleteCitation(row) => DeletedCitationKeepsOthers(x, row, key);
      case _ =>
        LeavesClaims(x, s);
        OtherStatementKeepsCitations(x, s, key);
    }
  }

  lemma ExecKeepsIntact(x: Txn, s: Statement)
    requires Intact(x.t) && Exec(x, s).Some?
    ensures Intact(Exec(x, s).value.t)
  {
    var t' := Exec(x, s).value.t;
    forall v | v in t'.versions ensures VersionChecks(t'.versions[v]) && t'.versions[v].source in t'.sources {
      ExecKeepsVersions(x, s, v);
    }
    forall row | row in t'.claims ensures ClaimAllowed(t', row, t'.claims[row]) {
      ExecKeepsClaims(x, s, row);
    }
    forall key | key in t'.cites ensures CitationAllowed(t', key, t'.cites[key]) {
      ExecKeepsCitations(x, s, key);
    }
    forall id | id in t'.chunks ensures ChunkMatches(t', t'.chunks[id]) && ChunkChecks(t'.chunks[id]) {
      ExecKeepsChunks(x, s, id);
    }
  }

  lemma {:induction false} ExecAllKeepsIntact(x: Txn, statements: seq<Statement>)
    requires Intact(x.t) && ExecAll(x, statements).Some?
    ensures Intact(ExecAll(x, statements).value.t) && Preserves(x.t, ExecAll(x, statements).value.t)
    decreases |statements|
  {
    if statements != [] {
      ExecKeepsIntact(x, statements[0]);
      ExecPreserves(x, statements[0]);
      ExecAllKeepsIntact(Exec(x, statements[0]).value, statements[1..]);
    }
  }

  lemma {:induction false} ReferencesStay(x: Txn, statements: seq<Statement>)
    requires ExecAll(x, statements).Some?
    ensures var t := ExecAll(x, statements).value.t;
            x.t.projects.Keys <= t.projects.Keys && x.t.sources.Keys <= t.sources.Keys
    decreases |statements|
  {
    if statements != [] {
      ExecPreserves(x, statements[0]);
      ReferencesStay(Exec(x, statements[0]).value, statements[1..]);
    }
  }

  // ---- Every run of transactions ----

  ghost predicate Good(t: Tables) {
    Intact(t) && Supported(t)
  }

  /** The tables after any number of transactions, one after the other. */
  function Serial(t: Tables, transactions: seq<seq<Statement>>): Tables
    decreases |transactions|
  {
    if transactions == [] then t else Serial(Transact(t, transactions[0]), transactions[1..])
  }

  lemma {:induction false} EveryStateIsGood(t: Tables, transactions: seq<seq<Statement>>)
    requires Good(t)
    ensures Good(Serial(t, transactions)) && Preserves(t, Serial(t, transactions))
    decreases |transactions|
  {
    if transactions != [] {
      var statements := transactions[0];
      TransactionsKeepSupport(t, statements);
      if ExecAll(Txn(t, {}), statements).Some? {
        ExecAllKeepsIntact(Txn(t, {}), statements);
      }
      EveryStateIsGood(Transact(t, statements), transactions[1..]);
    }
  }

  /**
   The local checks are exactly the global one: a transaction's events pass if and only if nothing public is
   unsupported.
   */
  lemma CommitIffSupported(t: Tables, statements: seq<Statement>)
    requires Supported(t) && ExecAll(Txn(t, {}), statements).Some?
    ensures var x := ExecAll(Txn(t, {}), statements).value; CommitPasses(x) <==> Supported(x.t)
  {
    var x := ExecAll(Txn(t, {}), statements).value;
    if CommitPasses(x) {
      TransactionsKeepSupport(t, statements);
    } else {
      var e :| e in x.events && !Passes(x.t, e);
      match e {
        case ClaimWritten(row) => assert PublicUnsupported(x.t, row);
        case CitationLeft(row) => assert PublicUnsupported(x.t, row);
        case VersionMoved(id, _) =>
          var key :| key in x.t.cites && x.t.cites[key].version == id
              && PublicUnsupported(x.t, ParentOf(key, x.t.cites[key]));
      }
    }
  }

  /** In every state, whoever can see a public fact or update can also see a citation for it. */
  lemma PublicClaimsAreCited(t: Tables, transactions: seq<seq<Statement>>, row: Row)
    requires Good(t) && PublicClaim(Serial(t, transactions), row)
    ensures exists key :: PublicCitation(Serial(t, transactions), key, row)
  {
    EveryStateIsGood(t, transactions);
    var t' := Serial(t, transactions);
    assert HasSupport(t', row);
    var key :| key in t'.cites && Supports(t', key, row);
    assert PublicCitation(t', key, row);
  }

  lemma SubstrIsASlice(text: string, start: int, passage: string)
    requires start >= 0 && |passage| >= 1 && Substr(text, start, |passage|) == passage
    ensures start + |passage| <= |text| && text[start..start + |passage|] == passage
  {
  }

  /** A quotation is, character for character, what its version has held at that offset since it was stored. */
  lemma QuotationsAreExact(t: Tables, transactions: seq<seq<Statement>>, key: Row)
    requires Good(t) && key in Serial(t, transactions).cites
    ensures var t' := Serial(t, transactions);
            var c := t'.cites[key];
            && c.version in t'.versions
            && (var text := t'.versions[c.version].text;
                0 <= c.start && c.start + |c.passage| <= |text| && text[c.start..c.start + |c.passage|] == c.passage)
            && (c.version in t.versions ==> t.versions[c.version].text == t'.versions[c.version].text)
  {
    EveryStateIsGood(t, transactions);
    var t' := Serial(t, transactions);
    var c := t'.cites[key];
    assert CitationAllowed(t', key, c);
    SubstrIsASlice(t'.versions[c.version].text, c.start, c.passage);
  }

  /**
   A chunk is visible exactly when it is active and its document is approved, so the view's own joins
   add nothing and a stale active flag exposes nothing; and what is visible is an exact slice of a version
   that some public claim cites.
   */
  lemma ChunkIsVisibleIff(t: Tables, transactions: seq<seq<Statement>>, id: Id)
    requires Good(t)
    ensures var t' := Serial(t, transactions);
            && (PublicChunk(t', id) <==>
                  id in t'.chunks && t'.chunks[id].active
                  && ApprovedDocument(t', t'.chunks[id].project, t'.chunks[id].source, t'.chunks[id].version,
                                      t'.chunks[id].language))
            && (PublicChunk(t', id) ==>
                  var c := t'.chunks[id];
                  var text := t'.versions[c.version].text;
                  && 0 <= c.start < c.end <= |text| && text[c.start..c.end] == c.text
                  && exists key :: key in t'.cites && CitesPublicly(t', key, c.project, c.version))
  {
    EveryStateIsGood(t, transactions);
    var t' := Serial(t, transactions);
    if PublicChunk(t', id) {
      var c := t'.chunks[id];
      assert ChunkMatches(t', c) && ChunkChecks(c);
      SubstrIsASlice(t'.versions[c.version].text, c.start, c.text);
    }
  }

  // ---- The database as an object ----

  /** The working tables of the open transaction, what it must still check, and what an abort returns to. */
  class Database {
    var committed: Tables
    var projects: map<Id, Project>
    var sources: map<Id, Source>
    var versions: map<Id, Version>
    var claims: map<Row, Claim>
    var cites: map<Row, Citation>
    var chunks: map<Id, Chunk>
    var events: set<Event>

    function Work(): Txn
      reads this
    {
      Txn(Tables(projects, sources, versions, claims, cites, chunks), events)
    }

    predicate Fresh()
      reads this
    {
      Work() == Txn(committed, {})
    }

    constructor (t: Tables)
      ensures committed == t && Fresh()
    {
      committed := t;
      projects, sources, versions := t.projects, t.sources, t.versions;
      claims, cites, chunks := t.claims, t.cites, t.chunks;
      events := {};
    }

    method RollBack()
      modifies this
      ensures committed == old(committed) && Fresh()
    {
      projects, sources, versions := committed.projects, committed.sources, committed.versions;
      claims, cites, chunks := committed.claims, committed.cites, committed.chunks;
      events := {};
    }

    method Review(id: Id, version: Version, namesState: bool) returns (ok: bool)
      modifies this
      ensures committed == old(committed)
      ensures Settled(ok, ExecUpdateVersion(old(Work()), id, version, namesState), old(Work()))
    {
      if id !in versions {
        return true;
      }
      var was := versions[id];
      var v := if namesState then version else version.(state := was.state);
      if !SameContent(v, was) || !MayBecome(was.state, v.state) || !VersionChecks(v) {
        return false;
      }
      versions := versions[id := v];
      if namesState {
        events := events + {VersionMoved(id, v.state)};
      }
      ok := true;
    }

    /** Deletes a claim and then, one row at a time, the citations that hang on it. */
    method RemoveClaim(row: Row)
      modifies this
      ensures committed == old(committed)
      ensures Some(Work()) == ExecDeleteClaim(old(Work()), row)
    {
      if row !in claims {
        return;
      }
      claims := claims - {row};
      ghost var all := CitationsOf(old(Work()).t, row);
      var left := set key | key in cites && ParentOf(key, cites[key]) == row;
      assert left == all;
      while left != {}
        invariant left <= all
        invariant cites == old(cites) - (all - left)
        invariant events == old(events) + if left == all then {} else {CitationLeft(row)}
        invariant claims == old(claims) - {row}
        invariant committed == old(committed) && projects == old(projects) && sources == old(sources)
        invariant versions == old(versions) && chunks == old(chunks)
        decreases left
      {
        var key :| key in left;
        cites := cites - {key};
        events := events + {CitationLeft(row)};
        left := left - {key};
        assert all - left == (all - (left + {key})) + {key};
      }
      assert all - left == all;
    }

    predicate Settled(ok: bool, result: Option<Txn>, was: Txn)
      reads this
    {
      if result.Some? then ok && Work() == result.value else !ok && Work() == was
    }

    method WriteCitation(row: Row, c: Citation) returns (ok: bool)
      modifies this
      ensures committed == old(committed)
      ensures Settled(ok, ExecInsertCitation(old(Work()), row, c), old(Work()))
    {
      ok := row !in cites && CitationAllowed(Work().t, row, c);
      if ok {
        cites := cites[row := c];
      }
    }

    method ChangeCitation(row: Row, newId: Id, c: Citation) returns (ok: bool)
      modifies this
      ensures committed == old(committed)
      ensures Settled(ok, ExecUpdateCitation(old(Work()), row, newId, c), old(Work()))
    {
      if row !in cites {
        return true;
      }
      var row' := Row(row.table, newId);
      var was := cites[row];
      var others := cites - {row};
      ok := CitationAllowed(Work().t.(cites := others), row', c) && (row' == row || row' !in cites);
      if ok {
        cites := others[row' := c];
        events := events + {CitationLeft(ParentOf(row, was))};
      }
    }

    method RemoveCitation(row: Row)
      modifies this
      ensures committed == old(committed)
      ensures Some(Work()) == ExecDeleteCitation(old(Work()), row)
    {
      if row in cites {
        events := events + {CitationLeft(ParentOf(row, cites[row]))};
        cites := cites - {row};
      }
    }

    method AddClaim(row: Row, c: Claim) returns (ok: bool)
      modifies this
      ensures committed == old(committed)
      ensures Settled(ok, ExecInsertClaim(old(Work()), row, c), old(Work()))
    {
      ok := row !in claims && ClaimChecks(row.table, c) && c.project in projects;
      if ok {
        claims := claims[row := c];
        events := events + {ClaimWritten(row)};
      }
    }

    method ChangeClaim(row: Row, newId: Id, c: Claim) returns (ok: bool)
      modifies this
      ensures committed == old(committed)
      ensures Settled(ok, ExecUpdateClaim(old(Work()), row, newId, c), old(Work()))
    {
      if row !in claims {
        return true;
      }
      var row' := Row(row.table, newId);
      ok := ClaimChecks(row'.table, c) && c.project in projects;
      if row' != row && (row' in claims || Cited(Work().t, row)) {
        ok := false;
      }
      if ok {
        claims := (claims - {row})[row' := c];
        events := events + {ClaimWritten(row')};
      }
    }

    method AddVersion(id: Id, v: Version) returns (ok: bool)
      modifies this
      ensures committed == old(committed)
      ensures Settled(ok, ExecInsertVersion(old(Work()), id, v), old(Work()))
    {
      ok := id !in versions && VersionChecks(v) && v.source in sources && !VersionTaken(Work().t, v.source, v.digest);
      if ok {
        versions := versions[id := v];
      }
    }

    method WriteChunk(id: Id, c: Chunk) returns (ok: bool)
      modifies this
      ensures committed == old(committed)
      ensures ok == ChunkAllowed(old(Work()).t, id, c)
      ensures Work() == if ok then old(Work()).(t := old(Work()).t.(chunks := old(chunks)[id := c])) else old(Work())
    {
      ok := ChunkAllowed(Work().t, id, c);
      if ok {
        chunks := chunks[id := c];
      }
    }

    method ExecuteOnClaims(s: Statement) returns (ok: bool)
      requires WritesClaims(s)
      modifies this
      ensures committed == old(committed)
      ensures Settled(ok, Exec(old(Work()), s), old(Work()))
    {
      ok := true;
      match s {
        case InsertClaim(row, c) => ok := AddClaim(row, c);
        case UpdateClaim(row, newId, c) => ok := ChangeClaim(row, newId, c);
        case DeleteClaim(row) => RemoveClaim(row);
        case InsertCitation(row, c) => ok := WriteCitation(row, c);
        case UpdateCitation(row, newId, c) => ok := ChangeCitation(row, newId, c);
        case DeleteCitation(row) => RemoveCitation(row);
      }
    }

    method ExecuteOnSources(s: Statement) returns (ok: bool)
      requires !WritesClaims(s)
      modifies this
      ensures committed == old(committed)
      ensures Settled(ok, Exec(old(Work()), s), old(Work()))
    {
      ok := true;
      match s {
        case PutProject(id, p) => projects := projects[id := p];
        case PutSource(id, source) =>
          ok := SourceChecks(source) && !UrlTaken(Work().t, id, source.url);
          if ok {
            sources := sources[id := source];
          }
        case InsertVersion(id, v) => ok := AddVersion(id, v);
        case UpdateVersion(id, v, namesState) => ok := Review(id, v, namesState);
        case DeleteVersion(id) => ok := id !in versions;
        case InsertChunk(id, c) =>
          if id in chunks {
            ok := false;
          } else {
            ok := WriteChunk(id, c);
          }
        case UpdateChunk(id, c) =>
          if id in chunks {
            ok := WriteChunk(id, c);
          }
      }
    }

    /** One statement; when it raises, the whole transaction is undone. */
    method Execute(s: Statement) returns (ok: bool)
      modifies this
      ensures committed == old(committed)
      ensures match Exec(old(Work()), s)
              case Some(x) => ok && Work() == x
              case None => !ok && Fresh()
    {
      if WritesClaims(s) {
        ok := ExecuteOnClaims(s);
      } else {
        ok := ExecuteOnSources(s);
      }
      if !ok {
        RollBack();
      }
    }

    /** Fires the deferred events one by one; the first that raises undoes the transaction. */
    method Commit() returns (ok: bool)
      modifies this
      ensures ok == CommitPasses(old(Work()))
      ensures committed == (if ok then old(Work()).t else old(committed)) && Fresh()
    {
      var t := Work().t;
      var left := events;
      while left != {}
        invariant left <= events
        invariant forall e :: e in events - left ==> Passes(t, e)
        invariant Work() == old(Work()) && committed == old(committed)
        decreases left
      {
        var e :| e in left;
        if !Passes(t, e) {
          RollBack();
          return false;
        }
        left := left - {e};
      }
      committed := t;
      events := {};
      ok := true;
    }

    /** A transaction from beginning to end leaves exactly what `Transact` says. */
    method Run(statements: seq<Statement>) returns (ok: bool)
      requires Fresh()
      modifies this
      ensures committed == Transact(old(committed), statements) && Fresh()
    {
      var i := 0;
      while i < |statements|
        invariant 0 <= i <= |statements|
        invariant committed == old(committed)
        invariant ExecAll(Txn(committed, {}), statements) == ExecAll(Work(), statements[i..])
      {
        ok := Execute(statements[i]);
        if !ok {
          return;
        }
        i := i + 1;
      }
      ok := Commit();
    }
  }
}