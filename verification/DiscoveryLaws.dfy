/**
 What the steps on discovered sources come to, said in terms of the tables alone: when an attach goes through and
 what it writes, which decisions are taken, what goes in, and what the public role reads.
 */
module DiscoveryLaws {
  import opened Wrappers
  import E = Evidence
  import Laws = EvidenceLaws
  import Updates = EvidenceUpdates
  import opened Discovery
  import opened DiscoveryRuns

  // ---- Attaching ----

  /** The source with the discovered address, or, where there is none, the one about to be written. */
  predicate IsHome(t: E.Tables, d: Discovered, p: Request, s: Id) {
    || (s in t.sources && t.sources[s].url == d.url)
    || (s == p.sourceId && forall k :: k in t.sources ==> t.sources[k].url != d.url)
  }

  predicate Held(t: E.Tables, s: Id, text: string) {
    exists v :: v in t.versions && t.versions[v].source == s && t.versions[v].text == text
  }

  predicate IsNew(t: E.Tables, url: string) {
    forall k :: k in t.sources ==> t.sources[k].url != url
  }

  /** What an attach needs, when `s` is the home of what is attached. */
  predicate MayAttach(db: Db, p: Request, s: Id) {
    && p.id in db.discovered
    && var d, t := db.discovered[p.id], db.ev.t;
    && (d.disposition == NotReviewed || d.disposition == Deferred)
    && p.reason.Some? && p.key.Some? && p.key.value in db.keys && p.actor in db.reviewers && p.auditId !in db.audit
    && (IsNew(t, d.url) ==> p.sourceId !in t.sources && d.domain != "" && d.title != Some(""))
    && (!Held(t, s, d.excerpt) ==> p.versionId !in t.versions)
  }

  function TitleOf(d: Discovered): string {
    match d.title
    case Some(title) => title
    case None => d.domain
  }

  /** Three of the kinds a worker suggests are kept; only a government publication is an official source. */
  function SourceOf(d: Discovered): E.Source {
    var title := TitleOf(d);
    match d.preliminaryType
    case "government_publication" => E.Source(d.url, title, d.domain, "government_publication", "official_source", true)
    case "civic_research" => E.Source(d.url, title, d.domain, "civic_research", "independent_source", true)
    case _ => E.Source(d.url, title, d.domain, "other_public_source", "independent_source", true)
  }

  function EvidenceWith(t: E.Tables, d: Discovered, p: Request, s: Id): E.Tables {
    var pending := E.Version(
      s, E.Digest(d.excerpt), d.excerpt, "text/plain", d.lastRetrievedAt, p.now, "en", E.Pending, None);
    t.(sources := if IsNew(t, d.url) then t.sources[s := SourceOf(d)] else t.sources,
       versions := if Held(t, s, d.excerpt) then t.versions else t.versions[p.versionId := pending])
  }

  /** The database with the source attached. */
  function WithAttached(db: Db, p: Request, s: Id): Db
    requires p.id in db.discovered
  {
    var d := db.discovered[p.id];
    var decided := Discovered(
      d.scope, d.project, d.report, d.url, d.domain, d.title, d.preliminaryType, d.excerpt, d.duplicateOf,
      d.injectionFlag, d.lastRetrievedAt, d.shown, Attached, Some(s), Some(p.actor), Some(p.now), p.reason, p.key);
    Db(E.Txn(EvidenceWith(db.ev.t, d, p, s), db.ev.events), db.discovered[p.id := decided], db.runs, db.sightings,
       db.audit[p.auditId := AuditEntry(p.now, p.actor, p.id, s, E.Pending)], db.reviewers, db.keys)
  }

  lemma HomeIs(t: E.Tables, d: Discovered, p: Request, s: Id)
    requires UrlsDiffer(t) && IsHome(t, d, p, s)
    ensures Home(t, d, p) == s && (UrlKnown(t, d.url) <==> !IsNew(t, d.url))
  {
    if UrlKnown(t, d.url) {
      var k :| HasUrl(t, k, d.url);
    }
    if !IsNew(t, d.url) {
      var k :| k in t.sources && t.sources[k].url == d.url;
      assert HasUrl(t, k, d.url);
    }
    if s in t.sources && t.sources[s].url == d.url {
      assert HasUrl(t, s, d.url);
    }
  }

  lemma HeldIsTaken(t: E.Tables, sources: map<Id, E.Source>, s: Id, text: string)
    requires E.VersionsIntact(t)
    ensures E.VersionTaken(t.(sources := sources), s, E.Digest(text)) <==> Held(t, s, text)
  {
    forall v | v in t.versions ensures t.versions[v].digest == E.Digest(t.versions[v].text) {
      assert E.VersionChecks(t.versions[v]);
    }
  }

  lemma SourceIs(d: Discovered)
    ensures NewSource(d) == SourceOf(d)
  {
  }

  lemma WrittenEvidence(t: E.Tables, d: Discovered, p: Request, s: Id)
    requires E.VersionsIntact(t) && UrlsDiffer(t) && IsHome(t, d, p, s)
    ensures WithVersion(t, d, p) == EvidenceWith(t, d, p, s)
    ensures E.VersionTaken(WithSource(t, d, p), s, E.Digest(d.excerpt)) <==> Held(t, s, d.excerpt)
  {
    HomeIs(t, d, p, s);
    SourceIs(d);
    HeldIsTaken(t, WithSource(t, d, p).sources, s, d.excerpt);
    assert WithSource(t, d, p) == t.(sources := WithSource(t, d, p).sources);
  }

  lemma DoneIffMayAttach(db: Db, p: Request, s: Id)
    requires Sound(db) && (p.id in db.discovered ==> IsHome(db.ev.t, db.discovered[p.id], p, s))
    ensures AttachOutcome(db, p) == Done <==> MayAttach(db, p, s)
  {
    if p.id in db.discovered {
      var d := db.discovered[p.id];
      HomeIs(db.ev.t, d, p, s);
      WrittenEvidence(db.ev.t, d, p, s);
      assert DiscoveredChecks(d);
      NewSourceIsAllowed(d);
    }
  }

  lemma AfterIsWithAttached(db: Db, p: Request, s: Id)
    requires Sound(db) && p.id in db.discovered && IsHome(db.ev.t, db.discovered[p.id], p, s)
    ensures AfterAttach(db, p) == WithAttached(db, p, s)
  {
    var d := db.discovered[p.id];
    HomeIs(db.ev.t, d, p, s);
    WrittenEvidence(db.ev.t, d, p, s);
  }

  lemma OneStep(db: Db, s: Step)
    requires db.ev.events == {}
    ensures Transact(db, [s])
            == if Exec(db, s).Some? && E.CommitPasses(Exec(db, s).value.ev)
               then Exec(db, s).value.(ev := E.Txn(Exec(db, s).value.ev.t, {})) else db
  {
    assert [s][1..] == [];
    if Exec(db, s).Some? {
      assert ExecAll(Exec(db, s).value, [s][1..]) == Some(Exec(db, s).value);
    }
  }

  /**
   An attach goes through if and only if the row is there and not reviewed or deferred, the decision has its reason,
   key, reviewer and a free audit id, and what must be written can be. Then it writes exactly this: the source where
   none has the address, a pending version where the source has not the text, the decision and one entry.
   */
  lemma AttachesIff(db: Db, p: Request, s: Id)
    requires Good(db) && (p.id in db.discovered ==> IsHome(db.ev.t, db.discovered[p.id], p, s))
    ensures Transact(db, [Attach(p)]) == if MayAttach(db, p, s) then WithAttached(db, p, s) else db
  {
    OneStep(db, Attach(p));
    DoneIffMayAttach(db, p, s);
    if MayAttach(db, p, s) {
      AfterIsWithAttached(db, p, s);
    }
  }

  /** The two refusals: no such row, and a row already attached or rejected. */
  lemma AttachRefusals(db: Db, p: Request)
    ensures AttachOutcome(db, p) == NotFound <==> p.id !in db.discovered
    ensures AttachOutcome(db, p) == NotAllowed
            <==> p.id in db.discovered
                 && (db.discovered[p.id].disposition == Attached || db.discovered[p.id].disposition == Rejected)
  {
  }

  // ---- The other steps ----

  lemma QuietStep(db: Db, s: Step)
    requires db.ev.events == {} && (Exec(db, s).Some? ==> Exec(db, s).value.ev == db.ev)
    ensures Transact(db, [s]) == if Exec(db, s).Some? then Exec(db, s).value else db
  {
    OneStep(db, s);
    if Exec(db, s).Some? {
      assert E.Txn(db.ev.t, {}) == db.ev;
    }
  }

  predicate IsDecision(was: Disposition, next: Disposition) {
    (was, next) in {
      (NotReviewed, NotReviewed), (NotReviewed, Attached), (NotReviewed, Rejected), (NotReviewed, Deferred),
      (Attached, Attached), (Attached, Deferred), (Rejected, Rejected), (Rejected, Deferred),
      (Deferred, Deferred), (Deferred, Attached), (Deferred, Rejected)}
  }

  predicate DecisionFits(db: Db, d: Discovered, s: Step)
    requires s.Decide?
  {
    && IsDecision(d.disposition, s.disposition)
    && (s.reviewer.Some? ==> s.reviewer.value in db.reviewers) && (s.key.Some? ==> s.key.value in db.keys)
    && (if s.disposition == NotReviewed then s.at.None? && s.reason.None?
        else s.at.Some? && s.reason.Some? && s.key.Some?)
    && (s.disposition == Attached ==> d.attachedSource.Some?)
  }

  /** A decision is taken if and only if it is one of the eleven, carries what it must, and names only what is known. */
  lemma DecidesIff(db: Db, s: Step)
    requires Good(db) && s.Decide? && s.id in db.discovered
    ensures var d := db.discovered[s.id];
            Transact(db, [s])
            == if DecisionFits(db, d, s)
               then db.(discovered := db.discovered[s.id := d.(disposition := s.disposition, decidedBy := s.reviewer,
                                                               decidedAt := s.at, reason := s.reason, key := s.key)])
               else db
  {
    QuietStep(db, s);
    var d := db.discovered[s.id];
    assert DiscoveredChecks(d);
    assert MayDecide(d.disposition, s.disposition) <==> IsDecision(d.disposition, s.disposition);
  }

  predicate SameFind(d: Discovered, e: Discovered) {
    && d.scope == e.scope && d.url == e.url
    && (match (d.report, e.report)
        case (Some(a), Some(b)) => a == b
        case (Some(a), None) => a == e.project
        case (None, Some(b)) => d.project == b
        case (None, None) => d.project == e.project)
  }

  /** A find goes in if and only if it is new for its project or report, in bounds, and refers to what is there. */
  lemma DiscoveredGoesInIff(db: Db, id: Id, d: Discovered)
    requires Good(db) && d.disposition == NotReviewed && d.attachedSource == None
    ensures Transact(db, [Discover(id, d)])
            == if && id !in db.discovered && d.project in db.ev.t.projects
                  && (d.duplicateOf.Some? ==> d.duplicateOf.value in db.discovered)
                  && (forall k :: k in db.discovered ==> !SameFind(db.discovered[k], d))
                  && Updates.WebAddress(d.url) && 1 <= |d.excerpt| <= 1200
                  && (d.scope == PublicScope <==> d.report == None) && d.decidedAt == None && d.reason == None
               then db.(discovered := db.discovered[id := d]) else db
  {
    QuietStep(db, Discover(id, d));
    Updates.UrlIff(d.url);
    assert AlreadyFound(db, d) <==> exists k :: k in db.discovered && SameFind(db.discovered[k], d);
  }

  // ---- What the public role reads ----

  lemma ClaimIsShownIff(t: E.Tables, row: E.Row)
    ensures row in ShownClaims(t)
            <==> row in t.claims && t.claims[row].public
                 && t.claims[row].project in t.projects && t.projects[t.claims[row].project].public
    ensures row in ShownClaims(t) ==> ShownClaims(t)[row] == (t.claims[row], t.projects[t.claims[row].project])
  {
  }

  /** A citation is shown if and only if it backs a public claim. */
  lemma CitationIsShownIff(t: E.Tables, key: E.Row)
    requires E.Good(t)
    ensures key in ShownCitations(t)
            <==> key in t.cites
                 && var row := E.Row(key.table, t.cites[key].parent);
                 row in t.claims && t.claims[row].public && Laws.Backs(t, key, row)
    ensures key in ShownCitations(t) ==>
              var c := t.cites[key];
              && c.version in t.versions && t.versions[c.version].source in t.sources
              && var v := t.versions[c.version];
              ShownCitations(t)[key] == (c, t.sources[v.source], v.retrievedAt)
  {
    if key in t.cites && t.cites[key].version in t.versions {
      assert E.VersionChecks(t.versions[t.cites[key].version]);
    }
  }

  /** A source is shown if and only if a citation that backs a public claim is of one of its versions. */
  lemma SourceIsShownIff(t: E.Tables, s: Id)
    requires E.Good(t)
    ensures s in CitedSources(t)
            <==> s in t.sources && exists key :: key in t.cites && ShowsSource(t, key, s)
    ensures s in CitedSources(t) ==> CitedSources(t)[s] == t.sources[s]
  {
    forall key | key in t.cites
      ensures ShowsSource(t, key, s) <==> CitationShown(t, key) && t.versions[t.cites[key].version].source == s
    {
      CitationIsShownIff(t, key);
    }
  }

  predicate ShowsSource(t: E.Tables, key: E.Row, s: Id)
    requires key in t.cites
  {
    var row := E.Row(key.table, t.cites[key].parent);
    && row in t.claims && t.claims[row].public && Laws.Backs(t, key, row)
    && t.versions[t.cites[key].version].source == s
  }

  lemma RunIsShownIff(db: Db, id: Id)
    ensures id in ShownRuns(db)
            <==> id in db.runs && db.runs[id].scope == PublicScope && db.runs[id].project in db.ev.t.projects
                 && db.ev.t.projects[db.runs[id].project].public
    ensures id in ShownRuns(db) ==> ShownRuns(db)[id] == (db.runs[id], db.ev.t.projects[db.runs[id].project])
  {
  }

  /** A find of a run is shown unless it or the run is a report's, or it is a duplicate, flagged or rejected. */
  lemma FindIsShownIff(db: Db, id: Id)
    ensures id in ShownRunSources(db)
            <==> id in db.sightings
                 && var g := db.sightings[id];
                 && g.source in db.discovered && g.run in db.runs
                 && db.runs[g.run].scope == PublicScope && db.discovered[g.source].scope == PublicScope
                 && db.discovered[g.source].duplicateOf == None && !db.discovered[g.source].injectionFlag
                 && db.discovered[g.source].disposition != Rejected
    ensures id in ShownRunSources(db) ==>
              var g := db.sightings[id];
              var d := db.discovered[g.source];
              ShownRunSources(db)[id]
              == RunSource(g.run, g.source, d.url, d.domain, d.title, d.preliminaryType, d.excerpt, d.lastRetrievedAt,
                           d.shown)
  {
  }
}
