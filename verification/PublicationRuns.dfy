/**
 Every run of application-role transactions: what holds in all its states about drafts, public updates,
 audit entries, support and report history together.
 */
module PublicationRuns {
  import opened Wrappers
  import E = Evidence
  import R = Reports
  import opened Publication

  ghost function ExecAll(db: Db, steps: seq<Step>): Option<Db>
    decreases |steps|
  {
    if steps == [] then Some(db)
    else match Exec(db, steps[0])
         case None => None
         case Some(db') => ExecAll(db', steps[1..])
  }

  ghost predicate CommitPasses(db: Db) {
    E.CommitPasses(db.ev) && R.CommitPasses(db.rep)
  }

  function Settled(db: Db): Db {
    db.(ev := E.Txn(db.ev.t, {}), rep := R.Txn(db.rep.t, {}))
  }

  /** A transaction on committed tables: everything in it, or nothing. */
  ghost function Transact(db: Db, steps: seq<Step>): Db {
    match ExecAll(db, steps)
    case Some(x) => if CommitPasses(x) then Settled(x) else db
    case None => db
  }

  ghost function Serial(db: Db, transactions: seq<seq<Step>>): Db
    decreases |transactions|
  {
    if transactions == [] then db else Serial(Transact(db, transactions[0]), transactions[1..])
  }

  ghost predicate AllAllowed(transactions: seq<seq<Step>>) {
    forall i, j :: 0 <= i < |transactions| && 0 <= j < |transactions[i]| ==> Allowed(transactions[i][j])
  }

  // ---- Drafts stay intact ----

  lemma OneMoreStatement(db: Db, p: Request, done: set<Id>, i: Id, before: seq<E.Statement>)
    requires Publishing(db, p) && done <= p.copies.Keys && i in p.copies && i !in done
    requires E.Row(E.Updates, i) !in db.ev.t.cites && E.ExecAll(db.ev, before) == Some(Partial(db, p, done))
    ensures var s := E.InsertCitation(E.Row(E.Updates, i), CopyOf(db.draftCites[p.copies[i]], p.now));
            E.ExecAll(db.ev, before + [s]) == Some(Partial(db, p, done + {i}))
  {
    OneMoreCopy(db, p, done, i);
    OneCitation(db.ev, before, Partial(db, p, done), E.Row(E.Updates, i), CopyOf(db.draftCites[p.copies[i]], p.now),
                Partial(db, p, done + {i}));
  }

  /** The evidence tables after the update and any set of its copies, as statements. */
  lemma PublishAsStatements(db: Db, p: Request, done: set<Id>) returns (statements: seq<E.Statement>)
    requires Publishing(db, p) && DraftsFit(db) && Writable(db, p) && done <= p.copies.Keys
    ensures E.ExecAll(db.ev, statements) == Some(Partial(db, p, done))
    decreases |done|
  {
    if done == {} {
      var row, c := E.Row(E.Updates, p.draft), PublicRow(db.drafts[p.draft], p.now);
      FirstTheUpdate(db, p);
      OneClaim(db.ev, row, c, Partial(db, p, {}));
      statements := [E.InsertClaim(row, c)];
    } else {
      var i :| i in done;
      var row, c := E.Row(E.Updates, i), CopyOf(db.draftCites[p.copies[i]], p.now);
      assert (done - {i}) + {i} == done;
      var before := PublishAsStatements(db, p, done - {i});
      OneMoreStatement(db, p, done - {i}, i, before);
      statements := before + [E.InsertCitation(row, c)];
    }
  }

  lemma OneClaim(x: E.Txn, row: E.Row, c: E.Claim, y: E.Txn)
    requires E.ExecInsertClaim(x, row, c) == Some(y)
    ensures E.ExecAll(x, [E.InsertClaim(row, c)]) == Some(y)
  {
    E.OneStatement(x, E.InsertClaim(row, c));
  }

  lemma OneCitation(x: E.Txn, before: seq<E.Statement>, mid: E.Txn, row: E.Row, c: E.Citation, y: E.Txn)
    requires E.ExecAll(x, before) == Some(mid) && E.ExecInsertCitation(mid, row, c) == Some(y)
    ensures E.ExecAll(x, before + [E.InsertCitation(row, c)]) == Some(y)
  {
    E.ExecAllSplits(x, before, [E.InsertCitation(row, c)]);
    E.OneStatement(mid, E.InsertCitation(row, c));
  }

  lemma OneAuditEntry(x: R.Txn, id: Id, entry: R.Audit)
    requires id !in x.t.audit
    ensures R.ExecAll(x, [R.InsertAudit(id, entry)]) == Some(x.(t := x.t.(audit := x.t.audit[id := entry])))
  {
    R.OneStatement(x, R.InsertAudit(id, entry));
  }

  lemma AfterPublishParts(db: Db, p: Request)
    requires p.draft in db.drafts && OneIdEach(p.copies, CitableCitations(db, p.draft))
    ensures AfterPublish(db, p).ev == Partial(db, p, p.copies.Keys)
    ensures AfterPublish(db, p).rep == db.rep.(t := db.rep.t.(audit := db.rep.t.audit[p.auditId := AuditEntry(p)]))
  {
  }

  lemma PublishParts(db: Db, p: Request) returns (es: seq<E.Statement>, rs: seq<R.Statement>)
    requires DraftsIntact(db) && PublishOutcome(db, p) == Done && OneIdEach(p.copies, CitableCitations(db, p.draft))
    ensures E.ExecAll(db.ev, es) == Some(AfterPublish(db, p).ev)
    ensures R.ExecAll(db.rep, rs) == Some(AfterPublish(db, p).rep)
  {
    es := PublishAsStatements(db, p, p.copies.Keys);
    AfterPublishParts(db, p);
    rs := [R.InsertAudit(p.auditId, AuditEntry(p))];
    OneAuditEntry(db.rep, p.auditId, AuditEntry(p));
  }

  lemma EvidencePart(db: Db, e: E.Statement)
    requires Exec(db, Evidence(e)).Some?
    ensures E.ExecAll(db.ev, [e]) == Some(Exec(db, Evidence(e)).value.ev)
    ensures Exec(db, Evidence(e)).value.rep == db.rep
  {
    E.OneStatement(db.ev, e);
  }

  lemma ReportPart(db: Db, r: R.Statement)
    requires Exec(db, Report(r)).Some?
    ensures R.ExecAll(db.rep, [r]) == Some(Exec(db, Report(r)).value.rep)
    ensures Exec(db, Report(r)).value.ev == db.ev
  {
    R.OneStatement(db.rep, r);
  }

  lemma OtherParts(db: Db, s: Step)
    requires Exec(db, s).Some? && !s.Evidence? && !s.Report? && !(s.Publish? && PublishOutcome(db, s.p) == Done)
    ensures Exec(db, s).value.ev == db.ev && Exec(db, s).value.rep == db.rep
  {
  }

  lemma PublishStep(db: Db, p: Request)
    ensures PublishOutcome(db, p) == Done ==>
              Exec(db, Publish(p))
              == if OneIdEach(p.copies, CitableCitations(db, p.draft)) then Some(AfterPublish(db, p)) else None
    ensures PublishOutcome(db, p) != Done ==> Exec(db, Publish(p)) == None || Exec(db, Publish(p)) == Some(db)
  {
  }

  /** Each step does to the evidence tables what some evidence statements do, and likewise to the reports. */
  lemma StepParts(db: Db, s: Step) returns (es: seq<E.Statement>, rs: seq<R.Statement>)
    requires DraftsIntact(db) && Exec(db, s).Some?
    ensures E.ExecAll(db.ev, es) == Some(Exec(db, s).value.ev)
    ensures R.ExecAll(db.rep, rs) == Some(Exec(db, s).value.rep)
  {
    es, rs := [], [];
    if s.Evidence? {
      EvidencePart(db, s.s);
      es := [s.s];
    } else if s.Report? {
      ReportPart(db, s.r);
      rs := [s.r];
    } else if s.Publish? && PublishOutcome(db, s.p) == Done {
      PublishStep(db, s.p);
      es, rs := PublishParts(db, s.p);
    } else {
      OtherParts(db, s);
    }
  }

  /** Evidence and reports only change so far that drafts keep what they refer to. */
  ghost predicate Keeps(db: Db, db': Db) {
    && E.Intact(db'.ev.t) && E.Preserves(db.ev.t, db'.ev.t)
    && (forall id :: id in db.ev.t.projects ==> id in db'.ev.t.projects)
    && (forall d :: d in db.drafts ==> d in db'.drafts && db.drafts[d].report in db'.rep.t.reports)
  }

  lemma StepKeeps(db: Db, s: Step)
    requires DraftsIntact(db) && Exec(db, s).Some?
    ensures Keeps(db, Exec(db, s).value)
  {
    var db' := Exec(db, s).value;
    var es, rs := StepParts(db, s);
    E.ExecAllKeepsIntact(db.ev, es);
    E.ReferencesStay(db.ev, es);
    forall d | d in db.drafts ensures d in db'.drafts && db.drafts[d].report in db'.rep.t.reports {
      if s.Report? {
        R.ReportsStay(db.rep, s.r, db.drafts[d].report);
      }
    }
  }

  predicate SameHome(d: UpdateDraft, e: UpdateDraft) {
    d.project == e.project && d.report == e.report
  }

  /** Where the drafts and their citations did not change, they still fit what they refer to. */
  lemma StillIntact(db: Db, db': Db)
    requires DraftsIntact(db) && Keeps(db, db')
    requires db'.draftCites == db.draftCites
    requires forall d :: d in db'.drafts ==>
        d in db.drafts && DraftChecks(db'.drafts[d]) && SameHome(db'.drafts[d], db.drafts[d])
    ensures DraftsIntact(db')
  {
    E.StillMatches(db.ev.t, db'.ev.t);
  }

  /** No step changes what a draft or a draft citation says, or adds one except by the two inserts. */
  lemma DraftsKeepContent(db: Db, s: Step)
    requires forall d :: d in db.drafts ==> DraftChecks(db.drafts[d])
    requires Exec(db, s).Some? && !s.InsertDraft? && !s.InsertDraftCitation?
    ensures var db' := Exec(db, s).value;
            && db'.draftCites == db.draftCites
            && forall d :: d in db'.drafts ==>
                d in db.drafts && DraftChecks(db'.drafts[d]) && SameHome(db'.drafts[d], db.drafts[d])
  {
  }

  lemma InsertedDraftIsIntact(db: Db, id: Id, d: UpdateDraft)
    requires DraftsIntact(db) && Exec(db, InsertDraft(id, d)).Some?
    ensures DraftsIntact(Exec(db, InsertDraft(id, d)).value)
  {
  }

  lemma OneMoreLabel(db: Db, id: Id, c: E.Citation)
    requires LabelsDiffer(db.draftCites) && id !in db.draftCites && !DraftLabelTaken(db, c)
    ensures LabelsDiffer(db.draftCites[id := c])
  {
    assert forall k :: k in db.draftCites ==> !SameLabel(db.draftCites[k], c);
  }

  lemma InsertedCitationIsIntact(db: Db, id: Id, c: E.Citation)
    requires DraftsIntact(db) && Exec(db, InsertDraftCitation(id, c)).Some?
    ensures DraftsIntact(Exec(db, InsertDraftCitation(id, c)).value)
  {
    OneMoreLabel(db, id, c);
    var db' := Exec(db, InsertDraftCitation(id, c)).value;
    assert db' == db.(draftCites := db.draftCites[id := c]);
    assert DraftCitationsFit(db');
    assert DraftsFit(db');
  }

  lemma StepKeepsIntact(db: Db, s: Step)
    requires DraftsIntact(db) && Exec(db, s).Some?
    ensures DraftsIntact(Exec(db, s).value)
  {
    match s {
      case InsertDraft(id, d) => InsertedDraftIsIntact(db, id, d);
      case InsertDraftCitation(id, c) => InsertedCitationIsIntact(db, id, c);
      case _ =>
        StepKeeps(db, s);
        DraftsKeepContent(db, s);
        StillIntact(db, Exec(db, s).value);
    }
  }

  // ---- Published exactly when the public row is there ----

  /** The public updates: those there from the start, and the published drafts, as they were written. */
  ghost predicate PublishedExactly(db: Db, seeded: set<Id>) {
    forall id :: ExactAt(db, seeded, id)
  }

  predicate IsPublished(db: Db, id: Id) {
    PublishedIn(db.drafts, id)
  }

  predicate PublishedIn(drafts: map<Id, UpdateDraft>, id: Id) {
    id in drafts && drafts[id].state.Published? && drafts[id].publishedAt.Some?
  }

  function PublishEntries(db: Db, id: Id): set<Id> {
    EntriesIn(db.rep.t.audit, id)
  }

  /** The audit entries that record the publication of a draft. */
  function EntriesIn(audit: map<Id, R.Audit>, id: Id): set<Id> {
    set k | k in audit && audit[k].event == PUBLISHED && audit[k].subject == id
  }

  /** One audit entry for each published draft, none for any other. */
  ghost predicate AuditedOnce(db: Db) {
    forall id :: |PublishEntries(db, id)| == if IsPublished(db, id) then 1 else 0
  }

  /** What a draft can still become: its content is fixed, and published and withdrawn are final. */
  predicate DraftLater(was: UpdateDraft, now: UpdateDraft) {
    && now.report == was.report && now.project == was.project && now.statement == was.statement
    && now.effectiveOn == was.effectiveOn && now.lastCheckedOn == was.lastCheckedOn
    && now.verification == was.verification && now.authoredBy == was.authoredBy && now.createdAt == was.createdAt
    && (was.state != Draft ==> now == was)
  }

  ghost predicate DraftsLater(db: Db, db': Db) {
    forall id :: id in db.drafts ==> id in db'.drafts && DraftLater(db.drafts[id], db'.drafts[id])
  }

  lemma StepIsLater(db: Db, s: Step)
    requires Exec(db, s).Some?
    ensures DraftsLater(db, Exec(db, s).value)
  {
  }

  /** Statements the roles may use leave the updates alone. */
  lemma GrantedLeavesUpdates(x: E.Txn, s: E.Statement, id: Id)
    requires Granted(s) && E.Exec(x, s).Some?
    ensures E.Row(E.Updates, id) in E.Exec(x, s).value.t.claims <==> E.Row(E.Updates, id) in x.t.claims
    ensures E.Row(E.Updates, id) in x.t.claims ==>
              E.Exec(x, s).value.t.claims[E.Row(E.Updates, id)] == x.t.claims[E.Row(E.Updates, id)]
  {
  }

  ghost predicate ExactAt(db: Db, seeded: set<Id>, id: Id) {
    ExactIn(db.ev.t.claims, db.drafts, seeded, id)
  }

  ghost predicate ExactIn(claims: map<E.Row, E.Claim>, drafts: map<Id, UpdateDraft>, seeded: set<Id>, id: Id) {
    && (E.Row(E.Updates, id) in claims <==> id in seeded || PublishedIn(drafts, id))
    && (PublishedIn(drafts, id) ==>
          id !in seeded && claims[E.Row(E.Updates, id)] == PublicRow(drafts[id], drafts[id].publishedAt.value))
  }

  lemma EvidenceKeepsExact(db: Db, e: E.Statement, seeded: set<Id>, id: Id)
    requires ExactAt(db, seeded, id) && Exec(db, Evidence(e)).Some? && Granted(e)
    ensures ExactAt(Exec(db, Evidence(e)).value, seeded, id)
  {
    GrantedLeavesUpdates(db.ev, e, id);
  }

  lemma MarkKeepsExact(claims: map<E.Row, E.Claim>, drafts: map<Id, UpdateDraft>, seeded: set<Id>, p: Request, id: Id)
    requires ExactIn(claims, drafts, seeded, id) && p.draft in drafts && E.Row(E.Updates, p.draft) !in claims
    ensures ExactIn(claims[E.Row(E.Updates, p.draft) := PublicRow(drafts[p.draft], p.now)],
                    drafts[p.draft := Marked(drafts[p.draft], p)], seeded, id)
  {
  }

  lemma PublishKeepsExact(db: Db, p: Request, seeded: set<Id>, id: Id)
    requires ExactAt(db, seeded, id) && PublishOutcome(db, p) == Done
    requires OneIdEach(p.copies, CitableCitations(db, p.draft))
    ensures ExactAt(AfterPublish(db, p), seeded, id)
  {
    MarkKeepsExact(db.ev.t.claims, db.drafts, seeded, p, id);
    AfterPublishMarks(db, p);
  }

  lemma OthersKeepExact(db: Db, s: Step, seeded: set<Id>, id: Id)
    requires forall d :: d in db.drafts ==> DraftChecks(db.drafts[d])
    requires ExactAt(db, seeded, id) && Exec(db, s).Some? && Allowed(s)
    requires !s.Evidence? && !(s.Publish? && PublishOutcome(db, s.p) == Done)
    ensures ExactAt(Exec(db, s).value, seeded, id)
  {
  }

  lemma StepPublishesExactly(db: Db, s: Step, seeded: set<Id>)
    requires forall d :: d in db.drafts ==> DraftChecks(db.drafts[d])
    requires PublishedExactly(db, seeded) && Exec(db, s).Some? && Allowed(s)
    ensures PublishedExactly(Exec(db, s).value, seeded)
  {
    forall id ensures ExactAt(Exec(db, s).value, seeded, id) {
      assert ExactAt(db, seeded, id);
      if s.Evidence? {
        EvidenceKeepsExact(db, s.s, seeded, id);
      } else if s.Publish? && PublishOutcome(db, s.p) == Done {
        PublishStep(db, s.p);
        PublishKeepsExact(db, s.p, seeded, id);
      } else {
        OthersKeepExact(db, s, seeded, id);
      }
    }
  }

  lemma OneMoreEntry(audit: map<Id, R.Audit>, k: Id, draft: Id, at: int, id: Id)
    requires k !in audit
    ensures EntriesIn(audit[k := R.Audit(PUBLISHED, draft, at)], id)
            == EntriesIn(audit, id) + if id == draft then {k} else {}
  {
  }

  /** A publish adds the one entry and marks the one draft, which was not published. */
  lemma PublishAuditsOnce(drafts: map<Id, UpdateDraft>, audit: map<Id, R.Audit>, p: Request, id: Id)
    requires p.draft in drafts && !PublishedIn(drafts, p.draft) && p.auditId !in audit
    requires |EntriesIn(audit, id)| == if PublishedIn(drafts, id) then 1 else 0
    ensures |EntriesIn(audit[p.auditId := AuditEntry(p)], id)|
            == if PublishedIn(drafts[p.draft := Marked(drafts[p.draft], p)], id) then 1 else 0
  {
    OneMoreEntry(audit, p.auditId, p.draft, p.now, id);
  }

  lemma AfterPublishMarks(db: Db, p: Request)
    requires p.draft in db.drafts && OneIdEach(p.copies, CitableCitations(db, p.draft))
    ensures AfterPublish(db, p).drafts == db.drafts[p.draft := Marked(db.drafts[p.draft], p)]
    ensures AfterPublish(db, p).rep.t.audit == db.rep.t.audit[p.auditId := AuditEntry(p)]
    ensures AfterPublish(db, p).ev.t.claims
            == db.ev.t.claims[E.Row(E.Updates, p.draft) := PublicRow(db.drafts[p.draft], p.now)]
  {
  }

  /** Apart from a publish, no step adds such an entry or publishes a draft. */
  lemma OthersDoNotPublish(db: Db, s: Step, id: Id)
    requires forall d :: d in db.drafts ==> DraftChecks(db.drafts[d])
    requires Exec(db, s).Some? && Allowed(s) && !(s.Publish? && PublishOutcome(db, s.p) == Done)
    ensures PublishEntries(Exec(db, s).value, id) == PublishEntries(db, id)
    ensures IsPublished(Exec(db, s).value, id) <==> IsPublished(db, id)
  {
    if s.Report? {
      R.AuditGrows(db.rep, s.r);
    }
  }

  lemma StepAuditsOnce(db: Db, s: Step)
    requires forall d :: d in db.drafts ==> DraftChecks(db.drafts[d])
    requires AuditedOnce(db) && Exec(db, s).Some? && Allowed(s)
    ensures AuditedOnce(Exec(db, s).value)
  {
    forall id ensures |PublishEntries(Exec(db, s).value, id)| == if IsPublished(Exec(db, s).value, id) then 1 else 0 {
      assert |PublishEntries(db, id)| == if IsPublished(db, id) then 1 else 0;
      if s.Publish? && PublishOutcome(db, s.p) == Done {
        PublishAuditsOnce(db.drafts, db.rep.t.audit, s.p, id);
        AfterPublishMarks(db, s.p);
      } else {
        OthersDoNotPublish(db, s, id);
      }
    }
  }

  // ---- Runs ----

  /** What holds between transactions. */
  ghost predicate Good(db: Db, seeded: set<Id>) {
    && db == Settled(db)
    && DraftsIntact(db) && PublishedExactly(db, seeded) && AuditedOnce(db)
    && E.Supported(db.ev.t) && R.Projected(db.rep.t)
  }

  /** What a later state keeps of an earlier one. */
  ghost predicate Later(db: Db, db': Db) {
    DraftsLater(db, db') && R.Later(db.rep.t, db'.rep.t) && E.Preserves(db.ev.t, db'.ev.t)
  }

  lemma LaterTransitive(a: Db, b: Db, c: Db)
    requires Later(a, b) && Later(b, c)
    ensures Later(a, c)
  {
    R.LaterTransitive(a.rep.t, b.rep.t, c.rep.t);
  }

  /** Inside a transaction: invariants of the working state, and its evidence and report parts as statements. */
  lemma {:induction false} Working(db: Db, steps: seq<Step>, seeded: set<Id>)
    returns (es: seq<E.Statement>, rs: seq<R.Statement>)
    requires DraftsIntact(db) && PublishedExactly(db, seeded) && AuditedOnce(db)
    requires ExecAll(db, steps).Some? && forall i :: 0 <= i < |steps| ==> Allowed(steps[i])
    ensures var x := ExecAll(db, steps).value;
            && DraftsIntact(x) && PublishedExactly(x, seeded) && AuditedOnce(x) && Later(db, x)
            && E.ExecAll(db.ev, es) == Some(x.ev) && R.ExecAll(db.rep, rs) == Some(x.rep)
    decreases |steps|
  {
    es, rs := [], [];
    if steps != [] {
      var s := steps[0];
      var db' := Exec(db, s).value;
      var es1, rs1 := StepParts(db, s);
      StepKeepsIntact(db, s);
      StepPublishesExactly(db, s, seeded);
      StepAuditsOnce(db, s);
      StepIsLater(db, s);
      E.ExecAllKeepsIntact(db.ev, es1);
      R.ExecAllIsLater(db.rep, rs1);
      var es2, rs2 := Working(db', steps[1..], seeded);
      E.ExecAllSplits(db.ev, es1, es2);
      R.ExecAllSplits(db.rep, rs1, rs2);
      LaterTransitive(db, db', ExecAll(db, steps).value);
      es, rs := es1 + es2, rs1 + rs2;
    }
  }

  lemma SettledKeeps(x: Db, seeded: set<Id>)
    requires DraftsIntact(x) && PublishedExactly(x, seeded) && AuditedOnce(x)
    ensures DraftsIntact(Settled(x)) && PublishedExactly(Settled(x), seeded) && AuditedOnce(Settled(x))
  {
    var y := Settled(x);
    forall id ensures ExactAt(y, seeded, id) {
      assert ExactAt(x, seeded, id);
    }
    forall id ensures IsPublished(y, id) <==> IsPublished(x, id) {
    }
    forall id ensures |PublishEntries(y, id)| == if IsPublished(y, id) then 1 else 0 {
      assert PublishEntries(y, id) == PublishEntries(x, id);
    }
  }

  lemma TransactionStaysGood(db: Db, steps: seq<Step>, seeded: set<Id>)
    requires Good(db, seeded) && forall i :: 0 <= i < |steps| ==> Allowed(steps[i])
    ensures Good(Transact(db, steps), seeded) && Later(db, Transact(db, steps))
  {
    if ExecAll(db, steps).Some? && CommitPasses(ExecAll(db, steps).value) {
      var x := ExecAll(db, steps).value;
      var es, rs := Working(db, steps, seeded);
      assert db.ev == E.Txn(db.ev.t, {}) && db.rep == R.Txn(db.rep.t, {});
      E.CommitIffSupported(db.ev.t, es);
      R.CommitIffProjected(db.rep.t, rs);
      SettledKeeps(x, seeded);
      LaterSettled(db, x);
    }
  }

  lemma LaterSettled(db: Db, x: Db)
    requires Later(db, x)
    ensures Later(db, Settled(x))
  {
  }

  lemma {:induction false} EveryStateIsGood(db: Db, transactions: seq<seq<Step>>, seeded: set<Id>)
    requires Good(db, seeded) && AllAllowed(transactions)
    ensures Good(Serial(db, transactions), seeded) && Later(db, Serial(db, transactions))
    decreases |transactions|
  {
    if transactions != [] {
      var db' := Transact(db, transactions[0]);
      TransactionStaysGood(db, transactions[0], seeded);
      assert AllAllowed(transactions[1..]);
      EveryStateIsGood(db', transactions[1..], seeded);
      LaterTransitive(db, db', Serial(db, transactions));
    }
  }

  // ---- The promises ----

  lemma {:induction false} SerialSplits(db: Db, a: seq<seq<Step>>, b: seq<seq<Step>>)
    ensures Serial(db, a + b) == Serial(Serial(db, a), b)
    decreases |a|
  {
    if a == [] {
      assert a + b == b;
    } else {
      assert (a + b)[1..] == a[1..] + b;
      SerialSplits(Transact(db, a[0]), a[1..], b);
    }
  }

  /**
   Over every run of the roles' transactions: a draft is marked published exactly when its public row
   exists, that row says what the draft says, and it was published exactly once.
   */
  lemma PublishedOnceExactlyAsDrafted(db: Db, transactions: seq<seq<Step>>, seeded: set<Id>, id: Id)
    requires Good(db, seeded) && AllAllowed(transactions) && id in Serial(db, transactions).drafts && id !in seeded
    ensures var db' := Serial(db, transactions);
            var d := db'.drafts[id];
            var row := E.Row(E.Updates, id);
            && (d.state == Published <==> row in db'.ev.t.claims)
            && (row in db'.ev.t.claims ==>
                d.publishedAt.Some? && db'.ev.t.claims[row] == PublicRow(d, d.publishedAt.value))
            && |PublishEntries(db', id)| == if d.state == Published then 1 else 0
  {
    EveryStateIsGood(db, transactions, seeded);
    var db' := Serial(db, transactions);
    assert DraftChecks(db'.drafts[id]);
    assert ExactAt(db', seeded, id);
    assert |PublishEntries(db', id)| == if IsPublished(db', id) then 1 else 0;
  }

  /** Published and withdrawn are final: a draft withdrawn in any state has no public row in any later one. */
  lemma WithdrawnStaysUnpublished(db: Db, first: seq<seq<Step>>, later: seq<seq<Step>>, seeded: set<Id>, id: Id)
    requires Good(db, seeded) && AllAllowed(first) && AllAllowed(later) && id !in seeded
    requires id in Serial(db, first).drafts && Serial(db, first).drafts[id].state == Withdrawn
    ensures var db' := Serial(db, first + later);
            && id in db'.drafts && db'.drafts[id] == Serial(db, first).drafts[id]
            && E.Row(E.Updates, id) !in db'.ev.t.claims && PublishEntries(db', id) == {}
  {
    EveryStateIsGood(db, first, seeded);
    SerialSplits(db, first, later);
    EveryStateIsGood(Serial(db, first), later, seeded);
    var db' := Serial(db, first + later);
    assert ExactAt(db', seeded, id);
    assert |PublishEntries(db', id)| == if IsPublished(db', id) then 1 else 0;
  }

  /** Nothing cites an update that is not there yet. */
  lemma NobodyCitesYet(t: E.Tables, row: E.Row, key: E.Row)
    requires E.Intact(t) && row !in t.claims && key in t.cites
    ensures E.ParentOf(key, t.cites[key]) != row
  {
    assert E.CitationAllowed(t, key, t.cites[key]);
  }

  lemma CopiedKey(db: Db, p: Request, key: E.Row)
    requires OneIdEach(p.copies, CitableCitations(db, p.draft))
    ensures key in Copies(db, p, p.copies.Keys) <==> key.table == E.Updates && key.id in p.copies
    ensures key in Copies(db, p, p.copies.Keys) ==>
              Copies(db, p, p.copies.Keys)[key] == CopyOf(db.draftCites[p.copies[key.id]], p.now)
              && E.ParentOf(key, Copies(db, p, p.copies.Keys)[key]) == E.Row(E.Updates, p.draft)
  {
    if key.id in p.copies {
      assert p.copies[key.id] in CitableCitations(db, p.draft);
    }
  }

  lemma CitesAfterPublish(db: Db, p: Request)
    requires p.draft in db.drafts && OneIdEach(p.copies, CitableCitations(db, p.draft))
    ensures AfterPublish(db, p).ev.t.cites == db.ev.t.cites + Copies(db, p, p.copies.Keys)
    ensures AfterPublish(db, p).ev.t.versions == db.ev.t.versions
    ensures AfterPublish(db, p).ev.events == db.ev.events + {E.ClaimWritten(E.Row(E.Updates, p.draft))}
  {
  }

  /** The new update's citations are its copies: one for each citable citation of the draft, and no other. */
  lemma CitationsAreTheDrafts(db: Db, p: Request, key: E.Row)
    requires E.Intact(db.ev.t) && p.draft in db.drafts && E.Row(E.Updates, p.draft) !in db.ev.t.claims
    requires OneIdEach(p.copies, CitableCitations(db, p.draft))
    ensures var cites := AfterPublish(db, p).ev.t.cites;
            && (key in cites && E.ParentOf(key, cites[key]) == E.Row(E.Updates, p.draft)
                <==> key.table == E.Updates && key.id in p.copies)
            && (key.table == E.Updates && key.id in p.copies ==>
                  cites[key] == CopyOf(db.draftCites[p.copies[key.id]], p.now))
  {
    CitesAfterPublish(db, p);
    CopiedKey(db, p, key);
    if key in db.ev.t.cites {
      NobodyCitesYet(db.ev.t, E.Row(E.Updates, p.draft), key);
    }
  }

  lemma PublishedIsSupported(db: Db, p: Request)
    requires DraftsIntact(db) && PublishOutcome(db, p) == Done && OneIdEach(p.copies, CitableCitations(db, p.draft))
    ensures E.HasSupport(AfterPublish(db, p).ev.t, E.Row(E.Updates, p.draft))
  {
    var k :| k in CitableCitations(db, p.draft);
    var i :| i in p.copies && p.copies[i] == k;
    CitationsAreTheDrafts(db, p, E.Row(E.Updates, i));
    CitesAfterPublish(db, p);
    assert E.Supports(AfterPublish(db, p).ev.t, E.Row(E.Updates, i), E.Row(E.Updates, p.draft));
  }

  lemma OneStep(db: Db, s: Step)
    ensures Transact(db, [s]) == match Exec(db, s)
                                 case Some(x) => if CommitPasses(x) then Settled(x) else db
                                 case None => db
  {
    var steps := [s];
    assert steps[0] == s && steps[1..] == [];
    if Exec(db, s).Some? {
      assert ExecAll(Exec(db, s).value, steps[1..]) == Some(Exec(db, s).value);
    }
    assert ExecAll(db, steps) == Exec(db, s);
  }

  /** The deferred checks of a publish: its one event, about the one row, passes. */
  lemma TheEventPasses(x: Db, row: E.Row)
    requires x.ev.events == {E.ClaimWritten(row)} && E.HasSupport(x.ev.t, row) && x.rep.touched == {}
    ensures CommitPasses(x)
  {
  }

  lemma PublishLeavesOneEvent(db: Db, p: Request)
    requires p.draft in db.drafts && OneIdEach(p.copies, CitableCitations(db, p.draft))
    requires db.ev.events == {} && db.rep.touched == {}
    ensures AfterPublish(db, p).ev.events == {E.ClaimWritten(E.Row(E.Updates, p.draft))}
    ensures AfterPublish(db, p).rep.touched == {}
  {
    CitesAfterPublish(db, p);
    FirstEvent(db.ev.events, E.ClaimWritten(E.Row(E.Updates, p.draft)));
    AfterPublishParts(db, p);
  }

  lemma FirstEvent(events: set<E.Event>, e: E.Event)
    requires events == {}
    ensures events + {e} == {e}
  {
  }

  lemma PublishCommits(db: Db, p: Request)
    requires DraftsIntact(db) && db == Settled(db) && OneIdEach(p.copies, CitableCitations(db, p.draft))
    requires PublishOutcome(db, p) == Done
    ensures CommitPasses(AfterPublish(db, p))
  {
    PublishedIsSupported(db, p);
    PublishLeavesOneEvent(db, p);
    TheEventPasses(AfterPublish(db, p), E.Row(E.Updates, p.draft));
  }

  /**
   A publish on its own either leaves the database as it was, whether it refuses or raises, or commits
   exactly the update, the copies, the mark and the audit entry: once it decides to publish and can write,
   the deferred checks never refuse it.
   */
  lemma PublishIsAllOrNothing(db: Db, p: Request)
    requires DraftsIntact(db) && db == Settled(db) && OneIdEach(p.copies, CitableCitations(db, p.draft))
    ensures Transact(db, [Publish(p)]) == if PublishOutcome(db, p) == Done then Settled(AfterPublish(db, p)) else db
  {
    PublishStep(db, p);
    OneStep(db, Publish(p));
    if PublishOutcome(db, p) == Done {
      PublishCommits(db, p);
    }
  }

  lemma LaterReports(db: Db, first: seq<seq<Step>>, more: seq<seq<Step>>, seeded: set<Id>)
    requires Good(db, seeded) && AllAllowed(first) && AllAllowed(more)
    ensures Good(Serial(db, first + more), seeded) && R.Projected(Serial(db, first).rep.t)
    ensures R.Later(Serial(db, first).rep.t, Serial(db, first + more).rep.t)
  {
    EveryStateIsGood(db, first, seeded);
    SerialSplits(db, first, more);
    EveryStateIsGood(Serial(db, first), more, seeded);
  }

  lemma LaterInside(c: Db, steps: seq<Step>, seeded: set<Id>)
    requires Good(c, seeded) && ExecAll(c, steps).Some? && forall i :: 0 <= i < |steps| ==> Allowed(steps[i])
    ensures R.Later(c.rep.t, ExecAll(c, steps).value.rep.t)
  {
    var es, rs := Working(c, steps, seeded);
  }

  lemma AcceptedMeans(x: Db, p: Request)
    requires PublishOutcome(x, p) == Done
    ensures p.draft in x.drafts && x.drafts[p.draft].report in x.rep.t.reports
    ensures var r := x.rep.t.reports[x.drafts[p.draft].report];
            r.status == R.VerifiedForPublicUpdate && r.version == p.expectedVersion
  {
  }

  /** Three moments of one report: if the version is the same at both ends, so is the status in between. */
  lemma Between(a: R.Tables, b: R.Tables, x: R.Tables, report: Id)
    requires R.Projected(a) && R.Projected(b) && R.Later(a, b) && R.Later(b, x)
    requires report in a.reports && report in x.reports && a.reports[report].version == x.reports[report].version
    ensures report in b.reports && b.reports[report].status == x.reports[report].status
  {
    assert R.Passes(a, report);
    assert R.HasEvents(a, report);
    assert R.Passes(b, report);
    assert R.HasEvents(b, report);
  }

  lemma VerifiedBetween(a: R.Tables, b: R.Tables, c: R.Tables, x: Db, p: Request)
    requires R.Projected(a) && R.Projected(b) && R.Later(a, b) && R.Later(b, c) && R.Later(c, x.rep.t)
    requires PublishOutcome(x, p) == Done
    requires var report := x.drafts[p.draft].report;
             report in a.reports && a.reports[report].version == p.expectedVersion
    ensures var report := x.drafts[p.draft].report;
            report in b.reports && b.reports[report].status == R.VerifiedForPublicUpdate
  {
    R.LaterTransitive(b, c, x.rep.t);
    AcceptedMeans(x, p);
    Between(a, b, x.rep.t, x.drafts[p.draft].report);
  }

  /**
   A publish accepted at a report version means: take any earlier committed state in which the report had
   that version. In it, and in every committed state since, the report was verified for a public update.
   The transaction may have taken other steps before it publishes.
   */
  lemma PublishedMeansVerifiedSince(db: Db, first: seq<seq<Step>>, middle: seq<seq<Step>>, last: seq<seq<Step>>,
                                    steps: seq<Step>, p: Request, seeded: set<Id>, x: Db, report: Id)
    requires Good(db, seeded) && AllAllowed(first) && AllAllowed(middle) && AllAllowed(last)
    requires forall i :: 0 <= i < |steps| ==> Allowed(steps[i])
    requires ExecAll(Serial(db, first + middle + last), steps) == Some(x) && PublishOutcome(x, p) == Done
    requires p.draft in x.drafts && x.drafts[p.draft].report == report
    requires var a := Serial(db, first).rep.t; report in a.reports && a.reports[report].version == p.expectedVersion
    ensures var b := Serial(db, first + middle).rep.t;
            report in b.reports && b.reports[report].status == R.VerifiedForPublicUpdate
  {
    assert AllAllowed(first + middle);
    LaterReports(db, first, middle, seeded);
    LaterReports(db, first + middle, last, seeded);
    LaterInside(Serial(db, first + middle + last), steps, seeded);
    VerifiedBetween(Serial(db, first).rep.t, Serial(db, first + middle).rep.t,
                    Serial(db, first + middle + last).rep.t, x, p);
  }
}
