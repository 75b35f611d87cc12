/**
 Reviewer-written drafts and the one function that publishes them. A publish reads the draft and its
 report, writes the public update, copies the citable citations, marks the draft and writes one audit
 entry; every other step an application role may take is beside it here too.
 */
module Publication {
  import opened Wrappers
  import E = Evidence
  import R = Reports

  type Id = nat

  datatype DraftState = Draft | Published | Withdrawn

  datatype UpdateDraft = UpdateDraft(
    report: Id, project: Id, statement: string, effectiveOn: int, lastCheckedOn: Option<int>,
    verification: E.Verification, state: DraftState, authoredBy: Option<Id>, createdAt: int, updatedAt: int,
    publishedBy: Option<Id>, publishedAt: Option<int>)

  /** Draft citations have the columns of public ones; their parent is the draft. */
  datatype Db = Db(
    ev: E.Txn, rep: R.Txn, drafts: map<Id, UpdateDraft>, draftCites: map<Id, E.Citation>, reviewers: set<Id>)

  const PUBLISHED := "public_update_published"

  predicate DraftChecks(d: UpdateDraft) {
    10 <= |d.statement| <= 2000 && (d.state.Published? <==> d.publishedAt.Some?)
  }

  // ---- Steps ----

  /** `copies` are the ids `uuidv7()` returned, each for one of the citations selected for copying. */
  datatype Request = Request(
    draft: Id, expectedVersion: int, reviewer: bool, actor: Id, now: int, auditId: Id, copies: map<Id, Id>)

  datatype Step =
    | Evidence(s: E.Statement)
    | Report(r: R.Statement)
    | InsertDraft(id: Id, draft: UpdateDraft)
    | InsertDraftCitation(id: Id, citation: E.Citation)
    | SetDraftState(id: Id, state: DraftState, updatedAt: int)
    | DeleteDraft(id: Id)
    | Publish(p: Request)

  datatype Outcome = NotFound | NotDraft | ReportState | Stale | ProjectMismatch | NoCitation | Done | Raised

  function CitableCitations(db: Db, draft: Id): set<Id> {
    set k | k in db.draftCites && db.draftCites[k].parent == draft && db.draftCites[k].version in db.ev.t.versions
            && E.Citable(db.ev.t.versions[db.draftCites[k].version].state)
  }

  ghost predicate OneIdEach(copies: map<Id, Id>, selected: set<Id>) {
    && (forall i :: i in copies ==> copies[i] in selected)
    && (forall k :: k in selected ==> exists i :: i in copies && copies[i] == k)
    && (forall i, j :: i in copies && j in copies && copies[i] == copies[j] ==> i == j)
  }

  function PublicRow(d: UpdateDraft, now: int): E.Claim {
    E.Claim(d.project, d.statement, Some(d.effectiveOn), d.lastCheckedOn, d.verification, true, Some(now), now, now)
  }

  function CopyOf(c: E.Citation, now: int): E.Citation {
    c.(createdAt := now)
  }

  function Marked(d: UpdateDraft, p: Request): UpdateDraft {
    d.(state := Published, publishedBy := Some(p.actor), publishedAt := Some(p.now), updatedAt := p.now)
  }

  /** The public citations written for some of the new ids. */
  function Copies(db: Db, p: Request, which: set<Id>): map<E.Row, E.Citation>
    requires forall i :: i in which ==> i in p.copies && p.copies[i] in db.draftCites
  {
    map key | key in (set i | i in which :: E.Row(E.Updates, i)) :: CopyOf(db.draftCites[p.copies[key.id]], p.now)
  }

  /** The answers the function gives before it writes anything; Done when it goes on to write. */
  function Decision(db: Db, p: Request): Outcome {
    if !p.reviewer then Raised
    else if p.draft !in db.drafts then NotFound
    else
      var d := db.drafts[p.draft];
      if d.report !in db.rep.t.reports then Raised
      else
        var r := db.rep.t.reports[d.report];
        if !d.state.Draft? then NotDraft
        else if r.status != R.VerifiedForPublicUpdate then ReportState
        else if r.version != p.expectedVersion then Stale
        else if d.project != r.project then ProjectMismatch
        else if CitableCitations(db, p.draft) == {} then NoCitation
        else Done
  }

  /**
   What can still raise once the decision is to publish: the draft's id is taken by another update, the
   draft awaits verification (an update may not), it was last checked in the future, an id is in use, or the
   actor is no reviewer on record.
   */
  predicate Writable(db: Db, p: Request)
    requires p.draft in db.drafts
  {
    var d := db.drafts[p.draft];
    && E.Row(E.Updates, p.draft) !in db.ev.t.claims
    && !d.verification.AwaitingVerification?
    && (d.lastCheckedOn.Some? ==> d.lastCheckedOn.value <= E.LagosDay(p.now))
    && (forall i :: i in p.copies ==> E.Row(E.Updates, i) !in db.ev.t.cites)
    && p.auditId !in db.rep.t.audit
    && p.actor in db.reviewers
  }

  function PublishOutcome(db: Db, p: Request): Outcome {
    if Decision(db, p) == Done && !Writable(db, p) then Raised else Decision(db, p)
  }

  function AuditEntry(p: Request): R.Audit {
    R.Audit(PUBLISHED, p.draft, p.now)
  }

  /** The database after a publish: one update, its copied citations, the mark on the draft, one audit entry. */
  ghost function AfterPublish(db: Db, p: Request): Db
    requires p.draft in db.drafts && OneIdEach(p.copies, CitableCitations(db, p.draft))
  {
    var row := E.Row(E.Updates, p.draft);
    var t := db.ev.t;
    Db(E.Txn(t.(claims := t.claims[row := PublicRow(db.drafts[p.draft], p.now)],
                cites := t.cites + Copies(db, p, p.copies.Keys)),
             db.ev.events + {E.ClaimWritten(row)}),
       db.rep.(t := db.rep.t.(audit := db.rep.t.audit[p.auditId := AuditEntry(p)])),
       db.drafts[p.draft := Marked(db.drafts[p.draft], p)],
       db.draftCites,
       db.reviewers)
  }

  /** The grants: application roles write neither updates nor their citations. */
  predicate Granted(s: E.Statement) {
    match s
    case InsertClaim(row, _) => row.table.Facts?
    case UpdateClaim(row, _, _) => row.table.Facts?
    case DeleteClaim(row) => row.table.Facts?
    case InsertCitation(row, _) => row.table.Facts?
    case UpdateCitation(row, _, _) => row.table.Facts?
    case DeleteCitation(row) => row.table.Facts?
    case _ => true
  }

  predicate DraftLabelTaken(db: Db, c: E.Citation) {
    exists k :: k in db.draftCites && db.draftCites[k].parent == c.parent
                && db.draftCites[k].version == c.version && db.draftCites[k].location == c.location
  }

  predicate HasDrafts(db: Db, report: Id) {
    exists d :: d in db.drafts && db.drafts[d].report == report
  }

  /** One step of an application role: the new working state, or None when something raises. */
  ghost function Exec(db: Db, s: Step): Option<Db> {
    match s
    case Evidence(s) =>
      (match E.Exec(db.ev, s) case Some(ev) => Some(db.(ev := ev)) case None => None)
    case Report(r) =>
      if r.DeleteReport? && HasDrafts(db, r.id) then None
      else (match R.Exec(db.rep, r) case Some(rep) => Some(db.(rep := rep)) case None => None)
    case InsertDraft(id, d) =>
      if id in db.drafts || !DraftChecks(d) || d.report !in db.rep.t.reports || d.project !in db.ev.t.projects
         || (d.authoredBy.Some? && d.authoredBy.value !in db.reviewers)
      then None
      else Some(db.(drafts := db.drafts[id := d]))
    case InsertDraftCitation(id, c) =>
      if id in db.draftCites || !E.PassageMatches(db.ev.t, c) || !E.CitationChecks(c) || c.parent !in db.drafts
         || DraftLabelTaken(db, c)
      then None
      else Some(db.(draftCites := db.draftCites[id := c]))
    case SetDraftState(id, state, updatedAt) => ExecSetDraftState(db, id, state, updatedAt)
    case DeleteDraft(id) => if id in db.drafts then None else Some(db)
    case Publish(p) =>
      match PublishOutcome(db, p)
      case Raised => None
      case Done => if OneIdEach(p.copies, CitableCitations(db, p.draft)) then Some(AfterPublish(db, p)) else None
      case _ => Some(db)
  }

  /** A reviewer's UPDATE (state, updated_at): the guard trigger first, then the row check. */
  function ExecSetDraftState(db: Db, id: Id, state: DraftState, updatedAt: int): Option<Db> {
    if id !in db.drafts then Some(db)
    else
      var was := db.drafts[id];
      var next := was.(state := state, updatedAt := updatedAt);
      if !was.state.Draft? || next.state.Draft? || !DraftChecks(next) then None
      else Some(db.(drafts := db.drafts[id := next]))
  }

  /** What the roles may ask for: drafts begin as drafts, and the grants on updates and audit entries hold. */
  predicate Allowed(s: Step) {
    match s
    case Evidence(e) => Granted(e)
    case Report(r) => r.InsertAudit? ==> r.entry.event != PUBLISHED
    case InsertDraft(_, d) => d.state.Draft?
    case _ => true
  }

  // ---- What drafts and their citations always satisfy ----

  ghost predicate DraftsFit(db: Db) {
    forall id :: id in db.drafts ==> DraftChecks(db.drafts[id]) && db.drafts[id].project in db.ev.t.projects
                                     && db.drafts[id].report in db.rep.t.reports
  }

  ghost predicate DraftCitationsFit(db: Db) {
    forall k :: k in db.draftCites ==> E.PassageMatches(db.ev.t, db.draftCites[k]) && E.CitationChecks(db.draftCites[k])
                                       && db.draftCites[k].parent in db.drafts
  }

  ghost predicate LabelsDiffer(cites: map<Id, E.Citation>) {
    forall k, l :: k in cites && l in cites && SameLabel(cites[k], cites[l]) ==> k == l
  }

  ghost predicate DraftsIntact(db: Db) {
    E.Intact(db.ev.t) && DraftsFit(db) && DraftCitationsFit(db) && LabelsDiffer(db.draftCites)
  }

  predicate SameLabel(c: E.Citation, d: E.Citation) {
    c.parent == d.parent && c.version == d.version && c.location == d.location
  }

  /** Where the evidence tables stand after the update row and the citations of some of the new ids. */
  ghost function Partial(db: Db, p: Request, which: set<Id>): E.Txn
    requires p.draft in db.drafts && forall i :: i in which ==> i in p.copies && p.copies[i] in db.draftCites
  {
    var row := E.Row(E.Updates, p.draft);
    var t := db.ev.t;
    E.Txn(t.(claims := t.claims[row := PublicRow(db.drafts[p.draft], p.now)], cites := t.cites + Copies(db, p, which)),
          db.ev.events + {E.ClaimWritten(row)})
  }

  ghost predicate Publishing(db: Db, p: Request) {
    && E.CitationsIntact(db.ev.t) && DraftCitationsFit(db) && LabelsDiffer(db.draftCites)
    && p.draft in db.drafts && E.Row(E.Updates, p.draft) !in db.ev.t.claims
    && OneIdEach(p.copies, CitableCitations(db, p.draft))
  }

  /** The update row passes its checks exactly when the draft is writable in these respects. */
  lemma RowIsAllowed(db: Db, p: Request)
    requires p.draft in db.drafts && DraftChecks(db.drafts[p.draft]) && db.drafts[p.draft].project in db.ev.t.projects
    ensures var d := db.drafts[p.draft];
            E.ClaimAllowed(db.ev.t, E.Row(E.Updates, p.draft), PublicRow(d, p.now))
            <==> !d.verification.AwaitingVerification?
                 && (d.lastCheckedOn.Some? ==> d.lastCheckedOn.value <= E.LagosDay(p.now))
  {
  }

  /** Each copied citation passes the passage trigger, the references and the unique key, in any order. */
  lemma CopyIsAllowed(db: Db, p: Request, done: set<Id>, i: Id)
    requires Publishing(db, p) && done <= p.copies.Keys && i in p.copies && i !in done
    requires E.Row(E.Updates, i) !in db.ev.t.cites
    ensures E.Row(E.Updates, i) !in Partial(db, p, done).t.cites
    ensures E.CitationAllowed(Partial(db, p, done).t, E.Row(E.Updates, i), CopyOf(db.draftCites[p.copies[i]], p.now))
  {
    var t := Partial(db, p, done).t;
    var row, c := E.Row(E.Updates, i), CopyOf(db.draftCites[p.copies[i]], p.now);
    assert p.copies[i] in CitableCitations(db, p.draft);
    assert E.PassageMatches(db.ev.t, db.draftCites[p.copies[i]]);
    forall key | key in t.cites && key != row ensures !E.Clash(row, c, key, t.cites[key]) {
      if key in Copies(db, p, done) {
        assert p.copies[key.id] in CitableCitations(db, p.draft);
        assert p.copies[key.id] != p.copies[i];
        assert !SameLabel(db.draftCites[p.copies[key.id]], db.draftCites[p.copies[i]]);
      } else {
        assert E.CitationAllowed(db.ev.t, key, db.ev.t.cites[key]);
        assert E.ParentOf(key, db.ev.t.cites[key]) in db.ev.t.claims;
      }
    }
  }

  lemma CopiesGrow(db: Db, p: Request, done: set<Id>, i: Id)
    requires forall j :: j in done + {i} ==> j in p.copies && p.copies[j] in db.draftCites
    ensures Copies(db, p, done + {i})
        == Copies(db, p, done)[E.Row(E.Updates, i) := CopyOf(db.draftCites[p.copies[i]], p.now)]
  {
    var grown := Copies(db, p, done)[E.Row(E.Updates, i) := CopyOf(db.draftCites[p.copies[i]], p.now)];
    forall key ensures key in Copies(db, p, done + {i}) <==> key in grown {
    }
  }

  lemma PlusUpdate(a: map<E.Row, E.Citation>, b: map<E.Row, E.Citation>, row: E.Row, c: E.Citation)
    ensures a + b[row := c] == (a + b)[row := c]
  {
  }

  /** One INSERT of the copy takes one set of copies to the next. */
  lemma OneMoreCopy(db: Db, p: Request, done: set<Id>, i: Id)
    requires Publishing(db, p) && done <= p.copies.Keys && i in p.copies && i !in done
    requires E.Row(E.Updates, i) !in db.ev.t.cites
    ensures E.ExecInsertCitation(Partial(db, p, done), E.Row(E.Updates, i), CopyOf(db.draftCites[p.copies[i]], p.now))
            == Some(Partial(db, p, done + {i}))
  {
    CopyIsAllowed(db, p, done, i);
    CopiesGrow(db, p, done, i);
    PlusUpdate(db.ev.t.cites, Copies(db, p, done), E.Row(E.Updates, i), CopyOf(db.draftCites[p.copies[i]], p.now));
  }

  lemma NoCopiesYet(db: Db, p: Request)
    ensures db.ev.t.cites + Copies(db, p, {}) == db.ev.t.cites
  {
  }

  lemma FirstTheUpdate(db: Db, p: Request)
    requires p.draft in db.drafts && DraftChecks(db.drafts[p.draft]) && db.drafts[p.draft].project in db.ev.t.projects
    ensures var d := db.drafts[p.draft];
            var row := E.Row(E.Updates, p.draft);
            E.ExecInsertClaim(db.ev, row, PublicRow(d, p.now))
            == if row !in db.ev.t.claims && !d.verification.AwaitingVerification?
                  && (d.lastCheckedOn.Some? ==> d.lastCheckedOn.value <= E.LagosDay(p.now))
               then Some(Partial(db, p, {})) else None
  {
    RowIsAllowed(db, p);
    NoCopiesYet(db, p);
  }

  // ---- The function itself ----

  class PublicationDatabase {
    const evidence: E.Database
    const reports: R.ReportDatabase
    const reviewers: set<Id>
    var drafts: map<Id, UpdateDraft>
    var draftCites: map<Id, E.Citation>
    var committedDrafts: map<Id, UpdateDraft>
    var committedCites: map<Id, E.Citation>

    function View(): Db
      reads this, evidence, reports
    {
      Db(evidence.Work(), reports.Work(), drafts, draftCites, reviewers)
    }

    function Committed(): Db
      reads this, evidence, reports
    {
      Db(E.Txn(evidence.committed, {}), R.Txn(reports.committed, {}), committedDrafts, committedCites, reviewers)
    }

    constructor (evidence: E.Database, reports: R.ReportDatabase, reviewers: set<Id>)
      requires evidence.Fresh() && reports.Fresh()
      ensures this.evidence == evidence && this.reports == reports && this.reviewers == reviewers
      ensures View() == Committed() && drafts == map[] && draftCites == map[]
    {
      this.evidence, this.reports, this.reviewers := evidence, reports, reviewers;
      drafts, draftCites, committedDrafts, committedCites := map[], map[], map[], map[];
    }

    method RollBack()
      modifies this, evidence, reports
      ensures View() == Committed() == old(Committed())
    {
      evidence.RollBack();
      reports.RollBack();
      drafts, draftCites := committedDrafts, committedCites;
    }

    /** The checks made under the row locks, before anything is written. */
    method Decide(p: Request) returns (outcome: Outcome)
      requires DraftsIntact(View())
      ensures outcome == Decision(View(), p)
    {
      if !p.reviewer {
        return Raised;
      }
      if p.draft !in drafts {
        return NotFound;
      }
      var d := drafts[p.draft];
      var r := reports.reports[d.report];
      if !d.state.Draft? {
        outcome := NotDraft;
      } else if r.status != R.VerifiedForPublicUpdate {
        outcome := ReportState;
      } else if r.version != p.expectedVersion {
        outcome := Stale;
      } else if d.project != r.project {
        outcome := ProjectMismatch;
      } else if CitableCitations(View(), p.draft) == {} {
        outcome := NoCitation;
      } else {
        outcome := Done;
      }
    }

    /**
     `publish_public_update`: refusals leave everything alone, anything raised undoes the transaction, and
     otherwise exactly one update, its copied citations, the draft's mark and one audit entry are written.
     */
    method PublishUpdate(p: Request) returns (outcome: Outcome)
      requires DraftsIntact(View()) && OneIdEach(p.copies, CitableCitations(View(), p.draft))
      modifies this, evidence, reports
      ensures Committed() == old(Committed())
      ensures outcome == PublishOutcome(old(View()), p)
      ensures match outcome
              case Raised => View() == Committed()
              case Done => View() == AfterPublish(old(View()), p)
              case _ => View() == old(View())
    {
      outcome := Decide(p);
      if outcome == Done {
        var ok := Write(p);
        if !ok {
          outcome := Raised;
        }
      }
      if outcome == Raised {
        RollBack();
      }
    }

    /** Everything the function writes once it has decided to; not ok means that one of the writes raised. */
    method Write(p: Request) returns (ok: bool)
      requires DraftsIntact(View()) && p.draft in drafts && OneIdEach(p.copies, CitableCitations(View(), p.draft))
      modifies this, evidence, reports
      ensures Committed() == old(Committed())
      ensures ok == Writable(old(View()), p)
      ensures ok ==> View() == AfterPublish(old(View()), p)
    {
      ok := WriteUpdate(p);
      if ok {
        ok := MarkAndAudit(p);
      }
    }

    /** The public update, and then its citations. */
    method WriteUpdate(p: Request) returns (ok: bool)
      requires DraftsIntact(View()) && p.draft in drafts && OneIdEach(p.copies, CitableCitations(View(), p.draft))
      modifies evidence
      ensures evidence.committed == old(evidence.committed)
      ensures Writable(old(View()), p) ==> ok
      ensures ok && p.auditId !in old(View()).rep.t.audit && p.actor in reviewers ==> Writable(old(View()), p)
      ensures ok ==> evidence.Work() == AfterPublish(old(View()), p).ev
    {
      ghost var db := View();
      var d := drafts[p.draft];
      FirstTheUpdate(db, p);
      ok := evidence.AddClaim(E.Row(E.Updates, p.draft), PublicRow(d, p.now));
      if ok {
        ok := CopyCitations(db, p);
      }
    }

    method MarkAndAudit(p: Request) returns (ok: bool)
      requires p.draft in drafts
      modifies this, reports
      ensures reports.committed == old(reports.committed)
      ensures committedDrafts == old(committedDrafts) && committedCites == old(committedCites)
      ensures ok == (p.actor in reviewers && p.auditId !in old(reports.audit))
      ensures ok ==>
                && drafts == old(drafts)[p.draft := Marked(old(drafts)[p.draft], p)] && draftCites == old(draftCites)
                && reports.Work() == (var rep := old(reports.Work());
                                      rep.(t := rep.t.(audit := rep.t.audit[p.auditId := AuditEntry(p)])))
    {
      var d := drafts[p.draft];
      d := d.(state := Published, publishedBy := Some(p.actor), publishedAt := Some(p.now), updatedAt := p.now);
      drafts := drafts[p.draft := d];
      ok := p.actor in reviewers && p.auditId !in reports.audit;
      if ok {
        reports.audit := reports.audit[p.auditId := R.Audit(PUBLISHED, p.draft, p.now)];
      }
    }

    /** INSERT ... SELECT: the copies go in one by one, each through its own triggers. */
    method CopyCitations(ghost db: Db, p: Request) returns (ok: bool)
      requires Publishing(db, p) && evidence.Work() == Partial(db, p, {}) && draftCites == db.draftCites
      modifies evidence
      ensures evidence.committed == old(evidence.committed)
      ensures ok <==> forall i :: i in p.copies ==> E.Row(E.Updates, i) !in db.ev.t.cites
      ensures ok ==> evidence.Work() == Partial(db, p, p.copies.Keys)
    {
      ghost var done: set<Id> := {};
      var left := p.copies.Keys;
      while left != {}
        invariant done + left == p.copies.Keys && done !! left
        invariant forall i :: i in done ==> E.Row(E.Updates, i) !in db.ev.t.cites
        invariant evidence.Work() == Partial(db, p, done)
        invariant evidence.committed == old(evidence.committed)
        decreases left
      {
        var i :| i in left;
        ok := CopyOne(db, p, done, i);
        if !ok {
          return;
        }
        done, left := done + {i}, left - {i};
      }
      assert done == p.copies.Keys;
      ok := true;
    }

    method CopyOne(ghost db: Db, p: Request, ghost done: set<Id>, i: Id) returns (ok: bool)
      requires Publishing(db, p) && done <= p.copies.Keys && i in p.copies && i !in done
      requires evidence.Work() == Partial(db, p, done) && draftCites == db.draftCites
      modifies evidence
      ensures evidence.committed == old(evidence.committed)
      ensures ok <==> E.Row(E.Updates, i) !in db.ev.t.cites
      ensures ok ==> evidence.Work() == Partial(db, p, done + {i})
    {
      assert p.copies[i] in CitableCitations(db, p.draft);
      ok := evidence.WriteCitation(E.Row(E.Updates, i), CopyOf(draftCites[p.copies[i]], p.now));
      if E.Row(E.Updates, i) !in db.ev.t.cites {
        OneMoreCopy(db, p, done, i);
      }
    }
  }
}
