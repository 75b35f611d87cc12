/**
 What a publish and the other steps on drafts come to, said in terms of the tables alone: when a publish goes
 through, what it writes, and what each refusal means.
 */
module PublicationLaws {
  import opened Wrappers
  import E = Evidence
  import Laws = EvidenceLaws
  import R = Reports
  import opened Publication
  import opened PublicationRuns

  /** The draft's citations of approved or superseded versions. */
  function Selected(db: Db, draft: Id): set<Id> {
    set k | k in db.draftCites && db.draftCites[k].parent == draft && Selectable(db, db.draftCites[k].version)
  }

  predicate Selectable(db: Db, version: Id) {
    && version in db.ev.t.versions
    && (db.ev.t.versions[version].state == E.Approved || db.ev.t.versions[version].state == E.Superseded)
  }

  lemma SelectedAreCitable(db: Db, draft: Id)
    ensures CitableCitations(db, draft) == Selected(db, draft)
  {
  }

  // ---- Publishing ----

  /** The six conditions under which there is an answer other than a refusal, in the order they are asked. */
  predicate Holds(db: Db, p: Request, k: nat) {
    match k
    case 0 => p.draft in db.drafts
    case 1 => p.draft in db.drafts && db.drafts[p.draft].state == Draft
    case 2 => HasReport(db, p) && ReportOf(db, p).status == R.VerifiedForPublicUpdate
    case 3 => HasReport(db, p) && ReportOf(db, p).version == p.expectedVersion
    case 4 => HasReport(db, p) && ReportOf(db, p).project == db.drafts[p.draft].project
    case 5 => Selected(db, p.draft) != {}
    case _ => true
  }

  predicate HasReport(db: Db, p: Request) {
    p.draft in db.drafts && db.drafts[p.draft].report in db.rep.t.reports
  }

  function ReportOf(db: Db, p: Request): R.Report
    requires HasReport(db, p)
  {
    db.rep.t.reports[db.drafts[p.draft].report]
  }

  const REFUSALS: seq<Outcome> := [NotFound, NotDraft, ReportState, Stale, ProjectMismatch, NoCitation]

  predicate FirstFails(db: Db, p: Request, k: nat) {
    p.reviewer && !Holds(db, p, k) && forall j: nat :: j < k ==> Holds(db, p, j)
  }

  /** Each refusal is given exactly when its own condition is the first that fails. */
  lemma RefusalsNameTheFirstFailure(db: Db, p: Request, k: nat)
    requires DraftsIntact(db) && k < 6
    ensures PublishOutcome(db, p) == REFUSALS[k] <==> FirstFails(db, p, k)
  {
    SelectedAreCitable(db, p.draft);
    assert Holds(db, p, 0) ==> HasReport(db, p);
    if FirstFails(db, p, k) {
      assert forall j: nat :: j < k ==> Holds(db, p, j);
      assert 0 < k ==> Holds(db, p, 0);
      assert 1 < k ==> Holds(db, p, 1);
      assert 2 < k ==> Holds(db, p, 2);
      assert 3 < k ==> Holds(db, p, 3);
      assert 4 < k ==> Holds(db, p, 4);
    }
  }

  /** What the writes need beyond that. */
  predicate RoomToWrite(db: Db, p: Request)
    requires p.draft in db.drafts
  {
    var d := db.drafts[p.draft];
    && E.Row(E.Updates, p.draft) !in db.ev.t.claims
    && d.verification != E.AwaitingVerification
    && (d.lastCheckedOn.Some? ==> d.lastCheckedOn.value <= (p.now + 3_600_000_000) / 86_400_000_000)
    && (forall i :: i in p.copies ==> E.Row(E.Updates, i) !in db.ev.t.cites)
    && p.auditId !in db.rep.t.audit && p.actor in db.reviewers
  }

  predicate MayPublish(db: Db, p: Request) {
    && p.reviewer && Holds(db, p, 0) && Holds(db, p, 1) && Holds(db, p, 2) && Holds(db, p, 3) && Holds(db, p, 4)
    && Holds(db, p, 5) && RoomToWrite(db, p)
  }

  /** The public citation that stands for a draft's. */
  function PublicCopy(c: E.Citation, p: Request): E.Citation {
    E.Citation(p.draft, c.version, c.passage, c.location, c.start, p.now)
  }

  function NewCitations(db: Db, p: Request): map<E.Row, E.Citation>
    requires OneIdEach(p.copies, Selected(db, p.draft))
  {
    map key | key in (set i | i in p.copies :: E.Row(E.Updates, i)) :: PublicCopy(db.draftCites[p.copies[key.id]], p)
  }

  function NewUpdate(d: UpdateDraft, now: int): E.Claim {
    E.Claim(d.project, d.statement, Some(d.effectiveOn), d.lastCheckedOn, d.verification, true, Some(now), now, now)
  }

  /** The database with the update published: the row, its citations, the mark on the draft, one audit entry. */
  function WithUpdate(db: Db, p: Request): Db
    requires p.draft in db.drafts && OneIdEach(p.copies, Selected(db, p.draft))
  {
    var d, t, audit := db.drafts[p.draft], db.ev.t, db.rep.t.audit;
    var marked := UpdateDraft(
      d.report, d.project, d.statement, d.effectiveOn, d.lastCheckedOn, d.verification, Published, d.authoredBy,
      d.createdAt, p.now, Some(p.actor), Some(p.now));
    var claims := t.claims[E.Row(E.Updates, p.draft) := NewUpdate(d, p.now)];
    Db(E.Txn(t.(claims := claims, cites := t.cites + NewCitations(db, p)), {}),
       R.Txn(db.rep.t.(audit := audit[p.auditId := R.Audit("public_update_published", p.draft, p.now)]), {}),
       db.drafts[p.draft := marked], db.draftCites, db.reviewers)
  }

  lemma CopiesAreNew(db: Db, p: Request)
    requires OneIdEach(p.copies, Selected(db, p.draft))
    ensures Selected(db, p.draft) == CitableCitations(db, p.draft)
    ensures NewCitations(db, p) == Copies(db, p, p.copies.Keys)
  {
    SelectedAreCitable(db, p.draft);
    forall i | i in p.copies
      ensures PublicCopy(db.draftCites[p.copies[i]], p) == CopyOf(db.draftCites[p.copies[i]], p.now)
    {
      assert p.copies[i] in Selected(db, p.draft);
    }
  }

  lemma AfterIsWithUpdate(db: Db, p: Request)
    requires p.draft in db.drafts && OneIdEach(p.copies, Selected(db, p.draft))
    ensures Selected(db, p.draft) == CitableCitations(db, p.draft)
    ensures Settled(AfterPublish(db, p)) == WithUpdate(db, p)
  {
    CopiesAreNew(db, p);
    AfterPublishParts(db, p);
    AfterPublishMarks(db, p);
  }

  lemma DoneIffMayPublish(db: Db, p: Request)
    requires DraftsIntact(db)
    ensures PublishOutcome(db, p) == Done <==> MayPublish(db, p)
  {
    SelectedAreCitable(db, p.draft);
    assert Holds(db, p, 0) ==> HasReport(db, p);
  }

  /**
   A publish goes through if and only if a reviewer asks for it, the draft is there and still a draft, its
   report is verified, at the expected version and of the same project, some citation is approved or superseded,
   and there is room to write; then it writes exactly the rows above, and otherwise nothing changes.
   */
  lemma PublishesIff(db: Db, p: Request)
    requires DraftsIntact(db) && db == Settled(db) && OneIdEach(p.copies, Selected(db, p.draft))
    ensures Transact(db, [Publish(p)]) == if MayPublish(db, p) then WithUpdate(db, p) else db
  {
    SelectedAreCitable(db, p.draft);
    PublishIsAllOrNothing(db, p);
    DoneIffMayPublish(db, p);
    if MayPublish(db, p) {
      AfterIsWithUpdate(db, p);
    }
  }

  // ---- The other steps on drafts ----

  lemma QuietStep(db: Db, s: Step)
    requires db == Settled(db) && Exec(db, s).Some? ==> Exec(db, s).value.ev == db.ev && Exec(db, s).value.rep == db.rep
    requires db == Settled(db)
    ensures Transact(db, [s]) == if Exec(db, s).Some? then Exec(db, s).value else db
  {
    OneStep(db, s);
  }

  /**
   A draft is withdrawn if and only if it is still a draft, and no UPDATE of a reviewer marks it published or a
   draft again.
   */
  lemma StateIsSetIff(db: Db, id: Id, state: DraftState, updatedAt: int)
    requires DraftsIntact(db) && db == Settled(db) && id in db.drafts
    ensures Transact(db, [SetDraftState(id, state, updatedAt)])
            == if db.drafts[id].state == Draft && state == Withdrawn
               then db.(drafts := db.drafts[id := db.drafts[id].(state := Withdrawn, updatedAt := updatedAt)]) else db
  {
    assert DraftChecks(db.drafts[id]);
    QuietStep(db, SetDraftState(id, state, updatedAt));
  }

  /** A draft goes in if and only if its id is free, its text is in bounds and what it refers to is there. */
  lemma DraftGoesInIff(db: Db, id: Id, d: UpdateDraft)
    requires db == Settled(db) && d.state == Draft
    ensures Transact(db, [InsertDraft(id, d)])
            == if && id !in db.drafts && 10 <= |d.statement| <= 2000 && d.publishedAt.None?
                  && d.report in db.rep.t.reports && d.project in db.ev.t.projects
                  && (d.authoredBy.Some? ==> d.authoredBy.value in db.reviewers)
               then db.(drafts := db.drafts[id := d]) else db
  {
    QuietStep(db, InsertDraft(id, d));
  }

  /**
   A draft citation goes in if and only if it quotes its version exactly, its draft is there and its label is not
   taken.
   */
  lemma DraftCitationGoesInIff(db: Db, id: Id, c: E.Citation)
    requires db == Settled(db)
    ensures Transact(db, [InsertDraftCitation(id, c)])
            == if && id !in db.draftCites && c.parent in db.drafts
                  && c.version in db.ev.t.versions
                  && Laws.StandsAt(db.ev.t.versions[c.version].text, c.passage, c.start)
                  && 1 <= |c.passage| <= 1000 && 1 <= |c.location| <= 200
                  && (forall k :: k in db.draftCites ==> !Laws.SameLabel(db.draftCites[k], c))
               then db.(draftCites := db.draftCites[id := c]) else db
  {
    QuietStep(db, InsertDraftCitation(id, c));
    if c.version in db.ev.t.versions && c.start >= 0 && |c.passage| >= 1 {
      Laws.StandsIffSubstr(db.ev.t.versions[c.version].text, c.passage, c.start);
    }
    assert DraftLabelTaken(db, c) <==> exists k :: k in db.draftCites && Laws.SameLabel(db.draftCites[k], c);
  }
}
