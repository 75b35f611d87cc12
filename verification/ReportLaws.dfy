/**
 What transactions on reports come to, said in terms of the tables alone: who may answer, what an answer
 writes, and which status moves commit.
 */
module ReportLaws {
  import opened Wrappers
  import opened Reports
  import opened FollowUps

  const EMPTY := Tables(map[], map[], map[], map[], map[], map[])

  /** Later by time, and by id at the same time, than every event of the report. */
  predicate IsLatest(t: Tables, report: Id, at: int, e: Id) {
    forall f :: f in t.events && t.events[f].report == report ==> t.events[f].at < at || (t.events[f].at == at && f < e)
  }

  /** The report has an event with its status, and every other event of it is earlier. */
  predicate StatusIsLatest(t: Tables, report: Id)
    requires report in t.reports
  {
    exists e :: e in t.events && t.events[e].report == report && t.events[e].next == t.reports[report].status
                && LaterThanOthers(t, e)
  }

  predicate LaterThanOthers(t: Tables, e: Id)
    requires e in t.events
  {
    forall f :: f in t.events && f != e && t.events[f].report == t.events[e].report ==>
                  t.events[f].at < t.events[e].at || (t.events[f].at == t.events[e].at && f < e)
  }

  ghost predicate AllLatest(t: Tables) {
    && (forall report :: report in t.reports ==> StatusIsLatest(t, report))
    && (forall e :: e in t.events ==> t.events[e].report in t.reports)
  }

  lemma PassesIffLatest(t: Tables, report: Id)
    requires report in t.reports
    ensures Passes(t, report) <==> StatusIsLatest(t, report)
  {
    forall e | e in t.events && t.events[e].report == report
      ensures IsNewest(t, report, e) <==> LaterThanOthers(t, e)
    {
    }
  }

  lemma ProjectedIffLatest(t: Tables)
    ensures Projected(t) <==> AllLatest(t)
  {
    forall report | report in t.reports ensures Passes(t, report) <==> StatusIsLatest(t, report) {
      PassesIffLatest(t, report);
    }
    if AllLatest(t) {
      assert forall r :: r !in t.reports ==> !HasEvents(t, r);
    }
    if Projected(t) {
      forall e | e in t.events ensures t.events[e].report in t.reports {
        assert Passes(t, t.events[e].report);
        assert HasEvents(t, t.events[e].report);
      }
    }
  }

  /** In every state of every run from the empty tables each report's status is that of its latest event. */
  lemma EveryStatusIsLatest(transactions: seq<seq<Statement>>)
    ensures AllLatest(Serial(EMPTY, transactions)) && Projected(Serial(EMPTY, transactions))
  {
    assert Projected(EMPTY) by {
      ProjectedIffLatest(EMPTY);
    }
    EveryStateIsProjected(EMPTY, transactions);
    ProjectedIffLatest(Serial(EMPTY, transactions));
  }

  // ---- Status moves ----

  predicate IsMove(was: Status, next: Status) {
    (was, next) in {
      (Received, Closed), (Received, NeedsInformation), (Received, UnderReview),
      (NeedsInformation, Closed), (NeedsInformation, UnderReview),
      (UnderReview, Closed), (UnderReview, NeedsInformation), (UnderReview, Referred),
      (UnderReview, VerifiedForPublicUpdate),
      (VerifiedForPublicUpdate, Closed), (VerifiedForPublicUpdate, Referred), (VerifiedForPublicUpdate, UnderReview),
      (Referred, Closed), (Referred, UnderReview), (Closed, UnderReview)}
  }

  lemma IsMoveIsLegal(was: Status, next: Status)
    ensures IsMove(was, next) <==> Legal(Some(was), next)
  {
  }

  lemma TwoStatements(x: Txn, a: Statement, b: Statement)
    ensures ExecAll(x, [a, b]) == match Exec(x, a) case None => None case Some(y) => Exec(y, b)
  {
    assert [a, b][1..] == [b];
    if Exec(x, a).Some? {
      OneStatement(Exec(x, a).value, b);
    }
  }

  lemma OneMoreEvent(t: Tables, t': Tables, id: Id, e: Id, event: StatusEvent)
    requires Passes(t, id) && id in t.reports && id in t'.reports && e !in t.events
    requires event.report == id && t'.events == t.events[e := event] && t'.reports[id].status == event.next
    requires t.reports[id].status != event.next
    ensures Passes(t', id) <==> IsLatest(t, id, event.at, e)
  {
    if IsLatest(t, id, event.at, e) {
      assert IsNewest(t', id, e);
    } else {
      var n :| n in t.events && IsNewest(t, id, n) && t.events[n].next == t.reports[id].status;
      assert !Before(t.events[n].at, n, event.at, e);
      StillNewest(t, t', id, n, e, event);
      forall m | m in t'.events && IsNewest(t', id, m) ensures m == n {
        NewestIsUnique(t', id, n, m);
      }
    }
  }

  /** The statements of a status move run through when its event's id is free and the move is legal. */
  lemma MoveExec(t: Tables, id: Id, e: Id, next: Status, at: int)
    requires id in t.reports
    ensures var was := t.reports[id];
            var event := StatusEvent(id, Some(was.status), next, at);
            var update := UpdateReport(id, was.(status := next, statusUpdatedAt := at), true);
            ExecAll(Txn(t, {}), [InsertEvent(e, event), update])
            == if e in t.events || !IsMove(was.status, next) then None
               else Some(Txn(Moved(t, id, e, next, at), {id}))
  {
    var was := t.reports[id];
    var event := StatusEvent(id, Some(was.status), next, at);
    var update := UpdateReport(id, was.(status := next, statusUpdatedAt := at), true);
    TwoStatements(Txn(t, {}), InsertEvent(e, event), update);
    IsMoveIsLegal(was.status, next);
    if e !in t.events && IsMove(was.status, next) {
      var y := Txn(t.(events := t.events[e := event]), {id});
      assert Txn(t, {}).touched + {id} == {id};
      assert Exec(Txn(t, {}), InsertEvent(e, event)) == Some(y);
      assert {id} + {id} == {id};
    }
  }

  function Moved(t: Tables, id: Id, e: Id, next: Status, at: int): Tables
    requires id in t.reports
  {
    var was := t.reports[id];
    t.(events := t.events[e := StatusEvent(id, Some(was.status), next, at)],
       reports := t.reports[id := was.(status := next, statusUpdatedAt := at, version := was.version + 1)])
  }

  /**
   A status move with its event commits if and only if it is one of the fifteen and its event is the latest; the
   version rises by one.
   */
  lemma StatusMovesIff(t: Tables, id: Id, e: Id, next: Status, at: int)
    requires Projected(t) && id in t.reports
    ensures var was := t.reports[id];
            var event := StatusEvent(id, Some(was.status), next, at);
            Transact(t, [InsertEvent(e, event), UpdateReport(id, was.(status := next, statusUpdatedAt := at), true)])
            == if e !in t.events && IsMove(was.status, next) && IsLatest(t, id, at, e)
               then Moved(t, id, e, next, at) else t
  {
    var was := t.reports[id];
    var event := StatusEvent(id, Some(was.status), next, at);
    MoveExec(t, id, e, next, at);
    if e !in t.events && IsMove(was.status, next) {
      var x := Txn(Moved(t, id, e, next, at), {id});
      assert Passes(t, id);
      assert was.status != next;
      OneMoreEvent(t, x.t, id, e, event);
      assert CommitPasses(x) <==> Passes(x.t, id);
    }
  }

  /**
   An UPDATE that does not name the status keeps it, and raises the version by one if and only if the risk
   changes.
   */
  lemma RiskRaisesTheVersion(t: Tables, id: Id, report: Report)
    requires id in t.reports
    ensures var was := t.reports[id];
            var version := was.version + if report.risk != was.risk then 1 else 0;
            Transact(t, [UpdateReport(id, report, false)])
            == t.(reports := t.reports[id := report.(status := was.status, version := version)])
  {
    OneStatement(Txn(t, {}), UpdateReport(id, report, false));
  }

  // ---- Answers ----

  /** The caller holds the report: by its handle, or by one of at most eight digests that is its tracking key. */
  predicate Holds(t: Tables, a: Submission, report: Id)
    requires report in t.reports
  {
    && |a.digests| <= 8
    && ((a.handle.Some? && t.reports[report].handle == Some(a.handle.value))
        || exists i :: 0 <= i < |a.digests| && a.digests[i] in t.tracking && t.tracking[a.digests[i]] == report)
  }

  /** The question is there, not withdrawn, not answered, and the caller holds its report. */
  predicate MayAnswer(t: Tables, a: Submission) {
    && a.question in t.questions && !t.questions[a.question].withdrawn && a.question !in t.answers
    && t.questions[a.question].report in t.reports && Holds(t, a, t.questions[a.question].report)
  }

  /** The report waits for information, and every other question of it that is not withdrawn has its answer. */
  predicate IsLast(t: Tables, a: Submission)
    requires a.question in t.questions && t.questions[a.question].report in t.reports
  {
    var report := t.questions[a.question].report;
    && t.reports[report].status == NeedsInformation
    && forall q :: q in t.questions && t.questions[q].report == report && !t.questions[q].withdrawn ==>
                     q == a.question || q in t.answers
  }

  /** The content fits its kind, and the ids and the time are good for what is written. */
  predicate InOrder(t: Tables, a: Submission)
    requires a.question in t.questions && t.questions[a.question].report in t.reports
  {
    && (if a.kind == Answered then a.ciphertext.Some? && a.key.Some? && 29 <= |a.ciphertext.value| <= 16384
        else a.ciphertext.None? && a.key.None?)
    && (forall q :: q in t.answers ==> t.answers[q].id != a.answerId)
    && a.auditId !in t.audit
    && (IsLast(t, a) ==> a.eventId !in t.events && IsLatest(t, t.questions[a.question].report, a.now, a.eventId))
  }

  function WithAnswer(t: Tables, a: Submission): Tables
    requires a.question in t.questions && t.questions[a.question].report in t.reports
  {
    var report := t.questions[a.question].report;
    var was := t.reports[report];
    var t1 := t.(answers := t.answers[a.question := Answer(a.answerId, report, a.kind, a.ciphertext, a.key)],
                 audit := t.audit[a.auditId := Audit("report_follow_up_received", report, a.now)]);
    if !IsLast(t, a) then t1
    else
      var resumed := was.(status := UnderReview, statusUpdatedAt := a.now, version := was.version + 1);
      t1.(events := t.events[a.eventId := StatusEvent(report, Some(NeedsInformation), UnderReview, a.now)],
          reports := t.reports[report := resumed])
  }

  lemma MayAnswerIsOwned(t: Tables, a: Submission)
    ensures MayAnswer(t, a) <==> Owned(t, a) && a.question !in t.answers
  {
    if Owned(t, a) {
      var report := t.questions[a.question].report;
      if k :| k in t.tracking && t.tracking[k] == report && k in a.digests {
        var i :| 0 <= i < |a.digests| && a.digests[i] == k;
      }
    }
  }

  lemma LastIsOnlyOpen(t: Tables, a: Submission)
    requires MayAnswer(t, a)
    ensures var report := t.questions[a.question].report;
            IsLast(t, a) <==> t.reports[report].status == NeedsInformation && OpenQuestions(t, report) == {a.question}
  {
    var report := t.questions[a.question].report;
    assert a.question in OpenQuestions(t, report);
    forall q | q in t.questions && t.questions[q].report == report && !t.questions[q].withdrawn && q !in t.answers
      ensures q in OpenQuestions(t, report)
    {
    }
  }

  lemma NotLast(t: Tables, a: Submission)
    requires MayAnswer(t, a) && !IsLast(t, a)
    ensures Submitted(t, a) == if InOrder(t, a) then WithAnswer(t, a) else t
  {
    SubmittedIs(t, a);
    MayAnswerIsOwned(t, a);
    LastIsOnlyOpen(t, a);
    var report := t.questions[a.question].report;
    var answer := NewAnswer(a, report);
    var answered := t.(answers := t.answers[a.question := answer]);
    AnsweringCloses(t, answered, report, a.question, answer);
    assert a.question in OpenQuestions(t, report);
    assert OpenQuestions(answered, report) == {} <==> OpenQuestions(t, report) == {a.question};
  }

  predicate NothingTaken(t: Tables, a: Submission) {
    && AnswerChecks(a) && (forall q :: q in t.answers ==> t.answers[q].id != a.answerId)
    && a.auditId !in t.audit && a.eventId !in t.events
  }

  lemma LastExec(t: Tables, a: Submission)
    requires MayAnswer(t, a) && IsLast(t, a)
    ensures ExecSubmit(Txn(t, {}), a)
            == if NothingTaken(t, a) then Replied(Txn(WithAnswer(t, a), {t.questions[a.question].report}), true)
               else Raised
  {
    assert Owned(t, a) by {
      MayAnswerIsOwned(t, a);
    }
    var report := t.questions[a.question].report;
    var answered := t.(answers := t.answers[a.question := NewAnswer(a, report)]);
    assert OpenQuestions(answered, report) == {} by {
      LastIsOnlyOpen(t, a);
      AnsweringCloses(t, answered, report, a.question, NewAnswer(a, report));
    }
  }

  lemma LastAnswer(t: Tables, a: Submission)
    requires Projected(t) && MayAnswer(t, a) && IsLast(t, a)
    ensures Submitted(t, a) == if InOrder(t, a) then WithAnswer(t, a) else t
  {
    SubmittedIs(t, a);
    LastExec(t, a);
    var report := t.questions[a.question].report;
    if NothingTaken(t, a) {
      var x := Txn(WithAnswer(t, a), {report});
      assert Passes(t, report);
      OneMoreEvent(t, x.t, report, a.eventId, ResumeEvent(a, report));
      assert CommitPasses(x) <==> Passes(x.t, report);
    }
  }

  /**
   In every state, an answer is stored if and only if its question is open, the caller holds the very report of
   that question, and content, ids and time are in order; what is stored then is exactly this, and the report
   resumes review if and only if that was its last open question.
   */
  lemma AnswerIsStoredIff(t: Tables, a: Submission)
    requires Projected(t)
    ensures Transact(t, [Submit(a)]) == if MayAnswer(t, a) && InOrder(t, a) then WithAnswer(t, a) else t
  {
    MayAnswerIsOwned(t, a);
    if !MayAnswer(t, a) {
      MissesChangeNothing(t, a);
    } else if IsLast(t, a) {
      LastAnswer(t, a);
    } else {
      NotLast(t, a);
    }
  }

  /** A caller whose handle and digests are of other reports changes nothing. */
  lemma StrangersChangeNothing(t: Tables, a: Submission)
    requires Projected(t) && a.question in t.questions
    requires var report := t.questions[a.question].report;
             && (a.handle.Some? && report in t.reports ==> t.reports[report].handle != a.handle)
             && forall k :: k in a.digests && k in t.tracking ==> t.tracking[k] != report
    ensures Transact(t, [Submit(a)]) == t
  {
    AnswerIsStoredIff(t, a);
  }
}
