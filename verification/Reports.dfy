/**
 Private reports: an append-only history of status events, a current status that must equal the newest
 event at commit, a version that a trigger raises, and follow-up answers that resume a review.
 */
module Reports {
  import opened Wrappers

  type Id = nat

  datatype Status = Received | NeedsInformation | UnderReview | VerifiedForPublicUpdate | Referred | Closed
  datatype Risk = Standard | Elevated | High

  /** The legal (previous, new) pairs of `ck_report_status_events_transition`. */
  predicate Legal(previous: Option<Status>, next: Status) {
    match previous
    case None => next.Received?
    case Some(Received) => next.Closed? || next.NeedsInformation? || next.UnderReview?
    case Some(NeedsInformation) => next.Closed? || next.UnderReview?
    case Some(UnderReview) => next.Closed? || next.NeedsInformation? || next.Referred? || next.VerifiedForPublicUpdate?
    case Some(VerifiedForPublicUpdate) => next.Closed? || next.Referred? || next.UnderReview?
    case Some(Referred) => next.Closed? || next.UnderReview?
    case Some(Closed) => next.UnderReview?
  }

  datatype Report = Report(project: Id, risk: Risk, status: Status, statusUpdatedAt: int, version: int,
                           handle: Option<Id>)
  datatype StatusEvent = StatusEvent(report: Id, previous: Option<Status>, next: Status, at: int)
  datatype Question = Question(report: Id, withdrawn: bool)
  datatype Kind = Answered | Skipped | Unsafe
  datatype Answer = Answer(id: Id, report: Id, kind: Kind, ciphertext: Option<string>, key: Option<Id>)
  datatype Audit = Audit(event: string, subject: Id, at: int)

  /** Answers are keyed by their question, which is unique; tracking keys by their digest. */
  datatype Tables = Tables(
    reports: map<Id, Report>,
    events: map<Id, StatusEvent>,
    questions: map<Id, Question>,
    answers: map<Id, Answer>,
    tracking: map<Id, Id>,
    audit: map<Id, Audit>)

  /** Reports whose status must be checked at commit. */
  datatype Txn = Txn(t: Tables, touched: set<Id>)

  // ---- The newest event ----

  predicate Before(atA: int, idA: Id, atB: int, idB: Id) {
    atA < atB || (atA == atB && idA < idB)
  }

  predicate IsNewest(t: Tables, report: Id, e: Id) {
    && e in t.events && t.events[e].report == report
    && forall f :: f in t.events && t.events[f].report == report && f != e ==>
        Before(t.events[f].at, f, t.events[e].at, e)
  }

  predicate HasEvents(t: Tables, report: Id) {
    exists e :: e in t.events && t.events[e].report == report
  }

  /** The newest event's status and the current status, either of them missing, are not distinct. */
  predicate Passes(t: Tables, report: Id) {
    if report in t.reports
    then exists e :: e in t.events && IsNewest(t, report, e) && t.events[e].next == t.reports[report].status
    else !HasEvents(t, report)
  }

  predicate CommitPasses(x: Txn) {
    forall r :: r in x.touched ==> Passes(x.t, r)
  }

  // ---- Statements ----

  datatype Statement =
    | InsertReport(id: Id, report: Report)
    | UpdateReport(id: Id, report: Report, namesStatus: bool)
    | DeleteReport(id: Id)
    | InsertEvent(id: Id, event: StatusEvent)
    | ChangeEvent(id: Id)
    | InsertQuestion(id: Id, question: Question)
    | WithdrawQuestion(id: Id)
    | InsertTracking(digest: Id, owner: Id)
    | InsertAudit(id: Id, entry: Audit)
    | Submit(a: Submission)

  datatype Submission = Submission(
    question: Id, digests: seq<Id>, handle: Option<Id>, answerId: Id, kind: Kind,
    ciphertext: Option<string>, key: Option<Id>, now: int, eventId: Id, auditId: Id)

  /** `bump_report_version`: the version written is the trigger's, whatever the statement says. */
  function Bumped(was: Report, next: Report): Report {
    next.(version := if next.status != was.status || next.risk != was.risk then was.version + 1 else was.version)
  }

  function ExecUpdateReport(x: Txn, id: Id, report: Report, namesStatus: bool): Option<Txn> {
    if id !in x.t.reports then Some(x)
    else
      var was := x.t.reports[id];
      var next := Bumped(was, if namesStatus then report else report.(status := was.status));
      Some(Txn(x.t.(reports := x.t.reports[id := next]), x.touched + if namesStatus then {id} else {}))
  }

  function ExecInsertEvent(x: Txn, id: Id, e: StatusEvent): Option<Txn> {
    if id in x.t.events || e.report !in x.t.reports || !Legal(e.previous, e.next) then None
    else Some(Txn(x.t.(events := x.t.events[id := e]), x.touched + {e.report}))
  }

  function QuestionsOf(t: Tables, report: Id): set<Id> {
    set q | q in t.questions && t.questions[q].report == report
  }

  function TrackingOf(t: Tables, report: Id): set<Id> {
    set k | k in t.tracking && t.tracking[k] == report
  }

  /** The cascade reaches the status events, and their trigger refuses to let one go. */
  function ExecDeleteReport(x: Txn, id: Id): Option<Txn> {
    if id !in x.t.reports then Some(x)
    else if HasEvents(x.t, id) then None
    else Some(x.(t := x.t.(reports := x.t.reports - {id}, questions := x.t.questions - QuestionsOf(x.t, id),
                           answers := x.t.answers - QuestionsOf(x.t, id),
                           tracking := x.t.tracking - TrackingOf(x.t, id))))
  }

  // ---- follow_up_submit ----

  /** The caller's credential resolves to the report of an open, unwithdrawn question. */
  predicate Owned(t: Tables, a: Submission) {
    && a.question in t.questions && !t.questions[a.question].withdrawn
    && t.questions[a.question].report in t.reports
    && |a.digests| <= 8
    && ((a.handle.Some? && t.reports[t.questions[a.question].report].handle == a.handle)
        || exists k :: k in t.tracking && t.tracking[k] == t.questions[a.question].report && k in a.digests)
  }

  predicate AnswerChecks(a: Submission) {
    if a.kind.Answered?
    then a.ciphertext.Some? && a.key.Some? && 29 <= |a.ciphertext.value| <= 16384
    else a.ciphertext.None? && a.key.None?
  }

  predicate AnswerIdTaken(t: Tables, id: Id) {
    exists q :: q in t.answers && t.answers[q].id == id
  }

  predicate IsOpen(t: Tables, q: Id) {
    q in t.questions && !t.questions[q].withdrawn && q !in t.answers
  }

  /** The questions of a report that wait for an answer. */
  function OpenQuestions(t: Tables, report: Id): set<Id> {
    set q | q in t.questions && t.questions[q].report == report && IsOpen(t, q)
  }

  function NewAnswer(a: Submission, report: Id): Answer {
    Answer(a.answerId, report, a.kind, a.ciphertext, a.key)
  }

  function ResumeEvent(a: Submission, report: Id): StatusEvent {
    StatusEvent(report, Some(NeedsInformation), UnderReview, a.now)
  }

  datatype Reply = Raised | Replied(x: Txn, stored: bool)

  /** When the last open question is answered, the event is written and the report resumes review. */
  function Resume(x: Txn, a: Submission, report: Id): Option<Txn>
    requires report in x.t.reports
  {
    if x.t.reports[report].status != NeedsInformation || OpenQuestions(x.t, report) != {} then Some(x)
    else
      match ExecInsertEvent(x, a.eventId, ResumeEvent(a, report))
      case None => None
      case Some(y) =>
        ExecUpdateReport(y, report, y.t.reports[report].(status := UnderReview, statusUpdatedAt := a.now), true)
  }

  function ExecSubmit(x: Txn, a: Submission): Reply {
    if !Owned(x.t, a) then Replied(x, false)
    else if !AnswerChecks(a) then Raised
    else if a.question in x.t.answers then Replied(x, false)
    else if AnswerIdTaken(x.t, a.answerId) then Raised
    else
      var report := x.t.questions[a.question].report;
      var answered := x.(t := x.t.(answers := x.t.answers[a.question := NewAnswer(a, report)]));
      match Resume(answered, a, report)
      case None => Raised
      case Some(y) =>
        if a.auditId in y.t.audit then Raised
        else
          var entry := Audit("report_follow_up_received", report, a.now);
          Replied(y.(t := y.t.(audit := y.t.audit[a.auditId := entry])), true)
  }

  function Exec(x: Txn, s: Statement): Option<Txn> {
    match s
    case InsertReport(id, report) =>
      if id in x.t.reports || report.version < 1 then None
      else Some(Txn(x.t.(reports := x.t.reports[id := report]), x.touched + {id}))
    case UpdateReport(id, report, namesStatus) => ExecUpdateReport(x, id, report, namesStatus)
    case DeleteReport(id) => ExecDeleteReport(x, id)
    case InsertEvent(id, e) => ExecInsertEvent(x, id, e)
    case ChangeEvent(id) => if id in x.t.events then None else Some(x)
    case InsertQuestion(id, q) =>
      if id in x.t.questions || q.report !in x.t.reports then None
      else Some(x.(t := x.t.(questions := x.t.questions[id := q])))
    case WithdrawQuestion(id) =>
      if id !in x.t.questions then Some(x)
      else Some(x.(t := x.t.(questions := x.t.questions[id := x.t.questions[id].(withdrawn := true)])))
    case InsertTracking(digest, report) =>
      if digest in x.t.tracking || TrackingOf(x.t, report) != {} || report !in x.t.reports then None
      else Some(x.(t := x.t.(tracking := x.t.tracking[digest := report])))
    case InsertAudit(id, entry) =>
      if id in x.t.audit then None else Some(x.(t := x.t.(audit := x.t.audit[id := entry])))
    case Submit(a) =>
      match ExecSubmit(x, a)
      case Raised => None
      case Replied(y, _) => Some(y)
  }

  function ExecAll(x: Txn, statements: seq<Statement>): Option<Txn>
    decreases |statements|
  {
    if statements == [] then Some(x)
    else match Exec(x, statements[0])
         case None => None
         case Some(x') => ExecAll(x', statements[1..])
  }

  function Transact(t: Tables, statements: seq<Statement>): Tables {
    match ExecAll(Txn(t, {}), statements)
    case Some(x) => if CommitPasses(x) then x.t else t
    case None => t
  }

  lemma OneStatement(x: Txn, s: Statement)
    ensures ExecAll(x, [s]) == Exec(x, s)
  {
    assert [s][1..] == [];
  }

  /** A list of statements may be cut anywhere. */
  lemma {:induction false} ExecAllSplits(x: Txn, a: seq<Statement>, b: seq<Statement>)
    requires ExecAll(x, a).Some?
    ensures ExecAll(x, a + b) == ExecAll(ExecAll(x, a).value, b)
    decreases |a|
  {
    if a == [] {
      assert a + b == b;
    } else {
      assert (a + b)[1..] == a[1..] + b;
      ExecAllSplits(Exec(x, a[0]).value, a[1..], b);
    }
  }

  function Serial(t: Tables, transactions: seq<seq<Statement>>): Tables
    decreases |transactions|
  {
    if transactions == [] then t else Serial(Transact(t, transactions[0]), transactions[1..])
  }

  // ---- The status is the newest event ----

  ghost predicate Projected(t: Tables) {
    && (forall r :: r in t.reports ==> Passes(t, r))
    && (forall e :: e in t.events ==> t.events[e].report in t.reports)
  }

  /** What a transaction has not touched is as it began; what it found of the history is all still there. */
  ghost predicate Tracked(t0: Tables, x: Txn) {
    && (forall r :: r in x.t.reports && r !in x.touched ==>
        r in t0.reports && t0.reports[r].status == x.t.reports[r].status)
    && (forall e :: e in t0.events ==> e in x.t.events && x.t.events[e] == t0.events[e])
    && (forall e :: e in x.t.events && x.t.events[e].report !in x.touched ==>
        e in t0.events && x.t.events[e] == t0.events[e])
    && (forall e :: e in x.t.events ==> x.t.events[e].report in x.t.reports)
  }

  lemma ResumeTracks(t0: Tables, x: Txn, a: Submission, report: Id)
    requires Tracked(t0, x) && report in x.t.reports && Resume(x, a, report).Some?
    ensures Tracked(t0, Resume(x, a, report).value)
  {
  }

  lemma ExecTracks(t0: Tables, x: Txn, s: Statement)
    requires Tracked(t0, x) && Exec(x, s).Some?
    ensures Tracked(t0, Exec(x, s).value)
  {
    if s.Submit? && Owned(x.t, s.a) && s.a.question !in x.t.answers {
      var report := x.t.questions[s.a.question].report;
      var answered := x.(t := x.t.(answers := x.t.answers[s.a.question := NewAnswer(s.a, report)]));
      ResumeTracks(t0, answered, s.a, report);
    }
  }

  lemma {:induction false} ExecAllTracks(t0: Tables, x: Txn, statements: seq<Statement>)
    requires Tracked(t0, x) && ExecAll(x, statements).Some?
    ensures Tracked(t0, ExecAll(x, statements).value)
    decreases |statements|
  {
    if statements != [] {
      ExecTracks(t0, x, statements[0]);
      ExecAllTracks(t0, Exec(x, statements[0]).value, statements[1..]);
    }
  }

  /** An untouched report has the events it had, so it has the newest event it had. */
  lemma UntouchedStaysProjected(t0: Tables, x: Txn, r: Id)
    requires Tracked(t0, x) && Projected(t0) && r in x.t.reports && r !in x.touched
    ensures Passes(x.t, r)
  {
    assert Passes(t0, r);
    var e :| e in t0.events && IsNewest(t0, r, e) && t0.events[e].next == t0.reports[r].status;
    assert IsNewest(x.t, r, e);
  }

  /**
   The trigger looks only at touched reports, and that is exactly enough: the events pass if and only if
   every report's status is its newest event's.
   */
  lemma CommitIffProjected(t: Tables, statements: seq<Statement>)
    requires Projected(t) && ExecAll(Txn(t, {}), statements).Some?
    ensures var x := ExecAll(Txn(t, {}), statements).value; CommitPasses(x) <==> Projected(x.t)
  {
    var x := ExecAll(Txn(t, {}), statements).value;
    ExecAllTracks(t, Txn(t, {}), statements);
    if CommitPasses(x) {
      forall r | r in x.t.reports ensures Passes(x.t, r) {
        if r !in x.touched {
          UntouchedStaysProjected(t, x, r);
        }
      }
    }
  }

  /** Only a deletion takes a report away, and only the one it names. */
  lemma ReportsStay(x: Txn, s: Statement, id: Id)
    requires Exec(x, s).Some? && id in x.t.reports && !(s.DeleteReport? && s.id == id)
    ensures id in Exec(x, s).value.t.reports
  {
  }

  /** Audit entries are only added: by an audit statement as it says, by a submission of its own kind. */
  lemma AuditGrows(x: Txn, s: Statement)
    requires Exec(x, s).Some?
    ensures forall k :: k in x.t.audit ==> k in Exec(x, s).value.t.audit && Exec(x, s).value.t.audit[k] == x.t.audit[k]
    ensures forall k :: k in Exec(x, s).value.t.audit && k !in x.t.audit ==>
                          Exec(x, s).value.t.audit[k].event == if s.InsertAudit? then s.entry.event
                            else "report_follow_up_received"
  {
  }

  // ---- History and versions over every run ----

  /**
   What later states keep of earlier ones: every event, every report that has one, a version that never
   falls, and under an unchanged version an unchanged status and risk.
   */
  ghost predicate Later(t: Tables, t': Tables) {
    && (forall e :: e in t.events ==> e in t'.events && t'.events[e] == t.events[e])
    && (forall r :: r in t.reports && HasEvents(t, r) ==>
          r in t'.reports && SameOrRaised(t.reports[r], t'.reports[r]))
  }

  predicate SameOrRaised(was: Report, now: Report) {
    was.version <= now.version && (was.version == now.version ==> was.status == now.status && was.risk == now.risk)
  }

  lemma EventStays(x: Txn, s: Statement, e: Id)
    requires Exec(x, s).Some? && e in x.t.events
    ensures e in Exec(x, s).value.t.events && Exec(x, s).value.t.events[e] == x.t.events[e]
  {
  }

  lemma ReportIsLater(x: Txn, s: Statement, r: Id)
    requires Exec(x, s).Some? && r in x.t.reports && HasEvents(x.t, r)
    ensures r in Exec(x, s).value.t.reports && SameOrRaised(x.t.reports[r], Exec(x, s).value.t.reports[r])
  {
  }

  lemma ExecIsLater(x: Txn, s: Statement)
    requires Exec(x, s).Some?
    ensures Later(x.t, Exec(x, s).value.t)
  {
    var t' := Exec(x, s).value.t;
    forall e | e in x.t.events ensures e in t'.events && t'.events[e] == x.t.events[e] {
      EventStays(x, s, e);
    }
    forall r | r in x.t.reports && HasEvents(x.t, r)
      ensures r in t'.reports && SameOrRaised(x.t.reports[r], t'.reports[r])
    {
      ReportIsLater(x, s, r);
    }
  }

  lemma LaterTransitive(a: Tables, b: Tables, c: Tables)
    requires Later(a, b) && Later(b, c)
    ensures Later(a, c)
  {
    forall r | r in a.reports && HasEvents(a, r) ensures r in c.reports && SameOrRaised(a.reports[r], c.reports[r]) {
      var e :| e in a.events && a.events[e].report == r;
      assert HasEvents(b, r);
    }
  }

  lemma {:induction false} ExecAllIsLater(x: Txn, statements: seq<Statement>)
    requires ExecAll(x, statements).Some?
    ensures Later(x.t, ExecAll(x, statements).value.t)
    decreases |statements|
  {
    if statements != [] {
      var y := Exec(x, statements[0]).value;
      ExecIsLater(x, statements[0]);
      ExecAllIsLater(y, statements[1..]);
      LaterTransitive(x.t, y.t, ExecAll(x, statements).value.t);
    }
  }

  lemma TransactionKeepsProjection(t: Tables, statements: seq<Statement>)
    requires Projected(t)
    ensures Projected(Transact(t, statements)) && Later(t, Transact(t, statements))
  {
    if ExecAll(Txn(t, {}), statements).Some? {
      CommitIffProjected(t, statements);
      ExecAllIsLater(Txn(t, {}), statements);
    }
  }

  lemma {:induction false} EveryStateIsProjected(t: Tables, transactions: seq<seq<Statement>>)
    requires Projected(t)
    ensures Projected(Serial(t, transactions)) && Later(t, Serial(t, transactions))
    decreases |transactions|
  {
    if transactions != [] {
      var t' := Transact(t, transactions[0]);
      TransactionKeepsProjection(t, transactions[0]);
      EveryStateIsProjected(t', transactions[1..]);
      LaterTransitive(t, t', Serial(t, transactions));
    }
  }

  lemma {:induction false} SerialSplits(t: Tables, a: seq<seq<Statement>>, b: seq<seq<Statement>>)
    ensures Serial(t, a + b) == Serial(Serial(t, a), b)
    decreases |a|
  {
    if a == [] {
      assert a + b == b;
    } else {
      assert (a + b)[1..] == a[1..] + b;
      SerialSplits(Transact(t, a[0]), a[1..], b);
    }
  }

  /**
   No ABA. Take any report of any state, and any later state in which its version is the same: in every
   state between them its status and risk are the same too. And no report is ever gone again.
   */
  lemma EqualVersionsMeanNothingMoved(t: Tables, first: seq<seq<Statement>>, middle: seq<seq<Statement>>,
                                      last: seq<seq<Statement>>, r: Id)
    requires Projected(t) && r in Serial(t, first).reports
    ensures var a, b, c := Serial(t, first), Serial(t, first + middle), Serial(t, first + middle + last);
            && r in b.reports && r in c.reports
            && (a.reports[r].version == c.reports[r].version ==>
                  && b.reports[r].status == a.reports[r].status == c.reports[r].status
                  && b.reports[r].risk == a.reports[r].risk == c.reports[r].risk)
  {
    var a, b, c := Serial(t, first), Serial(t, first + middle), Serial(t, first + middle + last);
    EveryStateIsProjected(t, first);
    SerialSplits(t, first, middle);
    EveryStateIsProjected(a, middle);
    SerialSplits(t, first + middle, last);
    EveryStateIsProjected(b, last);
    assert Passes(a, r) && Passes(b, r);
  }

  /** A committed report always has an event, so deleting it raises: the whole transaction is undone. */
  lemma CommittedReportsCannotBeDeleted(t: Tables, transactions: seq<seq<Statement>>, id: Id, before: seq<Statement>,
                                        after: seq<Statement>)
    requires Projected(t) && id in Serial(t, transactions).reports
    ensures var t' := Serial(t, transactions);
            Transact(t', before + [DeleteReport(id)] + after) == t'
  {
    var t' := Serial(t, transactions);
    EveryStateIsProjected(t, transactions);
    assert Passes(t', id);
    var x := ExecAll(Txn(t', {}), before);
    if x.Some? {
      ExecAllIsLater(Txn(t', {}), before);
      var e :| e in t'.events && t'.events[e].report == id;
      assert HasEvents(x.value.t, id);
    }
    DeleteRaises(Txn(t', {}), before, id, after);
  }

  lemma {:induction false} DeleteRaises(x: Txn, before: seq<Statement>, id: Id, after: seq<Statement>)
    requires ExecAll(x, before).Some? ==> Exec(ExecAll(x, before).value, DeleteReport(id)).None?
    ensures ExecAll(x, before + [DeleteReport(id)] + after).None?
    decreases |before|
  {
    var all := before + [DeleteReport(id)] + after;
    if before == [] {
      assert all[0] == DeleteReport(id);
    } else {
      assert all[1..] == before[1..] + [DeleteReport(id)] + after;
      if Exec(x, before[0]).Some? {
        DeleteRaises(Exec(x, before[0]).value, before[1..], id, after);
      }
    }
  }

  // ---- The tables as an object ----

  class ReportDatabase {
    var committed: Tables
    var reports: map<Id, Report>
    var events: map<Id, StatusEvent>
    var questions: map<Id, Question>
    var answers: map<Id, Answer>
    var tracking: map<Id, Id>
    var audit: map<Id, Audit>
    var touched: set<Id>

    function Work(): Txn
      reads this
    {
      Txn(Tables(reports, events, questions, answers, tracking, audit), touched)
    }

    predicate Fresh()
      reads this
    {
      Work() == Txn(committed, {})
    }

    constructor (t: Tables)
      ensures committed == t && Fresh()
    {
      committed := t;
      reports, events, questions := t.reports, t.events, t.questions;
      answers, tracking, audit := t.answers, t.tracking, t.audit;
      touched := {};
    }

    method RollBack()
      modifies this
      ensures committed == old(committed) && Fresh()
    {
      reports, events, questions := committed.reports, committed.events, committed.questions;
      answers, tracking, audit := committed.answers, committed.tracking, committed.audit;
      touched := {};
    }

    method ChangeReport(id: Id, report: Report, namesStatus: bool)
      modifies this
      ensures committed == old(committed)
      ensures Some(Work()) == ExecUpdateReport(old(Work()), id, report, namesStatus)
    {
      if id !in reports {
        return;
      }
      var was := reports[id];
      var next := if namesStatus then report else report.(status := was.status);
      if next.status != was.status || next.risk != was.risk {
        next := next.(version := was.version + 1);
      } else {
        next := next.(version := was.version);
      }
      reports := reports[id := next];
      touched := touched + if namesStatus then {id} else {};
    }

    method RecordEvent(id: Id, e: StatusEvent) returns (ok: bool)
      modifies this
      ensures committed == old(committed)
      ensures match ExecInsertEvent(old(Work()), id, e)
              case Some(x) => ok && Work() == x
              case None => !ok && Work() == old(Work())
    {
      ok := id !in events && e.report in reports && Legal(e.previous, e.next);
      if ok {
        events := events[id := e];
        touched := touched + {e.report};
      }
    }

    /** `follow_up_submit`, statement by statement; a raised error undoes the transaction. */
    method SubmitAnswer(a: Submission) returns (reply: Reply)
      modifies this
      ensures committed == old(committed)
      ensures reply == ExecSubmit(old(Work()), a)
      ensures match reply
              case Raised => Fresh()
              case Replied(x, _) => Work() == x
    {
      if !Owned(Work().t, a) {
        return Replied(Work(), false);
      }
      var report := questions[a.question].report;
      var status := reports[report].status;
      if !AnswerChecks(a) {
        RollBack();
        return Raised;
      }
      if a.question in answers {
        return Replied(Work(), false);
      }
      if AnswerIdTaken(Work().t, a.answerId) {
        RollBack();
        return Raised;
      }
      answers := answers[a.question := Answer(a.answerId, report, a.kind, a.ciphertext, a.key)];
      var ok := true;
      if status == NeedsInformation && OpenQuestions(Work().t, report) == {} {
        ok := RecordEvent(a.eventId, StatusEvent(report, Some(NeedsInformation), UnderReview, a.now));
        if ok {
          ChangeReport(report, reports[report].(status := UnderReview, statusUpdatedAt := a.now), true);
        }
      }
      if !ok || a.auditId in audit {
        RollBack();
        return Raised;
      }
      audit := audit[a.auditId := Audit("report_follow_up_received", report, a.now)];
      reply := Replied(Work(), true);
    }

    /** SELECT ... ORDER BY occurred_at DESC, id DESC LIMIT 1. */
    method NewestEvent(report: Id) returns (newest: Option<Id>)
      ensures match newest
              case Some(e) => IsNewest(Work().t, report, e)
              case None => !HasEvents(Work().t, report)
    {
      newest := None;
      var left := events.Keys;
      while left != {}
        invariant left <= events.Keys
        invariant newest.None? ==> forall e :: e in events.Keys - left ==> events[e].report != report
        invariant newest.Some? ==>
                    && newest.value in events.Keys - left && events[newest.value].report == report
                    && forall e :: e in events.Keys - left && events[e].report == report && e != newest.value ==>
                                     Before(events[e].at, e, events[newest.value].at, newest.value)
        decreases left
      {
        var e :| e in left;
        left := left - {e};
        if events[e].report == report &&
           (newest.None? || Before(events[newest.value].at, newest.value, events[e].at, e)) {
          newest := Some(e);
        }
      }
    }

    /** The projection trigger for one touched report. */
    method Check(report: Id) returns (ok: bool)
      ensures ok == Passes(Work().t, report)
    {
      var newest := NewestEvent(report);
      var status := if report in reports then Some(reports[report].status) else None;
      ok := status == if newest.Some? then Some(events[newest.value].next) else None;
      if newest.Some? {
        forall e | IsNewest(Work().t, report, e) ensures e == newest.value {
        }
      }
    }

    method Commit() returns (ok: bool)
      modifies this
      ensures ok == CommitPasses(old(Work()))
      ensures committed == (if ok then old(Work()).t else old(committed)) && Fresh()
    {
      var left := touched;
      while left != {}
        invariant left <= touched
        invariant forall r :: r in touched - left ==> Passes(Work().t, r)
        invariant Work() == old(Work()) && committed == old(committed)
        decreases left
      {
        var r :| r in left;
        var passes := Check(r);
        if !passes {
          RollBack();
          return false;
        }
        left := left - {r};
      }
      committed := Work().t;
      touched := {};
      ok := true;
    }
  }
}
