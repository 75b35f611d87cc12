/**
 Answering a reviewer's questions: each submission is its own transaction. Whatever the order, the
 repeats and the submissions that miss, what becomes of the report depends only on which of its open
 questions were answered by a caller who holds it.
 */
module FollowUps {
  import opened Wrappers
  import opened Reports

  function Submitted(t: Tables, a: Submission): Tables {
    Transact(t, [Submit(a)])
  }

  function SubmitAll(t: Tables, run: seq<Submission>): Tables
    decreases |run|
  {
    if run == [] then t else SubmitAll(Submitted(t, run[0]), run[1..])
  }

  lemma SubmittedIs(t: Tables, a: Submission)
    ensures Submitted(t, a) == match ExecSubmit(Txn(t, {}), a)
                               case Raised => t
                               case Replied(x, _) => if CommitPasses(x) then x.t else t
  {
    var s := [Submit(a)];
    assert s[1..] == [];
    match ExecSubmit(Txn(t, {}), a) {
      case Raised =>
      case Replied(x, _) => assert ExecAll(Txn(t, {}), s) == ExecAll(x, s[1..]);
    }
  }

  /** Repeated, withdrawn and unowned submissions change nothing at all. */
  lemma MissesChangeNothing(t: Tables, a: Submission)
    requires !Owned(t, a) || a.question in t.answers
    ensures Submitted(t, a) == t
  {
    SubmittedIs(t, a);
  }

  function EventsOf(t: Tables, report: Id): map<Id, StatusEvent> {
    map e | e in t.events && t.events[e].report == report :: t.events[e]
  }

  ghost predicate EventIsNew(t: Tables, report: Id, a: Submission) {
    forall e :: e in t.events && t.events[e].report == report ==> Before(t.events[e].at, e, a.now, a.eventId)
  }

  /** The submission cannot raise: its content is well formed, its ids are unused and its time has come. */
  ghost predicate Ready(t: Tables, report: Id, a: Submission) {
    && AnswerChecks(a) && !AnswerIdTaken(t, a.answerId) && a.eventId !in t.events && a.auditId !in t.audit
    && (report in t.reports && t.reports[report].status.NeedsInformation? ==> EventIsNew(t, report, a))
  }

  predicate IdsDiffer(a: Submission, b: Submission) {
    a.answerId != b.answerId && a.eventId != b.eventId && a.auditId != b.auditId
  }

  ghost predicate Orderly(t: Tables, report: Id, run: seq<Submission>) {
    && (forall i :: 0 <= i < |run| ==> Ready(t, report, run[i]))
    && (forall i, j :: 0 <= i < j < |run| ==> IdsDiffer(run[i], run[j]))
  }

  /** A submission that answers an open question of the report. */
  predicate Hits(t: Tables, report: Id, a: Submission) {
    a.question in OpenQuestions(t, report) && Owned(t, a)
  }

  /** The open questions of the report that a run answers. */
  function AnsweredBy(t: Tables, report: Id, run: seq<Submission>): set<Id> {
    set i | 0 <= i < |run| && Hits(t, report, run[i]) :: run[i].question
  }

  // ---- What one submission does to one report ----

  /** What credentials resolve to does not change. */
  ghost predicate SameHolders(t: Tables, t': Tables) {
    && t'.questions == t.questions && t'.tracking == t.tracking && t'.reports.Keys == t.reports.Keys
    && forall r :: r in t.reports ==> t'.reports[r].handle == t.reports[r].handle
  }

  ghost predicate LeavesReport(t: Tables, t': Tables, report: Id) {
    && report in t.reports && report in t'.reports && t'.reports[report] == t.reports[report]
    && EventsOf(t', report) == EventsOf(t, report)
  }

  /** The report resumed: one legal event more, the version one higher, the status under review. */
  ghost predicate Resumed(t: Tables, t': Tables, report: Id)
    requires report in t.reports && report in t'.reports
  {
    && t'.reports[report].status == UnderReview && t'.reports[report].version == t.reports[report].version + 1
    && t'.reports[report].risk == t.reports[report].risk
    && exists e :: e !in t.events && OneMore(t, t', report, e)
  }

  ghost predicate OneMore(t: Tables, t': Tables, report: Id, e: Id) {
    && e in t'.events && t'.events[e].previous == Some(NeedsInformation) && t'.events[e].next == UnderReview
    && Legal(t'.events[e].previous, t'.events[e].next)
    && EventsOf(t', report) == EventsOf(t, report)[e := t'.events[e]]
  }

  lemma AnsweringCloses(t: Tables, t': Tables, report: Id, question: Id, answer: Answer)
    requires t'.questions == t.questions && t'.answers == t.answers[question := answer]
    ensures OpenQuestions(t', report) == OpenQuestions(t, report) - {question}
  {
    forall q ensures q in OpenQuestions(t', report) <==> q in OpenQuestions(t, report) - {question} {
    }
  }

  lemma HoldersStay(t: Tables, a: Submission)
    ensures SameHolders(t, Submitted(t, a))
    ensures forall e :: e in Submitted(t, a).events ==> e in t.events || e == a.eventId
    ensures forall k :: k in Submitted(t, a).audit ==> k in t.audit || k == a.auditId
    ensures forall id :: AnswerIdTaken(Submitted(t, a), id) ==> AnswerIdTaken(t, id) || id == a.answerId
  {
    SubmittedIs(t, a);
  }

  lemma MissLeavesReport(t: Tables, a: Submission, report: Id)
    requires report in t.reports && !Hits(t, report, a)
    ensures LeavesReport(t, Submitted(t, a), report)
    ensures OpenQuestions(Submitted(t, a), report) == OpenQuestions(t, report)
  {
    SubmittedIs(t, a);
    if Owned(t, a) && a.question !in t.answers {
      assert IsOpen(t, a.question);
      assert t.questions[a.question].report != report;
    }
  }

  /** A hit that leaves other questions open changes nothing but the answers. */
  lemma HitLeavesReport(t: Tables, a: Submission, report: Id)
    requires report in t.reports && Hits(t, report, a) && Ready(t, report, a)
    requires OpenQuestions(t, report) != {a.question}
    ensures LeavesReport(t, Submitted(t, a), report)
    ensures OpenQuestions(Submitted(t, a), report) == OpenQuestions(t, report) - {a.question}
  {
    SubmittedIs(t, a);
    var answered := t.(answers := t.answers[a.question := NewAnswer(a, report)]);
    AnsweringCloses(t, answered, report, a.question, NewAnswer(a, report));
    assert OpenQuestions(answered, report) != {};
  }

  lemma LastHitExec(t: Tables, a: Submission, report: Id) returns (x: Txn)
    requires report in t.reports && Hits(t, report, a)
    requires AnswerChecks(a) && !AnswerIdTaken(t, a.answerId) && a.eventId !in t.events && a.auditId !in t.audit
    requires OpenQuestions(t, report) == {a.question} && t.reports[report].status.NeedsInformation?
    ensures ExecSubmit(Txn(t, {}), a) == Replied(x, true) && x.touched == {report}
    ensures x.t.events == t.events[a.eventId := ResumeEvent(a, report)]
    ensures var was := t.reports[report];
            x.t.reports
            == t.reports[report := was.(status := UnderReview, statusUpdatedAt := a.now, version := was.version + 1)]
    ensures x.t.answers == t.answers[a.question := NewAnswer(a, report)] && x.t.questions == t.questions
  {
    var answered := t.(answers := t.answers[a.question := NewAnswer(a, report)]);
    AnsweringCloses(t, answered, report, a.question, NewAnswer(a, report));
    x := ExecSubmit(Txn(t, {}), a).x;
  }

  /** The hit on the last open question resumes the report, when its event is the newest. */
  lemma LastHitResumes(t: Tables, a: Submission, report: Id)
    requires report in t.reports && Hits(t, report, a) && Ready(t, report, a)
    requires OpenQuestions(t, report) == {a.question} && t.reports[report].status.NeedsInformation?
    ensures report in Submitted(t, a).reports && Resumed(t, Submitted(t, a), report)
    ensures OpenQuestions(Submitted(t, a), report) == {}
  {
    SubmittedIs(t, a);
    var x := LastHitExec(t, a, report);
    assert IsNewest(x.t, report, a.eventId);
    assert CommitPasses(x);
    assert OneMore(t, x.t, report, a.eventId);
    AnsweringCloses(t, x.t, report, a.question, NewAnswer(a, report));
  }

  lemma NewestIsUnique(t: Tables, report: Id, e: Id, f: Id)
    requires IsNewest(t, report, e) && IsNewest(t, report, f)
    ensures e == f
  {
  }

  /** Adding an event makes it the newest, or leaves the newest as it was. */
  lemma StillNewest(t: Tables, t': Tables, report: Id, e: Id, id: Id, event: StatusEvent)
    requires IsNewest(t, report, e) && id !in t.events && event.report == report
    requires t'.events == t.events[id := event]
    requires !Before(t.events[e].at, e, event.at, id)
    ensures IsNewest(t', report, e)
  {
  }

  /**
   Exactly when that transaction commits: the projection trigger refuses it unless the new event, by
   (time, id), comes after every event the report has.
   */
  lemma ResumesIffItsEventIsNewest(t: Tables, a: Submission, report: Id)
    requires Projected(t) && report in t.reports && Hits(t, report, a)
    requires AnswerChecks(a) && !AnswerIdTaken(t, a.answerId) && a.eventId !in t.events && a.auditId !in t.audit
    requires OpenQuestions(t, report) == {a.question} && t.reports[report].status.NeedsInformation?
    ensures EventIsNew(t, report, a) ==> report in Submitted(t, a).reports && Resumed(t, Submitted(t, a), report)
    ensures !EventIsNew(t, report, a) ==> Submitted(t, a) == t
  {
    if EventIsNew(t, report, a) {
      LastHitResumes(t, a, report);
    } else {
      LateEventIsRefused(t, a, report);
    }
  }

  lemma LateEventIsRefused(t: Tables, a: Submission, report: Id)
    requires Projected(t) && report in t.reports && Hits(t, report, a)
    requires AnswerChecks(a) && !AnswerIdTaken(t, a.answerId) && a.eventId !in t.events && a.auditId !in t.audit
    requires OpenQuestions(t, report) == {a.question} && t.reports[report].status.NeedsInformation?
    requires !EventIsNew(t, report, a)
    ensures Submitted(t, a) == t
  {
    SubmittedIs(t, a);
    var x := LastHitExec(t, a, report);
    assert Passes(t, report);
    var e :| e in t.events && IsNewest(t, report, e) && t.events[e].next == NeedsInformation;
    StillNewest(t, x.t, report, e, a.eventId, ResumeEvent(a, report));
    forall f | f in x.t.events && IsNewest(x.t, report, f) ensures f == e {
      NewestIsUnique(x.t, report, e, f);
    }
    assert report in x.touched && !Passes(x.t, report);
  }

  // ---- Any number of submissions ----

  lemma OrderlyTail(t: Tables, report: Id, run: seq<Submission>)
    requires run != [] && report in t.reports && Orderly(t, report, run)
    requires var t' := Submitted(t, run[0]);
             report in t'.reports && t'.reports[report].status.NeedsInformation? ==> LeavesReport(t, t', report)
    ensures Orderly(Submitted(t, run[0]), report, run[1..])
  {
    var t' := Submitted(t, run[0]);
    HoldersStay(t, run[0]);
    forall i | 0 <= i < |run[1..]| ensures Ready(t', report, run[1..][i]) {
      assert Ready(t, report, run[i + 1]) && IdsDiffer(run[0], run[i + 1]);
      if t'.reports[report].status.NeedsInformation? {
        forall e | e in t'.events && t'.events[e].report == report
          ensures Before(t'.events[e].at, e, run[i + 1].now, run[i + 1].eventId)
        {
          assert e in EventsOf(t', report);
          assert e in EventsOf(t, report);
        }
      }
    }
  }

  /** With nothing open, no submission touches the report. */
  lemma {:induction false} NothingOpenNothingMoves(t: Tables, report: Id, run: seq<Submission>)
    requires report in t.reports && OpenQuestions(t, report) == {}
    ensures report in SubmitAll(t, run).reports && LeavesReport(t, SubmitAll(t, run), report)
    ensures OpenQuestions(SubmitAll(t, run), report) == {}
    decreases |run|
  {
    if run != [] {
      MissLeavesReport(t, run[0], report);
      HoldersStay(t, run[0]);
      NothingOpenNothingMoves(Submitted(t, run[0]), report, run[1..]);
    }
  }

  lemma AnsweredLater(t: Tables, report: Id, run: seq<Submission>)
    requires run != []
    requires SameHolders(t, Submitted(t, run[0])) && report in t.reports
    requires OpenQuestions(Submitted(t, run[0]), report)
        == OpenQuestions(t, report) - (if Hits(t, report, run[0]) then {run[0].question} else {})
    ensures AnsweredBy(t, report, run)
            == AnsweredBy(Submitted(t, run[0]), report, run[1..])
               + if Hits(t, report, run[0]) then {run[0].question} else {}
  {
    var t' := Submitted(t, run[0]);
    var rest := run[1..];
    forall a ensures Owned(t', a) <==> Owned(t, a) {
    }
    forall q | q in AnsweredBy(t, report, run)
      ensures q in AnsweredBy(t', report, rest) || (Hits(t, report, run[0]) && q == run[0].question)
    {
      var i :| 0 <= i < |run| && Hits(t, report, run[i]) && run[i].question == q;
      if i > 0 && !(Hits(t, report, run[0]) && q == run[0].question) {
        assert rest[i - 1] == run[i];
        assert Hits(t', report, rest[i - 1]);
      }
    }
    forall q | q in AnsweredBy(t', report, rest) ensures q in AnsweredBy(t, report, run) {
      var i :| 0 <= i < |rest| && Hits(t', report, rest[i]) && rest[i].question == q;
      assert run[i + 1] == rest[i] && Hits(t, report, run[i + 1]);
    }
  }

  /** The report after a run that answered a set of its open questions. */
  ghost predicate Outcome(t: Tables, t': Tables, report: Id, answered: set<Id>) {
    && report in t.reports && report in t'.reports
    && OpenQuestions(t', report) == OpenQuestions(t, report) - answered
    && if OpenQuestions(t, report) != {} && OpenQuestions(t, report) <= answered
       then Resumed(t, t', report)
       else LeavesReport(t, t', report)
  }

  /** One step in front of an outcome: questions it closed count as answered too. */
  lemma OutcomeAfterStep(t: Tables, t': Tables, t'': Tables, report: Id, closed: set<Id>, answered: set<Id>)
    requires LeavesReport(t, t', report) && (forall e :: e in t.events ==> e in t'.events)
    requires OpenQuestions(t', report) == OpenQuestions(t, report) - closed
    requires closed <= OpenQuestions(t, report) && (closed != {} ==> closed != OpenQuestions(t, report))
    requires Outcome(t', t'', report, answered)
    ensures Outcome(t, t'', report, answered + closed)
  {
    assert OpenQuestions(t, report) == OpenQuestions(t', report) + closed;
    assert OpenQuestions(t, report) <= answered + closed <==> OpenQuestions(t', report) <= answered;
    if OpenQuestions(t', report) != {} && OpenQuestions(t', report) <= answered {
      ResumedFrom(t, t', t'', report);
    }
  }

  lemma EventsStay(t: Tables, a: Submission)
    ensures forall e :: e in t.events ==> e in Submitted(t, a).events
  {
    SubmittedIs(t, a);
  }

  /**
   Confluence. From `needs_information`, a run of submissions leaves the report where it is until the
   last open question is answered, and then it has resumed exactly once, whatever came before, between
   and after; the outcome is a function of the set of open questions answered.
   */
  lemma {:induction false} OnlyTheAnsweredSetMatters(t: Tables, report: Id, run: seq<Submission>)
    requires report in t.reports && t.reports[report].status.NeedsInformation? && Orderly(t, report, run)
    ensures Outcome(t, SubmitAll(t, run), report, AnsweredBy(t, report, run))
    decreases |run|
  {
    if run != [] {
      var a, t', rest := run[0], Submitted(t, run[0]), run[1..];
      HoldersStay(t, a);
      if Hits(t, report, a) && OpenQuestions(t, report) == {a.question} {
        LastHitResumes(t, a, report);
        NothingOpenNothingMoves(t', report, rest);
        AnsweredLater(t, report, run);
        ResumedStays(t, t', SubmitAll(t', rest), report);
      } else {
        StepOfOthers(t, report, run);
        OrderlyTail(t, report, run);
        AnsweredLater(t, report, run);
        EventsStay(t, a);
        OnlyTheAnsweredSetMatters(t', report, rest);
        OutcomeAfterStep(t, t', SubmitAll(t', rest), report,
                         if Hits(t, report, a) then {a.question} else {}, AnsweredBy(t', report, rest));
      }
    }
  }

  lemma StepOfOthers(t: Tables, report: Id, run: seq<Submission>)
    requires run != [] && report in t.reports && Orderly(t, report, run)
    requires !(Hits(t, report, run[0]) && OpenQuestions(t, report) == {run[0].question})
    ensures var t' := Submitted(t, run[0]);
            && LeavesReport(t, t', report)
            && OpenQuestions(t', report)
               == OpenQuestions(t, report) - if Hits(t, report, run[0]) then {run[0].question} else {}
  {
    if Hits(t, report, run[0]) {
      HitLeavesReport(t, run[0], report);
    } else {
      MissLeavesReport(t, run[0], report);
    }
  }

  lemma ResumedStays(t: Tables, t': Tables, t'': Tables, report: Id)
    requires report in t.reports && report in t'.reports && report in t''.reports
    requires Resumed(t, t', report) && LeavesReport(t', t'', report)
    ensures Resumed(t, t'', report)
  {
    var e :| e !in t.events && OneMore(t, t', report, e);
    assert e in EventsOf(t', report) by {
      assert e in EventsOf(t, report)[e := t'.events[e]];
    }
    assert e in EventsOf(t'', report);
    assert OneMore(t, t'', report, e);
  }

  lemma ResumedFrom(t: Tables, t': Tables, t'': Tables, report: Id)
    requires report in t.reports && report in t'.reports && report in t''.reports
    requires LeavesReport(t, t', report) && Resumed(t', t'', report)
    requires forall e :: e in t.events ==> e in t'.events
    ensures Resumed(t, t'', report)
  {
    var e :| e !in t'.events && OneMore(t', t'', report, e);
    assert OneMore(t, t'', report, e);
  }

  /** Two runs of the same submissions, in any two orders, agree on the report and on what is still open. */
  lemma OrderDoesNotMatter(t: Tables, report: Id, a: seq<Submission>, b: seq<Submission>)
    requires report in t.reports && t.reports[report].status.NeedsInformation?
    requires Orderly(t, report, a) && Orderly(t, report, b)
    requires forall s :: s in a <==> s in b
    ensures var ta, tb := SubmitAll(t, a), SubmitAll(t, b);
            && report in ta.reports && report in tb.reports
            && ta.reports[report].status == tb.reports[report].status
            && ta.reports[report].version == tb.reports[report].version
            && OpenQuestions(ta, report) == OpenQuestions(tb, report)
  {
    OnlyTheAnsweredSetMatters(t, report, a);
    OnlyTheAnsweredSetMatters(t, report, b);
    assert AnsweredBy(t, report, a) == AnsweredBy(t, report, b) by {
      forall q | q in AnsweredBy(t, report, a) ensures q in AnsweredBy(t, report, b) {
        var i :| 0 <= i < |a| && Hits(t, report, a[i]) && a[i].question == q;
        assert a[i] in b;
      }
      forall q | q in AnsweredBy(t, report, b) ensures q in AnsweredBy(t, report, a) {
        var i :| 0 <= i < |b| && Hits(t, report, b[i]) && b[i].question == q;
        assert b[i] in a;
      }
    }
  }
}
