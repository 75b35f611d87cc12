/**
 Runs of transactions that mix evidence statements with the discovery steps of the worker and the
 reviewer: every attached source stays backed by a version, and a version that begins pending can
 support something public only after it was taken into review and then approved.
 */
module DiscoveryRuns {
  import opened Wrappers
  import E = Evidence
  import opened Discovery

  datatype Step =
    | Evidence(s: E.Statement)
    | Discover(id: Id, d: Discovered)
    | Refresh(id: Id, lastRetrievedAt: int, shown: string)
    | Decide(id: Id, disposition: Disposition, reviewer: Option<Id>, at: Option<int>, reason: Option<string>,
             key: Option<Id>)
    | Attach(p: Request)

  function Owner(d: Discovered): Id {
    if d.report.Some? then d.report.value else d.project
  }

  /** The unique index over scope, report or project, and URL. */
  predicate AlreadyFound(db: Db, d: Discovered) {
    exists k :: k in db.discovered && db.discovered[k].scope == d.scope && Owner(db.discovered[k]) == Owner(d)
                && db.discovered[k].url == d.url
  }

  function ExecDiscover(db: Db, id: Id, d: Discovered): Option<Db> {
    if id in db.discovered || !DiscoveredChecks(d) || d.project !in db.ev.t.projects || AlreadyFound(db, d)
       || (d.duplicateOf.Some? && d.duplicateOf.value !in db.discovered)
    then None
    else Some(db.(discovered := db.discovered[id := d]))
  }

  function ExecDecide(db: Db, s: Step): Option<Db>
    requires s.Decide?
  {
    if s.id !in db.discovered then Some(db)
    else
      var was := db.discovered[s.id];
      var next := was.(disposition := s.disposition, decidedBy := s.reviewer, decidedAt := s.at, reason := s.reason,
                       key := s.key);
      if MayDecide(was.disposition, next.disposition) && DiscoveredChecks(next)
         && (s.reviewer.Some? ==> s.reviewer.value in db.reviewers) && (s.key.Some? ==> s.key.value in db.keys)
      then Some(db.(discovered := db.discovered[s.id := next]))
      else None
  }

  ghost function Exec(db: Db, s: Step): Option<Db> {
    match s
    case Evidence(s) => (match E.Exec(db.ev, s) case Some(ev) => Some(db.(ev := ev)) case None => None)
    case Discover(id, d) => ExecDiscover(db, id, d)
    case Refresh(id, at, shown) =>
      if id !in db.discovered then Some(db)
      else Some(db.(discovered := db.discovered[id := db.discovered[id].(lastRetrievedAt := at, shown := shown)]))
    case Decide(_, _, _, _, _, _) => ExecDecide(db, s)
    case Attach(p) =>
      match AttachOutcome(db, p)
      case Done => Some(AfterAttach(db, p))
      case Raised => None
      case _ => Some(db)
  }

  /** Workers insert what they find as not reviewed and not attached. */
  predicate Allowed(s: Step) {
    s.Discover? ==> s.d.disposition.NotReviewed? && s.d.attachedSource.None?
  }

  ghost function ExecAll(db: Db, steps: seq<Step>): Option<Db>
    decreases |steps|
  {
    if steps == [] then Some(db)
    else match Exec(db, steps[0])
         case None => None
         case Some(db') => ExecAll(db', steps[1..])
  }

  ghost predicate Commits(db: Db, steps: seq<Step>) {
    ExecAll(db, steps).Some? && E.CommitPasses(ExecAll(db, steps).value.ev)
  }

  ghost function Transact(db: Db, steps: seq<Step>): Db {
    if Commits(db, steps) then var x := ExecAll(db, steps).value; x.(ev := E.Txn(x.ev.t, {})) else db
  }

  ghost function Serial(db: Db, transactions: seq<seq<Step>>): Db
    decreases |transactions|
  {
    if transactions == [] then db else Serial(Transact(db, transactions[0]), transactions[1..])
  }

  ghost predicate AllAllowed(transactions: seq<seq<Step>>) {
    forall i, j :: 0 <= i < |transactions| && 0 <= j < |transactions[i]| ==> Allowed(transactions[i][j])
  }

  // ---- Attached means backed, in every state ----

  ghost predicate Backed(t: E.Tables, d: Discovered) {
    d.attachedSource.Some? ==> d.attachedSource.value in t.sources && Holds(t, d.attachedSource.value, d.excerpt)
  }

  ghost predicate AllBacked(db: Db) {
    forall id :: id in db.discovered ==> DiscoveredChecks(db.discovered[id]) && Backed(db.ev.t, db.discovered[id])
  }

  /** What also holds inside a transaction. */
  ghost predicate Sound(db: Db) {
    E.Intact(db.ev.t) && UrlsDiffer(db.ev.t) && AllBacked(db)
  }

  ghost predicate Good(db: Db) {
    Sound(db) && E.Supported(db.ev.t) && db.ev.events == {}
  }

  /** Each step does to the evidence what some list of statements does. */
  lemma StepParts(db: Db, s: Step) returns (statements: seq<E.Statement>)
    requires Sound(db) && Exec(db, s).Some?
    ensures E.ExecAll(db.ev, statements) == Some(Exec(db, s).value.ev)
  {
    if s.Evidence? {
      E.OneStatement(db.ev, s.s);
      statements := [s.s];
    } else if s.Attach? && AttachOutcome(db, s.p) == Done {
      statements := AttachAsStatements(db, s.p);
    } else {
      statements := [];
    }
  }

  lemma UrlsStayDifferent(x: E.Txn, s: E.Statement)
    requires UrlsDiffer(x.t) && E.Exec(x, s).Some?
    ensures UrlsDiffer(E.Exec(x, s).value.t)
  {
  }

  lemma {:induction false} UrlsStayDifferentAll(x: E.Txn, statements: seq<E.Statement>)
    requires UrlsDiffer(x.t) && E.ExecAll(x, statements).Some?
    ensures UrlsDiffer(E.ExecAll(x, statements).value.t)
    decreases |statements|
  {
    if statements != [] {
      UrlsStayDifferent(x, statements[0]);
      UrlsStayDifferentAll(E.Exec(x, statements[0]).value, statements[1..]);
    }
  }

  /** Backing cannot be lost: versions keep their source and text, and sources are never removed. */
  lemma StaysBacked(t: E.Tables, t': E.Tables, d: Discovered)
    requires Backed(t, d) && E.Preserves(t, t') && t.sources.Keys <= t'.sources.Keys
    ensures Backed(t', d)
  {
    if d.attachedSource.Some? {
      var v :| v in t.versions && t.versions[v].source == d.attachedSource.value && t.versions[v].text == d.excerpt;
      assert t'.versions[v].source == d.attachedSource.value && t'.versions[v].text == d.excerpt;
    }
  }

  /** Only an attach names a source, and nothing changes an excerpt. */
  lemma StepLeavesAttachment(db: Db, s: Step, id: Id)
    requires AllBacked(db) && Exec(db, s).Some? && Allowed(s) && id in Exec(db, s).value.discovered
    requires !(s.Attach? && AttachOutcome(db, s.p) == Done && s.p.id == id)
    ensures var d' := Exec(db, s).value.discovered[id];
            && DiscoveredChecks(d')
            && (d'.attachedSource.Some? ==>
                  id in db.discovered && d'.attachedSource == db.discovered[id].attachedSource
                    && d'.excerpt == db.discovered[id].excerpt)
  {
  }

  lemma AttachBacks(db: Db, p: Request)
    requires Sound(db) && AttachOutcome(db, p) == Done
    ensures var db' := AfterAttach(db, p);
            DiscoveredChecks(db'.discovered[p.id]) && Backed(db'.ev.t, db'.discovered[p.id])
  {
    AttachedHoldsTheExcerpt(db, p);
    assert DiscoveredChecks(db.discovered[p.id]);
  }

  lemma StepKeepsSound(db: Db, s: Step)
    requires Sound(db) && Exec(db, s).Some? && Allowed(s)
    ensures Sound(Exec(db, s).value) && E.Preserves(db.ev.t, Exec(db, s).value.ev.t)
  {
    var db' := Exec(db, s).value;
    var statements := StepParts(db, s);
    E.ExecAllKeepsIntact(db.ev, statements);
    E.ReferencesStay(db.ev, statements);
    UrlsStayDifferentAll(db.ev, statements);
    forall id | id in db'.discovered
      ensures DiscoveredChecks(db'.discovered[id]) && Backed(db'.ev.t, db'.discovered[id])
    {
      if s.Attach? && AttachOutcome(db, s.p) == Done && s.p.id == id {
        AttachBacks(db, s.p);
      } else {
        StepLeavesAttachment(db, s, id);
        if id in db.discovered {
          StaysBacked(db.ev.t, db'.ev.t, db.discovered[id]);
        }
      }
    }
  }

  lemma {:induction false} Working(db: Db, steps: seq<Step>) returns (statements: seq<E.Statement>)
    requires Sound(db) && ExecAll(db, steps).Some? && forall i :: 0 <= i < |steps| ==> Allowed(steps[i])
    ensures Sound(ExecAll(db, steps).value) && E.ExecAll(db.ev, statements) == Some(ExecAll(db, steps).value.ev)
    decreases |steps|
  {
    if steps == [] {
      statements := [];
    } else {
      var db' := Exec(db, steps[0]).value;
      var here := StepParts(db, steps[0]);
      StepKeepsSound(db, steps[0]);
      var rest := Working(db', steps[1..]);
      E.ExecAllSplits(db.ev, here, rest);
      statements := here + rest;
    }
  }

  lemma TransactionStaysGood(db: Db, steps: seq<Step>)
    requires Good(db) && forall i :: 0 <= i < |steps| ==> Allowed(steps[i])
    ensures Good(Transact(db, steps)) && E.Preserves(db.ev.t, Transact(db, steps).ev.t)
  {
    if Commits(db, steps) {
      var statements := Working(db, steps);
      assert db.ev == E.Txn(db.ev.t, {});
      E.CommitIffSupported(db.ev.t, statements);
      E.ExecAllKeepsIntact(db.ev, statements);
    }
  }

  /**
   In every state of every run: public claims are supported, and each source marked as attached names a
   source that holds its excerpt, word for word, as an immutable version.
   */
  lemma {:induction false} EveryStateIsGood(db: Db, transactions: seq<seq<Step>>)
    requires Good(db) && AllAllowed(transactions)
    ensures Good(Serial(db, transactions)) && E.Preserves(db.ev.t, Serial(db, transactions).ev.t)
    ensures var db' := Serial(db, transactions);
            forall id :: id in db'.discovered && db'.discovered[id].disposition.Attached? ==>
                           && db'.discovered[id].attachedSource.Some?
                           && db'.discovered[id].attachedSource.value in db'.ev.t.sources
                           && Holds(db'.ev.t, db'.discovered[id].attachedSource.value, db'.discovered[id].excerpt)
    decreases |transactions|
  {
    if transactions != [] {
      TransactionStaysGood(db, transactions[0]);
      assert AllAllowed(transactions[1..]);
      EveryStateIsGood(Transact(db, transactions[0]), transactions[1..]);
    }
  }

  // ---- The review a pending version must pass ----

  /** The review states a version went through in the steps of committed transactions, without the first. */
  ghost function Trail(db: Db, steps: seq<Step>, v: Id): seq<E.ReviewState>
    decreases |steps|
  {
    if steps == [] || Exec(db, steps[0]).None? then []
    else
      var db' := Exec(db, steps[0]).value;
      (if v in db'.ev.t.versions then [db'.ev.t.versions[v].state] else []) + Trail(db', steps[1..], v)
  }

  ghost function History(db: Db, transactions: seq<seq<Step>>, v: Id): seq<E.ReviewState>
    decreases |transactions|
  {
    if transactions == [] then []
    else (if Commits(db, transactions[0]) then Trail(db, transactions[0], v) else [])
         + History(Transact(db, transactions[0]), transactions[1..], v)
  }

  predicate IsPath(from: E.ReviewState, path: seq<E.ReviewState>)
    decreases |path|
  {
    path == [] || (E.MayBecome(from, path[0]) && IsPath(path[0], path[1..]))
  }

  function Last(from: E.ReviewState, path: seq<E.ReviewState>): E.ReviewState {
    if path == [] then from else path[|path| - 1]
  }

  lemma {:induction false} PathsJoin(from: E.ReviewState, a: seq<E.ReviewState>, b: seq<E.ReviewState>)
    requires IsPath(from, a) && IsPath(Last(from, a), b)
    ensures IsPath(from, a + b) && Last(from, a + b) == Last(Last(from, a), b)
    decreases |a|
  {
    if a == [] {
      assert a + b == b;
    } else {
      assert (a + b)[1..] == a[1..] + b;
      PathsJoin(a[0], a[1..], b);
    }
  }

  lemma EvidenceMoves(x: E.Txn, s: E.Statement, v: Id)
    requires v in x.t.versions && E.Exec(x, s).Some?
    ensures v in E.Exec(x, s).value.t.versions
    ensures E.MayBecome(x.t.versions[v].state, E.Exec(x, s).value.t.versions[v].state)
  {
  }

  lemma AttachMovesNothing(db: Db, p: Request, v: Id)
    requires v in db.ev.t.versions && AttachOutcome(db, p) == Done
    ensures v in AfterAttach(db, p).ev.t.versions && AfterAttach(db, p).ev.t.versions[v] == db.ev.t.versions[v]
  {
    AttachExtends(db, p);
  }

  lemma StepMoves(db: Db, s: Step, v: Id)
    requires v in db.ev.t.versions && Exec(db, s).Some?
    ensures v in Exec(db, s).value.ev.t.versions
    ensures E.MayBecome(db.ev.t.versions[v].state, Exec(db, s).value.ev.t.versions[v].state)
  {
    if s.Evidence? {
      EvidenceMoves(db.ev, s.s, v);
    } else if s.Attach? && AttachOutcome(db, s.p) == Done {
      AttachMovesNothing(db, s.p, v);
    }
  }

  lemma {:induction false} TrailIsAPath(db: Db, steps: seq<Step>, v: Id)
    requires v in db.ev.t.versions && ExecAll(db, steps).Some?
    ensures v in ExecAll(db, steps).value.ev.t.versions
    ensures IsPath(db.ev.t.versions[v].state, Trail(db, steps, v))
    ensures Last(db.ev.t.versions[v].state, Trail(db, steps, v)) == ExecAll(db, steps).value.ev.t.versions[v].state
    decreases |steps|
  {
    if steps != [] {
      var db' := Exec(db, steps[0]).value;
      StepMoves(db, steps[0], v);
      TrailIsAPath(db', steps[1..], v);
      var state := db'.ev.t.versions[v].state;
      PathsJoin(db.ev.t.versions[v].state, [state], Trail(db', steps[1..], v));
    }
  }

  lemma {:induction false} HistoryIsAPath(db: Db, transactions: seq<seq<Step>>, v: Id)
    requires v in db.ev.t.versions
    ensures v in Serial(db, transactions).ev.t.versions
    ensures IsPath(db.ev.t.versions[v].state, History(db, transactions, v))
    ensures Last(db.ev.t.versions[v].state, History(db, transactions, v))
        == Serial(db, transactions).ev.t.versions[v].state
    decreases |transactions|
  {
    if transactions != [] {
      var steps := transactions[0];
      var db' := Transact(db, steps);
      if Commits(db, steps) {
        TrailIsAPath(db, steps, v);
        HistoryIsAPath(db', transactions[1..], v);
        PathsJoin(db.ev.t.versions[v].state, Trail(db, steps, v), History(db', transactions[1..], v));
      } else {
        HistoryIsAPath(db, transactions[1..], v);
        assert [] + History(db, transactions[1..], v) == History(db, transactions[1..], v);
      }
    }
  }

  predicate MovesAt(states: seq<E.ReviewState>, i: nat, was: E.ReviewState, next: E.ReviewState) {
    i + 1 < |states| && states[i] == was && states[i + 1] == next
  }

  lemma {:induction false} PathGivesMoves(from: E.ReviewState, path: seq<E.ReviewState>) returns (j: nat)
    requires IsPath(from, path) && !E.Citable(from) && E.Citable(Last(from, path))
    ensures MovesAt([from] + path, j, E.InReview, E.Approved)
    decreases |path|
  {
    if E.Citable(path[0]) {
      j := 0;
    } else {
      var k := PathGivesMoves(path[0], path[1..]);
      assert [path[0]] + path[1..] == path;
      j := k + 1;
      assert MovesAt(path, k, E.InReview, E.Approved);
    }
  }

  /** From pending, every path to a citable state first enters review and later is approved out of review. */
  lemma {:induction false} PendingIsReviewedFirst(path: seq<E.ReviewState>) returns (i: nat, j: nat)
    requires IsPath(E.Pending, path) && E.Citable(Last(E.Pending, path))
    ensures i < j && MovesAt([E.Pending] + path, i, E.Pending, E.InReview)
    ensures MovesAt([E.Pending] + path, j, E.InReview, E.Approved)
    decreases |path|
  {
    if path[0].Pending? {
      var i', j' := PendingIsReviewedFirst(path[1..]);
      assert [E.Pending] + path[1..] == path;
      i, j := i' + 1, j' + 1;
      assert MovesAt(path, i', E.Pending, E.InReview) && MovesAt(path, j', E.InReview, E.Approved);
    } else {
      var k := PathGivesMoves(path[0], path[1..]);
      assert [path[0]] + path[1..] == path;
      i, j := 0, k + 1;
      assert MovesAt(path, k, E.InReview, E.Approved);
    }
  }

  /**
   A version that an attach created can support a claim in a later state only if, since the attach, some
   statement took it from pending into review and a later one approved it.
   */
  lemma AttachedVersionNeedsReview(db: Db, p: Request, transactions: seq<seq<Step>>, key: E.Row, row: E.Row)
    requires Good(db) && AttachOutcome(db, p) == Done && p.versionId !in db.ev.t.versions
    requires p.versionId in AfterAttach(db, p).ev.t.versions
    requires var t := Serial(AfterAttach(db, p), transactions).ev.t;
             E.Supports(t, key, row) && t.cites[key].version == p.versionId
    ensures var states := [E.Pending] + History(AfterAttach(db, p), transactions, p.versionId);
            exists i: nat, j: nat :: i < j && MovesAt(states, i, E.Pending, E.InReview)
              && MovesAt(states, j, E.InReview, E.Approved)
  {
    AttachedHoldsTheExcerpt(db, p);
    HistoryIsAPath(AfterAttach(db, p), transactions, p.versionId);
    var i, j := PendingIsReviewedFirst(History(AfterAttach(db, p), transactions, p.versionId));
  }
}
