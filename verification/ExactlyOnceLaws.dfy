/**
 What clients of the wizard can rely on, told over whole runs: which requests go out under one key, how many
 reports their deliveries make, and what each delivery is answered.
 */
module ExactlyOnceLaws {
  import opened Wrappers
  import opened Idempotency
  import opened ExactlyOnce

  // ---- Runs, step by step ----

  ghost predicate FromStart(run: seq<Step>) {
    Runs(START, run)
  }

  lemma {:induction false} PrefixRuns(w: World, run: seq<Step>, n: nat)
    requires Runs(w, run) && n <= |run|
    ensures Runs(w, run[..n])
    decreases n
  {
    if n > 0 {
      assert run[..n][1..] == run[1..][..n - 1];
      PrefixRuns(Next(w, run[0]), run[1..], n - 1);
    }
  }

  /** The world before step `n`. */
  ghost function At(run: seq<Step>, n: nat): World
    requires FromStart(run) && n <= |run|
  {
    PrefixRuns(START, run, n);
    After(START, run[..n])
  }

  lemma {:induction false} OneStepFurther(w: World, run: seq<Step>, n: nat)
    requires Runs(w, run) && n < |run|
    ensures Runs(w, run[..n]) && Runs(w, run[..n + 1])
    ensures Enabled(After(w, run[..n]), run[n]) && After(w, run[..n + 1]) == Next(After(w, run[..n]), run[n])
    decreases n
  {
    PrefixRuns(w, run, n);
    PrefixRuns(w, run, n + 1);
    if n == 0 {
      assert run[..1][1..] == [];
    } else {
      assert run[..n][1..] == run[1..][..n - 1] && run[..n + 1][1..] == run[1..][..n];
      OneStepFurther(Next(w, run[0]), run[1..], n - 1);
    }
  }

  lemma StepAt(run: seq<Step>, n: nat)
    requires FromStart(run) && n < |run|
    ensures Enabled(At(run, n), run[n]) && At(run, n + 1) == Next(At(run, n), run[n])
  {
    OneStepFurther(START, run, n);
  }

  lemma InvAt(run: seq<Step>, n: nat)
    requires FromStart(run) && n <= |run|
    ensures Inv(At(run, n))
  {
    PrefixRuns(START, run, n);
    InvRun(START, run[..n]);
  }

  lemma {:induction false} Grows(run: seq<Step>, i: nat, n: nat)
    requires FromStart(run) && i <= n <= |run|
    ensures At(run, i).issued <= At(run, n).issued && At(run, i).requests <= At(run, n).requests
    decreases n
  {
    if i < n {
      Grows(run, i, n - 1);
      StepAt(run, n - 1);
    }
  }

  // ---- One key for the retries of an unchanged report ----

  predicate IsSend(run: seq<Step>, i: nat, client: nat) {
    i < |run| && run[i].Send? && run[i].client == client
  }

  /** The key of the request that goes out in step `i`. */
  ghost function SentKey(run: seq<Step>, i: nat, client: nat): string
    requires FromStart(run) && IsSend(run, i, client)
  {
    StepAt(run, i);
    At(run, i + 1).clients[client].waiting.value.key
  }

  /**
   The client hears a receipt or a conflict in this step, or sends a report that differs in what the wizard
   compares.
   */
  predicate StartsAnew(s: Step, client: nat, signature: Signature) {
    || (s.Hear? && s.client == client && (s.answer.reply.Receipt? || s.answer.reply.IdempotencyConflict?))
    || (s.Send? && s.client == client && PayloadSignature(s.input) != signature)
  }

  ghost predicate NothingBetween(run: seq<Step>, i: nat, n: nat, client: nat)
    requires IsSend(run, i, client) && n <= |run|
  {
    forall k :: i < k < n ==> !StartsAnew(run[k], client, PayloadSignature(run[i].input))
  }

  lemma SentIs(run: seq<Step>, i: nat, client: nat)
    requires FromStart(run) && IsSend(run, i, client)
    ensures var w, r := At(run, i + 1), Request(client, SentKey(run, i, client), run[i].input);
            && client in w.clients
            && w.clients[client] == Client(Some(KeyRef(r.key, PayloadSignature(run[i].input))), Some(r))
            && r in w.requests && r.key in w.issued
  {
    StepAt(run, i);
  }

  /** Until something starts anew the client holds on to the key it last sent. */
  lemma {:induction false} KeyIsKept(run: seq<Step>, i: nat, n: nat, client: nat)
    requires FromStart(run) && IsSend(run, i, client) && i < n <= |run| && NothingBetween(run, i, n, client)
    ensures client in At(run, n).clients
    ensures At(run, n).clients[client].keyRef == Some(KeyRef(SentKey(run, i, client), PayloadSignature(run[i].input)))
    decreases n
  {
    if n == i + 1 {
      SentIs(run, i, client);
    } else {
      KeyIsKept(run, i, n - 1, client);
      StepAt(run, n - 1);
      assert !StartsAnew(run[n - 1], client, PayloadSignature(run[i].input));
    }
  }

  ghost predicate Dropped(w: World, client: nat, key: string) {
    key in w.issued && client in w.clients
    && (w.clients[client].keyRef.Some? ==> w.clients[client].keyRef.value.key != key)
  }

  lemma StaysDropped(run: seq<Step>, n: nat, client: nat, key: string)
    requires FromStart(run) && n < |run| && Dropped(At(run, n), client, key)
    ensures Dropped(At(run, n + 1), client, key)
  {
    StepAt(run, n);
  }

  /** What starts anew takes the key from the client for good. */
  lemma {:induction false} KeyIsDropped(run: seq<Step>, i: nat, k: nat, n: nat, client: nat)
    requires FromStart(run) && IsSend(run, i, client) && i < k < n <= |run|
    requires StartsAnew(run[k], client, PayloadSignature(run[i].input))
    ensures Dropped(At(run, n), client, SentKey(run, i, client))
    decreases n
  {
    if n == k + 1 {
      SentIs(run, i, client);
      Grows(run, i + 1, k);
      InvAt(run, k);
      StepAt(run, k);
    } else {
      KeyIsDropped(run, i, k, n - 1, client);
      StaysDropped(run, n - 1, client, SentKey(run, i, client));
    }
  }

  /**
   Two requests of one client go out under one key if and only if they carry what the wizard takes for the same
   report, and between them the client neither heard a receipt or a conflict nor sent another report.
   */
  lemma SameKeyIffNothingBetween(run: seq<Step>, i: nat, j: nat, client: nat)
    requires FromStart(run) && IsSend(run, i, client) && IsSend(run, j, client) && i < j
    ensures SentKey(run, i, client) == SentKey(run, j, client)
            <==> PayloadSignature(run[i].input) == PayloadSignature(run[j].input) && NothingBetween(run, i, j, client)
  {
    SentIs(run, i, client);
    SentIs(run, j, client);
    Grows(run, i + 1, j + 1);
    InvAt(run, j + 1);
    if PayloadSignature(run[i].input) == PayloadSignature(run[j].input) {
      StepAt(run, j);
      if NothingBetween(run, i, j, client) {
        KeyIsKept(run, i, j, client);
      } else {
        var k :| i < k < j && StartsAnew(run[k], client, PayloadSignature(run[i].input));
        KeyIsDropped(run, i, k, j, client);
      }
    }
  }

  /** A key the client holds is that of an earlier request of its own, with nothing in between. */
  ghost predicate KeyOfARetry(run: seq<Step>, n: nat, client: nat, keyRef: KeyRef)
    requires FromStart(run) && n <= |run|
  {
    exists i :: 0 <= i < n && IsSend(run, i, client) && NothingBetween(run, i, n, client)
                && keyRef == KeyRef(SentKey(run, i, client), PayloadSignature(run[i].input))
  }

  lemma HeldBefore(w: World, s: Step, client: nat)
    requires Enabled(w, s) && !(s.Send? && s.client == client)
    requires client in Next(w, s).clients && Next(w, s).clients[client].keyRef.Some?
    ensures client in w.clients && w.clients[client].keyRef == Next(w, s).clients[client].keyRef
    ensures forall signature :: !StartsAnew(s, client, signature)
  {
  }

  lemma StillARetry(run: seq<Step>, n: nat, client: nat, keyRef: KeyRef)
    requires FromStart(run) && n < |run| && KeyOfARetry(run, n, client, keyRef)
    requires forall signature :: !StartsAnew(run[n], client, signature)
    ensures KeyOfARetry(run, n + 1, client, keyRef)
  {
    var i :| 0 <= i < n && IsSend(run, i, client) && NothingBetween(run, i, n, client)
      && keyRef == KeyRef(SentKey(run, i, client), PayloadSignature(run[i].input));
    assert NothingBetween(run, i, n + 1, client);
  }

  lemma {:induction false} HeldKeyIsARetry(run: seq<Step>, n: nat, client: nat)
    requires FromStart(run) && n <= |run| && client in At(run, n).clients
    requires At(run, n).clients[client].keyRef.Some?
    ensures KeyOfARetry(run, n, client, At(run, n).clients[client].keyRef.value)
    decreases n
  {
    if n > 0 {
      StepAt(run, n - 1);
      var s, keyRef := run[n - 1], At(run, n).clients[client].keyRef.value;
      if s.Send? && s.client == client {
        SentIs(run, n - 1, client);
        assert NothingBetween(run, n - 1, n, client);
      } else {
        HeldBefore(At(run, n - 1), s, client);
        HeldKeyIsARetry(run, n - 1, client);
        StillARetry(run, n - 1, client, keyRef);
      }
    }
  }

  /**
   The first request of a report, and the first after a receipt, a conflict or an edit, has a key never seen
   before.
   */
  lemma KeyIsNewIffNoRetry(run: seq<Step>, j: nat, client: nat)
    requires FromStart(run) && IsSend(run, j, client)
    ensures SentKey(run, j, client) !in At(run, j).issued
            <==> forall i :: 0 <= i < j && IsSend(run, i, client)
                             && PayloadSignature(run[i].input) == PayloadSignature(run[j].input) ==>
                               !NothingBetween(run, i, j, client)
  {
    StepAt(run, j);
    SentIs(run, j, client);
    var w := At(run, j);
    forall i | 0 <= i < j && IsSend(run, i, client) && NothingBetween(run, i, j, client)
               && PayloadSignature(run[i].input) == PayloadSignature(run[j].input)
      ensures SentKey(run, j, client) in w.issued
    {
      SameKeyIffNothingBetween(run, i, j, client);
      SentIs(run, i, client);
      Grows(run, i + 1, j);
    }
    if SentKey(run, j, client) in w.issued {
      HeldKeyIsARetry(run, j, client);
    }
  }

  // ---- One request at a time ----

  /** The client hears an answer or gives up. */
  predicate EndsWaiting(s: Step, client: nat) {
    (s.Hear? || s.GiveUp?) && s.client == client
  }

  ghost predicate StillOut(run: seq<Step>, n: nat, client: nat)
    requires n <= |run|
  {
    exists i :: 0 <= i < n && IsSend(run, i, client) && forall k :: i < k < n ==> !EndsWaiting(run[k], client)
  }

  lemma OutOneStepOn(run: seq<Step>, n: nat, client: nat)
    requires n < |run|
    ensures StillOut(run, n + 1, client)
            <==> IsSend(run, n, client) || (StillOut(run, n, client) && !EndsWaiting(run[n], client))
  {
  }

  /**
   A client is out waiting from each request it sends until it hears an answer or gives up; only then may it send
   again.
   */
  lemma {:induction false} WaitingIffStillOut(run: seq<Step>, n: nat, client: nat)
    requires FromStart(run) && n <= |run|
    ensures client in At(run, n).clients && At(run, n).clients[client].waiting.Some? <==> StillOut(run, n, client)
    decreases n
  {
    if n > 0 {
      WaitingIffStillOut(run, n - 1, client);
      StepAt(run, n - 1);
      OutOneStepOn(run, n - 1, client);
    }
  }

  // ---- Retries make one report ----

  /** The delivery in step `d` of the request sent in step `i` makes a report. */
  ghost predicate Makes(run: seq<Step>, d: nat, i: nat, client: nat)
    requires FromStart(run)
  {
    && d < |run| && IsSend(run, i, client)
    && run[d] == Deliver(Request(client, SentKey(run, i, client), run[i].input))
    && |At(run, d).reports| < |At(run, d + 1).reports|
  }

  lemma MadeReport(run: seq<Step>, d: nat, i: nat, client: nat)
    requires FromStart(run) && Makes(run, d, i, client)
    ensures var w, w' := At(run, d), At(run, d + 1);
            && |w'.reports| == |w.reports| + 1 && w'.reports[..|w.reports|] == w.reports
            && w'.reports[|w.reports|].key == ReportKey(SentKey(run, i, client))
            && w'.reports[|w.reports|].at == w.now
  {
    StepAt(run, d);
  }

  lemma {:induction false} ReportsStay(run: seq<Step>, m: nat, n: nat)
    requires FromStart(run) && m <= n <= |run|
    ensures At(run, m).reports <= At(run, n).reports
    decreases n
  {
    if m < n {
      ReportsStay(run, m, n - 1);
      StepAt(run, n - 1);
    }
  }

  /**
   However often a report is sent again unchanged, and whatever the network repeats: of all deliveries of all
   these requests, any two that make a report are at least the retention of a day apart.
   */
  lemma RetriesMakeOneReport(run: seq<Step>, d: nat, e: nat, i: nat, j: nat, client: nat)
    requires FromStart(run) && d < e && i <= j && IsSend(run, j, client)
    requires || (Makes(run, d, i, client) && Makes(run, e, j, client))
             || (Makes(run, d, j, client) && Makes(run, e, i, client))
    requires IsSend(run, i, client) && NothingBetween(run, i, j, client)
    requires PayloadSignature(run[i].input) == PayloadSignature(run[j].input)
    ensures At(run, d).now + 86_400_000_000 <= At(run, e).now
  {
    if i < j {
      SameKeyIffNothingBetween(run, i, j, client);
    }
    if Makes(run, d, i, client) && Makes(run, e, j, client) {
      TwoReportsApart(run, d, e, i, j, client);
    } else {
      TwoReportsApart(run, d, e, j, i, client);
    }
  }

  lemma TwoReportsApart(run: seq<Step>, d: nat, e: nat, i: nat, j: nat, client: nat)
    requires FromStart(run) && d < e && Makes(run, d, i, client) && Makes(run, e, j, client)
    requires SentKey(run, i, client) == SentKey(run, j, client)
    ensures At(run, d).now + 86_400_000_000 <= At(run, e).now
  {
    MadeReport(run, d, i, client);
    MadeReport(run, e, j, client);
    ReportsStay(run, d + 1, e);
    var a, b := |At(run, d).reports|, |At(run, e).reports|;
    var w := At(run, e + 1);
    assert w.reports[a] == At(run, e).reports[a];
    assert At(run, e).reports[a] == At(run, d + 1).reports[a];
    PrefixRuns(START, run, e + 1);
    AtMostOnceWithinRetention(run[..e + 1], a, b);
  }

  // ---- What a delivery is answered ----

  /** A sealed answer that is gone was past its window. */
  ghost predicate SealsHold(w: World) {
    forall k :: k in w.records && w.records[k].sealed == None ==> w.records[k].sealedUntil <= w.now
  }

  lemma SealsNext(w: World, s: Step)
    requires SealsHold(w) && Enabled(w, s)
    ensures SealsHold(Next(w, s))
  {
    if s.PurgeRun? {
      forall k | k in Next(w, s).records && Next(w, s).records[k].sealed == None
        ensures Next(w, s).records[k].sealedUntil <= w.now
      {
        if k in s.scrubbed {
          assert k in Stale(w.records, w.now);
        }
      }
    }
  }

  lemma {:induction false} SealsRun(w: World, run: seq<Step>)
    requires SealsHold(w) && Runs(w, run)
    ensures SealsHold(After(w, run))
    decreases |run|
  {
    if run != [] {
      SealsNext(w, run[0]);
      SealsRun(Next(w, run[0]), run[1..]);
    }
  }

  /** A report made with the key less than a day ago. */
  predicate IsLive(w: World, key: string, n: nat) {
    && n < |w.reports| && w.reports[n].key == Key("reports.create", key)
    && w.now < w.reports[n].at + 86_400_000_000
  }

  /** The live report is the one the key's record stands for. */
  lemma LiveIsRecorded(w: World, key: string, n: nat)
    requires Inv(w) && IsLive(w, key, n)
    ensures RecordsReport(w, ReportKey(key), n)
  {
    assert Retired(w, n);
    assert Recorded(w, ReportKey(key));
    var m: nat :| RecordsReport(w, ReportKey(key), m);
    assert n <= m;
  }

  lemma RecordedIsLive(w: World, key: string) returns (n: nat)
    requires Inv(w) && ReportKey(key) in w.records && w.now < w.records[ReportKey(key)].expiresAt
    ensures IsLive(w, key, n)
  {
    assert Recorded(w, ReportKey(key));
    n :| RecordsReport(w, ReportKey(key), n);
  }

  /** The answer, told from the reports made so far, the time, and what the request carries. */
  ghost predicate AnswerFits(w: World, r: Request, reply: Reply) {
    if forall n: nat :: !IsLive(w, r.key, n) then reply == Receipt(|w.reports|)
    else forall n: nat :: IsLive(w, r.key, n) ==>
                            reply == if w.reports[n].fingerprint != RequestFingerprint(r.input) then IdempotencyConflict
                                     else if w.now < w.reports[n].at + 900_000_000 then Receipt(n)
                                     else Received
  }

  /** What a delivery changes: one answer more, and a report more if and only if none with the key is a day young. */
  ghost predicate DeliveryFits(w: World, r: Request, w': World) {
    && (exists reply :: AnswerFits(w, r, reply) && w'.answers == w.answers + {Answered(r, reply, w.now)})
    && w'.reports == (if exists n: nat :: IsLive(w, r.key, n) then w.reports
                      else w.reports + [Report(Key("reports.create", r.key), RequestFingerprint(r.input), w.now)])
    && w'.now == w.now && w'.clients == w.clients && w'.requests == w.requests
  }

  lemma AnswerFromReports(w: World, r: Request)
    requires Inv(w) && SealsHold(w)
    ensures AnswerFits(w, r, Answer(w.records, |w.reports|, r.key, r.input, w.now))
    ensures ClaimOutcome(w.records, ClaimFor(r.key, r.input, w.now)) == Claimed
            <==> forall n: nat :: !IsLive(w, r.key, n)
  {
    forall n: nat | IsLive(w, r.key, n) ensures RecordsReport(w, ReportKey(r.key), n) {
      LiveIsRecorded(w, r.key, n);
    }
    if ReportKey(r.key) in w.records && w.now < w.records[ReportKey(r.key)].expiresAt {
      var n := RecordedIsLive(w, r.key);
    }
  }

  /**
   In every state of every run a delivery is answered, and makes a report or not, as the reports made so far
   say: no report with the key in the last day, and it makes one; a report of other content, and it conflicts; the
   same content, and it is answered with that report's receipt for a quarter of an hour, then only as received.
   */
  lemma DeliveriesFollowTheReports(run: seq<Step>, r: Request)
    requires FromStart(run) && r in After(START, run).requests
    ensures var w := After(START, run); DeliveryFits(w, r, Next(w, Deliver(r)))
  {
    var w := After(START, run);
    InvRun(START, run);
    SealsRun(START, run);
    AnswerFromReports(w, r);
    assert AnswerFits(w, r, Answer(w.records, |w.reports|, r.key, r.input, w.now));
  }

  // ---- What the server compares ----

  /** The contact of an anonymous report, and the passphrase of any, are not looked at. */
  predicate SameSender(a: Input, b: Input) {
    match (a.mode, b.mode)
    case (Anonymous, Anonymous) => true
    case (Contact, Contact) => a.contactChannel == b.contactChannel && a.contactValue == b.contactValue
    case (Handle, Handle) => a.handle == b.handle
    case (Anonymous, Contact) => b.contactChannel == "" && b.contactValue == ""
    case (Contact, Anonymous) => a.contactChannel == "" && a.contactValue == ""
    case (Anonymous, Handle) => b.handle == ""
    case (Handle, Anonymous) => a.handle == ""
    case (Contact, Handle) => a.contactChannel == "" && a.contactValue == "" && b.handle == ""
    case (Handle, Contact) => b.contactChannel == "" && b.contactValue == "" && a.handle == ""
  }

  lemma FingerprintsAgreeIff(a: Input, b: Input)
    ensures RequestFingerprint(a) == RequestFingerprint(b)
            <==> a.slug == b.slug && a.category == b.category && a.description == b.description && SameSender(a, b)
                 && |a.files| == |b.files|
                 && forall k :: 0 <= k < |a.files| ==> a.files[k].content == b.files[k].content
  {
    var f, g := RequestFingerprint(a), RequestFingerprint(b);
    assert f[6..] == Contents(a) && g[6..] == Contents(b);
    assert Contents(a) == Contents(b)
      <==> |a.files| == |b.files| && forall k :: 0 <= k < |a.files| ==> a.files[k].content == b.files[k].content by {
      if Contents(a) == Contents(b) {
        assert |Contents(a)| == |Contents(b)|;
        forall k | 0 <= k < |a.files| ensures a.files[k].content == b.files[k].content {
          assert Contents(a)[k] == Contents(b)[k];
        }
      }
    }
    assert f[..6] + f[6..] == f && g[..6] + g[6..] == g;
    if f == g {
      assert f[0] == g[0] && f[1] == g[1] && f[2] == g[2] && f[3] == g[3] && f[4] == g[4] && f[5] == g[5];
    }
  }
}
