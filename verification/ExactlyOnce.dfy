/**
 Exactly once over a lossy network: the report wizard that reuses its key while the report is
 unchanged, a network that may lose, delay and repeat anything, and a server that claims the key,
 writes the report and completes the record in one transaction.
 */
module ExactlyOnce {
  import opened Wrappers
  import opened Idempotency

  const SEALED_WINDOW := 900_000_000
  const RETENTION := 86_400_000_000
  const OPERATION := "reports.create"
  const CREATED := 201

  // ---- What is sent, and the two digests taken of it ----

  datatype Mode = Anonymous | Contact | Handle
  datatype File = File(size: nat, lastModified: int, mime: string, content: string)
  datatype Input = Input(
    slug: string, category: string, description: string, mode: Mode,
    contactChannel: string, contactValue: string, handle: string, passphrase: string,
    files: seq<File>)

  datatype Signature = Signature(
    slug: string, category: string, description: string, mode: Mode,
    contactChannel: string, contactValue: string, handle: string, passphrase: string,
    files: seq<(nat, int, string)>)

  /** The wizard's own comparison: of a file it looks at size, modification time and type only. */
  function PayloadSignature(i: Input): Signature {
    Signature(i.slug, i.category, i.description, i.mode, i.contactChannel, i.contactValue, i.handle, i.passphrase,
              seq(|i.files|,
                  k requires 0 <= k < |i.files| => (i.files[k].size, i.files[k].lastModified, i.files[k].mime)))
  }

  function Contents(i: Input): seq<string> {
    seq(|i.files|, k requires 0 <= k < |i.files| => i.files[k].content)
  }

  /** The server's comparison: only the fields of the chosen mode, and the digest of every file. */
  function RequestFingerprint(i: Input): Fingerprint {
    [i.slug, i.category, i.description,
     if i.mode.Contact? then i.contactChannel else "",
     if i.mode.Contact? then i.contactValue else "",
     if i.mode.Handle? then i.handle else ""] + Contents(i)
  }

  lemma SameSignatureSameFingerprintIffSameContents(a: Input, b: Input)
    requires PayloadSignature(a) == PayloadSignature(b)
    ensures RequestFingerprint(a) == RequestFingerprint(b) <==> Contents(a) == Contents(b)
  {
    if RequestFingerprint(a) == RequestFingerprint(b) {
      assert Contents(a) == RequestFingerprint(a)[6..];
      assert Contents(b) == RequestFingerprint(b)[6..];
    }
  }

  // ---- The wizard ----

  datatype KeyRef = KeyRef(key: string, signature: Signature)
  datatype Reply = Receipt(n: nat) | IdempotencyConflict | Received | OtherProblem
  datatype Result = Heard(reply: Reply) | Aborted | NetworkError

  /** The key of the last attempt if nothing the wizard looks at has changed since, or else the fresh one. */
  function ChosenKey(keyRef: Option<KeyRef>, signature: Signature, randomKey: string): KeyRef {
    if keyRef.Some? && keyRef.value.signature == signature then keyRef.value else KeyRef(randomKey, signature)
  }

  function KeptKey(keyRef: Option<KeyRef>, result: Result): Option<KeyRef> {
    if result.Heard? && (result.reply.Receipt? || result.reply.IdempotencyConflict?) then None else keyRef
  }

  class Wizard {
    var keyRef: Option<KeyRef>
    var sending: bool

    constructor ()
      ensures keyRef == None && !sending
    {
      keyRef, sending := None, false;
    }

    /** A click while a request is out sends nothing. */
    method Send(input: Input, randomKey: string) returns (key: Option<string>)
      modifies this
      ensures sending
      ensures old(sending) ==> key == None && keyRef == old(keyRef)
      ensures !old(sending) ==>
                && keyRef == Some(ChosenKey(old(keyRef), PayloadSignature(input), randomKey))
                && key == Some(keyRef.value.key)
    {
      if sending {
        return None;
      }
      sending := true;
      var signature := PayloadSignature(input);
      if keyRef.None? || keyRef.value.signature != signature {
        keyRef := Some(KeyRef(randomKey, signature));
      }
      key := Some(keyRef.value.key);
    }

    method Finish(result: Result)
      modifies this
      ensures !sending && keyRef == KeptKey(old(keyRef), result)
    {
      sending := false;
      if result.Heard? {
        if result.reply.Receipt? {
          keyRef := None;
        } else if result.reply.IdempotencyConflict? {
          keyRef := None;
        }
      }
    }
  }

  // ---- The server ----

  datatype Report = Report(key: Key, fingerprint: Fingerprint, at: int)

  function ReportKey(key: string): Key {
    Key(OPERATION, key)
  }

  function ClaimFor(key: string, input: Input, now: int): Claim {
    Claim(ReportKey(key), RequestFingerprint(input), now, now + SEALED_WINDOW, now + RETENTION)
  }

  /** The answer to a request; `n` is the number the next report would get. */
  function Answer(rs: Records, n: nat, key: string, input: Input, now: int): Reply {
    match ClaimOutcome(rs, ClaimFor(key, input, now))
    case Claimed => Receipt(n)
    case Replay(_, sealed) => Receipt(sealed.receipt)
    case AlreadyReceived => Received
    case _ => IdempotencyConflict
  }

  function RecordFor(n: nat, key: string, input: Input, now: int): Record {
    Record(RequestFingerprint(input), true, Some(CREATED), Some(Sealed(n)), now, now + SEALED_WINDOW, now + RETENTION)
  }

  class Server {
    var store: IdempotencyStore
    var reports: seq<Report>

    constructor ()
      ensures fresh(store) && store.records == map[] && reports == []
    {
      store := new IdempotencyStore();
      reports := [];
    }

    /** One committed unit of work: the claim, the report and the completion, which never raises. */
    method Submit(key: string, input: Input, now: int) returns (reply: Reply)
      modifies this`reports, store
      ensures store == old(store)
      ensures reply == Answer(old(store.records), |old(reports)|, key, input, now)
      ensures var claimed := ClaimOutcome(old(store.records), ClaimFor(key, input, now)) == Claimed;
              && store.records
                  == (if claimed then old(store.records)[ReportKey(key) := RecordFor(|old(reports)|, key, input, now)]
                                   else old(store.records))
              && reports == if claimed then old(reports) + [Report(ReportKey(key), RequestFingerprint(input), now)]
                            else old(reports)
    {
      var c := ClaimFor(key, input, now);
      var outcome := store.TryClaim(c);
      match outcome {
        case Claimed =>
          var n := |reports|;
          reports := reports + [Report(c.key, c.fingerprint, now)];
          var ok := store.Complete(c.key, Some(CREATED), Some(Sealed(n)));
          assert ok;
          reply := Receipt(n);
        case Replay(_, sealed) => reply := Receipt(sealed.receipt);
        case AlreadyReceived => reply := Received;
        case Conflict => reply := IdempotencyConflict;
        case InProgress => reply := IdempotencyConflict;
      }
    }
  }

  // ---- The whole system ----

  datatype Request = Request(client: nat, key: string, input: Input)
  datatype Client = Client(keyRef: Option<KeyRef>, waiting: Option<Request>)
  datatype Answered = Answered(request: Request, reply: Reply, at: int)

  /** Everything ever sent stays in `requests` and `answers`, so it may be delivered late, never, or again. */
  datatype World = World(
    now: int,
    clients: map<nat, Client>,
    issued: set<string>,
    requests: set<Request>,
    answers: set<Answered>,
    records: Records,
    reports: seq<Report>)

  datatype Step =
    | Open(client: nat)
    | Send(client: nat, input: Input, randomKey: string)
    | Deliver(request: Request)
    | RollBack(request: Request)
    | Hear(client: nat, answer: Answered)
    | GiveUp(client: nat, result: Result)
    | Tick(to: int)
    | PurgeRun(batch: nat, scrubbed: set<Key>, removed: set<Key>)

  predicate Enabled(w: World, s: Step) {
    match s
    case Open(c) => c !in w.clients
    case Send(c, _, randomKey) => c in w.clients && w.clients[c].waiting.None? && randomKey !in w.issued
    case Deliver(r) => r in w.requests
    case RollBack(r) => r in w.requests
    case Hear(c, a) => c in w.clients && w.clients[c].waiting == Some(a.request) && a in w.answers
    case GiveUp(c, result) => c in w.clients && !result.Heard?
    case Tick(t) => w.now <= t
    case PurgeRun(batch, scrubbed, removed) => PurgeChoice(w.records, w.now, batch, scrubbed, removed)
  }

  function Next(w: World, s: Step): World
    requires Enabled(w, s)
  {
    match s
    case Open(c) => w.(clients := w.clients[c := Client(None, None)])
    case Send(c, input, randomKey) =>
      var chosen := ChosenKey(w.clients[c].keyRef, PayloadSignature(input), randomKey);
      var r := Request(c, chosen.key, input);
      w.(clients := w.clients[c := Client(Some(chosen), Some(r))],
         issued := w.issued + {chosen.key},
         requests := w.requests + {r})
    case Deliver(r) =>
      var claimed := ClaimOutcome(w.records, ClaimFor(r.key, r.input, w.now)) == Claimed;
      var n := |w.reports|;
      w.(answers := w.answers + {Answered(r, Answer(w.records, n, r.key, r.input, w.now), w.now)},
         records := if claimed then w.records[ReportKey(r.key) := RecordFor(n, r.key, r.input, w.now)] else w.records,
         reports := if claimed then w.reports + [Report(ReportKey(r.key), RequestFingerprint(r.input), w.now)]
           else w.reports)
    case RollBack(r) => w.(answers := w.answers + {Answered(r, OtherProblem, w.now)})
    case Hear(c, a) => w.(clients := w.clients[c := Client(KeptKey(w.clients[c].keyRef, Heard(a.reply)), None)])
    case GiveUp(c, result) => w.(clients := w.clients[c := Client(KeptKey(w.clients[c].keyRef, result), None)])
    case Tick(t) => w.(now := t)
    case PurgeRun(_, scrubbed, removed) => w.(records := AfterPurge(w.records, scrubbed, removed))
  }

  const START := World(0, map[], {}, {}, {}, map[], [])

  ghost predicate Runs(w: World, run: seq<Step>)
    decreases |run|
  {
    run == [] || (Enabled(w, run[0]) && Runs(Next(w, run[0]), run[1..]))
  }

  function After(w: World, run: seq<Step>): World
    requires Runs(w, run)
    decreases |run|
  {
    if run == [] then w else After(Next(w, run[0]), run[1..])
  }

  // ---- Invariants ----

  predicate SharesKey(c: Client, d: Client) {
    c.keyRef.Some? && d.keyRef.Some? && c.keyRef.value.key == d.keyRef.value.key
  }

  predicate HasKey(c: Client, key: string) {
    c.keyRef.Some? && c.keyRef.value.key == key
  }

  /** One key is one client's and stands for one signature. */
  ghost predicate KeysArePaired(w: World) {
    && (forall r :: r in w.requests ==> r.key in w.issued)
    && (forall r, r' :: r in w.requests && r' in w.requests && r.key == r'.key ==>
          r.client == r'.client && PayloadSignature(r.input) == PayloadSignature(r'.input))
    && (forall c :: c in w.clients && w.clients[c].keyRef.Some? ==> w.clients[c].keyRef.value.key in w.issued)
    && (forall c, r :: c in w.clients && r in w.requests && HasKey(w.clients[c], r.key) ==>
          r.client == c && PayloadSignature(r.input) == w.clients[c].keyRef.value.signature)
    && (forall c, d :: c in w.clients && d in w.clients && SharesKey(w.clients[c], w.clients[d]) ==> c == d)
  }

  ghost predicate FromARequest(w: World, p: Report) {
    exists r :: r in w.requests && p.key == ReportKey(r.key) && p.fingerprint == RequestFingerprint(r.input)
  }

  /** The record of a key is the completed record of the last report made with it. */
  ghost predicate RecordsReport(w: World, key: Key, n: nat) {
    && key in w.records && n < |w.reports|
    && var r, p := w.records[key], w.reports[n];
    && p.key == key && r.completed && r.status == Some(CREATED)
    && r.fingerprint == p.fingerprint && r.createdAt == p.at
    && r.sealedUntil == p.at + SEALED_WINDOW && r.expiresAt == p.at + RETENTION
    && (r.sealed == None || r.sealed == Some(Sealed(n)))
    && forall i :: 0 <= i < |w.reports| && w.reports[i].key == key ==> i <= n
  }

  ghost predicate Recorded(w: World, key: Key) {
    exists n: nat :: RecordsReport(w, key, n)
  }

  /** A report whose record is gone is past its retention. */
  ghost predicate Retired(w: World, i: nat)
    requires i < |w.reports|
  {
    w.reports[i].key in w.records || w.reports[i].at + RETENTION <= w.now
  }

  ghost predicate Spaced(w: World) {
    forall i, j :: 0 <= i < j < |w.reports| && w.reports[i].key == w.reports[j].key ==>
                     w.reports[i].at + RETENTION <= w.reports[j].at
  }

  ghost predicate ReportsAreRecorded(w: World) {
    && (forall i :: 0 <= i < |w.reports| ==> w.reports[i].at <= w.now && FromARequest(w, w.reports[i]) && Retired(w, i))
    && (forall key :: key in w.records ==> Recorded(w, key))
    && Spaced(w)
  }

  ghost predicate ReceiptIsTheReports(w: World, a: Answered) {
    a.reply.Receipt? ==>
      && a.reply.n < |w.reports|
      && var p := w.reports[a.reply.n];
      && p.key == ReportKey(a.request.key) && p.fingerprint == RequestFingerprint(a.request.input)
      && p.at <= a.at < p.at + SEALED_WINDOW
  }

  ghost predicate ReceiptsAreRight(w: World) {
    forall a :: a in w.answers ==> a.request in w.requests && ReceiptIsTheReports(w, a)
  }

  ghost predicate Inv(w: World) {
    KeysArePaired(w) && ReportsAreRecorded(w) && ReceiptsAreRight(w)
  }

  lemma PairedAfterSend(w: World, s: Step)
    requires KeysArePaired(w) && s.Send? && Enabled(w, s)
    ensures KeysArePaired(Next(w, s))
  {
  }

  /** No other step issues a key, sends a request or gives a client a key it did not have. */
  lemma PairedOtherwise(w: World, w': World)
    requires KeysArePaired(w) && w'.requests == w.requests && w'.issued == w.issued
    requires forall c :: c in w'.clients && w'.clients[c].keyRef.Some? ==>
                           c in w.clients && w.clients[c].keyRef == w'.clients[c].keyRef
    ensures KeysArePaired(w')
  {
  }

  lemma PairedNext(w: World, s: Step)
    requires KeysArePaired(w) && Enabled(w, s)
    ensures KeysArePaired(Next(w, s))
  {
    if s.Send? {
      PairedAfterSend(w, s);
    } else {
      PairedOtherwise(w, Next(w, s));
    }
  }

  /** Reports and records do not move: the recorded facts survive time, and more requests. */
  lemma RecordedGrows(w: World, w': World)
    requires ReportsAreRecorded(w)
    requires w'.records == w.records && w'.reports == w.reports && w.requests <= w'.requests && w.now <= w'.now
    ensures ReportsAreRecorded(w')
  {
    forall key | key in w'.records ensures Recorded(w', key) {
      assert Recorded(w, key);
      var n: nat :| RecordsReport(w, key, n);
      assert RecordsReport(w', key, n);
    }
    forall i | 0 <= i < |w'.reports| ensures FromARequest(w', w'.reports[i]) && Retired(w', i) {
      assert FromARequest(w, w.reports[i]) && Retired(w, i);
    }
  }

  /** Once a key's record has expired, or is gone, every report made with the key is past its retention. */
  lemma DeadKeyIsRetired(w: World, key: Key, i: nat)
    requires ReportsAreRecorded(w) && i < |w.reports| && w.reports[i].key == key
    requires key in w.records ==> w.records[key].expiresAt <= w.now
    ensures w.reports[i].at + RETENTION <= w.now
  {
    assert Retired(w, i);
    if key in w.records {
      assert Recorded(w, key);
      var n: nat :| RecordsReport(w, key, n);
    }
  }

  lemma RecordedAfterPurge(w: World, s: Step)
    requires ReportsAreRecorded(w) && s.PurgeRun? && Enabled(w, s)
    ensures ReportsAreRecorded(Next(w, s))
  {
    var w' := Next(w, s);
    forall key | key in w'.records ensures Recorded(w', key) {
      PurgedRow(w.records, w.now, s.batch, s.scrubbed, s.removed, key);
      assert Recorded(w, key);
      var n: nat :| RecordsReport(w, key, n);
      assert RecordsReport(w', key, n);
    }
    forall i | 0 <= i < |w.reports| ensures FromARequest(w', w.reports[i]) && Retired(w', i) {
      assert FromARequest(w, w.reports[i]) && Retired(w, i);
      var key := w.reports[i].key;
      PurgedRow(w.records, w.now, s.batch, s.scrubbed, s.removed, key);
      if key !in w'.records {
        DeadKeyIsRetired(w, key, i);
      }
    }
  }

  lemma RecordedAfterDeliver(w: World, r: Request)
    requires ReportsAreRecorded(w) && r in w.requests
    ensures ReportsAreRecorded(Next(w, Deliver(r)))
  {
    var w' := Next(w, Deliver(r));
    if ClaimOutcome(w.records, ClaimFor(r.key, r.input, w.now)) != Claimed {
      RecordedGrows(w, w');
    } else {
      RecordedAfterClaim(w, r);
    }
  }

  lemma RecordedAfterClaim(w: World, r: Request)
    requires ReportsAreRecorded(w) && r in w.requests
    requires ClaimOutcome(w.records, ClaimFor(r.key, r.input, w.now)) == Claimed
    ensures ReportsAreRecorded(Next(w, Deliver(r)))
  {
    var w' := Next(w, Deliver(r));
    var n, k := |w.reports|, ReportKey(r.key);
    forall key | key in w'.records ensures Recorded(w', key) {
      if key == k {
        assert RecordsReport(w', key, n);
      } else {
        assert Recorded(w, key);
        var m: nat :| RecordsReport(w, key, m);
        assert RecordsReport(w', key, m);
      }
    }
    forall i | 0 <= i < n ensures w.reports[i].key == k ==> w.reports[i].at + RETENTION <= w.now {
      if w.reports[i].key == k {
        DeadKeyIsRetired(w, k, i);
      }
    }
    forall i | 0 <= i < |w'.reports|
      ensures w'.reports[i].at <= w'.now && FromARequest(w', w'.reports[i]) && Retired(w', i)
    {
      if i < n {
        assert FromARequest(w, w.reports[i]) && Retired(w, i);
      } else {
        assert r in w'.requests;
      }
    }
    assert Spaced(w') by {
      assert Spaced(w);
    }
  }

  /** The answer to a delivered request carries the receipt of the report its key made. */
  lemma AnswerIsRight(w: World, r: Request)
    requires ReportsAreRecorded(w) && r in w.requests
    ensures var reply := Answer(w.records, |w.reports|, r.key, r.input, w.now);
            ReceiptIsTheReports(Next(w, Deliver(r)), Answered(r, reply, w.now))
  {
    var k := ReportKey(r.key);
    if k in w.records {
      assert Recorded(w, k);
      var n: nat :| RecordsReport(w, k, n);
    }
  }

  lemma ReceiptsNext(w: World, s: Step)
    requires Inv(w) && Enabled(w, s)
    ensures ReceiptsAreRight(Next(w, s))
  {
    var w' := Next(w, s);
    if s.Deliver? {
      AnswerIsRight(w, s.request);
    }
    forall a | a in w'.answers ensures a.request in w'.requests && ReceiptIsTheReports(w', a) {
      if a in w.answers {
        assert ReceiptIsTheReports(w, a);
      }
    }
  }

  lemma InvNext(w: World, s: Step)
    requires Inv(w) && Enabled(w, s)
    ensures Inv(Next(w, s))
  {
    PairedNext(w, s);
    ReceiptsNext(w, s);
    match s {
      case Deliver(r) => RecordedAfterDeliver(w, r);
      case PurgeRun(_, _, _) => RecordedAfterPurge(w, s);
      case _ => RecordedGrows(w, Next(w, s));
    }
  }

  lemma {:induction false} InvRun(w: World, run: seq<Step>)
    requires Inv(w) && Runs(w, run)
    ensures Inv(After(w, run))
    decreases |run|
  {
    if run != [] {
      InvNext(w, run[0]);
      InvRun(Next(w, run[0]), run[1..]);
    }
  }

  // ---- The promises ----

  /**
   Over every run, whatever is lost, repeated or retried: two reports made with one key are at least
   the retention apart.
   */
  lemma AtMostOnceWithinRetention(run: seq<Step>, i: nat, j: nat)
    requires Runs(START, run)
    requires var w := After(START, run); i < j < |w.reports| && w.reports[i].key == w.reports[j].key
    ensures var w := After(START, run); w.reports[i].at + RETENTION <= w.reports[j].at
  {
    InvRun(START, run);
  }

  /**
   Over every run, every receipt a request is answered with, first or replayed, is of a report made
   with that request's key and from exactly that request's content, within the sealed window.
   */
  lemma EveryReceiptIsTheRequests(run: seq<Step>, a: Answered)
    requires Runs(START, run)
    requires a in After(START, run).answers && a.reply.Receipt?
    ensures var w := After(START, run);
            && a.reply.n < |w.reports|
            && w.reports[a.reply.n].key == ReportKey(a.request.key)
            && w.reports[a.reply.n].fingerprint == RequestFingerprint(a.request.input)
            && w.reports[a.reply.n].at <= a.at < w.reports[a.reply.n].at + SEALED_WINDOW
  {
    InvRun(START, run);
  }

  /** The request whose report the key's live record stands for, as far as its content tells. */
  ghost predicate LiveMaker(w: World, key: string, maker: Request) {
    && maker in w.requests && maker.key == key
    && ReportKey(key) in w.records && w.records[ReportKey(key)].expiresAt > w.now
    && w.records[ReportKey(key)].fingerprint == RequestFingerprint(maker.input)
  }

  lemma RecordHasAMaker(w: World, key: string) returns (maker: Request)
    requires ReportsAreRecorded(w) && ReportKey(key) in w.records
    ensures maker in w.requests && maker.key == key
    ensures w.records[ReportKey(key)].fingerprint == RequestFingerprint(maker.input)
  {
    assert Recorded(w, ReportKey(key));
    var n: nat :| RecordsReport(w, ReportKey(key), n);
    assert FromARequest(w, w.reports[n]);
    maker :| maker in w.requests && ReportKey(key) == ReportKey(maker.key)
      && w.reports[n].fingerprint == RequestFingerprint(maker.input);
  }

  /** A record found by a request is completed, and it was made by a request of the same signature. */
  lemma AnswerConflicts(w: World, r: Request)
    requires Inv(w) && r in w.requests
    ensures Answer(w.records, |w.reports|, r.key, r.input, w.now) == IdempotencyConflict
            <==> exists maker :: LiveMaker(w, r.key, maker) && Contents(maker.input) != Contents(r.input)
  {
    var k := ReportKey(r.key);
    if k in w.records {
      assert Recorded(w, k);
      var n: nat :| RecordsReport(w, k, n);
      var maker := RecordHasAMaker(w, r.key);
      forall m | LiveMaker(w, r.key, m)
        ensures RequestFingerprint(m.input) == RequestFingerprint(r.input) <==> Contents(m.input) == Contents(r.input)
      {
        SameSignatureSameFingerprintIffSameContents(m.input, r.input);
      }
      if w.records[k].expiresAt > w.now {
        assert LiveMaker(w, r.key, maker);
      }
    }
  }

  /**
   When the wizard sees a conflict: exactly when the key's live report was made by a request whose
   files differ in content, though size, modification time and type (all that the wizard compares) agree.
   */
  lemma ConflictIffContentsDiffer(run: seq<Step>, r: Request)
    requires Runs(START, run) && r in After(START, run).requests
    ensures var w := After(START, run);
            Answer(w.records, |w.reports|, r.key, r.input, w.now) == IdempotencyConflict
            <==> exists maker :: LiveMaker(w, r.key, maker) && Contents(maker.input) != Contents(r.input)
  {
    InvRun(START, run);
    AnswerConflicts(After(START, run), r);
  }

  function Attached(content: string): Input {
    Input("road", "unsafe_construction", "The bridge is cracked.", Anonymous, "", "", "", "",
          [File(1, 0, "image/png", content)])
  }

  function RequestWith(content: string): Request {
    Request(0, "k", Attached(content))
  }

  /** The one client, with a key and nothing under way. */
  function Resting(w: World): World {
    w.(clients := map[0 := Client(Some(KeyRef("k", PayloadSignature(Attached("a")))), None)])
  }

  /** The first report is received, and its answer is lost. */
  lemma LostAnswer() returns (run: seq<Step>)
    ensures Runs(START, run) && var w := After(START, run);
            && w == Resting(w) && w.issued == {"k"} && |w.reports| == 1 && w.now == 0
            && w.records == map[ReportKey("k") := RecordFor(0, "k", Attached("a"), 0)]
  {
    var w1 := Next(START, Open(0));
    var w2 := Next(w1, Send(0, Attached("a"), "k"));
    var w3 := Next(w2, Deliver(RequestWith("a")));
    assert w3.records == map[ReportKey("k") := RecordFor(0, "k", Attached("a"), 0)];
    var w4 := Next(w3, GiveUp(0, NetworkError));
    assert w4 == Resting(w4);
    OneMoreStep(w3, GiveUp(0, NetworkError), []);
    OneMoreStep(w2, Deliver(RequestWith("a")), [GiveUp(0, NetworkError)]);
    OneMoreStep(w1, Send(0, Attached("a"), "k"), [Deliver(RequestWith("a"))] + [GiveUp(0, NetworkError)]);
    run := [Send(0, Attached("a"), "k")] + ([Deliver(RequestWith("a"))] + [GiveUp(0, NetworkError)]);
    OneMoreStep(START, Open(0), run);
    run := [Open(0)] + run;
  }

  lemma PicturesDiffer()
    ensures PayloadSignature(Attached("a")) == PayloadSignature(Attached("b"))
    ensures RequestFingerprint(Attached("a")) != RequestFingerprint(Attached("b"))
  {
    assert Contents(Attached("a"))[0] == "a" && Contents(Attached("b"))[0] == "b";
    SameSignatureSameFingerprintIffSameContents(Attached("a"), Attached("b"));
  }

  /** Another picture of the same size, time and type goes out under the same key and is refused. */
  lemma SwappedPicture(w: World)
    requires w == Resting(w) && w.issued == {"k"} && w.now == 0
    requires w.records == map[ReportKey("k") := RecordFor(0, "k", Attached("a"), 0)]
    ensures var s, d := Send(0, Attached("b"), "other"), Deliver(RequestWith("b"));
            && Enabled(w, s) && Enabled(Next(w, s), d)
            && Answered(RequestWith("b"), IdempotencyConflict, 0) in Next(Next(w, s), d).answers
            && Next(Next(w, s), d).reports == w.reports
  {
    PicturesDiffer();
    var w' := Next(w, Send(0, Attached("b"), "other"));
    assert RequestWith("b") in w'.requests;
    assert ClaimOutcome(w'.records, ClaimFor("k", Attached("b"), 0)) == Conflict;
  }

  lemma {:induction false} RunsJoin(w: World, a: seq<Step>, b: seq<Step>)
    requires Runs(w, a) && Runs(After(w, a), b)
    ensures Runs(w, a + b) && After(w, a + b) == After(After(w, a), b)
    decreases |a|
  {
    if a == [] {
      assert a + b == b;
    } else {
      assert (a + b)[1..] == a[1..] + b;
      RunsJoin(Next(w, a[0]), a[1..], b);
    }
  }

  /** The failing input: a lost answer, and then the same report with a swapped picture. */
  lemma SwappedPictureConflicts() returns (run: seq<Step>, a: Answered)
    ensures Runs(START, run) && a in After(START, run).answers && a.reply == IdempotencyConflict
    ensures |After(START, run).reports| == 1
  {
    var first := LostAnswer();
    var w := After(START, first);
    SwappedPicture(w);
    var s, d := Send(0, Attached("b"), "other"), Deliver(RequestWith("b"));
    OneMoreStep(Next(w, s), d, []);
    OneMoreStep(w, s, [d]);
    RunsJoin(START, first, [s] + [d]);
    run, a := first + ([s] + [d]), Answered(RequestWith("b"), IdempotencyConflict, 0);
  }

  lemma OneMoreStep(w: World, s: Step, rest: seq<Step>)
    requires Enabled(w, s) && Runs(Next(w, s), rest)
    ensures Runs(w, [s] + rest) && After(w, [s] + rest) == After(Next(w, s), rest)
  {
    assert ([s] + rest)[1..] == rest;
  }

  /** Requests the wizard takes for the same report carry the same files. */
  ghost predicate SignaturesAreFaithful(requests: set<Request>) {
    forall r, r' :: r in requests && r' in requests && PayloadSignature(r.input) == PayloadSignature(r'.input) ==>
                      Contents(r.input) == Contents(r'.input)
  }

  lemma RequestsGrow(w: World, run: seq<Step>)
    requires Runs(w, run)
    ensures w.requests <= After(w, run).requests && w.answers <= After(w, run).answers
    decreases |run|
  {
    if run != [] {
      RequestsGrow(Next(w, run[0]), run[1..]);
    }
  }

  ghost predicate ConflictFree(w: World) {
    forall a :: a in w.answers ==> !a.reply.IdempotencyConflict?
  }

  lemma ConflictFreeNext(w: World, s: Step)
    requires Inv(w) && Enabled(w, s) && ConflictFree(w) && SignaturesAreFaithful(w.requests)
    ensures ConflictFree(Next(w, s))
  {
    if s.Deliver? {
      AnswerConflicts(w, s.request);
    }
  }

  /** With faithful signatures no answer in any run is ever a conflict. */
  lemma {:induction false} NoConflicts(w: World, run: seq<Step>)
    requires Inv(w) && ConflictFree(w) && Runs(w, run) && SignaturesAreFaithful(After(w, run).requests)
    ensures ConflictFree(After(w, run))
    decreases |run|
  {
    if run != [] {
      RequestsGrow(w, run);
      InvNext(w, run[0]);
      ConflictFreeNext(w, run[0]);
      NoConflicts(Next(w, run[0]), run[1..]);
    }
  }

  /** So a client whose signatures are faithful never sees a conflict, in any run of the system. */
  lemma FaithfulClientsNeverConflict(run: seq<Step>, a: Answered)
    requires Runs(START, run) && SignaturesAreFaithful(After(START, run).requests)
    requires a in After(START, run).answers
    ensures !a.reply.IdempotencyConflict?
  {
    NoConflicts(START, run);
  }
}
