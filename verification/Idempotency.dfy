/**
 `app.idempotency_records` and the three functions that may touch it: claim, complete and purge.

 Rows are keyed by (operation, key hash), which the table keeps unique. Fingerprints and sealed
 responses are opaque: the store only compares the one and hands back the other.
 */
module Idempotency {
  import opened Wrappers

  datatype Key = Key(operation: string, keyHash: string)
  type Fingerprint = seq<string>
  datatype Sealed = Sealed(receipt: nat)

  datatype Record = Record(
    fingerprint: Fingerprint,
    completed: bool,
    status: Option<int>,
    sealed: Option<Sealed>,
    createdAt: int,
    sealedUntil: int,
    expiresAt: int)

  type Records = map<Key, Record>

  datatype Outcome =
    | Claimed
    | Conflict
    | InProgress
    | Replay(status: Option<int>, sealed: Sealed)
    | AlreadyReceived

  datatype Claim = Claim(key: Key, fingerprint: Fingerprint, now: int, sealedUntil: int, expiresAt: int)

  function NewRecord(c: Claim): Record {
    Record(c.fingerprint, false, None, None, c.now, c.sealedUntil, c.expiresAt)
  }

  function ClaimOutcome(rs: Records, c: Claim): Outcome {
    if c.key !in rs || rs[c.key].expiresAt <= c.now then Claimed
    else
      var existing := rs[c.key];
      if existing.fingerprint != c.fingerprint then Conflict
      else if !existing.completed then InProgress
      else if existing.sealedUntil > c.now && existing.sealed.Some? then
        Replay(existing.status, existing.sealed.value)
      else AlreadyReceived
  }

  function AfterClaim(rs: Records, c: Claim): Records {
    if ClaimOutcome(rs, c) == Claimed then rs[c.key := NewRecord(c)] else rs
  }

  predicate Completes(rs: Records, key: Key, status: Option<int>) {
    key in rs && !rs[key].completed && status.Some?
  }

  /** Completing raises, and changes nothing, when no claim is open or the status is missing. */
  function AfterComplete(rs: Records, key: Key, status: Option<int>, sealed: Option<Sealed>): Records {
    if Completes(rs, key, status)
    then rs[key := rs[key].(completed := true, status := status, sealed := sealed)]
    else rs
  }

  // ---- Purge: which rows a LIMIT picks is not determined ----

  function Stale(rs: Records, now: int): set<Key> {
    set k | k in rs && rs[k].sealedUntil <= now && rs[k].sealed.Some?
  }

  function Expired(rs: Records, now: int): set<Key> {
    set k | k in rs && rs[k].expiresAt <= now
  }

  function Scrub(rs: Records, keys: set<Key>): Records {
    map k | k in rs :: if k in keys then rs[k].(sealed := None) else rs[k]
  }

  /** A choice that `LIMIT batch` may make from a set of rows. */
  predicate Limited(chosen: set<Key>, from: set<Key>, batch: nat) {
    chosen <= from && |chosen| == if |from| < batch then |from| else batch
  }

  function AfterPurge(rs: Records, scrubbed: set<Key>, removed: set<Key>): Records {
    Scrub(rs, scrubbed) - removed
  }

  predicate PurgeChoice(rs: Records, now: int, batch: nat, scrubbed: set<Key>, removed: set<Key>) {
    && Limited(scrubbed, Stale(rs, now), batch)
    && Limited(removed, Expired(Scrub(rs, scrubbed), now), batch)
  }

  /** Rows chosen one at a time until the limit or the set is used up. */
  method Pick(from: set<Key>, batch: nat) returns (chosen: set<Key>)
    ensures Limited(chosen, from, batch)
  {
    chosen := {};
    var rest := from;
    while |chosen| < batch && rest != {}
      invariant chosen !! rest && chosen + rest == from && |chosen| <= batch
      decreases rest
    {
      var k :| k in rest;
      chosen, rest := chosen + {k}, rest - {k};
    }
    assert |from| == |chosen| + |rest|;
  }

  class IdempotencyStore {
    var records: Records

    constructor ()
      ensures records == map[]
    {
      records := map[];
    }

    method TryClaim(c: Claim) returns (outcome: Outcome)
      modifies this
      ensures outcome == ClaimOutcome(old(records), c)
      ensures records == AfterClaim(old(records), c)
    {
      if c.key !in records {
        records := records[c.key := NewRecord(c)];
        return Claimed;
      }
      var existing := records[c.key];
      if existing.expiresAt <= c.now {
        records := records[c.key := NewRecord(c)];
        outcome := Claimed;
      } else if existing.fingerprint != c.fingerprint {
        outcome := Conflict;
      } else if !existing.completed {
        outcome := InProgress;
      } else if existing.sealedUntil > c.now && existing.sealed.Some? {
        outcome := Replay(existing.status, existing.sealed.value);
      } else {
        outcome := AlreadyReceived;
      }
    }

    method Complete(key: Key, status: Option<int>, sealed: Option<Sealed>) returns (ok: bool)
      modifies this
      ensures ok == Completes(old(records), key, status)
      ensures records == AfterComplete(old(records), key, status, sealed)
    {
      ok := key in records && !records[key].completed && status.Some?;
      if ok {
        records := records[key := records[key].(completed := true, status := status, sealed := sealed)];
      }
    }

    /** Scrubs sealed responses past their window, then deletes expired rows, at most `batch` of each. */
    method Purge(now: int, batch: nat) returns (count: nat, ghost scrubbed: set<Key>, ghost removed: set<Key>)
      modifies this
      ensures PurgeChoice(old(records), now, batch, scrubbed, removed)
      ensures records == AfterPurge(old(records), scrubbed, removed)
      ensures count == |scrubbed| + |removed|
    {
      var toScrub := Pick(Stale(records, now), batch);
      records := Scrub(records, toScrub);
      var toRemove := Pick(Expired(records, now), batch);
      records := records - toRemove;
      count := |toScrub| + |toRemove|;
      scrubbed, removed := toScrub, toRemove;
    }
  }

  // ---- Purging cannot be observed ----

  /** What a claim at a time can still learn about one key. */
  datatype View = View(fingerprint: Fingerprint, completed: bool, status: Option<int>,
                       sealed: Option<Sealed>, sealedUntil: int, expiresAt: int)

  function ViewAt(rs: Records, key: Key, now: int): Option<View> {
    if key !in rs || rs[key].expiresAt <= now then None
    else
      var r := rs[key];
      Some(View(r.fingerprint, r.completed, r.status, if r.sealedUntil > now then r.sealed else None,
                r.sealedUntil, r.expiresAt))
  }

  ghost predicate SameView(a: Records, b: Records, now: int) {
    forall key :: ViewAt(a, key, now) == ViewAt(b, key, now)
  }

  datatype Op =
    | DoClaim(c: Claim)
    | DoComplete(key: Key, status: Option<int>, sealed: Option<Sealed>, at: int)
    | DoPurge(at: int, batch: nat, scrubbed: set<Key>, removed: set<Key>)
  {
    function Time(): int {
      if DoClaim? then c.now else at
    }
  }

  function Apply(rs: Records, op: Op): Records {
    match op
    case DoClaim(c) => AfterClaim(rs, c)
    case DoComplete(key, status, sealed, _) => AfterComplete(rs, key, status, sealed)
    case DoPurge(_, _, scrubbed, removed) => AfterPurge(rs, scrubbed, removed)
  }

  /** The outcomes of the claims of a run, in order. */
  function Outcomes(rs: Records, run: seq<Op>): seq<Outcome>
    decreases |run|
  {
    if run == [] then []
    else (if run[0].DoClaim? then [ClaimOutcome(rs, run[0].c)] else []) + Outcomes(Apply(rs, run[0]), run[1..])
  }

  function WithoutPurges(run: seq<Op>): seq<Op>
    decreases |run|
  {
    if run == [] then []
    else (if run[0].DoPurge? then [] else [run[0]]) + WithoutPurges(run[1..])
  }

  ghost predicate TimeOrdered(start: int, run: seq<Op>)
    decreases |run|
  {
    run == [] || (start <= run[0].Time() && TimeOrdered(run[0].Time(), run[1..]))
  }

  /** Every purge takes rows a purge may take; every completion comes before its record expires. */
  ghost predicate Legal(rs: Records, run: seq<Op>)
    decreases |run|
  {
    run == [] ||
    (&& (match run[0]
         case DoClaim(_) => true
         case DoComplete(key, _, _, at) => key in rs && rs[key].expiresAt > at
         case DoPurge(at, batch, scrubbed, removed) => PurgeChoice(rs, at, batch, scrubbed, removed))
     && Legal(Apply(rs, run[0]), run[1..]))
  }

  lemma ClaimSeesOnlyTheView(a: Records, b: Records, c: Claim)
    requires ViewAt(a, c.key, c.now) == ViewAt(b, c.key, c.now)
    ensures ClaimOutcome(a, c) == ClaimOutcome(b, c)
  {
  }

  lemma ViewLater(a: Records, b: Records, now: int, later: int)
    requires SameView(a, b, now) && now <= later
    ensures SameView(a, b, later)
  {
    forall key ensures ViewAt(a, key, later) == ViewAt(b, key, later) {
      assert ViewAt(a, key, now) == ViewAt(b, key, now);
    }
  }

  /** Row by row: a purge drops only expired rows and takes nothing but sealed responses from the others. */
  lemma PurgedRow(rs: Records, now: int, batch: nat, scrubbed: set<Key>, removed: set<Key>, key: Key)
    requires PurgeChoice(rs, now, batch, scrubbed, removed)
    ensures var rs' := AfterPurge(rs, scrubbed, removed);
            && (key in rs' ==> key in rs && rs'[key] == rs[key].(sealed := rs'[key].sealed)
                               && (rs'[key].sealed == rs[key].sealed
                                   || (rs'[key].sealed.None? && rs[key].sealedUntil <= now)))
            && (key in rs && key !in rs' ==> rs[key].expiresAt <= now)
  {
    if key in removed {
      assert key in Expired(Scrub(rs, scrubbed), now);
    }
    if key in scrubbed {
      assert key in Stale(rs, now);
    }
  }

  lemma PurgeKeepsTheView(rs: Records, now: int, batch: nat, scrubbed: set<Key>, removed: set<Key>)
    requires PurgeChoice(rs, now, batch, scrubbed, removed)
    ensures SameView(rs, AfterPurge(rs, scrubbed, removed), now)
  {
    forall key ensures ViewAt(rs, key, now) == ViewAt(AfterPurge(rs, scrubbed, removed), key, now) {
      PurgedRow(rs, now, batch, scrubbed, removed, key);
    }
  }

  lemma StepKeepsTheView(a: Records, b: Records, op: Op)
    requires SameView(a, b, op.Time()) && !op.DoPurge?
    requires op.DoComplete? ==> op.key in a && a[op.key].expiresAt > op.at
    ensures SameView(Apply(a, op), Apply(b, op), op.Time())
  {
    forall key ensures ViewAt(Apply(a, op), key, op.Time()) == ViewAt(Apply(b, op), key, op.Time()) {
      assert ViewAt(a, key, op.Time()) == ViewAt(b, key, op.Time());
      if op.DoClaim? {
        assert ViewAt(a, op.c.key, op.c.now) == ViewAt(b, op.c.key, op.c.now);
        ClaimSeesOnlyTheView(a, b, op.c);
      } else {
        assert ViewAt(a, op.key, op.at) == ViewAt(b, op.key, op.at);
      }
    }
  }

  /**
   Purges with any batch size and any choice of rows, anywhere in a time-ordered run of claims and
   in-time completions, change no claim's outcome.
   */
  lemma {:induction false} PurgeIsInvisible(purged: Records, kept: Records, start: int, run: seq<Op>)
    requires SameView(purged, kept, start) && TimeOrdered(start, run) && Legal(purged, run)
    ensures Outcomes(purged, run) == Outcomes(kept, WithoutPurges(run))
    decreases |run|
  {
    if run != [] {
      var op := run[0];
      var rest := WithoutPurges(run[1..]);
      ViewLater(purged, kept, start, op.Time());
      if op.DoPurge? {
        PurgeKeepsTheView(purged, op.at, op.batch, op.scrubbed, op.removed);
        forall key ensures ViewAt(Apply(purged, op), key, op.at) == ViewAt(kept, key, op.at) {
          assert ViewAt(purged, key, op.at) == ViewAt(Apply(purged, op), key, op.at);
          assert ViewAt(purged, key, op.at) == ViewAt(kept, key, op.at);
        }
        PurgeIsInvisible(Apply(purged, op), kept, op.at, run[1..]);
        assert WithoutPurges(run) == rest;
      } else {
        StepKeepsTheView(purged, kept, op);
        PurgeIsInvisible(Apply(purged, op), Apply(kept, op), op.Time(), run[1..]);
        assert WithoutPurges(run) == [op] + rest;
        if op.DoClaim? {
          assert ViewAt(purged, op.c.key, op.c.now) == ViewAt(kept, op.c.key, op.c.now);
          ClaimSeesOnlyTheView(purged, kept, op.c);
        }
      }
    }
  }

  /** Why completions must be in time: a late one succeeds or raises depending on whether a purge ran. */
  lemma LateCompletionSeesThePurge(key: Key, fp: Fingerprint, at: int, status: int)
    ensures var rs := map[key := Record(fp, false, None, None, at - 2, at - 1, at)];
            && PurgeChoice(rs, at, 1, {}, {key})
            && Completes(rs, key, Some(status))
            && !Completes(AfterPurge(rs, {}, {key}), key, Some(status))
  {
    var rs := map[key := Record(fp, false, None, None, at - 2, at - 1, at)];
    assert Stale(rs, at) == {};
    assert Expired(Scrub(rs, {}), at) == {key};
  }

  // ---- Purging at a fixed time finishes ----

  /** How much there is to do: stale sealed responses and expired rows. */
  function Work(rs: Records, now: int): nat {
    |Stale(rs, now)| + |Expired(rs, now)|
  }

  lemma Removing(all: set<Key>, some: set<Key>)
    requires some <= all
    ensures |all - some| == |all| - |some|
  {
    assert all == (all - some) + some;
  }

  lemma StaleAfterPurge(rs: Records, now: int, scrubbed: set<Key>, removed: set<Key>)
    ensures Stale(AfterPurge(rs, scrubbed, removed), now) == Stale(rs, now) - scrubbed - removed
    ensures Expired(AfterPurge(rs, scrubbed, removed), now) == Expired(rs, now) - removed
    ensures Expired(Scrub(rs, scrubbed), now) == Expired(rs, now)
  {
  }

  lemma SubsetSize(a: set<Key>, b: set<Key>)
    requires a <= b
    ensures |a| <= |b|
  {
    Removing(b, a);
  }

  /** Each purge removes at least what it reports; with a positive batch it reports 0 only when clean. */
  lemma PurgeProgress(rs: Records, now: int, batch: nat, scrubbed: set<Key>, removed: set<Key>)
    requires PurgeChoice(rs, now, batch, scrubbed, removed)
    ensures Work(AfterPurge(rs, scrubbed, removed), now) + |scrubbed| + |removed| <= Work(rs, now)
    ensures batch > 0 && Work(rs, now) > 0 ==> |scrubbed| + |removed| > 0
  {
    StaleAfterPurge(rs, now, scrubbed, removed);
    Removing(Expired(rs, now), removed);
    Removing(Stale(rs, now), scrubbed);
    SubsetSize(Stale(rs, now) - scrubbed - removed, Stale(rs, now) - scrubbed);
  }

  /** A run of purges, all at one time and each with a positive batch. */
  ghost predicate PurgesAt(rs: Records, now: int, run: seq<Op>)
    decreases |run|
  {
    run == [] ||
    (&& run[0].DoPurge? && run[0].at == now && run[0].batch > 0
     && PurgeChoice(rs, now, run[0].batch, run[0].scrubbed, run[0].removed)
     && PurgesAt(Apply(rs, run[0]), now, run[1..]))
  }

  function ApplyAll(rs: Records, run: seq<Op>): Records
    decreases |run|
  {
    if run == [] then rs else ApplyAll(Apply(rs, run[0]), run[1..])
  }

  /** As many purges as there is work, whatever rows they pick, leave nothing expired and nothing stale. */
  lemma {:induction false} PurgingFinishes(rs: Records, now: int, run: seq<Op>)
    requires PurgesAt(rs, now, run) && |run| >= Work(rs, now)
    ensures Stale(ApplyAll(rs, run), now) == {} && Expired(ApplyAll(rs, run), now) == {}
    decreases |run|
  {
    if run != [] {
      var op := run[0];
      PurgeProgress(rs, now, op.batch, op.scrubbed, op.removed);
      PurgingFinishes(Apply(rs, op), now, run[1..]);
    }
  }
}
