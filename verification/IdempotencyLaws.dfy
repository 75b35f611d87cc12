/**
 What a claim is answered, told from the claims and completions before it alone; and what purges take.
 */
module IdempotencyLaws {
  import opened Wrappers
  import opened Idempotency

  const NONE: Records := map[]

  function Before(run: seq<Op>, n: nat): Records
    requires n <= |run|
  {
    ApplyAll(NONE, run[..n])
  }

  predicate ClaimsAt(run: seq<Op>, i: nat, key: Key) {
    i < |run| && run[i].DoClaim? && run[i].c.key == key && ClaimOutcome(Before(run, i), run[i].c) == Claimed
  }

  /** The last claim of the key that was granted. */
  function Holder(run: seq<Op>, n: nat, key: Key): (r: Option<nat>)
    requires n <= |run|
    ensures r.Some? ==> r.value < n && ClaimsAt(run, r.value, key)
  {
    if n == 0 then None else if ClaimsAt(run, n - 1, key) then Some(n - 1) else Holder(run, n - 1, key)
  }

  predicate CompletesAt(run: seq<Op>, j: nat, key: Key) {
    j < |run| && run[j].DoComplete? && run[j].key == key && run[j].status.Some?
  }

  /** The first completion of the key, with a status, after step `i`. */
  function Completion(run: seq<Op>, i: nat, n: nat, key: Key): (r: Option<nat>)
    requires n <= |run|
    ensures r.Some? ==> i < r.value < n && CompletesAt(run, r.value, key)
  {
    if n <= i + 1 then None
    else if Completion(run, i, n - 1, key).Some? then Completion(run, i, n - 1, key)
    else if CompletesAt(run, n - 1, key) then Some(n - 1)
    else None
  }

  /** What a claim is answered at the end of a run, given who holds the key. */
  function Reply(run: seq<Op>, c: Claim): Outcome {
    var holder := Holder(run, |run|, c.key);
    if holder.None? || run[holder.value].c.expiresAt <= c.now then Claimed
    else
      var first := run[holder.value].c;
      var done := Completion(run, holder.value, |run|, c.key);
      if first.fingerprint != c.fingerprint then Conflict
      else if done.None? then InProgress
      else if c.now < first.sealedUntil && run[done.value].sealed.Some? then
        Replay(run[done.value].status, run[done.value].sealed.value)
      else AlreadyReceived
  }

  // ---- Runs, step by step ----

  lemma {:induction false} ApplyAllOneMore(rs: Records, run: seq<Op>, op: Op)
    ensures ApplyAll(rs, run + [op]) == Apply(ApplyAll(rs, run), op)
    decreases |run|
  {
    if run == [] {
      assert [op][1..] == [];
    } else {
      assert (run + [op])[1..] == run[1..] + [op];
      ApplyAllOneMore(Apply(rs, run[0]), run[1..], op);
    }
  }

  lemma OneMore(run: seq<Op>, n: nat)
    requires n < |run|
    ensures Before(run, n + 1) == Apply(Before(run, n), run[n])
  {
    assert run[..n + 1] == run[..n] + [run[n]];
    ApplyAllOneMore(NONE, run[..n], run[n]);
  }

  /** Every step may be taken where it is taken, and no step is earlier than the one before it. */
  ghost predicate LegalAt(run: seq<Op>, n: nat)
    requires n < |run|
  {
    match run[n]
    case DoClaim(_) => true
    case DoComplete(key, _, _, at) => key in Before(run, n) && Before(run, n)[key].expiresAt > at
    case DoPurge(at, batch, scrubbed, removed) => PurgeChoice(Before(run, n), at, batch, scrubbed, removed)
  }

  ghost predicate LegalRun(run: seq<Op>) {
    && (forall n :: 0 <= n < |run| ==> LegalAt(run, n))
    && forall i, j :: 0 <= i < j < |run| ==> run[i].Time() <= run[j].Time()
  }

  function Done(run: seq<Op>, i: nat, n: nat, key: Key): (bool, Option<int>, Option<Sealed>)
    requires n <= |run|
  {
    var j := Completion(run, i, n, key);
    if j.None? then (false, None, None) else (true, run[j.value].status, run[j.value].sealed)
  }

  /**
   The key's row, if there is one, is what its holder's claim and completion made it, less a stale sealed
   response.
   */
  ghost predicate RowTells(run: seq<Op>, n: nat, key: Key, now: int)
    requires n <= |run|
  {
    var rs, holder := Before(run, n), Holder(run, n, key);
    if holder.None? then key !in rs
    else
      var c, done := run[holder.value].c, Done(run, holder.value, n, key);
      && (key !in rs ==> c.expiresAt <= now)
      && (key in rs ==>
            && rs[key] == Record(c.fingerprint, done.0, done.1, rs[key].sealed, c.now, c.sealedUntil, c.expiresAt)
            && (rs[key].sealed == done.2 || (rs[key].sealed == None && c.sealedUntil <= now)))
  }

  lemma ClaimTells(run: seq<Op>, n: nat, key: Key, now: int)
    requires n < |run| && run[n].DoClaim? && RowTells(run, n, key, now)
    ensures RowTells(run, n + 1, key, now)
  {
    OneMore(run, n);
    if !ClaimsAt(run, n, key) && Holder(run, n, key).Some? {
      assert Before(run, n + 1).Keys - {run[n].c.key} == Before(run, n).Keys - {run[n].c.key};
    }
  }

  lemma CompleteTells(run: seq<Op>, n: nat, key: Key, now: int)
    requires n < |run| && run[n].DoComplete? && RowTells(run, n, key, now) && LegalAt(run, n)
    ensures RowTells(run, n + 1, key, now)
  {
    OneMore(run, n);
    assert Holder(run, n + 1, key) == Holder(run, n, key);
  }

  lemma PurgeTells(run: seq<Op>, n: nat, key: Key)
    requires n < |run| && run[n].DoPurge? && RowTells(run, n, key, run[n].at) && LegalAt(run, n)
    ensures RowTells(run, n + 1, key, run[n].at)
  {
    OneMore(run, n);
    assert Holder(run, n + 1, key) == Holder(run, n, key);
    var op := run[n];
    PurgedRow(Before(run, n), op.at, op.batch, op.scrubbed, op.removed, key);
    if Holder(run, n, key).Some? {
      var i := Holder(run, n, key).value;
      assert Completion(run, i, n + 1, key) == Completion(run, i, n, key);
    }
  }

  lemma {:induction false} RowsTell(run: seq<Op>, n: nat, key: Key, now: int)
    requires LegalRun(run) && n <= |run| && (n > 0 ==> run[n - 1].Time() <= now)
    ensures RowTells(run, n, key, now)
    decreases n
  {
    if n > 0 {
      var at := run[n - 1].Time();
      RowsTell(run, n - 1, key, at);
      assert RowTells(run, n, key, at) by {
        match run[n - 1] {
          case DoClaim(_) => ClaimTells(run, n - 1, key, at);
          case DoComplete(_, _, _, _) => CompleteTells(run, n - 1, key, at);
          case DoPurge(_, _, _, _) => PurgeTells(run, n - 1, key);
        }
      }
    }
  }

  /**
   After every run of claims, completions in time and purges, a claim is answered by the last granted claim of its
   key and the first completion since: granted if there is none or it has expired; a conflict for another fingerprint;
   in progress until completed; then the completion's own response while it is sealed, and later only as received.
   */
  lemma ClaimsFollowTheHistory(run: seq<Op>, c: Claim)
    requires LegalRun(run) && (run != [] ==> run[|run| - 1].Time() <= c.now)
    ensures ClaimOutcome(ApplyAll(NONE, run), c) == Reply(run, c)
  {
    assert run[..|run|] == run;
    RowsTell(run, |run|, c.key, c.now);
  }

  // ---- Purges ----

  /** A purge scrubs and deletes as many rows as there are to do, up to its batch, and only such rows. */
  lemma PurgeTakesUpToItsBatch(rs: Records, now: int, batch: nat, scrubbed: set<Key>, removed: set<Key>)
    requires PurgeChoice(rs, now, batch, scrubbed, removed)
    ensures forall k :: k in scrubbed ==> k in rs && rs[k].sealed.Some? && rs[k].sealedUntil <= now
    ensures forall k :: k in removed ==> k in rs && rs[k].expiresAt <= now
    ensures |scrubbed| <= batch && |removed| <= batch
    ensures |scrubbed| < batch ==>
              forall k :: k in rs && rs[k].sealed.Some? && rs[k].sealedUntil <= now ==> k in scrubbed
    ensures |removed| < batch ==> forall k :: k in rs && rs[k].expiresAt <= now ==> k in removed
  {
    assert Expired(Scrub(rs, scrubbed), now) == Expired(rs, now) by {
      StaleAfterPurge(rs, now, scrubbed, removed);
    }
    WholeIfAsMany(scrubbed, Stale(rs, now));
    WholeIfAsMany(removed, Expired(rs, now));
    forall k | k in rs && rs[k].sealed.Some? && rs[k].sealedUntil <= now ensures k in Stale(rs, now) {
    }
    forall k | k in rs && rs[k].expiresAt <= now ensures k in Expired(rs, now) {
    }
  }

  lemma WholeIfAsMany(some: set<Key>, all: set<Key>)
    requires some <= all
    ensures |some| == |all| ==> some == all
  {
    Removing(all, some);
    if |some| == |all| {
      assert all - some == {};
      assert forall k :: k in all && k !in some ==> k in all - some;
    }
  }

  /** What is left: every row but the deleted ones, the scrubbed ones without their response. */
  lemma PurgeLeaves(rs: Records, scrubbed: set<Key>, removed: set<Key>, k: Key)
    ensures var rs' := AfterPurge(rs, scrubbed, removed);
            && (k in rs' <==> k in rs && k !in removed)
            && (k in rs' ==> rs'[k] == if k in scrubbed then rs[k].(sealed := None) else rs[k])
  {
  }

  /**
   As many purges as there are rows to scrub and to delete leave no response past its window and no row past its
   time.
   */
  lemma PurgesFinish(rs: Records, now: int, run: seq<Op>)
    requires PurgesAt(rs, now, run)
    requires |run| >= |set k | k in rs && rs[k].sealed.Some? && rs[k].sealedUntil <= now|
                      + |set k | k in rs && rs[k].expiresAt <= now|
    ensures forall k :: k in ApplyAll(rs, run) ==>
                          && now < ApplyAll(rs, run)[k].expiresAt
                          && (ApplyAll(rs, run)[k].sealed.Some? ==> now < ApplyAll(rs, run)[k].sealedUntil)
  {
    assert (set k | k in rs && rs[k].sealed.Some? && rs[k].sealedUntil <= now) == Stale(rs, now);
    assert (set k | k in rs && rs[k].expiresAt <= now) == Expired(rs, now);
    PurgingFinishes(rs, now, run);
    var rs' := ApplyAll(rs, run);
    forall k | k in rs' ensures now < rs'[k].expiresAt && (rs'[k].sealed.Some? ==> now < rs'[k].sealedUntil) {
      assert k !in Expired(rs', now) && k !in Stale(rs', now);
    }
  }
}
