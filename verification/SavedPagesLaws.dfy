/**
 What a reader of saved pages can rely on, told over whole runs of the worker: when there is a copy to show, what
 ends each navigation, and where every saved page came from.
 */
module SavedPagesLaws {
  import opened Wrappers
  import opened CachePolicy
  import opened CachePolicyLaws
  import opened SavedPages

  ghost predicate Reaches(now: int, steps: seq<Step>, s: State) {
    Run(Empty(now), steps) == Some(s)
  }

  /** The worker takes a navigation up if and only if it is a plain one to a page of the catalogue. */
  lemma NavigationsTakenUp(s: State, id: nat, request: Request)
    requires Enabled(s, Navigate(id, request))
    ensures Next(s, Navigate(id, request))
            == if Plain(request, "https://shaidago.example") && request.mode == "navigate"
                  && CataloguePath(request.url.pathname) && PlainQuery(request.url.params)
               then s.(navigations := s.navigations[id := Navigation(request, None, s.now, Started)]) else s
  {
    HandledIff(request, ORIGIN);
  }

  // ---- Looking up ----

  /** The cache holds a page saved for the URL at most so many milliseconds ago. */
  predicate HoldsWithin(s: State, cache: nat, url: Url, limit: int) {
    && cache in s.caches && url in s.caches[cache] && s.caches[cache][url].response.savedAt.Some?
    && s.now - s.caches[cache][url].response.savedAt.value <= limit
  }

  /**
   In every state of every run, the lookup finds a copy if and only if the cache it opened holds that URL saved in
   the last seven days, and it is that very response; the preference is asked if and only if it was saved in the last
   five minutes. Nothing else changes.
   */
  lemma LookUpFindsIff(now: int, steps: seq<Step>, s: State, id: nat)
    requires Reaches(now, steps, s) && Enabled(s, LookUp(id))
    ensures var n := s.navigations[id];
            var n' := Next(s, LookUp(id)).navigations[id];
            && n'.request == n.request && n'.lookedAt == s.now
            && n'.copy == (if HoldsWithin(s, n.phase.cache, n.request.url, 604_800_000)
                           then Some(s.caches[n.phase.cache][n.request.url].response) else None)
            && n'.phase == (if HoldsWithin(s, n.phase.cache, n.request.url, 300_000)
                            then AskingPreference(s.caches[n.phase.cache][n.request.url].response) else Fetching(false))
            && Next(s, LookUp(id)) == s.(navigations := s.navigations[id := n'])
  {
    InvRun(Empty(now), steps);
    var n := s.navigations[id];
    if n.phase.cache in s.caches && n.request.url in s.caches[n.phase.cache] {
      assert EntryOk(n.request.url, s.caches[n.phase.cache][n.request.url], s.now);
    }
  }

  // ---- From the lookup to the end ----

  predicate PastLookUp(p: Phase) {
    !p.Started? && !p.Opened?
  }

  predicate InBackground(p: Phase) {
    match p
    case Started => false
    case Opened(_) => false
    case AskingPreference(_) => false
    case _ => p.background
  }

  /** The navigation is under way before every one of the steps, and after them. */
  ghost predicate UnderWay(s: State, steps: seq<Step>, id: nat)
    decreases |steps|
  {
    id in s.navigations && (steps == [] || (Enabled(s, steps[0]) && UnderWay(Next(s, steps[0]), steps[1..], id)))
  }

  lemma {:induction false} UnderWayRuns(s: State, steps: seq<Step>, id: nat)
    requires UnderWay(s, steps, id)
    ensures Run(s, steps).Some? && id in Run(s, steps).value.navigations
    decreases |steps|
  {
    if steps != [] {
      UnderWayRuns(Next(s, steps[0]), steps[1..], id);
    }
  }

  /** What one step leaves of a navigation that goes on: its copy, where it answers, and what the network gave it. */
  lemma GoesOn(s: State, step: Step, id: nat)
    requires Enabled(s, step) && id in s.navigations && id in Next(s, step).navigations
    requires PastLookUp(s.navigations[id].phase)
    ensures var n, n' := s.navigations[id], Next(s, step).navigations[id];
            && PastLookUp(n'.phase) && n'.copy == n.copy && n'.request == n.request && n'.lookedAt == n.lookedAt
            && (InBackground(n'.phase) <==> InBackground(n.phase) || step == ReadPreference(id, false))
            && (BeingSaved(n'.phase) <==> BeingSaved(n.phase) || (step.NetworkAnswers? && step.id == id))
            && (BeingSaved(n.phase) ==> n'.phase.answer == n.phase.answer)
            && (BeingSaved(n'.phase) && !BeingSaved(n.phase) ==> step == NetworkAnswers(id, n'.phase.answer))
  {
  }

  ghost predicate Asked(steps: seq<Step>, id: nat) {
    exists k :: 0 <= k < |steps| && steps[k] == ReadPreference(id, false)
  }

  lemma {:induction false} GoesOnRun(s: State, steps: seq<Step>, id: nat)
    requires UnderWay(s, steps, id) && PastLookUp(s.navigations[id].phase)
    ensures UnderWay(s, steps, id) && Run(s, steps).Some? && id in Run(s, steps).value.navigations
    ensures var n, n' := s.navigations[id], Run(s, steps).value.navigations[id];
            && PastLookUp(n'.phase) && n'.copy == n.copy && n'.request == n.request && n'.lookedAt == n.lookedAt
            && (InBackground(n'.phase) <==> InBackground(n.phase) || Asked(steps, id))
            && (BeingSaved(n.phase) ==> BeingSaved(n'.phase) && n'.phase.answer == n.phase.answer)
            && (BeingSaved(n'.phase) && !BeingSaved(n.phase) ==> NetworkAnswers(id, n'.phase.answer) in steps)
    decreases |steps|
  {
    if steps != [] {
      GoesOn(s, steps[0], id);
      GoesOnRun(Next(s, steps[0]), steps[1..], id);
      assert Asked(steps, id) <==> steps[0] == ReadPreference(id, false) || Asked(steps[1..], id) by {
        assert steps == [steps[0]] + steps[1..];
      }
    }
  }

  /**
   What a step hands to the reader of a page with or without a copy, `refreshed` when the copy was shown already,
   and `answer` being what the network gave if it gave a response that may be stored.
   */
  function Due(step: Step, copy: Option<Response>, refreshed: bool, answer: Option<Response>): Option<Answer> {
    match step
    case ReadPreference(_, _) => if copy.Some? then Some(FromSaved(copy.value)) else None
    case NetworkFails(_) => if refreshed then None else Some(if copy.Some? then FromSaved(copy.value) else OfflinePage)
    case SavingFails(_) => if refreshed then None else Some(if copy.Some? then FromSaved(copy.value) else OfflinePage)
    case NetworkAnswers(_, r) =>
      if refreshed || Storable(r, true) then None
      else Some(if copy.Some? && r.status >= 500 then FromSaved(copy.value) else FromNetwork(r))
    case Trimmed(_) => if refreshed || answer.None? then None else Some(FromNetwork(answer.value))
    case _ => None
  }

  /** The steps that end a navigation. */
  predicate Finishes(step: Step) {
    match step
    case NetworkFails(_) => true
    case NetworkAnswers(_, r) => !Storable(r, true)
    case ReadPreference(_, lowData) => lowData
    case SavingFails(_) => true
    case Trimmed(_) => true
    case _ => false
  }

  predicate Names(step: Step, id: nat) {
    && !step.Navigate? && !step.Remove? && !step.Clear? && !step.Wait? && step.id == id
  }

  ghost predicate Gives(s: State, step: Step, id: nat, due: Option<Answer>)
    requires Enabled(s, step) && id in s.navigations
  {
    && Next(s, step).given == (if due.Some? then s.given + {Given(s.navigations[id], due.value)} else s.given)
    && Next(s, step).navigations.Keys == (if Finishes(step) then s.navigations.Keys - {id} else s.navigations.Keys)
  }

  lemma StepGives(s: State, step: Step, id: nat)
    requires Inv(s) && Enabled(s, step) && id in s.navigations && Names(step, id) && PastLookUp(s.navigations[id].phase)
    ensures var n := s.navigations[id];
            var answer := if BeingSaved(n.phase) then Some(n.phase.answer) else None;
            Gives(s, step, id, Due(step, n.copy, InBackground(n.phase), answer))
  {
    assert NavigationOk(s.navigations[id], s.now);
  }

  /**
   From the lookup on, whatever else happens meanwhile: the copy that the reader falls back on is the page that the
   opened cache held then, if it was saved in the last seven days. It is shown on a network failure, on a failure to
   save and on an answer of 500 or more, and at once if it was saved in the last five minutes; the offline page is
   shown only without it, and a reader to whom it was shown at once is shown nothing more.
   */
  lemma ReadersGetWhatTheLookUpFound(now: int, before: seq<Step>, s: State, id: nat, after: seq<Step>, w: State,
                                     last: Step)
    requires Reaches(now, before, s) && Enabled(s, LookUp(id))
    requires UnderWay(Next(s, LookUp(id)), after, id) && Run(Next(s, LookUp(id)), after) == Some(w)
    requires Enabled(w, last) && Names(last, id) && id in w.navigations
    ensures var n := s.navigations[id];
            var copy := if HoldsWithin(s, n.phase.cache, n.request.url, 604_800_000)
                        then Some(s.caches[n.phase.cache][n.request.url].response) else None;
            var answer := if BeingSaved(w.navigations[id].phase) then Some(w.navigations[id].phase.answer) else None;
            && w.navigations[id].copy == copy && w.navigations[id].request == n.request
            && (answer.Some? ==> NetworkAnswers(id, answer.value) in after)
            && Gives(w, last, id, Due(last, copy, Asked(after, id), answer))
  {
    var s1 := Next(s, LookUp(id));
    LookUpFindsIff(now, before, s, id);
    GoesOnRun(s1, after, id);
    assert Inv(w) by {
      InvRun(Empty(now), before);
      InvNext(s, LookUp(id));
      InvRun(s1, after);
    }
    StepGives(w, last, id);
  }

  /** The preference is asked if and only if the page was saved in the last five minutes. */
  lemma PreferenceIsReadIff(now: int, before: seq<Step>, s: State, id: nat, lowData: bool)
    requires Reaches(now, before, s) && Enabled(s, LookUp(id))
    ensures var s1 := Next(s, LookUp(id));
            var n := s.navigations[id];
            && (Enabled(s1, ReadPreference(id, lowData)) <==> HoldsWithin(s, n.phase.cache, n.request.url, 300_000))
            && (Enabled(s1, NetworkFails(id)) <==> !HoldsWithin(s, n.phase.cache, n.request.url, 300_000))
            && (Enabled(s1, ReadPreference(id, lowData)) ==>
                  (id in Next(s1, ReadPreference(id, lowData)).navigations <==> !lowData))
  {
    LookUpFindsIff(now, before, s, id);
  }

  // ---- Where saved pages come from ----

  /** The state before step `k`. */
  ghost function At(now: int, steps: seq<Step>, k: nat): Option<State>
    requires k <= |steps|
  {
    Run(Empty(now), steps[..k])
  }

  lemma {:induction false} RunSplits(s: State, steps: seq<Step>, k: nat)
    requires Run(s, steps).Some? && k < |steps|
    ensures Run(s, steps[..k]).Some? && Enabled(Run(s, steps[..k]).value, steps[k])
    ensures Run(s, steps[..k + 1]) == Some(Next(Run(s, steps[..k]).value, steps[k]))
    decreases k
  {
    if k == 0 {
      assert steps[..1][1..] == [];
    } else {
      assert steps[..k][1..] == steps[1..][..k - 1] && steps[..k + 1][1..] == steps[1..][..k];
      RunSplits(Next(s, steps[0]), steps[1..], k - 1);
    }
  }

  /** In step `k` the network gives this response to a navigation with this request, and it may be stored. */
  ghost predicate AnswersAt(now: int, steps: seq<Step>, k: nat, request: Request, r: Response) {
    && k < |steps| && steps[k].NetworkAnswers? && steps[k].response == r && Storable(r, true)
    && At(now, steps, k).Some? && steps[k].id in At(now, steps, k).value.navigations
    && At(now, steps, k).value.navigations[steps[k].id].request == request
  }

  ghost predicate WasAnswered(now: int, steps: seq<Step>, n: nat, request: Request, r: Response) {
    exists k: nat :: k < n && AnswersAt(now, steps, k, request, r)
  }

  /** The response is one the network gave for the request, stamped after that. */
  ghost predicate IsStamped(now: int, steps: seq<Step>, n: nat, request: Request, saved: Response) {
    exists k: nat, r: Response :: k < n && AnswersAt(now, steps, k, request, r) && StampedAfter(now, steps, k, r, saved)
  }

  ghost predicate StampedAfter(now: int, steps: seq<Step>, k: nat, r: Response, saved: Response)
    requires k <= |steps|
  {
    && At(now, steps, k).Some? && saved == r.(savedAt := saved.savedAt) && saved.savedAt.Some?
    && At(now, steps, k).value.now <= saved.savedAt.value
  }

  ghost predicate PhaseComesFrom(now: int, steps: seq<Step>, n: nat, nav: Navigation) {
    && (BeingSaved(nav.phase) ==> WasAnswered(now, steps, n, nav.request, nav.phase.answer))
    && (nav.phase.Stamped? || nav.phase.Storing? ==> IsStamped(now, steps, n, nav.request, nav.phase.stamped))
  }

  ghost predicate PageComesFrom(now: int, steps: seq<Step>, n: nat, url: Url, e: Entry) {
    e.request.url == url && IsStamped(now, steps, n, e.request, e.response)
  }

  ghost predicate AllComeFrom(now: int, steps: seq<Step>, n: nat, s: State) {
    && (forall id :: id in s.navigations ==> PhaseComesFrom(now, steps, n, s.navigations[id]))
    && (forall c, url :: c in s.caches && url in s.caches[c] ==> PageComesFrom(now, steps, n, url, s.caches[c][url]))
  }

  lemma TimeGoesOn(now: int, steps: seq<Step>, k: nat, n: nat)
    requires k <= n <= |steps| && Run(Empty(now), steps).Some?
    ensures At(now, steps, k).Some? && At(now, steps, n).Some?
    ensures At(now, steps, k).value.now <= At(now, steps, n).value.now
    decreases n
  {
    if k < n {
      RunSplits(Empty(now), steps, n - 1);
      TimeGoesOn(now, steps, k, n - 1);
    } else if n < |steps| {
      RunSplits(Empty(now), steps, n);
    } else {
      assert steps[..n] == steps;
    }
  }

  lemma WasAnsweredGrows(now: int, steps: seq<Step>, n: nat)
    ensures forall request, r :: WasAnswered(now, steps, n, request, r) ==> WasAnswered(now, steps, n + 1, request, r)
    ensures forall request, r :: IsStamped(now, steps, n, request, r) ==> IsStamped(now, steps, n + 1, request, r)
  {
    forall request, r | IsStamped(now, steps, n, request, r) ensures IsStamped(now, steps, n + 1, request, r) {
      var k: nat, r0: Response :| k < n && AnswersAt(now, steps, k, request, r0) && StampedAfter(now, steps, k, r0, r);
      assert k < n + 1;
    }
  }

  lemma StampingNow(now: int, steps: seq<Step>, n: nat, request: Request, r: Response)
    requires Run(Empty(now), steps).Some? && n < |steps| && At(now, steps, n).Some?
    requires WasAnswered(now, steps, n, request, r)
    ensures IsStamped(now, steps, n, request, r.(savedAt := Some(At(now, steps, n).value.now)))
  {
    var k: nat :| k < n && AnswersAt(now, steps, k, request, r);
    TimeGoesOn(now, steps, k, n);
    assert StampedAfter(now, steps, k, r, r.(savedAt := Some(At(now, steps, n).value.now)));
  }

  /** What is being saved is kept from step to step, until it is stamped with the time. */
  predicate SaveMoves(s: State, step: Step, id: nat, n: Navigation, n': Navigation) {
    && n'.request == n.request
    && (BeingSaved(n'.phase) ==>
          (BeingSaved(n.phase) && n'.phase.answer == n.phase.answer)
          || (step == NetworkAnswers(id, n'.phase.answer) && Storable(n'.phase.answer, true)))
    && (n'.phase.Stamped? || n'.phase.Storing? ==>
          (step == Stamp(id) && BeingSaved(n.phase) && n'.phase.stamped == n.phase.answer.(savedAt := Some(s.now)))
          || ((n.phase.Stamped? || n.phase.Storing?) && n'.phase.stamped == n.phase.stamped))
  }

  lemma StepMovesSave(s: State, step: Step, id: nat)
    requires Enabled(s, step) && id in s.navigations && id in Next(s, step).navigations
    ensures SaveMoves(s, step, id, s.navigations[id], Next(s, step).navigations[id])
  {
  }

  lemma StartsUnsaved(s: State, step: Step, id: nat)
    requires Enabled(s, step) && id !in s.navigations && id in Next(s, step).navigations
    ensures Next(s, step).navigations[id].phase.Started?
  {
  }

  lemma PhaseStillComesFrom(now: int, steps: seq<Step>, n: nat, s: State, id: nat, was: Navigation, nav: Navigation)
    requires Run(Empty(now), steps).Some? && n < |steps| && At(now, steps, n) == Some(s)
    requires id in s.navigations && s.navigations[id] == was && PhaseComesFrom(now, steps, n, was)
    requires SaveMoves(s, steps[n], id, was, nav)
    ensures PhaseComesFrom(now, steps, n + 1, nav)
  {
    WasAnsweredGrows(now, steps, n);
    if steps[n].NetworkAnswers? && steps[n].id == id && Storable(steps[n].response, true) {
      assert AnswersAt(now, steps, n, was.request, steps[n].response);
      assert n < n + 1;
    }
    if steps[n] == Stamp(id) && BeingSaved(was.phase) {
      StampingNow(now, steps, n, was.request, was.phase.answer);
    }
  }

  lemma NavigationComesFrom(now: int, steps: seq<Step>, n: nat, s: State, id: nat)
    requires Run(Empty(now), steps).Some? && n < |steps| && At(now, steps, n) == Some(s)
    requires AllComeFrom(now, steps, n, s)
    requires Enabled(s, steps[n]) && id in Next(s, steps[n]).navigations
    ensures PhaseComesFrom(now, steps, n + 1, Next(s, steps[n]).navigations[id])
  {
    if id in s.navigations {
      StepMovesSave(s, steps[n], id);
      PhaseStillComesFrom(now, steps, n, s, id, s.navigations[id], Next(s, steps[n]).navigations[id]);
    } else {
      StartsUnsaved(s, steps[n], id);
    }
  }

  lemma PageStillComesFrom(now: int, steps: seq<Step>, n: nat, s: State, c: nat, url: Url)
    requires n < |steps| && AllComeFrom(now, steps, n, s) && Enabled(s, steps[n])
    requires c in Next(s, steps[n]).caches && url in Next(s, steps[n]).caches[c]
    ensures PageComesFrom(now, steps, n + 1, url, Next(s, steps[n]).caches[c][url])
  {
    WasAnsweredGrows(now, steps, n);
    PagesComeAndGo(s, steps[n], c);
    if steps[n].Put? {
      assert PhaseComesFrom(now, steps, n, s.navigations[steps[n].id]);
    }
    if url in PagesOf(s, c) && PagesOf(Next(s, steps[n]), c)[url] == PagesOf(s, c)[url] {
      assert PageComesFrom(now, steps, n, url, s.caches[c][url]);
    }
  }

  lemma {:induction false} AllComeFromTheNetwork(now: int, steps: seq<Step>, n: nat)
    requires Run(Empty(now), steps).Some? && n <= |steps|
    ensures At(now, steps, n).Some? && AllComeFrom(now, steps, n, At(now, steps, n).value)
    decreases n
  {
    if n > 0 {
      RunSplits(Empty(now), steps, n - 1);
      AllComeFromTheNetwork(now, steps, n - 1);
      var s := At(now, steps, n - 1).value;
      var s' := Next(s, steps[n - 1]);
      forall id | id in s'.navigations ensures PhaseComesFrom(now, steps, n, s'.navigations[id]) {
        NavigationComesFrom(now, steps, n - 1, s, id);
      }
      forall c, url | c in s'.caches && url in s'.caches[c]
        ensures PageComesFrom(now, steps, n, url, s'.caches[c][url])
      {
        PageStillComesFrom(now, steps, n - 1, s, c, url);
      }
    }
  }

  /**
   In every state of every run each page in each cache is, but for its stamp, a response that the network gave in
   some step of the run to a navigation with the request it is kept for; the stamp is not older than that step.
   */
  lemma SavedPagesAreTheNetworksAnswers(now: int, steps: seq<Step>, s: State, c: nat, url: Url)
    requires Reaches(now, steps, s) && c in s.caches && url in s.caches[c]
    ensures s.caches[c][url].request.url == url
    ensures IsStamped(now, steps, |steps|, s.caches[c][url].request, s.caches[c][url].response)
  {
    AllComeFromTheNetwork(now, steps, |steps|);
    assert steps[..|steps|] == steps;
    assert PageComesFrom(now, steps, |steps|, url, s.caches[c][url]);
  }

  /** Pages come into a cache by a save alone, under their own URL, and leave it by being removed alone. */
  lemma PagesComeAndGo(s: State, step: Step, c: nat)
    requires Enabled(s, step)
    ensures var was, now := PagesOf(s, c), PagesOf(Next(s, step), c);
            if step.Put? && s.navigations[step.id].phase.into == c
            then var n := s.navigations[step.id]; now == was[n.request.url := Entry(n.request, n.phase.stamped)]
            else if step.Remove? && step.from == c then now == was - {step.url}
            else now == was
    ensures Next(s, step).current == s.current + if step.Clear? then 1 else 0
    ensures step.OpenToSave? ==> Next(s, step).navigations[step.id].phase.into == s.current
    ensures step.Open? ==> Next(s, step).navigations[step.id].phase.cache == s.current
  {
  }
}
