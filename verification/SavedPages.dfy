/**
 Page navigations through the service worker: look up the saved copy, ask the network, save what may be
 saved, answer. Every step of every navigation is asynchronous, so any number of them interleave with each
 other, with deletions from the cache and with time passing.
 */
module SavedPages {
  import opened Wrappers
  import opened CachePolicy

  const ORIGIN := "https://shaidago.example"

  /** A stored page and the request it was stored for. */
  datatype Entry = Entry(request: Request, response: Response)

  /**
   A navigation under way: `copy` is the usable saved copy it found, and `lookedAt` the time it looked. To look
   up and again to save it opens the cache first, and goes on with that cache even if it is cleared meanwhile.
   */
  datatype Phase =
    | Started
    | Opened(cache: nat)
    | AskingPreference(found: Response)
    | Fetching(background: bool)
    | Saving(background: bool, answer: Response)
    | Stamped(background: bool, answer: Response, stamped: Response)
    | Storing(background: bool, answer: Response, stamped: Response, into: nat)
    | Trimming(background: bool, answer: Response)

  datatype Navigation = Navigation(request: Request, copy: Option<Response>, lookedAt: int, phase: Phase)

  datatype Answer = FromNetwork(response: Response) | FromSaved(saved: Response) | OfflinePage

  /** An answer handed to the browser, with the navigation it ended. */
  datatype Given = Given(navigation: Navigation, answer: Answer)

  type Pages = map<Url, Entry>

  /** Every cache ever opened under the name; clearing deletes the current one and the next open makes a new one. */
  datatype State = State(
    now: int, current: nat, caches: map<nat, Pages>, navigations: map<nat, Navigation>, given: set<Given>)

  function PagesOf(s: State, cache: nat): Pages {
    if cache in s.caches then s.caches[cache] else map[]
  }

  datatype Step =
    | Navigate(id: nat, request: Request)
    | Open(id: nat)
    | LookUp(id: nat)
    | ReadPreference(id: nat, lowData: bool)
    | NetworkAnswers(id: nat, response: Response)
    | NetworkFails(id: nat)
    | Stamp(id: nat)
    | OpenToSave(id: nat)
    | Put(id: nat)
    | Trimmed(id: nat)
    | SavingFails(id: nat)
    | Remove(from: nat, url: Url)
    | Clear
    | Wait(ms: nat)

  predicate BeingSaved(p: Phase) {
    p.Saving? || p.Stamped? || p.Storing? || p.Trimming?
  }

  predicate InPhase(s: State, id: nat, step: Step) {
    id in s.navigations &&
    match step
    case Open(_) => s.navigations[id].phase.Started?
    case LookUp(_) => s.navigations[id].phase.Opened?
    case ReadPreference(_, _) => s.navigations[id].phase.AskingPreference?
    case NetworkAnswers(_, _) => s.navigations[id].phase.Fetching?
    case NetworkFails(_) => s.navigations[id].phase.Fetching?
    case Stamp(_) => s.navigations[id].phase.Saving?
    case OpenToSave(_) => s.navigations[id].phase.Stamped?
    case Put(_) => s.navigations[id].phase.Storing?
    case Trimmed(_) => s.navigations[id].phase.Trimming?
    case SavingFails(_) => BeingSaved(s.navigations[id].phase)
    case _ => false
  }

  predicate Enabled(s: State, step: Step) {
    match step
    case Navigate(id, _) => id !in s.navigations
    case Remove(_, _) => true
    case Clear => true
    case Wait(_) => true
    case _ => InPhase(s, step.id, step)
  }

  function Move(s: State, id: nat, phase: Phase): State
    requires id in s.navigations
  {
    s.(navigations := s.navigations[id := s.navigations[id].(phase := phase)])
  }

  /** Ends a navigation. One that refreshes in the background has given its answer already. */
  function End(s: State, id: nat, background: bool, answer: Answer): State
    requires id in s.navigations
  {
    s.(navigations := s.navigations - {id},
       given := if background then s.given else s.given + {Given(s.navigations[id], answer)})
  }

  function Fallback(n: Navigation): Answer {
    if n.copy.Some? then FromSaved(n.copy.value) else OfflinePage
  }

  /** The network's answer, unless it is a server error and there is a copy to show instead. */
  function Settle(n: Navigation, response: Response): Answer {
    if response.status >= 500 && n.copy.Some? then FromSaved(n.copy.value) else FromNetwork(response)
  }

  function AfterLookUp(s: State, id: nat): State
    requires id in s.navigations && s.navigations[id].phase.Opened?
  {
    var n := s.navigations[id];
    var pages := PagesOf(s, n.phase.cache);
    var saved := if n.request.url in pages then Some(pages[n.request.url].response) else None;
    var age := if saved.Some? then AgeMs(saved.value, s.now) else None;
    var copy := if Within(age, MAX_AGE_MS) then saved else None;
    var phase := if copy.Some? && Within(age, FRESH_MS) then AskingPreference(copy.value) else Fetching(false);
    s.(navigations := s.navigations[id := Navigation(n.request, copy, s.now, phase)])
  }

  function Next(s: State, step: Step): State
    requires Enabled(s, step)
  {
    match step
    case Navigate(id, request) =>
      if PublicNavigation(request, ORIGIN)
      then s.(navigations := s.navigations[id := Navigation(request, None, s.now, Started)])
      else s
    case Open(id) => Move(s, id, Opened(s.current))
    case LookUp(id) => AfterLookUp(s, id)
    case ReadPreference(id, lowData) =>
      var n := s.navigations[id];
      var s' := s.(given := s.given + {Given(n, FromSaved(n.phase.found))});
      if lowData then s'.(navigations := s.navigations - {id}) else Move(s', id, Fetching(true))
    case NetworkAnswers(id, response) =>
      var n := s.navigations[id];
      if Storable(response, true) then Move(s, id, Saving(n.phase.background, response))
      else End(s, id, n.phase.background, Settle(n, response))
    case NetworkFails(id) => End(s, id, s.navigations[id].phase.background, Fallback(s.navigations[id]))
    case Stamp(id) =>
      var p := s.navigations[id].phase;
      Move(s, id, Stamped(p.background, p.answer, p.answer.(savedAt := Some(s.now))))
    case OpenToSave(id) =>
      var p := s.navigations[id].phase;
      Move(s, id, Storing(p.background, p.answer, p.stamped, s.current))
    case Put(id) =>
      var n := s.navigations[id];
      var pages := PagesOf(s, n.phase.into)[n.request.url := Entry(n.request, n.phase.stamped)];
      Move(s.(caches := s.caches[n.phase.into := pages]), id, Trimming(n.phase.background, n.phase.answer))
    case Trimmed(id) =>
      var n := s.navigations[id];
      End(s, id, n.phase.background, Settle(n, n.phase.answer))
    case SavingFails(id) => End(s, id, s.navigations[id].phase.background, Fallback(s.navigations[id]))
    case Remove(cache, url) => s.(caches := s.caches[cache := PagesOf(s, cache) - {url}])
    case Clear => s.(current := s.current + 1)
    case Wait(ms) => s.(now := s.now + ms)
  }

  ghost function Run(s: State, steps: seq<Step>): Option<State>
    decreases |steps|
  {
    if steps == [] then Some(s)
    else if !Enabled(s, steps[0]) then None
    else Run(Next(s, steps[0]), steps[1..])
  }

  function Empty(now: int): State {
    State(now, 0, map[], map[], {})
  }

  // ---- What every reachable state satisfies ----

  /** A response that may be stored, stamped with a time that is not in the future. */
  predicate Proper(r: Response, now: int) {
    Storable(r, true) && r.savedAt.Some? && r.savedAt.value <= now
  }

  /** Stamped before the lookup, and by then at most seven days old. */
  predicate Usable(r: Response, lookedAt: int) {
    Proper(r, lookedAt) && lookedAt - r.savedAt.value <= MAX_AGE_MS
  }

  predicate NavigationOk(n: Navigation, now: int) {
    && PublicNavigation(n.request, ORIGIN) && n.lookedAt <= now
    && (n.copy.Some? ==> Usable(n.copy.value, n.lookedAt))
    && (n.phase.AskingPreference? ==>
        n.copy == Some(n.phase.found) && n.lookedAt - n.phase.found.savedAt.value <= FRESH_MS)
    && (n.phase.Saving? ==> Storable(n.phase.answer, true))
    && (n.phase.Stamped? || n.phase.Storing? ==> Storable(n.phase.answer, true) && Proper(n.phase.stamped, now))
    && (n.phase.Trimming? ==> Storable(n.phase.answer, true))
  }

  predicate EntryOk(url: Url, e: Entry, now: int) {
    e.request.url == url && PublicNavigation(e.request, ORIGIN) && Proper(e.response, now)
  }

  /** A saved answer is the usable copy; with one in hand, no server error and no offline page is shown instead. */
  predicate GivenOk(g: Given) {
    && PublicNavigation(g.navigation.request, ORIGIN)
    && (g.navigation.copy.Some? ==> Usable(g.navigation.copy.value, g.navigation.lookedAt))
    && match g.answer
       case FromSaved(r) => g.navigation.copy == Some(r)
       case FromNetwork(r) => g.navigation.copy.Some? ==> r.status < 500
       case OfflinePage => g.navigation.copy.None?
  }

  ghost predicate Inv(s: State) {
    && (forall c, url :: c in s.caches && url in s.caches[c] ==> EntryOk(url, s.caches[c][url], s.now))
    && (forall id :: id in s.navigations ==> NavigationOk(s.navigations[id], s.now))
    && (forall g :: g in s.given ==> GivenOk(g))
  }

  lemma StampIgnoresPolicy(r: Response, at: int)
    ensures Storable(r.(savedAt := Some(at)), true) <==> Storable(r, true)
  {
  }

  lemma LookUpIsOk(s: State, id: nat)
    requires Inv(s) && id in s.navigations && s.navigations[id].phase.Opened?
    ensures NavigationOk(AfterLookUp(s, id).navigations[id], s.now)
  {
    var n := s.navigations[id];
    if n.request.url in PagesOf(s, n.phase.cache) {
      assert EntryOk(n.request.url, s.caches[n.phase.cache][n.request.url], s.now);
    }
  }

  /** Ending a navigation in the foreground gives an answer that is in order. */
  lemma EndingIsOk(n: Navigation, now: int)
    requires NavigationOk(n, now)
    ensures GivenOk(Given(n, Fallback(n))) && forall r :: GivenOk(Given(n, Settle(n, r)))
    ensures n.phase.AskingPreference? ==> GivenOk(Given(n, FromSaved(n.phase.found)))
  {
  }

  lemma PageIsOk(s: State, step: Step, c: nat, url: Url)
    requires Inv(s) && Enabled(s, step) && c in Next(s, step).caches && url in Next(s, step).caches[c]
    ensures EntryOk(url, Next(s, step).caches[c][url], Next(s, step).now)
  {
    if c in s.caches && url in s.caches[c] {
      assert EntryOk(url, s.caches[c][url], s.now);
    }
  }

  lemma NavigationIsOk(s: State, step: Step, id: nat)
    requires Inv(s) && Enabled(s, step) && id in Next(s, step).navigations
    ensures NavigationOk(Next(s, step).navigations[id], Next(s, step).now)
  {
    if step.LookUp? && step.id == id {
      LookUpIsOk(s, id);
    } else if step.Stamp? && step.id == id {
      StampIgnoresPolicy(s.navigations[id].phase.answer, s.now);
    }
  }

  lemma AnswerIsOk(s: State, step: Step, g: Given)
    requires Inv(s) && Enabled(s, step) && g in Next(s, step).given
    ensures GivenOk(g)
  {
    if g !in s.given {
      var n := s.navigations[step.id];
      EndingIsOk(n, s.now);
    }
  }

  lemma InvNext(s: State, step: Step)
    requires Inv(s) && Enabled(s, step)
    ensures Inv(Next(s, step))
  {
    var s' := Next(s, step);
    forall c, url | c in s'.caches && url in s'.caches[c] ensures EntryOk(url, s'.caches[c][url], s'.now) {
      PageIsOk(s, step, c, url);
    }
    forall id | id in s'.navigations ensures NavigationOk(s'.navigations[id], s'.now) {
      NavigationIsOk(s, step, id);
    }
    forall g | g in s'.given ensures GivenOk(g) {
      AnswerIsOk(s, step, g);
    }
  }

  lemma {:induction false} InvRun(s: State, steps: seq<Step>)
    requires Inv(s) && Run(s, steps).Some?
    ensures Inv(Run(s, steps).value)
    decreases |steps|
  {
    if steps != [] {
      InvNext(s, steps[0]);
      InvRun(Next(s, steps[0]), steps[1..]);
    }
  }

  // ---- The promises ----

  /**
   Over every run: whatever is in any page cache, cleared or not, was stored for a GET navigation to that very
   URL on the allowlist, from a response that may be stored, and carries the time it was saved.
   */
  lemma OnlyPublicPagesAreSaved(now: int, steps: seq<Step>, c: nat, url: Url)
    requires Run(Empty(now), steps).Some?
    requires c in Run(Empty(now), steps).value.caches && url in Run(Empty(now), steps).value.caches[c]
    ensures var s := Run(Empty(now), steps).value;
            var e := s.caches[c][url];
            && e.request.url == url && e.request.verb == "GET" && e.request.mode == "navigate" && url.origin == ORIGIN
            && PublicPath(url.pathname) && SearchAllowed(url.params)
            && Storable(e.response, true) && !Truthy(e.response.setCookie)
            && e.response.savedAt.Some? && now <= e.response.savedAt.value <= s.now
  {
    InvRun(Empty(now), steps);
    StampsAreRecent(Empty(now), steps, now);
    var s := Run(Empty(now), steps).value;
    assert EntryOk(url, s.caches[c][url], s.now);
    assert StampAfter(s.caches[c][url].response, now);
  }

  predicate StampAfter(r: Response, start: int) {
    r.savedAt.Some? ==> start <= r.savedAt.value
  }

  /** Nothing is stamped before the run began. */
  ghost predicate StampedSince(s: State, start: int) {
    && start <= s.now
    && (forall c, url :: c in s.caches && url in s.caches[c] ==> StampAfter(s.caches[c][url].response, start))
    && (forall id :: id in s.navigations && (s.navigations[id].phase.Stamped? || s.navigations[id].phase.Storing?) ==>
          StampAfter(s.navigations[id].phase.stamped, start))
  }

  lemma StampNext(s: State, step: Step, start: int)
    requires StampedSince(s, start) && Enabled(s, step)
    ensures StampedSince(Next(s, step), start)
  {
  }

  lemma {:induction false} StampsAreRecent(s: State, steps: seq<Step>, start: int)
    requires StampedSince(s, start) && Run(s, steps).Some?
    ensures StampedSince(Run(s, steps).value, start)
    decreases |steps|
  {
    if steps != [] {
      StampNext(s, steps[0], start);
      StampsAreRecent(Next(s, steps[0]), steps[1..], start);
    }
  }

  /**
   Over every run: an answer from the cache was at most seven days old when it was looked up; and whoever
   had such a copy to fall back on is never shown the offline page or a server error.
   */
  lemma SavedAnswersAreYoung(now: int, steps: seq<Step>, g: Given)
    requires Run(Empty(now), steps).Some? && g in Run(Empty(now), steps).value.given
    ensures g.answer.FromSaved? ==>
              && g.navigation.copy == Some(g.answer.saved) && Storable(g.answer.saved, true)
              && g.answer.saved.savedAt.Some?
              && 0 <= g.navigation.lookedAt - g.answer.saved.savedAt.value <= 604_800_000
    ensures g.navigation.copy.Some? ==>
        !g.answer.OfflinePage? && (g.answer.FromNetwork? ==> g.answer.response.status < 500)
  {
    InvRun(Empty(now), steps);
    assert GivenOk(g);
  }

  /** Answering from the cache without waiting for the network happens only in the first five minutes. */
  lemma OnlyFreshCopiesSkipTheNetwork(now: int, steps: seq<Step>, id: nat, lowData: bool)
    requires Run(Empty(now), steps).Some? && Enabled(Run(Empty(now), steps).value, ReadPreference(id, lowData))
    ensures var s := Run(Empty(now), steps).value;
            var n := s.navigations[id];
            && n.copy.Some? && n.copy.value.savedAt.Some? && 0 <= n.lookedAt - n.copy.value.savedAt.value <= 300_000
            && Given(n, FromSaved(n.copy.value)) in Next(s, ReadPreference(id, lowData)).given
  {
    InvRun(Empty(now), steps);
    assert NavigationOk(Run(Empty(now), steps).value.navigations[id], Run(Empty(now), steps).value.now);
  }

  // ---- A good answer, and whether it is shown ----

  predicate EndsSaving(step: Step, id: nat) {
    step == Trimmed(id) || step == SavingFails(id)
  }

  /** Whatever else happens, a save goes on with the same answer and the same copy until one of two steps ends it. */
  lemma SavingGoesOn(s: State, step: Step, id: nat)
    requires Enabled(s, step) && id in s.navigations && BeingSaved(s.navigations[id].phase) && !EndsSaving(step, id)
    ensures id in Next(s, step).navigations
    ensures var n, n' := s.navigations[id], Next(s, step).navigations[id];
            && BeingSaved(n'.phase) && n'.phase.answer == n.phase.answer && n'.phase.background == n.phase.background
            && n'.request == n.request && n'.copy == n.copy && n'.lookedAt == n.lookedAt
  {
  }

  lemma {:induction false} SavingGoesOnRun(s: State, steps: seq<Step>, id: nat)
    requires Run(s, steps).Some? && id in s.navigations && BeingSaved(s.navigations[id].phase)
    requires forall i :: 0 <= i < |steps| ==> !EndsSaving(steps[i], id)
    ensures var w := Run(s, steps).value;
            && id in w.navigations
            && var n, n' := s.navigations[id], w.navigations[id];
            && BeingSaved(n'.phase) && n'.phase.answer == n.phase.answer && n'.phase.background == n.phase.background
            && n'.request == n.request && n'.copy == n.copy && n'.lookedAt == n.lookedAt
    decreases |steps|
  {
    if steps != [] {
      SavingGoesOn(s, steps[0], id);
      SavingGoesOnRun(Next(s, steps[0]), steps[1..], id);
    }
  }

  /** What the last step of a foreground save hands out. */
  function Shown(n: Navigation, last: Step): Answer
    requires BeingSaved(n.phase)
  {
    if last.Trimmed? then FromNetwork(n.phase.answer) else if n.copy.Some? then FromSaved(n.copy.value) else OfflinePage
  }

  lemma LastStepShows(w: State, id: nat, last: Step)
    requires id in w.navigations && BeingSaved(w.navigations[id].phase) && !w.navigations[id].phase.background
    requires w.navigations[id].phase.answer.status == 200 && EndsSaving(last, id) && Enabled(w, last)
    ensures Next(w, last).given == w.given + {Given(w.navigations[id], Shown(w.navigations[id], last))}
  {
  }

  /**
   Exactly when a good answer is shown. Take any reachable state in which the network has answered a navigation
   with a response that may be stored, and any run on from there to the step that ends the save. The reader gets
   that response if and only if saving succeeds; if it fails, only the copy, or without one the offline page.
   */
  lemma ShownIffSavingSucceeds(s: State, steps: seq<Step>, id: nat, last: Step)
    requires Inv(s) && Run(s, steps).Some? && id in s.navigations
    requires BeingSaved(s.navigations[id].phase) && !s.navigations[id].phase.background
    requires forall i :: 0 <= i < |steps| ==> !EndsSaving(steps[i], id)
    requires EndsSaving(last, id) && Enabled(Run(s, steps).value, last)
    ensures var n, w := s.navigations[id], Run(s, steps).value;
            && id in w.navigations && n.phase.answer.status == 200
            && Next(w, last).given == w.given + {Given(w.navigations[id], Shown(n, last))}
            && (Shown(n, last) == FromNetwork(n.phase.answer) <==> last == Trimmed(id))
  {
    assert NavigationOk(s.navigations[id], s.now);
    SavingGoesOnRun(s, steps, id);
    LastStepShows(Run(s, steps).value, id, last);
  }

  function FrontPage(): Request {
    Request(Url(ORIGIN, "/en", "", [], "", ""), "GET", "navigate", None, None)
  }

  function GoodPage(): Response {
    Response(200, Basic, false, None, None, "", NotANumber, "text/html", "", None)
  }

  lemma FrontPageIsPublic()
    ensures PublicNavigation(FrontPage(), ORIGIN) && Storable(GoodPage(), true)
  {
    var path := "/en";
    assert path[1..3] == "en" && path[3..] == "";
    assert Matches(0, path);
    var html := "text/html";
    assert Lower(html) == html;
    assert Lower("") == "";
  }

  /** A run that ends on the offline page although the network answered 200: the first visit, and saving fails. */
  lemma OfflinePageDespiteAnswer(now: int) returns (steps: seq<Step>, g: Given)
    ensures Run(Empty(now), steps).Some? && g in Run(Empty(now), steps).value.given && Inv(Run(Empty(now), steps).value)
    ensures g.answer == OfflinePage && BeingSaved(g.navigation.phase) && g.navigation.phase.answer.status == 200
  {
    FrontPageIsPublic();
    var s0 := Empty(now);
    steps := [Navigate(0, FrontPage()), Open(0), LookUp(0), NetworkAnswers(0, GoodPage()), SavingFails(0)];
    var s1 := Next(s0, steps[0]);
    var s2 := Next(s1, steps[1]);
    var s3 := Next(s2, steps[2]);
    var s4 := Next(s3, steps[3]);
    var s5 := Next(s4, steps[4]);
    g := Given(s4.navigations[0], OfflinePage);
    assert g in s5.given;
    RunFive(s0, steps, s1, s2, s3, s4, s5);
    InvRun(s0, steps);
  }

  lemma RunFive(s0: State, steps: seq<Step>, s1: State, s2: State, s3: State, s4: State, s5: State)
    requires |steps| == 5
    requires Enabled(s0, steps[0]) && s1 == Next(s0, steps[0]) && Enabled(s1, steps[1]) && s2 == Next(s1, steps[1])
    requires Enabled(s2, steps[2]) && s3 == Next(s2, steps[2]) && Enabled(s3, steps[3]) && s4 == Next(s3, steps[3])
    requires Enabled(s4, steps[4]) && s5 == Next(s4, steps[4])
    ensures Run(s0, steps) == Some(s5)
  {
    assert steps == [steps[0]] + steps[1..] && steps[1..][1..] == steps[2..] && steps[2..][1..] == steps[3..];
    assert steps[3..][1..] == steps[4..] && steps[4..][1..] == [];
    assert Run(s4, steps[4..]) == Some(s5);
    assert Run(s3, steps[3..]) == Some(s5);
    assert Run(s2, steps[2..]) == Some(s5);
    assert Run(s1, steps[1..]) == Some(s5);
  }
}
