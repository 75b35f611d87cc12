/**
 The service worker's saved pages. A save opens the cache, puts its page, reads the keys and deletes
 the oldest ones beyond the limit, and each of these is a separate asynchronous step, so any number of
 saves interleave. "Clear saved pages" deletes the whole cache: saves that opened it before go on
 writing to the detached one.
 */
module PageCache {
  import opened Wrappers

  const PAGE_ENTRIES := 40

  type Url = string
  type Pages = seq<Url>

  /** Cache Storage lists keys in the order they were written; a page written again moves to the end. */
  function Without(pages: Pages, url: Url): Pages {
    if pages == [] then []
    else if pages[0] == url then Without(pages[1..], url)
    else [pages[0]] + Without(pages[1..], url)
  }

  function Put(pages: Pages, url: Url): Pages {
    Without(pages, url) + [url]
  }

  /** The keys `trim` sets out to delete: the first ones beyond the limit, oldest first. */
  function Extra(pages: Pages): Pages {
    if |pages| > PAGE_ENTRIES then pages[..|pages| - PAGE_ENTRIES] else []
  }

  /** Where a save stands. Step numbers record when its put and its reading of the keys took place. */
  datatype Phase =
    | Opened
    | Written(putAt: nat)
    | Trimming(putAt: nat, readAt: nat, todo: set<Url>)

  datatype Save = Save(cache: nat, url: Url, phase: Phase)

  /** `caches` holds every cache ever opened under the name; the last one is the one now in use. */
  datatype State = State(clock: nat, current: nat, caches: map<nat, Pages>, saves: map<nat, Save>)

  datatype Step =
    | Open(id: nat, url: Url)
    | Abandon(id: nat)
    | Write(id: nat)
    | ReadKeys(id: nat)
    | Delete(id: nat, url: Url)
    | Finish(id: nat)
    | Clear

  function Active(s: State, cache: nat): set<nat> {
    set i | i in s.saves && s.saves[i].cache == cache && !s.saves[i].phase.Opened?
  }

  /** The saves that wrote to a cache after a step number and have not finished. */
  function WroteAfter(s: State, cache: nat, step: nat): set<nat> {
    set i | i in Active(s, cache) && s.saves[i].phase.putAt > step
  }

  predicate Enabled(s: State, step: Step) {
    match step
    case Open(id, _) => id !in s.saves
    case Abandon(id) => id in s.saves && s.saves[id].phase.Opened?
    case Write(id) => id in s.saves && s.saves[id].phase.Opened?
    case ReadKeys(id) => id in s.saves && s.saves[id].phase.Written?
    case Delete(id, url) => id in s.saves && s.saves[id].phase.Trimming? && url in s.saves[id].phase.todo
    case Finish(id) => id in s.saves && s.saves[id].phase.Trimming? && s.saves[id].phase.todo == {}
    case Clear => true
  }

  function PagesOf(s: State, cache: nat): Pages {
    if cache in s.caches then s.caches[cache] else []
  }

  function Keys(pages: Pages): set<Url> {
    set u | u in pages
  }

  function Next(s: State, step: Step): State
    requires Enabled(s, step)
  {
    var s := s.(clock := s.clock + 1);
    match step
    case Open(id, url) => s.(saves := s.saves[id := Save(s.current, url, Opened)])
    case Write(id) =>
      var save := s.saves[id];
      s.(caches := s.caches[save.cache := Put(PagesOf(s, save.cache), save.url)],
         saves := s.saves[id := save.(phase := Written(s.clock))])
    case ReadKeys(id) =>
      var save := s.saves[id];
      var todo := Keys(Extra(PagesOf(s, save.cache)));
      s.(saves := s.saves[id := save.(phase := Trimming(save.phase.putAt, s.clock, todo))])
    case Delete(id, url) =>
      var save := s.saves[id];
      s.(caches := s.caches[save.cache := Without(PagesOf(s, save.cache), url)],
         saves := s.saves[id := save.(phase := save.phase.(todo := save.phase.todo - {url}))])
    case Finish(id) => s.(saves := s.saves - {id})
    case Abandon(id) => s.(saves := s.saves - {id})
    case Clear => s.(current := s.current + 1)
  }

  // ---- Lists of keys ----

  ghost predicate Distinct(pages: Pages) {
    forall i, j :: 0 <= i < j < |pages| ==> pages[i] != pages[j]
  }

  lemma {:induction false} WithoutKeys(pages: Pages, url: Url)
    ensures Keys(Without(pages, url)) == Keys(pages) - {url}
    ensures Distinct(pages) ==> Distinct(Without(pages, url))
  {
    if pages != [] {
      WithoutKeys(pages[1..], url);
      assert pages == [pages[0]] + pages[1..];
      assert Keys(pages) == {pages[0]} + Keys(pages[1..]);
      var rest := Without(pages[1..], url);
      if pages[0] != url {
        assert Keys([pages[0]] + rest) == {pages[0]} + Keys(rest);
        if Distinct(pages) {
          forall i, j | 0 <= i < j < |[pages[0]] + rest| ensures ([pages[0]] + rest)[i] != ([pages[0]] + rest)[j] {
            if i == 0 {
              assert rest[j - 1] in Keys(rest);
            }
          }
        }
      }
    }
  }

  lemma PutKeys(pages: Pages, url: Url)
    ensures Keys(Put(pages, url)) == Keys(pages) + {url}
    ensures Distinct(pages) ==> Distinct(Put(pages, url))
  {
    WithoutKeys(pages, url);
    assert url !in Keys(Without(pages, url));
    assert Keys(Put(pages, url)) == Keys(Without(pages, url)) + {url};
  }

  lemma {:induction false} KeysCount(pages: Pages)
    requires Distinct(pages)
    ensures |Keys(pages)| == |pages|
  {
    if pages != [] {
      KeysCount(pages[1..]);
      assert Keys(pages) == {pages[0]} + Keys(pages[1..]);
    }
  }

  /** What is left when the keys `trim` read are gone is within the limit. */
  lemma ExtraLeavesTheLimit(pages: Pages)
    requires Distinct(pages)
    ensures |Keys(pages) - Keys(Extra(pages))| <= 40
  {
    var n := |Extra(pages)|;
    assert pages == pages[..n] + pages[n..];
    assert Keys(pages) - Keys(Extra(pages)) == Keys(pages[n..]);
    KeysCount(pages[n..]);
  }

  // ---- The invariant ----

  /**
   While a save trims, the pages it does not mean to delete are at most the limit and one for each save
   that has written since it read the keys and is not finished.
   */
  ghost predicate TrimsEnough(s: State, id: nat)
    requires id in s.saves && s.saves[id].phase.Trimming?
  {
    var save := s.saves[id];
    |Keys(PagesOf(s, save.cache)) - save.phase.todo| <= PAGE_ENTRIES + |WroteAfter(s, save.cache, save.phase.readAt)|
  }

  ghost predicate BoundedAt(s: State, cache: nat) {
    |Keys(PagesOf(s, cache))| <= PAGE_ENTRIES + |Active(s, cache)|
  }

  predicate Trims(s: State, id: nat) {
    id in s.saves && s.saves[id].phase.Trimming?
  }

  /** Keys are listed once; a put comes before the reading of the keys, and neither is in the future. */
  ghost predicate Tidy(s: State) {
    && (forall cache :: cache in s.caches ==> Distinct(s.caches[cache]))
    && (forall id :: id in s.saves && !s.saves[id].phase.Opened? ==> s.saves[id].phase.putAt <= s.clock)
    && (forall id :: Trims(s, id) ==> s.saves[id].phase.putAt < s.saves[id].phase.readAt <= s.clock)
  }

  ghost predicate Inv(s: State) {
    && Tidy(s)
    && (forall cache :: BoundedAt(s, cache))
    && (forall id :: Trims(s, id) ==> TrimsEnough(s, id))
  }

  lemma SubsetSize<T>(a: set<T>, b: set<T>)
    requires a <= b
    ensures |a| <= |b|
  {
    assert b == a + (b - a);
  }

  /** One key more at most, for one save more that is counted. */
  lemma OneMore(keys: set<Url>, todo: set<Url>, wrote: set<nat>, url: Url, id: nat)
    requires id !in wrote && |keys - todo| <= PAGE_ENTRIES + |wrote|
    ensures |(keys + {url}) - todo| <= PAGE_ENTRIES + |wrote + {id}|
  {
    SubsetSize((keys + {url}) - todo, (keys - todo) + {url});
  }

  lemma TidyNext(s: State, step: Step)
    requires Tidy(s) && Enabled(s, step)
    ensures Tidy(Next(s, step))
  {
    match step {
      case Write(id) => PutKeys(PagesOf(s, s.saves[id].cache), s.saves[id].url);
      case Delete(id, url) => WithoutKeys(PagesOf(s, s.saves[id].cache), url);
      case _ =>
    }
  }

  /** A step changes the active saves of a cache only by the put of one save or the end of one. */
  lemma ActiveNext(s: State, step: Step, cache: nat)
    requires Tidy(s) && Enabled(s, step)
    ensures var active := Active(Next(s, step), cache);
            active == match step
                      case Write(id) => if s.saves[id].cache == cache then Active(s, cache) + {id} else Active(s, cache)
                      case Finish(id) => Active(s, cache) - {id}
                      case _ => Active(s, cache)
  {
  }

  lemma WroteAfterNext(s: State, step: Step, cache: nat, readAt: nat)
    requires Tidy(s) && Enabled(s, step) && readAt <= s.clock
    ensures var wrote := WroteAfter(Next(s, step), cache, readAt);
            wrote == match step
                     case Write(id) => WroteAfter(s, cache, readAt) + if s.saves[id].cache == cache then {id} else {}
                     case Finish(id) => WroteAfter(s, cache, readAt) - {id}
                     case _ => WroteAfter(s, cache, readAt)
  {
    ActiveNext(s, step, cache);
  }

  lemma KeysNext(s: State, step: Step, cache: nat)
    requires Tidy(s) && Enabled(s, step)
    ensures Keys(PagesOf(Next(s, step), cache))
            == match step
               case Write(id) => Keys(PagesOf(s, cache)) + if s.saves[id].cache == cache then {s.saves[id].url} else {}
               case Delete(id, url) => Keys(PagesOf(s, cache)) - if s.saves[id].cache == cache then {url} else {}
               case _ => Keys(PagesOf(s, cache))
  {
    match step {
      case Write(id) => PutKeys(PagesOf(s, s.saves[id].cache), s.saves[id].url);
      case Delete(id, url) => WithoutKeys(PagesOf(s, s.saves[id].cache), url);
      case _ =>
    }
  }

  /** When a save finishes, only saves that wrote after it read the keys can account for surplus pages. */
  lemma FinishedTrim(s: State, id: nat)
    requires Inv(s) && Enabled(s, Finish(id))
    ensures var cache, readAt := s.saves[id].cache, s.saves[id].phase.readAt;
            && |Keys(PagesOf(s, cache))| <= PAGE_ENTRIES + |WroteAfter(s, cache, readAt)|
            && id !in WroteAfter(s, cache, readAt)
  {
    assert Trims(s, id) && TrimsEnough(s, id);
    var cache := s.saves[id].cache;
    assert Keys(PagesOf(s, cache)) - {} == Keys(PagesOf(s, cache));
  }

  lemma BoundedNext(s: State, step: Step, cache: nat)
    requires Inv(s) && Enabled(s, step)
    ensures BoundedAt(Next(s, step), cache)
  {
    assert BoundedAt(s, cache);
    ActiveNext(s, step, cache);
    KeysNext(s, step, cache);
    var s' := Next(s, step);
    if step.Finish? && s.saves[step.id].cache == cache {
      FinishedTrim(s, step.id);
      SubsetSize(WroteAfter(s, cache, s.saves[step.id].phase.readAt), Active(s', cache));
    } else if step.Finish? {
      assert step.id !in Active(s, cache);
    } else if step.Delete? {
      SubsetSize(Keys(PagesOf(s', cache)), Keys(PagesOf(s, cache)));
    }
  }

  lemma TrimsEnoughWrite(s: State, id: nat, j: nat)
    requires Inv(s) && Enabled(s, Write(id)) && Trims(s, j)
    ensures TrimsEnough(Next(s, Write(id)), j)
  {
    assert TrimsEnough(s, j) && j != id;
    var c, phase := s.saves[j].cache, s.saves[j].phase;
    var keys, wrote := Keys(PagesOf(s, c)), WroteAfter(s, c, phase.readAt);
    assert Next(s, Write(id)).saves[j] == s.saves[j];
    WroteAfterNext(s, Write(id), c, phase.readAt);
    KeysNext(s, Write(id), c);
    assert id !in wrote by {
      assert id !in Active(s, c);
    }
    if c == s.saves[id].cache {
      OneMore(keys, phase.todo, wrote, s.saves[id].url, id);
    } else {
      assert Keys(PagesOf(Next(s, Write(id)), c)) == keys;
    }
  }

  /** If the finished save was counted, every save it leaves counted wrote even later. */
  lemma TrimsEnoughFinish(s: State, id: nat, j: nat)
    requires Inv(s) && Enabled(s, Finish(id)) && Trims(s, j) && j != id
    ensures TrimsEnough(Next(s, Finish(id)), j)
  {
    var s' := Next(s, Finish(id));
    assert TrimsEnough(s, j);
    var c, phase := s.saves[j].cache, s.saves[j].phase;
    WroteAfterNext(s, Finish(id), c, phase.readAt);
    KeysNext(s, Finish(id), c);
    if id in WroteAfter(s, c, phase.readAt) {
      FinishedTrim(s, id);
      SubsetSize(Keys(PagesOf(s, c)) - phase.todo, Keys(PagesOf(s, c)));
      SubsetSize(WroteAfter(s, c, s.saves[id].phase.readAt), WroteAfter(s', c, phase.readAt));
    }
  }

  lemma TrimsEnoughDelete(s: State, id: nat, url: Url, j: nat)
    requires Inv(s) && Enabled(s, Delete(id, url)) && Trims(s, j)
    ensures TrimsEnough(Next(s, Delete(id, url)), j)
  {
    var s' := Next(s, Delete(id, url));
    assert TrimsEnough(s, j);
    var c, phase := s.saves[j].cache, s.saves[j].phase;
    WroteAfterNext(s, Delete(id, url), c, phase.readAt);
    KeysNext(s, Delete(id, url), c);
    SubsetSize(Keys(PagesOf(s', c)) - s'.saves[j].phase.todo, Keys(PagesOf(s, c)) - phase.todo);
  }

  lemma TrimsEnoughNext(s: State, step: Step, j: nat)
    requires Inv(s) && Enabled(s, step) && Trims(Next(s, step), j)
    ensures TrimsEnough(Next(s, step), j)
  {
    var s' := Next(s, step);
    match step {
      case Write(id) => TrimsEnoughWrite(s, id, j);
      case Finish(id) => TrimsEnoughFinish(s, id, j);
      case Delete(id, url) => TrimsEnoughDelete(s, id, url, j);
      case ReadKeys(id) =>
        if j == id {
          ExtraLeavesTheLimit(PagesOf(s, s.saves[id].cache));
        } else {
          assert Trims(s, j) && TrimsEnough(s, j);
          WroteAfterNext(s, step, s.saves[j].cache, s.saves[j].phase.readAt);
        }
      case _ =>
        assert Trims(s, j) && TrimsEnough(s, j);
        WroteAfterNext(s, step, s.saves[j].cache, s.saves[j].phase.readAt);
    }
  }

  lemma InvNext(s: State, step: Step)
    requires Inv(s) && Enabled(s, step)
    ensures Inv(Next(s, step))
  {
    TidyNext(s, step);
    forall cache: nat ensures BoundedAt(Next(s, step), cache) {
      BoundedNext(s, step, cache);
    }
    forall j: nat | Trims(Next(s, step), j) ensures TrimsEnough(Next(s, step), j) {
      TrimsEnoughNext(s, step, j);
    }
  }

  // ---- Runs ----

  ghost predicate Runs(s: State, run: seq<Step>)
    decreases |run|
  {
    run == [] || (Enabled(s, run[0]) && Runs(Next(s, run[0]), run[1..]))
  }

  function After(s: State, run: seq<Step>): State
    requires Runs(s, run)
    decreases |run|
  {
    if run == [] then s else After(Next(s, run[0]), run[1..])
  }

  /** No save under way, and every cache within the limit. */
  ghost predicate Idle(s: State) {
    && s.saves == map[]
    && forall cache :: cache in s.caches ==> Distinct(s.caches[cache]) && |s.caches[cache]| <= PAGE_ENTRIES
  }

  lemma IdleInv(s: State)
    requires Idle(s)
    ensures Inv(s)
  {
    forall c: nat ensures BoundedAt(s, c) {
      KeysCount(PagesOf(s, c));
    }
  }

  lemma {:induction false} InvRun(s: State, run: seq<Step>)
    requires Inv(s) && Runs(s, run)
    ensures Inv(After(s, run))
    decreases |run|
  {
    if run != [] {
      InvNext(s, run[0]);
      InvRun(Next(s, run[0]), run[1..]);
    }
  }

  /**
   However the steps of any number of saves interleave, a cache holds at most the limit and one page
   for each save that has put and has not finished; so at most the limit when none is under way. A save
   that fails or is stopped after its put never finishes.
   */
  lemma SavedPagesAreBounded(s: State, run: seq<Step>, cache: nat)
    requires Idle(s) && Runs(s, run)
    ensures |PagesOf(After(s, run), cache)| <= 40 + |Active(After(s, run), cache)|
  {
    IdleInv(s);
    InvRun(s, run);
    assert BoundedAt(After(s, run), cache);
    KeysCount(PagesOf(After(s, run), cache));
  }

  /**
   A surplus does not last: whenever any save finishes, what is beyond the limit is accounted for by
   saves that wrote after it read the keys. Saves stopped earlier no longer count.
   */
  lemma FinishingClearsOldSurplus(s: State, run: seq<Step>, id: nat)
    requires Idle(s) && Runs(s, run) && Enabled(After(s, run), Finish(id))
    ensures var w := After(s, run);
            var cache := w.saves[id].cache;
            |PagesOf(Next(w, Finish(id)), cache)|
            <= 40 + |WroteAfter(Next(w, Finish(id)), cache, w.saves[id].phase.readAt)|
  {
    IdleInv(s);
    InvRun(s, run);
    var w := After(s, run);
    var w' := Next(w, Finish(id));
    FinishedTrim(w, id);
    var cache, readAt := w.saves[id].cache, w.saves[id].phase.readAt;
    WroteAfterNext(w, Finish(id), cache, readAt);
    assert WroteAfter(w', cache, readAt) == WroteAfter(w, cache, readAt);
    KeysCount(PagesOf(w, cache));
  }

  // ---- One save on its own ----

  lemma {:induction false} WithoutAbsent(pages: Pages, url: Url)
    requires url !in pages
    ensures Without(pages, url) == pages
  {
    if pages != [] {
      WithoutAbsent(pages[1..], url);
    }
  }

  lemma WithoutFirst(pages: Pages)
    requires Distinct(pages) && pages != []
    ensures Without(pages, pages[0]) == pages[1..]
  {
    WithoutAbsent(pages[1..], pages[0]);
  }

  /** The pages written last, up to the limit. */
  function Newest(pages: Pages): (r: Pages)
    ensures |r| == (if |pages| < 40 then |pages| else 40) && r == pages[|pages| - |r|..]
    ensures (pages != [] ==> r != [] && r[|r| - 1] == pages[|pages| - 1])
  {
    pages[|Extra(pages)|..]
  }

  class PageStore {
    var pages: Pages

    constructor ()
      ensures pages == []
    {
      pages := [];
    }

    /** `trim`: reads the keys once and deletes the first ones beyond the limit. */
    method Trim()
      requires Distinct(pages)
      modifies this
      ensures pages == Newest(old(pages))
    {
      var keys := pages;
      var extra := |keys| - PAGE_ENTRIES;
      if extra > 0 {
        for i := 0 to extra
          invariant pages == keys[i..]
        {
          assert Distinct(keys[i..]);
          WithoutFirst(keys[i..]);
          pages := Without(pages, keys[i]);
        }
      }
    }

    /** Undisturbed, a save leaves its page and the most recently written others, at most forty in all. */
    method SavePage(url: Url)
      requires Distinct(pages)
      modifies this
      ensures Distinct(pages) && pages == Newest(Put(old(pages), url)) && |pages| <= 40 && url in pages
    {
      PutKeys(pages, url);
      pages := Without(pages, url) + [url];
      Trim();
      assert pages[|pages| - 1] == url;
    }
  }
}
