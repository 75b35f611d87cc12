/**
 What the cache of pages holds and what a trim takes, told from the writes and deletions of a run alone.
 */
module PageCacheLaws {
  import opened Wrappers
  import opened PageCache

  const EMPTY := State(0, 0, map[], map[])

  ghost predicate FromEmpty(run: seq<Step>) {
    Runs(EMPTY, run)
  }

  lemma {:induction false} PrefixRuns(s: State, run: seq<Step>, n: nat)
    requires Runs(s, run) && n <= |run|
    ensures Runs(s, run[..n])
    decreases n
  {
    if n > 0 {
      assert run[..n][1..] == run[1..][..n - 1];
      PrefixRuns(Next(s, run[0]), run[1..], n - 1);
    }
  }

  lemma {:induction false} OneStepFurther(s: State, run: seq<Step>, n: nat)
    requires Runs(s, run) && n < |run|
    ensures Runs(s, run[..n]) && Runs(s, run[..n + 1])
    ensures Enabled(After(s, run[..n]), run[n]) && After(s, run[..n + 1]) == Next(After(s, run[..n]), run[n])
    decreases n
  {
    PrefixRuns(s, run, n);
    PrefixRuns(s, run, n + 1);
    if n == 0 {
      assert run[..1][1..] == [];
    } else {
      assert run[..n][1..] == run[1..][..n - 1] && run[..n + 1][1..] == run[1..][..n];
      OneStepFurther(Next(s, run[0]), run[1..], n - 1);
    }
  }

  /** The state before step `n`. */
  ghost function At(run: seq<Step>, n: nat): State
    requires FromEmpty(run) && n <= |run|
  {
    PrefixRuns(EMPTY, run, n);
    After(EMPTY, run[..n])
  }

  lemma StepAt(run: seq<Step>, n: nat)
    requires FromEmpty(run) && n < |run|
    ensures Enabled(At(run, n), run[n]) && At(run, n + 1) == Next(At(run, n), run[n])
  {
    OneStepFurther(EMPTY, run, n);
  }

  lemma InvAt(run: seq<Step>, n: nat)
    requires FromEmpty(run) && n <= |run|
    ensures Inv(At(run, n))
  {
    PrefixRuns(EMPTY, run, n);
    IdleInv(EMPTY);
    InvRun(EMPTY, run[..n]);
  }

  // ---- Writes and deletions ----

  ghost predicate WritesAt(run: seq<Step>, n: nat, cache: nat, url: Url)
    requires FromEmpty(run)
  {
    && n < |run| && run[n].Write? && run[n].id in At(run, n).saves
    && At(run, n).saves[run[n].id].cache == cache && At(run, n).saves[run[n].id].url == url
  }

  ghost predicate DeletesAt(run: seq<Step>, n: nat, cache: nat, url: Url)
    requires FromEmpty(run)
  {
    && n < |run| && run[n].Delete? && run[n].url == url && run[n].id in At(run, n).saves
    && At(run, n).saves[run[n].id].cache == cache
  }

  /** The step that last wrote the page into the cache, unless it was deleted since. */
  ghost function LastWrite(run: seq<Step>, n: nat, cache: nat, url: Url): Option<nat>
    requires FromEmpty(run) && n <= |run|
  {
    if n == 0 then None
    else if WritesAt(run, n - 1, cache, url) then Some(n - 1)
    else if DeletesAt(run, n - 1, cache, url) then None
    else LastWrite(run, n - 1, cache, url)
  }

  lemma {:induction false} LastWriteIsBefore(run: seq<Step>, n: nat, cache: nat, url: Url)
    requires FromEmpty(run) && n <= |run|
    ensures LastWrite(run, n, cache, url).Some? ==> LastWrite(run, n, cache, url).value < n
  {
    if n > 0 {
      LastWriteIsBefore(run, n - 1, cache, url);
    }
  }

  ghost predicate Written(run: seq<Step>, n: nat, cache: nat, pages: Pages)
    requires FromEmpty(run) && n <= |run|
  {
    forall u :: u in pages <==> LastWrite(run, n, cache, u).Some?
  }

  ghost predicate InOrderOfWriting(run: seq<Step>, n: nat, cache: nat, pages: Pages)
    requires FromEmpty(run) && n <= |run|
  {
    forall i, j :: 0 <= i < j < |pages| ==> Earlier(run, n, cache, pages[i], pages[j])
  }

  ghost predicate Earlier(run: seq<Step>, n: nat, cache: nat, u: Url, v: Url)
    requires FromEmpty(run) && n <= |run|
  {
    && LastWrite(run, n, cache, u).Some? && LastWrite(run, n, cache, v).Some?
    && LastWrite(run, n, cache, u).value < LastWrite(run, n, cache, v).value
  }

  /** Leaving a page out keeps the others in order, for any order. */
  lemma {:induction false} WithoutKeepsOrder(run: seq<Step>, n: nat, cache: nat, pages: Pages, url: Url)
    requires FromEmpty(run) && n <= |run| && InOrderOfWriting(run, n, cache, pages)
    ensures InOrderOfWriting(run, n, cache, Without(pages, url))
    ensures forall u :: u in Without(pages, url) <==> u in pages && u != url
    decreases |pages|
  {
    if pages != [] {
      var rest := Without(pages[1..], url);
      forall i, j | 0 <= i < j < |pages[1..]| ensures Earlier(run, n, cache, pages[1..][i], pages[1..][j]) {
        assert Earlier(run, n, cache, pages[i + 1], pages[j + 1]);
      }
      WithoutKeepsOrder(run, n, cache, pages[1..], url);
      assert pages == [pages[0]] + pages[1..];
      if pages[0] != url {
        forall j | 0 <= j < |rest| ensures Earlier(run, n, cache, pages[0], rest[j]) {
          assert rest[j] in pages[1..];
          var k :| 0 <= k < |pages[1..]| && pages[1..][k] == rest[j];
          assert Earlier(run, n, cache, pages[0], pages[k + 1]);
        }
      }
    }
  }

  /** A step that writes or deletes no other page leaves the others' last writes as they were. */
  lemma OrderOneStepOn(run: seq<Step>, n: nat, cache: nat, pages: Pages)
    requires FromEmpty(run) && n < |run| && InOrderOfWriting(run, n, cache, pages)
    requires forall u :: u in pages ==> !WritesAt(run, n, cache, u) && !DeletesAt(run, n, cache, u)
    ensures InOrderOfWriting(run, n + 1, cache, pages)
  {
    forall i, j | 0 <= i < j < |pages| ensures Earlier(run, n + 1, cache, pages[i], pages[j]) {
      assert Earlier(run, n, cache, pages[i], pages[j]);
      assert pages[i] in pages && pages[j] in pages;
    }
  }

  lemma AppendedLast(run: seq<Step>, n: nat, cache: nat, pages: Pages, url: Url)
    requires FromEmpty(run) && n < |run| && InOrderOfWriting(run, n + 1, cache, pages) && WritesAt(run, n, cache, url)
    requires forall u :: u in pages ==> u != url && LastWrite(run, n + 1, cache, u).Some?
    ensures InOrderOfWriting(run, n + 1, cache, pages + [url])
  {
    forall i, j | 0 <= i < j < |pages + [url]|
      ensures Earlier(run, n + 1, cache, (pages + [url])[i], (pages + [url])[j])
    {
      var u := (pages + [url])[i];
      assert u in pages;
      if j == |pages| {
        assert !WritesAt(run, n, cache, u);
        LastWriteIsBefore(run, n, cache, u);
      }
    }
  }

  lemma WriteTells(run: seq<Step>, n: nat, cache: nat, url: Url)
    requires FromEmpty(run) && n < |run| && WritesAt(run, n, cache, url)
    requires Written(run, n, cache, PagesOf(At(run, n), cache))
    requires InOrderOfWriting(run, n, cache, PagesOf(At(run, n), cache))
    ensures Written(run, n + 1, cache, PagesOf(At(run, n + 1), cache))
    ensures InOrderOfWriting(run, n + 1, cache, PagesOf(At(run, n + 1), cache))
  {
    StepAt(run, n);
    var pages := PagesOf(At(run, n), cache);
    var rest := Without(pages, url);
    WithoutKeepsOrder(run, n, cache, pages, url);
    OrderOneStepOn(run, n, cache, rest);
    assert PagesOf(At(run, n + 1), cache) == rest + [url];
    forall u | u in rest ensures LastWrite(run, n + 1, cache, u).Some? {
      assert u in pages;
    }
    AppendedLast(run, n, cache, rest, url);
    forall u ensures u in rest + [url] <==> LastWrite(run, n + 1, cache, u).Some? {
    }
  }

  lemma DeleteTells(run: seq<Step>, n: nat, cache: nat, url: Url)
    requires FromEmpty(run) && n < |run| && DeletesAt(run, n, cache, url)
    requires Written(run, n, cache, PagesOf(At(run, n), cache))
    requires InOrderOfWriting(run, n, cache, PagesOf(At(run, n), cache))
    ensures Written(run, n + 1, cache, PagesOf(At(run, n + 1), cache))
    ensures InOrderOfWriting(run, n + 1, cache, PagesOf(At(run, n + 1), cache))
  {
    StepAt(run, n);
    var pages := PagesOf(At(run, n), cache);
    var rest := Without(pages, url);
    WithoutKeepsOrder(run, n, cache, pages, url);
    OrderOneStepOn(run, n, cache, rest);
    assert PagesOf(At(run, n + 1), cache) == rest;
  }

  lemma OtherTells(run: seq<Step>, n: nat, cache: nat)
    requires FromEmpty(run) && n < |run|
    requires forall url :: !WritesAt(run, n, cache, url) && !DeletesAt(run, n, cache, url)
    requires Written(run, n, cache, PagesOf(At(run, n), cache))
    requires InOrderOfWriting(run, n, cache, PagesOf(At(run, n), cache))
    ensures Written(run, n + 1, cache, PagesOf(At(run, n + 1), cache))
    ensures InOrderOfWriting(run, n + 1, cache, PagesOf(At(run, n + 1), cache))
  {
    StepAt(run, n);
    var s, pages := At(run, n), PagesOf(At(run, n), cache);
    if run[n].Write? || run[n].Delete? {
      var save := s.saves[run[n].id];
      assert if run[n].Write? then save.cache == cache ==> WritesAt(run, n, cache, save.url)
             else save.cache == cache ==> DeletesAt(run, n, cache, run[n].url);
    }
    assert PagesOf(At(run, n + 1), cache) == pages;
    OrderOneStepOn(run, n, cache, pages);
  }

  /**
   In every state of every run a cache lists exactly the pages written into it and not deleted since, in the order
   of their last writes.
   */
  lemma {:induction false} CacheListsWhatWasWritten(run: seq<Step>, n: nat, cache: nat)
    requires FromEmpty(run) && n <= |run|
    ensures Written(run, n, cache, PagesOf(At(run, n), cache))
    ensures InOrderOfWriting(run, n, cache, PagesOf(At(run, n), cache))
    decreases n
  {
    if n > 0 {
      CacheListsWhatWasWritten(run, n - 1, cache);
      StepAt(run, n - 1);
      var s, step := At(run, n - 1), run[n - 1];
      if step.Write? && s.saves[step.id].cache == cache {
        WriteTells(run, n - 1, cache, s.saves[step.id].url);
      } else if step.Delete? && s.saves[step.id].cache == cache {
        DeleteTells(run, n - 1, cache, step.url);
      } else {
        OtherTells(run, n - 1, cache);
      }
    }
  }

  // ---- What a trim takes ----

  /** The pages in the cache that were written later. */
  ghost function LaterPages(run: seq<Step>, n: nat, cache: nat, url: Url): set<Url>
    requires FromEmpty(run) && n <= |run|
  {
    set u | u in PagesOf(At(run, n), cache) && Earlier(run, n, cache, url, u)
  }

  lemma LaterPagesCount(run: seq<Step>, n: nat, cache: nat, i: nat)
    requires FromEmpty(run) && n <= |run| && i < |PagesOf(At(run, n), cache)|
    ensures var pages := PagesOf(At(run, n), cache);
            |LaterPages(run, n, cache, pages[i])| == |pages| - 1 - i
  {
    var pages := PagesOf(At(run, n), cache);
    CacheListsWhatWasWritten(run, n, cache);
    InvAt(run, n);
    assert Distinct(pages);
    var rest := pages[i + 1..];
    forall u ensures u in LaterPages(run, n, cache, pages[i]) <==> u in Keys(rest) {
      if u in LaterPages(run, n, cache, pages[i]) {
        var j :| 0 <= j < |pages| && pages[j] == u;
        assert j < i ==> Earlier(run, n, cache, pages[j], pages[i]);
        assert u == rest[j - i - 1];
      }
      if u in Keys(rest) {
        var k :| 0 <= k < |rest| && rest[k] == u;
        assert Earlier(run, n, cache, pages[i], pages[i + 1 + k]);
      }
    }
    assert LaterPages(run, n, cache, pages[i]) == Keys(rest);
    KeysCount(rest);
  }

  /**
   When a save reads the keys it sets out to delete exactly the pages that forty or more others were written
   after.
   */
  lemma TrimTakesTheOldest(run: seq<Step>, n: nat, url: Url)
    requires FromEmpty(run) && n < |run| && run[n].ReadKeys?
    ensures var id := run[n].id;
            && id in At(run, n).saves && id in At(run, n + 1).saves && At(run, n + 1).saves[id].phase.Trimming?
            && var cache := At(run, n).saves[id].cache;
            url in At(run, n + 1).saves[id].phase.todo
            <==> url in PagesOf(At(run, n), cache) && |LaterPages(run, n, cache, url)| >= 40
  {
    StepAt(run, n);
    var cache := At(run, n).saves[run[n].id].cache;
    var pages := PagesOf(At(run, n), cache);
    InvAt(run, n);
    assert Distinct(pages);
    if url in pages {
      var i :| 0 <= i < |pages| && pages[i] == url;
      LaterPagesCount(run, n, cache, i);
      assert url in Extra(pages) <==> i < |pages| - 40 by {
        if i < |pages| - 40 {
          assert pages[..|pages| - 40][i] == url;
        }
      }
    }
  }

  /** Whatever a save deletes, it had read, and was the page that forty or more others had been written after then. */
  lemma OnlyTheOldestAreDeleted(run: seq<Step>, n: nat, k: nat)
    requires FromEmpty(run) && n < |run| && run[n].ReadKeys? && n < k < |run|
    requires run[k].Delete? && run[k].id == run[n].id
    requires forall i :: n < i < k ==> run[i] != Finish(run[n].id)
    ensures run[n].id in At(run, n).saves
    ensures var cache := At(run, n).saves[run[n].id].cache;
            DeletesAt(run, k, cache, run[k].url) && |LaterPages(run, n, cache, run[k].url)| >= 40
  {
    TrimTakesTheOldest(run, n, run[k].url);
    StepAt(run, n);
    TodoShrinks(run, n, k);
    StepAt(run, k);
  }

  lemma {:induction false} TodoShrinks(run: seq<Step>, n: nat, k: nat)
    requires FromEmpty(run) && n < k <= |run| && run[n].ReadKeys?
    requires forall i :: n < i < k ==> run[i] != Finish(run[n].id)
    ensures var id := run[n].id;
            && id in At(run, n).saves && id in At(run, n + 1).saves && id in At(run, k).saves
            && At(run, n + 1).saves[id].phase.Trimming? && At(run, k).saves[id].phase.Trimming?
            && At(run, k).saves[id].phase.todo <= At(run, n + 1).saves[id].phase.todo
            && At(run, k).saves[id].cache == At(run, n).saves[id].cache
    decreases k
  {
    StepAt(run, n);
    if k > n + 1 {
      TodoShrinks(run, n, k - 1);
      StepAt(run, k - 1);
    }
  }
}
