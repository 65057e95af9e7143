/** The run over the blog's archive pages: at most MAX_PAGES listing
    pages, each page's new records added to the list, and the two ways the
    loop stops early.

    The loop's control does not depend on how a page is turned into
    records, only on how many records it added. `RunWith` is therefore the
    specification of the scraper's outer loop with the page step left as a
    parameter, and its stop rules are proved for every step that only
    appends; `Scrape` instantiates it with the extraction step `AddPage`. */
module Pagination {
  import opened SiteVariant
  import opened Extraction

  /** Upper bound on the number of listing pages read in one run. */
  const MAX_PAGES: nat := 10

  /** What one selector profile finds on a page: the date groups, and
      whether the "older posts" control is present. */
  datatype Layout = Layout(groups: seq<Group>, hasOlder: bool)

  /** A listing page as the browser shows it: whether the post container
      appears at all (the scraper waits for it), and what the desktop and
      the mobile selector profiles find in it. */
  datatype Page = Page(containerShown: bool, desktop: Layout, mobile: Layout)

  /** The variant chosen at the start picks the profile for every page. */
  function Seen(p: Page, v: Variant): Layout
  {
    match v
    case Desktop => p.desktop
    case Mobile => p.mobile
  }

  /** Why a completed run stopped. */
  datatype Stop =
    | NoNewRecords      // a page after the first added nothing
    | NoOlderControl    // the "older posts" control was not found
    | PageCap           // MAX_PAGES pages were read

  /** A completed run gives the records and, for each page read, how many
      records it added; a run whose post container does not appear on page
      `page` ends with a fatal error and no records. */
  datatype Outcome =
    | Finished(records: seq<Record>, counts: seq<int>, stop: Stop)
    | Aborted(page: nat)

  /** How reading one page's date groups changes the list of records. */
  type PageStep = (seq<Record>, seq<Group>) -> seq<Record>

  /** The step keeps every record already collected, in place. */
  ghost predicate OnlyAppends(step: PageStep)
  {
    forall d, g :: d <= step(d, g)
  }

  /** The scraper's page step: offer the page's candidates to the list. */
  function AddPage(data: seq<Record>, groups: seq<Group>): seq<Record>
  {
    DedupInto(data, Candidates(groups))
  }

  lemma AddPageOnlyAppends()
    ensures OnlyAppends(AddPage)
  {
    forall d, g ensures d <= AddPage(d, g) {
      DedupGrows(d, Candidates(g));
    }
  }

  /** The outer loop from page `i` on, with `data` collected so far and
      `counts` the counts of the pages already read. `pages[i]` is the page
      the browser shows after `i` clicks on the older-posts control. */
  function RunWith(step: PageStep, v: Variant, pages: seq<Page>, i: nat, data: seq<Record>, counts: seq<int>): Outcome
    requires |pages| == MAX_PAGES && i < MAX_PAGES
    decreases MAX_PAGES - i
  {
    if !pages[i].containerShown then Aborted(i)
    else
      var layout := Seen(pages[i], v);
      var data' := step(data, layout.groups);
      var ys := counts + [|data'| - |data|];
      if |data'| == |data| && i > 0 then Finished(data', ys, NoNewRecords)
      else if i == MAX_PAGES - 1 then Finished(data', ys, PageCap)
      else if !layout.hasOlder then Finished(data', ys, NoOlderControl)
      else RunWith(step, v, pages, i + 1, data', ys)
  }

  /** One page of the loop, with the step's result named: the run from
      page `i` is decided by that page's count, position and older-posts
      control, or goes on from page `i + 1`. */
  lemma RunWithPage(step: PageStep, v: Variant, pages: seq<Page>, i: nat, data: seq<Record>, counts: seq<int>, data': seq<Record>)
    requires |pages| == MAX_PAGES && i < MAX_PAGES && pages[i].containerShown
    requires data' == step(data, Seen(pages[i], v).groups)
    ensures var ys := counts + [|data'| - |data|];
      RunWith(step, v, pages, i, data, counts) ==
        if |data'| == |data| && i > 0 then Finished(data', ys, NoNewRecords)
        else if i == MAX_PAGES - 1 then Finished(data', ys, PageCap)
        else if !Seen(pages[i], v).hasOlder then Finished(data', ys, NoOlderControl)
        else RunWith(step, v, pages, i + 1, data', ys)
  {
  }

  /** A whole run: the variant is detected once from the landing URL and the
      list starts empty. */
  function Scrape(landingUrl: string, pages: seq<Page>): Outcome
    requires |pages| == MAX_PAGES
  {
    RunWith(AddPage, Detect(landingUrl), pages, 0, [], [])
  }

  function Sum(ys: seq<int>): int
  {
    if ys == [] then 0 else Sum(ys[..|ys| - 1]) + ys[|ys| - 1]
  }

  /** The list after the first `n` pages, had none of them stopped the run. */
  function Through(step: PageStep, v: Variant, pages: seq<Page>, n: nat): seq<Record>
    requires n <= |pages|
  {
    if n == 0 then [] else step(Through(step, v, pages, n - 1), Seen(pages[n - 1], v).groups)
  }

  /** Everything the first `n` pages offer, in the order the loops visit it. */
  function RunCandidates(v: Variant, pages: seq<Page>, n: nat): seq<Record>
    requires n <= |pages|
  {
    if n == 0 then [] else RunCandidates(v, pages, n - 1) + Candidates(Seen(pages[n - 1], v).groups)
  }

  /** Some group of one of the first `n` pages has an entry titled `t`. */
  predicate TitleShown(v: Variant, pages: seq<Page>, n: nat, t: string)
    requires n <= |pages|
  {
    exists p, k :: 0 <= p < n && 0 <= k < |Seen(pages[p], v).groups|
                   && Some(t) in Seen(pages[p], v).groups[k].entries
  }

  /** A run from page `i` reads at least page `i` and at most up to the cap,
      and keeps the counts of the pages already read. */
  lemma {:induction false} RunLength(step: PageStep, v: Variant, pages: seq<Page>, i: nat, data: seq<Record>, counts: seq<int>)
    requires |pages| == MAX_PAGES && i < MAX_PAGES && |counts| == i
    ensures var out := RunWith(step, v, pages, i, data, counts);
      out.Finished? ==> i < |out.counts| <= MAX_PAGES && out.counts[..i] == counts
    decreases MAX_PAGES - i
  {
    if pages[i].containerShown {
      var layout := Seen(pages[i], v);
      var data' := step(data, layout.groups);
      var ys := counts + [|data'| - |data|];
      assert ys[..i] == counts;
      RunWithPage(step, v, pages, i, data, counts, data');
      var stops := (|data'| == |data| && i > 0) || i == MAX_PAGES - 1 || !layout.hasOlder;
      if !stops {
        RunLength(step, v, pages, i + 1, data', ys);
        var out := RunWith(step, v, pages, i + 1, data', ys);
        assert RunWith(step, v, pages, i, data, counts) == out;
        if out.Finished? {
          assert out.counts[..i] == out.counts[..i + 1][..i];
        }
      }
    }
  }


  /** With a step that only appends, the records only grow at their end, and
      the counts add up to the number of records added. */
  lemma {:induction false} RunGrowth(step: PageStep, v: Variant, pages: seq<Page>, i: nat, data: seq<Record>, counts: seq<int>)
    requires OnlyAppends(step)
    requires |pages| == MAX_PAGES && i < MAX_PAGES
    ensures var out := RunWith(step, v, pages, i, data, counts);
      out.Finished? ==> data <= out.records && Sum(out.counts) - Sum(counts) == |out.records| - |data|
    decreases MAX_PAGES - i
  {
    if pages[i].containerShown {
      var layout := Seen(pages[i], v);
      var data' := step(data, layout.groups);
      var ys := counts + [|data'| - |data|];
      RunWithPage(step, v, pages, i, data, counts, data');
      assert ys[..|ys| - 1] == counts;
      assert data <= data';
      var stops := (|data'| == |data| && i > 0) || i == MAX_PAGES - 1 || !layout.hasOlder;
      if !stops {
        RunGrowth(step, v, pages, i + 1, data', ys);
      }
    }
  }

  /** Every page read before the last one showed its post container and the
      older-posts control, and added at least one record unless it was the
      first page; no count is negative. */
  lemma {:induction false} RunContinues(step: PageStep, v: Variant, pages: seq<Page>, i: nat, data: seq<Record>, counts: seq<int>)
    requires OnlyAppends(step)
    requires |pages| == MAX_PAGES && i < MAX_PAGES && |counts| == i
    requires forall k :: 0 <= k < i ==> counts[k] >= 0
    requires forall k :: 0 < k < i ==> counts[k] > 0
    ensures var out := RunWith(step, v, pages, i, data, counts);
      out.Finished? ==>
        && |out.counts| <= MAX_PAGES
        && (forall k :: 0 <= k < |out.counts| ==> out.counts[k] >= 0)
        && (forall k :: 0 < k < |out.counts| - 1 ==> out.counts[k] > 0)
        && (forall k :: i <= k < |out.counts| ==> pages[k].containerShown)
        && (forall k :: i <= k < |out.counts| - 1 ==> Seen(pages[k], v).hasOlder)
    decreases MAX_PAGES - i
  {
    RunLength(step, v, pages, i, data, counts);
    if pages[i].containerShown {
      var layout := Seen(pages[i], v);
      var data' := step(data, layout.groups);
      var ys := counts + [|data'| - |data|];
      RunWithPage(step, v, pages, i, data, counts, data');
      assert data <= data';
      var stops := (|data'| == |data| && i > 0) || i == MAX_PAGES - 1 || !layout.hasOlder;
      if !stops {
        RunContinues(step, v, pages, i + 1, data', ys);
        RunLength(step, v, pages, i + 1, data', ys);
        var out := RunWith(step, v, pages, i + 1, data', ys);
        if out.Finished? {
          assert out.counts[i] == ys[i];
        }
      }
    }
  }

  /** Which rule ended a completed run: a zero count on a page after the
      first, the cap, or a missing older-posts control before the cap. */
  lemma {:induction false} RunStop(step: PageStep, v: Variant, pages: seq<Page>, i: nat, data: seq<Record>, counts: seq<int>)
    requires OnlyAppends(step)
    requires |pages| == MAX_PAGES && i < MAX_PAGES && |counts| == i
    requires forall k :: 0 < k < i ==> counts[k] != 0
    ensures var out := RunWith(step, v, pages, i, data, counts);
      out.Finished? ==>
        && 0 < |out.counts| <= MAX_PAGES
        && (out.stop == NoNewRecords <==> |out.counts| > 1 && out.counts[|out.counts| - 1] == 0)
        && (out.stop == PageCap ==> |out.counts| == MAX_PAGES)
        && (out.stop == NoOlderControl ==>
              |out.counts| < MAX_PAGES && !Seen(pages[|out.counts| - 1], v).hasOlder)
    decreases MAX_PAGES - i
  {
    RunLength(step, v, pages, i, data, counts);
    if pages[i].containerShown {
      var layout := Seen(pages[i], v);
      var data' := step(data, layout.groups);
      var ys := counts + [|data'| - |data|];
      RunWithPage(step, v, pages, i, data, counts, data');
      var stops := (|data'| == |data| && i > 0) || i == MAX_PAGES - 1 || !layout.hasOlder;
      if !stops {
        assert forall k :: 0 < k < i + 1 ==> ys[k] != 0 by {
          forall k | 0 < k < i + 1 ensures ys[k] != 0 {
            if k < i { assert ys[k] == counts[k]; }
          }
        }
        RunStop(step, v, pages, i + 1, data', ys);
        assert RunWith(step, v, pages, i, data, counts) == RunWith(step, v, pages, i + 1, data', ys);
      } else {
        assert ys[|ys| - 1] == |data'| - |data|;
      }
    }
  }

  /** A run that aborts does so on a page whose post container did not
      appear, every page before it having been read and continued from. */
  lemma {:induction false} RunAborts(step: PageStep, v: Variant, pages: seq<Page>, i: nat, data: seq<Record>, counts: seq<int>)
    requires |pages| == MAX_PAGES && i < MAX_PAGES
    requires data == Through(step, v, pages, i)
    ensures var out := RunWith(step, v, pages, i, data, counts);
      out.Aborted? ==>
        && i <= out.page < MAX_PAGES
        && !pages[out.page].containerShown
        && (forall k :: i <= k < out.page ==> pages[k].containerShown && Seen(pages[k], v).hasOlder)
        && (forall k :: i <= k < out.page && k > 0 ==>
              |Through(step, v, pages, k + 1)| != |Through(step, v, pages, k)|)
    decreases MAX_PAGES - i
  {
    if pages[i].containerShown {
      var layout := Seen(pages[i], v);
      var data' := step(data, layout.groups);
      var ys := counts + [|data'| - |data|];
      RunWithPage(step, v, pages, i, data, counts, data');
      var stops := (|data'| == |data| && i > 0) || i == MAX_PAGES - 1 || !layout.hasOlder;
      if !stops {
        assert data' == Through(step, v, pages, i + 1);
        RunAborts(step, v, pages, i + 1, data', ys);
      }
    }
  }


  /** Each of `counts` is the growth of the list on its page. */
  ghost predicate PageGrowths(step: PageStep, v: Variant, pages: seq<Page>, counts: seq<int>)
    requires |counts| <= |pages|
  {
    forall k :: 0 <= k < |counts| ==>
      counts[k] == |Through(step, v, pages, k + 1)| - |Through(step, v, pages, k)|
  }

  /** Recording one more page's growth keeps every count a page's growth. */
  lemma PageGrowthsSnoc(step: PageStep, v: Variant, pages: seq<Page>, counts: seq<int>, c: int)
    requires |counts| < |pages| && PageGrowths(step, v, pages, counts)
    requires c == |Through(step, v, pages, |counts| + 1)| - |Through(step, v, pages, |counts|)|
    ensures PageGrowths(step, v, pages, counts + [c])
  {
    var ys := counts + [c];
    forall k | 0 <= k < |ys|
      ensures ys[k] == |Through(step, v, pages, k + 1)| - |Through(step, v, pages, k)|
    {
      if k < |counts| { assert ys[k] == counts[k]; }
    }
  }

  /** Each count of a completed run is the growth of the list on its page. */
  lemma {:induction false} RunCounts(step: PageStep, v: Variant, pages: seq<Page>, i: nat, data: seq<Record>, counts: seq<int>)
    requires |pages| == MAX_PAGES && i < MAX_PAGES && |counts| == i
    requires data == Through(step, v, pages, i)
    requires PageGrowths(step, v, pages, counts)
    ensures var out := RunWith(step, v, pages, i, data, counts);
      out.Finished? ==> |out.counts| <= MAX_PAGES && PageGrowths(step, v, pages, out.counts)
    decreases MAX_PAGES - i
  {
    RunLength(step, v, pages, i, data, counts);
    if pages[i].containerShown {
      var layout := Seen(pages[i], v);
      var data' := step(data, layout.groups);
      var ys := counts + [|data'| - |data|];
      RunWithPage(step, v, pages, i, data, counts, data');
      assert data' == Through(step, v, pages, i + 1);
      PageGrowthsSnoc(step, v, pages, counts, |data'| - |data|);
      var stops := (|data'| == |data| && i > 0) || i == MAX_PAGES - 1 || !layout.hasOlder;
      if !stops {
        RunCounts(step, v, pages, i + 1, data', ys);
      }
    }
  }

  /** The records of a completed run are the list after its pages, each
      processed once, in order. */
  lemma {:induction false} RunRecords(step: PageStep, v: Variant, pages: seq<Page>, i: nat, data: seq<Record>, counts: seq<int>)
    requires |pages| == MAX_PAGES && i < MAX_PAGES && |counts| == i
    requires data == Through(step, v, pages, i)
    ensures var out := RunWith(step, v, pages, i, data, counts);
      out.Finished? ==> |out.counts| <= MAX_PAGES && out.records == Through(step, v, pages, |out.counts|)
    decreases MAX_PAGES - i
  {
    RunLength(step, v, pages, i, data, counts);
    if pages[i].containerShown {
      var layout := Seen(pages[i], v);
      var data' := step(data, layout.groups);
      var ys := counts + [|data'| - |data|];
      RunWithPage(step, v, pages, i, data, counts, data');
      var stops := (|data'| == |data| && i > 0) || i == MAX_PAGES - 1 || !layout.hasOlder;
      if !stops {
        RunRecords(step, v, pages, i + 1, data', ys);
      }
    }
  }

  /** With the scraper's step, the list after `n` pages is what offering
      everything they offer, page after page, to an empty list gives. */
  lemma {:induction false} ThroughAddPage(v: Variant, pages: seq<Page>, n: nat)
    requires n <= |pages|
    ensures Through(AddPage, v, pages, n) == DedupInto([], RunCandidates(v, pages, n))
  {
    if n > 0 {
      ThroughAddPage(v, pages, n - 1);
      DedupAppend([], RunCandidates(v, pages, n - 1), Candidates(Seen(pages[n - 1], v).groups));
    }
  }

  /** No completed run holds two records with the same title, and its
      records are the first occurrences, by title, of everything the pages
      read offer: in first-seen order across pages, each with the date where
      its title first appeared. */
  lemma ScrapeFirstSeen(landingUrl: string, pages: seq<Page>)
    requires |pages| == MAX_PAGES
    ensures var out := Scrape(landingUrl, pages);
      out.Finished? ==>
        && |out.counts| <= MAX_PAGES
        && UniqueTitles(out.records)
        && out.records == FirstOccurrences([], RunCandidates(Detect(landingUrl), pages, |out.counts|))
  {
    var v := Detect(landingUrl);
    RunRecords(AddPage, v, pages, 0, [], []);
    var out := Scrape(landingUrl, pages);
    if out.Finished? {
      var cs := RunCandidates(v, pages, |out.counts|);
      ThroughAddPage(v, pages, |out.counts|);
      DedupKeepsUnique([], cs);
      DedupIsFirstOccurrences([], cs);
    }
  }

  /** A completed run holds a record titled `t` exactly when `t` is
      non-empty and is the title of an entry on one of the pages read. */
  lemma ScrapeTitles(landingUrl: string, pages: seq<Page>, t: string)
    requires |pages| == MAX_PAGES
    ensures var out := Scrape(landingUrl, pages);
      out.Finished? ==>
        && |out.counts| <= MAX_PAGES
        && (HasTitle(out.records, t) <==> t != "" && TitleShown(Detect(landingUrl), pages, |out.counts|, t))
  {
    var v := Detect(landingUrl);
    RunRecords(AddPage, v, pages, 0, [], []);
    var out := Scrape(landingUrl, pages);
    if out.Finished? {
      var n := |out.counts|;
      ThroughAddPage(v, pages, n);
      DedupTitles([], RunCandidates(v, pages, n), t);
      RunCandidatesTitles(v, pages, n, t);
    }
  }

  /** The titles offered by the first `n` pages are the non-empty entry titles on them. */
  lemma {:induction false} RunCandidatesTitles(v: Variant, pages: seq<Page>, n: nat, t: string)
    requires n <= |pages|
    ensures HasTitle(RunCandidates(v, pages, n), t) <==> t != "" && TitleShown(v, pages, n, t)
  {
    if n > 0 {
      RunCandidatesTitles(v, pages, n - 1, t);
      var groups := Seen(pages[n - 1], v).groups;
      HasTitleAppend(RunCandidates(v, pages, n - 1), Candidates(groups), t);
      CandidatesTitles(groups, t);
      TitleShownStep(v, pages, n, t);
    }
  }

  /** One more page shows a title when it was shown before or this page shows it. */
  lemma TitleShownStep(v: Variant, pages: seq<Page>, n: nat, t: string)
    requires 0 < n <= |pages|
    ensures TitleShown(v, pages, n, t) <==>
              TitleShown(v, pages, n - 1, t) || GroupsShow(Seen(pages[n - 1], v).groups, t)
  {
    if TitleShown(v, pages, n, t) {
      var p, k :| 0 <= p < n && 0 <= k < |Seen(pages[p], v).groups|
                  && Some(t) in Seen(pages[p], v).groups[k].entries;
      if p == n - 1 {
        assert GroupsShow(Seen(pages[n - 1], v).groups, t);
      }
    }
    if GroupsShow(Seen(pages[n - 1], v).groups, t) {
      var k :| 0 <= k < |Seen(pages[n - 1], v).groups| && Some(t) in Seen(pages[n - 1], v).groups[k].entries;
      assert TitleShown(v, pages, n, t);
    }
  }

  /** The stop rules of a whole run, from its first page: at most MAX_PAGES
      pages; the counts add up to the number of records (each count is the
      growth of its page, by `ScrapeCounts`); a zero count ends the run only
      after the first page, and only on its last page; the older-posts control is looked for only before the cap, and
      its absence ends the run normally with what was collected. How a run
      aborts is stated by `ScrapeAborts`. */
  lemma ScrapeStops(landingUrl: string, pages: seq<Page>)
    requires |pages| == MAX_PAGES
    ensures var v := Detect(landingUrl); var out := Scrape(landingUrl, pages);
      out.Finished? ==>
        && 1 <= |out.counts| <= MAX_PAGES
        && Sum(out.counts) == |out.records|
        && (forall k :: 0 <= k < |out.counts| ==> out.counts[k] >= 0)
        && (forall k :: 0 < k < |out.counts| - 1 ==> out.counts[k] > 0)
        && (forall k :: 0 <= k < |out.counts| - 1 ==> Seen(pages[k], v).hasOlder)
        && (out.stop == NoNewRecords <==> |out.counts| > 1 && out.counts[|out.counts| - 1] == 0)
        && (out.stop == PageCap ==> |out.counts| == MAX_PAGES)
        && (out.stop == NoOlderControl ==>
              |out.counts| < MAX_PAGES && !Seen(pages[|out.counts| - 1], v).hasOlder)
  {
    AddPageOnlyAppends();
    RunStops(AddPage, Detect(landingUrl), pages, 0, [], []);
  }

  /** The stop rules of a run from its first page, for any step that only
      appends. The start is passed as parameters pinned by the requires,
      rather than written as literals, because literal arguments make the
      verifier unfold `RunWith` far more than the proof needs. */
  lemma RunStops(step: PageStep, v: Variant, pages: seq<Page>, i: nat, data: seq<Record>, counts: seq<int>)
    requires OnlyAppends(step)
    requires |pages| == MAX_PAGES && i == 0 && counts == [] && data == []
    ensures var out := RunWith(step, v, pages, i, data, counts);
      out.Finished? ==>
        && 1 <= |out.counts| <= MAX_PAGES
        && Sum(out.counts) == |out.records|
        && (forall k :: 0 <= k < |out.counts| ==> out.counts[k] >= 0)
        && (forall k :: 0 < k < |out.counts| - 1 ==> out.counts[k] > 0)
        && (forall k :: 0 <= k < |out.counts| - 1 ==> Seen(pages[k], v).hasOlder)
        && (out.stop == NoNewRecords <==> |out.counts| > 1 && out.counts[|out.counts| - 1] == 0)
        && (out.stop == PageCap ==> |out.counts| == MAX_PAGES)
        && (out.stop == NoOlderControl ==>
              |out.counts| < MAX_PAGES && !Seen(pages[|out.counts| - 1], v).hasOlder)
  {
    RunGrowth(step, v, pages, i, data, counts);
    RunContinues(step, v, pages, i, data, counts);
    RunStop(step, v, pages, i, data, counts);
  }


  /** A whole run aborts only on a page whose post container did not
      appear, every earlier page having shown its container and the
      older-posts control, and every earlier page but the first having
      added a record to the list. */
  lemma ScrapeAborts(landingUrl: string, pages: seq<Page>)
    requires |pages| == MAX_PAGES
    ensures var v := Detect(landingUrl); var out := Scrape(landingUrl, pages);
      out.Aborted? ==>
        && out.page < MAX_PAGES
        && !pages[out.page].containerShown
        && (forall k :: 0 <= k < out.page ==> pages[k].containerShown && Seen(pages[k], v).hasOlder)
        && (forall k :: 0 < k < out.page ==>
              |Through(AddPage, v, pages, k + 1)| != |Through(AddPage, v, pages, k)|)
  {
    RunAborts(AddPage, Detect(landingUrl), pages, 0, [], []);
  }

  /** Each count of a completed scrape is the number of records its page
      appended to the list. */
  lemma ScrapeCounts(landingUrl: string, pages: seq<Page>)
    requires |pages| == MAX_PAGES
    ensures var v := Detect(landingUrl); var out := Scrape(landingUrl, pages);
      out.Finished? ==> |out.counts| <= MAX_PAGES && PageGrowths(AddPage, v, pages, out.counts)
  {
    RunCounts(AddPage, Detect(landingUrl), pages, 0, [], []);
  }

  /** A first page that adds nothing does not end the run: when it shows
      its container and the older-posts control, the second page is read. */
  lemma FirstPageMayBeEmpty(landingUrl: string, pages: seq<Page>)
    requires |pages| == MAX_PAGES
    requires pages[0].containerShown && Seen(pages[0], Detect(landingUrl)).hasOlder
    ensures var out := Scrape(landingUrl, pages);
      out.Finished? ==> |out.counts| >= 2
  {
    NextPageRead(AddPage, Detect(landingUrl), pages, 0, [], []);
  }

  /** A page that shows its container and the older-posts control, and is
      the first page or adds a record, is followed by the next one. */
  lemma NextPageRead(step: PageStep, v: Variant, pages: seq<Page>, i: nat, data: seq<Record>, counts: seq<int>)
    requires |pages| == MAX_PAGES && i < MAX_PAGES - 1 && |counts| == i
    requires pages[i].containerShown && Seen(pages[i], v).hasOlder
    requires i == 0 || |step(data, Seen(pages[i], v).groups)| != |data|
    ensures var out := RunWith(step, v, pages, i, data, counts);
      out.Finished? ==> |out.counts| >= i + 2
  {
    var data' := step(data, Seen(pages[i], v).groups);
    RunLength(step, v, pages, i + 1, data', counts + [|data'| - |data|]);
  }
}
