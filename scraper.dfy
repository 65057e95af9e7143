/** The scraper itself: the list of posts it fills in place, the nested
    loops that read one listing page into it, and the outer loop over the
    archive pages.

    Each method is proved against the specification functions of the other
    modules: `ScrapePage` against `AddPage` (the candidates of the page
    offered to the list), `Run` against `RunWith` (the stop rules), so the
    lemmas proved there (no duplicate titles, first-seen order, the stop
    conditions) hold for what the methods compute. */
module Scraping {
  import opened SiteVariant
  import opened Extraction
  import opened Pagination

  /** Cutting one more entry off a group's prefix adds at most that entry's record. */
  lemma EntryCandidatesPrefix(date: string, entries: seq<Option<string>>, k: nat)
    requires k < |entries|
    ensures EntryCandidates(date, entries[..k + 1]) ==
            EntryCandidates(date, entries[..k]) +
            (if entries[k].Some? && entries[k].value != "" then [Record(date, entries[k].value)] else [])
  {
    assert entries[..k + 1][..k] == entries[..k];
  }

  /** One more group adds that group's records after those of the earlier groups. */
  lemma CandidatesPrefix(groups: seq<Group>, k: nat)
    requires k < |groups|
    ensures Candidates(groups[..k + 1]) ==
            Candidates(groups[..k]) + EntryCandidates(DateOf(groups[k]), groups[k].entries)
  {
    assert groups[..k + 1][..k] == groups[..k];
  }

  /** Offering one more candidate appends it exactly when its title is new. */
  lemma DedupSnoc(data: seq<Record>, cs: seq<Record>, c: Record)
    ensures DedupInto(data, cs + [c]) ==
            if HasTitle(DedupInto(data, cs), c.title) then DedupInto(data, cs) else DedupInto(data, cs) + [c]
  {
    assert (cs + [c])[..|cs|] == cs;
  }

  class Scraper {
    /** The layout detected on the landing page, fixed for the whole run. */
    const variant: Variant
    /** The records collected so far, in the order they were found. */
    var newsData: seq<Record>

    /** Starts a run on the page the browser landed on. */
    constructor (landingUrl: string)
      ensures variant == Detect(landingUrl)
    {
      variant := Detect(landingUrl);
    }

    /** The duplicate check: whether some record already collected has this title. */
    method ContainsTitle(title: string) returns (found: bool)
      ensures found <==> HasTitle(newsData, title)
    {
      var k := 0;
      while k < |newsData|
        invariant 0 <= k <= |newsData|
        invariant forall j :: 0 <= j < k ==> newsData[j].title != title
      {
        if newsData[k].title == title {
          return true;
        }
        k := k + 1;
      }
      return false;
    }

    /** Reads the post entries of one date group into the list: an entry
        with a non-empty title that is not yet in the list is appended with
        the group's date; returns how many were appended. */
    method ScrapeGroup(date: string, entries: seq<Option<string>>) returns (added: int)
      modifies this
      ensures newsData == DedupInto(old(newsData), EntryCandidates(date, entries))
      ensures added == |newsData| - |old(newsData)|
    {
      ghost var start := newsData;
      added := 0;
      var ai := 0;
      assert EntryCandidates(date, entries[..0]) == [];
      while ai < |entries|
        invariant 0 <= ai <= |entries|
        invariant newsData == DedupInto(start, EntryCandidates(date, entries[..ai]))
        invariant added == |newsData| - |start|
      {
        ghost var offered := EntryCandidates(date, entries[..ai]);
        EntryCandidatesPrefix(date, entries, ai);
        var entry := entries[ai];
        if entry.Some? {
          var title := entry.value;
          if title != "" {
            var duplicate := ContainsTitle(title);
            DedupSnoc(start, offered, Record(date, title));
            if !duplicate {
              newsData := newsData + [Record(date, title)];
              added := added + 1;
            }
          } else {
            assert offered + [] == offered;
          }
        } else {
          assert offered + [] == offered;
        }
        ai := ai + 1;
      }
      assert entries[..|entries|] == entries;
    }

    /** Reads the date groups of one page into the list: every entry with a
        non-empty title whose title is not yet in the list is appended with
        its group's date, and the number of records appended is returned. */
    method ScrapePage(groups: seq<Group>) returns (pageArticlesFound: int)
      modifies this
      ensures newsData == AddPage(old(newsData), groups)
      ensures old(newsData) <= newsData
      ensures pageArticlesFound == |newsData| - |old(newsData)|
      ensures pageArticlesFound == |FirstOccurrences(old(newsData), Candidates(groups))|
    {
      ghost var start := newsData;
      pageArticlesFound := 0;
      var gi := 0;
      assert Candidates(groups[..0]) == [];
      while gi < |groups|
        invariant 0 <= gi <= |groups|
        invariant newsData == DedupInto(start, Candidates(groups[..gi]))
        invariant pageArticlesFound == |newsData| - |start|
      {
        var group := groups[gi];
        var date := DateOf(group);
        ghost var before := Candidates(groups[..gi]);
        ghost var data := newsData;
        var added := ScrapeGroup(date, group.entries);
        DedupAppend(start, before, EntryCandidates(date, group.entries));
        CandidatesPrefix(groups, gi);
        pageArticlesFound := pageArticlesFound + added;
        gi := gi + 1;
      }
      assert groups[..|groups|] == groups;
      DedupGrows(start, Candidates(groups));
    }

    /** The outer loop over at most MAX_PAGES listing pages, starting from an
        empty list; `pages[i]` is the page shown after `i` clicks on the
        older-posts control. */
    method Run(pages: seq<Page>) returns (outcome: Outcome)
      requires |pages| == MAX_PAGES
      modifies this
      ensures outcome == RunWith(AddPage, variant, pages, 0, [], [])
      ensures outcome.Finished? ==> newsData == outcome.records
    {
      ghost var spec := RunWith(AddPage, variant, pages, 0, [], []);
      newsData := [];
      var counts: seq<int> := [];
      for i := 0 to MAX_PAGES
        invariant |counts| == i
        invariant i < MAX_PAGES ==> RunWith(AddPage, variant, pages, i, newsData, counts) == spec
        invariant i == MAX_PAGES ==> Finished(newsData, counts, PageCap) == spec
      {
        if !pages[i].containerShown {
          return Aborted(i);
        }
        var layout := Seen(pages[i], variant);
        ghost var data := newsData;
        var pageArticlesFound := ScrapePage(layout.groups);
        RunWithPage(AddPage, variant, pages, i, data, counts, newsData);
        counts := counts + [pageArticlesFound];
        if pageArticlesFound == 0 && i > 0 {
          return Finished(newsData, counts, NoNewRecords);
        }
        if i < MAX_PAGES - 1 {
          if !layout.hasOlder {
            return Finished(newsData, counts, NoOlderControl);
          }
        }
      }
      return Finished(newsData, counts, PageCap);
    }
  }

  /** A whole scrape: the variant is detected on the landing page, then the
      pages are read. A completed scrape never holds two records with the
      same title, and every record has a non-empty title. */
  method ScrapeBlog(landingUrl: string, pages: seq<Page>) returns (outcome: Outcome)
    requires |pages| == MAX_PAGES
    ensures outcome == Scrape(landingUrl, pages)
    ensures outcome.Finished? ==> UniqueTitles(outcome.records)
    ensures outcome.Finished? ==> forall r :: r in outcome.records ==> r.title != ""
  {
    var scraper := new Scraper(landingUrl);
    outcome := scraper.Run(pages);
    ScrapeFirstSeen(landingUrl, pages);
    if outcome.Finished? {
      forall r | r in outcome.records ensures r.title != "" {
        ScrapeTitles(landingUrl, pages, r.title);
      }
    }
  }
}
