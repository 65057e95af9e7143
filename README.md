# Python blog news scraper — verified model of its collection loop

The scraper in `scraping.py` drives a headless browser to the Python
Insider blog, reads up to ten archive listing pages, and collects one
record (post date, post title) per post title. The blog is served in two
layouts: a desktop one on `blog.python.org` and a mobile one on
`pythoninsider.blogspot.com`. The scraper decides once, from the landing
URL, which layout it is on. That choice then picks the CSS selectors for
the date groups, for the post titles and for the "older posts" control on
every page.

This project models the logic between the browser calls:

- **`site_variant.dfy` — `SiteVariant`.** The layout check: mobile exactly
  when the landing URL contains the mobile host name as a substring.
- **`extraction.dfy` — `Extraction`.** What one page adds to the list, as
  specification functions. A page is a sequence of date groups. Each group
  has an optional date label and a sequence of entries, and each entry is
  an optional, already stripped title. `Candidates` is the stream of
  records that the nested loops offer: entries without a title or with an
  empty one are dropped, and an unlabelled group dates its entries
  `日付不明`. `DedupInto` is the effect of offering that stream to the
  list. A record is appended only when no record in the list already has
  its title. `FirstOccurrences` is an independent filter-style description
  of the same result. The lemmas prove uniqueness, append-only growth,
  first-seen order, title completeness and soundness, and that dates play
  no part in the duplicate check.
- **`pagination.dfy` — `Pagination`.** The outer loop as a specification
  function, `RunWith`. The page step is a parameter, so the stop rules are
  proved once for every step that only appends, and are then used for the
  scraper's own step `AddPage`. These rules cover: at most `MAX_PAGES` = 10
  pages; a stop when a page after the first adds nothing; a normal stop
  when the older-posts control is missing; no click after the last page;
  and a fatal error when the post container never appears.
- **`scraper.dfy` — `Scraping`.** The imperative scraper. It is a class
  with a list of records, `newsData`, that it appends to in place, plus
  the detected layout. It has the linear duplicate scan, the nested loops
  over groups and entries with their counter, and the outer loop with its
  early exits. Each method is proved against the specification functions
  above, so the lemmas proved there hold for what the methods compute.

The browser is abstracted away. A `Page` records two things: whether the
post container appeared, and what each selector profile finds on the page
(its date groups and whether the older-posts control is present). A run is
given the `MAX_PAGES` pages that the browser would show after 0, 1, …, 9
clicks on the older-posts control. Pages after the one the run stops on
play no part.

## Model

| member | source | states |
|---|---|---|
| `SiteVariant.Contains` | scraping.py:106 | Python's `in` on strings: true exactly when the needle occurs at some position of the string |
| `SiteVariant.Detect` | scraping.py:106 | the mobile layout exactly when the landing URL contains `pythoninsider.blogspot.com` somewhere, the desktop layout exactly when it does not |
| `SiteVariant.DetectMobileHost` | scraping.py:99-106 | every URL that carries the mobile host name, such as the mobile landing URL, is taken for the mobile layout |
| `SiteVariant.DetectDesktopLanding` | scraping.py:99-110 | the desktop landing URL `https://blog.python.org/` is taken for the desktop layout |
| `Extraction.DateOf` | scraping.py:133-134 | a group's date: its label text when it has one, otherwise the sentinel `日付不明` |
| `Extraction.EntryCandidates` | scraping.py:138-143 | the records a group's entry loop offers, in entry order: one record with the group's date per entry whose title tag is present and whose title is non-empty |
| `Extraction.Candidates` | scraping.py:131-143 | the records a page's group loop offers: the entry candidates of each group in turn, in document order |
| `Extraction.DedupInto` | scraping.py:143-146 | offering candidates one by one to the list: a candidate is appended when no record of the list carries its title, and skipped otherwise |
| `Extraction.EntryCandidatesSound` | scraping.py:138-145 | every record that a group's entries offer carries that group's date and the non-empty title of one of its entries |
| `Extraction.EntryCandidatesComplete` | scraping.py:138-145 | every entry of a group with a non-empty title offers a record with the group's date |
| `Extraction.CandidatesSound` | scraping.py:131-145 | every record a page offers has a non-empty title and comes from an entry of one of its groups, with that group's date |
| `Extraction.CandidatesComplete` | scraping.py:131-145 | every non-empty title of every group of a page is offered, with its group's date |
| `Extraction.CandidatesTitles` | scraping.py:139-143 | a page offers a title exactly when the title is non-empty and some entry of the page carries it, so missing and empty titles are never stored or counted |
| `Extraction.UndatedGroup` | scraping.py:133-134 | a group without a date label offers each of its non-empty titles with the date `日付不明`, and offers nothing with any other date |
| `Extraction.FirstOccurrences` | scraping.py:143-145 | the filter-style reference for the duplicate check keeps only candidates it was given |
| `Extraction.FirstOccurrencesTitles` | scraping.py:143-145 | the reference holds a title exactly when the title is new to the list and some candidate carries it |
| `Extraction.FirstOccurrencesUnique` | scraping.py:143-145 | the reference never holds two records with the same title |
| `Extraction.DedupTitles` | scraping.py:143-145 | after the candidates are offered, the list holds a title exactly when it held it before or a candidate carried it |
| `Extraction.DedupKeepsUnique` | scraping.py:143-145 | offering candidates to a list without repeated titles leaves a list without repeated titles, whether a repeat comes from the list or from an earlier candidate |
| `Extraction.DedupIsFirstOccurrences` | scraping.py:143-145 | offering candidates appends exactly the candidates whose title is new to the list and to the earlier candidates, in their original order, each with its own date |
| `Extraction.DedupGrows` | scraping.py:145-146 | offering never changes, removes or reorders a record already in the list; the list grows by the number of first occurrences |
| `Extraction.DedupAppend` | scraping.py:113-165 | offering two streams one after the other, as one page after another does, is the same as offering their concatenation |
| `Extraction.DedupDateBlind` | scraping.py:143 | the duplicate check compares titles only: lists and streams with the same titles, whatever their dates, give results with the same titles |
| `Extraction.CandidatesDateBlind` | scraping.py:133-143 | changing the date labels of a page's groups does not change which titles the page offers, or their order |
| `Extraction.DedupUnique` | scraping.py:143-146 | a stream without repeated titles, offered to an empty list, is kept whole and in order |
| `Extraction.TwoGroupsExample` | scraping.py:131-146 | two dated groups of two distinct posts each give four records, in page order, each with its own group's date |
| `Pagination.Seen` | scraping.py:128 | the variant picks one selector profile, used for both the page's groups and the older-posts control of every page |
| `Pagination.AddPage` | scraping.py:125-165 | the body of one page: its candidates offered to the list |
| `Pagination.RunWith` | scraping.py:116-190 | the outer loop from page `i`: abort when the post container does not appear; otherwise add the page, then stop when a page after the first added nothing, stop at the cap, stop when the older-posts control is missing, and go on to the next page otherwise, tested in that order |
| `Pagination.Scrape` | scraping.py:106-190 | a whole run: the variant detected from the landing URL, the loop from the first page with an empty list and no counts |
| `Pagination.Through` | scraping.py:116-165 | the list after the first `n` pages, each processed once in order |
| `Pagination.AddPageOnlyAppends` | scraping.py:145 | the scraper's page step only appends to the list |
| `Pagination.RunLength` | scraping.py:116 | a run reads at least the page it starts from and at most `MAX_PAGES` pages, and keeps the counts of the pages already read |
| `Pagination.RunGrowth` | scraping.py:125-167 | with a step that only appends, the records only grow at their end, and the per-page counts add up to the number of records added |
| `Pagination.RunContinues` | scraping.py:116-190 | every page read before the last one showed its container and the older-posts control, and added at least one record unless it was the first page; no count is negative |
| `Pagination.RunStop` | scraping.py:170-190 | a run ends by a zero count exactly when its last page is not the first and added nothing; it ends by the cap only after `MAX_PAGES` pages; it ends by a missing older-posts control only before the cap, on a page without the control |
| `Pagination.RunAborts` | scraping.py:116-190 | a run aborts only on a page whose post container did not appear; every earlier page showed its container and the older-posts control, and every earlier page but the first added a record to the list |
| `Pagination.ScrapeAborts` | scraping.py:116-190 | a whole run aborts only on a page whose post container did not appear; every earlier page showed its container and the older-posts control, and every earlier page but the first added a record to the list |
| `Pagination.NextPageRead` | scraping.py:170-186 | a page before the cap that shows its container and the older-posts control, and is the first page or adds a record, is followed by the next page |
| `Pagination.FirstPageMayBeEmpty` | scraping.py:170-172 | a first page that adds nothing does not end the run when the older-posts control is there |
| `Pagination.RunRecords` | scraping.py:116-165 | the records of a completed run are the list after each page read is processed once, in order |
| `Pagination.ThroughAddPage` | scraping.py:113-165 | with the scraper's step, the list after `n` pages is what offering all that those pages offer, page after page, to an empty list gives |
| `Pagination.RunCandidatesTitles` | scraping.py:116-143 | the titles offered by the pages read are exactly the non-empty entry titles on those pages |
| `Pagination.ScrapeFirstSeen` | scraping.py:113-165 | a completed run has no two records with the same title, and its records are the first occurrences by title of everything the pages read offer, in first-seen order across pages |
| `Pagination.ScrapeTitles` | scraping.py:139-165 | a completed run holds a record with title `t` exactly when `t` is non-empty and is the title of an entry on one of the pages read |
| `Pagination.RunStops` | scraping.py:114-190 | for any step that only appends, the stop rules of a completed run from its first page: at most `MAX_PAGES` pages, counts that sum to the number of records and are never negative, a zero count only on the first page or on the last page read, the older-posts control present on every page before the last, and each stop reason characterised |
| `Pagination.RunCounts` | scraping.py:125-172 | in a completed run, each page's count is the number of records that page appended to the list |
| `Pagination.ScrapeCounts` | scraping.py:125-172 | the same for a completed run of the scraper itself: each count is the growth of the list on that page |
| `Pagination.ScrapeStops` | scraping.py:114-190 | the same stop rules for a completed run of the scraper itself |
| `Scraping.Scraper.constructor` | scraping.py:106 | the layout is detected once from the landing URL and stays fixed for the run |
| `Scraping.Scraper.ContainsTitle` | scraping.py:143 | the linear `any(...)` scan finds a title exactly when some collected record carries it |
| `Scraping.Scraper.ScrapeGroup` | scraping.py:132-146 | the entry loop of one date group leaves the list as offering that group's candidates would, and its counter equals the growth of the list |
| `Scraping.Scraper.ScrapePage` | scraping.py:125-165 | the nested loops of one page leave the list as `AddPage` specifies, only appended to; the page counter equals the number of records added, which is the number of first occurrences of the page's titles |
| `Scraping.Scraper.Run` | scraping.py:113-190 | the outer loop, starting from an empty list, gives the outcome `RunWith` specifies for the detected layout, and on completion the list holds the records of that outcome |
| `Scraping.ScrapeBlog` | scraping.py:106-190 | a whole scrape gives the outcome of `Scrape`; a completed scrape has no two records with the same title and no record with an empty title |

## Left out

- Environment bootstrap (scraping.py:13-29), `local-setup.py` and library imports: shell and package installation with no logic. `local-setup.py` is not part of this model.
- WebDriver options and setup, and the navigation chain from python.org to the blog (scraping.py:50-103): browser I/O and timing. The model starts from the landing URL that the navigation reaches.
- The 30-second waits and the sleeps: timing. Waiting for the post container (scraping.py:120) is modelled only by its outcome. The container either appears, or the run ends in the `Aborted` outcome.
- HTML parsing, CSS selector matching and `get_text(strip=True)` (scraping.py:122-123, 131-141, 150-159): calls into BeautifulSoup. Their result is the abstract page: its date groups and their optional, already stripped titles. The two selector profiles (scraping.py:131-141 for mobile, 150-159 for desktop) have the same loop structure. They differ only in the selectors, so each page carries one `Layout` per profile.
- Finding and clicking the older-posts control (scraping.py:176-187): browser I/O. Any exception from it is modelled as the control being absent, as in the source's `except Exception` branch.
- CSV export and the Colab download (scraping.py:192-206): file I/O. That branch writes a file only when the list of records is non-empty.
- The error path (scraping.py:208-220): screenshot, `driver.quit()` and logging. An abort is an outcome without records.
- Logging throughout.
- `Scraping.Scraper.Run`: the contract leaves the list unspecified after an abort, because the source then goes to its error path and never uses the list again.
- Integers are unbounded. Python's integers are unbounded too, so the counters need no wrap-around.
