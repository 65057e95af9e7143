/** What one listing page contributes to the list of posts.

    The browser and the HTML parser are abstracted away: a page arrives as
    the date groups the active selector profile found, each with its date
    label (if any) and the stripped title text of each post entry (None
    when the entry has no title element).

    The nested loops of the scraper are specified in two steps. `Candidates`
    is the stream of (date, title) records the loops offer, in document
    order, after the missing and empty titles are dropped; `DedupInto` is
    the effect of offering that stream to the growing list, appending a
    record only when no record already in the list carries its title.
    `FirstOccurrences` is an independent, filter-style description of the
    same outcome, and the lemmas below connect the two. */
module Extraction {

  /** Date given to the entries of a group that has no date label. */
  const UNKNOWN_DATE: string := "日付不明"

  datatype Option<T> = None | Some(value: T)

  /** One row of the result: a post's date and its title. */
  datatype Record = Record(date: string, title: string)

  /** A date group of a listing page. */
  datatype Group = Group(dateLabel: Option<string>, entries: seq<Option<string>>)

  function DateOf(g: Group): string
  {
    match g.dateLabel
    case Some(text) => text
    case None => UNKNOWN_DATE
  }

  predicate HasTitle(data: seq<Record>, t: string)
  {
    exists k :: 0 <= k < |data| && data[k].title == t
  }

  /** No two records share a title. */
  predicate UniqueTitles(data: seq<Record>)
  {
    forall i, j :: 0 <= i < j < |data| ==> data[i].title != data[j].title
  }

  /** Two record lists carry the same titles at the same positions (dates may differ). */
  predicate SameTitles(a: seq<Record>, b: seq<Record>)
  {
    |a| == |b| && forall k :: 0 <= k < |a| ==> a[k].title == b[k].title
  }

  /** The records that the entries of one group offer, in order: an entry
      without a title, or with an empty one, offers nothing. */
  function EntryCandidates(date: string, entries: seq<Option<string>>): seq<Record>
    decreases |entries|
  {
    if entries == [] then []
    else
      var e := entries[|entries| - 1];
      EntryCandidates(date, entries[..|entries| - 1]) + (if e.Some? && e.value != "" then [Record(date, e.value)] else [])
  }

  /** The records a whole page offers, group after group. */
  function Candidates(groups: seq<Group>): seq<Record>
    decreases |groups|
  {
    if groups == [] then []
    else
      var g := groups[|groups| - 1];
      Candidates(groups[..|groups| - 1]) + EntryCandidates(DateOf(g), g.entries)
  }

  /** Some group of `groups` has `r`'s date and an entry titled `r.title`. */
  predicate Offered(groups: seq<Group>, r: Record)
  {
    exists k :: 0 <= k < |groups| && r.date == DateOf(groups[k]) && Some(r.title) in groups[k].entries
  }

  /** A group offers only its own non-empty titles, with its date. */
  lemma {:induction false} EntryCandidatesSound(date: string, entries: seq<Option<string>>, r: Record)
    requires r in EntryCandidates(date, entries)
    ensures r.date == date && r.title != "" && Some(r.title) in entries
    decreases |entries|
  {
    var init := entries[..|entries| - 1];
    if r in EntryCandidates(date, init) {
      EntryCandidatesSound(date, init, r);
    }
  }

  /** A group offers every one of its non-empty titles, with its date. */
  lemma {:induction false} EntryCandidatesComplete(date: string, entries: seq<Option<string>>, t: string)
    requires Some(t) in entries && t != ""
    ensures Record(date, t) in EntryCandidates(date, entries)
    decreases |entries|
  {
    var init := entries[..|entries| - 1];
    if Some(t) != entries[|entries| - 1] {
      assert Some(t) in init by {
        var k :| 0 <= k < |entries| && entries[k] == Some(t);
        assert init[k] == entries[k];
      }
      EntryCandidatesComplete(date, init, t);
    }
  }

  /** Every offered record has a non-empty title and comes from an entry of
      one of the groups, with that group's date. */
  lemma {:induction false} CandidatesSound(groups: seq<Group>, r: Record)
    requires r in Candidates(groups)
    ensures r.title != "" && Offered(groups, r)
    decreases |groups|
  {
    var n := |groups| - 1;
    var init := groups[..n];
    if r in Candidates(init) {
      CandidatesSound(init, r);
      var k :| 0 <= k < |init| && r.date == DateOf(init[k]) && Some(r.title) in init[k].entries;
      assert groups[k] == init[k];
    } else {
      EntryCandidatesSound(DateOf(groups[n]), groups[n].entries, r);
    }
  }

  /** Every non-empty title of every group is offered, with its group's date. */
  lemma {:induction false} CandidatesComplete(groups: seq<Group>, k: nat, t: string)
    requires k < |groups| && Some(t) in groups[k].entries && t != ""
    ensures Record(DateOf(groups[k]), t) in Candidates(groups)
    decreases |groups|
  {
    var n := |groups| - 1;
    var init := groups[..n];
    if k < n {
      assert init[k] == groups[k];
      CandidatesComplete(init, k, t);
    } else {
      EntryCandidatesComplete(DateOf(groups[n]), groups[n].entries, t);
    }
  }

  /** A title occurs in a concatenation exactly when it occurs in one part. */
  lemma HasTitleAppend(a: seq<Record>, b: seq<Record>, t: string)
    ensures HasTitle(a + b, t) <==> HasTitle(a, t) || HasTitle(b, t)
  {
    if HasTitle(a + b, t) {
      var k :| 0 <= k < |a + b| && (a + b)[k].title == t;
      if k >= |a| { assert (a + b)[k] == b[k - |a|]; }
    }
    if HasTitle(a, t) {
      var k :| 0 <= k < |a| && a[k].title == t;
      assert (a + b)[k] == a[k];
    }
    if HasTitle(b, t) {
      var k :| 0 <= k < |b| && b[k].title == t;
      assert (a + b)[|a| + k] == b[k];
    }
  }

  /** Some group has an entry titled `t`. */
  predicate GroupsShow(groups: seq<Group>, t: string)
  {
    exists k :: 0 <= k < |groups| && Some(t) in groups[k].entries
  }

  /** The titles offered by a page are exactly its non-empty entry titles. */
  lemma CandidatesTitles(groups: seq<Group>, t: string)
    ensures HasTitle(Candidates(groups), t) <==> t != "" && GroupsShow(groups, t)
  {
    var cs := Candidates(groups);
    if HasTitle(cs, t) {
      var j :| 0 <= j < |cs| && cs[j].title == t;
      CandidatesSound(groups, cs[j]);
    }
    if t != "" && GroupsShow(groups, t) {
      var k :| 0 <= k < |groups| && Some(t) in groups[k].entries;
      CandidatesComplete(groups, k, t);
      var j :| 0 <= j < |cs| && cs[j] == Record(DateOf(groups[k]), t);
    }
  }

  /** Offering candidates `cs` in turn to the list `data`. */
  function DedupInto(data: seq<Record>, cs: seq<Record>): seq<Record>
    decreases |cs|
  {
    if cs == [] then data
    else
      var acc := DedupInto(data, cs[..|cs| - 1]);
      var c := cs[|cs| - 1];
      if HasTitle(acc, c.title) then acc else acc + [c]
  }

  /** The candidates that are the first with their title, among those of
      `data` and the earlier candidates, kept in their original order. */
  function FirstOccurrences(data: seq<Record>, cs: seq<Record>): (r: seq<Record>)
    ensures forall x :: x in r ==> x in cs
    decreases |cs|
  {
    if cs == [] then []
    else
      var init := cs[..|cs| - 1];
      var c := cs[|cs| - 1];
      FirstOccurrences(data, init) + (if HasTitle(data, c.title) || HasTitle(init, c.title) then [] else [c])
  }

  /** The reference holds a title exactly when the title is new to `data`
      and some candidate carries it. */
  lemma {:induction false} FirstOccurrencesTitles(data: seq<Record>, cs: seq<Record>, t: string)
    ensures HasTitle(FirstOccurrences(data, cs), t) <==> !HasTitle(data, t) && HasTitle(cs, t)
    decreases |cs|
  {
    if cs != [] {
      var init := cs[..|cs| - 1];
      var c := cs[|cs| - 1];
      assert cs == init + [c];
      HasTitleAppend(init, [c], t);
      assert HasTitle([c], t) <==> c.title == t by {
        if c.title == t { assert [c][0].title == t; }
      }
      FirstOccurrencesTitles(data, init, t);
      FirstOccurrencesTitles(data, init, c.title);
      var tail := if HasTitle(data, c.title) || HasTitle(init, c.title) then [] else [c];
      HasTitleAppend(FirstOccurrences(data, init), tail, t);
      assert HasTitle(tail, t) <==> tail != [] && c.title == t by {
        if tail != [] && c.title == t { assert tail[0].title == t; }
      }
    }
  }

  /** The reference never holds two records with the same title. */
  lemma {:induction false} FirstOccurrencesUnique(data: seq<Record>, cs: seq<Record>)
    ensures UniqueTitles(FirstOccurrences(data, cs))
    decreases |cs|
  {
    if cs != [] {
      var init := cs[..|cs| - 1];
      var c := cs[|cs| - 1];
      var prev := FirstOccurrences(data, init);
      FirstOccurrencesUnique(data, init);
      if !(HasTitle(data, c.title) || HasTitle(init, c.title)) {
        FirstOccurrencesTitles(data, init, c.title);
        var r := prev + [c];
        forall i, j | 0 <= i < j < |r| ensures r[i].title != r[j].title {
          if j == |prev| {
            assert r[i] == prev[i];
          } else {
            assert r[i] == prev[i] && r[j] == prev[j];
          }
        }
      }
    }
  }

  /** After offering, the list carries exactly the titles it carried before
      and the titles of the candidates. */
  lemma {:induction false} DedupTitles(data: seq<Record>, cs: seq<Record>, t: string)
    ensures HasTitle(DedupInto(data, cs), t) <==> HasTitle(data, t) || HasTitle(cs, t)
    decreases |cs|
  {
    if cs != [] {
      var init := cs[..|cs| - 1];
      var c := cs[|cs| - 1];
      var acc := DedupInto(data, init);
      DedupTitles(data, init, t);
      DedupTitles(data, init, c.title);
      assert HasTitle(cs, t) <==> HasTitle(init, t) || c.title == t by {
        if HasTitle(cs, t) {
          var k :| 0 <= k < |cs| && cs[k].title == t;
          if k < |cs| - 1 { assert init[k] == cs[k]; }
        }
        if HasTitle(init, t) {
          var k :| 0 <= k < |init| && init[k].title == t;
          assert cs[k] == init[k];
        }
      }
      if !HasTitle(acc, c.title) {
        var r := acc + [c];
        if HasTitle(r, t) {
          var k :| 0 <= k < |r| && r[k].title == t;
          if k < |acc| { assert acc[k] == r[k]; }
        }
        if HasTitle(acc, t) {
          var k :| 0 <= k < |acc| && acc[k].title == t;
          assert r[k] == acc[k];
        }
        assert r[|acc|] == c;
      }
    }
  }

  /** Offering never creates two records with the same title. */
  lemma {:induction false} DedupKeepsUnique(data: seq<Record>, cs: seq<Record>)
    requires UniqueTitles(data)
    ensures UniqueTitles(DedupInto(data, cs))
    decreases |cs|
  {
    if cs != [] {
      var init := cs[..|cs| - 1];
      var c := cs[|cs| - 1];
      var acc := DedupInto(data, init);
      DedupKeepsUnique(data, init);
      if !HasTitle(acc, c.title) {
        var r := acc + [c];
        forall i, j | 0 <= i < j < |r| ensures r[i].title != r[j].title {
          if j == |acc| {
            assert r[i] == acc[i];
          } else {
            assert r[i] == acc[i] && r[j] == acc[j];
          }
        }
      }
    }
  }

  /** Offering candidates is the same as appending their first occurrences:
      the list grows only at its end, in first-seen order, and each new
      record keeps the date it had where its title first appeared. */
  lemma {:induction false} DedupIsFirstOccurrences(data: seq<Record>, cs: seq<Record>)
    ensures DedupInto(data, cs) == data + FirstOccurrences(data, cs)
    decreases |cs|
  {
    if cs != [] {
      var init := cs[..|cs| - 1];
      var c := cs[|cs| - 1];
      DedupIsFirstOccurrences(data, init);
      DedupTitles(data, init, c.title);
    }
  }

  /** Offering never removes or reorders a record: the list only grows at its end. */
  lemma DedupGrows(data: seq<Record>, cs: seq<Record>)
    ensures data <= DedupInto(data, cs)
    ensures |DedupInto(data, cs)| - |data| == |FirstOccurrences(data, cs)|
  {
    DedupIsFirstOccurrences(data, cs);
  }

  /** Offering two streams one after the other is offering their concatenation. */
  lemma {:induction false} DedupAppend(data: seq<Record>, a: seq<Record>, b: seq<Record>)
    ensures DedupInto(data, a + b) == DedupInto(DedupInto(data, a), b)
    decreases |b|
  {
    if b == [] {
      assert a + b == a;
    } else {
      var binit := b[..|b| - 1];
      assert (a + b)[..|a + b| - 1] == a + binit;
      assert (a + b)[|a + b| - 1] == b[|b| - 1];
      DedupAppend(data, a, binit);
    }
  }

  /** Dates play no part in the duplicate check: lists and streams with the
      same titles give results with the same titles. */
  lemma {:induction false} DedupDateBlind(d1: seq<Record>, d2: seq<Record>, c1: seq<Record>, c2: seq<Record>)
    requires SameTitles(d1, d2) && SameTitles(c1, c2)
    ensures SameTitles(DedupInto(d1, c1), DedupInto(d2, c2))
    decreases |c1|
  {
    if c1 != [] {
      var i1, i2 := c1[..|c1| - 1], c2[..|c2| - 1];
      assert SameTitles(i1, i2) by {
        forall k | 0 <= k < |i1| ensures i1[k].title == i2[k].title {
          assert i1[k] == c1[k] && i2[k] == c2[k];
        }
      }
      DedupDateBlind(d1, d2, i1, i2);
      var a1, a2 := DedupInto(d1, i1), DedupInto(d2, i2);
      var t := c1[|c1| - 1].title;
      assert c2[|c2| - 1].title == t;
      assert HasTitle(a1, t) <==> HasTitle(a2, t) by {
        if HasTitle(a1, t) {
          var k :| 0 <= k < |a1| && a1[k].title == t;
          assert a2[k].title == t;
        }
        if HasTitle(a2, t) {
          var k :| 0 <= k < |a2| && a2[k].title == t;
          assert a1[k].title == t;
        }
      }
    }
  }

  /** Relabelling the dates of a page's groups leaves the titles it offers unchanged. */
  lemma {:induction false} CandidatesDateBlind(g1: seq<Group>, g2: seq<Group>)
    requires |g1| == |g2| && forall k :: 0 <= k < |g1| ==> g1[k].entries == g2[k].entries
    ensures SameTitles(Candidates(g1), Candidates(g2))
    decreases |g1|
  {
    if g1 != [] {
      var n := |g1| - 1;
      var i1, i2 := g1[..n], g2[..n];
      forall k | 0 <= k < |i1| ensures i1[k].entries == i2[k].entries {
        assert i1[k] == g1[k] && i2[k] == g2[k];
      }
      CandidatesDateBlind(i1, i2);
      var e1 := EntryCandidates(DateOf(g1[n]), g1[n].entries);
      var e2 := EntryCandidates(DateOf(g2[n]), g2[n].entries);
      EntryCandidatesDateBlind(DateOf(g1[n]), DateOf(g2[n]), g1[n].entries);
      assert Candidates(g1) == Candidates(i1) + e1;
      assert Candidates(g2) == Candidates(i2) + e2;
      SameTitlesAppend(Candidates(i1), Candidates(i2), e1, e2);
    }
  }

  lemma {:induction false} EntryCandidatesDateBlind(d1: string, d2: string, es: seq<Option<string>>)
    ensures SameTitles(EntryCandidates(d1, es), EntryCandidates(d2, es))
    decreases |es|
  {
    if es != [] {
      var init := es[..|es| - 1];
      var e := es[|es| - 1];
      EntryCandidatesDateBlind(d1, d2, init);
      var tail1 := if e.Some? && e.value != "" then [Record(d1, e.value)] else [];
      var tail2 := if e.Some? && e.value != "" then [Record(d2, e.value)] else [];
      SameTitlesAppend(EntryCandidates(d1, init), EntryCandidates(d2, init), tail1, tail2);
    }
  }

  lemma SameTitlesAppend(a1: seq<Record>, a2: seq<Record>, b1: seq<Record>, b2: seq<Record>)
    requires SameTitles(a1, a2) && SameTitles(b1, b2)
    ensures SameTitles(a1 + b1, a2 + b2)
  {
    forall k | 0 <= k < |a1 + b1| ensures (a1 + b1)[k].title == (a2 + b2)[k].title {
      if k < |a1| {
        assert (a1 + b1)[k] == a1[k] && (a2 + b2)[k] == a2[k];
      } else {
        assert (a1 + b1)[k] == b1[k - |a1|] && (a2 + b2)[k] == b2[k - |a1|];
      }
    }
  }

  /** A page with two dated groups of two distinct titled posts each gives
      four records, in page order, each with its own group's date. */
  lemma TwoGroupsExample(d1: string, d2: string, t1: string, t2: string, t3: string, t4: string)
    requires t1 != "" && t2 != "" && t3 != "" && t4 != ""
    requires t1 != t2 && t1 != t3 && t1 != t4 && t2 != t3 && t2 != t4 && t3 != t4
    ensures DedupInto([], Candidates([Group(Some(d1), [Some(t1), Some(t2)]), Group(Some(d2), [Some(t3), Some(t4)])]))
         == [Record(d1, t1), Record(d1, t2), Record(d2, t3), Record(d2, t4)]
  {
    var cs := [Record(d1, t1), Record(d1, t2), Record(d2, t3), Record(d2, t4)];
    ExampleCandidates(d1, d2, t1, t2, t3, t4);
    DedupUnique(cs);
  }

  lemma ExampleCandidates(d1: string, d2: string, t1: string, t2: string, t3: string, t4: string)
    requires t1 != "" && t2 != "" && t3 != "" && t4 != ""
    ensures Candidates([Group(Some(d1), [Some(t1), Some(t2)]), Group(Some(d2), [Some(t3), Some(t4)])])
         == [Record(d1, t1), Record(d1, t2), Record(d2, t3), Record(d2, t4)]
  {
    var g1 := Group(Some(d1), [Some(t1), Some(t2)]);
    var g2 := Group(Some(d2), [Some(t3), Some(t4)]);
    TwoEntries(d1, t1, t2);
    TwoEntries(d2, t3, t4);
    assert [g1, g2][..1] == [g1] && [g1][..0] == [];
    assert Candidates([g1]) == [Record(d1, t1), Record(d1, t2)];
  }

  lemma TwoEntries(d: string, t1: string, t2: string)
    requires t1 != "" && t2 != ""
    ensures EntryCandidates(d, [Some(t1), Some(t2)]) == [Record(d, t1), Record(d, t2)]
  {
    assert [Some(t1), Some(t2)][..1] == [Some(t1)] && [Some(t1)][..0] == [];
    assert EntryCandidates(d, [Some(t1)]) == [Record(d, t1)];
  }

  /** A stream without repeated titles, offered to an empty list, is kept whole. */
  lemma {:induction false} DedupUnique(cs: seq<Record>)
    requires UniqueTitles(cs)
    ensures DedupInto([], cs) == cs
    decreases |cs|
  {
    if cs != [] {
      var init := cs[..|cs| - 1];
      var c := cs[|cs| - 1];
      assert UniqueTitles(init) by {
        forall i, j | 0 <= i < j < |init| ensures init[i].title != init[j].title {
          assert init[i] == cs[i] && init[j] == cs[j];
        }
      }
      DedupUnique(init);
      forall k | 0 <= k < |init| ensures init[k].title != c.title {
        assert init[k] == cs[k];
      }
      assert init + [c] == cs;
    }
  }


  /** A group with no date label gives its entries the unknown-date
      sentinel, and still offers every non-empty title. */
  lemma UndatedGroup(entries: seq<Option<string>>, t: string)
    requires Some(t) in entries && t != ""
    ensures Record(UNKNOWN_DATE, t) in Candidates([Group(None, entries)])
    ensures forall r :: r in Candidates([Group(None, entries)]) ==> r.date == UNKNOWN_DATE
  {
    var groups := [Group(None, entries)];
    CandidatesComplete(groups, 0, t);
    forall r | r in Candidates(groups) ensures r.date == UNKNOWN_DATE {
      CandidatesSound(groups, r);
    }
  }
}
