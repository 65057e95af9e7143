/** Which of the blog's two page layouts the scraper is looking at.
    The choice is made once, from the URL the browser lands on, and the
    tag then selects the selector profile for every page of the run. */
module SiteVariant {

  /** Host name of the blog's mobile layout. */
  const MOBILE_HOST: string := "pythoninsider.blogspot.com"

  datatype Variant = Desktop | Mobile

  /** `needle` appears in `hay` starting at position `i`. */
  predicate OccursAt(needle: string, hay: string, i: nat)
  {
    i + |needle| <= |hay| && hay[i..i + |needle|] == needle
  }

  /** An occurrence in `hay[1..]` is an occurrence in `hay` one position later. */
  lemma OccursShifted(needle: string, hay: string, i: nat)
    requires |hay| > 0
    ensures OccursAt(needle, hay[1..], i) <==> OccursAt(needle, hay, i + 1)
  {
    if i + |needle| <= |hay[1..]| {
      assert hay[1..][i..i + |needle|] == hay[i + 1..i + 1 + |needle|];
    }
  }

  /** Substring membership, the meaning of Python's `needle in hay` on strings. */
  function Contains(needle: string, hay: string): (r: bool)
    ensures r <==> exists i: nat :: OccursAt(needle, hay, i)
    decreases |hay|
  {
    if |hay| < |needle| then false
    else if hay[..|needle|] == needle then
      assert OccursAt(needle, hay, 0);
      true
    else
      assert !OccursAt(needle, hay, 0);
      assert forall i: nat :: OccursAt(needle, hay[1..], i) <==> OccursAt(needle, hay, i + 1) by {
        forall i: nat { OccursShifted(needle, hay, i); }
      }
      assert forall i: nat :: OccursAt(needle, hay, i) ==> i > 0 && OccursAt(needle, hay[1..], i - 1) by {
        forall i: nat | OccursAt(needle, hay, i) && i > 0 { OccursShifted(needle, hay, i - 1); }
      }
      Contains(needle, hay[1..])
  }

  /** The site-variant check: the mobile layout exactly when the landing URL
      contains the mobile host name anywhere, the desktop layout otherwise. */
  function Detect(landingUrl: string): (v: Variant)
    ensures v == Mobile <==> exists i: nat :: OccursAt(MOBILE_HOST, landingUrl, i)
    ensures v == Desktop <==> !exists i: nat :: OccursAt(MOBILE_HOST, landingUrl, i)
  {
    if Contains(MOBILE_HOST, landingUrl) then Mobile else Desktop
  }

  /** Any URL that carries the mobile host name is taken for the mobile layout. */
  lemma DetectMobileHost(prefix: string, suffix: string)
    ensures Detect(prefix + MOBILE_HOST + suffix) == Mobile
  {
    var url := prefix + MOBILE_HOST + suffix;
    assert url[|prefix|..|prefix| + |MOBILE_HOST|] == MOBILE_HOST;
    assert OccursAt(MOBILE_HOST, url, |prefix|);
  }

  /** The desktop landing URL is recognised as the desktop layout (the
      mobile landing URL is an instance of `DetectMobileHost`). */
  lemma DetectDesktopLanding()
    ensures Detect("https://blog.python.org/") == Desktop
  {
  }
}
