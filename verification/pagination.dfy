/** The page arithmetic of the voice-list menu: eight voices per page, a
    "back" button on every page but the first and a "forward" button on every
    page before the last. */
module Pagination {

  const VoicesPerPage: nat := 8

  /** `(n + 8 - 1) // 8`: the fewest pages that hold `n` voices. */
  function TotalPages(n: nat): (pages: nat)
    ensures VoicesPerPage * pages >= n
    ensures pages == 0 || VoicesPerPage * (pages - 1) < n
  {
    (n + VoicesPerPage - 1) / VoicesPerPage
  }

  function Min(a: nat, b: nat): nat {
    if a <= b then a else b
  }

  /** `voices[start:start + 8]` with `start = 8 * page`; Python clamps both
      slice bounds to the list length. */
  function PageItems(names: seq<string>, page: nat): (items: seq<string>)
    ensures |items| <= VoicesPerPage
    ensures |items| == Min(VoicesPerPage, |names| - Min(VoicesPerPage * page, |names|))
    ensures forall k :: 0 <= k < |items| ==> items[k] == names[VoicesPerPage * page + k]
    ensures page < TotalPages(|names|) <==> |items| > 0
  {
    var start := Min(VoicesPerPage * page, |names|);
    var end := Min(start + VoicesPerPage, |names|);
    names[start..end]
  }

  predicate ShowBack(page: nat) {
    page > 0
  }

  predicate ShowForward(n: nat, page: nat) {
    page as int < TotalPages(n) as int - 1
  }

  /** The forward button is shown exactly when voices remain after this page. */
  lemma ForwardIffMoreVoices(n: nat, page: nat)
    ensures ShowForward(n, page) <==> VoicesPerPage * (page + 1) < n
  {
    var t := TotalPages(n);
    if page + 1 < t {
      assert VoicesPerPage * (page + 1) <= VoicesPerPage * (t - 1);
    }
  }

  /** Every voice sits on exactly one page: the one at index `i` is item
      `i % 8` of page `i / 8`, which is a page that exists. */
  lemma VoiceOnPage(names: seq<string>, i: nat)
    requires i < |names|
    ensures i / VoicesPerPage < TotalPages(|names|)
    ensures |PageItems(names, i / VoicesPerPage)| > i % VoicesPerPage
    ensures PageItems(names, i / VoicesPerPage)[i % VoicesPerPage] == names[i]
  {
    var p := i / VoicesPerPage;
    assert VoicesPerPage * p + i % VoicesPerPage == i;
  }

  /** On a page that exists, the back button is shown exactly on the pages
      after the first, and it leads to a full page of voices. */
  lemma BackLeadsToFullPage(names: seq<string>, page: nat)
    requires page < TotalPages(|names|)
    ensures ShowBack(page) <==> VoicesPerPage * page > 0
    ensures ShowBack(page) ==> |PageItems(names, page - 1)| == VoicesPerPage
  {
    if page > 0 {
      assert VoicesPerPage * (page - 1) + VoicesPerPage == VoicesPerPage * page;
      assert VoicesPerPage * page < |names|;
    }
  }
}
