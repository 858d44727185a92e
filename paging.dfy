/**
 * `MailBox.pagination` and the slice `ids[page:end]` that `getMailSubject`
 * takes with its result: which part of the UID list one page covers.
 */
module Paging {
  import opened Wrappers
  import opened PySlice

  /** The pair `[start, end]` that `pagination` returns; `end` may be None. */
  datatype Window = Window(start: int, stop: Option<int>)

  /** COUNT_MAIL as the class declares it (and the configuration subclass keeps). */
  const DefaultCountMail: int := 3

  function Min(a: int, b: int): int {
    if a <= b then a else b
  }

  /**
   * `pagination(page, list_ids)` with `count = len(list_ids)` and
   * `countMail = COUNT_MAIL`. Neither `page` nor `countMail` is checked by the
   * source, so any integers are accepted.
   */
  function Pagination(page: int, count: nat, countMail: int): (w: Window)
    ensures w.stop.None? <==> page == 0
    ensures page != 0 ==> 0 <= w.start
  {
    if page == 0 then Window(count - countMail, None)
    else
      var first := count - countMail * page;
      var start := if first < 0 then 0 else first;
      var lenPage := if countMail * (page - 1) > count then count - countMail else countMail * (page - 1);
      Window(start, Some(-lenPage))
  }

  /** `ids[page:end]` where `page, end = pagination(page, ids)`. */
  function SelectWindow<T>(ids: seq<T>, page: int, countMail: int): (r: seq<T>)
    ensures |r| <= |ids|
    ensures page == 0 ==> r == ids[|ids| - |r|..]
  {
    var w := Pagination(page, |ids|, countMail);
    Slice(ids, Some(w.start), w.stop)
  }

  /**
   * Page 0 with at least COUNT_MAIL ids is the last COUNT_MAIL ids, in order.
   * With fewer ids the negative start is counted from the end again, so the
   * window is a shorter suffix: of 2 ids and COUNT_MAIL 3 only the last one.
   */
  lemma LatestPage<T>(ids: seq<T>, countMail: int)
    requires 0 <= countMail
    ensures countMail <= |ids| ==> SelectWindow(ids, 0, countMail) == ids[|ids| - countMail..]
    ensures |ids| < countMail ==>
      SelectWindow(ids, 0, countMail) == ids[|ids| - Min(|ids|, countMail - |ids|)..]
  {
  }

  /** With the configured COUNT_MAIL of 3, page 0 of a 2-id list is the last id alone. */
  lemma LatestPageOfTwo<T>(ids: seq<T>)
    requires |ids| == 2
    ensures SelectWindow(ids, 0, DefaultCountMail) == [ids[1]]
  {
    LatestPage(ids, DefaultCountMail);
  }

  /** With at most COUNT_MAIL/2 ids the twice-counted start is clamped to 0: page 0 is the whole list. */
  lemma LatestPageSmall<T>(ids: seq<T>, countMail: int)
    requires 0 <= 2 * |ids| <= countMail
    ensures SelectWindow(ids, 0, countMail) == ids
  {
    LatestPage(ids, countMail);
  }

  /** Page 1 ends at offset -0, which is 0, so its window is empty for every list. */
  lemma FirstPageEmpty<T>(ids: seq<T>, countMail: int)
    ensures SelectWindow(ids, 1, countMail) == []
  {
  }

  /** A negative page starts at or past the end of the list. */
  lemma NegativePageEmpty<T>(ids: seq<T>, page: int, countMail: int)
    requires page < 0 && 0 <= countMail
    ensures SelectWindow(ids, page, countMail) == []
  {
    var n := |ids|;
    assert countMail * page <= 0;
    assert countMail * (page - 1) <= 0;
    var w := Pagination(page, n, countMail);
    assert w.start >= n;
  }

  /**
   * Pages 2 and later, COUNT_MAIL > 0. While the page lies inside the list it is
   * the block of COUNT_MAIL ids ending COUNT_MAIL*(page-1) before the end; the
   * page that reaches the front is cut short; past the front, the end offset
   * is replaced by COUNT_MAIL - len and the window restarts at the front.
   */
  lemma BackPage<T>(ids: seq<T>, page: int, countMail: int)
    requires 2 <= page && 0 < countMail
    ensures var n, k := |ids|, countMail;
      k * page <= n ==>
        SelectWindow(ids, page, k) == ids[n - k * page..n - k * (page - 1)]
        && |SelectWindow(ids, page, k)| == k
    ensures var n, k := |ids|, countMail;
      k * (page - 1) <= n < k * page ==>
        SelectWindow(ids, page, k) == ids[..n - k * (page - 1)]
    ensures var n, k := |ids|, countMail;
      n < k * (page - 1) ==>
        SelectWindow(ids, page, k) == ids[..if k < n then k else Min(k - n, n)]
  {
    var n, k := |ids|, countMail;
    var before := k * (page - 1);
    assert k * page == before + k;
    assert k <= before;
  }

  /** Pages 1 and later never cover more than COUNT_MAIL ids. */
  lemma BackPageBounded<T>(ids: seq<T>, page: int, countMail: int)
    requires 1 <= page && 0 <= countMail
    ensures |SelectWindow(ids, page, countMail)| <= countMail
  {
    if page >= 2 && countMail > 0 {
      BackPage(ids, page, countMail);
    }
  }

  /** Consecutive full pages are adjacent blocks: page p+1 ends where page p starts. */
  lemma BackPagesAdjacent<T>(ids: seq<T>, page: int, countMail: int)
    requires 2 <= page && 0 < countMail
    requires countMail * (page + 1) <= |ids|
    ensures SelectWindow(ids, page + 1, countMail) + SelectWindow(ids, page, countMail)
      == ids[|ids| - countMail * (page + 1)..|ids| - countMail * (page - 1)]
  {
    var n, k := |ids|, countMail;
    var kp := k * page;
    assert k * (page + 1) == kp + k && k * (page - 1) == kp - k;
    assert k * ((page + 1) - 1) == kp;
    var a, b, c := n - kp - k, n - kp, n - kp + k;
    assert 0 <= a <= b <= c <= n;
    BackPage(ids, page, k);
    BackPage(ids, page + 1, k);
    assert SelectWindow(ids, page + 1, k) == ids[a..b];
    assert SelectWindow(ids, page, k) == ids[b..c];
    assert ids[a..b] + ids[b..c] == ids[a..c];
  }
}
