/**
 * The selection part of `MailBox.getMailSubject`: the UID list from
 * `getMailList`, the page window over it, and the loop that fetches each id of
 * the window whose number exceeds the `last_id` watermark.
 */
module MailBoxModel {
  import opened Wrappers
  import opened UidSearch
  import opened Paging

  /** The exceptions the selection can raise. */
  datatype Failure =
    | TypeError   // `len(None)` in `pagination` when the search status was not 'OK'
    | ValueError  // `int(i)` on a window token that is not an integer

  /**
   * What a consumer draining the generator sees: the UIDs fetched, in order,
   * and the exception that ended the iteration, if any.
   */
  datatype Selection = Selection(fetched: seq<Token>, failure: Option<Failure>)

  /** The token reads as an integer greater than the watermark. */
  predicate Above(t: Token, lastId: int) {
    ParseInt(t).Some? && lastId < ParseInt(t).value
  }

  predicate AllNumeric(ts: seq<Token>) {
    forall j :: 0 <= j < |ts| ==> ParseInt(ts[j]).Some?
  }

  /**
   * The loop `for i in list_id: if self.last_id < int(i): fetch i`, read as a
   * function of the window: the first token `int()` rejects stops it with
   * ValueError after the ids already fetched.
   */
  function NewerThan(window: seq<Token>, lastId: int): (r: Selection)
    ensures r.failure.None? || r.failure == Some(ValueError)
    ensures |r.fetched| <= |window|
    decreases |window|
  {
    if window == [] then Selection([], None)
    else
      match ParseInt(window[0])
      case None => Selection([], Some(ValueError))
      case Some(v) =>
        var rest := NewerThan(window[1..], lastId);
        if lastId < v then Selection([window[0]] + rest.fetched, rest.failure) else rest
  }

  /** Only ids of the window are fetched, and each of them lies above the watermark. */
  lemma {:induction false} NewerThanSound(window: seq<Token>, lastId: int)
    ensures forall j :: 0 <= j < |NewerThan(window, lastId).fetched| ==>
      NewerThan(window, lastId).fetched[j] in window && Above(NewerThan(window, lastId).fetched[j], lastId)
    decreases |window|
  {
    if window != [] {
      NewerThanSound(window[1..], lastId);
    }
  }

  /** With every token numeric nothing fails and every id above the watermark is fetched. */
  lemma {:induction false} NewerThanComplete(window: seq<Token>, lastId: int)
    requires AllNumeric(window)
    ensures NewerThan(window, lastId).failure == None
    ensures forall j :: 0 <= j < |window| && Above(window[j], lastId) ==> window[j] in NewerThan(window, lastId).fetched
    decreases |window|
  {
    if window != [] {
      NewerThanComplete(window[1..], lastId);
      forall j | 1 <= j < |window| ensures window[j] == window[1..][j - 1] {
      }
    }
  }

  /** The iteration fails exactly when some token of the window is not an integer. */
  lemma {:induction false} NewerThanFails(window: seq<Token>, lastId: int)
    ensures NewerThan(window, lastId).failure.Some? <==> !AllNumeric(window)
    decreases |window|
  {
    if window != [] {
      NewerThanFails(window[1..], lastId);
      assert AllNumeric(window) <==> ParseInt(window[0]).Some? && AllNumeric(window[1..]) by {
        forall j | 1 <= j < |window| ensures window[j] == window[1..][j - 1] {
        }
      }
    }
  }

  lemma AllNumericTail(ts: seq<Token>)
    requires ts != [] && AllNumeric(ts)
    ensures ParseInt(ts[0]).Some? && AllNumeric(ts[1..])
  {
    forall j | 0 <= j < |ts[1..]| ensures ParseInt(ts[1..][j]).Some? {
      assert ts[1..][j] == ts[j + 1];
    }
  }

  /**
   * Fetching follows window order: the selection of a numeric prefix followed
   * by the selection of the rest.
   */
  lemma {:induction false} NewerThanAppend(a: seq<Token>, b: seq<Token>, lastId: int)
    requires AllNumeric(a)
    ensures NewerThan(a + b, lastId)
      == Selection(NewerThan(a, lastId).fetched + NewerThan(b, lastId).fetched, NewerThan(b, lastId).failure)
    decreases |a|
  {
    if a == [] {
      assert a + b == b;
    } else {
      var ab := a + b;
      assert ab[0] == a[0] && ab[1..] == a[1..] + b;
      AllNumericTail(a);
      NewerThanAppend(a[1..], b, lastId);
    }
  }

  /** A token `int()` rejects ends the iteration: the ids before it are fetched, none after. */
  lemma StopsAtBadToken(window: seq<Token>, p: nat, lastId: int)
    requires p < |window| && ParseInt(window[p]).None?
    requires AllNumeric(window[..p])
    ensures NewerThan(window, lastId) == Selection(NewerThan(window[..p], lastId).fetched, Some(ValueError))
  {
    assert window == window[..p] + window[p..];
    NewerThanAppend(window[..p], window[p..], lastId);
  }

  /**
   * The whole selection of `getMailSubject(folder, page)` for a given UID
   * SEARCH response: tokens, page window, slice, watermark filter.
   */
  function SubjectUids(status: string, line: seq<byte>, page: int, countMail: int, lastId: int): (r: Selection)
    ensures status != "OK" ==> r == Selection([], Some(TypeError))
    ensures status == "OK" ==> forall j :: 0 <= j < |r.fetched| ==>
      r.fetched[j] in SelectWindow(Split(line), page, countMail) && Above(r.fetched[j], lastId)
  {
    match GetMailList(status, line)
    case None => Selection([], Some(TypeError))
    case Some(ids) =>
      NewerThanSound(SelectWindow(ids, page, countMail), lastId);
      NewerThan(SelectWindow(ids, page, countMail), lastId)
  }

  /** Page 1 fetches nothing, whatever the mailbox holds. */
  lemma FirstPageFetchesNothing(line: seq<byte>, countMail: int, lastId: int)
    ensures SubjectUids("OK", line, 1, countMail, lastId) == Selection([], None)
  {
    FirstPageEmpty(Split(line), countMail);
  }

  /** The UIDs above the watermark, in order. */
  function Newer(uids: seq<nat>, lastId: int): (r: seq<nat>)
    ensures |r| <= |uids|
    ensures forall j :: 0 <= j < |r| ==> r[j] in uids && lastId < r[j]
  {
    if uids == [] then []
    else (if lastId < uids[0] then [uids[0]] else []) + Newer(uids[1..], lastId)
  }

  lemma {:induction false} NewerThanDecimals(uids: seq<nat>, lastId: int)
    ensures NewerThan(Decimals(uids), lastId) == Selection(Decimals(Newer(uids, lastId)), None)
  {
    if uids != [] {
      ParseDecimal(uids[0]);
      NewerThanDecimals(uids[1..], lastId);
      var d := Decimals(uids);
      assert d[0] == Decimal(uids[0]) && d[1..] == Decimals(uids[1..]);
      var rest := NewerThan(d[1..], lastId);
      assert NewerThan(d, lastId) == if lastId < uids[0] then Selection([d[0]] + rest.fetched, rest.failure) else rest;
      if lastId < uids[0] {
        assert Newer(uids, lastId) == [uids[0]] + Newer(uids[1..], lastId);
        assert Decimals([uids[0]] + Newer(uids[1..], lastId))[1..] == Decimals(Newer(uids[1..], lastId));
      } else {
        assert Newer(uids, lastId) == Newer(uids[1..], lastId);
      }
    }
  }

  lemma {:induction false} DecimalsSuffix(uids: seq<nat>, i: nat)
    requires i <= |uids|
    ensures Decimals(uids)[i..] == Decimals(uids[i..])
  {
    if i > 0 {
      DecimalsSuffix(uids[1..], i - 1);
      assert uids[1..][i - 1..] == uids[i..];
    }
  }

  /**
   * End to end: page 0 takes the window `LatestPage` describes (the last
   * COUNT_MAIL UIDs, or a shorter suffix when there are fewer) and then fetches,
   * in order and without error, those of its UIDs that lie above the watermark.
   * No ordering of the UIDs is assumed.
   */
  lemma LatestUidsFetched(uids: seq<nat>, countMail: int, lastId: int)
    requires 0 <= countMail
    ensures countMail <= |uids| ==>
      SubjectUids("OK", SearchLine(uids), 0, countMail, lastId)
        == Selection(Decimals(Newer(uids[|uids| - countMail..], lastId)), None)
    ensures |uids| < countMail ==>
      SubjectUids("OK", SearchLine(uids), 0, countMail, lastId)
        == Selection(Decimals(Newer(uids[|uids| - Min(|uids|, countMail - |uids|)..], lastId)), None)
  {
    var ids := Decimals(uids);
    var from := if countMail <= |uids| then |uids| - countMail else |uids| - Min(|uids|, countMail - |uids|);
    var tail := uids[from..];
    assert GetMailList("OK", SearchLine(uids)) == Some(ids) by {
      SearchRoundTrip(uids);
    }
    assert SelectWindow(ids, 0, countMail) == Decimals(tail) by {
      LatestPage(ids, countMail);
      DecimalsSuffix(uids, from);
    }
    NewerThanDecimals(tail, lastId);
  }

  /** The mailbox client, reduced to the state the selection reads. */
  class MailBox {
    /** COUNT_MAIL: the page size, fixed per configuration. */
    const countMail: int
    /** `last_id`: the watermark; ids at or below it are not fetched. */
    var lastId: int

    /** `MailBox()` with the class's COUNT_MAIL; `last_id` starts at 0. */
    constructor (countMail: int)
      ensures this.countMail == countMail && lastId == 0
    {
      this.countMail := countMail;
      lastId := 0;
    }

    /**
     * The ids `getMailSubject(folder, page)` fetches, given the UID SEARCH
     * response `(status, [line])` of the selected folder.
     */
    method GetMailSubject(status: string, line: seq<byte>, page: int) returns (fetched: seq<Token>, failure: Option<Failure>)
      ensures Selection(fetched, failure) == SubjectUids(status, line, page, countMail, lastId)
    {
      var ids := GetMailList(status, line);
      if ids.None? {
        return [], Some(TypeError);
      }
      var bounds := Pagination(page, |ids.value|, countMail);
      var listId := PySlice.Slice(ids.value, Some(bounds.start), bounds.stop);
      fetched, failure := FetchNewer(listId);
    }

    /**
     * The `for` loop of `getMailSubject`: walks the window in order and fetches
     * each id whose integer value exceeds `last_id`; a token `int()` rejects
     * ends the iteration with ValueError.
     */
    method FetchNewer(listId: seq<Token>) returns (fetched: seq<Token>, failure: Option<Failure>)
      ensures Selection(fetched, failure) == NewerThan(listId, lastId)
    {
      fetched, failure := [], None;
      var i := 0;
      while i < |listId|
        invariant 0 <= i <= |listId|
        invariant AllNumeric(listId[..i])
        invariant fetched == NewerThan(listId[..i], lastId).fetched
      {
        var v := ParseInt(listId[i]);
        if v.None? {
          assert NewerThan(listId, lastId) == Selection(fetched, Some(ValueError)) by {
            StopsAtBadToken(listId, i, lastId);
          }
          return fetched, Some(ValueError);
        }
        if lastId < v.value {
          fetched := fetched + [listId[i]];
        }
        assert AllNumeric(listId[..i + 1]) && fetched == NewerThan(listId[..i + 1], lastId).fetched by {
          assert listId[..i + 1] == listId[..i] + [listId[i]];
          NewerThanAppend(listId[..i], [listId[i]], lastId);
        }
        i := i + 1;
      }
      assert NewerThan(listId, lastId) == Selection(fetched, None) by {
        assert listId[..i] == listId;
        NewerThanComplete(listId, lastId);
      }
    }
  }
}
