# Page-window selection of the IMAP mailbox client

`MailBox.getMailSubject(folder, page)` lists message subjects a page at a time.
Before any message is fetched it decides which UIDs to fetch:

1. `getMailList` sends `UID SEARCH ALL` and, when the status is `'OK'`, splits
   the first data line (a space-separated list of UIDs, section 7.2.5 of
   RFC 3501) into tokens with `bytes.split()`; otherwise it returns `None`.
2. `pagination(page, ids)` turns the page number, the number of ids and the
   page size `COUNT_MAIL` into a pair `[start, end]`, where `end` is `None`
   for page 0 and a (possibly zero, possibly positive) offset otherwise.
3. `ids[start:end]` takes that window with Python's slice rules: a negative
   bound counts from the end, bounds are clamped to the list, and a start at
   or past the stop gives nothing.
4. A `for` loop walks the window in order and fetches each id whose `int()`
   value exceeds the watermark `last_id`.

The model states what the code does, edge cases included:

- Page 0 with at least `COUNT_MAIL` ids is the newest `COUNT_MAIL` ids. With
  fewer ids the negative start is counted from the end a second time. With more
  than `COUNT_MAIL/2` but fewer than `COUNT_MAIL` ids, page 0 therefore holds
  only the last `COUNT_MAIL - len` ids. For example, 2 ids with
  `COUNT_MAIL = 3` give only the last id. With at most `COUNT_MAIL/2` ids the
  start is clamped to 0, and page 0 is the whole list.
- Page 1 ends at offset `-0`, which is `0`, so page 1 is always empty.
- Pages 2 and later inside the list are adjacent blocks of `COUNT_MAIL` ids,
  moving backwards. The page that reaches the front is cut short. Past the
  front, the end offset becomes `COUNT_MAIL - len`, and the window restarts at
  the front of the list.
- A negative page is empty.
- When the search status is not `'OK'`, `pagination` calls `len(None)` and
  raises TypeError. Nothing is fetched.
- A window token that `int()` rejects raises ValueError. The ids before it
  have already been fetched; none after it are.

A caller who reads `page` as plain backward pagination would expect page 0 to
hold the newest `min(COUNT_MAIL, len)` ids and page 1 the block before it.
Page 0 meets that expectation except when `COUNT_MAIL/2 < len < COUNT_MAIL`.
In that range it holds only the last `COUNT_MAIL - len` ids
(`Paging.LatestPage`, `Paging.LatestPageOfTwo`, `Paging.LatestPageSmall`).
Page 1 is always empty (`Paging.FirstPageEmpty`). That differs from backward
pagination whenever `len > COUNT_MAIL`.

Modules:

- `Wrappers` (wrappers.dfy): `Option`.
- `PySlice` (pyslice.dfy): Python slicing with step 1.
- `UidSearch` (uidsearch.dfy): `bytes.split()`, `int()` on a bytes token,
  decimal UIDs, `getMailList`.
- `Paging` (paging.dfy): `pagination` and the window it selects.
- `MailBoxModel` (mailbox.dfy): the watermark loop, the whole selection as one
  function, and the `MailBox` class whose methods carry it out.

## Model

| member | source | states |
|---|---|---|
| `PySlice.Slice` | mailbox.py:98 | `ids[start:end]` never has more elements than `ids`; when the clamped start is at or past the clamped stop it is empty, otherwise its length is their difference |
| `PySlice.SliceIsSelection` | mailbox.py:98 | the clamped slice keeps exactly the positions at or after `start` and before `end` (negative bounds read from the end, no clamping), in list order |
| `UidSearch.Split` | mailbox.py:88 | every token of `bytes.split()` is non-empty and free of ASCII whitespace |
| `UidSearch.SplitKeepsOrder` | mailbox.py:87-88 | concatenating the tokens gives the response line with its whitespace removed: nothing else is lost and the server's order is kept |
| `UidSearch.SplitJoin` | mailbox.py:87-88 | splitting a space-joined list of whitespace-free, non-empty tokens gives exactly those tokens back |
| `UidSearch.GetMailList` | mailbox.py:84-88 | a list is returned exactly when the status is `'OK'`, and None otherwise; its tokens are whitespace-free and non-empty, and together they spell the line without its whitespace |
| `UidSearch.ParseInt` | mailbox.py:102 | `int(i)` on a token: an accepted token ends in a digit, and a negative value needs a leading minus; `ParseDecimal` gives the value of every decimal UID, and `NotANumber` rejects every token with a byte other than a digit, `_` or a leading sign |
| `UidSearch.ParseDecimal` | mailbox.py:102 | `int()` reads a decimal UID back as the number it was written from |
| `UidSearch.NotANumber` | mailbox.py:102 | a token with a byte other than a digit, an underscore or a leading sign makes `int()` fail |
| `UidSearch.SearchRoundTrip` | mailbox.py:84-88 | for a server response listing UIDs in decimal, `getMailList` returns one token per UID, in order, and `int()` reads each token back as its UID |
| `Paging.Pagination` | mailbox.py:48-61 | depends only on the page, the number of ids and COUNT_MAIL and is total; the end is None exactly for page 0, and every other page starts at a non-negative index |
| `Paging.SelectWindow` | mailbox.py:97-98 | the window `ids[start:end]` is never longer than the list, and page 0 is always a suffix of it; its page-by-page meaning is given by `LatestPage`, `FirstPageEmpty` and `BackPage` |
| `Paging.LatestPageOfTwo` | mailbox.py:53-54 | with the configured COUNT_MAIL of 3, page 0 of a 2-id list is the last id alone |
| `Paging.LatestPageSmall` | mailbox.py:53-54 | with at most COUNT_MAIL/2 ids, page 0 is the whole list |
| `Paging.LatestPage` | mailbox.py:53-54 | page 0 is the last COUNT_MAIL ids in order when there are at least that many; with fewer ids it is the suffix of length `min(len, COUNT_MAIL - len)` |
| `Paging.FirstPageEmpty` | mailbox.py:58-61 | page 1 selects nothing, for every list and every COUNT_MAIL |
| `Paging.NegativePageEmpty` | mailbox.py:55-61 | a negative page selects nothing |
| `Paging.BackPage` | mailbox.py:55-61 | for pages 2 and later: a page inside the list is `ids[len-k*page : len-k*(page-1)]` with exactly k ids; the page reaching the front is `ids[:len-k*(page-1)]`; past the front the window is `ids[:k]` when `k < len` and `ids[:min(k-len, len)]` otherwise |
| `Paging.BackPageBounded` | mailbox.py:55-61 | pages 1 and later never select more than COUNT_MAIL ids |
| `Paging.BackPagesAdjacent` | mailbox.py:55-61 | consecutive full pages p+1 and p, joined, are one contiguous block of the list: page p+1 ends where page p starts |
| `MailBoxModel.NewerThan` | mailbox.py:101-103 | the loop fails only with ValueError and never fetches more ids than the window holds |
| `MailBoxModel.NewerThanSound` | mailbox.py:101-103 | every fetched id is in the window and reads as an integer above `last_id`; no id outside the window is fetched |
| `MailBoxModel.NewerThanComplete` | mailbox.py:101-103 | when every window token is an integer, nothing fails and every window id above `last_id` is fetched |
| `MailBoxModel.NewerThanFails` | mailbox.py:101-102 | the loop ends with an error exactly when some window token is not an integer |
| `MailBoxModel.NewerThanAppend` | mailbox.py:101-103 | ids are fetched in window order: over a numeric prefix followed by the rest, the fetches are those of the prefix followed by those of the rest |
| `MailBoxModel.StopsAtBadToken` | mailbox.py:101-102 | the first token `int()` rejects raises ValueError after the ids before it have been fetched, and no later id is fetched |
| `MailBoxModel.SubjectUids` | mailbox.py:96-103 | a non-'OK' search raises TypeError before anything is fetched; otherwise every fetched id lies in the page window of the tokens and above `last_id` |
| `MailBoxModel.FirstPageFetchesNothing` | mailbox.py:96-101 | with an 'OK' search, page 1 fetches nothing and raises nothing |
| `MailBoxModel.LatestUidsFetched` | mailbox.py:96-103 | for any UID list written as a SEARCH response, page 0 fetches, in order and without error, those UIDs of its window that lie above `last_id`: the window is the last COUNT_MAIL UIDs when there are at least that many, and otherwise the last `min(len, COUNT_MAIL - len)` UIDs; no ordering of the UIDs is assumed |
| `MailBoxModel.MailBox.constructor` | mailbox.py:20-22 | a new mailbox has the configured COUNT_MAIL and `last_id` 0 |
| `MailBoxModel.MailBox.GetMailSubject` | mailbox.py:96-103 | the ids the method fetches and the error it ends with are exactly those of the selection function above |
| `MailBoxModel.MailBox.FetchNewer` | mailbox.py:101-103 | the loop's fetches and error are exactly those of the watermark filter over the window |

## Left out

- Connection lifecycle (`__connect`, `__close_connection`, the `_connect_server` decorator, mailbox.py:24-46): network I/O. As written, the decorator returns before its close call, and for the generator `getMailSubject` it connects when the generator is created.
- `_selectFolder` (mailbox.py:63-71): a server call. Its failure path calls a method that does not exist. The model starts from the UID SEARCH response of an already selected folder.
- The UID SEARCH and UID FETCH requests themselves: network I/O. The search response becomes the parameters `status` and `line`, its first data line. A response whose data list is empty or holds `None` is not modelled.
- What each fetch yields (mailbox.py:103-113): UTF-8/Latin-1 decoding and header parsing are calls into Python's `email` library. The model stops at the sequence of UIDs that are fetched.
- Failures of a fetch itself: `MailBoxModel.Selection` assumes every fetch succeeds. In the source an exception during a fetch ends the generator, and no later window id is fetched. Examples are `data[0][1]` on `None` when a UID disappeared between search and fetch (mailbox.py:104), and a parsing error (mailbox.py:111-112).
- Laziness of the generator: the model computes the whole sequence a consumer would see when it drains the generator. It does not model a consumer that stops early. It also reads `last_id` once for the whole window: the source reads `self.last_id` again at every iteration, so a consumer that changes `last_id` between `next()` calls changes what later iterations fetch, and the model does not capture that.
- `__decoder`, `getMail` (mailbox.py:74-78, 116-144): MIME walking and header decoding in the `email` library.
- `uploadFile` (mailbox.py:146-161): a local file write.
- `getMailBox` (mailbox.py:163-168): reads environment variables; its only constant, COUNT_MAIL 3, is `Paging.DefaultCountMail`, used in `Paging.LatestPageOfTwo`.
- `UidSearch.ParseInt`: does not model `int()`'s stripping of surrounding whitespace, because the tokens it is applied to never contain any. It also accepts bodies of any length, whereas current CPython raises ValueError for a base-10 string of more than 4300 digits (`sys.get_int_max_str_digits()`).
