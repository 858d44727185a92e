/**
 * The UID SEARCH response as `getMailList` handles it: the first data line is a
 * space-separated list of UIDs (section 7.2.5 of RFC 3501; each UID is an
 * nz-number, section 9 of RFC 3501), split with Python's `bytes.split()`, and
 * each token later read back with Python's `int()`.
 */
module UidSearch {
  import opened Wrappers

  newtype byte = x: int | 0 <= x < 256

  /** One whitespace-free piece of the response line. */
  type Token = seq<byte>

  const SP: byte := 32
  const PLUS: byte := 43
  const MINUS: byte := 45
  const UNDERSCORE: byte := 95

  /** ASCII whitespace as `bytes.split()` sees it: space, \t, \n, \v, \f, \r. */
  predicate IsSpace(b: byte) {
    b == SP || 9 <= b <= 13
  }

  predicate IsDigit(b: byte) {
    48 <= b <= 57
  }

  /** A token `bytes.split()` can produce: non-empty and free of whitespace. */
  predicate IsWord(t: Token) {
    |t| > 0 && forall j :: 0 <= j < |t| ==> !IsSpace(t[j])
  }

  // ---------------------------------------------------------------- splitting

  /** Length of the leading run of non-whitespace bytes. */
  function WordLength(s: seq<byte>): (k: nat)
    ensures k <= |s|
    ensures forall j :: 0 <= j < k ==> !IsSpace(s[j])
    ensures k < |s| ==> IsSpace(s[k])
  {
    if s == [] || IsSpace(s[0]) then 0 else 1 + WordLength(s[1..])
  }

  /** `bytes.split()` with no separator: runs of whitespace separate, empty pieces are dropped. */
  function Split(s: seq<byte>): (r: seq<Token>)
    ensures forall j :: 0 <= j < |r| ==> IsWord(r[j])
    decreases |s|
  {
    if s == [] then []
    else if IsSpace(s[0]) then Split(s[1..])
    else
      var k := WordLength(s);
      [s[..k]] + Split(s[k..])
  }

  /** The bytes of `s` that are not whitespace, in order. */
  function Squeeze(s: seq<byte>): seq<byte> {
    if s == [] then [] else (if IsSpace(s[0]) then [] else [s[0]]) + Squeeze(s[1..])
  }

  function Concat(ts: seq<Token>): seq<byte> {
    if ts == [] then [] else ts[0] + Concat(ts[1..])
  }

  /** The tokens joined with single spaces, as a server writes the SEARCH response. */
  function Join(ts: seq<Token>): seq<byte> {
    if ts == [] then []
    else if |ts| == 1 then ts[0]
    else ts[0] + [SP] + Join(ts[1..])
  }

  lemma {:induction false} SqueezeAppend(t: seq<byte>, u: seq<byte>)
    requires forall j :: 0 <= j < |t| ==> !IsSpace(t[j])
    ensures Squeeze(t + u) == t + Squeeze(u)
  {
    if t != [] {
      assert (t + u)[0] == t[0] && !IsSpace(t[0]);
      assert (t + u)[1..] == t[1..] + u;
      SqueezeAppend(t[1..], u);
      assert t + Squeeze(u) == [t[0]] + (t[1..] + Squeeze(u));
    } else {
      assert t + u == u;
    }
  }

  /** Splitting loses nothing but whitespace and keeps the server's order. */
  lemma {:induction false} SplitKeepsOrder(s: seq<byte>)
    ensures Concat(Split(s)) == Squeeze(s)
    decreases |s|
  {
    if s == [] {
    } else if IsSpace(s[0]) {
      SplitKeepsOrder(s[1..]);
    } else {
      var k := WordLength(s);
      SplitKeepsOrder(s[k..]);
      assert s == s[..k] + s[k..];
      SqueezeAppend(s[..k], s[k..]);
      assert Split(s)[1..] == Split(s[k..]);
    }
  }

  lemma {:induction false} WordLengthOfWord(t: Token, u: seq<byte>)
    requires IsWord(t)
    requires u == [] || IsSpace(u[0])
    ensures WordLength(t + u) == |t|
    decreases |t|
  {
    assert (t + u)[1..] == t[1..] + u;
    if |t| > 1 {
      WordLengthOfWord(t[1..], u);
    } else {
      assert t[1..] + u == u;
    }
  }

  /** Splitting a space-joined list of words gives the words back. */
  lemma {:induction false} SplitJoin(ts: seq<Token>)
    requires forall j :: 0 <= j < |ts| ==> IsWord(ts[j])
    ensures Split(Join(ts)) == ts
    decreases |ts|
  {
    if ts == [] {
    } else if |ts| == 1 {
      WordLengthOfWord(ts[0], []);
      assert ts[0] + [] == ts[0];
      assert ts[0][|ts[0]|..] == [];
    } else {
      var s := Join(ts);
      var rest := [SP] + Join(ts[1..]);
      assert s == ts[0] + rest;
      WordLengthOfWord(ts[0], rest);
      assert s[..|ts[0]|] == ts[0];
      assert s[|ts[0]|..] == rest;
      assert rest[1..] == Join(ts[1..]);
      SplitJoin(ts[1..]);
      assert ts == [ts[0]] + ts[1..];
    }
  }

  // ------------------------------------------------------- reading integers

  /**
   * The base-10 body `int()` accepts, read from the right: digits, each pair of
   * neighbours optionally separated by one underscore, leading zeros allowed.
   * None when the body is malformed.
   */
  function Unsigned(t: seq<byte>): (r: Option<nat>)
    decreases |t|
  {
    if t == [] || !IsDigit(t[|t| - 1]) then None
    else
      var d := t[|t| - 1] as int - 48;
      var front := t[..|t| - 1];
      if front == [] then Some(d)
      else
        var more := if front[|front| - 1] == UNDERSCORE then front[..|front| - 1] else front;
        match Unsigned(more)
        case None => None
        case Some(v) => Some(v * 10 + d)
  }

  /**
   * Python's `int(t)` on a whitespace-free bytes token: an optional sign, then
   * the base-10 body. Anything else raises ValueError, modelled as None.
   */
  function ParseInt(t: Token): (r: Option<int>)
    ensures r.Some? ==> |t| > 0 && IsDigit(t[|t| - 1])
    ensures r.Some? && r.value < 0 ==> |t| > 0 && t[0] == MINUS
  {
    if |t| > 0 && (t[0] == PLUS || t[0] == MINUS) then
      match Unsigned(t[1..])
      case None => None
      case Some(v) => Some(if t[0] == MINUS then -(v as int) else v)
    else
      match Unsigned(t)
      case None => None
      case Some(v) => Some(v)
  }

  function Digit(d: nat): byte
    requires d < 10
  {
    (48 + d) as byte
  }

  /** The shortest decimal representation of `n`, as a server writes a UID. */
  function Decimal(n: nat): (t: Token)
    ensures |t| > 0
    ensures forall j :: 0 <= j < |t| ==> IsDigit(t[j])
  {
    if n < 10 then [Digit(n)] else Decimal(n / 10) + [Digit(n % 10)]
  }

  /** `int()` reads a decimal UID back as the number it was written from. */
  lemma {:induction false} ParseDecimal(n: nat)
    ensures Unsigned(Decimal(n)) == Some(n)
    ensures ParseInt(Decimal(n)) == Some(n)
  {
    var t := Decimal(n);
    if n >= 10 {
      ParseDecimal(n / 10);
      assert t[..|t| - 1] == Decimal(n / 10);
    }
  }

  /** Only digits and underscores occur in a body `int()` accepts. */
  lemma {:induction false} UnsignedBytes(t: seq<byte>, j: nat)
    requires Unsigned(t).Some? && j < |t|
    ensures IsDigit(t[j]) || t[j] == UNDERSCORE
    decreases |t|
  {
    var front := t[..|t| - 1];
    if j < |front| {
      var more := if front[|front| - 1] == UNDERSCORE then front[..|front| - 1] else front;
      if j < |more| {
        UnsignedBytes(more, j);
      }
    }
  }

  /** A byte outside digits, underscores and a leading sign makes `int()` fail. */
  lemma NotANumber(t: Token, j: nat)
    requires j < |t|
    requires !IsDigit(t[j]) && t[j] != UNDERSCORE
    requires j > 0 || (t[0] != PLUS && t[0] != MINUS)
    ensures ParseInt(t) == None
  {
    if |t| > 0 && (t[0] == PLUS || t[0] == MINUS) {
      if Unsigned(t[1..]).Some? {
        assert t[1..][j - 1] == t[j];
        UnsignedBytes(t[1..], j - 1);
      }
    } else if Unsigned(t).Some? {
      UnsignedBytes(t, j);
    }
  }

  // -------------------------------------------------------------- the search

  /**
   * `getMailList`: the status and first data line of the UID SEARCH response
   * become the list of UID tokens when the status is 'OK', and None otherwise.
   */
  function GetMailList(status: string, line: seq<byte>): (r: Option<seq<Token>>)
    ensures status == "OK" <==> r.Some?
    ensures r.Some? ==> forall j :: 0 <= j < |r.value| ==> IsWord(r.value[j])
    ensures r.Some? ==> Concat(r.value) == Squeeze(line)
  {
    if status == "OK" then
      SplitKeepsOrder(line);
      Some(Split(line))
    else None
  }

  function Decimals(uids: seq<nat>): (ts: seq<Token>)
    ensures |ts| == |uids|
  {
    if uids == [] then [] else [Decimal(uids[0])] + Decimals(uids[1..])
  }

  /** The response line a server sends for these UIDs. */
  function SearchLine(uids: seq<nat>): seq<byte> {
    Join(Decimals(uids))
  }

  /** The tokens of a well-formed SEARCH response are the UIDs, each read back by `int()`. */
  lemma SearchRoundTrip(uids: seq<nat>)
    ensures GetMailList("OK", SearchLine(uids)) == Some(Decimals(uids))
    ensures forall j :: 0 <= j < |uids| ==> ParseInt(Decimals(uids)[j]) == Some(uids[j])
  {
    DecimalsAt(uids);
    SplitJoin(Decimals(uids));
    forall j | 0 <= j < |uids| ensures ParseInt(Decimals(uids)[j]) == Some(uids[j]) {
      ParseDecimal(uids[j]);
    }
  }

  lemma {:induction false} DecimalsAt(uids: seq<nat>)
    ensures forall j :: 0 <= j < |uids| ==> Decimals(uids)[j] == Decimal(uids[j])
  {
    if uids != [] {
      DecimalsAt(uids[1..]);
    }
  }
}
