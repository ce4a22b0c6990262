/**
 * Inline tag tokens of the module search field.  The field's raw text is
 * scanned for the global regular expression `/tag:\w+ /g`; every match
 * becomes a chip, and the text box shows the raw text with the matches
 * removed and trimmed.
 */
module TagSearch {
  import opened Wrappers
  import opened JsString

  const TagPrefix: string := "tag:"

  /** `\w` in a regular expression without the `u` flag. */
  predicate IsWordChar(c: char) {
    ('a' <= c <= 'z') || ('A' <= c <= 'Z') || ('0' <= c <= '9') || c == '_'
  }

  /** The literal `tag:`, that is `TagPrefix`, starts at index `i`. */
  predicate PrefixAt(s: string, i: nat) {
    i + 4 <= |s| && s[i] == 't' && s[i + 1] == 'a' && s[i + 2] == 'g' && s[i + 3] == ':'
  }

  /** `PrefixAt` spells out `TagPrefix` character by character. */
  lemma {:induction false} PrefixAtIsTagPrefix(s: string, i: nat)
    ensures PrefixAt(s, i) <==> OccursAt(s, TagPrefix, i)
  {
    if i + 4 <= |s| {
      var w := s[i..i + 4];
      assert w[0] == s[i] && w[1] == s[i + 1] && w[2] == s[i + 2] && w[3] == s[i + 3];
      assert PrefixAt(s, i) ==> w == TagPrefix;
    }
  }

  /**
   * A whole string matched by `tag:\w+ `: the prefix, one or more word
   * characters, then exactly one space.  Because a space is not a word
   * character, at most one match can start at a given index.
   */
  predicate IsTagToken(t: string) {
    |t| >= 6 && PrefixAt(t, 0) && t[|t| - 1] == ' ' && AllWordChars(t[4..|t| - 1])
  }

  predicate AllWordChars(w: string)
    decreases |w|
  {
    w == [] || (IsWordChar(w[0]) && AllWordChars(w[1..]))
  }

  lemma {:induction false} AllWordCharsIn(s: string, a: nat, b: nat)
    requires a <= b <= |s|
    ensures AllWordChars(s[a..b]) <==> forall k :: a <= k < b ==> IsWordChar(s[k])
    decreases b - a
  {
    if a < b {
      assert s[a..b][0] == s[a];
      assert s[a..b][1..] == s[a + 1..b];
      AllWordCharsIn(s, a + 1, b);
    }
  }

  /** The number of consecutive word characters starting at `i` (the greedy `\w+`). */
  function WordRun(s: string, i: nat): (n: nat)
    requires i <= |s|
    ensures i + n <= |s|
    decreases |s| - i
  {
    if i < |s| && IsWordChar(s[i]) then 1 + WordRun(s, i + 1) else 0
  }

  /** The run is made of word characters and is not followed by one: `\w+` is greedy. */
  lemma {:induction false} WordRunIsMaximal(s: string, i: nat)
    requires i <= |s|
    ensures forall k :: i <= k < i + WordRun(s, i) ==> IsWordChar(s[k])
    ensures i + WordRun(s, i) == |s| || !IsWordChar(s[i + WordRun(s, i)])
    decreases |s| - i
  {
    if i < |s| && IsWordChar(s[i]) {
      WordRunIsMaximal(s, i + 1);
    }
  }

  /** The length of the match of `tag:\w+ ` that starts at index `i`, if there is one. */
  function MatchAt(s: string, i: nat): (r: Option<nat>)
    requires i <= |s|
    ensures r.Some? ==> 6 <= r.value && i + r.value <= |s|
  {
    if PrefixAt(s, i) then
      var n := WordRun(s, i + 4);
      if 0 < n && i + 4 + n < |s| && s[i + 4 + n] == ' ' then Some(n + 5) else None
    else None
  }

  /** The matcher at one index accepts exactly the tag tokens that start there. */
  lemma {:induction false} MatchAtExact(s: string, i: nat)
    requires i <= |s|
    ensures forall j :: i <= j <= |s| ==> (IsTagToken(s[i..j]) <==> MatchAt(s, i) == Some(j - i))
  {
    forall j | i <= j <= |s|
      ensures IsTagToken(s[i..j]) <==> MatchAt(s, i) == Some(j - i)
    {
      MatchAtExactTo(s, i, j);
    }
  }

  lemma {:induction false} MatchAtExactTo(s: string, i: nat, j: nat)
    requires i <= j <= |s|
    ensures IsTagToken(s[i..j]) <==> MatchAt(s, i) == Some(j - i)
  {
    var t := s[i..j];
    if i + 6 <= j {
      AllWordCharsIn(t, 4, |t| - 1);
      assert t[0] == s[i] && t[1] == s[i + 1] && t[2] == s[i + 2] && t[3] == s[i + 3];
      assert t[|t| - 1] == s[j - 1];
      assert forall k :: 4 <= k < |t| - 1 ==> t[k] == s[i + k];
      if PrefixAt(s, i) {
        WordRunIsMaximal(s, i + 4);
        var w := WordRun(s, i + 4);
        if IsTagToken(t) {
          assert forall k :: i + 4 <= k < j - 1 ==> IsWordChar(s[k]);
          assert !IsWordChar(s[j - 1]);
          assert i + 4 + w == j - 1;
        }
      }
    }
  }

  /** No tag token starts at index `q`. */
  ghost predicate NoTokenAt(s: string, q: nat) {
    forall j :: q <= j <= |s| ==> !IsTagToken(s[q..j])
  }

  lemma {:induction false} NoTokenAtIff(s: string, q: nat)
    requires q <= |s|
    ensures NoTokenAt(s, q) <==> MatchAt(s, q).None?
  {
    MatchAtExact(s, q);
    if MatchAt(s, q).Some? {
      assert IsTagToken(s[q..q + MatchAt(s, q).value]);
    }
  }

  /** One match of the global scan: where it starts and the text it matched. */
  datatype Match = Match(pos: nat, token: string) {
    function End(): nat { pos + |token| }
  }

  /** Index `q` lies inside one of the matches. */
  predicate Covered(ms: seq<Match>, q: nat) {
    |ms| > 0 && (ms[0].pos <= q < ms[0].End() || Covered(ms[1..], q))
  }

  /** Matches that all start at or after `b` cover nothing before `b`. */
  lemma {:induction false} CoveredAtOrAfter(ms: seq<Match>, q: nat, b: nat)
    requires forall k :: 0 <= k < |ms| ==> b <= ms[k].pos
    requires Covered(ms, q)
    ensures b <= q
  {
    if !(ms[0].pos <= q < ms[0].End()) {
      CoveredAtOrAfter(ms[1..], q, b);
    }
  }

  /** `m` is a tag token that occurs in `s` at its position, at or after `from`. */
  ghost predicate FoundAfter(s: string, from: nat, m: Match) {
    from <= m.pos && m.End() <= |s| && s[m.pos..m.End()] == m.token && IsTagToken(m.token)
  }

  /**
   * Every element is a tag token found in `s` at its position, at or after
   * `from`, and the elements are in increasing, non-overlapping order.
   */
  ghost predicate IsTokenList(s: string, from: nat, ms: seq<Match>) {
    && (forall k :: 0 <= k < |ms| ==> FoundAfter(s, from, ms[k]))
    && (forall k :: 0 <= k < |ms| - 1 ==> ms[k].End() <= ms[k + 1].pos)
  }

  /**
   * The leftmost, non-overlapping matches from `from` on: a token list such
   * that no tag token starts at an index from `from` on that it leaves uncovered.
   */
  ghost predicate IsMatchList(s: string, from: nat, ms: seq<Match>) {
    && IsTokenList(s, from, ms)
    && forall q :: from <= q <= |s| && !Covered(ms, q) ==> NoTokenAt(s, q)
  }

  /** The scan `String.prototype.match` runs for a global regular expression, from index `from`. */
  function Scan(s: string, from: nat): seq<Match>
    requires from <= |s|
    decreases |s| - from
  {
    if from == |s| then []
    else match MatchAt(s, from)
      case Some(n) => [Match(from, s[from..from + n])] + Scan(s, from + n)
      case None => Scan(s, from + 1)
  }

  function Tokens(ms: seq<Match>): (ts: seq<string>)
    ensures |ts| == |ms| && forall k :: 0 <= k < |ms| ==> ts[k] == ms[k].token
  {
    if ms == [] then [] else [ms[0].token] + Tokens(ms[1..])
  }

  /** `search.match(/tag:\w+ /g)`, with "no match" (null) as the empty sequence. */
  function Tags(s: string): (ts: seq<string>)
    ensures 6 * |ts| <= |s|
  {
    ScanLength(s, 0);
    Tokens(Scan(s, 0))
  }

  /** Every match is at least six characters long and matches do not overlap. */
  lemma {:induction false} ScanLength(s: string, from: nat)
    requires from <= |s|
    ensures 6 * |Scan(s, from)| <= |s| - from
    decreases |s| - from
  {
    if from < |s| {
      match MatchAt(s, from)
      case Some(n) =>
        ScanLength(s, from + n);
        ScanSome(s, from, n);
      case None =>
        ScanLength(s, from + 1);
        ScanNone(s, from);
    }
  }

  /** Every chip is a tag token, and a text with a chip is at least as long as one. */
  lemma {:induction false} TagsAreTokens(s: string)
    ensures forall k :: 0 <= k < |Tags(s)| ==> IsTagToken(Tags(s)[k])
    ensures Tags(s) != [] ==> 6 <= |s|
  {
    ScanIsTokenList(s, 0);
    var ms := Scan(s, 0);
    assert forall k :: 0 <= k < |ms| ==> FoundAfter(s, 0, ms[k]);
  }

  lemma {:induction false} ScanSome(s: string, from: nat, n: nat)
    requires from < |s| && MatchAt(s, from) == Some(n)
    ensures Scan(s, from) == [Match(from, s[from..from + n])] + Scan(s, from + n)
  {
  }

  lemma {:induction false} ScanNone(s: string, from: nat)
    requires from < |s| && MatchAt(s, from).None?
    ensures Scan(s, from) == Scan(s, from + 1)
  {
  }

  /** A token found at `from`, in front of a token list from its end, makes a token list from `from`. */
  lemma {:induction false} TokenListCons(s: string, from: nat, m: Match, rest: seq<Match>)
    requires FoundAfter(s, from, m) && IsTokenList(s, m.End(), rest)
    ensures IsTokenList(s, from, [m] + rest)
  {
    ConsFound(s, from, m, rest);
    ConsOrdered(s, m, rest);
  }

  lemma {:induction false} ConsFound(s: string, from: nat, m: Match, rest: seq<Match>)
    requires FoundAfter(s, from, m) && from <= m.End()
    requires forall k :: 0 <= k < |rest| ==> FoundAfter(s, m.End(), rest[k])
    ensures forall k :: 0 <= k < |[m] + rest| ==> FoundAfter(s, from, ([m] + rest)[k])
  {
    var ms := [m] + rest;
    forall k | 0 <= k < |ms|
      ensures FoundAfter(s, from, ms[k])
    {
      if k > 0 {
        assert ms[k] == rest[k - 1];
        FoundEarlier(s, from, m.End(), rest[k - 1]);
      }
    }
  }

  lemma {:induction false} ConsOrdered(s: string, m: Match, rest: seq<Match>)
    requires rest != [] ==> m.End() <= rest[0].pos
    requires forall k :: 0 <= k < |rest| - 1 ==> rest[k].End() <= rest[k + 1].pos
    ensures forall k :: 0 <= k < |[m] + rest| - 1 ==> ([m] + rest)[k].End() <= ([m] + rest)[k + 1].pos
  {
    var ms := [m] + rest;
    forall k | 0 <= k < |ms| - 1
      ensures ms[k].End() <= ms[k + 1].pos
    {
      if k > 0 {
        assert ms[k] == rest[k - 1] && ms[k + 1] == rest[k];
      }
    }
  }

  lemma {:induction false} FoundEarlier(s: string, a: nat, b: nat, m: Match)
    requires a <= b && FoundAfter(s, b, m)
    ensures FoundAfter(s, a, m)
  {
  }

  lemma {:induction false} TokenListFrom(s: string, from: nat, ms: seq<Match>)
    requires IsTokenList(s, from + 1, ms)
    ensures IsTokenList(s, from, ms)
  {
    forall k | 0 <= k < |ms|
      ensures FoundAfter(s, from, ms[k])
    {
      assert FoundAfter(s, from + 1, ms[k]);
    }
  }

  /** The match the matcher reports at `from` is a tag token found there. */
  lemma {:induction false} MatchAtFound(s: string, from: nat, n: nat)
    requires from <= |s| && MatchAt(s, from) == Some(n)
    ensures FoundAfter(s, from, Match(from, s[from..from + n]))
  {
    MatchAtExact(s, from);
    assert IsTagToken(s[from..from + n]);
  }

  /** Every match the scan reports is a tag token at its place, in increasing order. */
  lemma {:induction false} ScanIsTokenList(s: string, from: nat)
    requires from <= |s|
    ensures IsTokenList(s, from, Scan(s, from))
    decreases |s| - from
  {
    if from < |s| {
      match MatchAt(s, from)
      case Some(n) =>
        var m := Match(from, s[from..from + n]);
        var rest := Scan(s, from + n);
        assert IsTokenList(s, from, [m] + rest) by {
          ScanIsTokenList(s, from + n);
          MatchAtFound(s, from, n);
          TokenListCons(s, from, m, rest);
        }
        ScanSome(s, from, n);
      case None =>
        var rest := Scan(s, from + 1);
        assert IsTokenList(s, from, rest) by {
          ScanIsTokenList(s, from + 1);
          TokenListFrom(s, from, rest);
        }
        ScanNone(s, from);
    }
  }

  lemma {:induction false} Ordered(s: string, from: nat, ms: seq<Match>, k: nat, l: nat)
    requires IsTokenList(s, from, ms) && k < l < |ms|
    ensures ms[k].End() <= ms[l].pos
    decreases l - k
  {
    if l > k + 1 {
      Ordered(s, from, ms, k, l - 1);
    }
  }

  /** Putting the match at `from` in front of a match list from its end gives a match list from `from`. */
  lemma {:induction false} MatchListCons(s: string, from: nat, n: nat, rest: seq<Match>)
    requires from < |s| && MatchAt(s, from) == Some(n)
    requires IsMatchList(s, from + n, rest)
    requires IsTokenList(s, from, [Match(from, s[from..from + n])] + rest)
    ensures IsMatchList(s, from, [Match(from, s[from..from + n])] + rest)
  {
    var ms := [Match(from, s[from..from + n])] + rest;
    assert ms[1..] == rest;
    forall q | from <= q <= |s| && !Covered(ms, q)
      ensures NoTokenAt(s, q)
    {
      assert !Covered(rest, q);
    }
  }

  /** A match list from `from + 1` is one from `from` when no token starts at `from`. */
  lemma {:induction false} MatchListFrom(s: string, from: nat, ms: seq<Match>)
    requires IsMatchList(s, from + 1, ms) && IsTokenList(s, from, ms) && NoTokenAt(s, from)
    ensures IsMatchList(s, from, ms)
  {
  }

  lemma {:induction false} ScanIsMatchList(s: string, from: nat)
    requires from <= |s|
    ensures IsMatchList(s, from, Scan(s, from))
    decreases |s| - from
  {
    if from == |s| {
      assert IsMatchList(s, from, Scan(s, from)) by {
        ScanIsTokenList(s, from);
        assert NoTokenAt(s, from);
      }
    } else {
      match MatchAt(s, from)
      case Some(n) =>
        assert IsMatchList(s, from, Scan(s, from)) by {
          ScanIsTokenList(s, from);
          ScanIsMatchList(s, from + n);
          ScanSome(s, from, n);
          MatchListCons(s, from, n, Scan(s, from + n));
        }
      case None =>
        assert IsMatchList(s, from, Scan(s, from)) by {
          ScanIsTokenList(s, from);
          NoTokenAtIff(s, from);
          ScanIsMatchList(s, from + 1);
          ScanNone(s, from);
          MatchListFrom(s, from, Scan(s, from));
        }
    }
  }

  /** A match list from an index where a token starts begins with that token. */
  lemma {:induction false} MatchListHead(s: string, from: nat, n: nat, ms: seq<Match>)
    requires from < |s| && MatchAt(s, from) == Some(n)
    requires IsMatchList(s, from, ms)
    ensures |ms| > 0 && ms[0] == Match(from, s[from..from + n])
    ensures IsMatchList(s, from + n, ms[1..])
  {
    MatchListFirst(s, from, n, ms);
    MatchListRest(s, from, ms);
  }

  /** The token at `from` must be in the list, and it must come first. */
  lemma {:induction false} MatchListFirst(s: string, from: nat, n: nat, ms: seq<Match>)
    requires from < |s| && MatchAt(s, from) == Some(n)
    requires IsMatchList(s, from, ms)
    ensures |ms| > 0 && ms[0] == Match(from, s[from..from + n])
  {
    assert Covered(ms, from) by {
      NoTokenAtIff(s, from);
    }
    assert FoundAfter(s, from, ms[0]);
    if !(ms[0].pos <= from < ms[0].End()) {
      OrderedAfterFirst(s, from, ms);
      CoveredAtOrAfter(ms[1..], from, ms[0].End());
    }
    assert IsTagToken(s[from..ms[0].End()]);
    MatchAtExact(s, from);
  }

  lemma {:induction false} OrderedAfterFirst(s: string, from: nat, ms: seq<Match>)
    requires IsTokenList(s, from, ms) && |ms| > 0
    ensures forall k :: 0 <= k < |ms[1..]| ==> ms[0].End() <= ms[1..][k].pos
  {
    var rest := ms[1..];
    forall k | 0 <= k < |rest|
      ensures ms[0].End() <= rest[k].pos
    {
      Ordered(s, from, ms, 0, k + 1);
    }
  }

  /** Past its first token, a match list is a match list from that token's end. */
  lemma {:induction false} MatchListRest(s: string, from: nat, ms: seq<Match>)
    requires IsMatchList(s, from, ms) && |ms| > 0
    ensures IsMatchList(s, ms[0].End(), ms[1..])
  {
    var rest := ms[1..];
    OrderedAfterFirst(s, from, ms);
    forall k | 0 <= k < |rest|
      ensures FoundAfter(s, ms[0].End(), rest[k])
    {
      assert FoundAfter(s, from, ms[k + 1]);
    }
    forall k | 0 <= k < |rest| - 1
      ensures rest[k].End() <= rest[k + 1].pos
    {
      assert ms[k + 1].End() <= ms[k + 2].pos;
    }
    forall q | ms[0].End() <= q <= |s| && !Covered(rest, q)
      ensures NoTokenAt(s, q)
    {
      assert !Covered(ms, q);
    }
  }

  /** A match list from an index where no token starts is one from the next index. */
  lemma {:induction false} MatchListSkip(s: string, from: nat, ms: seq<Match>)
    requires from < |s| && MatchAt(s, from).None?
    requires IsMatchList(s, from, ms)
    ensures IsMatchList(s, from + 1, ms)
  {
    MatchAtExact(s, from);
    forall k | 0 <= k < |ms|
      ensures from + 1 <= ms[k].pos
    {
      assert FoundAfter(s, from, ms[k]);
    }
  }

  lemma {:induction false} MatchListIsScan(s: string, from: nat, ms: seq<Match>)
    requires from <= |s| && IsMatchList(s, from, ms)
    ensures ms == Scan(s, from)
    decreases |s| - from
  {
    if from == |s| {
      MatchListAtEnd(s, ms);
    } else {
      match MatchAt(s, from)
      case Some(n) =>
        assert ms == Scan(s, from) by {
          MatchListHead(s, from, n, ms);
          MatchListIsScan(s, from + n, ms[1..]);
          ScanCons(s, from, n, ms);
        }
      case None =>
        assert ms == Scan(s, from) by {
          MatchListSkip(s, from, ms);
          MatchListIsScan(s, from + 1, ms);
          ScanNone(s, from);
        }
    }
  }

  lemma {:induction false} ScanCons(s: string, from: nat, n: nat, ms: seq<Match>)
    requires from < |s| && MatchAt(s, from) == Some(n)
    requires |ms| > 0 && ms[0] == Match(from, s[from..from + n]) && ms[1..] == Scan(s, from + n)
    ensures ms == Scan(s, from)
  {
    ScanSome(s, from, n);
    assert ms == [ms[0]] + ms[1..];
  }

  /** No token fits after the end of the text. */
  lemma {:induction false} MatchListAtEnd(s: string, ms: seq<Match>)
    requires IsMatchList(s, |s|, ms)
    ensures ms == []
  {
    assert |ms| > 0 ==> FoundAfter(s, |s|, ms[0]);
  }

  /**
   * The scan yields exactly the leftmost, non-overlapping tag tokens: it is a
   * match list, and it is the only one.
   */
  lemma {:induction false} ScanIsTheGlobalMatch(s: string, from: nat, ms: seq<Match>)
    requires from <= |s|
    ensures IsMatchList(s, from, ms) <==> ms == Scan(s, from)
  {
    ScanIsMatchList(s, from);
    if IsMatchList(s, from, ms) {
      MatchListIsScan(s, from, ms);
    }
  }

  /** The raw text has chips exactly when some substring of it is a tag token. */
  lemma {:induction false} TagsEmptyIff(s: string)
    ensures Tags(s) == [] <==> forall i, j :: 0 <= i <= j <= |s| ==> !IsTagToken(s[i..j])
  {
    var ms := Scan(s, 0);
    ScanIsMatchList(s, 0);
    if ms != [] {
      assert IsTagToken(s[ms[0].pos..ms[0].End()]);
      assert Tags(s)[0] == ms[0].token;
    } else {
      forall i, j | 0 <= i <= j <= |s|
        ensures !IsTagToken(s[i..j])
      {
        assert !Covered(ms, i);
        assert NoTokenAt(s, i);
      }
    }
  }

  function Shifted(ms: seq<Match>, d: nat): seq<Match> {
    if ms == [] then [] else [Match(ms[0].pos + d, ms[0].token)] + Shifted(ms[1..], d)
  }

  lemma {:induction false} TokensShifted(ms: seq<Match>, d: nat)
    ensures Tokens(Shifted(ms, d)) == Tokens(ms)
  {
    if ms != [] {
      TokensShifted(ms[1..], d);
    }
  }

  /** `r` is what follows the first `d` characters of `s`. */
  predicate SuffixFrom(s: string, d: nat, r: string) {
    d <= |s| && s[d..] == r
  }

  lemma {:induction false} SliceShift(s: string, d: nat, r: string, i: nat, j: nat)
    requires SuffixFrom(s, d, r) && i <= j <= |r|
    ensures s[d + i..d + j] == r[i..j]
  {
    var a, b := s[d + i..d + j], r[i..j];
    forall k | 0 <= k < |a|
      ensures a[k] == b[k]
    {
      assert b[k] == r[i + k] == s[d..][i + k];
    }
    assert a == b;
  }

  /** The matcher only looks forward, so what precedes index `d` does not change what matches after it. */
  lemma {:induction false} MatchAtShift(s: string, d: nat, r: string, i: nat)
    requires SuffixFrom(s, d, r) && i <= |r|
    ensures MatchAt(s, d + i) == MatchAt(r, i)
  {
    MatchAtExact(s, d + i);
    MatchAtExact(r, i);
    if MatchAt(r, i).Some? {
      SliceShift(s, d, r, i, i + MatchAt(r, i).value);
    }
    if MatchAt(s, d + i).Some? {
      SliceShift(s, d, r, i, i + MatchAt(s, d + i).value);
    }
  }

  lemma {:induction false} ShiftCons(m: Match, ms: seq<Match>, d: nat)
    ensures Shifted([m] + ms, d) == [Match(m.pos + d, m.token)] + Shifted(ms, d)
  {
    assert ([m] + ms)[1..] == ms;
  }

  /** Where the scan resumes after looking at index `i`. */
  function Next(r: string, i: nat): (j: nat)
    requires i < |r|
    ensures i < j <= |r|
  {
    match MatchAt(r, i)
    case Some(n) => i + n
    case None => i + 1
  }

  lemma {:induction false} ScanSomeToken(s: string, from: nat, n: nat, t: string)
    requires from < |s| && MatchAt(s, from) == Some(n)
    requires from + n <= |s| && s[from..from + n] == t
    ensures Scan(s, from) == [Match(from, t)] + Scan(s, from + n)
  {
    ScanSome(s, from, n);
  }

  lemma {:induction false} ShiftPrepend(x: seq<Match>, y: seq<Match>, m: Match, d: nat)
    requires x == Shifted(y, d)
    ensures [Match(m.pos + d, m.token)] + x == Shifted([m] + y, d)
  {
    ShiftCons(m, y, d);
  }

  lemma {:induction false} ScanShiftHead(s: string, d: nat, r: string, i: nat, n: nat)
    requires SuffixFrom(s, d, r) && i < |r| && MatchAt(r, i) == Some(n)
    ensures Scan(s, d + i) == [Match(d + i, r[i..i + n])] + Scan(s, d + i + n)
  {
    HeadFacts(s, d, r, i, n);
    ScanSomeToken(s, d + i, n, r[i..i + n]);
  }

  lemma {:induction false} HeadFacts(s: string, d: nat, r: string, i: nat, n: nat)
    requires SuffixFrom(s, d, r) && i < |r| && MatchAt(r, i) == Some(n)
    ensures d + i < |s| && MatchAt(s, d + i) == Some(n) && d + i + n <= |s| && s[d + i..d + i + n] == r[i..i + n]
  {
    MatchAtShift(s, d, r, i);
    SliceShift(s, d, r, i, i + n);
  }

  lemma {:induction false} ScanShiftMatch(s: string, d: nat, r: string, i: nat, n: nat)
    requires SuffixFrom(s, d, r) && i < |r| && MatchAt(r, i) == Some(n)
    requires Scan(s, d + i + n) == Shifted(Scan(r, i + n), d)
    ensures Scan(s, d + i) == Shifted(Scan(r, i), d)
  {
    ScanShiftHead(s, d, r, i, n);
    ScanSome(r, i, n);
    ShiftPrepend(Scan(s, d + i + n), Scan(r, i + n), Match(i, r[i..i + n]), d);
  }

  lemma {:induction false} ScanShiftSkip(s: string, d: nat, r: string, i: nat)
    requires SuffixFrom(s, d, r) && i < |r| && MatchAt(r, i).None?
    requires Scan(s, d + i + 1) == Shifted(Scan(r, i + 1), d)
    ensures Scan(s, d + i) == Shifted(Scan(r, i), d)
  {
    MatchAtShift(s, d, r, i);
    ScanNone(r, i);
    ScanNone(s, d + i);
  }

  lemma {:induction false} ScanShiftStep(s: string, d: nat, r: string, i: nat)
    requires SuffixFrom(s, d, r) && i < |r|
    requires Scan(s, d + Next(r, i)) == Shifted(Scan(r, Next(r, i)), d)
    ensures Scan(s, d + i) == Shifted(Scan(r, i), d)
  {
    match MatchAt(r, i)
    case Some(n) =>
      assert Next(r, i) == i + n;
      ScanShiftMatch(s, d, r, i, n);
    case None =>
      assert Next(r, i) == i + 1;
      ScanShiftSkip(s, d, r, i);
  }

  lemma {:induction false} ScanShiftFrom(s: string, d: nat, r: string, i: nat)
    requires SuffixFrom(s, d, r) && i <= |r|
    ensures Scan(s, d + i) == Shifted(Scan(r, i), d)
    decreases |r| - i
  {
    if i < |r| {
      ScanShiftFrom(s, d, r, Next(r, i));
      ScanShiftStep(s, d, r, i);
    }
  }

  /** Scanning `r` behind a prefix finds the same matches, moved by the prefix's length. */
  lemma {:induction false} ScanShift(p: string, r: string, i: nat)
    requires i <= |r|
    ensures Scan(p + r, |p| + i) == Shifted(Scan(r, i), |p|)
  {
    assert (p + r)[|p|..] == r;
    ScanShiftFrom(p + r, |p|, r, i);
  }

  /** A tag token at the front of the text is the first chip, and the rest is scanned as if alone. */
  lemma {:induction false} TagsAfterToken(t: string, r: string)
    requires IsTagToken(t)
    ensures Tags(t + r) == [t] + Tags(r)
  {
    var after := Scan(t + r, |t|);
    assert Scan(t + r, 0) == [Match(0, t)] + after by {
      MatchAtFrontToken(t, r);
      ScanSomeToken(t + r, 0, |t|, t);
    }
    assert after == Shifted(Scan(r, 0), |t|) by {
      ScanShift(t, r, 0);
    }
    TokensShifted(Scan(r, 0), |t|);
    TokensCons(Match(0, t), after);
  }

  lemma {:induction false} MatchAtFrontToken(t: string, r: string)
    requires IsTagToken(t)
    ensures MatchAt(t + r, 0) == Some(|t|) && (t + r)[0..|t|] == t
  {
    MatchAtExact(t + r, 0);
    assert (t + r)[0..|t|] == t;
  }

  lemma {:induction false} TokensCons(m: Match, ms: seq<Match>)
    ensures Tokens([m] + ms) == [m.token] + Tokens(ms)
  {
    assert ([m] + ms)[1..] == ms;
  }

  /** A leading space starts no token. */
  lemma {:induction false} TagsAfterSpace(r: string)
    ensures Tags(" " + r) == Tags(r)
  {
    assert (" " + r)[0] == ' ';
    assert MatchAt(" " + r, 0).None?;
    ScanShift(" ", r, 0);
    TokensShifted(Scan(r, 0), 1);
  }

  /** `Array.prototype.join(sep)`. */
  function Join(ts: seq<string>, sep: string): (r: string)
    ensures ts != [] ==> |ts[0]| <= |r| && r[..|ts[0]|] == ts[0]
  {
    if ts == [] then ""
    else if |ts| == 1 then ts[0]
    else ts[0] + sep + Join(ts[1..], sep)
  }

  /**
   * Re-scanning the chips joined by spaces in front of newly typed text
   * finds the same chips again, followed by the tokens of the typed text.
   */
  lemma {:induction false} TagsOfJoin(ts: seq<string>, v: string)
    requires forall k :: 0 <= k < |ts| ==> IsTagToken(ts[k])
    ensures Tags(Join(ts, " ") + v) == ts + Tags(v)
  {
    if ts == [] {
      assert Join(ts, " ") + v == v;
    } else if |ts| == 1 {
      TagsAfterToken(ts[0], v);
      assert ts == [ts[0]];
    } else {
      TagsOfJoin(ts[1..], v);
      TagsOfJoinStep(ts[0], ts[1..], v);
      assert [ts[0]] + ts[1..] == ts;
    }
  }

  /** One more chip in front of the joined chips is found first, and the rest are found as before. */
  lemma {:induction false} TagsOfJoinStep(t: string, ts: seq<string>, v: string)
    requires IsTagToken(t) && ts != []
    requires Tags(Join(ts, " ") + v) == ts + Tags(v)
    ensures Tags(Join([t] + ts, " ") + v) == [t] + ts + Tags(v)
  {
    JoinCons(t, ts, v);
    TagsAfterTokenAndSpace(Join([t] + ts, " ") + v, t, Join(ts, " ") + v, ts + Tags(v));
    ConsAppend(t, ts, Tags(v));
  }

  lemma {:induction false} ConsAppend<T>(x: T, xs: seq<T>, ys: seq<T>)
    ensures [x] + (xs + ys) == [x] + xs + ys
  {
  }

  lemma {:induction false} JoinCons(t: string, ts: seq<string>, v: string)
    requires ts != []
    ensures Join([t] + ts, " ") + v == t + (" " + (Join(ts, " ") + v))
  {
    assert ([t] + ts)[1..] == ts;
  }

  /** A token and a space in front of a text add that token in front of its tags. */
  lemma {:induction false} TagsAfterTokenAndSpace(s: string, t: string, rest: string, tags: seq<string>)
    requires s == t + (" " + rest)
    requires IsTagToken(t) && Tags(rest) == tags
    ensures Tags(s) == [t] + tags
  {
    TagsAfterToken(t, " " + rest);
    TagsAfterSpace(rest);
  }

  /**
   * The raw search after typing `value` into the text box: the chips joined
   * by spaces in front of the typed text, or the typed text alone.
   */
  function TypedSearch(raw: string, value: string): (r: string)
    ensures |value| <= |r| && r[|r| - |value|..] == value
  {
    var tags := Tags(raw);
    if tags != [] then Join(tags, " ") + value else value
  }

  /** Typing keeps every chip and adds the tokens completed in the typed text after them. */
  lemma {:induction false} TypedSearchKeepsTags(raw: string, value: string)
    ensures Tags(TypedSearch(raw, value)) == Tags(raw) + Tags(value)
  {
    TagsAreTokens(raw);
    TagsOfJoin(Tags(raw), value);
  }

  /** A chip's label, `tag.replace('tag:', '')`. */
  function Label(t: string): (r: string)
    ensures |r| <= |t|
    ensures PrefixAt(t, 0) ==> r == t[|TagPrefix|..]
  {
    var r := ReplaceFirst(t, TagPrefix, "");
    assert PrefixAt(t, 0) ==> r == t[|TagPrefix|..] by {
      if PrefixAt(t, 0) {
        ReplacePrefix(t);
      }
    }
    r
  }

  /** Replacing the first `tag:` of a text that starts with it drops those four characters. */
  lemma {:induction false} ReplacePrefix(t: string)
    requires PrefixAt(t, 0)
    ensures ReplaceFirst(t, TagPrefix, "") == t[|TagPrefix|..]
    ensures TagPrefix + t[|TagPrefix|..] == t
  {
    assert t[..4] == TagPrefix;
    assert t == t[..4] + t[4..];
    assert IsFirstOccurrence(t, TagPrefix, 0);
    assert t[..0] + "" + t[4..] == t[4..];
  }

  /** The label of a tag token is the token without its prefix: its name and the final space. */
  lemma {:induction false} LabelOfToken(t: string)
    requires IsTagToken(t)
    ensures Label(t) == t[|TagPrefix|..] && TagPrefix + Label(t) == t
    ensures |Label(t)| >= 2 && Label(t)[|Label(t)| - 1] == ' '
  {
    LabelShape(t);
  }

  lemma {:induction false} LabelShape(t: string)
    requires |t| >= 6 && PrefixAt(t, 0) && t[|t| - 1] == ' '
    ensures Label(t) == t[|TagPrefix|..] && TagPrefix + Label(t) == t
    ensures |Label(t)| >= 2 && Label(t)[|Label(t)| - 1] == ' '
  {
    ReplacePrefix(t);
    var l := t[4..];
    assert l[|l| - 1] == t[|t| - 1];
  }

  lemma {:induction false} LabelsOfTokens(tags: seq<string>)
    requires forall k :: 0 <= k < |tags| ==> IsTagToken(tags[k])
    ensures forall k :: 0 <= k < |tags| ==> TagPrefix + Label(tags[k]) == tags[k]
  {
    forall k | 0 <= k < |tags|
      ensures TagPrefix + Label(tags[k]) == tags[k]
    {
      LabelOfToken(tags[k]);
    }
  }

  /** The labels of the chips shown in front of the search field, one per tag, in order. */
  function ChipLabels(s: string): (labels: seq<string>)
    ensures |labels| == |Tags(s)|
    ensures forall k :: 0 <= k < |labels| ==> TagPrefix + labels[k] == Tags(s)[k]
  {
    var tags := Tags(s);
    ChipsRestoreTags(s);
    seq(|tags|, k requires 0 <= k < |tags| => Label(tags[k]))
  }

  lemma {:induction false} ChipsRestoreTags(s: string)
    ensures forall k :: 0 <= k < |Tags(s)| ==> TagPrefix + Label(Tags(s)[k]) == Tags(s)[k]
  {
    TagsAreTokens(s);
    LabelsOfTokens(Tags(s));
  }

  /** The raw text after `search = search.replace(tag, '')` for each tag in turn. */
  function StripAll(s: string, ts: seq<string>): (r: string)
    ensures |r| <= |s|
    decreases |ts|
  {
    if ts == [] then s
    else ReplaceFirst(StripAll(s, ts[..|ts| - 1]), ts[|ts| - 1], "")
  }

  /** The text the search field shows: untouched without tags, otherwise stripped and trimmed. */
  function FreeText(s: string): (r: string)
    ensures |r| <= |s|
  {
    var tags := Tags(s);
    if tags == [] then s else Trim(StripAll(s, tags))
  }

  lemma {:induction false} StripAllShrinks(s: string, ts: seq<string>)
    requires |ts| > 0
    ensures |StripAll(s, ts)| <= |ReplaceFirst(s, ts[0], "")|
  {
    if |ts| > 1 {
      var init := ts[..|ts| - 1];
      StripAllShrinks(s, init);
      assert init[0] == ts[0];
    } else {
      assert ts[..0] == [];
    }
  }

  /**
   * Without tags the field shows the raw text as it is; with tags it shows
   * a text that is at least one token shorter and has nothing to trim.
   */
  lemma {:induction false} FreeTextShape(s: string)
    ensures Tags(s) == [] ==> FreeText(s) == s
    ensures Tags(s) != [] ==> |FreeText(s)| + |Tags(s)[0]| <= |s| && 6 <= |Tags(s)[0]|
    ensures Tags(s) != [] ==> FreeText(s) == [] || (!IsTrimmable(FreeText(s)[0]) && !IsTrimmable(FreeText(s)[|FreeText(s)| - 1]))
  {
    var tags := Tags(s);
    if tags != [] {
      var stripped := StripAll(s, tags);
      assert |stripped| + |tags[0]| <= |s| && 6 <= |tags[0]| by {
        FirstTagOccurs(s);
        StripAllShrinks(s, tags);
      }
      assert FreeText(s) == Trim(stripped);
    }
  }

  lemma {:induction false} FirstTagOccurs(s: string)
    requires Tags(s) != []
    ensures |Tags(s)[0]| >= 6 && Occurs(s, Tags(s)[0])
  {
    ScanIsTokenList(s, 0);
    var m := Scan(s, 0)[0];
    assert FoundAfter(s, 0, m);
    assert OccursAt(s, m.token, m.pos);
  }

  /** Lines 97-114 of the page: derive the shown text from the store's raw search string. */
  method DisplayedSearch(raw: string) returns (search: string)
    ensures search == FreeText(raw)
  {
    search := raw;
    var tags := Tags(raw);
    if tags != [] {
      for i := 0 to |tags|
        invariant search == StripAll(raw, tags[..i])
      {
        assert tags[..i + 1][..i] == tags[..i];
        search := ReplaceFirst(search, tags[i], "");
      }
      assert tags[..|tags|] == tags;
      search := Trim(search);
    }
  }
}
