/**
 * The three JavaScript string operations the search page relies on, stated
 * over strings as sequences of characters: `indexOf`, `replace` with a string
 * pattern and an empty (dollar-free) replacement, and `trim`.
 */
module JsString {
  import opened Wrappers

  /** `p` occurs in `s` starting at index `i`. */
  predicate OccursAt(s: string, p: string, i: nat) {
    i + |p| <= |s| && s[i..i + |p|] == p
  }

  /** `i` is the leftmost index at which `p` occurs in `s`. */
  predicate IsFirstOccurrence(s: string, p: string, i: nat) {
    OccursAt(s, p, i) && forall k :: 0 <= k < i ==> !OccursAt(s, p, k)
  }

  predicate Occurs(s: string, p: string) {
    exists i :: 0 <= i <= |s| && OccursAt(s, p, i)
  }

  /** `s.indexOf(p, from)`: the leftmost occurrence at or after `from`. */
  function IndexOf(s: string, p: string, from: nat): (r: Option<nat>)
    requires from <= |s|
    ensures r.Some? ==> from <= r.value && OccursAt(s, p, r.value)
    ensures r.Some? ==> forall k :: from <= k < r.value ==> !OccursAt(s, p, k)
    ensures r.None? ==> forall k :: from <= k <= |s| ==> !OccursAt(s, p, k)
    decreases |s| - from
  {
    if OccursAt(s, p, from) then Some(from)
    else if from == |s| then None
    else IndexOf(s, p, from + 1)
  }

  /**
   * `s.replace(p, rep)` with a string pattern: only the first occurrence is
   * replaced; without an occurrence the string is returned as it is.
   */
  function ReplaceFirst(s: string, p: string, rep: string): (r: string)
    ensures !Occurs(s, p) ==> r == s
    ensures Occurs(s, p) ==> |r| == |s| - |p| + |rep|
    ensures forall i: nat :: IsFirstOccurrence(s, p, i) ==> r == s[..i] + rep + s[i + |p|..]
  {
    match IndexOf(s, p, 0)
    case None => s
    case Some(i) => s[..i] + rep + s[i + |p|..]
  }

  /**
   * The characters `String.prototype.trim` removes: the ECMAScript
   * WhiteSpace (tab, vertical tab, form feed, space, no-break space, byte
   * order mark and the Unicode space separators) and LineTerminator
   * (line feed, carriage return, line and paragraph separators) sets.
   */
  predicate IsTrimmable(c: char) {
    c in TrimmableSingles || ('\U{2000}' <= c <= '\U{200A}')
  }

  const TrimmableSingles: set<char> := {
    '\t', '\n', '\U{B}', '\U{C}', '\r', ' ', '\U{A0}', '\U{1680}',
    '\U{2028}', '\U{2029}', '\U{202F}', '\U{205F}', '\U{3000}', '\U{FEFF}'
  }

  /** The first index at or after `i` holding a character `trim` keeps, or `|s|`. */
  function FirstKept(s: string, i: nat): (a: nat)
    requires i <= |s|
    ensures i <= a <= |s|
    ensures forall k :: i <= k < a ==> IsTrimmable(s[k])
    ensures a == |s| || !IsTrimmable(s[a])
    decreases |s| - i
  {
    if i < |s| && IsTrimmable(s[i]) then FirstKept(s, i + 1) else i
  }

  /** The end of the kept characters in `s[a..j]`: everything from it up to `j` is trimmable. */
  function EndKept(s: string, a: nat, j: nat): (b: nat)
    requires a <= j <= |s|
    ensures a <= b <= j
    ensures forall k :: b <= k < j ==> IsTrimmable(s[k])
    ensures b == a || !IsTrimmable(s[b - 1])
    decreases j - a
  {
    if a < j && IsTrimmable(s[j - 1]) then EndKept(s, a, j - 1) else j
  }

  /** `r` is the slice of `s` at `a`, and everything around it is trimmable. */
  predicate IsTrimmedAt(s: string, r: string, a: nat) {
    a + |r| <= |s| && r == s[a..a + |r|]
    && (forall k :: 0 <= k < a ==> IsTrimmable(s[k]))
    && (forall k :: a + |r| <= k < |s| ==> IsTrimmable(s[k]))
  }

  /**
   * `s.trim()`: the result is the slice of `s` left after removing
   * trimmable characters at both ends, and it neither starts nor ends with one.
   */
  function Trim(s: string): (r: string)
    ensures |r| <= |s|
    ensures r == [] || (!IsTrimmable(r[0]) && !IsTrimmable(r[|r| - 1]))
    ensures exists a: nat :: IsTrimmedAt(s, r, a)
  {
    var a := FirstKept(s, 0);
    var b := EndKept(s, a, |s|);
    assert IsTrimmedAt(s, s[a..b], a);
    s[a..b]
  }

  /** Trimming leaves a string alone exactly when it has nothing to trim at its ends. */
  lemma {:induction false} TrimIdentity(s: string)
    ensures Trim(s) == s <==> (s == [] || (!IsTrimmable(s[0]) && !IsTrimmable(s[|s| - 1])))
  {
    if s != [] && !IsTrimmable(s[0]) && !IsTrimmable(s[|s| - 1]) {
      assert FirstKept(s, 0) == 0;
      assert EndKept(s, 0, |s|) == |s|;
    }
  }
}
