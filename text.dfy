/**
 * The two string built-ins the notes store relies on: `String.prototype.trim`
 * and the ordering `localeCompare` puts on timestamps, taken here as plain
 * lexicographic order by character (code point).
 */
module Text {

  /** The code points ECMAScript classes as WhiteSpace or LineTerminator: what `trim` strips. */
  predicate IsTrimSpace(c: char) {
    || c == '\t' || c == '\U{000B}' || c == '\U{000C}' || c == ' '
    || c == '\U{00A0}' || c == '\U{FEFF}' || c == '\U{1680}'
    || ('\U{2000}' <= c <= '\U{200A}')
    || c == '\U{202F}' || c == '\U{205F}' || c == '\U{3000}'
    || c == '\n' || c == '\r' || c == '\U{2028}' || c == '\U{2029}'
  }

  /** Every character of `s` is stripped by `trim`. */
  predicate AllSpace(s: string) {
    forall k :: 0 <= k < |s| ==> IsTrimSpace(s[k])
  }

  /** `s` neither starts nor ends with a character `trim` strips. */
  predicate IsTrimmed(s: string) {
    s == [] || (!IsTrimSpace(s[0]) && !IsTrimSpace(s[|s| - 1]))
  }

  /** The end of the white space run of `s` that starts at `i`. */
  function SkipSpace(s: string, i: nat): (j: nat)
    requires i <= |s|
    ensures i <= j <= |s|
    ensures forall k :: i <= k < j ==> IsTrimSpace(s[k])
    ensures j < |s| ==> !IsTrimSpace(s[j])
    decreases |s| - i
  {
    if i < |s| && IsTrimSpace(s[i]) then SkipSpace(s, i + 1) else i
  }

  /** The start of the white space run of `s` that ends at `j`, going back no further than `lo`. */
  function SkipSpaceBack(s: string, lo: nat, j: nat): (i: nat)
    requires lo <= j <= |s|
    ensures lo <= i <= j
    ensures forall k :: i <= k < j ==> IsTrimSpace(s[k])
    ensures lo < i ==> !IsTrimSpace(s[i - 1])
    decreases j
  {
    if lo < j && IsTrimSpace(s[j - 1]) then SkipSpaceBack(s, lo, j - 1) else j
  }

  /** Where the result of `trim` starts in `s`. */
  function TrimFrom(s: string): nat {
    SkipSpace(s, 0)
  }

  /** Where the result of `trim` ends in `s`. */
  function TrimTo(s: string): nat {
    SkipSpaceBack(s, TrimFrom(s), |s|)
  }

  /**
   * `String.prototype.trim`: the infix of `s` between its leading and its
   * trailing white space. The result is trimmed, and everything cut off on
   * either side is white space.
   */
  function Trim(s: string): (r: string)
    ensures IsTrimmed(r)
    ensures TrimFrom(s) <= TrimTo(s) <= |s| && r == s[TrimFrom(s)..TrimTo(s)]
    ensures forall k :: 0 <= k < TrimFrom(s) ==> IsTrimSpace(s[k])
    ensures forall k :: TrimTo(s) <= k < |s| ==> IsTrimSpace(s[k])
  {
    var lo := TrimFrom(s);
    var hi := TrimTo(s);
    assert lo < hi ==> !IsTrimSpace(s[lo]);
    s[lo..hi]
  }

  /** From `i`, white space up to a character that is not (or to the end) is skipped exactly. */
  lemma {:induction false} SkipSpaceStopsAt(s: string, i: nat, n: nat)
    requires i <= n <= |s|
    requires forall k :: i <= k < n ==> IsTrimSpace(s[k])
    requires n < |s| ==> !IsTrimSpace(s[n])
    ensures SkipSpace(s, i) == n
    decreases n - i
  {
    if i < n {
      SkipSpaceStopsAt(s, i + 1, n);
    }
  }

  /** Back from `j`, white space down to a character that is not (or to `lo`) is skipped exactly. */
  lemma {:induction false} SkipSpaceBackStopsAt(s: string, lo: nat, n: nat, j: nat)
    requires lo <= n <= j <= |s|
    requires forall k :: n <= k < j ==> IsTrimSpace(s[k])
    requires lo < n ==> !IsTrimSpace(s[n - 1])
    ensures SkipSpaceBack(s, lo, j) == n
    decreases j
  {
    if n < j {
      SkipSpaceBackStopsAt(s, lo, n, j - 1);
    }
  }

  /**
   * `trim` is determined by its contract: a trimmed string padded with white
   * space on both sides trims back to itself.
   */
  lemma TrimUnique(a: string, t: string, b: string)
    requires AllSpace(a) && AllSpace(b) && IsTrimmed(t)
    ensures Trim(a + t + b) == t
  {
    var s := a + t + b;
    var lo, hi := |a|, |a| + |t|;
    forall k | 0 <= k < |s|
      ensures k < lo ==> s[k] == a[k]
      ensures lo <= k < hi ==> s[k] == t[k - lo]
      ensures hi <= k ==> s[k] == b[k - hi]
    {
    }
    if t == [] {
      SkipSpaceStopsAt(s, 0, |s|);
      SkipSpaceBackStopsAt(s, |s|, |s|, |s|);
    } else {
      SkipSpaceStopsAt(s, 0, lo);
      SkipSpaceBackStopsAt(s, lo, hi, |s|);
      assert s[lo..hi] == t;
    }
  }

  /** A string that is already trimmed is left as it is. */
  lemma TrimOfTrimmed(t: string)
    requires IsTrimmed(t)
    ensures Trim(t) == t
  {
    assert [] + t + [] == t;
    TrimUnique([], t, []);
  }

  /** `trim` is idempotent. */
  lemma TrimIdempotent(s: string)
    ensures Trim(Trim(s)) == Trim(s)
  {
    TrimOfTrimmed(Trim(s));
  }

  /**
   * Lexicographic order by character, stated directly: `a` is a proper prefix
   * of `b`, or the two agree up to a position where `a` has the smaller character.
   */
  predicate Lexicographic(a: string, b: string) {
    (|a| < |b| && a == b[..|a|])
    || exists k :: 0 <= k < |a| && k < |b| && a[..k] == b[..k] && a[k] < b[k]
  }

  /** Sharing a first character, two strings compare as their tails do. */
  lemma LexicographicTail(a: string, b: string)
    requires a != [] && b != [] && a[0] == b[0]
    ensures Lexicographic(a, b) <==> Lexicographic(a[1..], b[1..])
  {
    if Lexicographic(a[1..], b[1..]) && !(|a| - 1 < |b| - 1 && a[1..] == b[1..][..|a| - 1]) {
      var k :| 0 <= k < |a| - 1 && k < |b| - 1 && a[1..][..k] == b[1..][..k] && a[1..][k] < b[1..][k];
      assert a[..k + 1] == [a[0]] + a[1..][..k];
      assert b[..k + 1] == [b[0]] + b[1..][..k];
    }
    if Lexicographic(a, b) && !(|a| < |b| && a == b[..|a|]) {
      var k :| 0 <= k < |a| && k < |b| && a[..k] == b[..k] && a[k] < b[k];
      assert k != 0;
      assert a[1..][..k - 1] == a[1..k] && b[1..][..k - 1] == b[1..k];
      assert a[1..k] == a[..k][1..] && b[1..k] == b[..k][1..];
    }
  }

  /**
   * The order `localeCompare` is taken to put on timestamps: character by
   * character (code point by code point), `a` sorts strictly before `b`.
   */
  predicate Less(a: string, b: string)
    decreases |a|
  {
    if a == [] then b != []
    else if b == [] then false
    else if a[0] != b[0] then a[0] < b[0]
    else Less(a[1..], b[1..])
  }

  /** The comparator is exactly the lexicographic order by character. */
  lemma {:induction false} LessIsLexicographic(a: string, b: string)
    ensures Less(a, b) <==> Lexicographic(a, b)
    decreases |a|
  {
    if a != [] && b != [] {
      if a[0] != b[0] {
        assert a[..0] == b[..0];
      } else {
        LexicographicTail(a, b);
        LessIsLexicographic(a[1..], b[1..]);
      }
    }
  }

  /** No string sorts before itself. */
  lemma {:induction false} LessIrreflexive(a: string)
    ensures !Less(a, a)
    decreases |a|
  {
    if a != [] {
      LessIrreflexive(a[1..]);
    }
  }

  /** Two strings never sort before each other. */
  lemma {:induction false} LessAsymmetric(a: string, b: string)
    ensures !(Less(a, b) && Less(b, a))
    decreases |a|
  {
    if a != [] && b != [] && a[0] == b[0] {
      LessAsymmetric(a[1..], b[1..]);
    }
  }

  /** Of two different strings, one sorts before the other. */
  lemma {:induction false} LessTotal(a: string, b: string)
    requires a != b
    ensures Less(a, b) || Less(b, a)
    decreases |a|
  {
    if a != [] && b != [] && a[0] == b[0] {
      assert a == [a[0]] + a[1..] && b == [b[0]] + b[1..];
      LessTotal(a[1..], b[1..]);
    }
  }

  /** "Sorts before" is transitive. */
  lemma {:induction false} LessTransitive(a: string, b: string, c: string)
    requires Less(a, b) && Less(b, c)
    ensures Less(a, c)
    decreases |a|
  {
    if a != [] && b != [] && c != [] && a[0] == b[0] && b[0] == c[0] {
      LessTransitive(a[1..], b[1..], c[1..]);
    }
  }

  /** "Does not sort before" is transitive: the order a descending sort keeps. */
  lemma NotLessTransitive(a: string, b: string, c: string)
    requires !Less(a, b) && !Less(b, c)
    ensures !Less(a, c)
  {
    if Less(a, c) {
      if a == b {
        assert false;
      } else {
        LessTotal(a, b);
        LessTransitive(b, a, c);
        assert false;
      }
    }
  }
}
