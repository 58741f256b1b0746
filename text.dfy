/**
 * The two JavaScript string operations the notes application relies on:
 * `String.prototype.trim` and `Array.prototype.join`.
 * Strings are sequences of characters; JavaScript measures strings in
 * UTF-16 code units, which this model does not distinguish from characters.
 */
module Text {

  /** The characters `trim` removes: ECMAScript's WhiteSpace and LineTerminator code points. */
  predicate IsWhitespace(c: char) {
    || c == '\t' || c == '\n' || c == '\U{000B}' || c == '\U{000C}' || c == '\r' || c == ' '
    || c == '\U{00A0}' || c == '\U{1680}' || ('\U{2000}' <= c <= '\U{200A}')
    || c == '\U{2028}' || c == '\U{2029}' || c == '\U{202F}' || c == '\U{205F}'
    || c == '\U{3000}' || c == '\U{FEFF}'
  }

  /** Every character of `s` is whitespace (so also the empty string). */
  predicate AllWhitespace(s: string) {
    forall i :: 0 <= i < |s| ==> IsWhitespace(s[i])
  }

  /** The index of the first non-whitespace character of `s` at or after `i`, or `|s|` when there is none. */
  function SkipLeading(s: string, i: nat): (k: nat)
    requires i <= |s|
    ensures i <= k <= |s|
    ensures forall j :: i <= j < k ==> IsWhitespace(s[j])
    ensures k < |s| ==> !IsWhitespace(s[k])
    decreases |s| - i
  {
    if i < |s| && IsWhitespace(s[i]) then SkipLeading(s, i + 1) else i
  }

  /** The end of `s[lo..hi]` once its trailing whitespace is dropped. */
  function SkipTrailing(s: string, lo: nat, hi: nat): (e: nat)
    requires lo <= hi <= |s|
    ensures lo <= e <= hi
    ensures forall j :: e <= j < hi ==> IsWhitespace(s[j])
    ensures e > lo ==> !IsWhitespace(s[e - 1])
    decreases hi
  {
    if hi > lo && IsWhitespace(s[hi - 1]) then SkipTrailing(s, lo, hi - 1) else hi
  }

  /** JavaScript's `s.trim()`: the leading whitespace is dropped, then the trailing whitespace of what remains. */
  function Trim(s: string): (r: string)
    ensures |r| <= |s|
    ensures IsTrimmed(r)
  {
    var a := SkipLeading(s, 0);
    var e := SkipTrailing(s, a, |s|);
    s[a..e]
  }

  /** Where `Trim(s)` sits in `s`: `s` is a whitespace prefix of length `k`, then `Trim(s)`, then a whitespace suffix. */
  predicate TrimmedAt(s: string, k: int) {
    var r := Trim(s);
    && 0 <= k && k + |r| <= |s|
    && (forall i :: 0 <= i < |r| ==> r[i] == s[k + i])
    && (forall i :: 0 <= i < k ==> IsWhitespace(s[i]))
    && (forall i :: k + |r| <= i < |s| ==> IsWhitespace(s[i]))
  }

  /** `trim` removes exactly a whitespace prefix and a whitespace suffix, and keeps what lies between. */
  lemma TrimIsInfix(s: string)
    ensures exists k :: TrimmedAt(s, k)
  {
    var k := SkipLeading(s, 0);
    assert TrimmedAt(s, k);
  }

  /** A string trims to nothing exactly when it is all whitespace. */
  lemma TrimEmptyIff(s: string)
    ensures Trim(s) == [] <==> AllWhitespace(s)
  {
    var a := SkipLeading(s, 0);
    var e := SkipTrailing(s, a, |s|);
    if a < |s| {
      assert !IsWhitespace(s[a]) && e > a;
    }
  }

  /** A string with no whitespace at either end: what `trim` returns. */
  predicate IsTrimmed(s: string) {
    s == [] || (!IsWhitespace(s[0]) && !IsWhitespace(s[|s| - 1]))
  }

  /** The strings `trim` leaves alone are exactly the trimmed ones. */
  lemma TrimFixesTrimmed(s: string)
    ensures Trim(s) == s <==> IsTrimmed(s)
    ensures IsTrimmed(Trim(s))
  {
    if IsTrimmed(s) && s != [] {
      var a := SkipLeading(s, 0);
      assert a == 0;
      assert SkipTrailing(s, a, |s|) == |s|;
      assert s[0..|s|] == s;
    }
  }

  /** Trimming twice is trimming once, so a value the server trims again is stored as the client trimmed it. */
  lemma TrimIdempotent(s: string)
    ensures Trim(Trim(s)) == Trim(s)
  {
    TrimFixesTrimmed(Trim(s));
  }

  /** JavaScript's `parts.join(sep)`. */
  function Join(parts: seq<string>, sep: string): (r: string)
    ensures parts == [] ==> r == ""
    ensures |parts| == 1 ==> r == parts[0]
    ensures parts != [] ==> |parts[0]| <= |r| && r[..|parts[0]|] == parts[0]
    ensures |parts| > 1 ==> |parts[0]| + |sep| <= |r| && r[|parts[0]|..|parts[0]| + |sep|] == sep
  {
    if |parts| == 0 then ""
    else if |parts| == 1 then parts[0]
    else parts[0] + sep + Join(parts[1..], sep)
  }

  /** Joining, read from the other end: the last part follows the join of the others and one separator. */
  lemma {:induction false} JoinSnoc(parts: seq<string>, p: string, sep: string)
    ensures Join(parts + [p], sep) == if parts == [] then p else Join(parts, sep) + sep + p
    decreases |parts|
  {
    var whole := parts + [p];
    if |parts| >= 2 {
      var rest := parts[1..];
      assert whole[0] == parts[0] && whole[1..] == rest + [p];
      JoinSnoc(rest, p, sep);
      calc {
        Join(whole, sep);
        parts[0] + sep + Join(rest + [p], sep);
        parts[0] + sep + (Join(rest, sep) + sep + p);
        (parts[0] + sep + Join(rest, sep)) + sep + p;
        Join(parts, sep) + sep + p;
      }
    } else if |parts| == 1 {
      assert whole[1..] == [p];
    }
  }
}
