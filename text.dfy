/**
 * The string normalisation behind the duplicate-name checks: `Trim()` and
 * `ToLower()`. Both are modelled on ASCII: Trim removes the ASCII white-space
 * characters and ToLower folds 'A'..'Z' only.
 */
module Text {

  predicate IsWhiteSpace(c: char) {
    c == ' ' || c == '\t' || c == '\n' || c == '\r' || c == '\U{0B}' || c == '\U{0C}'
  }

  function LowerChar(c: char): (d: char)
    ensures IsWhiteSpace(d) <==> IsWhiteSpace(c)
    ensures !('A' <= d <= 'Z')
  {
    if 'A' <= c <= 'Z' then (c as int + 32) as char else c
  }

  /** ToLower(): every upper-case ASCII letter replaced by its lower-case form. */
  function Lower(s: string): (r: string)
    ensures |r| == |s|
    ensures forall i :: 0 <= i < |s| ==> r[i] == LowerChar(s[i])
  {
    seq(|s|, i requires 0 <= i < |s| => LowerChar(s[i]))
  }

  /** TrimStart(): the longest suffix of `s` that does not start with white space. */
  function TrimStart(s: string): (r: string)
    ensures |r| <= |s| && r == s[|s| - |r|..]
    ensures forall i :: 0 <= i < |s| - |r| ==> IsWhiteSpace(s[i])
    ensures r == [] || !IsWhiteSpace(r[0])
  {
    if |s| > 0 && IsWhiteSpace(s[0]) then TrimStart(s[1..]) else s
  }

  /** TrimEnd(): the longest prefix of `s` that does not end with white space. */
  function TrimEnd(s: string): (r: string)
    ensures |r| <= |s| && r == s[..|r|]
    ensures forall i :: |r| <= i < |s| ==> IsWhiteSpace(s[i])
    ensures r == [] || !IsWhiteSpace(r[|r| - 1])
  {
    if |s| > 0 && IsWhiteSpace(s[|s| - 1]) then TrimEnd(s[..|s| - 1]) else s
  }

  function Trim(s: string): string {
    TrimEnd(TrimStart(s))
  }

  /** The key the duplicate checks compare: `s.Trim().ToLower()`. */
  function Normalize(s: string): string {
    Lower(Trim(s))
  }

  /** A string with no outer white space. */
  predicate Trimmed(s: string) {
    s == [] || (!IsWhiteSpace(s[0]) && !IsWhiteSpace(s[|s| - 1]))
  }

  lemma TrimIsTrimmed(s: string)
    ensures Trimmed(Trim(s))
  {
    var t := TrimStart(s);
    var r := TrimEnd(t);
    if r != [] {
      assert r == t[..|r|];
      assert r[0] == t[0];
    }
  }

  /** Trim() leaves a string without outer white space unchanged. */
  lemma TrimOfTrimmed(s: string)
    requires Trimmed(s)
    ensures Trim(s) == s
  {
    assert TrimStart(s) == s;
  }

  lemma {:induction false} LowerIdempotent(s: string)
    ensures Lower(Lower(s)) == Lower(s)
  {
    var once := Lower(s);
    var twice := Lower(once);
    forall i | 0 <= i < |s|
      ensures twice[i] == once[i]
    {
      assert !('A' <= once[i] <= 'Z');
    }
  }

  /**
   * Normalising is idempotent, so a stored key that is already normalised
   * compares equal to itself after normalising again.
   */
  lemma NormalizeIdempotent(s: string)
    ensures Normalize(Normalize(s)) == Normalize(s)
  {
    var t := Trim(s);
    TrimIsTrimmed(s);
    var l := Lower(t);
    assert Trimmed(l);
    TrimOfTrimmed(l);
    LowerIdempotent(t);
  }

  /** Trim() takes one space off each end of a trimmed word. */
  lemma TrimPadded(w: string)
    requires w != [] && Trimmed(w)
    ensures Trim([' '] + w + [' ']) == w
  {
    var padded := [' '] + w + [' '];
    assert padded[1..] == w + [' '];
    assert TrimStart(w + [' ']) == w + [' '];
    assert (w + [' '])[..|w|] == w;
    TrimOfTrimmed(w);
  }

  /**
   * Surrounding spaces and case do not matter to the normalised comparison:
   * a trimmed word with a space on each side normalises as its lower-cased form.
   */
  lemma PaddingAndCaseIgnored(w: string)
    requires w != [] && Trimmed(w)
    ensures Normalize([' '] + w + [' ']) == Normalize(Lower(w))
  {
    TrimPadded(w);
    var l := Lower(w);
    assert Trimmed(l);
    TrimOfTrimmed(l);
    LowerIdempotent(w);
  }
}
