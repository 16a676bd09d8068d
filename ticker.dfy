// The ticker typed into the sidebar is upper-cased and then stripped of
// surrounding whitespace; an empty result means there is nothing to analyse.

module Ticker {

  /** The characters Python's str.isspace accepts, which str.strip removes. */
  predicate IsSpace(c: char) {
    || c == ' '
    || '\t' <= c <= '\r'
    || '\U{1C}' <= c <= '\U{1F}'
    || c == '\U{85}' || c == '\U{A0}' || c == '\U{1680}'
    || '\U{2000}' <= c <= '\U{200A}'
    || c == '\U{2028}' || c == '\U{2029}' || c == '\U{202F}' || c == '\U{205F}' || c == '\U{3000}'
  }

  predicate IsLower(c: char) {
    'a' <= c <= 'z'
  }

  function ToUpper(c: char): (u: char)
    ensures IsLower(c) ==> u as int == c as int - 32
    ensures !IsLower(c) ==> u == c
    ensures !IsLower(u) && IsSpace(u) == IsSpace(c)
  {
    if IsLower(c) then (c as int - 32) as char else c
  }

  /** str.upper, on the ASCII letters. */
  function Upper(s: string): (u: string)
    ensures |u| == |s|
    ensures forall k :: 0 <= k < |s| ==> u[k] == ToUpper(s[k])
  {
    seq(|s|, k requires 0 <= k < |s| => ToUpper(s[k]))
  }

  /** Drops the leading whitespace: what is left is a suffix of s, everything
      dropped is whitespace, and what is left does not start with whitespace. */
  function TrimStart(s: string): (r: string)
    ensures |r| <= |s| && r == s[|s| - |r|..]
    ensures forall k :: 0 <= k < |s| - |r| ==> IsSpace(s[k])
    ensures r != [] ==> !IsSpace(r[0])
  {
    if |s| > 0 && IsSpace(s[0]) then TrimStart(s[1..]) else s
  }

  /** Drops the trailing whitespace: what is left is a prefix of s, everything
      dropped is whitespace, and what is left does not end with whitespace. */
  function TrimEnd(s: string): (r: string)
    ensures |r| <= |s| && r == s[..|r|]
    ensures forall k :: |r| <= k < |s| ==> IsSpace(s[k])
    ensures r != [] ==> !IsSpace(r[|r| - 1])
  {
    if |s| > 0 && IsSpace(s[|s| - 1]) then TrimEnd(s[..|s| - 1]) else s
  }

  /** str.strip with no argument. */
  function Strip(s: string): string {
    TrimEnd(TrimStart(s))
  }

  /** The ticker as the sidebar hands it on: `.upper().strip()`. */
  function Normalize(raw: string): string {
    Strip(Upper(raw))
  }

  predicate IsBlank(s: string) {
    forall k :: 0 <= k < |s| ==> IsSpace(s[k])
  }

  /** Strip leaves no whitespace at either end. */
  lemma StripEnds(s: string)
    ensures Strip(s) != [] ==> !IsSpace(Strip(s)[0]) && !IsSpace(Strip(s)[|Strip(s)| - 1])
  {
    var t := TrimStart(s);
    if Strip(s) != [] {
      assert Strip(s)[0] == t[0];
    }
  }

  /** Strip keeps a contiguous piece of s and removes only whitespace around
      it. */
  lemma StripIsTrimmedInfix(s: string)
    ensures exists i, j ::
              && 0 <= i <= j <= |s| && Strip(s) == s[i..j]
              && IsBlank(s[..i]) && IsBlank(s[j..])
  {
    var t := TrimStart(s);
    SliceOfSuffix(s, t, Strip(s));
    BlankBefore(s, |s| - |t|);
    BlankAfter(s, t, Strip(s));
  }

  /** A prefix of a suffix of s is a slice of s. */
  lemma SliceOfSuffix(s: string, t: string, r: string)
    requires |t| <= |s| && t == s[|s| - |t|..] && |r| <= |t| && r == t[..|r|]
    ensures r == s[|s| - |t|..|s| - |t| + |r|]
  {
    var i := |s| - |t|;
    forall k | 0 <= k < |r| ensures r[k] == s[i + k] {
      assert r[k] == t[k] && t[k] == s[i + k];
    }
  }

  lemma BlankBefore(s: string, i: nat)
    requires i <= |s| && forall k :: 0 <= k < i ==> IsSpace(s[k])
    ensures IsBlank(s[..i])
  {
    forall k | 0 <= k < i ensures IsSpace(s[..i][k]) {
      assert s[..i][k] == s[k];
    }
  }

  lemma BlankAfter(s: string, t: string, r: string)
    requires |t| <= |s| && t == s[|s| - |t|..] && |r| <= |t|
    requires forall k :: |r| <= k < |t| ==> IsSpace(t[k])
    ensures IsBlank(s[|s| - |t| + |r|..])
  {
    var j := |s| - |t| + |r|;
    forall k | 0 <= k < |s| - j ensures IsSpace(s[j..][k]) {
      assert s[j..][k] == t[|r| + k];
    }
  }

  /** Only an all-whitespace input strips down to nothing. */
  lemma StripEmptyIff(s: string)
    ensures Strip(s) == [] <==> IsBlank(s)
  {
  }

  /** The normalised ticker is empty exactly when the input holds nothing but
      whitespace: that is the warning path, where nothing is fetched. */
  lemma NormalizeEmptyIff(raw: string)
    ensures Normalize(raw) == [] <==> IsBlank(raw)
  {
    var u := Upper(raw);
    StripEmptyIff(u);
    assert forall k :: 0 <= k < |raw| ==> (IsSpace(u[k]) <==> IsSpace(raw[k]));
  }

  predicate IsUpperCase(s: string) {
    forall k :: 0 <= k < |s| ==> !IsLower(s[k])
  }

  /** Whatever Strip keeps is taken from its input unchanged. */
  lemma StripKeepsUpperCase(s: string)
    requires IsUpperCase(s)
    ensures IsUpperCase(Strip(s))
  {
    var t := TrimStart(s);
    assert IsUpperCase(t) by {
      forall k | 0 <= k < |t| ensures !IsLower(t[k]) {
        assert t[k] == s[|s| - |t| + k];
      }
    }
    var n := TrimEnd(t);
    assert IsUpperCase(n) by {
      forall k | 0 <= k < |n| ensures !IsLower(n[k]) {
        assert n[k] == t[k];
      }
    }
  }

  /** A normalised ticker holds no lower-case letter. */
  lemma NormalizeIsUpperCase(raw: string)
    ensures IsUpperCase(Normalize(raw))
  {
    StripKeepsUpperCase(Upper(raw));
  }

  lemma {:induction false} StripIdempotent(s: string)
    ensures Strip(Strip(s)) == Strip(s)
  {
    var r := Strip(s);
    if r != [] {
      StripEnds(s);
      assert TrimStart(r) == r;
      assert TrimEnd(r) == r;
    }
  }

  /** Normalising an already normalised ticker changes nothing. */
  lemma NormalizeIdempotent(raw: string)
    ensures Normalize(Normalize(raw)) == Normalize(raw)
  {
    var n := Normalize(raw);
    NormalizeIsUpperCase(raw);
    assert Upper(n) == n;
    StripIdempotent(Upper(raw));
  }
}
