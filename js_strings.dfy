/** The few JavaScript string operations the page's script relies on:
    what `\s` and `String.prototype.trim` treat as white space, what
    `.length` counts, and `String.prototype.split` with a one-character
    separator. Strings are sequences of Unicode scalar values. */
module JsStrings {

  /** The characters of ECMAScript's WhiteSpace and LineTerminator
      productions: the set that `trim` removes and that the regular
      expression class `\s` matches (space separators as of Unicode 15). */
  predicate IsWhitespace(c: char) {
    || c == '\t' || c == '\U{000B}' || c == '\U{000C}' || c == ' '
    || c == '\U{00A0}' || c == '\U{FEFF}' || c == '\U{1680}'
    || ('\U{2000}' <= c <= '\U{200A}')
    || c == '\U{202F}' || c == '\U{205F}' || c == '\U{3000}'
    || c == '\n' || c == '\r' || c == '\U{2028}' || c == '\U{2029}'
  }

  predicate NoWhitespace(s: string) {
    forall k :: 0 <= k < |s| ==> !IsWhitespace(s[k])
  }

  /** The first position at or after `i` that does not hold white space,
      or `|s|` when there is none. */
  function SkipForward(s: string, i: nat): (n: nat)
    requires i <= |s|
    ensures i <= n <= |s|
    ensures forall k :: i <= k < n ==> IsWhitespace(s[k])
    ensures n < |s| ==> !IsWhitespace(s[n])
    decreases |s| - i
  {
    if i < |s| && IsWhitespace(s[i]) then SkipForward(s, i + 1) else i
  }

  /** The end of the text in `s[lo..j]` once the white space before `j`
      is dropped, going backwards from `j` but not below `lo`. */
  function SkipBackward(s: string, lo: nat, j: nat): (n: nat)
    requires lo <= j <= |s|
    ensures lo <= n <= j
    ensures forall k :: n <= k < j ==> IsWhitespace(s[k])
    ensures n > lo ==> !IsWhitespace(s[n - 1])
    decreases j
  {
    if j > lo && IsWhitespace(s[j - 1]) then SkipBackward(s, lo, j - 1) else j
  }

  /** Where the result of `trim` starts. */
  function TrimStartsAt(s: string): (i: nat)
    ensures i <= |s|
  {
    SkipForward(s, 0)
  }

  /** `s` is the white space at `s[..i]`, then `r`, then white space, and
      `r` neither starts nor ends with white space. */
  predicate TrimmedAt(s: string, i: nat, r: string) {
    && i + |r| <= |s| && s[i..i + |r|] == r
    && (forall k :: 0 <= k < i ==> IsWhitespace(s[k]))
    && (forall k :: i + |r| <= k < |s| ==> IsWhitespace(s[k]))
    && (r != [] ==> !IsWhitespace(r[0]) && !IsWhitespace(r[|r| - 1]))
  }

  /** `String.prototype.trim`: `s` without its leading and trailing white
      space. It cuts `s` into leading white space, its result and trailing
      white space. */
  function Trim(s: string): (r: string)
    ensures TrimmedAt(s, TrimStartsAt(s), r)
  {
    var i := SkipForward(s, 0);
    var j := SkipBackward(s, i, |s|);
    assert j > i ==> s[i..j][0] == s[i] && s[i..j][j - i - 1] == s[j - 1];
    s[i..j]
  }

  /** A string that neither starts nor ends with white space is its own
      trimmed form. */
  lemma TrimUnchanged(s: string)
    requires s != [] ==> !IsWhitespace(s[0]) && !IsWhitespace(s[|s| - 1])
    ensures Trim(s) == s
  {
    assert SkipForward(s, 0) == 0;
    assert SkipBackward(s, 0, |s|) == |s|;
  }

  /** Trimming twice is trimming once. */
  lemma TrimIdempotent(s: string)
    ensures Trim(Trim(s)) == Trim(s)
  {
    TrimUnchanged(Trim(s));
  }

  /** The number of UTF-16 code units that encode `s`, which is what
      JavaScript's `.length` reports: characters outside the Basic
      Multilingual Plane take two. */
  function Utf16Length(s: string): (n: nat)
    ensures |s| <= n <= 2 * |s|
  {
    if s == [] then 0
    else (if s[0] as int < 0x1_0000 then 1 else 2) + Utf16Length(s[1..])
  }

  /** Inside the Basic Multilingual Plane, `.length` counts characters. */
  lemma {:induction false} Utf16LengthOfBmp(s: string)
    requires forall k :: 0 <= k < |s| ==> s[k] as int < 0x1_0000
    ensures Utf16Length(s) == |s|
  {
    if s != [] {
      Utf16LengthOfBmp(s[1..]);
    }
  }

  /** A string with nothing to trim, inside the Basic Multilingual Plane,
      keeps its length through `trim` and `.length`. */
  lemma TrimmedLengthOfPlain(s: string)
    requires s != [] ==> !IsWhitespace(s[0]) && !IsWhitespace(s[|s| - 1])
    requires forall k :: 0 <= k < |s| ==> s[k] as int < 0x1_0000
    ensures Utf16Length(Trim(s)) == |s|
  {
    TrimUnchanged(s);
    Utf16LengthOfBmp(s);
  }

  /** `s.split(sep)` for a one-character separator: the pieces between
      separators, in order, with empty pieces kept (`"".split(sep)` is
      `[""]`). No piece contains the separator. */
  function Split(s: string, sep: char): (r: seq<string>)
    ensures |r| >= 1
    ensures forall k :: 0 <= k < |r| ==> sep !in r[k]
  {
    if s == [] then [[]]
    else
      var rest := Split(s[1..], sep);
      if s[0] == sep then [[]] + rest
      else [[s[0]] + rest[0]] + rest[1..]
  }

  /** `pieces.join(sep)`: the pieces with one separator between neighbours. */
  function Join(pieces: seq<string>, sep: char): string
    requires |pieces| >= 1
  {
    if |pieces| == 1 then pieces[0]
    else pieces[0] + [sep] + Join(pieces[1..], sep)
  }

  /** Splitting loses nothing: joining the pieces gives back the string. */
  lemma {:induction false} JoinSplit(s: string, sep: char)
    ensures Join(Split(s, sep), sep) == s
  {
    if s != [] {
      var rest := Split(s[1..], sep);
      JoinSplit(s[1..], sep);
      if s[0] == sep {
        assert ([[]] + rest)[1..] == rest;
      } else if |rest| > 1 {
        var ps := [[s[0]] + rest[0]] + rest[1..];
        assert ps[1..] == rest[1..];
        assert Join(rest, sep) == rest[0] + [sep] + Join(rest[1..], sep);
        assert s == [s[0]] + s[1..];
      } else {
        assert s == [s[0]] + s[1..];
      }
    }
  }

  /** A string without the separator splits into itself alone. */
  lemma {:induction false} SplitWithoutSeparator(s: string, sep: char)
    requires sep !in s
    ensures Split(s, sep) == [s]
  {
    if s != [] {
      assert sep !in s[1..];
      SplitWithoutSeparator(s[1..], sep);
      assert s == [s[0]] + s[1..];
    }
  }

  function Last<T>(xs: seq<T>): T
    requires |xs| >= 1
  {
    xs[|xs| - 1]
  }

  /** `s.split(sep).pop()` is the text after the last separator, or all of
      `s` when it holds none: a separator-free suffix of `s` that is either
      all of `s` or preceded by a separator. */
  lemma {:induction false} LastPieceIsFinalSegment(s: string, sep: char)
    ensures var r := Last(Split(s, sep));
            && sep !in r
            && |r| <= |s| && r == s[|s| - |r|..]
            && (|r| < |s| ==> s[|s| - |r| - 1] == sep)
  {
    if s != [] {
      var rest := Split(s[1..], sep);
      var r := Last(Split(s, sep));
      LastPieceIsFinalSegment(s[1..], sep);
      if s[0] == sep {
        assert r == Last(rest);
      } else if |rest| > 1 {
        assert r == Last(rest);
        if |r| == |s| - 1 {
          assert r == s[1..];
          SplitWithoutSeparator(s[1..], sep);
          assert false;
        }
      } else {
        JoinSplit(s[1..], sep);
        assert rest[0] == s[1..];
        assert r == [s[0]] + s[1..];
        assert s == [s[0]] + s[1..];
      }
    }
  }

  /** The text after the last separator is empty exactly when `s` is empty
      or ends with the separator. */
  lemma LastPieceEmpty(s: string, sep: char)
    ensures Last(Split(s, sep)) == [] <==> (s == [] || s[|s| - 1] == sep)
  {
    LastPieceIsFinalSegment(s, sep);
    var r := Last(Split(s, sep));
    if r != [] {
      assert r[|r| - 1] == s[|s| - 1];
    }
  }
}
