/** The e-mail check of the contact form, `isValidEmail`, which tests the
    value against the regular expression `^[^\s@]+@[^\s@]+\.[^\s@]+$`. */
module Email {
  import opened JsStrings

  /** A character of the class `[^\s@]`. */
  predicate PlainChar(c: char) {
    !IsWhitespace(c) && c != '@'
  }

  /** A non-empty run of the class: `[^\s@]+`. */
  predicate PlainRun(t: string) {
    |t| >= 1 && forall k :: 0 <= k < |t| ==> PlainChar(t[k])
  }

  /** What the anchored regular expression matches: `s` splits as
      run, `@`, run, `.`, run, for some choice of the `@` at `i` and the
      `.` at `j`. */
  ghost predicate MatchesEmailRegex(s: string) {
    exists i, j :: 0 <= i < j < |s|
                && s[i] == '@' && s[j] == '.'
                && PlainRun(s[..i]) && PlainRun(s[i + 1..j]) && PlainRun(s[j + 1..])
  }

  /** The number of occurrences of `c` in `s`. */
  function CountOf(s: string, c: char): (n: nat)
    ensures n <= |s|
    ensures n == 0 <==> c !in s
  {
    if s == [] then 0 else (if s[0] == c then 1 else 0) + CountOf(s[1..], c)
  }

  lemma {:induction false} CountOfAppend(a: string, b: string, c: char)
    ensures CountOf(a + b, c) == CountOf(a, c) + CountOf(b, c)
  {
    if a != [] {
      var ab := a + b;
      assert ab[0] == a[0];
      assert ab[1..] == a[1..] + b;
      CountOfAppend(a[1..], b, c);
      calc {
        CountOf(ab, c);
        (if a[0] == c then 1 else 0) + CountOf(a[1..] + b, c);
        (if a[0] == c then 1 else 0) + CountOf(a[1..], c) + CountOf(b, c);
        CountOf(a, c) + CountOf(b, c);
      }
    } else {
      assert a + b == b;
    }
  }

  /** The first position of `c` in `s`, or `|s|` when there is none. */
  function IndexOf(s: string, c: char): (i: nat)
    ensures i <= |s|
    ensures i < |s| ==> s[i] == c
    ensures c !in s[..i]
  {
    if s == [] then 0
    else if s[0] == c then 0
    else
      var i := 1 + IndexOf(s[1..], c);
      assert s[..i] == [s[0]] + s[1..][..i - 1];
      i
  }

  /** The domain holds a `.` with at least one character on either side. */
  predicate HasInnerDot(d: string) {
    |d| >= 3 && '.' in d[1..|d| - 1]
  }

  /** `isValidEmail` as a plain string predicate: no white space, exactly
      one `@`, something before it, and a dot inside the part after it. */
  predicate IsValidEmail(s: string) {
    && NoWhitespace(s)
    && CountOf(s, '@') == 1
    && var i := IndexOf(s, '@');
       0 < i < |s| && HasInnerDot(s[i + 1..])
  }

  /** The plain predicate accepts exactly what the regular expression matches. */
  lemma IsValidEmailIffRegex(s: string)
    ensures IsValidEmail(s) <==> MatchesEmailRegex(s)
  {
    if IsValidEmail(s) {
      ValidEmailMatches(s);
    }
    if MatchesEmailRegex(s) {
      var i, j :| 0 <= i < j < |s|
                && s[i] == '@' && s[j] == '.'
                && PlainRun(s[..i]) && PlainRun(s[i + 1..j]) && PlainRun(s[j + 1..]);
      MatchIsValidEmail(s, i, j);
    }
  }

  lemma ValidEmailMatches(s: string)
    requires IsValidEmail(s)
    ensures MatchesEmailRegex(s)
  {
    var i := IndexOf(s, '@');
    var d := s[i + 1..];
    assert s == s[..i] + [s[i]] + d;
    CountOfAppend(s[..i] + [s[i]], d, '@');
    CountOfAppend(s[..i], [s[i]], '@');
    assert '@' !in d;
    var m :| 0 <= m < |d| - 2 && d[1..|d| - 1][m] == '.';
    var j := i + 2 + m;
    assert s[j] == '.';
    assert s[i + 1..j] == d[..m + 1];
    assert s[j + 1..] == d[m + 2..];
    assert PlainRun(s[..i]);
    assert PlainRun(s[i + 1..j]);
    assert PlainRun(s[j + 1..]);
  }

  /** The first occurrence is where the prefix before it holds none. */
  lemma IndexOfFirst(s: string, c: char, i: nat)
    requires i < |s| && s[i] == c && c !in s[..i]
    ensures IndexOf(s, c) == i
  {
  }

  lemma MatchHasNoWhitespace(s: string, i: nat, j: nat)
    requires 0 <= i < j < |s| && s[i] == '@' && s[j] == '.'
    requires PlainRun(s[..i]) && PlainRun(s[i + 1..j]) && PlainRun(s[j + 1..])
    ensures NoWhitespace(s)
  {
    forall k | 0 <= k < |s| ensures !IsWhitespace(s[k]) {
      if k < i {
        assert s[k] == s[..i][k];
      } else if i < k < j {
        assert s[k] == s[i + 1..j][k - i - 1];
      } else if j < k {
        assert s[k] == s[j + 1..][k - j - 1];
      }
    }
  }

  lemma MatchHasOneAt(s: string, i: nat, j: nat)
    requires 0 <= i < j < |s| && s[i] == '@' && s[j] == '.'
    requires PlainRun(s[..i]) && PlainRun(s[i + 1..j]) && PlainRun(s[j + 1..])
    ensures CountOf(s, '@') == 1
  {
    var a, b, c := s[..i], s[i + 1..j], s[j + 1..];
    assert s == a + ['@'] + b + ['.'] + c;
    assert '@' !in a && '@' !in b && '@' !in c;
    CountOfAppend(a + ['@'] + b + ['.'], c, '@');
    CountOfAppend(a + ['@'] + b, ['.'], '@');
    CountOfAppend(a + ['@'], b, '@');
    CountOfAppend(a, ['@'], '@');
  }

  lemma MatchIsValidEmail(s: string, i: nat, j: nat)
    requires 0 <= i < j < |s| && s[i] == '@' && s[j] == '.'
    requires PlainRun(s[..i]) && PlainRun(s[i + 1..j]) && PlainRun(s[j + 1..])
    ensures IsValidEmail(s)
  {
    MatchHasNoWhitespace(s, i, j);
    MatchHasOneAt(s, i, j);
    assert '@' !in s[..i];
    IndexOfFirst(s, '@', i);
    var d := s[i + 1..];
    assert d[1..|d| - 1][j - i - 2] == '.';
  }

  /** `"a@b.co"` is accepted. */
  lemma AcceptsSimpleAddress()
    ensures IsValidEmail("a@b.co")
  {
    assert IndexOf("a@b.co", '@') == 1;
    assert "a@b.co"[2..] == "b.co";
    assert "b.co"[1..3][0] == '.';
  }

  /** `"a@b"` is rejected: there is no dot after the `@`. */
  lemma RejectsDomainWithoutDot()
    ensures !IsValidEmail("a@b")
  {
    assert IndexOf("a@b", '@') == 1;
  }

  /** `"a.b.com"` is rejected: there is no `@`. */
  lemma RejectsAddressWithoutAt()
    ensures !IsValidEmail("a.b.com")
  {
    assert '@' !in "a.b.com";
  }
}
