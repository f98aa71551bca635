/**
 * The e-mail check both validators use, the regular expression
 * `^[^\s@]+@[^\s@]+\.[^\s@]+$` (the CommonJS copy wraps the three runs in
 * capture groups, which does not change what it matches), written as a
 * predicate on strings.
 */
module EmailPattern {
  import opened JsStrings

  /** A character of the class `[^\s@]`. */
  predicate IsAddressChar(c: char) {
    c != '@' && !IsWhitespace(c)
  }

  predicate AllAddressChars(s: string) {
    forall i :: 0 <= i < |s| ==> IsAddressChar(s[i])
  }

  /** `[^\s@]+`: one or more characters of the class. */
  predicate IsRun(s: string) {
    |s| > 0 && AllAddressChars(s)
  }

  /** A literal `.` with at least one character on each side. */
  predicate HasInnerDot(d: string) {
    exists j :: 0 < j < |d| - 1 && d[j] == '.'
  }

  /**
   * The check as the services evaluate it: an `@` with a non-empty local part
   * before it, and after it a domain with a dot strictly inside, none of them
   * holding white space or another `@`.
   */
  predicate IsEmail(s: string) {
    exists i :: 0 < i < |s| && s[i] == '@' && IsRun(s[..i]) && AllAddressChars(s[i + 1..]) && HasInnerDot(s[i + 1..])
  }

  /**
   * What the regular expression matches, read off its structure: three runs
   * of `[^\s@]+` separated by `@` and by `.`, covering the whole string.
   */
  ghost predicate MatchesRegex(s: string) {
    exists i, j :: 0 < i && i + 1 < j && j + 1 < |s| && s[i] == '@' && s[j] == '.'
      && IsRun(s[..i]) && IsRun(s[i + 1..j]) && IsRun(s[j + 1..])
  }

  lemma AllAddressCharsSlice(s: string, a: int, b: int)
    requires AllAddressChars(s) && 0 <= a <= b <= |s|
    ensures AllAddressChars(s[a..b])
  {
    assert forall k :: 0 <= k < b - a ==> s[a..b][k] == s[a + k];
  }

  lemma IsEmailImpliesRegex(s: string)
    requires IsEmail(s)
    ensures MatchesRegex(s)
  {
    var i :| 0 < i < |s| && s[i] == '@' && IsRun(s[..i]) && AllAddressChars(s[i + 1..]) && HasInnerDot(s[i + 1..]);
    var d := s[i + 1..];
    var k :| 0 < k < |d| - 1 && d[k] == '.';
    var j := i + 1 + k;
    AllAddressCharsSlice(d, 0, k);
    AllAddressCharsSlice(d, k + 1, |d|);
    assert s[i + 1..j] == d[0..k];
    assert s[j + 1..] == d[k + 1..|d|];
    assert s[j] == '.';
  }

  lemma RegexImpliesIsEmail(s: string)
    requires MatchesRegex(s)
    ensures IsEmail(s)
  {
    var i, j :| 0 < i && i + 1 < j && j + 1 < |s| && s[i] == '@' && s[j] == '.'
      && IsRun(s[..i]) && IsRun(s[i + 1..j]) && IsRun(s[j + 1..]);
    var d := s[i + 1..];
    var b, c := s[i + 1..j], s[j + 1..];
    forall k | 0 <= k < |d| ensures IsAddressChar(d[k]) {
      if k < j - i - 1 {
        assert d[k] == b[k];
      } else if k > j - i - 1 {
        assert d[k] == c[k - (j - i)];
      }
    }
    assert d[j - i - 1] == '.';
  }

  /** The predicate and the regular expression accept exactly the same strings. */
  lemma IsEmailMatchesRegex(s: string)
    ensures IsEmail(s) <==> MatchesRegex(s)
  {
    if IsEmail(s) {
      IsEmailImpliesRegex(s);
    }
    if MatchesRegex(s) {
      RegexImpliesIsEmail(s);
    }
  }

  /** An accepted address holds exactly one `@` and no white space. */
  lemma EmailHasOneAtAndNoWhitespace(s: string)
    requires IsEmail(s)
    ensures multiset(s)['@'] == 1
    ensures forall k :: 0 <= k < |s| ==> !IsWhitespace(s[k])
  {
    var i :| 0 < i < |s| && s[i] == '@' && IsRun(s[..i]) && AllAddressChars(s[i + 1..]) && HasInnerDot(s[i + 1..]);
    var a, b := s[..i], s[i + 1..];
    assert s == a + [s[i]] + b;
    AddressCharsHaveNoAt(a);
    AddressCharsHaveNoAt(b);
    assert multiset(s) == multiset(a) + multiset([s[i]]) + multiset(b);
    AroundTheAt(s, i);
  }

  lemma AddressCharsHaveNoAt(a: string)
    requires AllAddressChars(a)
    ensures multiset(a)['@'] == 0
  {
    assert '@' !in a by {
      forall k | 0 <= k < |a| ensures a[k] != '@' {
        assert IsAddressChar(a[k]);
      }
    }
    assert '@' !in multiset(a);
  }

  /** Address characters on both sides of an `@` leave no white space in the string. */
  lemma AroundTheAt(s: string, i: int)
    requires 0 <= i < |s| && s[i] == '@' && AllAddressChars(s[..i]) && AllAddressChars(s[i + 1..])
    ensures forall k :: 0 <= k < |s| ==> !IsWhitespace(s[k])
  {
    forall k | 0 <= k < |s| ensures !IsWhitespace(s[k]) {
      if k < i {
        assert s[k] == s[..i][k];
      } else if k > i {
        assert s[k] == s[i + 1..][k - i - 1];
      }
    }
  }

  /** `a@b.co` is accepted; a string without `@`, or without a dot inside the domain, is not. */
  lemma EmailExamples()
    ensures IsEmail("a@b.co")
    ensures !IsEmail("ab.co")
    ensures !IsEmail("a@bco")
    ensures !IsEmail("a@b.")
  {
    var s := "a@b.co";
    assert s[1] == '@' && s[..1] == "a" && s[2..] == "b.co";
    assert "b.co"[1] == '.';
    assert HasInnerDot(s[2..]);
    forall i | 0 < i < |"ab.co"| ensures "ab.co"[i] != '@' { }
    var t := "a@bco";
    assert t[2..] == "bco";
    forall j | 0 < j < 2 ensures "bco"[j] != '.' { }
    assert !HasInnerDot(t[2..]);
    forall i | 0 < i < |t| && t[i] == '@' ensures i == 1 { }
    var u := "a@b.";
    assert u[2..] == "b.";
    assert !HasInnerDot(u[2..]);
    forall i | 0 < i < |u| && u[i] == '@' ensures i == 1 { }
  }
}
