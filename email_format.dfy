/** The email check shared by the appointment and contact routes:
    `/^[^\s@]+@[^\s@]+\.[^\s@]+$/.test(email)`. */
module EmailFormat {
  import opened Text

  /** A character matched by `\s` in a JavaScript regular expression:
      the WhiteSpace and LineTerminator code points of ECMAScript. */
  predicate IsRegexSpace(c: char)
  {
    c == '\t' || c == '\n' || c == '\U{000B}' || c == '\U{000C}' || c == '\r' || c == ' '
    || c == '\U{00A0}' || c == '\U{1680}' || ('\U{2000}' <= c <= '\U{200A}')
    || c == '\U{2028}' || c == '\U{2029}' || c == '\U{202F}' || c == '\U{205F}'
    || c == '\U{3000}' || c == '\U{FEFF}'
  }

  predicate NoSpace(s: string)
  {
    forall k :: 0 <= k < |s| ==> !IsRegexSpace(s[k])
  }

  /** `[^\s@]+`: a non-empty run of characters that are neither space nor '@'. */
  predicate AtomRun(s: string)
  {
    |s| > 0 && forall k :: 0 <= k < |s| ==> !IsRegexSpace(s[k]) && s[k] != '@'
  }

  /** The anchored regular expression read literally: three runs separated
      by '@' at position i and '.' at position j. */
  ghost predicate MatchesEmailRegex(s: string)
  {
    exists i, j :: 0 <= i < j < |s| && s[i] == '@' && s[j] == '.'
      && AtomRun(s[..i]) && AtomRun(s[i + 1..j]) && AtomRun(s[j + 1..])
  }

  /** The domain holds a '.' that is neither its first nor its last character. */
  predicate HasInnerDot(domain: string)
  {
    exists k :: 0 < k < |domain| - 1 && domain[k] == '.'
  }

  /** What the regular expression accepts, as a direct check: no whitespace,
      exactly one '@', a non-empty local part, and a domain with an inner '.'. */
  predicate EmailShape(s: string)
  {
    NoSpace(s) && CountChar(s, '@') == 1
    && var at := IndexOf(s, '@');
    0 < at && HasInnerDot(s[at + 1..])
  }

  /** The direct check accepts exactly the strings the regular expression matches. */
  lemma EmailShapeIsRegex(s: string)
    ensures EmailShape(s) <==> MatchesEmailRegex(s)
  {
    if EmailShape(s) {
      ShapeMatches(s);
    }
    if MatchesEmailRegex(s) {
      var i, j :| 0 <= i < j < |s| && s[i] == '@' && s[j] == '.'
        && AtomRun(s[..i]) && AtomRun(s[i + 1..j]) && AtomRun(s[j + 1..]);
      MatchHasShape(s, i, j);
    }
  }

  lemma ShapeMatches(s: string)
    requires EmailShape(s)
    ensures MatchesEmailRegex(s)
  {
    var at := IndexOf(s, '@');
    var domain := s[at + 1..];
    assert s == s[..at] + [s[at]] + domain;
    CountCharAppend(s[..at] + [s[at]], domain, '@');
    CountCharAppend(s[..at], [s[at]], '@');
    CountCharZero(s[..at], '@');
    CountCharZero(domain, '@');
    var k :| 0 < k < |domain| - 1 && domain[k] == '.';
    var j := at + 1 + k;
    assert s[j] == '.';
    assert s[at + 1..j] == domain[..k];
    assert s[j + 1..] == domain[k + 1..];
    assert AtomRun(s[..at]);
    assert AtomRun(s[at + 1..j]);
    assert AtomRun(s[j + 1..]);
  }

  lemma MatchHasShape(s: string, i: int, j: int)
    requires 0 <= i < j < |s| && s[i] == '@' && s[j] == '.'
    requires AtomRun(s[..i]) && AtomRun(s[i + 1..j]) && AtomRun(s[j + 1..])
    ensures EmailShape(s)
  {
    var at := IndexOf(s, '@');
    assert '@' !in s[..i];
    assert at == i;
    forall k | 0 <= k < |s|
      ensures !IsRegexSpace(s[k])
    {
      if k < i {
        assert s[k] == s[..i][k];
      } else if i < k < j {
        assert s[k] == s[i + 1..j][k - i - 1];
      } else if j < k {
        assert s[k] == s[j + 1..][k - j - 1];
      }
    }
    var domain := s[i + 1..];
    assert domain == s[i + 1..j] + [s[j]] + s[j + 1..];
    CountCharAppend(s[i + 1..j] + [s[j]], s[j + 1..], '@');
    CountCharAppend(s[i + 1..j], [s[j]], '@');
    CountCharZero(s[i + 1..j], '@');
    CountCharZero(s[j + 1..], '@');
    assert s == s[..i] + [s[i]] + domain;
    CountCharAppend(s[..i] + [s[i]], domain, '@');
    CountCharAppend(s[..i], [s[i]], '@');
    CountCharZero(s[..i], '@');
    assert domain[j - i - 1] == '.';
  }

  lemma EmailShapeAcceptsExample()
    ensures EmailShape("a@b.com")
  {
    var s := "a@b.com";
    assert s[..1] == "a" && s[2..3] == "b" && s[4..] == "com";
    MatchHasShape(s, 1, 3);
  }

  lemma EmailShapeRejectsExamples()
    ensures !EmailShape("a@b") && !EmailShape("@b.com") && !EmailShape("a@.com") && !EmailShape("a@b.")
  {
    assert IndexOf("a@b", '@') == 1;
    assert IndexOf("@b.com", '@') == 0;
    assert IndexOf("a@.com", '@') == 1;
    assert IndexOf("a@b.", '@') == 1;
  }

  lemma EmailShapeRejectsSpaceAndSecondAt()
    ensures !EmailShape("a b@c.de") && !EmailShape("a@b@c.de")
  {
    assert "a b@c.de"[1] == ' ';
    assert CountChar("a@b@c.de", '@') == 2;
  }
}
