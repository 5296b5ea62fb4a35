/** The address check `^[^\s@]+@[^\s@]+\.[^\s@]+$` used by all three handlers and
    by the browser form, written without regular expressions. */
module Email {
  import opened Text

  /** One `[^\s@]+` group of the pattern. */
  predicate IsEmailPart(s: string) {
    |s| > 0 && forall i :: 0 <= i < |s| ==> !IsSpace(s[i]) && s[i] != '@'
  }

  /** The pattern read as a regular expression: the whole string splits into a
      group, '@', a group, '.', a group. */
  ghost predicate MatchesEmailPattern(s: string) {
    exists at: nat, dot: nat ::
      && at < dot < |s|
      && IsEmailPart(s[..at]) && s[at] == '@'
      && IsEmailPart(s[at + 1..dot]) && s[dot] == '.'
      && IsEmailPart(s[dot + 1..])
  }

  /** The check as the handlers evaluate it: no whitespace, a first '@' with
      something before it and no second '@', and a '.' at least two places after
      the '@' that is not the last character. */
  predicate IsValidEmail(s: string) {
    var at := IndexOf(s, '@');
    && NoSpace(s)
    && 1 <= at
    && at + 4 <= |s|
    && '@' !in s[at + 1..]
    && '.' in s[at + 2..|s| - 1]
  }

  /** The executable check accepts exactly the strings the pattern matches. */
  lemma EmailCheckMatchesPattern(s: string)
    ensures IsValidEmail(s) <==> MatchesEmailPattern(s)
  {
    if IsValidEmail(s) {
      ValidEmailMatches(s);
    }
    if MatchesEmailPattern(s) {
      var at: nat, dot: nat :|
        && at < dot < |s|
        && IsEmailPart(s[..at]) && s[at] == '@'
        && IsEmailPart(s[at + 1..dot]) && s[dot] == '.'
        && IsEmailPart(s[dot + 1..]);
      MatchIsValid(s, at, dot);
    }
  }

  lemma ValidEmailMatches(s: string)
    requires IsValidEmail(s)
    ensures MatchesEmailPattern(s)
  {
    var at := IndexOf(s, '@');
    var mid := s[at + 2..|s| - 1];
    var k := IndexOf(mid, '.');
    var dot: nat := at + 2 + k;
    assert s[dot] == mid[k];
    forall i | 0 <= i < |s| && i != at
      ensures s[i] != '@'
    {
      if i > at {
        assert s[i] == s[at + 1..][i - at - 1];
      }
    }
    assert IsEmailPart(s[..at]);
    assert IsEmailPart(s[at + 1..dot]);
    assert IsEmailPart(s[dot + 1..]);
  }

  lemma MatchIsValid(s: string, at: nat, dot: nat)
    requires at < dot < |s|
    requires IsEmailPart(s[..at]) && s[at] == '@'
    requires IsEmailPart(s[at + 1..dot]) && s[dot] == '.'
    requires IsEmailPart(s[dot + 1..])
    ensures IsValidEmail(s)
  {
    forall i | 0 <= i < |s|
      ensures !IsSpace(s[i]) && (s[i] == '@' ==> i == at)
    {
      if i < at {
        assert s[i] == s[..at][i];
      } else if at < i < dot {
        assert s[i] == s[at + 1..dot][i - at - 1];
      } else if dot < i {
        assert s[i] == s[dot + 1..][i - dot - 1];
      }
    }
    assert IndexOf(s, '@') == at;
    var rest := s[at + 1..];
    assert '@' !in rest by {
      forall j | 0 <= j < |rest|
        ensures rest[j] != '@'
      {
        assert rest[j] == s[at + 1 + j];
      }
    }
    assert s[at + 2..|s| - 1][dot - at - 2] == '.';
  }

  /** A valid address has no whitespace, so cleaning leaves it unchanged when it
      fits the field limit. */
  lemma CleanTextKeepsValidEmail(s: string)
    requires IsValidEmail(s) && |s| <= MaxFieldLength
    ensures CleanText(s) == s
  {
    assert Collapsed(s);
    CleanTextFixesNormalized(s);
  }
}
