/**
 * The email shape check `/^[^\s@]+@[^\s@]+\.[^\s@]+$/`, used both by the session manager
 * (AuthContext) and by the form validators.
 */
module EmailPattern {
  import opened Strings

  /** A character the class `[^\s@]` admits. */
  predicate Plain(c: char) {
    !IsSpace(c) && c != '@'
  }

  predicate AllPlain(s: string) {
    forall i :: 0 <= i < |s| ==> Plain(s[i])
  }

  /**
   * The regular expression read literally, with the positions the matcher settles on: a non-empty
   * plain run, an '@' at `at`, a non-empty plain run, a '.' at `dot`, a non-empty plain run to the end.
   */
  ghost predicate MatchesAt(s: string, at: int, dot: int) {
    0 < at && at + 1 < dot && dot + 1 < |s| && s[at] == '@' && s[dot] == '.'
    && AllPlain(s[..at]) && AllPlain(s[at + 1..dot]) && AllPlain(s[dot + 1..])
  }

  ghost predicate MatchesPattern(s: string) {
    exists at, dot :: MatchesAt(s, at, dot)
  }

  /**
   * `emailRegex.test(s)`, decided in one pass: the local part ends at the first '@', and the
   * rest holds no white space and no other '@' and has a '.' that is neither its first nor its last character.
   */
  predicate IsEmailShape(s: string): (b: bool)
    ensures b ==> '@' in s && s[0] != '@' && |s| >= 5
  {
    var at := IndexOf(s, '@');
    0 < at < |s| && AllPlain(s[..at]) &&
    var domain := s[at + 1..];
    AllPlain(domain) && |domain| >= 3 && '.' in domain[1..|domain| - 1]
  }

  /** The one-pass check accepts exactly the strings the regular expression matches. */
  lemma {:induction false} ShapeIsPattern(s: string)
    ensures IsEmailShape(s) <==> MatchesPattern(s)
  {
    if IsEmailShape(s) {
      ShapeMatches(s);
    }
    if MatchesPattern(s) {
      var at, dot :| MatchesAt(s, at, dot);
      MatchIsShape(s, at, dot);
    }
  }

  /** A string the one-pass check accepts matches, with '@' at the first '@' and the first inner '.' of the domain. */
  lemma {:induction false} ShapeMatches(s: string)
    requires IsEmailShape(s)
    ensures MatchesPattern(s)
  {
    var at := IndexOf(s, '@');
    var domain := s[at + 1..];
    var inner := domain[1..|domain| - 1];
    var j :| 0 <= j < |inner| && inner[j] == '.';
    var dot := at + 2 + j;
    assert s[at + 1..dot] == domain[..j + 1];
    assert s[dot + 1..] == domain[j + 2..];
    assert MatchesAt(s, at, dot);
  }

  /** Any way the regular expression matches puts its '@' at the first '@', and the one-pass check accepts. */
  lemma {:induction false} MatchIsShape(s: string, at: int, dot: int)
    requires MatchesAt(s, at, dot)
    ensures IsEmailShape(s)
  {
    assert forall k :: 0 <= k < at ==> s[k] == s[..at][k];
    assert IndexOf(s, '@') == at;
    var domain := s[at + 1..];
    assert domain == s[at + 1..dot] + [s[dot]] + s[dot + 1..];
    assert domain[dot - at - 1] == '.';
    assert domain[1..|domain| - 1][dot - at - 2] == '.';
  }

  /** A shaped email has no white space anywhere; in particular none at either end. */
  lemma {:induction false} ShapeHasNoSpace(s: string)
    ensures IsEmailShape(s) ==> forall i :: 0 <= i < |s| ==> !IsSpace(s[i])
  {
    var at := IndexOf(s, '@');
    forall i | IsEmailShape(s) && 0 <= i < |s| ensures !IsSpace(s[i]) {
      if i < at {
        assert s[i] == s[..at][i];
      } else if i > at {
        assert s[i] == s[at + 1..][i - at - 1];
      }
    }
  }

  /** A shaped email holds exactly one '@', with at least one character before it. */
  lemma {:induction false} ShapeHasOneAt(s: string)
    ensures IsEmailShape(s) ==> 0 < IndexOf(s, '@') < |s|
    ensures IsEmailShape(s) ==> forall i :: 0 <= i < |s| && s[i] == '@' ==> i == IndexOf(s, '@')
  {
    var at := IndexOf(s, '@');
    assert forall i :: at < i < |s| ==> s[i] == s[at + 1..][i - at - 1];
  }

  /** White space only, the empty string included, is never a shaped email. */
  lemma {:induction false} BlankIsNotShape(s: string)
    requires AllSpace(s)
    ensures !IsEmailShape(s)
  {
    if |s| > 0 {
      assert IsSpace(s[0]);
      assert forall at :: 0 < at <= |s| ==> s[..at][0] == s[0];
    }
  }
}
