/** The address check all three forms share: the regular expression
    `^[^\s@]+@[^\s@]+\.[^\s@]+$` (api/contact.js, api/reservation.js and
    api/panels-inscription.js each spell it out), and the shape it accepts,
    stated without reference to the expression. */
module EmailPattern {
  import opened JsValues

  /** `[^\s@]+`: one or more characters, none of them white space or `@`. */
  predicate Segment(s: string) {
    s != "" && forall i :: 0 <= i < |s| ==> !IsSpace(s[i]) && s[i] != '@'
  }

  /** `/^[^\s@]+@[^\s@]+\.[^\s@]+$/.test(s)`: the string splits into a segment,
      `@`, a segment, `.`, and a segment. */
  predicate Matches(s: string) {
    exists at, dot :: 0 <= at < dot < |s| && s[at] == '@' && s[dot] == '.'
      && Segment(s[..at]) && Segment(s[at + 1..dot]) && Segment(s[dot + 1..])
  }

  /** The accepted shape said directly: exactly one `@`, no white space, a
      non-empty part before the `@`, and after it a domain holding a `.` with
      at least one character on each side. */
  predicate WellShaped(s: string) {
    && multiset(s)['@'] == 1
    && (forall i :: 0 <= i < |s| ==> !IsSpace(s[i]))
    && exists at, dot :: 0 < at && at + 1 < dot < |s| - 1 && s[at] == '@' && s[dot] == '.'
  }

  lemma NoAt(s: string)
    requires forall i :: 0 <= i < |s| ==> s[i] != '@'
    ensures multiset(s)['@'] == 0
  {
    assert '@' !in s;
  }

  lemma TwoAts(s: string, i: int, j: int)
    requires 0 <= i < j < |s| && s[i] == '@' && s[j] == '@'
    ensures multiset(s)['@'] >= 2
  {
    assert s == s[..i] + [s[i]] + s[i + 1..j] + [s[j]] + s[j + 1..];
  }

  lemma SplitCount(s: string, at: int, dot: int)
    requires 0 <= at < dot < |s| && s[at] == '@' && s[dot] == '.'
    requires Segment(s[..at]) && Segment(s[at + 1..dot]) && Segment(s[dot + 1..])
    ensures multiset(s)['@'] == 1
  {
    var local, middle, top := s[..at], s[at + 1..dot], s[dot + 1..];
    assert s == local + [s[at]] + middle + [s[dot]] + top;
    NoAt(local);
    NoAt(middle);
    NoAt(top);
  }

  lemma SplitNoSpace(s: string, at: int, dot: int)
    requires 0 <= at < dot < |s| && s[at] == '@' && s[dot] == '.'
    requires Segment(s[..at]) && Segment(s[at + 1..dot]) && Segment(s[dot + 1..])
    ensures forall i :: 0 <= i < |s| ==> !IsSpace(s[i])
  {
    forall i | 0 <= i < |s| ensures !IsSpace(s[i]) {
      if i < at {
        assert s[i] == s[..at][i];
      } else if at < i < dot {
        assert s[i] == s[at + 1..dot][i - at - 1];
      } else if dot < i {
        assert s[i] == s[dot + 1..][i - dot - 1];
      }
    }
  }

  lemma MatchesIsWellShaped(s: string)
    requires Matches(s)
    ensures WellShaped(s)
  {
    var at, dot :| 0 <= at < dot < |s| && s[at] == '@' && s[dot] == '.'
      && Segment(s[..at]) && Segment(s[at + 1..dot]) && Segment(s[dot + 1..]);
    SplitCount(s, at, dot);
    SplitNoSpace(s, at, dot);
    assert |s[..at]| > 0 && |s[at + 1..dot]| > 0 && |s[dot + 1..]| > 0;
  }

  lemma WellShapedMatches(s: string)
    requires WellShaped(s)
    ensures Matches(s)
  {
    var at, dot :| 0 < at && at + 1 < dot < |s| - 1 && s[at] == '@' && s[dot] == '.';
    forall k | 0 <= k < |s| && k != at ensures s[k] != '@' {
      if s[k] == '@' {
        if k < at { TwoAts(s, k, at); } else { TwoAts(s, at, k); }
      }
    }
    var local, middle, top := s[..at], s[at + 1..dot], s[dot + 1..];
    assert forall i :: 0 <= i < |local| ==> local[i] == s[i];
    assert forall i :: 0 <= i < |middle| ==> middle[i] == s[at + 1 + i];
    assert forall i :: 0 <= i < |top| ==> top[i] == s[dot + 1 + i];
    assert Segment(local) && Segment(middle) && Segment(top);
  }

  /** The expression accepts exactly the well-shaped addresses. */
  lemma MatchesIff(s: string)
    ensures Matches(s) <==> WellShaped(s)
  {
    if Matches(s) { MatchesIsWellShaped(s); }
    if WellShaped(s) { WellShapedMatches(s); }
  }

  /** A short well-formed address passes. */
  lemma AcceptsExample()
    ensures Matches("a@b.co")
  {
    var good := "a@b.co";
    assert good[..1] == "a" && good[2..3] == "b" && good[4..] == "co";
    assert Segment("a") && Segment("b");
    assert Segment("co");
    assert good[1] == '@' && good[3] == '.';
  }

  /** A string with no `@` fails. */
  lemma RejectsExample()
    ensures !Matches("not-an-email")
  {
    var bad := "not-an-email";
    assert forall i :: 0 <= i < |bad| ==> bad[i] != '@';
  }
}
