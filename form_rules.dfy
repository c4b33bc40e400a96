/** What the three form validators share: the `{isValid, errors}` result, the
    required-field test, and the email rule of the contact and reservation
    forms. */
module FormRules {
  import opened JsValues
  import opened EmailPattern

  /** `{ isValid, errors }` as each validator returns it. */
  datatype Validation = Validation(isValid: bool, errors: seq<string>)

  /** The result of a validator that did not throw: `isValid: errors.length === 0`. */
  function Verdict(errors: seq<string>): (v: Validation)
    ensures v.errors == errors
    ensures v.isValid <==> errors == []
  {
    Validation(|errors| == 0, errors)
  }

  const EmailRequired := "Le champ email est requis"
  const EmailInvalid := "Le format de l'email est invalide"

  const FullNameRequired := "Le champ nom complet est requis"

  /** The messages of the email rule. */
  const EmailGroup := [EmailRequired, EmailInvalid]

  /** A required field: a missing, falsy or all-white-space value yields
      `message`, and nothing else ever does. */
  function RequiredRule(v: Value, message: string): (r: seq<string>)
    ensures |r| <= 1
    ensures message in r <==> PresenceOf(v).Blank?
    ensures r != [] ==> r == [message]
  {
    if PresenceOf(v).Blank? then [message] else []
  }

  /** The email rule of the contact and reservation forms: the field is
      required, and a present value must match the expression as sent,
      without trimming. */
  function EmailRule(email: Value): (r: seq<string>)
    ensures |r| <= 1
    ensures r != [] ==> r[0] == EmailRequired || r[0] == EmailInvalid
  {
    match PresenceOf(email)
    case Blank => [EmailRequired]
    case Filled(s) => if Matches(s) then [] else [EmailInvalid]
    case NotText => []
  }

  /** "requis" exactly when the email is missing or blank, the format error
      exactly when it is present but not well shaped; never both. */
  lemma EmailRuleMeaning(email: Value)
    ensures EmailRequired in EmailRule(email) <==> PresenceOf(email).Blank?
    ensures EmailInvalid in EmailRule(email) <==> PresenceOf(email).Filled? && !WellShaped(email.s)
    ensures !(EmailRequired in EmailRule(email) && EmailInvalid in EmailRule(email))
  {
    if email.Text? {
      MatchesIff(email.s);
    }
  }

  /** The email rule lets a value through, without the validator throwing on
      it, exactly when it is a well-shaped string. */
  lemma EmailAccepted(email: Value)
    ensures (!PresenceOf(email).NotText? && EmailRule(email) == []) <==> email.Text? && WellShaped(email.s)
  {
    EmailRuleMeaning(email);
    if email.Text? && WellShaped(email.s) {
      var at, dot :| 0 < at && at + 1 < dot < |email.s| - 1 && email.s[at] == '@' && email.s[dot] == '.';
      assert !IsSpace(email.s[at]);
    }
  }

  /** `xs` is `ys` with some elements left out: the errors come in the order
      `ys` lists them. */
  predicate Subsequence(xs: seq<string>, ys: seq<string>)
    decreases |ys|
  {
    || xs == []
    || (&& ys != []
        && ((xs[0] == ys[0] && Subsequence(xs[1..], ys[1..])) || Subsequence(xs, ys[1..])))
  }

  lemma {:induction false} SubsequenceOfOne(xs: seq<string>, ys: seq<string>)
    requires |xs| <= 1 && (xs != [] ==> xs[0] in ys)
    ensures Subsequence(xs, ys)
  {
    if xs != [] && xs[0] != ys[0] {
      SubsequenceOfOne(xs, ys[1..]);
    }
  }

  lemma {:induction false} SubsequenceSkip(xs: seq<string>, skipped: seq<string>, ys: seq<string>)
    requires Subsequence(xs, ys)
    ensures Subsequence(xs, skipped + ys)
  {
    if skipped != [] {
      SubsequenceSkip(xs, skipped[1..], ys);
      var longer := skipped + ys;
      assert longer[1..] == skipped[1..] + ys;
      assert longer != [] && Subsequence(xs, longer[1..]);
    } else {
      assert skipped + ys == ys;
    }
  }

  /** Errors gathered group after group come in the order of the groups. */
  lemma {:induction false} SubsequenceAppend(xs: seq<string>, ys: seq<string>, us: seq<string>, vs: seq<string>)
    requires Subsequence(xs, us) && Subsequence(ys, vs)
    ensures Subsequence(xs + ys, us + vs)
    decreases |us|
  {
    if xs == [] {
      SubsequenceSkip(ys, us, vs);
      assert xs + ys == ys;
    } else {
      assert (us + vs)[1..] == us[1..] + vs;
      if xs[0] == us[0] && Subsequence(xs[1..], us[1..]) {
        assert (xs + ys)[1..] == xs[1..] + ys;
        SubsequenceAppend(xs[1..], ys, us[1..], vs);
      } else {
        SubsequenceAppend(xs, ys, us[1..], vs);
      }
    }
  }

  /** A check that reports at most one of the messages `group` lists adds its
      group to the order the errors follow. */
  lemma AppendGroup(xs: seq<string>, order: seq<string>, added: seq<string>, group: seq<string>)
    requires Subsequence(xs, order)
    requires |added| <= 1 && (added != [] ==> added[0] in group)
    ensures Subsequence(xs + added, order + group)
  {
    SubsequenceOfOne(added, group);
    SubsequenceAppend(xs, added, order, group);
  }
}
