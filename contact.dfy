/** The contact form endpoint, api/contact.js: `validateContactData` and the
    request handler. */
module Contact {
  import opened JsValues
  import opened EmailPattern
  import opened FormRules
  import opened MailService
  import opened Responses

  const MessageRequired := "Le champ message est requis"
  const Sent := "Email envoyé avec succès"
  const SendFailed := "Une erreur est survenue lors de l'envoi de l'email"

  /** Every message the validator can report, in the order it checks. */
  const ContactMessages := EmailGroup + [FullNameRequired] + [MessageRequired]

  /** The validator throws exactly when a field it trims holds a truthy value
      that is not a string. */
  predicate ContactThrows(data: Properties) {
    || PresenceOf(Get(data, "email")).NotText?
    || PresenceOf(Get(data, "fullName")).NotText?
    || PresenceOf(Get(data, "message")).NotText?
  }

  /** The errors of a submission on which the validator does not throw. */
  function ContactErrors(data: Properties): seq<string> {
    EmailRule(Get(data, "email"))
    + RequiredRule(Get(data, "fullName"), FullNameRequired)
    + RequiredRule(Get(data, "message"), MessageRequired)
  }

  /** What `validateContactData(data)` returns or throws. */
  function ContactValidation(data: Properties): Completion<Validation> {
    if ContactThrows(data) then Threw(TypeError) else Returned(Verdict(ContactErrors(data)))
  }

  /** `validateContactData`: three guarded pushes onto a local error list. */
  method ValidateContact(data: Properties) returns (r: Completion<Validation>)
    ensures r == ContactValidation(data)
  {
    var errors: seq<string> := [];
    var email := PresenceOf(Get(data, "email"));
    if email.NotText? {
      return Threw(TypeError);
    } else if email.Blank? {
      errors := errors + [EmailRequired];
    } else if !Matches(email.raw) {
      errors := errors + [EmailInvalid];
    }
    assert errors == EmailRule(Get(data, "email"));
    var fullName := PresenceOf(Get(data, "fullName"));
    if fullName.NotText? {
      return Threw(TypeError);
    } else if fullName.Blank? {
      errors := errors + [FullNameRequired];
    }
    assert errors == EmailRule(Get(data, "email")) + RequiredRule(Get(data, "fullName"), FullNameRequired);
    var message := PresenceOf(Get(data, "message"));
    if message.NotText? {
      return Threw(TypeError);
    } else if message.Blank? {
      errors := errors + [MessageRequired];
    }
    assert errors == ContactErrors(data);
    return Returned(Validation(|errors| == 0, errors));
  }

  /** A submission passes exactly when its email is a well-shaped string and
      its full name and message are strings with some content. */
  lemma ContactValidIff(data: Properties)
    ensures ContactValidation(data).Returned? && ContactValidation(data).value.isValid
        <==> && Get(data, "email").Text? && WellShaped(Get(data, "email").s)
             && PresenceOf(Get(data, "fullName")).Filled?
             && PresenceOf(Get(data, "message")).Filled?
  {
    var email := Get(data, "email");
    EmailRuleMeaning(email);
    if email.Text? && WellShaped(email.s) {
      var at, dot :| 0 < at && at + 1 < dot < |email.s| - 1 && email.s[at] == '@' && email.s[dot] == '.';
      assert !IsSpace(email.s[at]);
      assert PresenceOf(email).Filled?;
    }
  }

  /** The email gives at most one error: "requis" when it is missing or blank,
      the format error when it is present but not well shaped, never both.
      The other two errors appear exactly when their field is blank. */
  lemma ContactErrorsMeaning(data: Properties)
    requires ContactValidation(data).Returned?
    ensures var errors := ContactValidation(data).value.errors;
            && (EmailRequired in errors <==> PresenceOf(Get(data, "email")).Blank?)
            && (EmailInvalid in errors <==> PresenceOf(Get(data, "email")).Filled? && !WellShaped(Get(data, "email").s))
            && !(EmailRequired in errors && EmailInvalid in errors)
            && (FullNameRequired in errors <==> PresenceOf(Get(data, "fullName")).Blank?)
            && (MessageRequired in errors <==> PresenceOf(Get(data, "message")).Blank?)
  {
    var e := EmailRule(Get(data, "email"));
    var f := RequiredRule(Get(data, "fullName"), FullNameRequired);
    var m := RequiredRule(Get(data, "message"), MessageRequired);
    EmailRuleMeaning(Get(data, "email"));
    MessagesDistinct();
    assert ContactValidation(data).value.errors == e + f + m;
    assert FullNameRequired !in e && MessageRequired !in e;
    assert EmailRequired !in f + m && EmailInvalid !in f + m && FullNameRequired !in m && MessageRequired !in f;
  }

  /** The four messages differ, so each names its own check. */
  lemma MessagesDistinct()
    ensures MessageRequired != EmailRequired && MessageRequired != EmailInvalid && MessageRequired != FullNameRequired
    ensures FullNameRequired != EmailRequired && FullNameRequired != EmailInvalid && EmailRequired != EmailInvalid
  {
    assert MessageRequired[9] == 'm' && EmailRequired[9] == 'e' && FullNameRequired[9] == 'n';
    assert EmailInvalid[3] == 'f' && MessageRequired[3] == 'c';
  }

  /** The errors come in the fixed order email, full name, message, so there
      are at most three. */
  lemma ContactErrorsOrder(data: Properties)
    requires ContactValidation(data).Returned?
    ensures Subsequence(ContactValidation(data).value.errors, ContactMessages)
    ensures |ContactValidation(data).value.errors| <= 3
  {
    var e := EmailRule(Get(data, "email"));
    var f := RequiredRule(Get(data, "fullName"), FullNameRequired);
    var m := RequiredRule(Get(data, "message"), MessageRequired);
    assert ContactValidation(data).value.errors == e + f + m;
    SubsequenceOfOne(e, EmailGroup);
    AppendGroup(e, EmailGroup, f, [FullNameRequired]);
    AppendGroup(e + f, EmailGroup + [FullNameRequired], m, [MessageRequired]);
  }

  /** A truthy non-string in a trimmed field (a number as the message, say)
      makes the validator throw rather than report. */
  lemma NumericMessageThrows()
    ensures ContactValidation([("email", Text("a@b.co")), ("fullName", Text("Awa")), ("message", Num(7))]) == Threw(TypeError)
  {
  }

  /** The handler. `httpMethod` and `body` are `req.method` and `req.body`;
      the mailer stands for the mail service's surroundings. */
  method HandleContact(httpMethod: string, body: Value, mailer: Mailer) returns (h: Handled)
    ensures httpMethod == "OPTIONS" ==> h == Preflight
    ensures httpMethod != "OPTIONS" && httpMethod != "POST" ==> h == WrongMethod
    ensures httpMethod == "POST" && !IsObject(body) ==> h == BadBody
    ensures httpMethod == "POST" && IsObject(body) ==>
              var data := PropertiesOf(body);
              match ContactValidation(data)
              case Threw(_) => h == Failed(SendFailed, None)
              case Returned(v) =>
                if !v.isValid then h == Rejected(v.errors)
                else
                  && h.handed == ContactMessage(mailer, data)
                  && h == if h.handed.Some? && mailer.deliver(h.handed.value)
                          then Succeeded(Sent, h.handed) else Failed(SendFailed, h.handed)
  {
    if httpMethod == "OPTIONS" {
      return Preflight;
    }
    if httpMethod != "POST" {
      return WrongMethod;
    }
    if !IsObject(body) {
      return BadBody;
    }
    var data := PropertiesOf(body);
    var validation := ValidateContact(data);
    if validation.Threw? {
      return Failed(SendFailed, None);
    }
    if !validation.value.isValid {
      return Rejected(validation.value.errors);
    }
    var sent, handed := SendContactEmail(mailer, data);
    if sent.Threw? {
      return Failed(SendFailed, handed);
    }
    return Succeeded(Sent, handed);
  }
}
