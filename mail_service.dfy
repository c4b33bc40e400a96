/** The mail service of src/services/mail.service.js: filling a template's
    `{{name}}` placeholders from a data object, building the message handed to
    the transport (with the sender and recipient defaults), and the contact and
    reservation notifications. Template storage and the transport are given as
    parameters: a map from template name to text, and a function that says
    whether the transport accepts a message. */
module MailService {
  import opened JsValues

  // ---------------------------------------------------------------------------
  // Placeholder substitution

  /** `{{key}}` */
  function Placeholder(key: string): string {
    "{{" + key + "}}"
  }

  /** A placeholder name without braces, such as every key the notifications use. */
  predicate PlainName(key: string) {
    forall i :: 0 <= i < |key| ==> key[i] != '{' && key[i] != '}'
  }

  /** An occurrence of `token` begins at position `i` of `text`. */
  predicate StartsAt(text: string, token: string, i: int) {
    0 <= i && i + |token| <= |text| && text[i..i + |token|] == token
  }

  /** `token` occurs somewhere in `text`. */
  ghost predicate Occurs(text: string, token: string) {
    exists i :: StartsAt(text, token, i)
  }

  /** `text.replace(new RegExp(token, 'g'), value)` for a token that matches
      literally: scan from the left; each occurrence found is replaced and the
      scan resumes after it, so inserted text is never scanned again. */
  function ReplaceAll(text: string, token: string, value: string): string
    requires token != ""
    decreases |text|
  {
    if text == "" then ""
    else if StartsAt(text, token, 0) then value + ReplaceAll(text[|token|..], token, value)
    else [text[0]] + ReplaceAll(text[1..], token, value)
  }

  lemma StartsAtShift(text: string, token: string, i: int)
    requires text != "" && StartsAt(text[1..], token, i)
    ensures StartsAt(text, token, i + 1)
  {
    assert text[1..][i..i + |token|] == text[i + 1..i + 1 + |token|];
  }

  /** A stretch in which no occurrence begins is copied as it is. */
  lemma {:induction false} ReplaceAllCopies(p: string, rest: string, token: string, value: string)
    requires token != ""
    requires forall i :: 0 <= i < |p| ==> !StartsAt(p + rest, token, i)
    ensures ReplaceAll(p + rest, token, value) == p + ReplaceAll(rest, token, value)
    decreases |p|
  {
    if p != "" {
      var text := p + rest;
      assert text[1..] == p[1..] + rest;
      forall i | 0 <= i < |p[1..]| ensures !StartsAt(p[1..] + rest, token, i) {
        if StartsAt(p[1..] + rest, token, i) { StartsAtShift(text, token, i); }
      }
      ReplaceAllCopies(p[1..], rest, token, value);
    } else {
      assert p + rest == rest;
    }
  }

  /** Text holding no occurrence of the token comes back unchanged. */
  lemma ReplaceAllAbsent(text: string, token: string, value: string)
    requires token != ""
    requires !Occurs(text, token)
    ensures ReplaceAll(text, token, value) == text
  {
    assert text + "" == text;
    ReplaceAllCopies(text, "", token, value);
  }

  /** Within a placeholder `{{j}}`, an occurrence of a placeholder of plain name
      can begin only at its first brace, and only if the names are the same. */
  lemma NoStartInsidePlaceholder(j: string, rest: string, key: string, i: int)
    requires PlainName(j) && PlainName(key)
    requires 0 <= i < |Placeholder(j)|
    requires i > 0 || j != key
    ensures !StartsAt(Placeholder(j) + rest, Placeholder(key), i)
  {
    var u, t := Placeholder(j), Placeholder(key);
    var text := u + rest;
    if i + |t| <= |text| {
      var window := text[i..i + |t|];
      if i == 0 {
        var p: nat;
        if |j| < |key| {
          p := 2 + |j|;
          assert t[p] == key[|j|];
        } else if |j| > |key| {
          p := 2 + |key|;
          assert u[p] == j[|key|];
        } else {
          var k :| 0 <= k < |j| && j[k] != key[k];
          p := 2 + k;
          assert u[p] == j[k] && t[p] == key[k];
        }
        assert window[p] == u[p];
        assert window[p] != t[p];
      } else if i == 1 {
        assert u[2] != '{' by { if |j| > 0 { assert u[2] == j[0]; } }
        assert window[1] == u[2];
        assert window[1] != t[1];
      } else {
        assert u[i] != '{' by { if i < 2 + |j| { assert u[i] == j[i - 2]; } }
        assert window[0] == u[i];
        assert window[0] != t[0];
      }
    }
  }

  /** An occurrence of a placeholder cannot begin in the text before another
      placeholder and run into it. */
  lemma NoStartAcross(a: string, j: string, b: string, key: string)
    requires PlainName(j) && PlainName(key)
    requires 0 < |a| < |Placeholder(key)|
    ensures !StartsAt(a + Placeholder(j) + b, Placeholder(key), 0)
  {
    var u, t, text := Placeholder(j), Placeholder(key), a + Placeholder(j) + b;
    if |t| <= |text| {
      var window := text[..|t|];
      assert text[|a|] == u[0] == '{';
      if |a| == 1 {
        assert text[2] == u[1] == '{';
        assert t[2] != '{' by { if |key| > 0 { assert t[2] == key[0]; } }
        assert window[2] != t[2];
      } else {
        assert t[|a|] != '{' by { if |a| < 2 + |key| { assert t[|a|] == key[|a| - 2]; } }
        assert window[|a|] != t[|a|];
      }
    }
  }

  /** A placeholder at the start of the text is replaced when it is the
      token's own, and copied otherwise. */
  lemma PlaceholderFirst(j: string, b: string, key: string, value: string)
    requires PlainName(j) && PlainName(key)
    ensures ReplaceAll(Placeholder(j) + b, Placeholder(key), value)
         == (if j == key then value else Placeholder(j)) + ReplaceAll(b, Placeholder(key), value)
  {
    var u, t := Placeholder(j), Placeholder(key);
    if j == key {
      assert StartsAt(u + b, t, 0);
      assert (u + b)[|t|..] == b;
    } else {
      forall i | 0 <= i < |u| ensures !StartsAt(u + b, t, i) {
        NoStartInsidePlaceholder(j, b, key, i);
      }
      ReplaceAllCopies(u, b, t, value);
    }
  }

  /** The scan treats a placeholder in the middle of the text as a unit: the
      token's own placeholder is replaced, any other is kept, and the text on
      either side is processed as if it stood alone. */
  lemma {:induction false} ReplaceAllAround(a: string, j: string, b: string, key: string, value: string)
    requires PlainName(j) && PlainName(key)
    ensures ReplaceAll(a + Placeholder(j) + b, Placeholder(key), value)
         == ReplaceAll(a, Placeholder(key), value)
            + (if j == key then value else Placeholder(j))
            + ReplaceAll(b, Placeholder(key), value)
    decreases |a|
  {
    var u, t := Placeholder(j), Placeholder(key);
    var text := a + u + b;
    if a == "" {
      assert text == u + b;
      PlaceholderFirst(j, b, key, value);
      assert ReplaceAll(a, t, value) == "";
    } else {
      var middle, rb := if j == key then value else u, ReplaceAll(b, t, value);
      var front, n: nat;
      if StartsAt(text, t, 0) {
        MatchInFront(a, j, b, key, value);
        front, n := value, |t|;
      } else {
        NoMatchInFront(a, u + b, t, value);
        assert text[1..] == a[1..] + u + b;
        front, n := [a[0]], 1;
      }
      ReplaceAllAround(a[n..], j, b, key, value);
      var ra := ReplaceAll(a[n..], t, value);
      assert ReplaceAll(text, t, value) == front + (ra + middle + rb);
      assert ReplaceAll(a, t, value) == front + ra;
      Regroup(front, ra, middle, rb);
    }
  }

  lemma Regroup(w: string, x: string, y: string, z: string)
    ensures w + (x + y + z) == (w + x) + y + z
  {
  }

  /** An occurrence at the front of `a + {{j}} + b` lies within `a`. */
  lemma MatchInFront(a: string, j: string, b: string, key: string, value: string)
    requires PlainName(j) && PlainName(key)
    requires a != "" && StartsAt(a + Placeholder(j) + b, Placeholder(key), 0)
    ensures |Placeholder(key)| <= |a|
    ensures ReplaceAll(a, Placeholder(key), value) == value + ReplaceAll(a[|Placeholder(key)|..], Placeholder(key), value)
    ensures ReplaceAll(a + Placeholder(j) + b, Placeholder(key), value)
         == value + ReplaceAll(a[|Placeholder(key)|..] + Placeholder(j) + b, Placeholder(key), value)
  {
    var u, t := Placeholder(j), Placeholder(key);
    var text := a + u + b;
    if |a| < |t| {
      NoStartAcross(a, j, b, key);
    }
    assert a[..|t|] == text[..|t|];
    assert StartsAt(a, t, 0);
    assert text[|t|..] == a[|t|..] + u + b;
  }

  /** Without an occurrence at the front, the first character is copied. */
  lemma NoMatchInFront(a: string, rest: string, t: string, value: string)
    requires t != "" && a != "" && !StartsAt(a + rest, t, 0)
    ensures ReplaceAll(a, t, value) == [a[0]] + ReplaceAll(a[1..], t, value)
    ensures ReplaceAll(a + rest, t, value) == [a[0]] + ReplaceAll((a + rest)[1..], t, value)
  {
    assert |t| <= |a| ==> (a + rest)[..|t|] == a[..|t|];
  }

  /** Replacement is not repeated on its own output: the text a value brings
      in, together with braces around it, can form the placeholder again. */
  lemma SubstitutionIsNotRescanned()
    ensures ReplaceAll("{{{{k}}", Placeholder("k"), "k}}") == Placeholder("k")
    ensures !Occurs("k}}", Placeholder("k"))
  {
    var t := Placeholder("k");
    assert t == "{{k}}";
    var text := "{{{{k}}";
    assert text[..5][2] != t[2];
    assert text[1..] == "{{{k}}";
    assert text[1..][..5][2] != t[2];
    assert text[1..][1..] == t;
    assert StartsAt(t, t, 0);
    assert t[5..] == "";
    assert !StartsAt("k}}", t, 0);
  }

  // ---------------------------------------------------------------------------
  // Templates

  /** What replaces a placeholder: `data[key] || ''`, turned into a string. */
  function Substitute(v: Value): string {
    if Truthy(v) then Display(v) else ""
  }

  /** Every value the loop substitutes for `keys` can be turned into a string;
      a falsy value is replaced by `''` and always can. */
  predicate Printable(data: Properties, keys: seq<string>) {
    forall i :: 0 <= i < |keys| ==> Stringifies(Get(data, keys[i]))
  }

  /** The substitution loop of `loadTemplate`, on the keys still to process. */
  function Render(html: string, data: Properties, keys: seq<string>): string
    decreases |keys|
  {
    if keys == [] then html
    else Render(ReplaceAll(html, Placeholder(keys[0]), Substitute(Get(data, keys[0]))), data, keys[1..])
  }

  /** A placeholder whose name is not a key of the data passes through the
      whole substitution untouched, and the text around it is rendered as if
      it stood alone. */
  lemma {:induction false} RenderKeepsUnknownPlaceholder(a: string, j: string, b: string, data: Properties, keys: seq<string>)
    requires PlainName(j) && j !in keys
    requires forall i :: 0 <= i < |keys| ==> PlainName(keys[i])
    ensures Render(a + Placeholder(j) + b, data, keys) == Render(a, data, keys) + Placeholder(j) + Render(b, data, keys)
    decreases |keys|
  {
    if keys != [] {
      var t, value := Placeholder(keys[0]), Substitute(Get(data, keys[0]));
      ReplaceAllAround(a, j, b, keys[0], value);
      RenderKeepsUnknownPlaceholder(ReplaceAll(a, t, value), j, ReplaceAll(b, t, value), data, keys[1..]);
    }
  }

  /** With a single key, every occurrence of its placeholder takes the key's
      value (nothing at all for a falsy value), and the rest of the text is kept. */
  lemma RenderOneKey(a: string, b: string, key: string, v: Value)
    requires PlainName(key)
    requires !Occurs(a, Placeholder(key)) && !Occurs(b, Placeholder(key))
    ensures Render(a + Placeholder(key) + b, [(key, v)], [key]) == a + Substitute(v) + b
    ensures !Truthy(v) ==> Render(a + Placeholder(key) + b, [(key, v)], [key]) == a + b
  {
    var t, sv := Placeholder(key), Substitute(v);
    var replaced := ReplaceAll(a + t + b, t, sv);
    assert Render(a + t + b, [(key, v)], [key]) == replaced by {
      assert Get([(key, v)], key) == v;
      assert [key][1..] == [];
    }
    assert replaced == a + sv + b by {
      ReplaceAllAround(a, key, b, key, sv);
      ReplaceAllAbsent(a, t, sv);
      ReplaceAllAbsent(b, t, sv);
    }
    if !Truthy(v) {
      assert a + sv + b == a + b;
    }
  }

  /** `Template <name> introuvable` */
  function TemplateMissing(name: string): string {
    "Template " + name + " introuvable"
  }

  /** `loadTemplate(templateName, data)`: look the template up and replace, key
      after key in the data's key order, every `{{key}}` in the text built so
      far. `templates` stands for the template directory. A missing template,
      and a value that cannot be turned into a string, both end in the `catch`
      and its `Template <name> introuvable`. */
  method LoadTemplate(templates: map<string, string>, name: string, data: Properties) returns (r: Completion<string>)
    ensures name !in templates || !Printable(data, Keys(data)) ==> r == Threw(TemplateMissing(name))
    ensures name in templates && Printable(data, Keys(data)) ==> r == Returned(Render(templates[name], data, Keys(data)))
    ensures name in templates && data == [] ==> r == Returned(templates[name])
  {
    if name !in templates {
      return Threw(TemplateMissing(name));
    }
    var html := templates[name];
    var keys := Keys(data);
    var i := 0;
    while i < |keys|
      invariant 0 <= i <= |keys|
      invariant forall k :: 0 <= k < i ==> Stringifies(Get(data, keys[k]))
      invariant Render(html, data, keys[i..]) == Render(templates[name], data, keys)
    {
      var key := keys[i];
      var value := Get(data, key);
      if !Stringifies(value) {
        return Threw(TemplateMissing(name));
      }
      assert keys[i..][1..] == keys[i + 1..];
      html := ReplaceAll(html, Placeholder(key), Substitute(value));
      i := i + 1;
    }
    return Returned(html);
  }

  /** An illustration: `Hello {{name}}` with `name` set, and with no data. */
  lemma GreetingExample()
    ensures Render("Hello " + Placeholder("name"), [("name", Text("Ada"))], ["name"]) == "Hello Ada"
    ensures Render("Hello " + Placeholder("name"), [], []) == "Hello {{name}}"
  {
    var a := "Hello ";
    assert !Occurs(a, Placeholder("name"));
    assert !Occurs("", Placeholder("name"));
    RenderOneKey(a, "", "name", Text("Ada"));
    assert a + Placeholder("name") + "" == a + Placeholder("name");
  }

  // ---------------------------------------------------------------------------
  // Sending

  /** The message handed to the transport (`mailOptions`). */
  datatype MailOptions = MailOptions(from: string, to: string, subject: string, html: string)

  /** The argument of `sendEmail`; `to` and `from` may be left out. */
  datatype EmailRequest = EmailRequest(to: Option<string>, subject: string, html: string, from: Option<string>)

  /** What the service needs from its surroundings: the template directory, the
      configured account (`MAIL_USER`), the formatted current date, and the
      transport, which accepts a message or throws (also when it cannot be
      configured). */
  datatype Mailer = Mailer(templates: map<string, string>, mailUser: string, date: string, deliver: MailOptions -> bool)

  const TransportFailure := "transport failure"

  function DefaultSender(mailUser: string): string {
    "\"Node Mail Backend\" <" + mailUser + ">"
  }

  /** `option || fallback` for an optional string argument. */
  function OrDefault(option: Option<string>, fallback: string): string {
    if option.Some? && option.value != "" then option.value else fallback
  }

  /** The `mailOptions` object that `sendEmail` builds. */
  function OptionsFor(request: EmailRequest, mailUser: string): MailOptions {
    MailOptions(OrDefault(request.from, DefaultSender(mailUser)), OrDefault(request.to, mailUser),
                request.subject, request.html)
  }

  /** The sender and the recipient fall back to the configured account unless
      the caller names them; subject and body pass through unchanged. */
  lemma OptionsDefaults(request: EmailRequest, mailUser: string)
    ensures OptionsFor(request, mailUser).subject == request.subject
    ensures OptionsFor(request, mailUser).html == request.html
    ensures request.from.Some? && request.from.value != "" ==> OptionsFor(request, mailUser).from == request.from.value
    ensures (request.from.None? || request.from.value == "") ==> OptionsFor(request, mailUser).from == DefaultSender(mailUser)
    ensures request.to.Some? && request.to.value != "" ==> OptionsFor(request, mailUser).to == request.to.value
    ensures (request.to.None? || request.to.value == "") ==> OptionsFor(request, mailUser).to == mailUser
  {
  }

  /** `sendEmail(request)`: build the options and hand them to the transport. */
  function SendEmail(mailer: Mailer, request: EmailRequest): (r: Completion<MailOptions>)
    ensures r.Returned? <==> mailer.deliver(OptionsFor(request, mailer.mailUser))
    ensures r.Returned? ==> r.value == OptionsFor(request, mailer.mailUser)
  {
    var options := OptionsFor(request, mailer.mailUser);
    if mailer.deliver(options) then Returned(options) else Threw(TransportFailure)
  }

  // ---------------------------------------------------------------------------
  // The notifications

  /** `value || fallback` */
  function Or(v: Value, fallback: string): Value {
    if Truthy(v) then v else Text(fallback)
  }

  const ContactSubject := "Nouveau message de contact"
  const ReservationSubject := "Nouvelle réservation"

  /** The form fields the contact template shows, in the order they are given. */
  const ContactFields := ["civility", "fullName", "organization", "country", "email", "phone",
                          "participationType", "message"]

  /** The form fields the reservation template shows, before `numberOfPeople`. */
  const ReservationFields := ["fullName", "email", "phone", "organization", "participationType", "package"]

  /** The data `sendContactEmail` gives the `contact` template. */
  function ContactContext(data: Properties, date: string): Properties {
    seq(|ContactFields|, i requires 0 <= i < |ContactFields| =>
          (ContactFields[i], Or(Get(data, ContactFields[i]), "")))
    + [("date", Text(date))]
  }

  /** The data `sendReservationEmail` gives the `reservation` template. */
  function ReservationContext(data: Properties, date: string): Properties {
    seq(|ReservationFields|, i requires 0 <= i < |ReservationFields| =>
          (ReservationFields[i], Or(Get(data, ReservationFields[i]), "")))
    + [("numberOfPeople", Or(Get(data, "numberOfPeople"), "1")), ("date", Text(date))]
  }

  /** The contact template sees every field of the form under its own name, an
      absent or falsy field as the empty string, and the date last. */
  lemma ContactContextShape(data: Properties, date: string)
    ensures Keys(ContactContext(data, date)) == ContactFields + ["date"]
    ensures forall i :: 0 <= i < |ContactFields| ==>
              Substitute(Get(ContactContext(data, date), ContactFields[i])) == Substitute(Get(data, ContactFields[i]))
    ensures Get(ContactContext(data, date), "date") == Text(date)
  {
    var ctx := ContactContext(data, date);
    assert Keys(ctx) == ContactFields + ["date"];
    ContactKeysDistinct();
    forall i | 0 <= i < |ContactFields|
      ensures Substitute(Get(ctx, ContactFields[i])) == Substitute(Get(data, ContactFields[i]))
    {
      FirstKeyLookup(ctx, i);
    }
    FirstKeyLookup(ctx, |ContactFields|);
  }

  /** The reservation template sees its fields likewise, except that an absent
      or falsy `numberOfPeople` shows as `1`. */
  lemma ReservationContextShape(data: Properties, date: string)
    ensures Keys(ReservationContext(data, date)) == ReservationFields + ["numberOfPeople", "date"]
    ensures forall i :: 0 <= i < |ReservationFields| ==>
              Substitute(Get(ReservationContext(data, date), ReservationFields[i]))
              == Substitute(Get(data, ReservationFields[i]))
    ensures Substitute(Get(ReservationContext(data, date), "numberOfPeople"))
         == if Truthy(Get(data, "numberOfPeople")) then Display(Get(data, "numberOfPeople")) else "1"
    ensures Get(ReservationContext(data, date), "date") == Text(date)
  {
    var ctx := ReservationContext(data, date);
    assert Keys(ctx) == ReservationFields + ["numberOfPeople", "date"];
    ReservationKeysDistinct();
    forall i | 0 <= i < |ReservationFields|
      ensures Substitute(Get(ctx, ReservationFields[i])) == Substitute(Get(data, ReservationFields[i]))
    {
      FirstKeyLookup(ctx, i);
    }
    FirstKeyLookup(ctx, |ReservationFields|);
    FirstKeyLookup(ctx, |ReservationFields| + 1);
  }

  /** `value || fallback` converts exactly when the value does. */
  lemma OrStringifies(v: Value, fallback: string)
    ensures Stringifies(Or(v, fallback)) <==> Stringifies(v)
  {
  }

  /** The contact template can be filled exactly when every form field it
      shows can be turned into a string. */
  lemma ContactContextPrintable(data: Properties, date: string)
    ensures Printable(ContactContext(data, date), Keys(ContactContext(data, date))) <==> Printable(data, ContactFields)
  {
    var ctx := ContactContext(data, date);
    var keys := Keys(ctx);
    ContactKeysDistinct();
    assert keys == ContactFields + ["date"];
    forall i | 0 <= i < |ContactFields|
      ensures Stringifies(Get(ctx, keys[i])) <==> Stringifies(Get(data, ContactFields[i]))
    {
      FirstKeyLookup(ctx, i);
      OrStringifies(Get(data, ContactFields[i]), "");
    }
    FirstKeyLookup(ctx, |ContactFields|);
    assert Stringifies(Get(ctx, keys[|ContactFields|]));
  }

  /** The reservation template can be filled exactly when every form field it
      shows, and the number of people, can be turned into a string. */
  lemma ReservationContextPrintable(data: Properties, date: string)
    ensures Printable(ReservationContext(data, date), Keys(ReservationContext(data, date)))
        <==> (Printable(data, ReservationFields) && Stringifies(Get(data, "numberOfPeople")))
  {
    var ctx := ReservationContext(data, date);
    var keys := Keys(ctx);
    var n := |ReservationFields|;
    ReservationKeysDistinct();
    assert keys == ReservationFields + ["numberOfPeople", "date"];
    forall i | 0 <= i < n
      ensures Stringifies(Get(ctx, keys[i])) <==> Stringifies(Get(data, ReservationFields[i]))
    {
      FirstKeyLookup(ctx, i);
      OrStringifies(Get(data, ReservationFields[i]), "");
    }
    FirstKeyLookup(ctx, n);
    OrStringifies(Get(data, "numberOfPeople"), "1");
    assert Stringifies(Get(ctx, keys[n])) <==> Stringifies(Get(data, "numberOfPeople"));
    FirstKeyLookup(ctx, n + 1);
    assert Stringifies(Get(ctx, keys[n + 1]));
  }

  lemma ContactKeysDistinct()
    ensures forall p, q :: 0 <= p < q < |ContactFields + ["date"]| ==> (ContactFields + ["date"])[p] != (ContactFields + ["date"])[q]
  {
  }

  lemma ReservationKeysDistinct()
    ensures forall p, q :: 0 <= p < q < |ReservationFields + ["numberOfPeople", "date"]|
              ==> (ReservationFields + ["numberOfPeople", "date"])[p] != (ReservationFields + ["numberOfPeople", "date"])[q]
  {
  }

  /** With keys that do not repeat, looking up the i-th key finds the i-th value. */
  lemma {:induction false} FirstKeyLookup(props: Properties, i: nat)
    requires i < |props|
    requires forall p, q :: 0 <= p < q < |props| ==> props[p].0 != props[q].0
    ensures Get(props, props[i].0) == props[i].1
  {
    if i > 0 {
      assert props[0].0 != props[i].0;
      FirstKeyLookup(props[1..], i - 1);
    }
  }

  /** The message `sendContactEmail` hands to the transport: the rendered
      `contact` template, from the service's own sender to the configured
      account; none when the template is missing. */
  function ContactMessage(mailer: Mailer, data: Properties): Option<MailOptions> {
    var ctx := ContactContext(data, mailer.date);
    if "contact" in mailer.templates && Printable(ctx, Keys(ctx)) then
      Some(MailOptions(DefaultSender(mailer.mailUser), mailer.mailUser, ContactSubject,
                       Render(mailer.templates["contact"], ctx, Keys(ctx))))
    else None
  }

  /** The message `sendReservationEmail` hands to the transport, likewise. */
  function ReservationMessage(mailer: Mailer, data: Properties): Option<MailOptions> {
    var ctx := ReservationContext(data, mailer.date);
    if "reservation" in mailer.templates && Printable(ctx, Keys(ctx)) then
      Some(MailOptions(DefaultSender(mailer.mailUser), mailer.mailUser, ReservationSubject,
                       Render(mailer.templates["reservation"], ctx, Keys(ctx))))
    else None
  }

  /** A form field no validator looks at still reaches the template: an
      object with its own `toString` there means no message is handed over. */
  lemma UnprintableFieldNotSent(mailer: Mailer, data: Properties)
    requires Get(data, "civility") == Record([("toString", Num(1))])
    ensures ContactMessage(mailer, data) == None
  {
    ContactContextPrintable(data, mailer.date);
    assert Keys([("toString", Num(1))]) == ["toString"];
    assert ContactFields[0] == "civility";
  }

  /** `sendContactEmail(data)`. Besides what the call returns or throws, the
      result records the message handed to the transport, if any. */
  method SendContactEmail(mailer: Mailer, data: Properties) returns (r: Completion<MailOptions>, handed: Option<MailOptions>)
    ensures handed == ContactMessage(mailer, data)
    ensures handed.None? <==> ("contact" !in mailer.templates || !Printable(data, ContactFields))
    ensures handed.None? ==> r == Threw(TemplateMissing("contact"))
    ensures handed.Some? ==> r == if mailer.deliver(handed.value) then Returned(handed.value) else Threw(TransportFailure)
  {
    ContactContextPrintable(data, mailer.date);
    var html := LoadTemplate(mailer.templates, "contact", ContactContext(data, mailer.date));
    if html.Threw? {
      return Threw(html.error), None;
    }
    var request := EmailRequest(None, ContactSubject, html.value, None);
    r := SendEmail(mailer, request);
    handed := Some(OptionsFor(request, mailer.mailUser));
  }

  /** `sendReservationEmail(data)`, with the same record of the handed message. */
  method SendReservationEmail(mailer: Mailer, data: Properties) returns (r: Completion<MailOptions>, handed: Option<MailOptions>)
    ensures handed == ReservationMessage(mailer, data)
    ensures handed.None? <==> ("reservation" !in mailer.templates
                               || !(Printable(data, ReservationFields) && Stringifies(Get(data, "numberOfPeople"))))
    ensures handed.None? ==> r == Threw(TemplateMissing("reservation"))
    ensures handed.Some? ==> r == if mailer.deliver(handed.value) then Returned(handed.value) else Threw(TransportFailure)
  {
    ReservationContextPrintable(data, mailer.date);
    var html := LoadTemplate(mailer.templates, "reservation", ReservationContext(data, mailer.date));
    if html.Threw? {
      return Threw(html.error), None;
    }
    var request := EmailRequest(None, ReservationSubject, html.value, None);
    r := SendEmail(mailer, request);
    handed := Some(OptionsFor(request, mailer.mailUser));
  }
}
