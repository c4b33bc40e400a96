# Form endpoints and mail service, modelled in Dafny

This project models the backend of an event site. It has three serverless
endpoints. `api/contact.js` takes the contact form. `api/reservation.js` takes a
booking: an exhibitor's stand or a participant's package. `api/panels-inscription.js`
takes a registration for panel sessions on the event's days. Each handler:

- answers a CORS preflight;
- refuses methods other than POST and bodies that are not objects;
- runs the form's validator, which returns `{ isValid, errors }` with its error
  messages in a fixed order;
- hands the submission to the mail service and answers with success, or with a
  generic failure when anything throws.

The mail service (`src/services/mail.service.js`) fills a template's `{{name}}`
placeholders from a data object. It builds the message for the transport, and
defaults the sender and the recipient to the configured account.

Modules, one per source file plus four shared ones:

- `JsValues`: the parts of JavaScript the code relies on. It covers JSON values,
  truthiness, property lookup (`Get`) and assignment (`Put`, and the `JsObject`
  class, whose property list the reservation validator updates in place). It also
  covers `trim`, `String(v)` (with `Stringifies`, whether the conversion
  returns at all) and `parseInt`. `Completion` records whether a call
  returned or threw.
- `EmailPattern`: the address expression `^[^\s@]+@[^\s@]+\.[^\s@]+$` as a
  predicate. A lemma proves it equal to a direct description of the shape: exactly
  one `@`, no white space, a non-empty local part, and a domain with a `.` that
  has a character on each side.
- `FormRules`: the `{isValid, errors}` result, the required-field rule, the
  email rule the contact and reservation forms share, and `Subsequence`, which
  states the order of the errors.
- `Responses`: the status codes and JSON bodies the handlers send.
- `MailService`, `Contact`, `Reservation` and `PanelsInscription`: the four core
  files.

Each validator is specified twice:

- a specification function gives what the validator returns or throws;
- an imperative method mirrors the code's successive pushes and loops, and is
  proved equal to that function.

Lemmas then state what the function means. They cover when each error appears,
when a submission is accepted (both directions), the order of the errors, and
edge cases. Each handler is a method whose contract gives the response for every
request. It also gives the message handed to the transport, if any.

Behaviour of the code that is easy to miss, which the model follows:

- A validator does not always return a verdict. It throws a TypeError when
  `.trim()` meets a truthy value that is not a string (a number as the
  message, say). The handler then answers 500, not 400.
- Turning an object that has its own `toString` property into a string
  throws a TypeError: parsed JSON cannot make that property callable, and the
  inherited `valueOf` returns the object itself. An array holding such an
  object throws likewise. This happens in three places:
  - the panel validator builds the message for an id a day does not offer
    (`${sessionId}`), so it throws and the handler answers 500;
  - the reservation validator calls `parseInt` on the number of people, so it
    throws after it has written the default package;
  - `loadTemplate` passes each truthy value to `replace`, so the `catch`
    rethrows `Template <name> introuvable`. The contact and reservation
    handlers then answer 500 and send nothing, whichever field holds the
    object, including fields no validator checks.
- In the reservation form, `data.participationType?.trim()` throws for
  `false` or `0`. `?.` only guards against null and undefined.
- The panel form tests the trimmed email. An email of spaces only is
  therefore reported both as missing and as malformed.
- The panel handler calls `MailService.sendPanelsInscriptionEmail`, which the
  mail service does not define. Every valid registration is answered with the
  generic failure (see Findings).
- A `sessions` key named after a member every object inherits (`toString`,
  `constructor`, ...) finds something truthy in the catalog. If it holds a
  non-empty array, `.includes` is called on something that has none, and the
  validator throws.
- It is not true that after a key is processed no `{{key}}` remains unless the
  key's value contains one. A value can complete braces already in the text.
  `SubstitutionIsNotRescanned` gives such a case. The model proves what does
  hold: an occurrence is replaced when the scan meets it, inserted text is not
  scanned again, and placeholders of other names are kept.

## Model

| member | source | states |
|---|---|---|
| JsValues.PresenceOf | api/contact.js:18 | `!v \|\| !v.trim()`: blank exactly for a falsy or all-space value; a truthy non-string is the case where `.trim()` throws |
| JsValues.TrimBlankIff | api/contact.js:18 | `trim` leaves the empty string exactly when the string is all white space |
| JsValues.PutThenGet | api/reservation.js:57 | after `obj[key] = v`, `key` reads back `v` and every other key reads as before |
| JsValues.PutKeys | api/reservation.js:57 | an assignment adds the key last when it was absent and never reorders existing keys |
| JsValues.JsObject.Assign | api/reservation.js:57 | the object's properties become the old ones with the assignment applied |
| JsValues.ParseIntDecimal | api/reservation.js:62 | `parseInt` of an integer's decimal numeral, followed by text not starting with a digit, gives back that integer |
| EmailPattern.MatchesIff | api/contact.js:20 | the expression accepts exactly the strings with one `@`, no white space, a non-empty local part and a domain with an inner `.` |
| EmailPattern.AcceptsExample | api/contact.js:20 | `a@b.co` matches |
| EmailPattern.RejectsExample | api/contact.js:20 | `not-an-email` does not match |
| FormRules.Verdict | api/contact.js:32-35 | `isValid` is true exactly when the error list is empty, and the list is returned unchanged |
| FormRules.RequiredRule | api/contact.js:24-30 | a required field adds at most one error, its own message, exactly when it is missing, falsy or blank |
| FormRules.EmailRule | api/contact.js:18-22 | the email adds at most one error, either "requis" or the format error |
| FormRules.EmailRuleMeaning | api/contact.js:18-22 | "requis" exactly when missing or blank; the format error exactly when present but not well shaped, tested untrimmed; never both |
| FormRules.EmailAccepted | api/reservation.js:19-23 | the email passes without throwing exactly when it is a well-shaped string |
| FormRules.AppendGroup | api/contact.js:18-30 | a check that pushes at most one message of its group keeps the errors in the order of the groups |
| MailService.ReplaceAllAbsent | src/services/mail.service.js:27-28 | a global replace leaves text without the placeholder unchanged |
| MailService.ReplaceAllAround | src/services/mail.service.js:26-29 | a global replace turns the key's own placeholder into the value, keeps any other placeholder, and treats the text on either side independently |
| MailService.SubstitutionIsNotRescanned | src/services/mail.service.js:27-28 | replaced text is not scanned again, so braces in the template and a value can form the placeholder anew |
| MailService.RenderKeepsUnknownPlaceholder | src/services/mail.service.js:26-29 | a placeholder whose name is not a key of the data survives the whole substitution untouched |
| MailService.RenderOneKey | src/services/mail.service.js:28 | with one key, its placeholder takes the value's text, or nothing for a falsy value, and the rest of the text is kept |
| MailService.LoadTemplate | src/services/mail.service.js:15-35 | a missing template, or a truthy value that cannot be turned into a string, throws `Template <name> introuvable`; otherwise every key's placeholder is replaced, key by key on the text built so far; with no data the text is returned unchanged |
| MailService.ContactContextPrintable | src/services/mail.service.js:26-29 | the contact template can be filled exactly when every form field it shows can be turned into a string |
| MailService.ReservationContextPrintable | src/services/mail.service.js:26-29 | the reservation template can be filled exactly when its fields and the number of people can be turned into a string |
| MailService.UnprintableFieldNotSent | src/services/mail.service.js:28-34 | an object with its own `toString` as the civility, a field no validator checks, means no contact message is handed over |
| MailService.GreetingExample | src/services/mail.service.js:26-31 | `Hello {{name}}` renders as `Hello Ada` with `name: 'Ada'`, and unchanged with no data |
| MailService.OptionsDefaults | src/services/mail.service.js:52-57 | the sender defaults to `"Node Mail Backend" <MAIL_USER>` and the recipient to `MAIL_USER`; subject and html pass through |
| MailService.SendEmail | src/services/mail.service.js:47-69 | the call completes exactly when the transport accepts the built options; the options handed over stand for the result |
| MailService.ContactContextShape | src/services/mail.service.js:78-91 | the contact template sees each form field under its own name, a falsy one as empty, then the date |
| MailService.ReservationContextShape | src/services/mail.service.js:105-117 | the reservation template sees its fields likewise, with `numberOfPeople` shown as `1` when falsy |
| MailService.SendContactEmail | src/services/mail.service.js:77-97 | a missing template, or a form field that cannot be turned into a string, throws `Template contact introuvable` before anything is sent; otherwise the rendered contact message goes to the transport with subject `Nouveau message de contact`, and the transport's verdict decides the outcome |
| MailService.SendReservationEmail | src/services/mail.service.js:104-123 | the same for the reservation template, its fields and the number of people, and subject `Nouvelle réservation` |
| Contact.ValidateContact | api/contact.js:15-36 | the validator's pushes give exactly the specified verdict, or the TypeError |
| Contact.ContactValidIff | api/contact.js:18-35 | a submission is valid exactly when the email is a well-shaped string and the full name and message have content |
| Contact.ContactErrorsMeaning | api/contact.js:18-30 | each error appears exactly when its condition holds; the two email errors never occur together |
| Contact.ContactErrorsOrder | api/contact.js:18-30 | errors come in the order email, full name, message, so there are at most three |
| Contact.NumericMessageThrows | api/contact.js:28 | a numeric message makes the validator throw rather than report |
| Contact.HandleContact | api/contact.js:42-98 | OPTIONS gives 200, other non-POST methods 405, a non-object body 400; an invalid submission gives 400 with the errors and no send; a throw in the validator gives 500; otherwise the contact message is handed over, unless the template is missing or a field cannot be shown, and the transport decides between 200 and 500 |
| Reservation.TypeRule | api/reservation.js:30-36 | the type adds at most one error of its group |
| Reservation.TypeRuleMeaning | api/reservation.js:32-36 | "requis" exactly for a missing or blank type; invalid exactly for a string that is not one of the four types as sent |
| Reservation.PackageRule | api/reservation.js:39-59 | the package rule adds at most one error of its group |
| Reservation.PackageRuleMeaning | api/reservation.js:41-59 | an exhibitor needs a package that trims to a stand; a participant's non-blank package must trim to a listed package; other types are not checked |
| Reservation.PeopleRule | api/reservation.js:62-64 | the number of people adds at most the one message |
| Reservation.CheckPackage | api/reservation.js:39-59 | the package block throws on a non-string package for the two checked types, otherwise adds `PackageRule`'s error, and writes `Non spécifié` for a participant with a blank package |
| Reservation.CheckPeople | api/reservation.js:62-64 | the last block throws for a truthy count that cannot be turned into a string, and otherwise adds exactly `PeopleRule`'s error |
| Reservation.ValidateReservation | api/reservation.js:15-70 | the validator on the object gives the specified verdict or TypeError; the object is untouched when a trimmed field throws, and normalized otherwise, also when the count then throws |
| Reservation.TypesAreTrimmed | api/reservation.js:31 | the four type names are their own trim |
| Reservation.TypeAccepted | api/reservation.js:30-39 | the type passes exactly when it is one of the four names as sent, and then the package rule sees that name |
| Reservation.PackageAcceptedIff | api/reservation.js:41-59 | for a valid type, the package passes without throwing exactly when it suits the type |
| Reservation.ReservationValidIff | api/reservation.js:15-70 | a reservation is valid exactly when its email, full name, type, package and number of people are each acceptable, the count being convertible to a string |
| Reservation.ReservationErrorsOrder | api/reservation.js:18-64 | errors come in the order email, full name, type, package or stand, number of people, so at most five |
| Reservation.PeopleFromText | api/reservation.js:62-64 | a count written as an integer with optional trailing text passes exactly when the integer is at least 1 (`"2abc"` passes, `"0"` does not) |
| Reservation.PeopleFromNumber | api/reservation.js:62-64 | a numeric count passes exactly when at least 1; a missing count is refused |
| Reservation.PaddedExhibitor | api/reservation.js:34-45 | `" exposant"` is refused as a type but still asks for a stand, because the package rule trims it |
| Reservation.CountObjectThrows | api/reservation.js:62 | an object with its own `toString` as the number of people makes the validator throw |
| Reservation.FalseTypeThrows | api/reservation.js:39 | a participation type of `false` makes the validator throw |
| Reservation.NormalizedFrame | api/reservation.js:56-58 | the default touches `package` alone and keeps the key order |
| Reservation.UnspecifiedIsAPackage | api/reservation.js:51 | the default written is itself an accepted package |
| Reservation.NormalizedIdempotent | api/reservation.js:56-58 | normalizing twice is normalizing once |
| Reservation.ValidationStable | api/reservation.js:51-58 | validating the normalized submission gives the same verdict as the original |
| Reservation.ParticipantPackageShown | api/reservation.js:56-57 | a participant who named no package is announced with `Non spécifié` |
| Reservation.HandleReservation | api/reservation.js:76-132 | as for the contact handler, a count that cannot be converted giving 500; the message sent is built from the submission as the validator left it |
| PanelsInscription.CatalogInvariant | api/panels-inscription.js:15-29 | both simultaneous pairs are day-3 sessions of the catalog, and no catalog day is an inherited member name |
| PanelsInscription.CheckRequired | api/panels-inscription.js:38-52 | the required-field loop gives the specified errors, or throws on a non-string |
| PanelsInscription.FindSelected | api/panels-inscription.js:63-65 | the search finds a non-empty array exactly when there is one |
| PanelsInscription.CheckDay | api/panels-inscription.js:74-80 | one error per id the day does not offer; an inherited name with ids throws, and so does an id not offered that cannot be turned into a string |
| PanelsInscription.CheckKey | api/panels-inscription.js:73-79 | one key of the session object: a catalog day holding an array gives its id errors or throws on an id that cannot be shown, an inherited name holding ids throws, any other key gives nothing |
| PanelsInscription.CheckSessionIds | api/panels-inscription.js:73-81 | the loop over the days gives the specified id errors, day after day, or throws when some key does |
| PanelsInscription.Count | api/panels-inscription.js:88 | the filter counts the items that are one of the pair's ids |
| PanelsInscription.CheckConflicts | api/panels-inscription.js:82-97 | the day-3 block reports the morning clash and then the afternoon clash, each exactly when its pair count is above one |
| PanelsInscription.CheckSessions | api/panels-inscription.js:59-99 | the session blocks give the specified session errors, or throw when a key of the session object does |
| PanelsInscription.ValidatePanels | api/panels-inscription.js:34-105 | the validator gives the specified verdict, or the TypeError of a non-string required field or of a throwing session key, and only reads its input |
| PanelsInscription.RequiredErrorsMeaning | api/panels-inscription.js:38-52 | each blank required field yields `Le champ <label> est requis`, nothing else does, and the errors follow the field order |
| PanelsInscription.EmailTestedTrimmed | api/panels-inscription.js:55-57 | a present email passes the format rule exactly when its trim is well shaped |
| PanelsInscription.BlankEmailTwice | api/panels-inscription.js:39-57 | an email of spaces only gets both the "requis" error and the format error |
| PanelsInscription.SessionsMissing | api/panels-inscription.js:60-61 | without an object for `sessions`, the only session error is that they are required |
| PanelsInscription.NothingSelected | api/panels-inscription.js:63-68 | with no non-empty array among the sessions, the only session error is the "select at least one" message |
| PanelsInscription.IdErrorsMeaning | api/panels-inscription.js:73-80 | a day's ids give no error exactly when all are offered; each id not offered is named, every error names an id not offered, and there are exactly as many errors as ids not offered |
| PanelsInscription.CountInOccurrences | api/panels-inscription.js:88 | the pair count is the number of occurrences of each id, duplicates included |
| PanelsInscription.ConflictMeaning | api/panels-inscription.js:84-98 | each clash error appears exactly when its pair occurs twice or more on day 3 |
| PanelsInscription.ConflictExamples | api/panels-inscription.js:84-98 | one morning plus one afternoon session do not clash; the same morning session twice does |
| PanelsInscription.InheritedDayThrows | api/panels-inscription.js:74-76 | a `toString` key holding an id makes the validator throw |
| PanelsInscription.UnprintableIdThrows | api/panels-inscription.js:75-77 | an id not offered that is an object with its own `toString` makes the validator throw |
| PanelsInscription.RequiredFilled | api/panels-inscription.js:38-52 | no required error and no throw means every required field is filled |
| PanelsInscription.SessionsAccepted | api/panels-inscription.js:59-99 | sessions without errors have a selection, only offered ids on catalog days, and at most one session per day-3 pair |
| PanelsInscription.ValidRegistration | api/panels-inscription.js:34-105 | an accepted registration has every required field filled, a well-shaped trimmed email, and sessions without errors |
| PanelsInscription.SampleIsValid | api/panels-inscription.js:34-105 | a complete registration for one day-1 session passes every rule |
| PanelsInscription.HandlePanelsInscription | api/panels-inscription.js:111-167 | OPTIONS 200, other methods 405, non-object 400, invalid 400 with the errors; every other registration, valid ones and those on which the validator throws included, 500 |
| PanelsInscription.HandlePanelsInscriptionIntended | api/panels-inscription.js:141-157 | with a send operation supplied, a valid registration gets 200 with the success message when the send completes; a throw in the validator or the send gives 500 |

## Left out

- HTTP plumbing: CORS headers, `res.status().json()`, `console.error` logging
  and the test server. A handler's result is the status, the JSON body and the
  message handed to the transport.
- The mail configuration (`src/config/mailer.js`) and nodemailer. The transport
  is a function saying whether it accepts a message. A transport that cannot be
  created or verified counts as one that refuses.
- Reading template files. Templates are a map from name to text, and any read
  failure is a missing template.
- The date shown in notifications (`toLocaleString('fr-FR', …)`) depends on
  the clock and the locale. It is an input string.
- MailService.ReplaceAll: `$&`, `$1` and the other replacement patterns of
  `String.replace` are not interpreted in values. Keys are taken literally,
  not as regular expressions.
- MailService.ReplaceAllAround and MailService.RenderKeepsUnknownPlaceholder
  require placeholder names without braces. Every key the notifications use is
  such a name.
- JsValues.ParseInt: no `0x` hexadecimal prefix and no `Infinity`.
- JsValues.IsSpace: a fixed set of white-space characters stands for
  JavaScript's full Unicode set.
- MailService.SendEmail: the call returns the options handed to the
  transport instead of `{ success, messageId, response }`, which come from
  the transport's reply; no caller reads them.
- JsValues.Value: numbers are integers. Fractions, `NaN`, and the exponent
  notation `String(n)` uses from 1e21 are not modelled.
- Objects are assumed to have distinct keys, as parsed JSON has.
- `sendPanelsInscriptionEmail` is not part of this model: the mail service
  does not define it, and its behaviour is not invented. The corrected handler
  takes the send as a parameter.
- The asynchronous `await` structure: each handler runs to completion, and a
  rejected promise counts as a throw.

## Findings

| source | as written | input that shows it | evidently intended | confidence | as-written member | corrected member |
|---|---|---|---|---|---|---|
| api/panels-inscription.js:151 | a valid registration awaits `MailService.sendPanelsInscriptionEmail`, which the mail service does not define, so the call throws and the handler answers 500 | `PanelsInscription.Sample`, a complete registration for session `j1-1` | a valid registration is sent and answered with 200 and `Inscription aux panels enregistrée avec succès` | high; not executed | PanelsInscription.HandlePanelsInscription, PanelsInscription.SampleIsValid | PanelsInscription.HandlePanelsInscriptionIntended |
