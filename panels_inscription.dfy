/** The panel registration endpoint, api/panels-inscription.js: the session
    catalog, `validatePanelsInscriptionData` and the request handler. */
module PanelsInscription {
  import opened JsValues
  import opened EmailPattern
  import opened FormRules
  import opened Responses

  // ---------------------------------------------------------------------------
  // The catalog

  /** `VALID_SESSION_IDS`: the session ids offered on each day. */
  const ValidSessionIds: map<string, seq<string>> := map[
    "rappel" := ["rappel-1"],
    "jour1" := ["j1-1", "j1-2", "j1-3", "j1-4"],
    "jour2" := ["j2-1", "j2-2", "j2-3", "j2-4"],
    "jour3" := ["j3-1", "j3-2", "j3-3", "j3-4"],
    "jour4" := ["j4-1", "j4-2", "j4-3"]
  ]

  /** `SIMULTANEOUS_SESSIONS`: on day 3 the two morning sessions run at the
      same time, and so do the two afternoon ones. */
  const Morning := ["j3-1", "j3-2"]
  const Afternoon := ["j3-3", "j3-4"]

  /** The names every object inherits from `Object.prototype`. Looking one of
      them up in the catalog finds something truthy that is not an array. */
  const PrototypeNames: set<string> := {
    "constructor", "hasOwnProperty", "isPrototypeOf", "propertyIsEnumerable",
    "toLocaleString", "toString", "valueOf", "__proto__",
    "__defineGetter__", "__defineSetter__", "__lookupGetter__", "__lookupSetter__"
  }

  /** Both simultaneous pairs are day-3 sessions of the catalog. */
  lemma CatalogInvariant()
    ensures forall id :: id in Morning + Afternoon ==> id in ValidSessionIds["jour3"]
    ensures forall day :: day in ValidSessionIds ==> day !in PrototypeNames
  {
  }

  // ---------------------------------------------------------------------------
  // Messages

  const RequiredFields := ["firstName", "lastName", "email", "phone", "organization", "role", "country"]

  /** The French label of each required field. */
  const FieldNames: map<string, string> := map[
    "firstName" := "prénom", "lastName" := "nom", "email" := "email", "phone" := "téléphone",
    "organization" := "organisation", "role" := "fonction", "country" := "pays"
  ]

  /** `fieldNames[field] || field` */
  function Label(field: string): string {
    if field in FieldNames then FieldNames[field] else field
  }

  function RequiredMessage(field: string): string {
    "Le champ " + Label(field) + " est requis"
  }

  const SessionsRequired := "Les sessions sont requises"
  const NoSession := "Veuillez sélectionner au moins une session"
  const MorningConflict := "Vous ne pouvez pas vous inscrire à plusieurs sessions simultanées le matin du jour 3"
  const AfternoonConflict := "Vous ne pouvez pas vous inscrire à plusieurs sessions simultanées l'après-midi du jour 3"

  function InvalidId(id: Value, day: string): string {
    "ID de session invalide: " + Display(id) + " pour " + day
  }

  /** The success message; the handler as written never reaches it. */
  const Registered := "Inscription aux panels enregistrée avec succès"
  const RegistrationFailed := "Une erreur est survenue lors de l'enregistrement de l'inscription"

  // ---------------------------------------------------------------------------
  // The rules, one block of the validator each

  /** The errors of the required fields, in the order the fields are listed. */
  function RequiredErrors(data: Properties, fields: seq<string>): seq<string> {
    if fields == [] then []
    else
      var field := fields[|fields| - 1];
      RequiredErrors(data, fields[..|fields| - 1])
      + if PresenceOf(Get(data, field)).Blank? then [RequiredMessage(field)] else []
  }

  /** `.trim()` throws on a required field that holds a truthy non-string. */
  predicate RequiredThrows(data: Properties, fields: seq<string>) {
    exists i :: 0 <= i < |fields| && PresenceOf(Get(data, fields[i])).NotText?
  }

  /** A present email must match the expression once trimmed. */
  function EmailFormatRule(email: Value): seq<string> {
    if email.Text? && email.s != "" && !Matches(Trim(email.s)) then [EmailInvalid] else []
  }

  /** `Array.isArray(v) && v.length > 0` for some value. */
  predicate AnySelected(values: seq<Value>) {
    exists k :: 0 <= k < |values| && values[k].List? && values[k].items != []
  }

  /** `includes` on the catalog: a string that names one of the ids. */
  predicate Offered(id: Value, ids: seq<string>) {
    id.Text? && id.s in ids
  }

  /** One error per id of `items` that the day does not offer, in order. */
  function IdErrors(day: string, ids: seq<string>, items: seq<Value>): seq<string> {
    if items == [] then []
    else
      var id := items[|items| - 1];
      IdErrors(day, ids, items[..|items| - 1]) + if Offered(id, ids) then [] else [InvalidId(id, day)]
  }

  /** The id errors of one key of `sessions`: only a catalog day holding an
      array is checked. */
  function DayErrors(entries: Properties, day: string): seq<string> {
    var v := Get(entries, day);
    if day in ValidSessionIds && v.List? then IdErrors(day, ValidSessionIds[day], v.items) else []
  }

  function AllDayErrors(entries: Properties, days: seq<string>): seq<string> {
    if days == [] then []
    else AllDayErrors(entries, days[..|days| - 1]) + DayErrors(entries, days[|days| - 1])
  }

  /** Some id of `items` that the day does not offer cannot be turned into a
      string, so `${sessionId}` throws while its message is built. */
  predicate UnprintableId(ids: seq<string>, items: seq<Value>) {
    exists k :: 0 <= k < |items| && !Offered(items[k], ids) && !Stringifies(items[k])
  }

  /** Checking one key throws: a key named after an inherited member and
      holding a non-empty array calls `.includes` on something that has none,
      and a catalog day may hold an id whose message cannot be built. */
  predicate KeyThrows(entries: Properties, day: string) {
    var v := Get(entries, day);
    && v.List?
    && ((day in PrototypeNames && v.items != [])
        || (day in ValidSessionIds && UnprintableId(ValidSessionIds[day], v.items)))
  }

  predicate IdsThrow(entries: Properties, days: seq<string>) {
    exists i :: 0 <= i < |days| && KeyThrows(entries, days[i])
  }

  /** How many of `items` are one of the ids in `pair`, duplicates included. */
  function CountIn(items: seq<Value>, pair: seq<string>): nat {
    if items == [] then 0
    else CountIn(items[..|items| - 1], pair) + if Offered(items[|items| - 1], pair) then 1 else 0
  }

  /** The day-3 rule: at most one of each simultaneous pair. */
  function ConflictErrors(jour3: Value): seq<string> {
    if jour3.List? then
      (if CountIn(jour3.items, Morning) > 1 then [MorningConflict] else [])
      + (if CountIn(jour3.items, Afternoon) > 1 then [AfternoonConflict] else [])
    else []
  }

  /** Everything said about `sessions`: missing, empty, unknown ids, clashes. */
  function SessionErrors(sessions: Value): seq<string> {
    if !IsObject(sessions) then [SessionsRequired]
    else
      var entries := OwnEntries(sessions);
      (if AnySelected(Values(entries)) then [] else [NoSession])
      + AllDayErrors(entries, Keys(entries))
      + ConflictErrors(Get(entries, "jour3"))
  }

  predicate PanelsThrows(data: Properties) {
    var sessions := Get(data, "sessions");
    || RequiredThrows(data, RequiredFields)
    || (IsObject(sessions) && IdsThrow(OwnEntries(sessions), Keys(OwnEntries(sessions))))
  }

  function PanelsErrors(data: Properties): seq<string> {
    RequiredErrors(data, RequiredFields) + EmailFormatRule(Get(data, "email")) + SessionErrors(Get(data, "sessions"))
  }

  /** What `validatePanelsInscriptionData(data)` returns or throws. */
  function PanelsValidation(data: Properties): Completion<Validation> {
    if PanelsThrows(data) then Threw(TypeError) else Returned(Verdict(PanelsErrors(data)))
  }

  lemma RequiredThrowsStep(data: Properties, fields: seq<string>, i: nat)
    requires i < |fields|
    ensures RequiredThrows(data, fields[..i + 1])
        <==> RequiredThrows(data, fields[..i]) || PresenceOf(Get(data, fields[i])).NotText?
  {
    var before, after := fields[..i], fields[..i + 1];
    assert forall k :: 0 <= k < i ==> after[k] == before[k];
    assert after[i] == fields[i];
  }

  lemma RequiredThrowsPrefix(data: Properties, fields: seq<string>, n: nat)
    requires n <= |fields| && RequiredThrows(data, fields[..n])
    ensures RequiredThrows(data, fields)
  {
    var prefix := fields[..n];
    var k :| 0 <= k < |prefix| && PresenceOf(Get(data, prefix[k])).NotText?;
    assert prefix[k] == fields[k];
  }

  lemma IdsThrowStep(entries: Properties, days: seq<string>, i: nat)
    requires i < |days|
    ensures IdsThrow(entries, days[..i + 1]) <==> IdsThrow(entries, days[..i]) || KeyThrows(entries, days[i])
  {
    var before, after := days[..i], days[..i + 1];
    assert forall k :: 0 <= k < i ==> after[k] == before[k];
    assert after[i] == days[i];
  }

  lemma IdsThrowPrefix(entries: Properties, days: seq<string>, n: nat)
    requires n <= |days| && IdsThrow(entries, days[..n])
    ensures IdsThrow(entries, days)
  {
    var prefix := days[..n];
    var k :| 0 <= k < |prefix| && KeyThrows(entries, prefix[k]);
    assert prefix[k] == days[k];
  }

  // ---------------------------------------------------------------------------
  // The validator

  /** `requiredFields.forEach(...)` */
  method CheckRequired(data: Properties, fields: seq<string>) returns (r: Completion<seq<string>>)
    ensures r == if RequiredThrows(data, fields) then Threw(TypeError) else Returned(RequiredErrors(data, fields))
  {
    var errors: seq<string> := [];
    for i := 0 to |fields|
      invariant !RequiredThrows(data, fields[..i])
      invariant errors == RequiredErrors(data, fields[..i])
    {
      var field := fields[i];
      var value := PresenceOf(Get(data, field));
      if value.NotText? {
        RequiredThrowsStep(data, fields, i);
        RequiredThrowsPrefix(data, fields, i + 1);
        return Threw(TypeError);
      }
      if value.Blank? {
        errors := errors + [RequiredMessage(field)];
      }
      RequiredThrowsStep(data, fields, i);
      assert fields[..i + 1][..i] == fields[..i];
    }
    assert fields[..|fields|] == fields;
    return Returned(errors);
  }

  /** `Object.values(data.sessions).some(...)` */
  method FindSelected(values: seq<Value>) returns (found: bool)
    ensures found <==> AnySelected(values)
  {
    found := false;
    var k := 0;
    while k < |values| && !found
      invariant 0 <= k <= |values|
      invariant found <==> AnySelected(values[..k])
    {
      assert values[..k + 1][k] == values[k];
      found := values[k].List? && values[k].items != [];
      if !found {
        assert forall j :: 0 <= j < k + 1 ==> values[..k + 1][j] == values[j];
      }
      k := k + 1;
    }
    if found {
      assert forall j :: 0 <= j < k ==> values[..k][j] == values[j];
    } else {
      assert values[..k] == values;
    }
  }

  /** `data.sessions[day].forEach(...)` for a key whose catalog entry is
      truthy: an inherited member has no `includes`, so the first id throws,
      and an id that is not offered and cannot be shown throws too. */
  method CheckDay(day: string, items: seq<Value>) returns (r: Completion<seq<string>>)
    requires day in ValidSessionIds || day in PrototypeNames
    ensures r == if day !in ValidSessionIds && items != [] then Threw(TypeError)
                 else if day in ValidSessionIds && UnprintableId(ValidSessionIds[day], items) then Threw(TypeError)
                 else Returned(if day in ValidSessionIds then IdErrors(day, ValidSessionIds[day], items) else [])
  {
    var errors: seq<string> := [];
    for j := 0 to |items|
      invariant j > 0 ==> day in ValidSessionIds
      invariant day in ValidSessionIds ==> errors == IdErrors(day, ValidSessionIds[day], items[..j])
      invariant day in ValidSessionIds ==> !UnprintableId(ValidSessionIds[day], items[..j])
      invariant day !in ValidSessionIds ==> errors == []
    {
      if day !in ValidSessionIds {
        return Threw(TypeError);
      }
      var ids := ValidSessionIds[day];
      var id := items[j];
      UnprintableStep(ids, items, j);
      if !Offered(id, ids) {
        if !Stringifies(id) {
          UnprintablePrefix(ids, items, j + 1);
          return Threw(TypeError);
        }
        errors := errors + [InvalidId(id, day)];
      }
      assert items[..j + 1][..j] == items[..j];
    }
    assert items[..|items|] == items;
    return Returned(errors);
  }

  lemma UnprintableStep(ids: seq<string>, items: seq<Value>, j: nat)
    requires j < |items|
    ensures UnprintableId(ids, items[..j + 1])
        <==> UnprintableId(ids, items[..j]) || (!Offered(items[j], ids) && !Stringifies(items[j]))
  {
    var before, after := items[..j], items[..j + 1];
    assert forall k :: 0 <= k < j ==> after[k] == before[k];
    assert after[j] == items[j];
  }

  lemma UnprintablePrefix(ids: seq<string>, items: seq<Value>, n: nat)
    requires n <= |items| && UnprintableId(ids, items[..n])
    ensures UnprintableId(ids, items)
  {
    var prefix := items[..n];
    var k :| 0 <= k < |prefix| && !Offered(prefix[k], ids) && !Stringifies(prefix[k]);
    assert prefix[k] == items[k];
  }

  /** One pass of the key loop: only a key whose catalog entry is truthy and
      whose value is an array is checked. */
  method CheckKey(entries: Properties, day: string) returns (r: Completion<seq<string>>)
    ensures r == if KeyThrows(entries, day) then Threw(TypeError) else Returned(DayErrors(entries, day))
  {
    CatalogInvariant();
    var v := Get(entries, day);
    if (day in ValidSessionIds || day in PrototypeNames) && v.List? {
      r := CheckDay(day, v.items);
    } else {
      r := Returned([]);
    }
  }

  /** `Object.keys(data.sessions).forEach(...)` */
  method CheckSessionIds(entries: Properties) returns (r: Completion<seq<string>>)
    ensures r == if IdsThrow(entries, Keys(entries)) then Threw(TypeError)
                 else Returned(AllDayErrors(entries, Keys(entries)))
  {
    var days := Keys(entries);
    var errors: seq<string> := [];
    for i := 0 to |days|
      invariant !IdsThrow(entries, days[..i])
      invariant errors == AllDayErrors(entries, days[..i])
    {
      var checked := CheckKey(entries, days[i]);
      if checked.Threw? {
        assert IdsThrow(entries, days[..i + 1]) by { IdsThrowStep(entries, days, i); }
        IdsThrowPrefix(entries, days, i + 1);
        return checked;
      }
      assert !IdsThrow(entries, days[..i + 1]) by { IdsThrowStep(entries, days, i); }
      AllDayErrorsStep(entries, days, i);
      errors := errors + checked.value;
    }
    assert days[..|days|] == days;
    return Returned(errors);
  }

  /** `items.filter((s) => pair.includes(s)).length` */
  method Count(items: seq<Value>, pair: seq<string>) returns (n: nat)
    ensures n == CountIn(items, pair)
  {
    n := 0;
    for j := 0 to |items|
      invariant n == CountIn(items[..j], pair)
    {
      if Offered(items[j], pair) {
        n := n + 1;
      }
      assert items[..j + 1][..j] == items[..j];
    }
    assert items[..|items|] == items;
  }

  /** The session blocks of the validator: presence, at least one selected
      session, the ids of each catalog day, and the day-3 clashes. */
  method CheckSessions(sessions: Value) returns (r: Completion<seq<string>>)
    ensures r == if IsObject(sessions) && IdsThrow(OwnEntries(sessions), Keys(OwnEntries(sessions)))
                 then Threw(TypeError) else Returned(SessionErrors(sessions))
  {
    if !IsObject(sessions) {
      return Returned([SessionsRequired]);
    }
    var entries := OwnEntries(sessions);
    var errors: seq<string> := [];
    var selected := FindSelected(Values(entries));
    if !selected {
      errors := errors + [NoSession];
    }
    assert errors == if AnySelected(Values(entries)) then [] else [NoSession];
    var ids := CheckSessionIds(entries);
    if ids.Threw? {
      return Threw(ids.error);
    }
    errors := errors + ids.value;
    var conflicts := CheckConflicts(Get(entries, "jour3"));
    errors := errors + conflicts;
    return Returned(errors);
  }

  /** The day-3 block: the two pair counts, each reported when above one. */
  method CheckConflicts(jour3: Value) returns (errors: seq<string>)
    ensures errors == ConflictErrors(jour3)
  {
    errors := [];
    if jour3.List? {
      var morning := Count(jour3.items, Morning);
      if morning > 1 {
        errors := errors + [MorningConflict];
      }
      var afternoon := Count(jour3.items, Afternoon);
      if afternoon > 1 {
        errors := errors + [AfternoonConflict];
      }
    }
  }

  /** `validatePanelsInscriptionData(data)`. The data is a value: the
      validator reads it and never writes to it. */
  method ValidatePanels(data: Properties) returns (r: Completion<Validation>)
    ensures r == PanelsValidation(data)
  {
    var required := CheckRequired(data, RequiredFields);
    if required.Threw? {
      return Threw(required.error);
    }
    var email := Get(data, "email");
    var format: seq<string> := [];
    if email.Text? && email.s != "" && !Matches(Trim(email.s)) {
      format := [EmailInvalid];
    }
    assert format == EmailFormatRule(email);
    var sessions := CheckSessions(Get(data, "sessions"));
    if sessions.Threw? {
      return Threw(sessions.error);
    }
    var errors := required.value + format + sessions.value;
    return Returned(Validation(|errors| == 0, errors));
  }

  // ---------------------------------------------------------------------------
  // What the validator promises

  /** The required-field messages in the order the fields are listed. */
  function RequiredMessages(fields: seq<string>): (messages: seq<string>)
    ensures |messages| == |fields|
    ensures forall i :: 0 <= i < |fields| ==> messages[i] == RequiredMessage(fields[i])
  {
    seq(|fields|, i requires 0 <= i < |fields| => RequiredMessage(fields[i]))
  }

  /** Each blank required field yields its labelled message, nothing else does,
      and the messages come in the order the fields are listed. */
  lemma {:induction false} RequiredErrorsMeaning(data: Properties, fields: seq<string>)
    ensures Subsequence(RequiredErrors(data, fields), RequiredMessages(fields))
    ensures forall i :: 0 <= i < |fields| && PresenceOf(Get(data, fields[i])).Blank?
              ==> RequiredMessage(fields[i]) in RequiredErrors(data, fields)
    ensures forall m :: m in RequiredErrors(data, fields)
              ==> exists i :: 0 <= i < |fields| && m == RequiredMessage(fields[i]) && PresenceOf(Get(data, fields[i])).Blank?
  {
    if fields != [] {
      var n := |fields| - 1;
      var init := fields[..n];
      RequiredErrorsMeaning(data, init);
      var last := if PresenceOf(Get(data, fields[n])).Blank? then [RequiredMessage(fields[n])] else [];
      assert RequiredErrors(data, fields) == RequiredErrors(data, init) + last;
      assert RequiredMessages(fields) == RequiredMessages(init) + [RequiredMessage(fields[n])];
      AppendGroup(RequiredErrors(data, init), RequiredMessages(init), last, [RequiredMessage(fields[n])]);
      forall i | 0 <= i < |fields| && PresenceOf(Get(data, fields[i])).Blank?
        ensures RequiredMessage(fields[i]) in RequiredErrors(data, fields)
      {
        if i < n {
          assert init[i] == fields[i];
        }
      }
      forall m | m in RequiredErrors(data, fields)
        ensures exists i :: 0 <= i < |fields| && m == RequiredMessage(fields[i]) && PresenceOf(Get(data, fields[i])).Blank?
      {
        if m in RequiredErrors(data, init) {
          var i :| 0 <= i < |init| && m == RequiredMessage(init[i]) && PresenceOf(Get(data, init[i])).Blank?;
          assert init[i] == fields[i];
        } else {
          assert m == RequiredMessage(fields[n]);
        }
      }
    }
  }

  /** The email is tested trimmed: a present email passes the format rule
      exactly when its trimmed text is well shaped. */
  lemma EmailTestedTrimmed(s: string)
    requires s != ""
    ensures EmailFormatRule(Text(s)) == [] <==> WellShaped(Trim(s))
  {
    MatchesIff(Trim(s));
  }

  /** So an email of white space only is reported twice: as missing and as
      malformed. */
  lemma BlankEmailTwice(data: Properties, s: string)
    requires Get(data, "email") == Text(s) && s != "" && AllSpace(s)
    requires PanelsValidation(data).Returned?
    ensures EmailRequired in PanelsValidation(data).value.errors
    ensures EmailInvalid in PanelsValidation(data).value.errors
  {
    assert EmailFormatRule(Text(s)) == [EmailInvalid] by {
      TrimBlankIff(s);
    }
    assert EmailRequired in RequiredErrors(data, RequiredFields) by {
      EmailLabelled();
      RequiredErrorsMeaning(data, RequiredFields);
    }
    assert !PanelsThrows(data);
    assert PanelsValidation(data).value.errors == PanelsErrors(data);
  }

  lemma EmailLabelled()
    ensures RequiredFields[2] == "email" && RequiredMessage("email") == EmailRequired
  {
    assert Label("email") == "email";
  }

  /** Without an object for `sessions`, the one session error is that they are
      required: no id or clash is examined. */
  lemma SessionsMissing(data: Properties)
    requires !IsObject(Get(data, "sessions"))
    ensures PanelsErrors(data)
         == RequiredErrors(data, RequiredFields) + EmailFormatRule(Get(data, "email")) + [SessionsRequired]
  {
  }

  /** A property lookup finds one of the object's values, or nothing. */
  lemma {:induction false} GetFound(props: Properties, key: string)
    ensures Get(props, key) == Nullish || Get(props, key) in Values(props)
  {
    if props != [] && props[0].0 != key {
      GetFound(props[1..], key);
      assert Values(props) == [props[0].1] + Values(props[1..]);
    }
  }

  lemma {:induction false} NoIdErrorsWhenEmpty(entries: Properties, days: seq<string>)
    requires !AnySelected(Values(entries))
    ensures AllDayErrors(entries, days) == []
  {
    if days != [] {
      NoIdErrorsWhenEmpty(entries, days[..|days| - 1]);
      var day := days[|days| - 1];
      GetFound(entries, day);
      var v := Get(entries, day);
      if v.List? {
        var k :| 0 <= k < |Values(entries)| && Values(entries)[k] == v;
        assert v.items == [];
      }
    }
  }

  /** With no non-empty array among the values of `sessions`, the one session
      error is that none is selected. */
  lemma NothingSelected(sessions: Value)
    requires IsObject(sessions) && !AnySelected(Values(OwnEntries(sessions)))
    ensures SessionErrors(sessions) == [NoSession]
  {
    var entries := OwnEntries(sessions);
    NoIdErrorsWhenEmpty(entries, Keys(entries));
    GetFound(entries, "jour3");
    var jour3 := Get(entries, "jour3");
    if jour3.List? {
      var k :| 0 <= k < |Values(entries)| && Values(entries)[k] == jour3;
      assert jour3.items == [];
    }
  }

  /** A day's ids give no error exactly when the day offers all of them, and
      each id it does not offer is named in an error. */
  lemma {:induction false} IdErrorsMeaning(day: string, ids: seq<string>, items: seq<Value>)
    ensures IdErrors(day, ids, items) == [] <==> forall k :: 0 <= k < |items| ==> Offered(items[k], ids)
    ensures forall k :: 0 <= k < |items| && !Offered(items[k], ids) ==> InvalidId(items[k], day) in IdErrors(day, ids, items)
    ensures forall m :: m in IdErrors(day, ids, items) ==>
              exists k :: 0 <= k < |items| && !Offered(items[k], ids) && m == InvalidId(items[k], day)
    ensures |IdErrors(day, ids, items)| + CountIn(items, ids) == |items|
  {
    if items != [] {
      var n := |items| - 1;
      var init := items[..n];
      IdErrorsMeaning(day, ids, init);
      assert forall k :: 0 <= k < n ==> init[k] == items[k];
      var tail := if Offered(items[n], ids) then [] else [InvalidId(items[n], day)];
      assert IdErrors(day, ids, items) == IdErrors(day, ids, init) + tail;
      forall m | m in IdErrors(day, ids, items)
        ensures exists k :: 0 <= k < |items| && !Offered(items[k], ids) && m == InvalidId(items[k], day)
      {
        if m !in IdErrors(day, ids, init) {
          assert m == InvalidId(items[n], day);
        }
      }
    }
  }

  /** The clash counts are occurrence counts: for two distinct ids, how many
      times the first appears plus how many times the second does. */
  lemma {:induction false} CountInOccurrences(items: seq<Value>, a: string, b: string)
    requires a != b
    ensures CountIn(items, [a, b]) == multiset(items)[Text(a)] + multiset(items)[Text(b)]
  {
    if items != [] {
      var n := |items| - 1;
      CountInOccurrences(items[..n], a, b);
      assert items == items[..n] + [items[n]];
      assert multiset(items) == multiset(items[..n]) + multiset{items[n]};
    }
  }

  /** The morning clash is reported exactly when the morning sessions occur
      twice or more in all, counting repeats; likewise the afternoon. */
  lemma ConflictMeaning(items: seq<Value>)
    ensures MorningConflict in ConflictErrors(List(items))
        <==> multiset(items)[Text("j3-1")] + multiset(items)[Text("j3-2")] > 1
    ensures AfternoonConflict in ConflictErrors(List(items))
        <==> multiset(items)[Text("j3-3")] + multiset(items)[Text("j3-4")] > 1
  {
    CountInOccurrences(items, "j3-1", "j3-2");
    CountInOccurrences(items, "j3-3", "j3-4");
    assert MorningConflict != AfternoonConflict by {
      assert MorningConflict[68] != AfternoonConflict[68];
    }
  }

  /** One morning and one afternoon session do not clash; the same morning
      session twice does. */
  lemma ConflictExamples()
    ensures ConflictErrors(List([Text("j3-1"), Text("j3-3")])) == []
    ensures ConflictErrors(List([Text("j3-1"), Text("j3-1")])) == [MorningConflict]
  {
    CountInOccurrences([Text("j3-1"), Text("j3-3")], "j3-1", "j3-2");
    CountInOccurrences([Text("j3-1"), Text("j3-3")], "j3-3", "j3-4");
    CountInOccurrences([Text("j3-1"), Text("j3-1")], "j3-1", "j3-2");
    CountInOccurrences([Text("j3-1"), Text("j3-1")], "j3-3", "j3-4");
  }

  /** A key named after an inherited member, holding an id, makes the
      validator throw instead of reporting. */
  lemma InheritedDayThrows()
    ensures PanelsValidation([("sessions", Record([("toString", List([Text("j1-1")]))]))]) == Threw(TypeError)
  {
    var entries := [("toString", List([Text("j1-1")]))];
    assert Keys(entries)[0] == "toString";
    assert KeyThrows(entries, Keys(entries)[0]);
  }

  /** An id that the day does not offer and that is an object with its own
      `toString` makes the validator throw while it builds the message. */
  lemma UnprintableIdThrows()
    ensures PanelsValidation([("sessions", Record([("jour1", List([Record([("toString", Num(1))])]))]))]) == Threw(TypeError)
  {
    var id := Record([("toString", Num(1))]);
    var items := [id];
    var entries := [("jour1", List(items))];
    assert Keys(entries)[0] == "jour1";
    assert Keys(id.entries) == ["toString"];
    assert !Offered(items[0], ValidSessionIds["jour1"]) && !Stringifies(items[0]);
    assert UnprintableId(ValidSessionIds["jour1"], items);
    assert KeyThrows(entries, Keys(entries)[0]);
  }

  /** A key the object does not have reads as `undefined`. */
  lemma {:induction false} GetAbsent(props: Properties, key: string)
    requires key !in Keys(props)
    ensures Get(props, key) == Nullish
  {
    if props != [] {
      assert Keys(props)[0] == props[0].0;
      assert Keys(props[1..]) == Keys(props)[1..];
      GetAbsent(props[1..], key);
    }
  }

  lemma AllDayErrorsStep(entries: Properties, days: seq<string>, i: nat)
    requires i < |days|
    ensures AllDayErrors(entries, days[..i + 1]) == AllDayErrors(entries, days[..i]) + DayErrors(entries, days[i])
  {
    assert days[..i + 1][..i] == days[..i];
  }

  /** No id error at all means no id error for any listed day. */
  lemma {:induction false} AllDayErrorsEmpty(entries: Properties, days: seq<string>, i: int)
    requires AllDayErrors(entries, days) == [] && 0 <= i < |days|
    ensures DayErrors(entries, days[i]) == []
  {
    var n := |days| - 1;
    var init, last := days[..n], days[n];
    assert AllDayErrors(entries, init) + DayErrors(entries, last) == [];
    assert AllDayErrors(entries, init) == [] && DayErrors(entries, last) == [] by {
      EmptyConcat(AllDayErrors(entries, init), DayErrors(entries, last));
    }
    if i < n {
      AllDayErrorsEmpty(entries, init, i);
      assert days[i] == init[i];
    }
  }

  lemma EmptyConcat(x: seq<string>, y: seq<string>)
    requires x + y == []
    ensures x == [] && y == []
  {
    assert |x + y| == |x| + |y|;
  }

  /** No required error and no throw: every listed field is filled. */
  lemma RequiredFilled(data: Properties, fields: seq<string>)
    requires RequiredErrors(data, fields) == [] && !RequiredThrows(data, fields)
    ensures forall i :: 0 <= i < |fields| ==> PresenceOf(Get(data, fields[i])).Filled?
  {
    RequiredErrorsMeaning(data, fields);
  }

  /** Sessions that draw no error: one is chosen, each catalog day holds only
      ids it offers, and each day-3 pair is chosen at most once. */
  lemma SessionsAccepted(sessions: Value)
    requires SessionErrors(sessions) == []
    ensures IsObject(sessions) && AnySelected(Values(OwnEntries(sessions)))
    ensures forall day :: day in ValidSessionIds && Get(OwnEntries(sessions), day).List? ==>
              forall k :: 0 <= k < |Get(OwnEntries(sessions), day).items| ==>
                Offered(Get(OwnEntries(sessions), day).items[k], ValidSessionIds[day])
    ensures Get(OwnEntries(sessions), "jour3").List? ==>
              var items := Get(OwnEntries(sessions), "jour3").items;
              && multiset(items)[Text("j3-1")] + multiset(items)[Text("j3-2")] <= 1
              && multiset(items)[Text("j3-3")] + multiset(items)[Text("j3-4")] <= 1
  {
    var entries := OwnEntries(sessions);
    forall day | day in ValidSessionIds && Get(entries, day).List?
      ensures forall k :: 0 <= k < |Get(entries, day).items| ==> Offered(Get(entries, day).items[k], ValidSessionIds[day])
    {
      if day !in Keys(entries) {
        GetAbsent(entries, day);
      }
      var i :| 0 <= i < |Keys(entries)| && Keys(entries)[i] == day;
      AllDayErrorsEmpty(entries, Keys(entries), i);
      IdErrorsMeaning(day, ValidSessionIds[day], Get(entries, day).items);
    }
    if Get(entries, "jour3").List? {
      ConflictMeaning(Get(entries, "jour3").items);
    }
  }

  /** What an accepted registration has: every required field filled, a well
      shaped email once trimmed, and sessions as `SessionsAccepted` states. */
  lemma ValidRegistration(data: Properties)
    requires PanelsValidation(data).Returned? && PanelsValidation(data).value.isValid
    ensures forall i :: 0 <= i < |RequiredFields| ==> PresenceOf(Get(data, RequiredFields[i])).Filled?
    ensures Get(data, "email").Text? && WellShaped(Trim(Get(data, "email").s))
    ensures SessionErrors(Get(data, "sessions")) == []
  {
    assert !PanelsThrows(data);
    var required := RequiredErrors(data, RequiredFields);
    var format := EmailFormatRule(Get(data, "email"));
    assert required == [] && format == [] && SessionErrors(Get(data, "sessions")) == [] by {
      assert PanelsErrors(data) == [];
    }
    RequiredFilled(data, RequiredFields);
    assert PresenceOf(Get(data, "email")).Filled? by {
      EmailLabelled();
    }
    EmailTestedTrimmed(Get(data, "email").s);
  }

  /** A complete registration for one day-1 session. */
  const SampleSessions := Record([("jour1", List([Text("j1-1")]))])
  const Sample: Properties := [
    ("firstName", Text("Awa")), ("lastName", Text("Diop")), ("email", Text("a@b.co")),
    ("phone", Text("77")), ("organization", Text("Ucad")), ("role", Text("Chef")),
    ("country", Text("Sn")), ("sessions", SampleSessions)
  ]

  lemma SampleFieldsFilled()
    ensures forall i :: 0 <= i < |RequiredFields| ==> PresenceOf(Get(Sample, RequiredFields[i])).Filled?
  {
    forall i | 0 <= i < |RequiredFields|
      ensures PresenceOf(Get(Sample, RequiredFields[i])).Filled?
    {
      SampleField(i);
    }
  }

  lemma SampleField(i: nat)
    requires i < |RequiredFields|
    ensures PresenceOf(Get(Sample, RequiredFields[i])).Filled?
  {
    assert forall k :: 0 <= k < i ==> Sample[k].0 != RequiredFields[i];
    SkipOthers(Sample, i, RequiredFields[i]);
    assert Sample[i].0 == RequiredFields[i];
    FilledText(Sample[i].1.s);
  }

  /** Keys before position `i` that differ from `key` do not stop the lookup. */
  lemma {:induction false} SkipOthers(props: Properties, i: nat, key: string)
    requires i <= |props|
    requires forall k :: 0 <= k < i ==> props[k].0 != key
    ensures Get(props, key) == Get(props[i..], key)
  {
    if i > 0 {
      assert props[1..][i - 1..] == props[i..];
      SkipOthers(props[1..], i - 1, key);
    }
  }

  lemma {:induction false} RequiredErrorsOfFilled(data: Properties, fields: seq<string>)
    requires forall i :: 0 <= i < |fields| ==> PresenceOf(Get(data, fields[i])).Filled?
    ensures RequiredErrors(data, fields) == [] && !RequiredThrows(data, fields)
  {
    if fields != [] {
      var n := |fields| - 1;
      assert forall i :: 0 <= i < n ==> fields[..n][i] == fields[i];
      RequiredErrorsOfFilled(data, fields[..n]);
    }
  }

  lemma SampleSessionsAccepted()
    ensures SessionErrors(SampleSessions) == []
    ensures !IdsThrow(OwnEntries(SampleSessions), Keys(OwnEntries(SampleSessions)))
  {
    var entries := OwnEntries(SampleSessions);
    assert Keys(entries) == ["jour1"];
    assert Values(entries) == [List([Text("j1-1")])];
    assert AnySelected(Values(entries));
    assert IdErrors("jour1", ValidSessionIds["jour1"], [Text("j1-1")]) == [];
    assert AllDayErrors(entries, ["jour1"]) == [];
    assert Get(entries, "jour3") == Nullish;
    CatalogInvariant();
  }

  lemma SampleLookups()
    ensures Get(Sample, "email") == Text("a@b.co")
    ensures Get(Sample, "sessions") == SampleSessions
  {
    assert forall k :: 0 <= k < 2 ==> Sample[k].0 != "email";
    SkipOthers(Sample, 2, "email");
    assert forall k :: 0 <= k < 7 ==> Sample[k].0 != "sessions";
    SkipOthers(Sample, 7, "sessions");
  }

  /** Valid registrations exist: the sample passes every rule. */
  lemma SampleIsValid()
    ensures PanelsValidation(Sample) == Returned(Verdict([]))
  {
    SampleFieldsFilled();
    RequiredErrorsOfFilled(Sample, RequiredFields);
    SampleLookups();
    assert EmailFormatRule(Text("a@b.co")) == [] by {
      TrimUntouched("a@b.co");
      AcceptsExample();
    }
    SampleSessionsAccepted();
  }

  // ---------------------------------------------------------------------------
  // The handler

  /** The handler. A registration that passes validation reaches
      `MailService.sendPanelsInscriptionEmail`, which the mail service does not
      define: the call throws a TypeError, so every valid registration is
      answered with the generic failure and no message is handed over. */
  method HandlePanelsInscription(httpMethod: string, body: Value) returns (h: Handled)
    ensures httpMethod == "OPTIONS" ==> h == Preflight
    ensures httpMethod != "OPTIONS" && httpMethod != "POST" ==> h == WrongMethod
    ensures httpMethod == "POST" && !IsObject(body) ==> h == BadBody
    ensures httpMethod == "POST" && IsObject(body) ==>
              var outcome := PanelsValidation(PropertiesOf(body));
              h == if outcome.Returned? && !outcome.value.isValid then Rejected(outcome.value.errors)
                   else Failed(RegistrationFailed, None)
  {
    if httpMethod == "OPTIONS" {
      return Preflight;
    }
    if httpMethod != "POST" {
      return WrongMethod;
    }
    if !IsObject(body) {
      return BadBody;
    }
    var validation := ValidatePanels(PropertiesOf(body));
    if validation.Threw? {
      return Failed(RegistrationFailed, None);
    }
    if !validation.value.isValid {
      return Rejected(validation.value.errors);
    }
    return Failed(RegistrationFailed, None);
  }

  /** The handler as evidently intended: a valid registration is handed to a
      send operation, `send`, which stands for the notification the mail
      service lacks and says whether it completes, and the registrant gets the
      success message when it does. */
  method HandlePanelsInscriptionIntended(httpMethod: string, body: Value, send: Properties -> bool) returns (h: Handled)
    ensures httpMethod == "OPTIONS" ==> h == Preflight
    ensures httpMethod != "OPTIONS" && httpMethod != "POST" ==> h == WrongMethod
    ensures httpMethod == "POST" && !IsObject(body) ==> h == BadBody
    ensures httpMethod == "POST" && IsObject(body) ==>
              var data := PropertiesOf(body);
              match PanelsValidation(data)
              case Threw(_) => h == Failed(RegistrationFailed, None)
              case Returned(v) =>
                h == if !v.isValid then Rejected(v.errors)
                     else if send(data) then Succeeded(Registered, None)
                     else Failed(RegistrationFailed, None)
  {
    if httpMethod == "OPTIONS" {
      return Preflight;
    }
    if httpMethod != "POST" {
      return WrongMethod;
    }
    if !IsObject(body) {
      return BadBody;
    }
    var data := PropertiesOf(body);
    var validation := ValidatePanels(data);
    if validation.Threw? {
      return Failed(RegistrationFailed, None);
    }
    if !validation.value.isValid {
      return Rejected(validation.value.errors);
    }
    if !send(data) {
      return Failed(RegistrationFailed, None);
    }
    return Succeeded(Registered, None);
  }
}
