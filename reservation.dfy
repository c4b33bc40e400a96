/** The reservation form endpoint, api/reservation.js: `validateReservationData`,
    which also fills in a default package on the object it is given, and the
    request handler. */
module Reservation {
  import opened JsValues
  import opened EmailPattern
  import opened FormRules
  import opened MailService
  import opened Responses

  const ParticipationTypes := ["participant", "exposant", "partenaire", "speaker"]
  const Stands := ["Stand Standard", "Stand Premium", "Stand VIP"]
  /** The packages a participant may name; the empty string stands for none. */
  const Packages := ["Package Teranga", "Package Silver", "Package Gold", "Non spécifié", ""]
  /** The package written into a participant's submission that names none. */
  const Unspecified := "Non spécifié"

  const TypeRequired := "Le type de participation est requis"
  /** Lists `ParticipationTypes` joined by ", ". */
  const TypeInvalid := "Type de participation invalide. Valeurs acceptées: participant, exposant, partenaire, speaker"
  const StandRequired := "Le stand est requis pour les exposants"
  /** Lists `Stands` joined by ", ". */
  const StandInvalid := "Stand invalide. Valeurs acceptées: Stand Standard, Stand Premium, Stand VIP"
  /** Lists the non-empty `Packages` joined by ", ", then allows leaving it empty. */
  const PackageInvalid := "Package invalide. Valeurs acceptées: Package Teranga, Package Silver, Package Gold, Non spécifié, ou laissez vide"
  const PeopleInvalid := "Le nombre de personnes doit être un nombre valide supérieur à 0"

  const Sent := "Email envoyé avec succès"
  const SendFailed := "Une erreur est survenue lors de l'envoi de l'email"

  const TypeGroup := [TypeRequired, TypeInvalid]
  const PackageGroup := [StandRequired, StandInvalid, PackageInvalid]

  /** Every message the validator can report, in the order it checks. */
  const ReservationMessages := EmailGroup + [FullNameRequired] + TypeGroup + PackageGroup + [PeopleInvalid]

  /** The participation type is required and must be one of the four names,
      compared as sent, without trimming. */
  function TypeRule(v: Value): (r: seq<string>)
    ensures |r| <= 1 && (r != [] ==> r[0] in TypeGroup)
  {
    match PresenceOf(v)
    case Blank => [TypeRequired]
    case Filled(s) => if s in ParticipationTypes then [] else [TypeInvalid]
    case NotText => []
  }

  /** "requis" for a missing or blank type; the other error for a string that
      is not exactly one of the names, surrounding spaces included. */
  lemma TypeRuleMeaning(v: Value)
    ensures TypeRequired in TypeRule(v) <==> PresenceOf(v).Blank?
    ensures TypeInvalid in TypeRule(v) <==> v.Text? && !AllSpace(v.s) && v.s !in ParticipationTypes
  {
  }

  /** `data.participationType?.trim()` when it does not throw: nothing for a
      missing or null type, the trimmed text for a string. */
  function TrimmedType(data: Properties): Option<string> {
    var v := Get(data, "participationType");
    if v.Text? then Some(Trim(v.s)) else None
  }

  /** The package rule depends on the trimmed type. An exhibitor needs one of
      the stands; a participant may leave the package blank or name one of the
      packages; any other type is not checked. */
  function PackageRule(kind: Option<string>, package: Value): (r: seq<string>)
    ensures |r| <= 1 && (r != [] ==> r[0] in PackageGroup)
  {
    if kind == Some("exposant") then
      match PresenceOf(package)
      case Blank => [StandRequired]
      case Filled(p) => if Trim(p) in Stands then [] else [StandInvalid]
      case NotText => []
    else if kind == Some("participant") then
      match PresenceOf(package)
      case Filled(p) => if Trim(p) in Packages then [] else [PackageInvalid]
      case _ => []
    else []
  }

  /** An exhibitor's blank package is "requis" and a present one must trim to a
      stand; a participant's present package must trim to one of the packages;
      nothing else is reported. */
  lemma PackageRuleMeaning(kind: Option<string>, package: Value)
    ensures StandRequired in PackageRule(kind, package) <==> kind == Some("exposant") && PresenceOf(package).Blank?
    ensures StandInvalid in PackageRule(kind, package) <==>
              kind == Some("exposant") && package.Text? && !AllSpace(package.s) && Trim(package.s) !in Stands
    ensures PackageInvalid in PackageRule(kind, package) <==>
              kind == Some("participant") && package.Text? && !AllSpace(package.s) && Trim(package.s) !in Packages
    ensures kind != Some("exposant") && kind != Some("participant") ==> PackageRule(kind, package) == []
  {
  }

  /** `numberOfPeople` must be truthy, and `parseInt` of its text must give an
      integer of at least 1. */
  function PeopleRule(v: Value): (r: seq<string>)
    ensures |r| <= 1 && (r != [] ==> r[0] == PeopleInvalid)
  {
    var count := ParseInt(Display(v));
    if !Truthy(v) || count.None? || count.value < 1 then [PeopleInvalid] else []
  }

  /** The validator throws before it reaches the number of people exactly
      when `.trim()` meets a truthy non-string in a field it trims, or when the
      participation type is `false`, `0` or another value that is neither a
      string nor null or missing: `?.` only guards against null and
      `undefined`. */
  predicate FieldsThrow(data: Properties) {
    var kind := Get(data, "participationType");
    || PresenceOf(Get(data, "email")).NotText?
    || PresenceOf(Get(data, "fullName")).NotText?
    || !(kind.Nullish? || kind.Text?)
    || ((TrimmedType(data) == Some("exposant") || TrimmedType(data) == Some("participant"))
        && PresenceOf(Get(data, "package")).NotText?)
  }

  /** `parseInt` turns a truthy count into a string first, and throws when it
      cannot; a falsy count is refused before it is converted. */
  predicate CountThrows(people: Value) {
    Truthy(people) && !Stringifies(people)
  }

  /** The validator throws in the trimmed fields, or else, after the package
      default is written, on the number of people. */
  predicate ReservationThrows(data: Properties) {
    FieldsThrow(data) || CountThrows(Get(data, "numberOfPeople"))
  }

  /** The errors of a submission on which the validator does not throw. */
  function ReservationErrors(data: Properties): seq<string> {
    EmailRule(Get(data, "email"))
    + RequiredRule(Get(data, "fullName"), FullNameRequired)
    + TypeRule(Get(data, "participationType"))
    + PackageRule(TrimmedType(data), Get(data, "package"))
    + PeopleRule(Get(data, "numberOfPeople"))
  }

  /** What `validateReservationData(data)` returns or throws. */
  function ReservationValidation(data: Properties): Completion<Validation> {
    if ReservationThrows(data) then Threw(TypeError) else Returned(Verdict(ReservationErrors(data)))
  }

  /** The submission as the validator leaves it: a participant whose package is
      missing or blank gets `Non spécifié`; nothing else is touched. */
  function Normalized(data: Properties): Properties {
    if TrimmedType(data) == Some("participant") && PresenceOf(Get(data, "package")).Blank?
    then Put(data, "package", Text(Unspecified))
    else data
  }

  /** The package block of `validateReservationData`: the error it adds, or
      the TypeError of `.trim()` on a package that is not a string; for a
      participant with no package it writes the default into the object. */
  method CheckPackage(data: JsObject, kind: Option<string>) returns (r: Completion<seq<string>>)
    modifies data
    ensures var package := Get(old(data.properties), "package");
            r == if (kind == Some("exposant") || kind == Some("participant")) && PresenceOf(package).NotText?
                 then Threw(TypeError) else Returned(PackageRule(kind, package))
    ensures data.properties ==
              if kind == Some("participant") && PresenceOf(Get(old(data.properties), "package")).Blank?
              then Put(old(data.properties), "package", Text(Unspecified)) else old(data.properties)
  {
    if kind == Some("exposant") {
      var package := PresenceOf(data.Read("package"));
      if package.NotText? {
        return Threw(TypeError);
      } else if package.Blank? {
        return Returned([StandRequired]);
      } else if Trim(package.raw) !in Stands {
        return Returned([StandInvalid]);
      }
    } else if kind == Some("participant") {
      var package := PresenceOf(data.Read("package"));
      if package.NotText? {
        return Threw(TypeError);
      }
      r := Returned([]);
      if package.Filled? && Trim(package.raw) !in Packages {
        r := Returned([PackageInvalid]);
      }
      if package.Blank? {
        data.Assign("package", Text(Unspecified));
      }
      return;
    }
    return Returned([]);
  }

  /** The last block of `validateReservationData`: `numberOfPeople` must be
      truthy and `parseInt` of it must be a number of at least 1; the
      conversion `parseInt` makes may throw. */
  method CheckPeople(people: Value) returns (r: Completion<seq<string>>)
    ensures r == if CountThrows(people) then Threw(TypeError) else Returned(PeopleRule(people))
  {
    if !Truthy(people) {
      return Returned([PeopleInvalid]);
    }
    if !Stringifies(people) {
      return Threw(TypeError);
    }
    var count := ParseInt(Display(people));
    if count.None? || count.value < 1 {
      return Returned([PeopleInvalid]);
    }
    return Returned([]);
  }

  /** `validateReservationData(data)` on the object itself: successive guarded
      pushes, and one assignment to `data.package`. */
  method ValidateReservation(data: JsObject) returns (r: Completion<Validation>)
    modifies data
    ensures r == ReservationValidation(old(data.properties))
    ensures data.properties == if FieldsThrow(old(data.properties)) then old(data.properties) else Normalized(old(data.properties))
  {
    ghost var original := data.properties;
    var errors: seq<string> := [];
    var email := PresenceOf(data.Read("email"));
    if email.NotText? {
      return Threw(TypeError);
    } else if email.Blank? {
      errors := errors + [EmailRequired];
    } else if !Matches(email.raw) {
      errors := errors + [EmailInvalid];
    }
    var fullName := PresenceOf(data.Read("fullName"));
    if fullName.NotText? {
      return Threw(TypeError);
    } else if fullName.Blank? {
      errors := errors + [FullNameRequired];
    }
    assert errors == EmailRule(Get(original, "email")) + RequiredRule(Get(original, "fullName"), FullNameRequired);
    var typeValue := data.Read("participationType");
    var participationType := PresenceOf(typeValue);
    if participationType.NotText? {
      return Threw(TypeError);
    } else if participationType.Blank? {
      errors := errors + [TypeRequired];
    } else if participationType.raw !in ParticipationTypes {
      errors := errors + [TypeInvalid];
    }
    assert errors == EmailRule(Get(original, "email")) + RequiredRule(Get(original, "fullName"), FullNameRequired)
                     + TypeRule(Get(original, "participationType"));
    // `data.participationType?.trim()`
    var kind: Option<string>;
    if typeValue.Nullish? {
      kind := None;
    } else if typeValue.Text? {
      kind := Some(Trim(typeValue.s));
    } else {
      return Threw(TypeError);
    }
    assert kind == TrimmedType(original);
    var package := CheckPackage(data, kind);
    if package.Threw? {
      return Threw(package.error);
    }
    assert !FieldsThrow(original);
    errors := errors + package.value;
    ghost var checked := errors;
    PutThenGet(original, "package", Text(Unspecified), "numberOfPeople");
    var people := data.Read("numberOfPeople");
    assert people == Get(original, "numberOfPeople");
    var added := CheckPeople(people);
    if added.Threw? {
      return Threw(added.error);
    }
    errors := errors + added.value;
    assert errors == ReservationErrors(original);
    return Returned(Validation(|errors| == 0, errors));
  }

  // ---------------------------------------------------------------------------
  // What the validator promises

  /** The four participation types have no surrounding white space, so the
      trimmed type the package rule sees is the type itself. */
  lemma TypesAreTrimmed(kind: string)
    requires kind in ParticipationTypes
    ensures Trim(kind) == kind
  {
    TrimUntouched(kind);
  }

  /** What the package must be, for the submission to pass, once the type is
      one of the four. */
  predicate PackageAccepted(kind: string, package: Value) {
    && (kind == "exposant" ==> package.Text? && Trim(package.s) in Stands)
    && (kind == "participant" ==>
          !PresenceOf(package).NotText? && (package.Text? && !AllSpace(package.s) ==> Trim(package.s) in Packages))
  }

  lemma TypeAccepted(data: Properties)
    ensures var kind := Get(data, "participationType");
            ((kind.Nullish? || kind.Text?) && TypeRule(kind) == []) <==> kind.Text? && kind.s in ParticipationTypes
    ensures var kind := Get(data, "participationType");
            kind.Text? && kind.s in ParticipationTypes ==> TrimmedType(data) == Some(kind.s)
  {
    var kind := Get(data, "participationType");
    TypeRuleMeaning(kind);
    if kind.Text? && kind.s in ParticipationTypes {
      TypesAreTrimmed(kind.s);
      assert TypeRule(kind) == [];
    }
  }

  lemma PackageAcceptedIff(kind: string, package: Value)
    requires kind in ParticipationTypes
    ensures (!((kind == "exposant" || kind == "participant") && PresenceOf(package).NotText?)
             && PackageRule(Some(kind), package) == [])
        <==> PackageAccepted(kind, package)
  {
    PackageRuleMeaning(Some(kind), package);
    if package.Text? {
      TrimBlankIff(package.s);
    }
  }

  /** A reservation passes exactly when its email is a well-shaped string, its
      full name has content, its type is exactly one of the four, the package
      suits the type, and the number of people is acceptable. */
  lemma ReservationValidIff(data: Properties)
    ensures (ReservationValidation(data).Returned? && ReservationValidation(data).value.isValid)
        <==> && Get(data, "email").Text? && WellShaped(Get(data, "email").s)
             && PresenceOf(Get(data, "fullName")).Filled?
             && Get(data, "participationType").Text? && Get(data, "participationType").s in ParticipationTypes
             && PackageAccepted(Get(data, "participationType").s, Get(data, "package"))
             && Stringifies(Get(data, "numberOfPeople")) && PeopleRule(Get(data, "numberOfPeople")) == []
  {
    var kind := Get(data, "participationType");
    ValidParts(data);
    EmailAccepted(Get(data, "email"));
    TypeAccepted(data);
    if kind.Text? && kind.s in ParticipationTypes {
      PackageAcceptedIff(kind.s, Get(data, "package"));
    }
  }

  /** A verdict without errors, group by group. */
  lemma ValidParts(data: Properties)
    ensures (ReservationValidation(data).Returned? && ReservationValidation(data).value.isValid)
        <==> && !FieldsThrow(data) && !CountThrows(Get(data, "numberOfPeople"))
             && EmailRule(Get(data, "email")) == []
             && RequiredRule(Get(data, "fullName"), FullNameRequired) == []
             && TypeRule(Get(data, "participationType")) == []
             && PackageRule(TrimmedType(data), Get(data, "package")) == []
             && PeopleRule(Get(data, "numberOfPeople")) == []
  {
    var e, f, t, p, n := EmailRule(Get(data, "email")), RequiredRule(Get(data, "fullName"), FullNameRequired),
                         TypeRule(Get(data, "participationType")), PackageRule(TrimmedType(data), Get(data, "package")),
                         PeopleRule(Get(data, "numberOfPeople"));
    assert ReservationErrors(data) == e + f + t + p + n;
    assert |e + f + t + p + n| == |e| + |f| + |t| + |p| + |n|;
  }

  /** The errors come in the fixed order email, full name, type, package or
      stand, number of people, at most one from each, so at most five. */
  lemma ReservationErrorsOrder(data: Properties)
    requires ReservationValidation(data).Returned?
    ensures Subsequence(ReservationValidation(data).value.errors, ReservationMessages)
    ensures |ReservationValidation(data).value.errors| <= 5
  {
    var e := EmailRule(Get(data, "email"));
    var f := RequiredRule(Get(data, "fullName"), FullNameRequired);
    var t := TypeRule(Get(data, "participationType"));
    var p := PackageRule(TrimmedType(data), Get(data, "package"));
    var n := PeopleRule(Get(data, "numberOfPeople"));
    assert ReservationValidation(data).value.errors == e + f + t + p + n;
    SubsequenceOfOne(e, EmailGroup);
    AppendGroup(e, EmailGroup, f, [FullNameRequired]);
    AppendGroup(e + f, EmailGroup + [FullNameRequired], t, TypeGroup);
    AppendGroup(e + f + t, EmailGroup + [FullNameRequired] + TypeGroup, p, PackageGroup);
    AppendGroup(e + f + t + p, EmailGroup + [FullNameRequired] + TypeGroup + PackageGroup, n, [PeopleInvalid]);
  }

  /** A number of people written as a decimal integer, possibly followed by
      text that does not start with a digit, is accepted exactly when the
      integer is at least 1: "2" and "2abc" pass, "0" and "-3" do not. */
  lemma PeopleFromText(n: int, rest: string)
    requires rest == "" || !IsDigit(rest[0])
    ensures PeopleRule(Text(Decimal(n) + rest)) == [] <==> n >= 1
  {
    ParseIntDecimal(n, rest);
    assert |Decimal(n)| > 0;
  }

  /** A JSON number is accepted exactly when it is at least 1; a missing count
      is refused. */
  lemma PeopleFromNumber(n: int)
    ensures PeopleRule(Num(n)) == [] <==> n >= 1
    ensures PeopleRule(Nullish) == [PeopleInvalid]
  {
    ParseIntDecimal(n, "");
    assert Decimal(n) + "" == Decimal(n);
  }

  /** The type is compared untrimmed but the package rule sees it trimmed: an
      exhibitor type with a leading space is refused as a type and still asks
      for a stand. */
  lemma PaddedExhibitor(data: Properties)
    requires Get(data, "participationType") == Text(" exposant")
    requires PresenceOf(Get(data, "package")).Blank?
    requires ReservationValidation(data).Returned?
    ensures TypeInvalid in ReservationValidation(data).value.errors
    ensures StandRequired in ReservationValidation(data).value.errors
  {
    PaddedType(" exposant");
    assert TrimmedType(data) == Some("exposant");
    PackageRuleMeaning(TrimmedType(data), Get(data, "package"));
    var e, f, t, p, n := EmailRule(Get(data, "email")), RequiredRule(Get(data, "fullName"), FullNameRequired),
                         TypeRule(Get(data, "participationType")), PackageRule(TrimmedType(data), Get(data, "package")),
                         PeopleRule(Get(data, "numberOfPeople"));
    assert ReservationValidation(data).value.errors == e + f + t + p + n;
    assert TypeInvalid in t && StandRequired in p;
  }

  lemma PaddedType(padded: string)
    requires padded == " exposant"
    ensures padded !in ParticipationTypes && !AllSpace(padded) && Trim(padded) == "exposant"
    ensures TypeRule(Text(padded)) == [TypeInvalid]
  {
    PaddedTrim(padded);
    assert |padded| == 9;
    assert !IsSpace(padded[1]);
  }

  lemma PaddedTrim(padded: string)
    requires padded == " exposant"
    ensures Trim(padded) == "exposant"
  {
    var word := "exposant";
    assert padded == " " + word;
    assert word[0] == 'e' && word[|word| - 1] == 't';
    TrimLeadingSpace(word);
  }

  /** An object with its own `toString` as the number of people makes
      `parseInt` throw, even when everything else is in order. */
  lemma CountObjectThrows(data: Properties)
    requires Get(data, "numberOfPeople") == Record([("toString", Num(1))])
    ensures ReservationValidation(data) == Threw(TypeError)
  {
    assert Keys([("toString", Num(1))]) == ["toString"];
  }

  /** `false?.trim()` throws: a participation type of `false` is not reported
      as missing but makes the validator throw. */
  lemma FalseTypeThrows()
    ensures ReservationValidation([("participationType", Bool(false))]) == Threw(TypeError)
  {
  }

  // ---------------------------------------------------------------------------
  // The default package

  /** Normalizing touches the package alone: every other property reads as
      before, the keys keep their order, and `package` is added last when it
      was absent. */
  lemma NormalizedFrame(data: Properties, key: string)
    ensures key != "package" ==> Get(Normalized(data), key) == Get(data, key)
    ensures Get(Normalized(data), "package")
         == if TrimmedType(data) == Some("participant") && PresenceOf(Get(data, "package")).Blank?
            then Text(Unspecified) else Get(data, "package")
    ensures Keys(Normalized(data)) == Keys(data) || Keys(Normalized(data)) == Keys(data) + ["package"]
  {
    PutThenGet(data, "package", Text(Unspecified), key);
    PutKeys(data, "package", Text(Unspecified));
  }

  lemma UnspecifiedIsAPackage()
    ensures PresenceOf(Text(Unspecified)).Filled?
    ensures Trim(Unspecified) in Packages
  {
    TrimUntouched(Unspecified);
    assert !IsSpace(Unspecified[0]);
  }

  /** Normalizing twice is normalizing once. */
  lemma NormalizedIdempotent(data: Properties)
    ensures Normalized(Normalized(data)) == Normalized(data)
  {
    NormalizedFrame(data, "participationType");
    UnspecifiedIsAPackage();
  }

  /** Validating the normalized submission gives what validating the original
      gave: the default the validator writes is one it accepts. */
  lemma ValidationStable(data: Properties)
    ensures ReservationValidation(Normalized(data)) == ReservationValidation(data)
  {
    var after := Normalized(data);
    if after != data {
      NormalizedFrame(data, "email");
      NormalizedFrame(data, "fullName");
      NormalizedFrame(data, "participationType");
      NormalizedFrame(data, "numberOfPeople");
      assert TrimmedType(after) == TrimmedType(data) == Some("participant");
      assert Get(after, "package") == Text(Unspecified);
      assert PackageRule(Some("participant"), Text(Unspecified)) == [] && PresenceOf(Text(Unspecified)).Filled? by {
        UnspecifiedIsAPackage();
      }
      assert ReservationThrows(after) == ReservationThrows(data);
      assert ReservationErrors(after) == ReservationErrors(data);
    }
  }

  /** A participant who named no package is announced with `Non spécifié`. */
  lemma ParticipantPackageShown(data: Properties, date: string)
    requires TrimmedType(data) == Some("participant") && PresenceOf(Get(data, "package")).Blank?
    ensures Substitute(Get(ReservationContext(Normalized(data), date), "package")) == Unspecified
  {
    ReservationContextShape(Normalized(data), date);
    assert ReservationFields[5] == "package";
    NormalizedFrame(data, "package");
  }

  // ---------------------------------------------------------------------------
  // The handler

  /** The handler. The body is copied into an object the validator may update,
      and the message sent is built from the object as the validator left it. */
  method HandleReservation(httpMethod: string, body: Value, mailer: Mailer) returns (h: Handled)
    ensures httpMethod == "OPTIONS" ==> h == Preflight
    ensures httpMethod != "OPTIONS" && httpMethod != "POST" ==> h == WrongMethod
    ensures httpMethod == "POST" && !IsObject(body) ==> h == BadBody
    ensures httpMethod == "POST" && IsObject(body) ==>
              var data := PropertiesOf(body);
              match ReservationValidation(data)
              case Threw(_) => h == Failed(SendFailed, None)
              case Returned(v) =>
                if !v.isValid then h == Rejected(v.errors)
                else
                  && h.handed == ReservationMessage(mailer, Normalized(data))
                  && h == if h.handed.Some? && mailer.deliver(h.handed.value)
                          then Succeeded(Sent, h.handed) else Failed(SendFailed, h.handed)
  {
    if httpMethod == "OPTIONS" {
      return Preflight;
    }
    if httpMethod != "POST" {
      return WrongMethod;
    }
    if !IsObject(body) {
      return BadBody;
    }
    var data := new JsObject(PropertiesOf(body));
    var validation := ValidateReservation(data);
    if validation.Threw? {
      return Failed(SendFailed, None);
    }
    if !validation.value.isValid {
      return Rejected(validation.value.errors);
    }
    var sent, handed := SendReservationEmail(mailer, data.properties);
    if sent.Threw? {
      return Failed(SendFailed, handed);
    }
    return Succeeded(Sent, handed);
  }
}
