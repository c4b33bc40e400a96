/** JavaScript values as the request handlers receive them once the body has been
    parsed from JSON, and the built-in operations the validators and the mail
    service apply to them: truthiness, property lookup and assignment, `trim`,
    conversion to a string, and `parseInt`. */
module JsValues {

  datatype Option<T> = None | Some(value: T)

  /** How a JavaScript call ends: it returns a value or it throws an error. */
  datatype Completion<T> = Returned(value: T) | Threw(error: string)

  /** A JSON value. `Nullish` stands for `null` and for a property that is not
      there (`undefined`); numbers are integers. A `Record` lists the object's own
      properties in the order `Object.keys` enumerates them. */
  datatype Value =
    | Nullish
    | Bool(b: bool)
    | Num(n: int)
    | Text(s: string)
    | List(items: seq<Value>)
    | Record(entries: seq<(string, Value)>)

  /** The own properties of an object, in enumeration order. */
  type Properties = seq<(string, Value)>

  /** The name of the error thrown when `.trim()` is called on something that is
      not a string, or `.includes()` on something that is not an array. */
  const TypeError := "TypeError"

  /** `!!v` */
  predicate Truthy(v: Value) {
    match v
    case Nullish => false
    case Bool(b) => b
    case Num(n) => n != 0
    case Text(s) => s != ""
    case List(_) => true
    case Record(_) => true
  }

  /** `v && typeof v === 'object'`: arrays and plain objects. */
  predicate IsObject(v: Value) {
    v.List? || v.Record?
  }

  /** The named properties the validators can read on an object. An array has
      none of the names they ask for, so it reads like an empty object. */
  function PropertiesOf(v: Value): Properties {
    if v.Record? then v.entries else []
  }

  function Keys(props: Properties): (keys: seq<string>)
    ensures |keys| == |props|
    ensures forall i :: 0 <= i < |props| ==> keys[i] == props[i].0
  {
    if props == [] then [] else [props[0].0] + Keys(props[1..])
  }

  function Values(props: Properties): (values: seq<Value>)
    ensures |values| == |props|
    ensures forall i :: 0 <= i < |props| ==> values[i] == props[i].1
  {
    if props == [] then [] else [props[0].1] + Values(props[1..])
  }

  /** The own properties `Object.keys` and `Object.values` enumerate: an
      object's entries, an array's elements under their indices. */
  function OwnEntries(v: Value): Properties {
    match v
    case Record(entries) => entries
    case List(items) => seq(|items|, i requires 0 <= i < |items| => (Natural(i), items[i]))
    case _ => []
  }

  /** `obj[key]`: the value of the first property with that name, `undefined`
      when there is none. */
  function Get(props: Properties, key: string): Value {
    if props == [] then Nullish
    else if props[0].0 == key then props[0].1
    else Get(props[1..], key)
  }

  /** `obj[key] = v`: the property keeps its place if it exists, and is added
      last otherwise. */
  function Put(props: Properties, key: string, v: Value): Properties {
    if props == [] then [(key, v)]
    else if props[0].0 == key then [(key, v)] + props[1..]
    else [props[0]] + Put(props[1..], key, v)
  }

  /** After an assignment the property reads back the assigned value and every
      other property reads as before. */
  lemma {:induction false} PutThenGet(props: Properties, key: string, v: Value, other: string)
    ensures Get(Put(props, key, v), key) == v
    ensures other != key ==> Get(Put(props, key, v), other) == Get(props, other)
  {
    if props != [] && props[0].0 != key {
      PutThenGet(props[1..], key, v, other);
    }
  }

  /** An assignment adds a key only when the object did not have it, and never
      reorders the keys it had. */
  lemma {:induction false} PutKeys(props: Properties, key: string, v: Value)
    ensures Keys(Put(props, key, v)) == if key in Keys(props) then Keys(props) else Keys(props) + [key]
  {
    if props != [] && props[0].0 != key {
      PutKeys(props[1..], key, v);
      assert Keys(props) == [props[0].0] + Keys(props[1..]);
    }
  }

  /** A JavaScript object that the code updates in place. */
  class JsObject {
    var properties: Properties

    constructor (props: Properties)
      ensures properties == props
    {
      properties := props;
    }

    function Read(key: string): Value
      reads this
    {
      Get(properties, key)
    }

    /** `this[key] = v` */
    method Assign(key: string, v: Value)
      modifies this
      ensures properties == Put(old(properties), key, v)
    {
      properties := Put(properties, key, v);
    }
  }

  // ---------------------------------------------------------------------------
  // Strings

  /** The characters `trim` removes and `\s` matches. JavaScript's set is every
      Unicode space separator plus the line terminators; this is its common part. */
  predicate IsSpace(c: char) {
    c == ' ' || c == '\t' || c == '\n' || c == '\r'
    || c as int == 0x0B || c as int == 0x0C || c as int == 0xA0
    || c as int == 0x2028 || c as int == 0x2029 || c as int == 0xFEFF
  }

  predicate AllSpace(s: string) {
    forall i :: 0 <= i < |s| ==> IsSpace(s[i])
  }

  function TrimStart(s: string): (t: string)
    ensures |t| <= |s| && t == s[|s| - |t|..]
    ensures t == "" || !IsSpace(t[0])
    ensures AllSpace(s[..|s| - |t|])
  {
    if s != "" && IsSpace(s[0]) then TrimStart(s[1..]) else s
  }

  function TrimEnd(s: string): (t: string)
    ensures |t| <= |s| && t == s[..|t|]
    ensures t == "" || !IsSpace(t[|t| - 1])
    ensures AllSpace(s[|t|..])
  {
    if s != "" && IsSpace(s[|s| - 1]) then TrimEnd(s[..|s| - 1]) else s
  }

  /** `s.trim()` */
  function Trim(s: string): string {
    TrimEnd(TrimStart(s))
  }

  /** `trim` leaves nothing exactly when the string is all white space. */
  lemma TrimBlankIff(s: string)
    ensures Trim(s) == "" <==> AllSpace(s)
  {
    var t := TrimStart(s);
    if Trim(s) == "" {
      assert AllSpace(t[|TrimEnd(t)|..]);
      assert t[0..] == t;
      assert t == "";
      assert s[..|s|] == s;
    } else {
      assert !IsSpace(Trim(s)[0]);
      assert Trim(s)[0] == s[|s| - |t|];
    }
  }

  /** A string with no white space at either end is its own trim. */
  lemma TrimUntouched(s: string)
    requires s == "" || (!IsSpace(s[0]) && !IsSpace(s[|s| - 1]))
    ensures Trim(s) == s
  {
  }

  /** A word padded with one leading space trims back to the word. */
  lemma TrimLeadingSpace(word: string)
    requires word != "" && !IsSpace(word[0]) && !IsSpace(word[|word| - 1])
    ensures Trim(" " + word) == word
  {
    var padded := " " + word;
    assert padded[1..] == word;
    assert TrimStart(padded) == TrimStart(word);
    TrimUntouched(word);
  }

  /** `parts.join(sep)` */
  function Join(parts: seq<string>, sep: string): string {
    if parts == [] then ""
    else if |parts| == 1 then parts[0]
    else parts[0] + sep + Join(parts[1..], sep)
  }

  // ---------------------------------------------------------------------------
  // Numbers and string conversion

  predicate IsDigit(c: char) {
    '0' <= c <= '9'
  }

  predicate AllDigits(s: string) {
    forall i :: 0 <= i < |s| ==> IsDigit(s[i])
  }

  /** The character of a decimal digit. */
  function DigitChar(d: nat): (c: char)
    requires d < 10
    ensures IsDigit(c) && c as int - '0' as int == d
  {
    ('0' as int + d) as char
  }

  /** The decimal numeral of a natural number, most significant digit first. */
  function Natural(n: nat): (s: string)
    ensures |s| > 0 && AllDigits(s)
  {
    if n < 10 then [DigitChar(n)] else Natural(n / 10) + [DigitChar(n % 10)]
  }

  /** `String(n)` for an integer. */
  function Decimal(n: int): string {
    if n < 0 then "-" + Natural(-n) else Natural(n)
  }

  /** `String(v)` (also `${v}`). An array joins its elements with commas,
      showing `null` elements as nothing. */
  function Display(v: Value): string {
    match v
    case Nullish => "null"
    case Bool(b) => if b then "true" else "false"
    case Num(n) => Decimal(n)
    case Text(s) => s
    case List(items) =>
      Join(seq(|items|, i requires 0 <= i < |items| =>
                 if items[i].Nullish? then "" else Display(items[i])), ",")
    case Record(_) => "[object Object]"
  }

  /** Whether `String(v)` returns at all. An object with a `toString` property
      of its own cannot be converted: parsed JSON never makes that property
      callable, and the inherited `valueOf` hands back the object itself, so
      the conversion throws a TypeError. An array converts its elements in
      turn. Every other value converts as `Display` shows. */
  predicate Stringifies(v: Value) {
    match v
    case List(items) => forall i :: 0 <= i < |items| ==> Stringifies(items[i])
    case Record(entries) => "toString" !in Keys(entries)
    case _ => true
  }

  /** The longest prefix of `s` made of decimal digits. */
  function LeadingDigits(s: string): (d: string)
    ensures AllDigits(d)
  {
    if s != "" && IsDigit(s[0]) then [s[0]] + LeadingDigits(s[1..]) else ""
  }

  /** The leading digits are a prefix that no further digit follows. */
  lemma {:induction false} LeadingDigitsPrefix(s: string)
    ensures |LeadingDigits(s)| <= |s| && LeadingDigits(s) == s[..|LeadingDigits(s)|]
    ensures |LeadingDigits(s)| == |s| || !IsDigit(s[|LeadingDigits(s)|])
  {
    if s != "" && IsDigit(s[0]) {
      LeadingDigitsPrefix(s[1..]);
      assert s[1..][..|LeadingDigits(s[1..])|] == s[1..1 + |LeadingDigits(s[1..])|];
    }
  }

  /** The value of a decimal numeral. */
  function DigitsValue(d: string): nat
    requires AllDigits(d)
  {
    if d == "" then 0 else DigitsValue(d[..|d| - 1]) * 10 + (d[|d| - 1] as int - '0' as int)
  }

  /** `parseInt(s)` without a radix: skip leading white space, take one optional
      sign, then the longest run of decimal digits; `NaN` (here `None`) when
      there is no digit. */
  function ParseInt(s: string): Option<int> {
    var t := TrimStart(s);
    if t != "" && t[0] == '-' then
      match ParseDigits(t[1..]) case None => None case Some(m) => Some(-m)
    else if t != "" && t[0] == '+' then ParseDigits(t[1..])
    else ParseDigits(t)
  }

  /** The value of the leading digits of `t`, if it starts with one. */
  function ParseDigits(t: string): Option<int> {
    var digits := LeadingDigits(t);
    if digits == "" then None else Some(DigitsValue(digits))
  }

  lemma {:induction false} NaturalValue(n: nat)
    ensures DigitsValue(Natural(n)) == n
  {
    if n >= 10 {
      NaturalValue(n / 10);
      var s := Natural(n);
      assert s[..|s| - 1] == Natural(n / 10);
    }
  }

  lemma {:induction false} LeadingDigitsOfNumeral(d: string, rest: string)
    requires AllDigits(d)
    requires rest == "" || !IsDigit(rest[0])
    ensures LeadingDigits(d + rest) == d
  {
    if d != "" {
      assert (d + rest)[1..] == d[1..] + rest;
      LeadingDigitsOfNumeral(d[1..], rest);
    } else {
      assert d + rest == rest;
    }
  }

  /** A string starting with a digit is parsed from its leading digits. */
  lemma ParseIntUnsigned(t: string, m: nat)
    requires t != "" && IsDigit(t[0]) && ParseDigits(t) == Some(m)
    ensures ParseInt(t) == Some(m)
  {
    assert TrimStart(t) == t;
  }

  /** A minus sign negates what follows it. */
  lemma ParseIntNegative(t: string, m: nat)
    requires ParseDigits(t) == Some(m)
    ensures ParseInt("-" + t) == Some(-(m as int))
  {
    var s := "-" + t;
    assert s[0] == '-';
    assert TrimStart(s) == s;
    assert s[1..] == t;
  }

  lemma ParseDigitsNumeral(m: nat, rest: string)
    requires rest == "" || !IsDigit(rest[0])
    ensures ParseDigits(Natural(m) + rest) == Some(m)
  {
    NaturalValue(m);
    LeadingDigitsOfNumeral(Natural(m), rest);
  }

  /** `parseInt` reads back the numeral `String` writes for an integer, whatever
      non-digit text follows it. */
  lemma ParseIntDecimal(n: int, rest: string)
    requires rest == "" || !IsDigit(rest[0])
    ensures ParseInt(Decimal(n) + rest) == Some(n)
  {
    if n < 0 {
      ParseIntMinus(n, rest);
    } else {
      ParseIntPlain(n, rest);
    }
  }

  lemma ParseIntPlain(n: int, rest: string)
    requires n >= 0
    requires rest == "" || !IsDigit(rest[0])
    ensures ParseInt(Decimal(n) + rest) == Some(n)
  {
    var tail := Natural(n) + rest;
    assert Decimal(n) + rest == tail;
    assert tail != "" && IsDigit(tail[0]) by {
      assert tail[0] == Natural(n)[0];
    }
    assert ParseInt(tail) == Some(n) by {
      ParseDigitsNumeral(n, rest);
      ParseIntUnsigned(tail, n);
    }
  }

  lemma ParseIntMinus(n: int, rest: string)
    requires n < 0
    requires rest == "" || !IsDigit(rest[0])
    ensures ParseInt(Decimal(n) + rest) == Some(n)
  {
    var m: nat := -n;
    var tail := Natural(m) + rest;
    assert Decimal(n) + rest == "-" + tail;
    assert ParseInt("-" + tail) == Some(n) by {
      ParseDigitsNumeral(m, rest);
      ParseIntNegative(tail, m);
    }
  }

  // ---------------------------------------------------------------------------
  // The required-field test

  /** What `!v || !v.trim()` finds: a missing, falsy or all-white-space value;
      a string with some content; or a truthy value that is not a string, on
      which `.trim()` throws a TypeError. */
  datatype Presence = Blank | Filled(raw: string) | NotText

  function PresenceOf(v: Value): (p: Presence)
    ensures p.Filled? ==> v == Text(p.raw) && !AllSpace(p.raw)
    ensures p.Blank? <==> !Truthy(v) || (v.Text? && AllSpace(v.s))
    ensures p.NotText? <==> Truthy(v) && !v.Text?
  {
    match v
    case Nullish => Blank
    case Bool(b) => if b then NotText else Blank
    case Num(n) => if n == 0 then Blank else NotText
    case Text(s) => TrimBlankIff(s); if s == "" || Trim(s) == "" then Blank else Filled(s)
    case List(_) => NotText
    case Record(_) => NotText
  }

  /** A string that starts with a character other than white space is filled. */
  lemma FilledText(s: string)
    requires s != "" && !IsSpace(s[0])
    ensures PresenceOf(Text(s)) == Filled(s)
  {
    assert !AllSpace(s);
  }
}
