/** JavaScript strings and JSON values. */
module Json {
  import opened Options

  /** A JavaScript string is a sequence of UTF-16 code units, well formed or not. */
  newtype CodeUnit = u: int | 0 <= u < 0x1_0000

  type JsString = seq<CodeUnit>

  /** A string literal of the source; all of them are ASCII. */
  function Ascii(text: string): (s: JsString)
    requires forall i :: 0 <= i < |text| ==> text[i] < 128 as char
  {
    seq(|text|, i requires 0 <= i < |text| => text[i] as int as CodeUnit)
  }

  // ---- Numbers, section 6 of RFC 8259 ---------------------------------------------------------

  predicate IsDigit(u: CodeUnit) { 48 <= u < 58 }

  /** Where a reader of a number is. */
  datatype Reading = AtStart | AfterMinus | AfterZero | InInteger | AfterPoint | InFraction | AfterE | AfterSign
                   | InExponent | Misread

  /** Where it is after one more unit. */
  function AfterUnit(r: Reading, u: CodeUnit): Reading {
    match r
    case AtStart =>
      if u == 45 then AfterMinus else if u == 48 then AfterZero else if IsDigit(u) then InInteger else Misread
    case AfterMinus => if u == 48 then AfterZero else if IsDigit(u) then InInteger else Misread
    case AfterZero => if u == 46 then AfterPoint else if u == 101 || u == 69 then AfterE else Misread
    case InInteger =>
      if IsDigit(u) then InInteger else if u == 46 then AfterPoint else if u == 101 || u == 69 then AfterE else Misread
    case AfterPoint => if IsDigit(u) then InFraction else Misread
    case InFraction => if IsDigit(u) then InFraction else if u == 101 || u == 69 then AfterE else Misread
    case AfterE => if u == 43 || u == 45 then AfterSign else if IsDigit(u) then InExponent else Misread
    case AfterSign => if IsDigit(u) then InExponent else Misread
    case InExponent => if IsDigit(u) then InExponent else Misread
    case Misread => Misread
  }

  function ReadNumber(r: Reading, s: JsString): Reading
    decreases s
  {
    if s == [] then r else ReadNumber(AfterUnit(r, s[0]), s[1..])
  }

  /** An optional minus, an integer without leading zeros, and perhaps a fraction and an exponent. */
  predicate IsNumber(s: JsString) {
    var r := ReadNumber(AtStart, s);
    r == AfterZero || r == InInteger || r == InFraction || r == InExponent
  }

  type NumberText = t: JsString | IsNumber(t) witness [48]

  lemma {:induction false} StaysMisread(s: JsString)
    ensures ReadNumber(Misread, s) == Misread
  {
    if s != [] { StaysMisread(s[1..]); }
  }

  lemma {:induction false} DigitsStay(s: JsString)
    requires forall i :: 0 <= i < |s| ==> IsDigit(s[i])
    ensures ReadNumber(InInteger, s) == InInteger
  {
    if s != [] { DigitsStay(s[1..]); }
  }

  lemma {:induction false} WholeIsNumber(s: JsString)
    requires s != [] && (s[0] == 48 ==> |s| == 1) && forall i :: 0 <= i < |s| ==> IsDigit(s[i])
    ensures IsNumber(s)
  {
    if s[0] == 48 {
      assert s[1..] == [] && ReadNumber(AfterZero, s[1..]) == AfterZero;
    } else {
      DigitsStay(s[1..]);
    }
  }

  /** The digits of a whole number. */
  function WholeNumber(text: string): (t: NumberText)
    requires 0 < |text| && (text[0] == '0' ==> |text| == 1) && forall i :: 0 <= i < |text| ==> '0' <= text[i] <= '9'
  {
    WholeIsNumber(Ascii(text));
    Ascii(text)
  }

  predicate IsNumberUnit(u: CodeUnit) { IsDigit(u) || u in {43, 45, 46, 69, 101} }

  predicate NumberUnits(s: JsString) {
    forall i :: 0 <= i < |s| ==> IsNumberUnit(s[i])
  }

  lemma {:induction false} ReadingHasUnits(r: Reading, s: JsString)
    requires ReadNumber(r, s) != Misread
    ensures NumberUnits(s)
    decreases s
  {
    if s != [] {
      if !IsNumberUnit(s[0]) { StaysMisread(s[1..]); }
      ReadingHasUnits(AfterUnit(r, s[0]), s[1..]);
      forall i | 1 <= i < |s| ensures IsNumberUnit(s[i]) { assert s[1..][i - 1] == s[i]; }
    }
  }

  /** A number has no unit but digits, signs, point and `e`, and starts with a digit or a minus. */
  lemma {:induction false} NumberHasUnits(s: JsString)
    requires IsNumber(s)
    ensures NumberUnits(s) && s != [] && (IsDigit(s[0]) || s[0] == 45)
  {
    ReadingHasUnits(AtStart, s);
    if s != [] && !IsDigit(s[0]) && s[0] != 45 { StaysMisread(s[1..]); }
  }

  // ---- Values ---------------------------------------------------------------------------------

  /**
   * A JSON value.  Object entries keep insertion order, as JavaScript objects do.
   * A number is carried as the text that serialising it prints.
   */
  datatype Value =
    | Null
    | Bool(flag: bool)
    | Number(text: NumberText)
    | Text(chars: JsString)
    | Array(items: Items)
    | Object(fields: Fields)

  datatype Items = NoItems | Item(head: Value, tail: Items)

  datatype Fields = NoFields | Field(name: JsString, value: Value, rest: Fields)

  /** Property access on an object's own entries. */
  function Get(fields: Fields, name: JsString): Option<Value> {
    match fields
    case NoFields => None
    case Field(n, v, rest) => if n == name then Some(v) else Get(rest, name)
  }

  /** `{...fields, [name]: value}`: an existing entry keeps its position, a new one goes last. */
  function Put(fields: Fields, name: JsString, value: Value): Fields {
    match fields
    case NoFields => Field(name, value, NoFields)
    case Field(n, v, rest) =>
      if n == name then Field(n, value, rest) else Field(n, v, Put(rest, name, value))
  }

  lemma {:induction false} GetPut(fields: Fields, name: JsString, value: Value, other: JsString)
    ensures Get(Put(fields, name, value), other)
         == if other == name then Some(value) else Get(fields, other)
  {
    match fields
    case NoFields =>
    case Field(_, _, rest) => GetPut(rest, name, value, other);
  }

  /** Writing the value an entry already has changes nothing, not even the order of the entries. */
  lemma {:induction false} PutSame(fields: Fields, name: JsString, value: Value)
    requires Get(fields, name) == Some(value)
    ensures Put(fields, name, value) == fields
  {
    match fields
    case Field(n, _, rest) => if n != name { PutSame(rest, name, value); }
  }

  datatype Entry = Entry(name: JsString, value: Value)

  /** An object literal. */
  function Literal(entries: seq<Entry>): Fields {
    if entries == [] then NoFields else Field(entries[0].name, entries[0].value, Literal(entries[1..]))
  }

  lemma {:induction false} GetLiteral(entries: seq<Entry>, i: nat)
    requires i < |entries| && forall j :: 0 <= j < i ==> entries[j].name != entries[i].name
    ensures Get(Literal(entries), entries[i].name) == Some(entries[i].value)
  {
    if i > 0 { GetLiteral(entries[1..], i - 1); }
  }
}
