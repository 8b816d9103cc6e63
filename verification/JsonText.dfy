/**
 * JSON texts: the string quoting of JSON.stringify (section 7 of RFC 8259, with the escapes that
 * JSON.stringify chooses) and the texts of values, both of which can be told apart.
 */
module JsonText {
  import opened Options
  import opened Json

  const QUOTE: CodeUnit := 34
  const BACKSLASH: CodeUnit := 92
  const COMMA: CodeUnit := 44
  const COLON: CodeUnit := 58
  const OPEN_ARRAY: CodeUnit := 91
  const CLOSE_ARRAY: CodeUnit := 93
  const OPEN_OBJECT: CodeUnit := 123
  const CLOSE_OBJECT: CodeUnit := 125

  predicate IsHighSurrogate(u: CodeUnit) { 0xD800 <= u < 0xDC00 }

  predicate IsLowSurrogate(u: CodeUnit) { 0xDC00 <= u < 0xE000 }

  /** The digit character of a hexadecimal digit, in lower case. */
  function HexDigit(d: CodeUnit): CodeUnit
    requires d < 16
  {
    if d < 10 then 48 + d else 87 + d
  }

  function HexValue(c: CodeUnit): Option<CodeUnit> {
    if 48 <= c < 58 then Some(c - 48)
    else if 97 <= c < 103 then Some(c - 87)
    else None
  }

  function UnicodeEscape(u: CodeUnit): JsString {
    [BACKSLASH, 117,
     HexDigit(u / 0x1000), HexDigit(u / 0x100 % 16), HexDigit(u / 16 % 16), HexDigit(u % 16)]
  }

  /** The two-character escape letter for `u`, if JSON.stringify uses one. */
  function ShortEscape(u: CodeUnit): Option<CodeUnit> {
    if u == QUOTE then Some(QUOTE)
    else if u == BACKSLASH then Some(BACKSLASH)
    else if u == 8 then Some(98)
    else if u == 9 then Some(116)
    else if u == 10 then Some(110)
    else if u == 12 then Some(102)
    else if u == 13 then Some(114)
    else None
  }

  /** One code unit that is not part of a surrogate pair. */
  function EscapeUnit(u: CodeUnit): JsString {
    match ShortEscape(u)
    case Some(letter) => [BACKSLASH, letter]
    case None =>
      if u < 0x20 || IsHighSurrogate(u) || IsLowSurrogate(u) then UnicodeEscape(u) else [u]
  }

  /** The body of a quoted string; a well-formed surrogate pair is copied unchanged. */
  function Escape(s: JsString): JsString {
    if s == [] then []
    else if StartsWithPair(s) then s[..2] + Escape(s[2..])
    else EscapeUnit(s[0]) + Escape(s[1..])
  }

  function Quote(s: JsString): JsString {
    [QUOTE] + Escape(s) + [QUOTE]
  }

  function LetterValue(letter: CodeUnit): Option<CodeUnit> {
    if letter == QUOTE || letter == BACKSLASH then Some(letter)
    else if letter == 98 then Some(8)
    else if letter == 116 then Some(9)
    else if letter == 110 then Some(10)
    else if letter == 102 then Some(12)
    else if letter == 114 then Some(13)
    else None
  }

  /**
   * An independent reader: the string whose quotation body starts `t`, and what follows the
   * closing quote.
   */
  function Unescape(t: JsString): Option<(JsString, JsString)> {
    if t == [] then None
    else if t[0] == QUOTE then Some(([], t[1..]))
    else if t[0] != BACKSLASH then Prefixed(t[0], Unescape(t[1..]))
    else if |t| < 2 then None
    else if t[1] == 117 then
      if |t| < 6 then None
      else match (HexValue(t[2]), HexValue(t[3]), HexValue(t[4]), HexValue(t[5])) {
        case (Some(a), Some(b), Some(c), Some(d)) =>
          Prefixed(((a * 16 + b) * 16 + c) * 16 + d, Unescape(t[6..]))
        case _ => None
      }
    else match LetterValue(t[1]) {
      case Some(u) => Prefixed(u, Unescape(t[2..]))
      case None => None
    }
  }

  function Prefixed(u: CodeUnit, tail: Option<(JsString, JsString)>): Option<(JsString, JsString)> {
    match tail
    case Some((s, rest)) => Some(([u] + s, rest))
    case None => None
  }

  lemma {:induction false} HexRoundTrip(u: CodeUnit)
    ensures var (a, b, c, d) := (u / 0x1000, u / 0x100 % 16, u / 16 % 16, u % 16);
      && HexValue(HexDigit(a)) == Some(a) && HexValue(HexDigit(b)) == Some(b)
      && HexValue(HexDigit(c)) == Some(c) && HexValue(HexDigit(d)) == Some(d)
      && ((a * 16 + b) * 16 + c) * 16 + d == u
  {
    assert u / 16 / 16 == u / 0x100 && u / 0x100 / 16 == u / 0x1000;
  }

  lemma {:induction false} UnescapeUnit(u: CodeUnit, tail: JsString)
    ensures Unescape(EscapeUnit(u) + tail) == Prefixed(u, Unescape(tail))
  {
    var t := EscapeUnit(u) + tail;
    if ShortEscape(u).Some? {
      assert t[2..] == tail;
    } else if u < 0x20 || IsHighSurrogate(u) || IsLowSurrogate(u) {
      HexRoundTrip(u);
      assert t[6..] == tail;
    } else {
      assert t[1..] == tail;
    }
  }

  lemma {:induction false} UnescapePlain(u: CodeUnit, tail: JsString)
    requires u != QUOTE && u != BACKSLASH
    ensures Unescape([u] + tail) == Prefixed(u, Unescape(tail))
  {
    assert ([u] + tail)[1..] == tail;
  }

  predicate StartsWithPair(s: JsString) {
    |s| > 1 && IsHighSurrogate(s[0]) && IsLowSurrogate(s[1])
  }

  lemma {:induction false} UnescapePair(s: JsString, end: JsString)
    requires StartsWithPair(s)
    ensures Unescape(Escape(s) + end) == Prefixed(s[0], Prefixed(s[1], Unescape(Escape(s[2..]) + end)))
  {
    var tail := Escape(s[2..]) + end;
    UnescapePlain(s[1], tail);
    UnescapePlain(s[0], [s[1]] + tail);
    assert Escape(s) + end == [s[0]] + ([s[1]] + tail);
  }

  lemma {:induction false} UnescapeHead(s: JsString, end: JsString)
    requires s != [] && !StartsWithPair(s)
    ensures Unescape(Escape(s) + end) == Prefixed(s[0], Unescape(Escape(s[1..]) + end))
  {
    UnescapeUnit(s[0], Escape(s[1..]) + end);
    assert Escape(s) + end == EscapeUnit(s[0]) + (Escape(s[1..]) + end);
  }

  /** Reading inverts quoting, whatever follows the closing quote. */
  lemma {:induction false} UnescapeEscape(s: JsString, rest: JsString)
    ensures Unescape(Escape(s) + ([QUOTE] + rest)) == Some((s, rest))
  {
    var end := [QUOTE] + rest;
    if s == [] {
      assert Escape(s) + end == end;
    } else if StartsWithPair(s) {
      UnescapePair(s, end);
      UnescapeEscape(s[2..], rest);
      assert s == [s[0]] + ([s[1]] + s[2..]);
    } else {
      UnescapeHead(s, end);
      UnescapeEscape(s[1..], rest);
      assert s == [s[0]] + s[1..];
    }
  }

  lemma {:induction false} ReadQuote(s: JsString, rest: JsString)
    ensures Unescape((Quote(s) + rest)[1..]) == Some((s, rest))
  {
    var body := Escape(s);
    assert ([QUOTE] + body + [QUOTE] + rest)[1..] == body + ([QUOTE] + rest);
    UnescapeEscape(s, rest);
  }

  lemma {:induction false} QuoteInjective(a: JsString, b: JsString, restA: JsString, restB: JsString)
    requires Quote(a) + restA == Quote(b) + restB
    ensures a == b && restA == restB
  {
    ReadQuote(a, restA);
    ReadQuote(b, restB);
  }

  // ---- The texts of values ----------------------------------------------------------------------

  /** JSON.stringify of a value, without indentation. */
  function Stringify(v: Value): JsString
    decreases v, 0
  {
    match v
    case Null => Ascii("null")
    case Bool(b) => if b then Ascii("true") else Ascii("false")
    case Number(text) => text
    case Text(s) => Quote(s)
    case Array(items) => [OPEN_ARRAY] + (StringifyItems(items) + [CLOSE_ARRAY])
    case Object(fields) => [OPEN_OBJECT] + (StringifyFields(fields) + [CLOSE_OBJECT])
  }

  function StringifyItems(items: Items): JsString {
    match items
    case NoItems => []
    case Item(head, tail) => Stringify(head) + ItemsAfter(tail)
  }

  function ItemsAfter(items: Items): JsString {
    if items.NoItems? then [] else [COMMA] + (Stringify(items.head) + ItemsAfter(items.tail))
  }

  function StringifyFields(fields: Fields): JsString {
    match fields
    case NoFields => []
    case Field(name, value, rest) => StringifyField(name, value) + FieldsAfter(rest)
  }

  function StringifyField(name: JsString, value: Value): JsString
    decreases value, 1
  {
    Quote(name) + ([COLON] + Stringify(value))
  }

  function FieldsAfter(fields: Fields): JsString {
    if fields.NoFields? then [] else [COMMA] + (StringifyField(fields.name, fields.value) + FieldsAfter(fields.rest))
  }

  /** What may stand behind a value inside a text. */
  predicate Delimits(rest: JsString) {
    rest == [] || rest[0] in {COMMA, CLOSE_ARRAY, CLOSE_OBJECT}
  }

  predicate StartsWith(s: JsString, u: CodeUnit) { s != [] && s[0] == u }

  /** The kind of value that a first unit announces. */
  function KindOf(u: CodeUnit): nat {
    if u == 110 then 1 else if u == 116 then 2 else if u == 102 then 3 else if u == QUOTE then 5
    else if u == OPEN_ARRAY then 6 else if u == OPEN_OBJECT then 7 else if IsDigit(u) || u == 45 then 4 else 0
  }

  function KindOfValue(v: Value): (k: nat)
    ensures 1 <= k <= 7
  {
    match v
    case Null => 1
    case Bool(b) => if b then 2 else 3
    case Number(_) => 4
    case Text(_) => 5
    case Array(_) => 6
    case Object(_) => 7
  }

  lemma {:induction false} StringifyStart(v: Value)
    ensures Stringify(v) != [] && KindOf(Stringify(v)[0]) == KindOfValue(v)
  {
    if v.Number? { NumberHasUnits(v.text); }
  }

  lemma {:induction false} SameStart(a: JsString, b: JsString, x: JsString, y: JsString)
    requires a != [] && b != [] && a + x == b + y
    ensures a[0] == b[0]
  {
    assert (a + x)[0] == a[0] && (b + y)[0] == b[0];
  }

  lemma {:induction false} SameRest(u: CodeUnit, a: JsString, b: JsString)
    requires [u] + a == [u] + b
    ensures a == b
  {
    assert ([u] + a)[1..] == a && ([u] + b)[1..] == b;
  }

  /** Numbers end where their units end. */
  lemma {:induction false} NumbersInjective(a: JsString, b: JsString, x: JsString, y: JsString)
    requires NumberUnits(a) && NumberUnits(b) && Delimits(x) && Delimits(y) && a + x == b + y
    ensures a == b && x == y
  {
    assert a == [] ==> a + x == x;
    assert b == [] ==> b + y == y;
    assert a != [] ==> (a + x)[0] == a[0];
    assert b != [] ==> (b + y)[0] == b[0];
    if a != [] && b != [] {
      SameStart(a, b, x, y);
      assert a == [a[0]] + a[1..] && b == [b[0]] + b[1..];
      assert a + x == [a[0]] + (a[1..] + x) && b + y == [b[0]] + (b[1..] + y);
      SameRest(a[0], a[1..] + x, b[1..] + y);
      NumbersInjective(a[1..], b[1..], x, y);
    }
  }

  lemma {:induction false} Associative(a: JsString, b: JsString, c: JsString)
    ensures a + b + c == a + (b + c)
  {
  }

  lemma {:induction false} FixedInjective(a: JsString, x: JsString, y: JsString)
    requires a + x == a + y
    ensures x == y
  {
    assert (a + x)[|a|..] == x && (a + y)[|a|..] == y;
  }

  /** The texts of two values, each followed by a delimiter or nothing, are equal only if the values are. */
  lemma {:induction false} StringifyInjective(v: Value, w: Value, x: JsString, y: JsString)
    requires Stringify(v) + x == Stringify(w) + y && Delimits(x) && Delimits(y)
    ensures v == w && x == y
    decreases v, 1
  {
    StringifyStart(v);
    StringifyStart(w);
    SameStart(Stringify(v), Stringify(w), x, y);
    match v
    case Null => FixedInjective(Stringify(v), x, y);
    case Bool(_) => FixedInjective(Stringify(v), x, y);
    case Number(a) =>
      NumberHasUnits(a);
      NumberHasUnits(w.text);
      NumbersInjective(a, w.text, x, y);
    case Text(a) => QuoteInjective(a, w.chars, x, y);
    case Array(a) => ArraysInjective(a, w.items, x, y);
    case Object(a) => ObjectsInjective(a, w.fields, x, y);
  }

  lemma {:induction false} ArraysInjective(a: Items, b: Items, x: JsString, y: JsString)
    requires Stringify(Array(a)) + x == Stringify(Array(b)) + y
    ensures a == b && x == y
    decreases a, 2
  {
    var endX, endY := [CLOSE_ARRAY] + x, [CLOSE_ARRAY] + y;
    assert Stringify(Array(a)) + x == [OPEN_ARRAY] + (StringifyItems(a) + endX);
    assert Stringify(Array(b)) + y == [OPEN_ARRAY] + (StringifyItems(b) + endY);
    SameRest(OPEN_ARRAY, StringifyItems(a) + endX, StringifyItems(b) + endY);
    ItemsInjective(a, b, endX, endY);
    SameRest(CLOSE_ARRAY, x, y);
  }

  /** Items that are closed are equal if their texts are. */
  lemma {:induction false} ItemsInjective(a: Items, b: Items, x: JsString, y: JsString)
    requires StringifyItems(a) + x == StringifyItems(b) + y
    requires StartsWith(x, CLOSE_ARRAY) && StartsWith(y, CLOSE_ARRAY)
    ensures a == b && x == y
    decreases a, 1
  {
    if a.Item? { ItemsStart(a, x); }
    if b.Item? { ItemsStart(b, y); }
    assert a.NoItems? ==> StringifyItems(a) + x == x;
    assert b.NoItems? ==> StringifyItems(b) + y == y;
    if a.Item? && b.Item? { ItemInjective(a, b, x, y); }
  }

  lemma {:induction false} ItemsStart(items: Items, x: JsString)
    requires items.Item?
    ensures StringifyItems(items) != [] && (StringifyItems(items) + x)[0] != CLOSE_ARRAY
  {
    StringifyStart(items.head);
  }

  lemma {:induction false} ItemsCons(items: Items, x: JsString)
    requires items.Item? && Delimits(x)
    ensures StringifyItems(items) + x == Stringify(items.head) + (ItemsAfter(items.tail) + x)
    ensures Delimits(ItemsAfter(items.tail) + x)
  {
    Associative(Stringify(items.head), ItemsAfter(items.tail), x);
    AfterItems(items.tail, x);
  }

  /** What follows an item: nothing, or a comma and more items. */
  lemma {:induction false} AfterItems(items: Items, x: JsString)
    ensures items.NoItems? ==> ItemsAfter(items) + x == x
    ensures items.Item? ==> ItemsAfter(items) + x == [COMMA] + (StringifyItems(items) + x)
  {
    if items.Item? { Associative([COMMA], StringifyItems(items), x); }
  }

  lemma {:induction false} ItemsAfterInjective(a: Items, b: Items, x: JsString, y: JsString)
    requires ItemsAfter(a) + x == ItemsAfter(b) + y
    requires StartsWith(x, CLOSE_ARRAY) && StartsWith(y, CLOSE_ARRAY)
    ensures a == b && x == y
    decreases a, 1
  {
    AfterItems(a, x);
    AfterItems(b, y);
    if a.Item? && b.Item? {
      SameRest(COMMA, StringifyItems(a) + x, StringifyItems(b) + y);
      ItemInjective(a, b, x, y);
    }
  }

  /** One item is read off both texts. */
  lemma {:induction false} ItemInjective(a: Items, b: Items, x: JsString, y: JsString)
    requires a.Item? && b.Item? && StringifyItems(a) + x == StringifyItems(b) + y
    requires StartsWith(x, CLOSE_ARRAY) && StartsWith(y, CLOSE_ARRAY)
    ensures a == b && x == y
    decreases a, 0
  {
    ItemsCons(a, x);
    ItemsCons(b, y);
    StringifyInjective(a.head, b.head, ItemsAfter(a.tail) + x, ItemsAfter(b.tail) + y);
    ItemsAfterInjective(a.tail, b.tail, x, y);
  }

  lemma {:induction false} ObjectsInjective(a: Fields, b: Fields, x: JsString, y: JsString)
    requires Stringify(Object(a)) + x == Stringify(Object(b)) + y
    ensures a == b && x == y
    decreases a, 2
  {
    var endX, endY := [CLOSE_OBJECT] + x, [CLOSE_OBJECT] + y;
    assert Stringify(Object(a)) + x == [OPEN_OBJECT] + (StringifyFields(a) + endX);
    assert Stringify(Object(b)) + y == [OPEN_OBJECT] + (StringifyFields(b) + endY);
    SameRest(OPEN_OBJECT, StringifyFields(a) + endX, StringifyFields(b) + endY);
    FieldsInjective(a, b, endX, endY);
    SameRest(CLOSE_OBJECT, x, y);
  }

  lemma {:induction false} FieldsInjective(a: Fields, b: Fields, x: JsString, y: JsString)
    requires StringifyFields(a) + x == StringifyFields(b) + y
    requires StartsWith(x, CLOSE_OBJECT) && StartsWith(y, CLOSE_OBJECT)
    ensures a == b && x == y
    decreases a, 1
  {
    assert a.NoFields? ==> StringifyFields(a) + x == x;
    assert b.NoFields? ==> StringifyFields(b) + y == y;
    assert a.Field? ==> (StringifyFields(a) + x)[0] == QUOTE;
    assert b.Field? ==> (StringifyFields(b) + y)[0] == QUOTE;
    if a.Field? && b.Field? { FieldInjective(a, b, x, y); }
  }

  lemma {:induction false} FieldsCons(fields: Fields, x: JsString)
    requires fields.Field? && Delimits(x)
    ensures var after := FieldsAfter(fields.rest) + x;
      && StringifyFields(fields) + x == Quote(fields.name) + ([COLON] + (Stringify(fields.value) + after))
      && Delimits(after)
  {
    var quote, value, after := Quote(fields.name), Stringify(fields.value), FieldsAfter(fields.rest) + x;
    Associative(StringifyField(fields.name, fields.value), FieldsAfter(fields.rest), x);
    Associative(quote, [COLON] + value, after);
    Associative([COLON], value, after);
    AfterFields(fields.rest, x);
  }

  /** What follows an entry: nothing, or a comma and more entries. */
  lemma {:induction false} AfterFields(fields: Fields, x: JsString)
    ensures fields.NoFields? ==> FieldsAfter(fields) + x == x
    ensures fields.Field? ==> FieldsAfter(fields) + x == [COMMA] + (StringifyFields(fields) + x)
  {
    if fields.Field? { Associative([COMMA], StringifyFields(fields), x); }
  }

  /** One entry is read off both texts. */
  lemma {:induction false} FieldInjective(a: Fields, b: Fields, x: JsString, y: JsString)
    requires a.Field? && b.Field? && StringifyFields(a) + x == StringifyFields(b) + y
    requires StartsWith(x, CLOSE_OBJECT) && StartsWith(y, CLOSE_OBJECT)
    ensures a == b && x == y
    decreases a, 0
  {
    var afterA, afterB := FieldsAfter(a.rest) + x, FieldsAfter(b.rest) + y;
    FieldsCons(a, x);
    FieldsCons(b, y);
    var valueA, valueB := Stringify(a.value) + afterA, Stringify(b.value) + afterB;
    QuoteInjective(a.name, b.name, [COLON] + valueA, [COLON] + valueB);
    SameRest(COLON, valueA, valueB);
    StringifyInjective(a.value, b.value, afterA, afterB);
    FieldsAfterInjective(a.rest, b.rest, x, y);
  }

  lemma {:induction false} FieldsAfterInjective(a: Fields, b: Fields, x: JsString, y: JsString)
    requires FieldsAfter(a) + x == FieldsAfter(b) + y
    requires StartsWith(x, CLOSE_OBJECT) && StartsWith(y, CLOSE_OBJECT)
    ensures a == b && x == y
    decreases a, 1
  {
    AfterFields(a, x);
    AfterFields(b, y);
    if a.Field? && b.Field? {
      SameRest(COMMA, StringifyFields(a) + x, StringifyFields(b) + y);
      FieldInjective(a, b, x, y);
    }
  }

  /** Two JSON values have the same text exactly when they are the same, entries in the same order. */
  lemma {:induction false} TextsInjective(v: Value, w: Value)
    ensures Stringify(v) == Stringify(w) <==> v == w
  {
    if Stringify(v) == Stringify(w) {
      assert Stringify(v) + [] == Stringify(w) + [];
      StringifyInjective(v, w, [], []);
    }
  }
}
