/**
 The canonical JSON text that audit hashes are computed over: sorted keys, separators "," and ":", and
 every character outside printable ASCII escaped. The main result is that the text determines the value.
*/
module Json {
  import opened Text

  /** How a float is written: its repr, which tells floats apart, or NaN, Infinity, -Infinity. It is never the
      text of an integer, because it has a point, an exponent or a letter. */
  predicate IsFloatText(s: string) {
    && s != [] && (IsDigit(s[0]) || s[0] in {'-', 'N', 'I'})
    && (forall i | 0 <= i < |s| :: s[i] as int < 128 && s[i] !in {',', ']', '}'})
    && ('.' in s || 'e' in s || 'N' in s || 'I' in s)
  }

  type FloatText = s: string | IsFloatText(s) witness "0.0"

  /** A dict is represented by its items in key order, which is how sort_keys writes it. */
  datatype Value =
    | Null
    | Bool(b: bool)
    | Int(n: int)
    | Real(text: FloatText)
    | Str(s: string)
    | Arr(items: Items)
    | Obj(fields: Fields)

  datatype Items = NoItems | Item(head: Value, tail: Items)

  datatype Fields = NoFields | Field(key: string, value: Value, rest: Fields)

  // ------------------------------------------------------------------ text

  /** \uXXXX for a 16-bit code unit */
  function Unit(u: nat): string
    requires u < 0x1_0000
  {
    ['\\', 'u', HexDigit(u / 16 / 16 / 16), HexDigit(u / 16 / 16 % 16), HexDigit(u / 16 % 16), HexDigit(u % 16)]
  }

  function EscapeChar(c: char): string
  {
    var k := c as int;
    if c == '"' then ['\\', '"']
    else if c == '\\' then ['\\', '\\']
    else if k == 10 then ['\\', 'n']
    else if k == 13 then ['\\', 'r']
    else if k == 9 then ['\\', 't']
    else if k == 12 then ['\\', 'f']
    else if k == 8 then ['\\', 'b']
    else if 32 <= k <= 126 then [c]
    else if k < 0x1_0000 then Unit(k)
    else Unit(0xD800 + (k - 0x1_0000) / 1024) + Unit(0xDC00 + (k - 0x1_0000) % 1024)
  }

  /** Which escapes are short, which characters stand for themselves, and which are written in hexadecimal. */
  lemma EscapesAre(c: char)
    ensures EscapeChar('"') == "\\\"" && EscapeChar('\\') == "\\\\" && EscapeChar('\n') == "\\n"
    ensures EscapeChar('\r') == "\\r" && EscapeChar('\t') == "\\t"
    ensures EscapeChar(12 as char) == "\\f" && EscapeChar(8 as char) == "\\b"
    ensures EscapeChar(c) == [c] <==> ' ' <= c <= '~' && c != '"' && c != '\\'
    ensures |EscapeChar(c)| == 6 <==> (c as int) < 0x1_0000 && !(' ' <= c <= '~') && c as int !in {8, 9, 10, 12, 13}
    ensures |EscapeChar(c)| == 12 <==> c as int >= 0x1_0000
  {
  }

  function Escape(s: string): string
  {
    if s == [] then [] else EscapeChar(s[0]) + Escape(s[1..])
  }

  function Quoted(s: string): string { ['"'] + Escape(s) + ['"'] }

  function IntText(n: int): string { if n < 0 then ['-'] + Numeral(-n) else Numeral(n) }

  function Write(v: Value): string
  {
    match v
    case Null => "null"
    case Bool(b) => if b then "true" else "false"
    case Int(n) => IntText(n)
    case Real(text) => text
    case Str(s) => Quoted(s)
    case Arr(items) => ['['] + WriteItems(items, true)
    case Obj(fields) => ['{'] + WriteFields(fields, true)
  }

  function WriteItems(items: Items, first: bool): string
  {
    match items
    case NoItems => [']']
    case Item(head, tail) => (if first then [] else [',']) + Write(head) + WriteItems(tail, false)
  }

  function WriteFields(fields: Fields, first: bool): string
  {
    match fields
    case NoFields => ['}']
    case Field(key, value, rest) =>
      (if first then [] else [',']) + Quoted(key) + [':'] + Write(value) + WriteFields(rest, false)
  }

  // ------------------------------------------------------------------ the text determines the value

  /** Where a value may end: at the end of the text or before a delimiter. */
  predicate Delimited(rest: string) { rest == [] || rest[0] in {',', ']', '}'} }

  lemma HexInjective(a: nat, b: nat)
    requires a < 16 && b < 16 && HexDigit(a) == HexDigit(b)
    ensures a == b
  {
  }

  lemma UnitInjective(a: nat, b: nat)
    requires a < 0x1_0000 && b < 0x1_0000 && Unit(a) == Unit(b)
    ensures a == b
  {
    assert forall i | 0 <= i < 6 :: Unit(a)[i] == Unit(b)[i];
    HexInjective(a / 16 / 16 / 16, b / 16 / 16 / 16);
    HexInjective(a / 16 / 16 % 16, b / 16 / 16 % 16);
    HexInjective(a / 16 % 16, b / 16 % 16);
    HexInjective(a % 16, b % 16);
  }

  /** The code units of a character: one, or a surrogate pair. */
  function Units(c: char): (r: (nat, nat))
    ensures r.0 < 0x1_0000 && r.1 < 0x1_0000
    ensures 0xD800 <= r.0 < 0xDC00 <==> c as int >= 0x1_0000
  {
    var k := c as int;
    if k < 0x1_0000 then (k, 0) else (0xD800 + (k - 0x1_0000) / 1024, 0xDC00 + (k - 0x1_0000) % 1024)
  }

  /** Characters written as \uXXXX. */
  predicate InHex(c: char) {
    var k := c as int;
    (k < 32 || k > 126) && k !in {8, 9, 10, 12, 13}
  }

  lemma EscapeShape(c: char)
    ensures !InHex(c) ==> |EscapeChar(c)| <= 2 && (|EscapeChar(c)| == 1 ==> EscapeChar(c)[0] !in {'\\', '"'})
    ensures !InHex(c) && |EscapeChar(c)| == 2 ==>
              EscapeChar(c)[0] == '\\' && EscapeChar(c)[1] in {'"', '\\', 'n', 'r', 't', 'f', 'b'}
    ensures InHex(c) ==> EscapeChar(c) == Unit(Units(c).0) + (if c as int < 0x1_0000 then [] else Unit(Units(c).1))
    ensures |EscapeChar(c)| >= 1 && EscapeChar(c)[0] != '"'
  {
  }

  lemma PlainInjective(c: char, d: char)
    requires !InHex(c) && !InHex(d)
    requires EscapeChar(c)[0] == EscapeChar(d)[0]
    requires |EscapeChar(c)| == 2 && |EscapeChar(d)| == 2 ==> EscapeChar(c)[1] == EscapeChar(d)[1]
    ensures c == d
  {
  }

  lemma TakeEqual(a: string, b: string, x: string, y: string)
    requires |a| == |b| && a + x == b + y
    ensures a == b && x == y
  {
    assert (a + x)[..|a|] == a && (b + y)[..|a|] == b;
    assert (a + x)[|a|..] == x && (b + y)[|a|..] == y;
  }

  /** What follows the first code unit. */
  function SecondUnit(c: char): string { if c as int < 0x1_0000 then [] else Unit(Units(c).1) }

  lemma HexAsUnits(c: char, x: string)
    requires InHex(c)
    ensures EscapeChar(c) + x == Unit(Units(c).0) + (SecondUnit(c) + x)
  {
    EscapeShape(c);
  }

  lemma UnitsInjective(c: char, d: char)
    requires Units(c) == Units(d)
    ensures c == d
  {
    var (k, l) := (c as int, d as int);
    if k >= 0x1_0000 && l >= 0x1_0000 {
      assert k - 0x1_0000 == (k - 0x1_0000) / 1024 * 1024 + (k - 0x1_0000) % 1024;
      assert l - 0x1_0000 == (l - 0x1_0000) / 1024 * 1024 + (l - 0x1_0000) % 1024;
    }
  }

  lemma Assoc(a: string, b: string, c: string)
    ensures (a + b) + c == a + (b + c)
  {
  }

  lemma HexEscapesReadBack(c: char, d: char, x: string, y: string)
    requires InHex(c) && InHex(d)
    requires EscapeChar(c) + x == EscapeChar(d) + y
    ensures c == d && x == y
  {
    HexAsUnits(c, x);
    HexAsUnits(d, y);
    TakeEqual(Unit(Units(c).0), Unit(Units(d).0), SecondUnit(c) + x, SecondUnit(d) + y);
    UnitInjective(Units(c).0, Units(d).0);
    TakeEqual(SecondUnit(c), SecondUnit(d), x, y);
    if c as int >= 0x1_0000 {
      UnitInjective(Units(c).1, Units(d).1);
    }
    UnitsInjective(c, d);
  }

  /** No character's escape is the beginning of another's. */
  lemma EscapesReadBack(c: char, d: char, x: string, y: string)
    requires EscapeChar(c) + x == EscapeChar(d) + y
    ensures c == d && x == y
  {
    EscapeShape(c);
    EscapeShape(d);
    var p, q := EscapeChar(c) + x, EscapeChar(d) + y;
    assert p[0] == EscapeChar(c)[0] && q[0] == EscapeChar(d)[0];
    assert |EscapeChar(c)| >= 2 ==> p[1] == EscapeChar(c)[1];
    assert |EscapeChar(d)| >= 2 ==> q[1] == EscapeChar(d)[1];
    assert InHex(c) <==> InHex(d);
    if InHex(c) {
      HexEscapesReadBack(c, d, x, y);
    } else {
      PlainInjective(c, d);
      TakeEqual(EscapeChar(c), EscapeChar(d), x, y);
    }
  }

  lemma QuotedUnfold(s: string, x: string)
    requires s != []
    ensures Escape(s) + ['"'] + x == EscapeChar(s[0]) + (Escape(s[1..]) + ['"'] + x)
    ensures (Escape(s) + ['"'] + x)[0] != '"'
  {
    EscapeShape(s[0]);
    var c, rest := EscapeChar(s[0]), Escape(s[1..]);
    Assoc(c, rest, ['"']);
    Assoc(c, rest + ['"'], x);
    assert (c + (rest + ['"'] + x))[0] == c[0];
  }

  /** A quoted string ends at its own closing quote. */
  lemma {:induction false} QuotedReadsBack(s: string, t: string, x: string, y: string)
    requires Escape(s) + ['"'] + x == Escape(t) + ['"'] + y
    ensures s == t && x == y
    decreases |s| + |t|
  {
    assert Escape([]) + ['"'] + x == ['"'] + x && Escape([]) + ['"'] + y == ['"'] + y;
    if s != [] { QuotedUnfold(s, x); }
    if t != [] { QuotedUnfold(t, y); }
    assert s == [] <==> t == [];
    if s == [] {
      TakeEqual(['"'], ['"'], x, y);
    } else {
      EscapesReadBack(s[0], t[0], Escape(s[1..]) + ['"'] + x, Escape(t[1..]) + ['"'] + y);
      QuotedReadsBack(s[1..], t[1..], x, y);
      assert s == [s[0]] + s[1..] && t == [t[0]] + t[1..];
    }
  }

  // ------------------------------------------------------------------ numbers and values

  predicate Unbroken(s: string) { forall i | 0 <= i < |s| :: s[i] !in {',', ']', '}'} }

  /** Two tokens without delimiters, each followed by one, end at the same place. */
  lemma {:induction false} TokensReadBack(a: string, b: string, x: string, y: string)
    requires Unbroken(a) && Unbroken(b) && Delimited(x) && Delimited(y)
    requires a + x == b + y
    ensures a == b && x == y
  {
    assert a != [] ==> (a + x)[0] == a[0];
    assert b != [] ==> (b + y)[0] == b[0];
    assert [] + x == x && [] + y == y;
    assert a == [] <==> b == [];
    if a != [] {
      Assoc([a[0]], a[1..], x);
      Assoc([b[0]], b[1..], y);
      assert a == [a[0]] + a[1..] && b == [b[0]] + b[1..];
      TakeEqual([a[0]], [b[0]], a[1..] + x, b[1..] + y);
      TokensReadBack(a[1..], b[1..], x, y);
    }
  }

  function Magnitude(n: int): nat { if n < 0 then -n else n }

  function Minus(n: int): string { if n < 0 then ['-'] else [] }

  lemma IntTextShape(n: int)
    ensures IntText(n) == Minus(n) + Numeral(Magnitude(n))
    ensures IntText(n) != [] && (IntText(n)[0] == '-' <==> n < 0)
    ensures forall i | 0 <= i < |IntText(n)| :: IsDigit(IntText(n)[i]) || IntText(n)[i] == '-'
  {
    assert IsDigit(Numeral(Magnitude(n))[0]);
  }

  lemma IntTextInjective(m: int, n: int)
    requires IntText(m) == IntText(n)
    ensures m == n
  {
    IntTextShape(m);
    IntTextShape(n);
    TakeEqual(Minus(m), Minus(n), Numeral(Magnitude(m)), Numeral(Magnitude(n)));
    NumeralInjective(Magnitude(m), Magnitude(n));
  }

  predicate IsNumber(v: Value) { v.Int? || v.Real? }

  lemma NumberIsUnbroken(v: Value)
    requires IsNumber(v)
    ensures Unbroken(Write(v)) && Write(v) != [] && (IsDigit(Write(v)[0]) || Write(v)[0] in {'-', 'N', 'I'})
  {
    if v.Int? {
      IntTextShape(v.n);
    }
  }

  /** Numbers end at their delimiter, and integers and floats are never written alike. */
  lemma NumbersReadBack(v: Value, w: Value, x: string, y: string)
    requires IsNumber(v) && IsNumber(w) && Delimited(x) && Delimited(y)
    requires Write(v) + x == Write(w) + y
    ensures v == w && x == y
  {
    NumberIsUnbroken(v);
    NumberIsUnbroken(w);
    TokensReadBack(Write(v), Write(w), x, y);
    if v.Int? && w.Int? {
      IntTextInjective(v.n, w.n);
    } else if v.Int? {
      IntTextShape(v.n);
    } else if w.Int? {
      IntTextShape(w.n);
    }
  }

  /** The first character says which kind of value follows. */
  function Tag(v: Value): nat
  {
    match v
    case Null => 0
    case Bool(b) => if b then 1 else 2
    case Int(_) => 3
    case Real(_) => 3
    case Str(s) => 4
    case Arr(items) => 5
    case Obj(fields) => 6
  }

  function TagOf(c: char): nat
  {
    if c == 'n' then 0 else if c == 't' then 1 else if c == 'f' then 2 else if c == '"' then 4
    else if c == '[' then 5 else if c == '{' then 6 else 3
  }

  lemma WriteStartsWithTag(v: Value, x: string)
    ensures |Write(v)| > 0 && TagOf((Write(v) + x)[0]) == Tag(v)
    ensures Write(v)[0] !in {',', ']', '}'}
  {
    if IsNumber(v) {
      NumberIsUnbroken(v);
    }
  }

  /** Compound values open with one character; the rest belongs to their contents. */
  lemma WriteUnfold(v: Value, x: string)
    ensures v.Str? ==> Write(v) + x == ['"'] + (Escape(v.s) + ['"'] + x)
    ensures v.Arr? ==> Write(v) + x == ['['] + (WriteItems(v.items, true) + x)
    ensures v.Obj? ==> Write(v) + x == ['{'] + (WriteFields(v.fields, true) + x)
  {
    match v
    case Str(s) =>
      Assoc(['"'], Escape(s), ['"']);
      Assoc(['"'], Escape(s) + ['"'], x);
    case Arr(items) => Assoc(['['], WriteItems(items, true), x);
    case Obj(fields) => Assoc(['{'], WriteFields(fields, true), x);
    case _ =>
  }

  /** Unique readability: a value's text followed by a delimiter determines the value and the remainder. */
  lemma {:induction false} WriteReadsBack(v: Value, w: Value, x: string, y: string)
    requires Delimited(x) && Delimited(y)
    requires Write(v) + x == Write(w) + y
    ensures v == w && x == y
    decreases v
  {
    WriteStartsWithTag(v, x);
    WriteStartsWithTag(w, y);
    assert Tag(v) == Tag(w);
    WriteUnfold(v, x);
    WriteUnfold(w, y);
    match v
    case Null => TakeEqual("null", "null", x, y);
    case Bool(b) => TakeEqual(Write(v), Write(w), x, y);
    case Int(_) => NumbersReadBack(v, w, x, y);
    case Real(_) => NumbersReadBack(v, w, x, y);
    case Str(s) =>
      TakeEqual(['"'], ['"'], Escape(s) + ['"'] + x, Escape(w.s) + ['"'] + y);
      QuotedReadsBack(s, w.s, x, y);
    case Arr(items) =>
      TakeEqual(['['], ['['], WriteItems(items, true) + x, WriteItems(w.items, true) + y);
      ItemsReadBack(items, w.items, true, x, y);
    case Obj(fields) =>
      TakeEqual(['{'], ['{'], WriteFields(fields, true) + x, WriteFields(w.fields, true) + y);
      FieldsReadBack(fields, w.fields, true, x, y);
  }

  function Comma(first: bool): string { if first then [] else [','] }

  lemma ItemsUnfold(items: Items, first: bool, x: string)
    ensures items.Item? ==>
      WriteItems(items, first) + x == Comma(first) + (Write(items.head) + (WriteItems(items.tail, false) + x))
    ensures items.NoItems? ==> WriteItems(items, first) + x == [']'] + x
    ensures items.Item? <==> (WriteItems(items, first) + x)[0] != ']'
  {
    if items.Item? {
      var h, t := Write(items.head), WriteItems(items.tail, false);
      WriteStartsWithTag(items.head, t + x);
      Assoc(Comma(first) + h, t, x);
      Assoc(Comma(first), h, t + x);
      assert (Comma(first) + (h + (t + x)))[0] == (if first then h[0] else ',');
    }
  }

  /** What follows a list element is a comma or the closing bracket. */
  lemma ItemsDelimited(items: Items, x: string)
    ensures Delimited(WriteItems(items, false) + x)
  {
    ItemsUnfold(items, false, x);
  }

  lemma {:induction false} ItemsReadBack(a: Items, b: Items, first: bool, x: string, y: string)
    requires WriteItems(a, first) + x == WriteItems(b, first) + y
    ensures a == b && x == y
    decreases a
  {
    ItemsUnfold(a, first, x);
    ItemsUnfold(b, first, y);
    assert a.Item? <==> b.Item?;
    if a.Item? {
      var xTail, yTail := WriteItems(a.tail, false) + x, WriteItems(b.tail, false) + y;
      ItemsDelimited(a.tail, x);
      ItemsDelimited(b.tail, y);
      TakeEqual(Comma(first), Comma(first), Write(a.head) + xTail, Write(b.head) + yTail);
      WriteReadsBack(a.head, b.head, xTail, yTail);
      ItemsReadBack(a.tail, b.tail, false, x, y);
    } else {
      TakeEqual([']'], [']'], x, y);
    }
  }

  /** The text of an item after its comma: key, colon, value, and the items after it. */
  function AfterComma(f: Fields, x: string): string
    requires f.Field?
  {
    ['"'] + (Escape(f.key) + ['"'] + AfterKey(f, x))
  }

  function AfterKey(f: Fields, x: string): string
    requires f.Field?
  {
    [':'] + (Write(f.value) + (WriteFields(f.rest, false) + x))
  }

  lemma FieldsUnfold(f: Fields, first: bool, x: string)
    ensures f.Field? ==> WriteFields(f, first) + x == Comma(first) + AfterComma(f, x)
    ensures f.NoFields? ==> WriteFields(f, first) + x == ['}'] + x
    ensures f.Field? <==> (WriteFields(f, first) + x)[0] != '}'
  {
    if f.Field? {
      var c, q, v, t := Comma(first), Quoted(f.key), Write(f.value), WriteFields(f.rest, false);
      Assoc(c + q + [':'] + v, t, x);
      Assoc(c + q + [':'], v, t + x);
      Assoc(c + q, [':'], v + (t + x));
      Assoc(c, q, AfterKey(f, x));
      Assoc(['"'], Escape(f.key) + ['"'], AfterKey(f, x));
      Assoc(['"'], Escape(f.key), ['"']);
      assert (c + AfterComma(f, x))[0] == (if first then '"' else ',');
    }
  }

  lemma FieldsDelimited(f: Fields, x: string)
    ensures Delimited(WriteFields(f, false) + x)
  {
    FieldsUnfold(f, false, x);
  }

  lemma {:induction false} FieldsReadBack(a: Fields, b: Fields, first: bool, x: string, y: string)
    requires WriteFields(a, first) + x == WriteFields(b, first) + y
    ensures a == b && x == y
    decreases a
  {
    FieldsUnfold(a, first, x);
    FieldsUnfold(b, first, y);
    assert a.Field? <==> b.Field?;
    if a.Field? {
      var xTail, yTail := WriteFields(a.rest, false) + x, WriteFields(b.rest, false) + y;
      FieldsDelimited(a.rest, x);
      FieldsDelimited(b.rest, y);
      TakeEqual(Comma(first), Comma(first), AfterComma(a, x), AfterComma(b, y));
      TakeEqual(['"'], ['"'], Escape(a.key) + ['"'] + AfterKey(a, x), Escape(b.key) + ['"'] + AfterKey(b, y));
      QuotedReadsBack(a.key, b.key, AfterKey(a, x), AfterKey(b, y));
      TakeEqual([':'], [':'], Write(a.value) + xTail, Write(b.value) + yTail);
      WriteReadsBack(a.value, b.value, xTail, yTail);
      FieldsReadBack(a.rest, b.rest, false, x, y);
    } else {
      TakeEqual(['}'], ['}'], x, y);
    }
  }

  /** The canonical text determines the value. */
  lemma WriteInjective(v: Value, w: Value)
    requires Write(v) == Write(w)
    ensures v == w
  {
    assert Write(v) + [] == Write(v) && Write(w) + [] == Write(w);
    WriteReadsBack(v, w, [], []);
  }

  // ------------------------------------------------------------------ encoding

  lemma EscapeCharIsAscii(c: char)
    ensures forall i | 0 <= i < |EscapeChar(c)| :: 32 <= EscapeChar(c)[i] as int <= 126
  {
    EscapeShape(c);
    if InHex(c) {
      UnitIsAscii(Units(c).0);
      UnitIsAscii(Units(c).1);
    }
  }

  lemma UnitIsAscii(u: nat)
    requires u < 0x1_0000
    ensures forall i | 0 <= i < 6 :: 32 <= Unit(u)[i] as int <= 126
  {
    assert forall d | 0 <= d < 16 :: 48 <= HexDigit(d) as int <= 102;
  }

  /** Strings are written in printable ASCII, so the UTF-8 bytes of the text are its characters. */
  lemma {:induction false} EscapeIsAscii(s: string)
    ensures forall c | c in Escape(s) :: 32 <= c as int <= 126
  {
    if s != [] {
      EscapeCharIsAscii(s[0]);
      EscapeIsAscii(s[1..]);
    }
  }

  predicate IsAscii(s: string) { forall i | 0 <= i < |s| :: s[i] as int < 128 }

  lemma {:induction false} NumeralIsAscii(n: nat)
    ensures IsAscii(Numeral(n))
  {
    assert forall i | 0 <= i < |Numeral(n)| :: IsDigit(Numeral(n)[i]);
  }

  lemma QuotedIsAscii(s: string)
    ensures IsAscii(Quoted(s))
  {
    EscapeIsAscii(s);
    assert forall i | 0 <= i < |Escape(s)| :: Escape(s)[i] in Escape(s);
  }

  lemma {:induction false} WriteIsAscii(v: Value)
    ensures IsAscii(Write(v))
    decreases v
  {
    match v
    case Null =>
    case Bool(_) =>
    case Int(n) => NumeralIsAscii(Magnitude(n));
    case Real(_) =>
    case Str(s) => QuotedIsAscii(s);
    case Arr(items) => ItemsAreAscii(items, true);
    case Obj(fields) => FieldsAreAscii(fields, true);
  }

  lemma {:induction false} ItemsAreAscii(items: Items, first: bool)
    ensures IsAscii(WriteItems(items, first))
    decreases items
  {
    if items.Item? {
      WriteIsAscii(items.head);
      ItemsAreAscii(items.tail, false);
    }
  }

  lemma {:induction false} FieldsAreAscii(f: Fields, first: bool)
    ensures IsAscii(WriteFields(f, first))
    decreases f
  {
    if f.Field? {
      QuotedIsAscii(f.key);
      WriteIsAscii(f.value);
      FieldsAreAscii(f.rest, false);
    }
  }
}
