/** A reader of JSON text without white space, after sections 2 to 7 of RFC 8259, and the round
    trip: what the audit log writes, it reads back, up to the next delimiter. */
module JsonReader {
  import opened Common
  import opened Text
  import opened Json

  datatype Read<T> = Read(value: T, rest: string)

  // ------------------------------------------------------------------ strings

  function HexValue(c: char): Option<nat>
  {
    if '0' <= c <= '9' then Some(c as nat - '0' as nat)
    else if 'a' <= c <= 'f' then Some(c as nat - 'a' as nat + 10)
    else None
  }

  /** The code unit after \u. */
  function ReadUnit(t: string): (u: Option<nat>)
    ensures u.Some? ==> |t| >= 6
  {
    if |t| < 6 || t[0] != '\\' || t[1] != 'u' then None
    else
      var a, b, c, d := HexValue(t[2]), HexValue(t[3]), HexValue(t[4]), HexValue(t[5]);
      if a.None? || b.None? || c.None? || d.None? then None
      else Some(4096 * a.value + 256 * b.value + 16 * c.value + d.value)
  }

  /** One character: itself, a two-character escape, a code unit, or a pair of surrogates. */
  function ReadChar(t: string): (r: Option<Read<char>>)
    ensures r.Some? ==> |r.value.rest| < |t|
  {
    if t == [] || t[0] == '"' then None
    else if t[0] != '\\' then Some(Read(t[0], t[1..]))
    else if |t| < 2 then None
    else if t[1] == 'u' then ReadCode(t)
    else
      var c := Unescaped(t[1]);
      if c.None? then None else Some(Read(c.value, t[2..]))
  }

  function Unescaped(c: char): Option<char>
  {
    match c
    case '"' => Some('"')
    case '\\' => Some('\\')
    case '/' => Some('/')
    case 'b' => Some(8 as char)
    case 'f' => Some(12 as char)
    case 'n' => Some('\n')
    case 'r' => Some('\r')
    case 't' => Some('\t')
    case _ => None
  }

  function ReadCode(t: string): (r: Option<Read<char>>)
    ensures r.Some? ==> |r.value.rest| < |t|
  {
    var high := ReadUnit(t);
    if high.None? then None
    else if high.value < 0xD800 || 0xE000 <= high.value < 0x1_0000 then Some(Read(high.value as char, t[6..]))
    else
      var low := ReadUnit(t[6..]);
      if high.value >= 0xDC00 || low.None? || !(0xDC00 <= low.value < 0xE000) then None
      else Some(Read((0x1_0000 + (high.value - 0xD800) * 1024 + (low.value - 0xDC00)) as char, t[12..]))
  }

  /** The characters up to the closing quote. */
  function ReadBody(t: string): (r: Option<Read<string>>)
    ensures r.Some? ==> |r.value.rest| < |t|
    decreases |t|
  {
    if t == [] then None
    else if t[0] == '"' then Some(Read([], t[1..]))
    else
      var c := ReadChar(t);
      if c.None? then None
      else
        var body := ReadBody(c.value.rest);
        if body.None? then None else Some(Read([c.value.value] + body.value.value, body.value.rest))
  }

  // ------------------------------------------------------------------ numbers

  /** The text before the next delimiter. */
  function Token(t: string): (k: nat)
    ensures k <= |t|
  {
    if t == [] || t[0] in {',', ']', '}'} then 0 else 1 + Token(t[1..])
  }

  predicate AllDigits(s: string) { forall i | 0 <= i < |s| :: IsDigit(s[i]) }

  function ReadNumber(t: string): (r: Option<Read<Value>>)
    ensures r.Some? ==> |r.value.rest| < |t|
  {
    var k := Token(t);
    var token := t[..k];
    if token != [] && AllDigits(token) then Some(Read(Int(ReadNumeral(token)), t[k..]))
    else if |token| > 1 && token[0] == '-' && AllDigits(token[1..]) then
      var n: int := ReadNumeral(token[1..]);
      Some(Read(Int(-n), t[k..]))
    else if IsFloatText(token) then Some(Read(Real(token), t[k..]))
    else None
  }

  // ------------------------------------------------------------------ values

  predicate Starts(t: string, word: string) { word <= t }

  function ReadValue(t: string): (r: Option<Read<Value>>)
    ensures r.Some? ==> |r.value.rest| < |t|
    decreases |t|, 1
  {
    if t == [] then None
    else if t[0] == '"' then
      var body := ReadBody(t[1..]);
      if body.None? then None else Some(Read(Str(body.value.value), body.value.rest))
    else if t[0] == '[' then
      var items := ReadItems(t[1..], true);
      if items.None? then None else Some(Read(Arr(items.value.value), items.value.rest))
    else if t[0] == '{' then
      var fields := ReadFields(t[1..], true);
      if fields.None? then None else Some(Read(Obj(fields.value.value), fields.value.rest))
    else if Starts(t, "null") then Some(Read(Null, t[4..]))
    else if Starts(t, "true") then Some(Read(Bool(true), t[4..]))
    else if Starts(t, "false") then Some(Read(Bool(false), t[5..]))
    else ReadNumber(t)
  }

  /** The text after the comma that every element but the first has before it. */
  function AfterSeparator(t: string, first: bool): (r: Option<string>)
    ensures r.Some? ==> |r.value| <= |t|
  {
    if first then Some(t) else if t != [] && t[0] == ',' then Some(t[1..]) else None
  }

  function ReadItems(t: string, first: bool): (r: Option<Read<Items>>)
    ensures r.Some? ==> |r.value.rest| < |t|
    decreases |t|, 2
  {
    if t != [] && t[0] == ']' then Some(Read(NoItems, t[1..]))
    else
      var next := AfterSeparator(t, first);
      if next.None? then None
      else
        var head := ReadValue(next.value);
        if head.None? then None
        else
          var tail := ReadItems(head.value.rest, false);
          if tail.None? then None else Some(Read(Item(head.value.value, tail.value.value), tail.value.rest))
  }

  function ReadFields(t: string, first: bool): (r: Option<Read<Fields>>)
    ensures r.Some? ==> |r.value.rest| < |t|
    decreases |t|, 2
  {
    if t != [] && t[0] == '}' then Some(Read(NoFields, t[1..]))
    else
      var next := AfterSeparator(t, first);
      if next.None? || next.value == [] || next.value[0] != '"' then None
      else
        var key := ReadBody(next.value[1..]);
        if key.None? || key.value.rest == [] || key.value.rest[0] != ':' then None
        else
          var value := ReadValue(key.value.rest[1..]);
          if value.None? then None
          else
            var rest := ReadFields(value.value.rest, false);
            if rest.None? then None
            else Some(Read(Field(key.value.value, value.value.value, rest.value.value), rest.value.rest))
  }

  // ------------------------------------------------------------------ what is written reads back

  lemma HexReadsBack(d: nat)
    requires d < 16
    ensures HexValue(HexDigit(d)) == Some(d)
  {
  }

  lemma UnitReadsBack(u: nat, x: string)
    requires u < 0x1_0000
    ensures ReadUnit(Unit(u) + x) == Some(u) && (Unit(u) + x)[6..] == x
  {
    HexReadsBack(u / 16 / 16 / 16);
    HexReadsBack(u / 16 / 16 % 16);
    HexReadsBack(u / 16 % 16);
    HexReadsBack(u % 16);
    var t := Unit(u) + x;
    assert forall i | 0 <= i < 6 :: t[i] == Unit(u)[i];
    assert u == 4096 * (u / 16 / 16 / 16) + 256 * (u / 16 / 16 % 16) + 16 * (u / 16 % 16) + u % 16;
  }

  lemma HexCharReadsBack(c: char, x: string)
    requires InHex(c)
    ensures ReadCode(EscapeChar(c) + x) == Some(Read(c, x))
  {
    HexAsUnits(c, x);
    if c as int < 0x1_0000 {
      UnitReadsBack(c as int, x);
      assert SecondUnit(c) + x == x;
    } else {
      PairReadsBack(c, x);
    }
  }

  lemma PairReadsBack(c: char, x: string)
    requires c as int >= 0x1_0000
    ensures ReadCode(Unit(Units(c).0) + (Unit(Units(c).1) + x)) == Some(Read(c, x))
  {
    var rest := Unit(Units(c).1) + x;
    var t := Unit(Units(c).0) + rest;
    UnitReadsBack(Units(c).0, rest);
    UnitReadsBack(Units(c).1, x);
    assert t[12..] == t[6..][6..];
    PairIsChar(c);
  }

  lemma PairIsChar(c: char)
    requires c as int >= 0x1_0000
    ensures 0xD800 <= Units(c).0 < 0xDC00 <= Units(c).1 < 0xE000
    ensures 0x1_0000 + (Units(c).0 - 0xD800) * 1024 + (Units(c).1 - 0xDC00) == c as int
  {
    var k := c as int - 0x1_0000;
    assert k == k / 1024 * 1024 + k % 1024;
  }

  lemma CharReadsBack(c: char, x: string)
    ensures ReadChar(EscapeChar(c) + x) == Some(Read(c, x))
  {
    var t := EscapeChar(c) + x;
    EscapeShape(c);
    assert t[0] == EscapeChar(c)[0];
    if InHex(c) {
      assert t[1] == EscapeChar(c)[1] == 'u';
      HexCharReadsBack(c, x);
    } else if |EscapeChar(c)| == 2 {
      assert t[1] == EscapeChar(c)[1] && t[2..] == x;
    } else {
      assert t[1..] == x;
    }
  }

  lemma {:induction false} BodyReadsBack(s: string, x: string)
    ensures ReadBody(Escape(s) + ['"'] + x) == Some(Read(s, x))
  {
    if s == [] {
      assert Escape(s) + ['"'] + x == ['"'] + x;
    } else {
      QuotedUnfold(s, x);
      CharReadsBack(s[0], Escape(s[1..]) + ['"'] + x);
      BodyReadsBack(s[1..], x);
      assert s == [s[0]] + s[1..];
    }
  }

  lemma {:induction false} TokenEnds(s: string, x: string)
    requires Unbroken(s) && Delimited(x)
    ensures Token(s + x) == |s|
  {
    if s == [] {
      assert s + x == x;
    } else {
      assert (s + x)[1..] == s[1..] + x && (s + x)[0] == s[0];
      TokenEnds(s[1..], x);
    }
  }

  lemma NumberReadsBack(v: Value, x: string)
    requires IsNumber(v) && Delimited(x)
    ensures ReadNumber(Write(v) + x) == Some(Read(v, x))
  {
    var s := Write(v);
    NumberIsUnbroken(v);
    TokenEnds(s, x);
    assert (s + x)[..|s|] == s && (s + x)[|s|..] == x;
    if v.Int? {
      IntTextShape(v.n);
      NumeralRoundTrip(Magnitude(v.n));
      assert v.n < 0 ==> s[1..] == Numeral(Magnitude(v.n)) && s[0] == '-';
      assert v.n >= 0 ==> s == Numeral(Magnitude(v.n));
    } else {
      FloatIsNoInteger(s);
    }
  }

  lemma FloatIsNoInteger(s: string)
    requires IsFloatText(s)
    ensures !AllDigits(s) && !(s[0] == '-' && AllDigits(s[1..]))
  {
    var i :| 0 <= i < |s| && s[i] in {'.', 'e', 'N', 'I'};
    assert !IsDigit(s[i]);
    if s[0] == '-' {
      assert s[1..][i - 1] == s[i];
    }
  }

  /** What is written, followed by a delimiter or nothing, reads back as it was. */
  lemma {:induction false} ReadsBack(v: Value, x: string)
    requires Delimited(x)
    ensures ReadValue(Write(v) + x) == Some(Read(v, x))
    decreases v
  {
    var t := Write(v) + x;
    WriteStartsWithTag(v, x);
    WriteUnfold(v, x);
    match v
    case Null => assert t[..4] == "null" && t[4..] == x;
    case Bool(b) => assert t[..|Write(v)|] == Write(v) && t[|Write(v)|..] == x && Write(v)[0] == t[0];
    case Int(_) => NumberStart(v, x);
    case Real(_) => NumberStart(v, x);
    case Str(s) =>
      BodyReadsBack(s, x);
      assert t[1..] == Escape(s) + ['"'] + x;
    case Arr(items) =>
      ItemsReadBackAs(items, true, x);
      assert t[1..] == WriteItems(items, true) + x;
    case Obj(fields) =>
      FieldsReadBackAs(fields, true, x);
      assert t[1..] == WriteFields(fields, true) + x;
  }

  lemma NumberStart(v: Value, x: string)
    requires IsNumber(v) && Delimited(x)
    ensures ReadValue(Write(v) + x) == Some(Read(v, x))
  {
    NumberIsUnbroken(v);
    NumberReadsBack(v, x);
    var t := Write(v) + x;
    assert t[0] == Write(v)[0];
  }

  lemma {:induction false} ItemsReadBackAs(items: Items, first: bool, x: string)
    ensures ReadItems(WriteItems(items, first) + x, first) == Some(Read(items, x))
    decreases items
  {
    var t := WriteItems(items, first) + x;
    ItemsUnfold(items, first, x);
    if items.Item? {
      var after := WriteItems(items.tail, false) + x;
      ItemsDelimited(items.tail, x);
      ReadsBack(items.head, after);
      ItemsReadBackAs(items.tail, false, x);
      assert !first ==> t[0] == ',' && t[1..] == Write(items.head) + after;
      assert first ==> t == Write(items.head) + after;
    } else {
      assert t[1..] == x;
    }
  }

  lemma {:induction false} FieldsReadBackAs(f: Fields, first: bool, x: string)
    ensures ReadFields(WriteFields(f, first) + x, first) == Some(Read(f, x))
    decreases f
  {
    var t := WriteFields(f, first) + x;
    FieldsUnfold(f, first, x);
    if f.Field? {
      var next, after := AfterComma(f, x), WriteFields(f.rest, false) + x;
      FieldsDelimited(f.rest, x);
      assert !first ==> t[0] == ',' && t[1..] == next;
      assert first ==> t == next;
      assert next[0] == '"' && next[1..] == Escape(f.key) + ['"'] + AfterKey(f, x);
      BodyReadsBack(f.key, AfterKey(f, x));
      assert AfterKey(f, x)[0] == ':' && AfterKey(f, x)[1..] == Write(f.value) + after;
      ReadsBack(f.value, after);
      FieldsReadBackAs(f.rest, false, x);
    } else {
      assert t[1..] == x;
    }
  }
}
