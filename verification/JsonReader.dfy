/** A reader of JSON texts after RFC 8259, and that it reads back whatever is written. */
module JsonReader {
  import opened Options
  import opened Json

  type Read<T> = Option<(T, string)>

  /******* Strings, section 7 *******/

  function HexValue(c: char): Option<nat> {
    if '0' <= c <= '9' then Some(c as int - '0' as int)
    else if 'a' <= c <= 'f' then Some(10 + (c as int - 'a' as int))
    else if 'A' <= c <= 'F' then Some(10 + (c as int - 'A' as int))
    else None
  }

  /** Four hexadecimal digits. */
  function ReadUnit(s: string): (r: Option<nat>)
    ensures r.Some? ==> |s| >= 4 && r.value < 0x10000
  {
    if |s| < 4 then None
    else
      var a, b, c, d := HexValue(s[0]), HexValue(s[1]), HexValue(s[2]), HexValue(s[3]);
      if a.None? || b.None? || c.None? || d.None? then None
      else Some(((a.value * 16 + b.value) * 16 + c.value) * 16 + d.value)
  }

  /** A `u` escape after its u: one UTF-16 unit, or two that are a surrogate pair. */
  function ReadUnicode(s: string): (r: Read<char>)
    ensures r.Some? ==> |r.value.1| < |s|
  {
    var unit := ReadUnit(s);
    if unit.None? || 0xDC00 <= unit.value < 0xE000 then None
    else if unit.value < 0xD800 || 0xE000 <= unit.value then Some((unit.value as char, s[4..]))
    else if |s| < 10 || s[4] != '\\' || s[5] != 'u' then None
    else
      var low := ReadUnit(s[6..]);
      if low.None? || low.value < 0xDC00 || 0xE000 <= low.value then None
      else Some(((0x10000 + (unit.value - 0xD800) * 0x400 + (low.value - 0xDC00)) as char, s[10..]))
  }

  /** The character after a backslash. */
  function ReadEscape(s: string): (r: Read<char>)
    ensures r.Some? ==> |r.value.1| < |s|
  {
    if s == [] then None
    else
      var c, rest := s[0], s[1..];
      if c == '"' || c == '\\' || c == '/' then Some((c, rest))
      else if c == 'b' then Some((0x08 as char, rest))
      else if c == 'f' then Some((0x0C as char, rest))
      else if c == 'n' then Some((0x0A as char, rest))
      else if c == 'r' then Some((0x0D as char, rest))
      else if c == 't' then Some((0x09 as char, rest))
      else if c == 'u' then ReadUnicode(rest)
      else None
  }

  /** One character of a string, escaped or not. */
  function ReadChar(s: string): (r: Read<char>)
    requires s != []
    ensures r.Some? ==> |r.value.1| < |s|
  {
    if s[0] == '\\' then ReadEscape(s[1..])
    else if s[0] as int < 0x20 then None
    else Some((s[0], s[1..]))
  }

  /** The characters up to the closing quotation mark. */
  function Unescape(s: string): (r: Read<string>)
    ensures r.Some? ==> |r.value.1| < |s|
    decreases |s|
  {
    if s == [] then None
    else if s[0] == '"' then Some(([], s[1..]))
    else
      var c := ReadChar(s);
      if c.None? then None
      else
        var more := Unescape(c.value.1);
        if more.None? then None else Some(([c.value.0] + more.value.0, more.value.1))
  }

  /******* Values, sections 3 to 6 *******/

  /** The characters of names and numbers. */
  predicate TokenChar(c: char) {
    '0' <= c <= '9' || 'a' <= c <= 'z' || 'A' <= c <= 'Z' || c == '+' || c == '-' || c == '.'
  }

  function TokenLength(s: string): (n: nat)
    ensures n <= |s|
  {
    if s == [] || !TokenChar(s[0]) then 0 else 1 + TokenLength(s[1..])
  }

  function Scalar(token: string): Json {
    if token == ['n', 'u', 'l', 'l'] then JNull
    else if token == ['t', 'r', 'u', 'e'] then JBool(true)
    else if token == ['f', 'a', 'l', 's', 'e'] then JBool(false)
    else JNum(token)
  }

  function ReadValue(s: string): (r: Read<Json>)
    ensures r.Some? ==> |r.value.1| < |s|
    decreases |s|, 0
  {
    if s == [] then None
    else if s[0] == '"' then
      var text := Unescape(s[1..]);
      if text.None? then None else Some((JStr(text.value.0), text.value.1))
    else if s[0] == '[' then
      if |s| > 1 && s[1] == ']' then Some((JArr([]), s[2..]))
      else
        var items := ReadItems(s[1..]);
        if items.None? then None else Some((JArr(items.value.0), items.value.1))
    else if s[0] == '{' then
      if |s| > 1 && s[1] == '}' then Some((JObj([]), s[2..]))
      else
        var fields := ReadFields(s[1..]);
        if fields.None? then None else Some((JObj(fields.value.0), fields.value.1))
    else
      var n := TokenLength(s);
      if n == 0 then None else Some((Scalar(s[..n]), s[n..]))
  }

  /** Values separated by commas, up to the closing bracket. */
  function ReadItems(s: string): (r: Read<seq<Json>>)
    ensures r.Some? ==> |r.value.1| < |s|
    decreases |s|, 1
  {
    var item := ReadValue(s);
    if item.None? || item.value.1 == [] then None
    else
      var next, rest := item.value.1[0], item.value.1[1..];
      if next == ']' then Some(([item.value.0], rest))
      else if next != ',' then None
      else
        var more := ReadItems(rest);
        if more.None? then None else Some(([item.value.0] + more.value.0, more.value.1))
  }

  /** A name, a colon and a value. */
  function ReadField(s: string): (r: Read<Field>)
    ensures r.Some? ==> |r.value.1| < |s|
    decreases |s|, 1
  {
    if s == [] || s[0] != '"' then None
    else
      var key := Unescape(s[1..]);
      if key.None? || key.value.1 == [] || key.value.1[0] != ':' then None
      else
        var value := ReadValue(key.value.1[1..]);
        if value.None? then None else Some((Field(key.value.0, value.value.0), value.value.1))
  }

  /** Fields separated by commas, up to the closing brace. */
  function ReadFields(s: string): (r: Read<seq<Field>>)
    ensures r.Some? ==> |r.value.1| < |s|
    decreases |s|, 2
  {
    var field := ReadField(s);
    if field.None? || field.value.1 == [] then None
    else
      var next, rest := field.value.1[0], field.value.1[1..];
      if next == '}' then Some(([field.value.0], rest))
      else if next != ',' then None
      else
        var more := ReadFields(rest);
        if more.None? then None else Some(([field.value.0] + more.value.0, more.value.1))
  }

  /******* What was escaped is read back *******/

  lemma {:induction false} HexReadsBack(n: nat)
    requires n < 16
    ensures HexValue(HexDigit(n)) == Some(n)
  {
  }

  lemma {:induction false} FourDigits(n: nat)
    requires n < 0x10000
    ensures n == ((n / 4096 * 16 + n / 256 % 16) * 16 + n / 16 % 16) * 16 + n % 16
  {
  }

  /** The digits of a unit, in front of anything. */
  lemma {:induction false} UnitReadsBack(n: nat, rest: string)
    requires n < 0x10000
    ensures var s := UnicodeEscape(n) + rest;
            s[0] == '\\' && s[1] == 'u' && ReadUnit(s[2..]) == Some(n) && s[2..][4..] == rest
  {
    HexReadsBack(n / 4096);
    HexReadsBack(n / 256 % 16);
    HexReadsBack(n / 16 % 16);
    HexReadsBack(n % 16);
    FourDigits(n);
    hide HexValue, HexDigit;
  }

  /** Two units that are a pair. */
  lemma {:induction false} TwoUnits(t: string, high: nat, low: nat, rest: string)
    requires 0xD800 <= high < 0xDC00 && 0xDC00 <= low < 0xE000
    requires |t| >= 6 && ReadUnit(t) == Some(high) && t[4..][0] == '\\' && t[4..][1] == 'u'
    requires ReadUnit(t[4..][2..]) == Some(low) && t[4..][2..][4..] == rest
    ensures ReadUnicode(t) == Some(((0x10000 + (high - 0xD800) * 0x400 + (low - 0xDC00)) as char, rest))
  {
    hide ReadUnit;
    assert t[6..] == t[4..][2..] && t[10..] == t[4..][2..][4..];
    assert t[4] == t[4..][0] && t[5] == t[4..][1];
    assert |t[4..][2..]| >= 4 by { UnitLength(t[4..][2..]); }
  }

  lemma {:induction false} UnitLength(s: string)
    requires ReadUnit(s).Some?
    ensures |s| >= 4
  {
  }

  /** A surrogate pair. */
  lemma {:induction false} PairReadsBack(n: nat, rest: string)
    requires 0x10000 <= n < 0x110000
    ensures var high, low := 0xD800 + (n - 0x10000) / 1024, 0xDC00 + (n - 0x10000) % 1024;
            ReadChar(UnicodeEscape(high) + UnicodeEscape(low) + rest) == Some((n as char, rest))
  {
    hide UnicodeEscape, ReadUnit, ReadUnicode;
    var high, low := 0xD800 + (n - 0x10000) / 1024, 0xDC00 + (n - 0x10000) % 1024;
    var s := UnicodeEscape(high) + UnicodeEscape(low) + rest;
    assert s == UnicodeEscape(high) + (UnicodeEscape(low) + rest);
    UnitReadsBack(high, UnicodeEscape(low) + rest);
    UnitReadsBack(low, rest);
    var t := s[1..][1..];
    assert t == s[2..];
    TwoUnits(t, high, low, rest);
    assert (0x10000 + (high - 0xD800) * 0x400 + (low - 0xDC00)) == n;
  }

  /** A unit that is no surrogate. */
  lemma {:induction false} SingleReadsBack(n: nat, rest: string)
    requires n < 0xD800 || 0xE000 <= n < 0x10000
    ensures ReadChar(UnicodeEscape(n) + rest) == Some((n as char, rest))
  {
    UnitReadsBack(n, rest);
    hide UnicodeEscape, ReadUnit;
    var s := UnicodeEscape(n) + rest;
    assert s[1..][1..] == s[2..];
  }

  /** Every character, in both encodings. */
  lemma {:induction false} CharReadsBack(c: char, ascii: bool, rest: string)
    ensures var s := Escape(c, ascii) + rest;
            s[0] != '"' && ReadChar(s) == Some((c, rest))
  {
    var n := c as int;
    if ascii && n >= 0x10000 {
      PairedReadsBack(c, rest);
    } else if n < 32 || n > 126 {
      SingleOrPlain(c, ascii, rest);
    } else {
      ShortReadsBack(c, ascii, rest);
    }
    CharEscape(c, ascii);
    hide Escape, ReadChar;
  }

  lemma {:induction false} PairedReadsBack(c: char, rest: string)
    requires c as int >= 0x10000
    ensures ReadChar(Escape(c, true) + rest) == Some((c, rest))
  {
    hide UnicodeEscape, ReadChar;
    PairReadsBack(c as int, rest);
  }

  lemma {:induction false} CharEscape(c: char, ascii: bool)
    ensures Escape(c, ascii) != [] && Escape(c, ascii)[0] != '"'
  {
  }

  lemma {:induction false} ShortReadsBack(c: char, ascii: bool, rest: string)
    requires c as int < 127
    requires c as int >= 32 || c == '\n' || c == '\r' || c == '\t' || c as int == 8 || c as int == 12
    ensures ReadChar(Escape(c, ascii) + rest) == Some((c, rest)) && (Escape(c, ascii) + rest)[0] != '"'
  {
    var s := Escape(c, ascii) + rest;
    if c == '"' || c == '\\' || c as int < 32 {
      assert |Escape(c, ascii)| == 2 && s[1..][0] == s[1] && s[1..][1..] == rest;
    } else {
      assert s[1..] == rest;
    }
  }

  lemma {:induction false} SingleOrPlain(c: char, ascii: bool, rest: string)
    requires c as int < 32 || c as int > 126
    requires !(ascii && c as int >= 0x10000)
    ensures ReadChar(Escape(c, ascii) + rest) == Some((c, rest)) && (Escape(c, ascii) + rest)[0] != '"'
  {
    var n := c as int;
    if c == '\n' || c == '\r' || c == '\t' || n == 8 || n == 12 {
      ShortReadsBack(c, ascii, rest);
    } else if n < 32 || ascii {
      SingleReadsBack(n, rest);
      CharEscape(c, ascii);
      assert Escape(c, ascii) == UnicodeEscape(n);
    } else {
      assert (Escape(c, ascii) + rest)[1..] == rest;
    }
  }

  /** Every string in both encodings is read back from its escapes. */
  lemma {:induction false} StringReadsBack(text: string, ascii: bool, rest: string)
    ensures Unescape(Escaped(text, ascii) + (['"'] + rest)) == Some((text, rest))
  {
    var s := Escaped(text, ascii) + (['"'] + rest);
    if text == [] {
      assert s == ['"'] + rest;
    } else {
      var c, more := text[0], Escaped(text[1..], ascii) + (['"'] + rest);
      assert s == Escape(c, ascii) + more;
      StringReadsBack(text[1..], ascii, rest);
      CharReadsBack(c, ascii, more);
      hide Escape, ReadChar;
      assert text == [c] + text[1..];
    }
  }

  /******* What was encoded is read back *******/

  /** The text of a number or of a name that no JSON name shadows. */
  predicate NumberText(text: string) {
    && text != [] && TokenLength(text) == |text|
    && Scalar(text) == JNum(text)
  }

  /** Every number is written as one. */
  predicate Readable(j: Json)
    decreases j
  {
    match j
    case JNum(text) => NumberText(text)
    case JArr(items) => forall i :: 0 <= i < |items| ==> Readable(items[i])
    case JObj(fields) => forall i :: 0 <= i < |fields| ==> Readable(fields[i].value)
    case _ => true
  }

  /** What may follow a value: nothing, or no character of a name or number. */
  predicate Ends(rest: string) {
    rest == [] || !TokenChar(rest[0])
  }

  lemma {:induction false} TokenStops(token: string, rest: string)
    requires TokenLength(token) == |token| && Ends(rest)
    ensures TokenLength(token + rest) == |token|
  {
    if token == [] {
      assert token + rest == rest;
    } else {
      TokenStops(token[1..], rest);
      assert (token + rest)[1..] == token[1..] + rest;
    }
  }

  /** A scalar's text. */
  lemma {:induction false} TokenReadsBack(token: string, rest: string)
    requires token != [] && TokenLength(token) == |token| && Ends(rest)
    ensures ReadValue(token + rest) == Some((Scalar(token), rest))
  {
    TokenStops(token, rest);
    hide Scalar;
    var s := token + rest;
    assert s[0] == token[0] && TokenChar(s[0]);
    assert s[..|token|] == token && s[|token|..] == rest;
  }

  lemma {:induction false} NamesAreTokens()
    ensures TokenLength(['n', 'u', 'l', 'l']) == 4 && TokenLength(['t', 'r', 'u', 'e']) == 4
    ensures TokenLength(['f', 'a', 'l', 's', 'e']) == 5
  {
    assert ['n', 'u', 'l', 'l'][1..] == ['u', 'l', 'l'] && ['u', 'l', 'l'][1..] == ['l', 'l'] && ['l', 'l'][1..] == ['l'];
    assert ['t', 'r', 'u', 'e'][1..] == ['r', 'u', 'e'] && ['r', 'u', 'e'][1..] == ['u', 'e'] && ['u', 'e'][1..] == ['e'];
    assert ['f', 'a', 'l', 's', 'e'][1..] == ['a', 'l', 's', 'e'] && ['a', 'l', 's', 'e'][1..] == ['l', 's', 'e'];
    assert ['l', 's', 'e'][1..] == ['s', 'e'] && ['s', 'e'][1..] == ['e'];
    assert ['l'][1..] == [] && ['e'][1..] == [];
  }

  lemma {:induction false} ScalarReadsBack(j: Json, ascii: bool, rest: string)
    requires Readable(j) && Ends(rest) && (j.JNull? || j.JBool? || j.JNum?)
    ensures ReadValue(Encode(j, ascii) + rest) == Some((j, rest))
  {
    NamesAreTokens();
    match j
    case JNull => TokenReadsBack(['n', 'u', 'l', 'l'], rest);
    case JBool(b) => TokenReadsBack(if b then ['t', 'r', 'u', 'e'] else ['f', 'a', 'l', 's', 'e'], rest);
    case JNum(text) => TokenReadsBack(text, rest);
  }

  lemma {:induction false} QuotedIsText(text: string, ascii: bool, rest: string)
    ensures var s := Quoted(text, ascii) + rest;
            s[0] == '"' && Unescape(s[1..]) == Some((text, rest))
  {
    StringReadsBack(text, ascii, rest);
    assert (Quoted(text, ascii) + rest)[1..] == Escaped(text, ascii) + (['"'] + rest);
  }

  /** No value starts like the end of an array or an object. */
  lemma {:induction false} ValueStarts(j: Json, ascii: bool)
    requires Readable(j)
    ensures Encode(j, ascii) != [] && Encode(j, ascii)[0] != ']' && Encode(j, ascii)[0] != '}'
  {
    if j.JNum? {
      assert TokenChar(j.text[0]);
    }
  }

  /** Every value in both encodings is read back, whatever text follows that does not continue it. */
  lemma {:induction false} ValueReadsBack(j: Json, ascii: bool, rest: string)
    requires Readable(j) && Ends(rest)
    ensures ReadValue(Encode(j, ascii) + rest) == Some((j, rest))
    decreases j, 2
  {
    match j
    case JStr(text) => QuotedIsText(text, ascii, rest);
    case JArr(items) => ArrayReadsBack(items, ascii, rest);
    case JObj(fields) => ObjectReadsBack(fields, ascii, rest);
    case _ => ScalarReadsBack(j, ascii, rest);
  }

  lemma {:induction false} ArrayReadsBack(items: seq<Json>, ascii: bool, rest: string)
    requires forall i :: 0 <= i < |items| ==> Readable(items[i])
    ensures ReadValue(Encode(JArr(items), ascii) + rest) == Some((JArr(items), rest))
    decreases items, 1
  {
    var s := Encode(JArr(items), ascii) + rest;
    var inner := EncodeItems(items, ascii) + ([']'] + rest);
    assert s == ['['] + inner;
    if items != [] {
      ItemsReadBack(items, ascii, rest);
      ValueStarts(items[0], ascii);
      assert inner[0] == Encode(items[0], ascii)[0];
    } else {
      assert inner == [']'] + rest;
    }
    hide Encode, EncodeItems, ReadItems;
    assert s[1..] == inner;
  }

  /** One round of the reader of items. */
  lemma {:induction false} ItemsRound(s: string, item: Json, more: string, rest: string)
    ensures ReadValue(s) == Some((item, [']'] + rest)) ==> ReadItems(s) == Some(([item], rest))
    ensures ReadValue(s) == Some((item, [','] + more)) && ReadItems(more).Some? ==>
              ReadItems(s) == Some(([item] + ReadItems(more).value.0, ReadItems(more).value.1))
  {
    hide ReadValue;
    assert ([']'] + rest)[1..] == rest && ([','] + more)[1..] == more;
  }

  lemma {:induction false} ItemsReadBack(items: seq<Json>, ascii: bool, rest: string)
    requires items != [] && forall i :: 0 <= i < |items| ==> Readable(items[i])
    ensures ReadItems(EncodeItems(items, ascii) + ([']'] + rest)) == Some((items, rest))
    decreases items, 0
  {
    hide Encode, EncodeItems, ReadValue, ReadItems;
    var close := [']'] + rest;
    var more := EncodeItems(items[1..], ascii) + close;
    var tail := if |items| == 1 then close else [','] + more;
    ItemsText(items, ascii, close);
    ValueReadsBack(items[0], ascii, tail);
    if |items| > 1 {
      ItemsReadBack(items[1..], ascii, rest);
    }
    ItemsRound(Encode(items[0], ascii) + tail, items[0], more, rest);
    assert if |items| == 1 then items == [items[0]] else items == [items[0]] + items[1..];
  }

  /** The text of a list, split after its first value. */
  lemma {:induction false} ItemsText(items: seq<Json>, ascii: bool, close: string)
    requires items != []
    ensures EncodeItems(items, ascii) + close ==
            Encode(items[0], ascii) + (if |items| == 1 then close else [','] + (EncodeItems(items[1..], ascii) + close))
  {
    var x, more := Encode(items[0], ascii), EncodeItems(items[1..], ascii);
    if |items| == 1 {
      assert items[1..] == [];
      assert EncodeItems(items, ascii) == x;
    } else {
      hide Encode;
      assert EncodeItems(items, ascii) == x + ([','] + more);
      hide EncodeItems;
      assert (x + ([','] + more)) + close == x + ([','] + (more + close));
    }
  }

  lemma {:induction false} ObjectReadsBack(fields: seq<Field>, ascii: bool, rest: string)
    requires forall i :: 0 <= i < |fields| ==> Readable(fields[i].value)
    ensures ReadValue(Encode(JObj(fields), ascii) + rest) == Some((JObj(fields), rest))
    decreases fields, 1
  {
    var inner := EncodeFields(fields, ascii) + (['}'] + rest);
    assert Encode(JObj(fields), ascii) + rest == ['{'] + inner;
    if fields == [] {
      assert inner == ['}'] + rest;
      ObjectRound(inner, rest);
    } else {
      hide Encode, EncodeFields, ReadFields, ReadValue;
      FieldsReadBack(fields, ascii, rest);
      FieldsStart(fields, ascii);
      ObjectRound(inner, rest);
    }
  }

  /** The reader of objects. */
  lemma {:induction false} ObjectRound(inner: string, rest: string)
    ensures inner == ['}'] + rest ==> ReadValue(['{'] + inner) == Some((JObj([]), rest))
    ensures inner != [] && inner[0] == '"' && ReadFields(inner).Some? ==>
              ReadValue(['{'] + inner) == Some((JObj(ReadFields(inner).value.0), ReadFields(inner).value.1))
  {
    hide ReadFields, ReadItems, Unescape, TokenLength;
    var s := ['{'] + inner;
    assert s[1..] == inner;
    assert inner == ['}'] + rest ==> s[2..] == rest;
  }

  lemma {:induction false} FieldsStart(fields: seq<Field>, ascii: bool)
    requires fields != []
    ensures EncodeFields(fields, ascii) != [] && EncodeFields(fields, ascii)[0] == '"'
  {
  }

  /** One field in front of anything. */
  lemma {:induction false} FieldReadsBack(f: Field, ascii: bool, tail: string)
    requires Readable(f.value) && Ends(tail)
    requires ReadValue(Encode(f.value, ascii) + tail) == Some((f.value, tail))
    ensures ReadField(Quoted(f.key, ascii) + ([':'] + (Encode(f.value, ascii) + tail))) == Some((f, tail))
  {
    hide Encode, ReadValue, Quoted, Unescape, Readable;
    var value := Encode(f.value, ascii) + tail;
    QuotedIsText(f.key, ascii, [':'] + value);
    assert ([':'] + value)[1..] == value;
  }

  /** One round of the reader of fields. */
  lemma {:induction false} FieldsRound(s: string, f: Field, more: string, rest: string)
    ensures ReadField(s) == Some((f, ['}'] + rest)) ==> ReadFields(s) == Some(([f], rest))
    ensures ReadField(s) == Some((f, [','] + more)) && ReadFields(more).Some? ==>
              ReadFields(s) == Some(([f] + ReadFields(more).value.0, ReadFields(more).value.1))
  {
    hide ReadField;
    assert (['}'] + rest)[1..] == rest && ([','] + more)[1..] == more;
  }

  lemma {:induction false} FieldsReadBack(fields: seq<Field>, ascii: bool, rest: string)
    requires fields != [] && forall i :: 0 <= i < |fields| ==> Readable(fields[i].value)
    ensures ReadFields(EncodeFields(fields, ascii) + (['}'] + rest)) == Some((fields, rest))
    decreases fields, 0
  {
    hide Encode, EncodeFields, ReadValue, Quoted, Unescape, ReadField, ReadFields;
    var close := ['}'] + rest;
    var more := EncodeFields(fields[1..], ascii) + close;
    var tail := if |fields| == 1 then close else [','] + more;
    FieldsText(fields, ascii, close);
    ValueReadsBack(fields[0].value, ascii, tail);
    FieldReadsBack(fields[0], ascii, tail);
    if |fields| > 1 {
      FieldsReadBack(fields[1..], ascii, rest);
    }
    FieldsRound(Quoted(fields[0].key, ascii) + ([':'] + (Encode(fields[0].value, ascii) + tail)), fields[0], more, rest);
    assert if |fields| == 1 then fields == [fields[0]] else fields == [fields[0]] + fields[1..];
  }

  /** The text of fields, split after the first one's value. */
  lemma {:induction false} FieldsText(fields: seq<Field>, ascii: bool, close: string)
    requires fields != []
    ensures EncodeFields(fields, ascii) + close ==
            Quoted(fields[0].key, ascii) + ([':'] + (Encode(fields[0].value, ascii)
            + (if |fields| == 1 then close else [','] + (EncodeFields(fields[1..], ascii) + close))))
  {
    var k, x, more := Quoted(fields[0].key, ascii), Encode(fields[0].value, ascii), EncodeFields(fields[1..], ascii);
    hide Encode, Quoted;
    if |fields| == 1 {
      assert fields[1..] == [];
      assert x + ([] + []) == x;
      assert EncodeFields(fields, ascii) == k + ([':'] + x);
      assert (k + ([':'] + x)) + close == k + ([':'] + (x + close));
    } else {
      assert EncodeFields(fields, ascii) == k + ([':'] + (x + ([','] + more)));
      hide EncodeFields;
      Shift(k, [':'], x, [','], more, close);
    }
  }

  lemma {:induction false} Shift(k: string, a: string, x: string, b: string, more: string, close: string)
    ensures (k + (a + (x + (b + more)))) + close == k + (a + (x + (b + (more + close))))
  {
    assert (b + more) + close == b + (more + close);
    assert (x + (b + more)) + close == x + ((b + more) + close);
    assert (a + (x + (b + more))) + close == a + ((x + (b + more)) + close);
    assert (k + (a + (x + (b + more)))) + close == k + ((a + (x + (b + more))) + close);
  }
}
