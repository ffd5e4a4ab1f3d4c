/** JSON values, the text json.dumps writes for them and the size of that text in UTF-8. */
module Json {
  import opened Text

  /** A number is kept as the text that json.dumps writes for it; an object in its own key order. */
  datatype Json =
    | JNull
    | JBool(b: bool)
    | JNum(text: string)
    | JStr(s: string)
    | JArr(items: seq<Json>)
    | JObj(fields: seq<Field>)

  datatype Field = Field(key: string, value: Json)

  /******* Encoding *******/

  function HexDigit(n: nat): char
    requires n < 16
  {
    if n < 10 then '0' + n as char else 'a' + (n - 10) as char
  }

  function UnicodeEscape(n: nat): (r: string)
    requires n < 0x10000
    ensures |r| == 6
  {
    ['\\', 'u', HexDigit(n / 4096), HexDigit(n / 256 % 16), HexDigit(n / 16 % 16), HexDigit(n % 16)]
  }

  /** Section 7 of RFC 8259 as json.dumps applies it; `ascii` is ensure_ascii. */
  function Escape(c: char, ascii: bool): string {
    var n := c as int;
    if c == '"' then "\\\""
    else if c == '\\' then "\\\\"
    else if c == '\n' then "\\n"
    else if c == '\r' then "\\r"
    else if c == '\t' then "\\t"
    else if n == 8 then "\\b"
    else if n == 12 then "\\f"
    else if n < 32 then UnicodeEscape(n)
    else if ascii && n >= 0x10000 then
      UnicodeEscape(0xD800 + (n - 0x10000) / 1024) + UnicodeEscape(0xDC00 + (n - 0x10000) % 1024)
    else if ascii && n > 126 then UnicodeEscape(n)
    else [c]
  }

  function Escaped(s: string, ascii: bool): string {
    if s == "" then "" else Escape(s[0], ascii) + Escaped(s[1..], ascii)
  }

  function Quoted(s: string, ascii: bool): string {
    "\"" + Escaped(s, ascii) + "\""
  }

  function Encode(j: Json, ascii: bool): string
    decreases j, 1
  {
    match j
    case JNull => "null"
    case JBool(b) => if b then "true" else "false"
    case JNum(text) => text
    case JStr(s) => Quoted(s, ascii)
    case JArr(items) => "[" + EncodeItems(items, ascii) + "]"
    case JObj(fields) => "{" + EncodeFields(fields, ascii) + "}"
  }

  function EncodeItems(items: seq<Json>, ascii: bool): string
    decreases items, 0
  {
    if items == [] then ""
    else Encode(items[0], ascii) + ((if |items| == 1 then "" else ",") + EncodeItems(items[1..], ascii))
  }

  function EncodeFields(fields: seq<Field>, ascii: bool): string
    decreases fields, 0
  {
    if fields == [] then ""
    else Quoted(fields[0].key, ascii) + (":" + (Encode(fields[0].value, ascii)
         + ((if |fields| == 1 then "" else ",") + EncodeFields(fields[1..], ascii))))
  }

  /******* Size *******/

  /** Bytes on the wire. */
  function Width(s: string): nat {
    |Utf8(s)|
  }

  lemma {:induction false} WidthConcat(a: string, b: string)
    ensures Width(a + b) == Width(a) + Width(b)
  {
    Utf8Concat(a, b);
  }

  lemma {:induction false} WidthOfAscii(s: string)
    requires forall i :: 0 <= i < |s| ==> s[i] as int < 128
    ensures Width(s) == |s|
  {
    if s != "" {
      WidthOfAscii(s[1..]);
    }
  }

  /** The bytes of an escaped character. */
  function EscapeWidth(c: char, ascii: bool): nat {
    var n := c as int;
    if c == '"' || c == '\\' || c == '\n' || c == '\r' || c == '\t' || n == 8 || n == 12 then 2
    else if n < 32 then 6
    else if n < 127 then 1
    else if ascii then (if n < 0x10000 then 6 else 12)
    else if n < 0x80 then 1
    else if n < 0x800 then 2
    else if n < 0x10000 then 3
    else 4
  }

  lemma {:induction false} EscapeWidthIs(c: char, ascii: bool)
    ensures Width(Escape(c, ascii)) == EscapeWidth(c, ascii)
  {
    var e := Escape(c, ascii);
    assert Utf8([c]) == Utf8Char(c) + Utf8([]) == Utf8Char(c);
    if e != [c] {
      WidthOfAscii(e);
    }
  }

  /** The size of an encoded value, computed over its structure. */
  function EscapedSize(s: string, ascii: bool): nat {
    if s == "" then 0 else EscapeWidth(s[0], ascii) + EscapedSize(s[1..], ascii)
  }

  function Size(j: Json, ascii: bool): nat
    decreases j, 1
  {
    match j
    case JNull => 4
    case JBool(b) => if b then 4 else 5
    case JNum(text) => Width(text)
    case JStr(s) => 2 + EscapedSize(s, ascii)
    case JArr(items) => 2 + ItemsSize(items, ascii)
    case JObj(fields) => 2 + FieldsSize(fields, ascii)
  }

  function ItemsSize(items: seq<Json>, ascii: bool): nat
    decreases items, 0
  {
    if items == [] then 0
    else Size(items[0], ascii) + (if |items| == 1 then 0 else 1) + ItemsSize(items[1..], ascii)
  }

  function FieldsSize(fields: seq<Field>, ascii: bool): nat
    decreases fields, 0
  {
    if fields == [] then 0
    else 2 + EscapedSize(fields[0].key, ascii) + 1 + Size(fields[0].value, ascii)
         + (if |fields| == 1 then 0 else 1) + FieldsSize(fields[1..], ascii)
  }

  lemma {:induction false} EscapedIs(s: string, ascii: bool)
    ensures Width(Escaped(s, ascii)) == EscapedSize(s, ascii)
  {
    if s != "" {
      EscapedIs(s[1..], ascii);
      EscapeWidthIs(s[0], ascii);
      WidthConcat(Escape(s[0], ascii), Escaped(s[1..], ascii));
    }
  }

  lemma {:induction false} QuotedIs(s: string, ascii: bool)
    ensures Width(Quoted(s, ascii)) == 2 + EscapedSize(s, ascii)
  {
    EscapedIs(s, ascii);
    WidthOfAscii("\"");
    WidthConcat("\"" + Escaped(s, ascii), "\"");
    WidthConcat("\"", Escaped(s, ascii));
  }

  lemma {:induction false} ItemsSizeIs(items: seq<Json>, ascii: bool)
    ensures Width(EncodeItems(items, ascii)) == ItemsSize(items, ascii)
    decreases items, 0
  {
    if items != [] {
      var sep := if |items| == 1 then "" else ",";
      var rest := EncodeItems(items[1..], ascii);
      SizeIs(items[0], ascii);
      ItemsSizeIs(items[1..], ascii);
      WidthOfAscii(sep);
      WidthConcat(sep, rest);
      WidthConcat(Encode(items[0], ascii), sep + rest);
    }
  }

  lemma {:induction false} FieldsSizeIs(fields: seq<Field>, ascii: bool)
    ensures Width(EncodeFields(fields, ascii)) == FieldsSize(fields, ascii)
    decreases fields, 0
  {
    if fields != [] {
      var sep := if |fields| == 1 then "" else ",";
      var rest := EncodeFields(fields[1..], ascii);
      var value := Encode(fields[0].value, ascii);
      QuotedIs(fields[0].key, ascii);
      SizeIs(fields[0].value, ascii);
      FieldsSizeIs(fields[1..], ascii);
      WidthOfAscii(sep);
      WidthOfAscii(":");
      WidthConcat(sep, rest);
      WidthConcat(value, sep + rest);
      WidthConcat(":", value + (sep + rest));
      WidthConcat(Quoted(fields[0].key, ascii), ":" + (value + (sep + rest)));
    }
  }

  /** Size is the number of UTF-8 bytes of the encoded text. */
  lemma {:induction false} SizeIs(j: Json, ascii: bool)
    ensures Width(Encode(j, ascii)) == Size(j, ascii)
    decreases j, 1
  {
    match j
    case JNull => WidthOfAscii("null");
    case JBool(b) => WidthOfAscii(if b then "true" else "false");
    case JNum(text) =>
    case JStr(s) => QuotedIs(s, ascii);
    case JArr(items) =>
      var body := EncodeItems(items, ascii);
      ItemsSizeIs(items, ascii);
      WidthOfAscii("[");
      WidthOfAscii("]");
      WidthConcat("[", body);
      WidthConcat("[" + body, "]");
    case JObj(fields) =>
      var body := EncodeFields(fields, ascii);
      FieldsSizeIs(fields, ascii);
      WidthOfAscii("{");
      WidthOfAscii("}");
      WidthConcat("{", body);
      WidthConcat("{" + body, "}");
  }

  /******* Prefixes *******/

  lemma {:induction false} EscapedSizeConcat(a: string, b: string, ascii: bool)
    ensures EscapedSize(a + b, ascii) == EscapedSize(a, ascii) + EscapedSize(b, ascii)
  {
    if a == "" {
      assert a + b == b;
    } else {
      EscapedSizeConcat(a[1..], b, ascii);
      assert (a + b)[1..] == a[1..] + b;
    }
  }

  lemma {:induction false} EscapedSizeMonotone(s: string, m: nat, n: nat, ascii: bool)
    requires m <= n <= |s|
    ensures EscapedSize(s[..m], ascii) <= EscapedSize(s[..n], ascii)
  {
    assert s[..n] == s[..m] + s[m..n];
    EscapedSizeConcat(s[..m], s[m..n], ascii);
  }

  lemma {:induction false} Assoc(a: string, b: string, c: string)
    ensures a + (b + c) == (a + b) + c
  {
  }

  lemma {:induction false} EscapedConcat(a: string, b: string, ascii: bool)
    ensures Escaped(a + b, ascii) == Escaped(a, ascii) + Escaped(b, ascii)
  {
    if a == "" {
      assert a + b == b;
    } else {
      EscapedConcat(a[1..], b, ascii);
      assert (a + b)[1..] == a[1..] + b;
      Assoc(Escape(a[0], ascii), Escaped(a[1..], ascii), Escaped(b, ascii));
    }
  }

  /** A character never grows by more than six bytes for each of its own. */
  lemma {:induction false} EscapeGrowth(c: char, ascii: bool)
    ensures 1 <= EscapeWidth(c, ascii) <= 6 * |Utf8Char(c)|
  {
  }

  lemma {:induction false} EscapedGrowth(s: string, ascii: bool)
    ensures |s| <= EscapedSize(s, ascii) <= 6 * Width(s)
  {
    if s != "" {
      EscapeGrowth(s[0], ascii);
      EscapedGrowth(s[1..], ascii);
    }
  }

  /** Text that needs no escaping. */
  predicate Plain(s: string) {
    forall i :: 0 <= i < |s| ==> ' ' <= s[i] <= '~' && s[i] != '"' && s[i] != '\\'
  }

  lemma {:induction false} PlainSize(s: string, ascii: bool)
    requires Plain(s)
    ensures EscapedSize(s, ascii) == |s|
  {
    if s != "" {
      assert EscapeWidth(s[0], ascii) == 1;
      PlainSize(s[1..], ascii);
    }
  }
}
