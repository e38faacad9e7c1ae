/**
 * Text in URLs: percent-encoding (section 2.1 of RFC 3986), as `encodeURIComponent` and `URLSearchParams`
 * write it, and reading it back.
 *
 * Strings are sequences of Unicode scalar values; a lone surrogate, on which `encodeURIComponent`
 * throws, cannot be written.
 */
module UrlText {
  import opened Prelude

  // ----- UTF-8 -----

  function Utf8(c: char): (bytes: seq<int>)
    ensures IsBytes(bytes)
  {
    var n := c as int;
    if n < 0x80 then [n]
    else if n < 0x800 then [0xC0 + n / 0x40, 0x80 + n % 0x40]
    else if n < 0x10000 then [0xE0 + n / 0x1000, 0x80 + n / 0x40 % 0x40, 0x80 + n % 0x40]
    else [0xF0 + n / 0x40000, 0x80 + n / 0x1000 % 0x40, 0x80 + n / 0x40 % 0x40, 0x80 + n % 0x40]
  }

  function Utf8Text(text: string): (bytes: seq<int>)
    ensures IsBytes(bytes)
  {
    if text == "" then [] else Utf8(text[0]) + Utf8Text(text[1..])
  }

  /** How many bytes the character that starts with this byte has. */
  function Width(lead: int): nat {
    if lead < 0x80 then 1 else if lead < 0xE0 then 2 else if lead < 0xF0 then 3 else 4
  }

  function CodePoint(bytes: seq<int>): int
    requires bytes != [] && |bytes| >= Width(bytes[0])
  {
    var b := bytes[0];
    if b < 0x80 then b
    else if b < 0xE0 then (b - 0xC0) * 0x40 + (bytes[1] - 0x80)
    else if b < 0xF0 then (b - 0xE0) * 0x1000 + (bytes[1] - 0x80) * 0x40 + (bytes[2] - 0x80)
    else (b - 0xF0) * 0x40000 + (bytes[1] - 0x80) * 0x1000 + (bytes[2] - 0x80) * 0x40 + (bytes[3] - 0x80)
  }

  predicate IsScalar(n: int) {
    0 <= n < 0xD800 || 0xE000 <= n < 0x11_0000
  }

  function TextOfBytes(bytes: seq<int>): Option<string> {
    if bytes == [] then Some("")
    else if |bytes| < Width(bytes[0]) || !IsScalar(CodePoint(bytes)) then None
    else
      var rest := TextOfBytes(bytes[Width(bytes[0])..]);
      if rest.None? then None else Some([CodePoint(bytes) as char] + rest.value)
  }

  lemma Utf8Reads(c: char, rest: seq<int>)
    ensures
      var bytes := Utf8(c) + rest;
      && Width(bytes[0]) == |Utf8(c)| && CodePoint(bytes) == c as int
      && bytes[Width(bytes[0])..] == rest
  {
    var n := c as int;
    assert n < 0x11_0000;
    Digits(n);
  }

  lemma Digits(n: int)
    requires 0 <= n < 0x11_0000
    ensures n == n / 0x40 * 0x40 + n % 0x40
    ensures n / 0x40 == n / 0x1000 * 0x40 + n / 0x40 % 0x40
    ensures n / 0x1000 == n / 0x40000 * 0x40 + n / 0x1000 % 0x40
  {}

  lemma {:induction false} Utf8TextReads(text: string)
    ensures TextOfBytes(Utf8Text(text)) == Some(text)
  {
    if text != "" {
      Utf8TextReads(text[1..]);
      Utf8Reads(text[0], Utf8Text(text[1..]));
      assert IsScalar(text[0] as int) && (text[0] as int) as char == text[0];
      assert text == [text[0]] + text[1..];
    }
  }

  // ----- Percent-encoding -----

  const HEX := "0123456789ABCDEF"

  function PercentBytes(bytes: seq<int>): string
    requires IsBytes(bytes)
  {
    if bytes == [] then "" else Percent(bytes[0]) + PercentBytes(bytes[1..])
  }

  function Percent(b: int): string
    requires 0 <= b < 256
  {
    ['%', HEX[b / 16], HEX[b % 16]]
  }

  predicate Alphanumeric(c: char) {
    'a' <= c <= 'z' || 'A' <= c <= 'Z' || '0' <= c <= '9'
  }

  /** The characters that stand for themselves, in a form (`URLSearchParams`) and in a component. */
  predicate Kept(c: char, form: bool) {
    Alphanumeric(c) || (if form then c in "*-._" else c in "-_.!~*'()")
  }

  function EncodeChar(c: char, form: bool): string {
    if Kept(c, form) then [c] else if form && c == ' ' then "+" else PercentBytes(Utf8(c))
  }

  function Encode(text: string, form: bool): string {
    if text == "" then "" else EncodeChar(text[0], form) + Encode(text[1..], form)
  }

  function EncodeURIComponent(text: string): string {
    Encode(text, false)
  }

  /** Neither what means something to a template or a replacement pattern, nor what separates the parts of a URL. */
  predicate Plain(s: string) {
    forall c :: c in s ==> !Special(c)
  }

  predicate Special(c: char) {
    c == '{' || c == '}' || c == '$' || c == '&' || c == '=' || c == '?' || c == '/' || c == '#'
  }

  lemma {:induction false} PercentBytesPlain(bytes: seq<int>)
    requires IsBytes(bytes)
    ensures Plain(PercentBytes(bytes))
  {
    if bytes != [] {
      HexPlain(bytes[0] / 16);
      HexPlain(bytes[0] % 16);
      PercentBytesPlain(bytes[1..]);
    }
  }

  lemma HexPlain(d: int)
    requires 0 <= d < 16
    ensures !Special(HEX[d])
  {}

  lemma {:induction false} EncodedPlain(text: string, form: bool)
    ensures Plain(Encode(text, form))
  {
    if text != "" {
      PercentBytesPlain(Utf8(text[0]));
      EncodedPlain(text[1..], form);
    }
  }

  function HexValue(c: char): Option<int> {
    if '0' <= c <= '9' then Some(c as int - '0' as int)
    else if 'A' <= c <= 'F' then Some(c as int - 'A' as int + 10)
    else if 'a' <= c <= 'f' then Some(c as int - 'a' as int + 10)
    else None
  }

  /** The bytes that encoded text stands for. */
  function Bytes(s: string, form: bool): seq<int>
    decreases |s|
  {
    if s == "" then []
    else if s[0] == '%' && |s| >= 3 && HexValue(s[1]).Some? && HexValue(s[2]).Some? then
      [HexValue(s[1]).value * 16 + HexValue(s[2]).value] + Bytes(s[3..], form)
    else if form && s[0] == '+' then [0x20] + Bytes(s[1..], form)
    else Utf8(s[0]) + Bytes(s[1..], form)
  }

  lemma HexReads(d: int)
    requires 0 <= d < 16
    ensures HexValue(HEX[d]) == Some(d)
  {}

  lemma {:induction false} PercentReads(bytes: seq<int>, rest: string, form: bool)
    requires IsBytes(bytes)
    ensures Bytes(PercentBytes(bytes) + rest, form) == bytes + Bytes(rest, form)
  {
    if bytes == [] {
      assert PercentBytes(bytes) + rest == rest;
    } else {
      PercentReads(bytes[1..], rest, form);
      NextByteReads(bytes[0], bytes[1..], rest, form);
      assert bytes == [bytes[0]] + bytes[1..];
    }
  }

  lemma NextByteReads(b: int, bytes: seq<int>, rest: string, form: bool)
    requires 0 <= b < 256 && IsBytes(bytes)
    requires Bytes(PercentBytes(bytes) + rest, form) == bytes + Bytes(rest, form)
    ensures Bytes(PercentBytes([b] + bytes) + rest, form) == ([b] + bytes) + Bytes(rest, form)
  {
    var tail := PercentBytes(bytes);
    assert ([b] + bytes)[1..] == bytes;
    assert PercentBytes([b] + bytes) == Percent(b) + tail;
    ByteReads(b, tail + rest, form);
    Associate(Percent(b), tail, rest);
    Associate([b], bytes, Bytes(rest, form));
  }

  lemma ByteReads(b: int, rest: string, form: bool)
    requires 0 <= b < 256
    ensures Bytes(Percent(b) + rest, form) == [b] + Bytes(rest, form)
  {
    var s := Percent(b) + rest;
    HexReads(b / 16);
    HexReads(b % 16);
    assert s[0] == '%' && s[1] == HEX[b / 16] && s[2] == HEX[b % 16] && s[3..] == rest;
  }

  lemma CharReads(c: char, rest: string, form: bool)
    ensures Bytes(EncodeChar(c, form) + rest, form) == Utf8(c) + Bytes(rest, form)
  {
    if Kept(c, form) || (form && c == ' ') {
      assert (EncodeChar(c, form) + rest)[1..] == rest;
    } else {
      PercentReads(Utf8(c), rest, form);
    }
  }

  lemma {:induction false} EncodeReads(text: string, form: bool)
    ensures Bytes(Encode(text, form), form) == Utf8Text(text)
  {
    if text != "" {
      EncodeReads(text[1..], form);
      CharReads(text[0], Encode(text[1..], form), form);
    }
  }

  function Decode(s: string, form: bool): Option<string> {
    TextOfBytes(Bytes(s, form))
  }

  /** Encoded text reads back, in a component and in a form. */
  lemma DecodesEncoded(text: string, form: bool)
    ensures Decode(Encode(text, form), form) == Some(text)
  {
    EncodeReads(text, form);
    Utf8TextReads(text);
  }

  // ----- Query strings -----

  type Item = (string, string)

  function Field(item: Item): string {
    Encode(item.0, true) + "=" + Encode(item.1, true)
  }

  /** What a `URLSearchParams` turns into. */
  function Query(items: seq<Item>): string {
    if items == [] then ""
    else if |items| == 1 then Field(items[0])
    else Field(items[0]) + "&" + Query(items[1..])
  }

  function ReadField(s: string): Option<Item> {
    var i := Find(s, '=');
    if i == |s| then None
    else
      var name, value := Decode(s[..i], true), Decode(s[i + 1..], true);
      if name.None? || value.None? then None else Some((name.value, value.value))
  }

  /** The items between `&`. */
  function ReadQuery(s: string): Option<seq<Item>>
    decreases |s|
  {
    if s == "" then Some([])
    else
      var i := Find(s, '&');
      var item := ReadField(s[..i]);
      var rest := if i == |s| then Some([]) else ReadQuery(s[i + 1..]);
      if item.None? || rest.None? then None else Some([item.value] + rest.value)
  }

  lemma FieldReads(item: Item)
    ensures ReadField(Field(item)) == Some(item)
    ensures '&' !in Field(item) && '?' !in Field(item) && Field(item) != ""
  {
    var name, value := Encode(item.0, true), Encode(item.1, true);
    EncodedPlain(item.0, true);
    EncodedPlain(item.1, true);
    assert Special('&') && Special('?') && Special('=');
    SplitsAtEquals(name, value);
    DecodesEncoded(item.0, true);
    DecodesEncoded(item.1, true);
  }

  lemma SplitsAtEquals(name: string, value: string)
    requires '=' !in name
    ensures
      var s := name + "=" + value;
      Find(s, '=') == |name| < |s| && s[..|name|] == name && s[|name| + 1..] == value
  {
    var s := name + "=" + value;
    assert s[..|name|] == name && s[|name|] == '=';
    FindUnique(s, '=', |name|);
  }

  lemma LastReads(field: string)
    requires '&' !in field && field != ""
    ensures ReadQuery(field) == if ReadField(field).None? then None else Some([ReadField(field).value])
  {
    assert Find(field, '&') == |field|;
    assert field[..|field|] == field;
    if ReadField(field).Some? { assert [ReadField(field).value] + [] == [ReadField(field).value]; }
  }

  lemma NextReads(field: string, rest: string)
    requires '&' !in field && ReadField(field).Some? && ReadQuery(rest).Some?
    ensures ReadQuery(field + "&" + rest) == Some([ReadField(field).value] + ReadQuery(rest).value)
  {
    var s := field + "&" + rest;
    assert s[..|field|] == field && s[|field| + 1..] == rest;
    FindUnique(s, '&', |field|);
  }

  /** A written query reads back as the same items, in order. */
  lemma {:induction false} QueryReads(items: seq<Item>)
    ensures ReadQuery(Query(items)) == Some(items)
    ensures '?' !in Query(items) && (Query(items) == "" <==> items == [])
  {
    if items != [] {
      FieldReads(items[0]);
      if |items| == 1 {
        LastReads(Field(items[0]));
        assert items == [items[0]];
      } else {
        QueryReads(items[1..]);
        NextReads(Field(items[0]), Query(items[1..]));
        assert items == [items[0]] + items[1..];
      }
    }
  }

  // ----- A query behind a path -----

  function WithQuery(url: string, items: seq<Item>): string {
    if items == [] then url else url + "?" + Query(items)
  }

  /** The path before the first question mark and the items behind it. */
  function ReadUrl(url: string): (string, Option<seq<Item>>) {
    var i := Find(url, '?');
    (url[..i], if i == |url| then Some([]) else ReadQuery(url[i + 1..]))
  }

  /** Behind a path without a question mark the query reads back, and so does the path. */
  lemma WithQueryReads(path: string, items: seq<Item>)
    requires '?' !in path
    ensures ReadUrl(WithQuery(path, items)) == (path, Some(items))
  {
    var url := WithQuery(path, items);
    QueryReads(items);
    if items == [] {
      assert Find(path, '?') == |path| && path[..|path|] == path;
    } else {
      assert url[..|path|] == path && url[|path| + 1..] == Query(items);
      FindUnique(url, '?', |path|);
    }
  }
}
