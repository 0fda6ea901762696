/**
 * `application/x-www-form-urlencoded` as the URL Standard defines it in its section 5: the serializer works on the
 * bytes of a text, the parser on the bytes of the wire.
 */
module FormUrlencoded {
  import opened Basics
  import opened Utf8
  import Text

  type Field = (string, string)

  /** The bytes the serializer writes as they are: ASCII letters and digits, `*`, `-`, `.` and `_`. */
  predicate Plain(b: int) {
    || '0' as int <= b <= '9' as int
    || 'A' as int <= b <= 'Z' as int
    || 'a' as int <= b <= 'z' as int
    || b == '*' as int || b == '-' as int || b == '.' as int || b == '_' as int
  }

  /** The characters the serializer writes. None of them is `&`, `=` or `@`. */
  predicate OnWire(c: char) {
    Plain(c as int) || c == '+' || c == '%'
  }

  function HexDigit(n: int): (c: char)
    requires 0 <= n < 16
    ensures Plain(c as int)
  {
    if n < 10 then '0' + n as char else 'A' + (n - 10) as char
  }

  function HexValue(b: Byte): Option<int> {
    if '0' as int <= b <= '9' as int then Some(b - '0' as int)
    else if 'A' as int <= b <= 'F' as int then Some(b - 'A' as int + 10)
    else if 'a' as int <= b <= 'f' as int then Some(b - 'a' as int + 10)
    else None
  }

  function SerializeByte(b: Byte): (s: string)
    ensures |s| > 0
    ensures forall i :: 0 <= i < |s| ==> OnWire(s[i])
  {
    if b == ' ' as int then "+"
    else if Plain(b) then [b as char]
    else ['%', HexDigit(b / 16), HexDigit(b % 16)]
  }

  function SerializeBytes(bytes: seq<Byte>): (s: string)
    ensures forall i :: 0 <= i < |s| ==> OnWire(s[i])
    ensures s == "" <==> bytes == []
  {
    if bytes == [] then "" else SerializeByte(bytes[0]) + SerializeBytes(bytes[1..])
  }

  /** A name or a value as the serializer writes it. */
  function FormEncode(text: string): (s: string)
    ensures forall i :: 0 <= i < |s| ==> OnWire(s[i])
    ensures s == "" <==> text == ""
  {
    SerializeBytes(Encode(text))
  }

  /** `+` is a space, `%` and two hexadecimal digits are a byte, and anything else is itself. */
  function PercentDecode(bytes: seq<Byte>): seq<Byte>
    decreases |bytes|
  {
    if bytes == [] then []
    else if bytes[0] == '+' as int then [' ' as int] + PercentDecode(bytes[1..])
    else if bytes[0] == '%' as int && |bytes| >= 3 && HexValue(bytes[1]).Some? && HexValue(bytes[2]).Some? then
      [HexValue(bytes[1]).value * 16 + HexValue(bytes[2]).value] + PercentDecode(bytes[3..])
    else [bytes[0]] + PercentDecode(bytes[1..])
  }

  function IndexOfByte(bytes: seq<Byte>, b: Byte): (i: int)
    ensures -1 <= i < |bytes|
    ensures i == -1 <==> b !in bytes
    ensures i >= 0 ==> bytes[i] == b && b !in bytes[..i]
  {
    if bytes == [] then -1
    else if bytes[0] == b then 0
    else
      var j := IndexOfByte(bytes[1..], b);
      if j == -1 then -1 else
        assert bytes[..j + 1] == [bytes[0]] + bytes[1..][..j];
        j + 1
  }

  lemma {:induction false} FirstByte(before: seq<Byte>, b: Byte, after: seq<Byte>)
    requires b !in before
    ensures IndexOfByte(before + [b] + after, b) == |before|
  {
    assert (before + [b] + after)[|before|] == b;
  }

  function ParseField(bytes: seq<Byte>): Field {
    var equals := IndexOfByte(bytes, '=' as int);
    if equals == -1 then (Decode(PercentDecode(bytes)), "")
    else (Decode(PercentDecode(bytes[..equals])), Decode(PercentDecode(bytes[equals + 1..])))
  }

  /** The fields of a wire: the pieces between `&`, an empty piece being none. */
  function ParseBytes(bytes: seq<Byte>): seq<Field>
    decreases |bytes|
  {
    var at := IndexOfByte(bytes, '&' as int);
    var piece := if at == -1 then bytes else bytes[..at];
    var rest := if at == -1 then [] else ParseBytes(bytes[at + 1..]);
    if piece == [] then rest else [ParseField(piece)] + rest
  }

  function Parse(wire: string): seq<Field> {
    ParseBytes(Encode(wire))
  }

  /** `new URLSearchParams` of a text, section 6.2: one question mark before it is not part of it. */
  function SearchParams(text: string): seq<Field> {
    Parse(if text != "" && text[0] == '?' then text[1..] else text)
  }

  /** A field on the wire; one without a name still has its `=`. */
  function FieldText(field: Field): string {
    FormEncode(field.0) + "=" + FormEncode(field.1)
  }

  function FieldTexts(fields: seq<Field>): (texts: seq<string>)
    ensures |texts| == |fields| && forall k :: 0 <= k < |fields| ==> texts[k] == FieldText(fields[k])
  {
    seq(|fields|, k requires 0 <= k < |fields| => FieldText(fields[k]))
  }

  // ---- The parser inverts the serializer ----

  lemma {:induction false} EncodeAscii(s: string)
    requires forall i :: 0 <= i < |s| ==> s[i] as int < 0x80
    ensures |Encode(s)| == |s| && forall i :: 0 <= i < |s| ==> Encode(s)[i] == s[i] as int
  {
    if s != [] {
      EncodeAscii(s[1..]);
    }
  }

  lemma {:induction false} DecodesByte(b: Byte, rest: seq<Byte>)
    ensures PercentDecode(Encode(SerializeByte(b)) + rest) == [b] + PercentDecode(rest)
  {
    var s := SerializeByte(b);
    EncodeAscii(s);
    var bytes := Encode(s) + rest;
    assert bytes[|s|..] == rest;
    if b != ' ' as int && !Plain(b) {
      assert HexValue(HexDigit(b / 16) as int) == Some(b / 16);
      assert HexValue(HexDigit(b % 16) as int) == Some(b % 16);
    }
  }

  lemma {:induction false} DecodesBytes(bytes: seq<Byte>)
    ensures PercentDecode(Encode(SerializeBytes(bytes))) == bytes
  {
    if bytes != [] {
      var (first, rest) := (SerializeByte(bytes[0]), SerializeBytes(bytes[1..]));
      EncodeConcat(first, rest);
      DecodesByte(bytes[0], Encode(rest));
      DecodesBytes(bytes[1..]);
    }
  }

  /** What the serializer wrote of a text is that text again. */
  lemma {:induction false} DecodesText(text: string)
    ensures Decode(PercentDecode(Encode(FormEncode(text)))) == text
    ensures '&' as int !in Encode(FormEncode(text)) && '=' as int !in Encode(FormEncode(text))
  {
    hide Decode, PercentDecode, Encode, SerializeBytes;
    DecodesBytes(Encode(text));
    Utf8.RoundTrip(text);
    EncodeAscii(FormEncode(text));
  }

  lemma {:induction false} FieldBytes(field: Field)
    ensures Encode(FieldText(field)) == Encode(FormEncode(field.0)) + ['=' as int] + Encode(FormEncode(field.1))
    ensures ParseField(Encode(FieldText(field))) == field
    ensures '&' as int !in Encode(FieldText(field)) && Encode(FieldText(field)) != []
  {
    hide Decode, PercentDecode, Encode, FormEncode, IndexOfByte;
    var (name, value) := (Encode(FormEncode(field.0)), Encode(FormEncode(field.1)));
    EncodeConcat(FormEncode(field.0) + "=", FormEncode(field.1));
    EncodeConcat(FormEncode(field.0), "=");
    assert Encode("=") == ['=' as int] by { EncodeAscii("="); }
    DecodesText(field.0);
    DecodesText(field.1);
    FirstByte(name, '=' as int, value);
    assert (name + ['=' as int] + value)[..|name|] == name;
    assert (name + ['=' as int] + value)[|name| + 1..] == value;
  }

  lemma {:induction false} ParsesFirst(first: seq<Byte>, rest: seq<Byte>)
    requires first != [] && '&' as int !in first
    ensures ParseBytes(first) == [ParseField(first)]
    ensures ParseBytes(first + ['&' as int] + rest) == [ParseField(first)] + ParseBytes(rest)
  {
    hide ParseField, IndexOfByte;
    var bytes := first + ['&' as int] + rest;
    FirstByte(first, '&' as int, rest);
    assert bytes[..|first|] == first && bytes[|first| + 1..] == rest;
  }

  lemma {:induction false} EncodeJoin(first: string, rest: string)
    ensures Encode(first + "&" + rest) == Encode(first) + ['&' as int] + Encode(rest)
  {
    hide Encode;
    EncodeConcat(first + "&", rest);
    EncodeConcat(first, "&");
    assert Encode("&") == ['&' as int] by { EncodeAscii("&"); }
  }

  /** The parser reads back every list of fields, the nameless and the empty ones included, in its order. */
  lemma {:induction false} RoundTrip(fields: seq<Field>)
    ensures Parse(Text.Join(FieldTexts(fields), "&")) == fields
  {
    hide Encode, FieldText, ParseField;
    if fields == [] {
      assert Encode("") == [] by { EncodeAscii(""); }
      assert FieldTexts(fields) == [];
    } else {
      var texts := FieldTexts(fields);
      var rest := Text.Join(texts[1..], "&");
      FieldBytes(fields[0]);
      assert texts[1..] == FieldTexts(fields[1..]);
      ParsesFirst(Encode(texts[0]), Encode(rest));
      if |fields| == 1 {
        assert fields == [fields[0]];
      } else {
        RoundTrip(fields[1..]);
        EncodeJoin(texts[0], rest);
        assert fields == [fields[0]] + fields[1..];
      }
    }
  }

  lemma {:induction false} NoMarkWritten(fields: seq<Field>)
    ensures var text := Text.Join(FieldTexts(fields), "&"); text != "" ==> text[0] != '?'
  {
    if fields != [] {
      var texts := FieldTexts(fields);
      var name := FormEncode(fields[0].0);
      assert texts[0] == name + "=" + FormEncode(fields[0].1);
      assert texts[0][0] == if name == "" then '=' else name[0];
    }
  }

  /** What is read as search parameters is the same: the serializer writes no question mark. */
  lemma {:induction false} SearchParamsRoundTrip(fields: seq<Field>)
    ensures SearchParams(Text.Join(FieldTexts(fields), "&")) == fields
  {
    hide FieldText, Parse, FormEncode;
    NoMarkWritten(fields);
    RoundTrip(fields);
  }
}
