/** A JSON decoder, the inverse of `Json.Text`: decoding the text of a
    value gives back its canonical form. It shows that JSON text tells apart
    exactly the values `Json.Canon` tells apart. */
module JsonParse {
  import opened Wrappers
  import opened Json
  import opened JsonFacts

  /** After a value: the end of the input, or a character that cannot
      continue a number. */
  predicate Delimited(rest: string)
  {
    |rest| == 0 || !IsDigit(rest[0])
  }

  function HexValue(c: char): (r: Option<nat>)
    ensures r.Some? ==> r.value < 16
  {
    if IsDigit(c) then Some(c as int - '0' as int)
    else if 'a' <= c <= 'f' then Some(c as int - 'a' as int + 10)
    else if 'A' <= c <= 'F' then Some(c as int - 'A' as int + 10)
    else None
  }

  /** Decodes the escape sequence after a backslash: the character it
      stands for and how many characters it takes. */
  function Unescape(s: string): (r: Option<(char, nat)>)
    ensures r.Some? ==> 1 <= r.value.1 <= |s|
  {
    if |s| == 0 then None
    else if s[0] == '"' then Some(('"', 1))
    else if s[0] == '\\' then Some(('\\', 1))
    else if s[0] == '/' then Some(('/', 1))
    else if s[0] == 'b' then Some((8 as char, 1))
    else if s[0] == 't' then Some((9 as char, 1))
    else if s[0] == 'n' then Some((10 as char, 1))
    else if s[0] == 'f' then Some((12 as char, 1))
    else if s[0] == 'r' then Some((13 as char, 1))
    else if s[0] == 'u' && |s| >= 5 then
      match (HexValue(s[1]), HexValue(s[2]), HexValue(s[3]), HexValue(s[4]))
      case (Some(a), Some(b), Some(c), Some(d)) =>
        var code := ((a * 16 + b) * 16 + c) * 16 + d;
        if code < 0xD800 || 0xE000 <= code then Some((code as char, 5)) else None
      case _ => None
    else None
  }

  /** The characters of a string literal up to its closing quote, and the
      input after that quote. */
  function ParseChars(s: string): (r: Option<(string, string)>)
    ensures r.Some? ==> |r.value.1| < |s|
    decreases |s|
  {
    if |s| == 0 then None
    else if s[0] == '"' then Some(([], s[1..]))
    else if s[0] == '\\' then
      match Unescape(s[1..])
      case None => None
      case Some((c, n)) =>
        match ParseChars(s[1 + n..])
        case None => None
        case Some((t, rest)) => Some(([c] + t, rest))
    else
      match ParseChars(s[1..])
      case None => None
      case Some((t, rest)) => Some(([s[0]] + t, rest))
  }

  /** The number of decimal digits `s` starts with. */
  function DigitSpan(s: string): (n: nat)
    ensures n <= |s|
  {
    if |s| == 0 || !IsDigit(s[0]) then 0 else 1 + DigitSpan(s[1..])
  }

  function DigitValue(c: char): (d: nat)
  {
    if IsDigit(c) then c as int - '0' as int else 0
  }

  /** The number a string of decimal digits denotes. */
  function DigitsValue(ds: string): (n: nat)
  {
    if |ds| == 0 then 0 else DigitsValue(ds[..|ds| - 1]) * 10 + DigitValue(ds[|ds| - 1])
  }

  function ParseNumber(s: string): (r: Option<(JsValue, string)>)
    ensures r.Some? ==> |r.value.1| < |s|
  {
    var negative := |s| > 0 && s[0] == '-';
    var body := if negative then s[1..] else s;
    var n := DigitSpan(body);
    if n == 0 then None
    else
      var m: int := DigitsValue(body[..n]);
      Some((Num(if negative then -m else m), body[n..]))
  }

  function ParseValue(s: string): (r: Option<(JsValue, string)>)
    ensures r.Some? ==> |r.value.1| < |s|
    decreases |s|, 0
  {
    if |s| == 0 then None
    else if s[0] == 'n' then (if |s| >= 4 && s[..4] == "null" then Some((Null, s[4..])) else None)
    else if s[0] == 't' then (if |s| >= 4 && s[..4] == "true" then Some((Bool(true), s[4..])) else None)
    else if s[0] == 'f' then (if |s| >= 5 && s[..5] == "false" then Some((Bool(false), s[5..])) else None)
    else if s[0] == '"' then
      match ParseChars(s[1..])
      case None => None
      case Some((str, rest)) => Some((Str(str), rest))
    else if s[0] == '[' then
      if |s| >= 2 && s[1] == ']' then Some((Arr([]), s[2..]))
      else
        match ParseItems(s[1..])
        case None => None
        case Some((items, rest)) => Some((Arr(items), rest))
    else if s[0] == '{' then
      if |s| >= 2 && s[1] == '}' then Some((Obj([]), s[2..]))
      else
        match ParseFields(s[1..])
        case None => None
        case Some((fields, rest)) => Some((Obj(fields), rest))
    else if s[0] == '-' || IsDigit(s[0]) then ParseNumber(s)
    else None
  }

  /** One or more array elements and the closing bracket. */
  function ParseItems(s: string): (r: Option<(seq<JsValue>, string)>)
    ensures r.Some? ==> |r.value.1| < |s|
    decreases |s|, 1
  {
    match ParseValue(s)
    case None => None
    case Some((v, rest)) =>
      if |rest| == 0 then None
      else if rest[0] == ']' then Some(([v], rest[1..]))
      else if rest[0] == ',' then
        match ParseItems(rest[1..])
        case None => None
        case Some((vs, rest')) => Some(([v] + vs, rest'))
      else None
  }

  /** One or more object members and the closing brace. */
  function ParseFields(s: string): (r: Option<(seq<Field>, string)>)
    ensures r.Some? ==> |r.value.1| < |s|
    decreases |s|, 1
  {
    if |s| == 0 || s[0] != '"' then None
    else
      match ParseChars(s[1..])
      case None => None
      case Some((name, r1)) =>
        if |r1| == 0 || r1[0] != ':' then None
        else
          match ParseValue(r1[1..])
          case None => None
          case Some((v, r2)) =>
            if |r2| == 0 then None
            else if r2[0] == '}' then Some(([Field(name, v)], r2[1..]))
            else if r2[0] == ',' then
              match ParseFields(r2[1..])
              case None => None
              case Some((fs, r3)) => Some(([Field(name, v)] + fs, r3))
            else None
  }

  /** A whole input holding exactly one JSON value. */
  function Parse(s: string): (r: Option<JsValue>)
  {
    match ParseValue(s)
    case Some((v, rest)) => if |rest| == 0 then Some(v) else None
    case None => None
  }

  // ---------------------------------------------------------------------
  // Decoding the text of a value gives back its canonical form.

  lemma HexRoundTrip(d: nat)
    requires d < 16
    ensures HexValue(HexChar(d)) == Some(d)
  {
  }

  /** Decoding one escaped character. */
  lemma {:induction false} EscapeCharRoundTrip(c: char, x: string, t: string, rest: string)
    requires ParseChars(x) == Some((t, rest))
    ensures ParseChars(EscapeChar(c) + x) == Some(([c] + t, rest))
  {
    var s := EscapeChar(c) + x;
    var e := EscapeChar(c);
    if c == '"' || c == '\\' || c as int == 8 || c as int == 9 || c as int == 10 || c as int == 12 || c as int == 13 {
      assert s[0] == '\\' && s[1] == e[1] && s[2..] == x;
      assert Unescape(s[1..]) == Some((c, 1));
    } else if (c as int) < 0x20 {
      var hi, lo := c as int / 16, c as int % 16;
      assert s[0] == '\\' && s[1] == 'u' && s[2] == '0' && s[3] == '0';
      assert s[4] == HexChar(hi) && s[5] == HexChar(lo) && s[6..] == x;
      HexRoundTrip(0);
      HexRoundTrip(hi);
      HexRoundTrip(lo);
      assert ((0 * 16 + 0) * 16 + hi) * 16 + lo == c as int;
      assert Unescape(s[1..]) == Some((c, 5));
    } else {
      assert s[0] == c && s[1..] == x;
    }
  }

  lemma {:induction false} EscapeStringRoundTrip(str: string, rest: string)
    ensures ParseChars(EscapeString(str) + "\"" + rest) == Some((str, rest))
    decreases str
  {
    if |str| == 0 {
      assert EscapeString(str) + "\"" + rest == "\"" + rest;
    } else {
      var x := EscapeString(str[1..]) + "\"" + rest;
      EscapeStringRoundTrip(str[1..], rest);
      EscapeCharRoundTrip(str[0], x, str[1..], rest);
      assert EscapeString(str) + "\"" + rest == EscapeChar(str[0]) + x;
      assert [str[0]] + str[1..] == str;
    }
  }

  lemma {:induction false} NatTextDigits(n: nat)
    ensures forall i | 0 <= i < |NatText(n)| :: IsDigit(NatText(n)[i])
    decreases n
  {
    if n >= 10 {
      NatTextDigits(n / 10);
    }
  }

  lemma {:induction false} NatTextValue(n: nat)
    ensures DigitsValue(NatText(n)) == n
    decreases n
  {
    if n >= 10 {
      var t := NatText(n);
      NatTextValue(n / 10);
      assert t[..|t| - 1] == NatText(n / 10);
    } else {
      assert NatText(n)[..0] == [];
    }
  }

  lemma {:induction false} DigitSpanOf(ds: string, rest: string)
    requires forall i | 0 <= i < |ds| :: IsDigit(ds[i])
    requires Delimited(rest)
    ensures DigitSpan(ds + rest) == |ds|
    decreases ds
  {
    if |ds| > 0 {
      DigitSpanOf(ds[1..], rest);
      assert (ds + rest)[1..] == ds[1..] + rest;
    } else {
      assert ds + rest == rest;
    }
  }

  lemma NatRoundTrip(n: nat, rest: string)
    requires Delimited(rest)
    ensures DigitSpan(NatText(n) + rest) == |NatText(n)|
    ensures (NatText(n) + rest)[..|NatText(n)|] == NatText(n)
    ensures (NatText(n) + rest)[|NatText(n)|..] == rest
    ensures DigitsValue(NatText(n)) == n
  {
    NatTextDigits(n);
    DigitSpanOf(NatText(n), rest);
    NatTextValue(n);
  }

  lemma ValueIsNumber(s: string)
    requires |s| > 0 && (s[0] == '-' || IsDigit(s[0]))
    ensures ParseValue(s) == ParseNumber(s)
  {
  }

  lemma NonNegativeRoundTrip(n: nat, rest: string)
    requires Delimited(rest)
    ensures ParseNumber(NatText(n) + rest) == Some((Num(n), rest))
  {
    var s := NatText(n) + rest;
    NatRoundTrip(n, rest);
    assert s[0] == NatText(n)[0];
  }

  lemma NegativeRoundTrip(n: nat, rest: string)
    requires Delimited(rest)
    ensures ParseNumber("-" + NatText(n) + rest) == Some((Num(0 - n), rest))
  {
    var s := "-" + NatText(n) + rest;
    assert s[0] == '-' && s[1..] == NatText(n) + rest;
    NatRoundTrip(n, rest);
  }

  lemma NumberRoundTrip(n: int, rest: string)
    requires Delimited(rest)
    ensures ParseValue(IntText(n) + rest) == Some((Num(n), rest))
  {
    var s := IntText(n) + rest;
    if n < 0 {
      NegativeRoundTrip(-n, rest);
      assert s == "-" + NatText(-n) + rest;
    } else {
      NonNegativeRoundTrip(n, rest);
      assert s[0] == NatText(n)[0];
    }
    ValueIsNumber(s);
  }

  lemma ItemsTextLater(items: seq<JsValue>)
    requires |items| > 0
    ensures ItemsText(items, false) == "," + ItemsText(items, true)
  {
  }

  lemma {:induction false} FieldsTextNone(fields: seq<Field>, first: bool)
    requires CanonFields(fields) == []
    ensures FieldsText(fields, first) == ""
    decreases fields
  {
    if |fields| > 0 {
      FieldsTextNone(fields[1..], first);
    }
  }

  lemma {:induction false} FieldsTextLater(fields: seq<Field>)
    requires CanonFields(fields) != []
    ensures FieldsText(fields, false) == "," + FieldsText(fields, true)
    ensures |FieldsText(fields, true)| > 0 && FieldsText(fields, true)[0] == '"'
    decreases fields
  {
    if fields[0].value.Undefined? {
      FieldsTextLater(fields[1..]);
    }
  }

  lemma LiteralRoundTrip(lit: string, v: JsValue, rest: string)
    requires lit == "null" || lit == "true" || lit == "false"
    requires v == (if lit == "null" then Null else Bool(lit == "true"))
    ensures ParseValue(lit + rest) == Some((v, rest))
  {
    var s := lit + rest;
    assert s[..|lit|] == lit && s[|lit|..] == rest;
  }

  lemma StringRoundTrip(str: string, rest: string)
    ensures ParseValue(Quote(str) + rest) == Some((Str(str), rest))
  {
    var s := Quote(str) + rest;
    EscapeStringRoundTrip(str, rest);
    assert s[0] == '"' && s[1..] == EscapeString(str) + "\"" + rest;
  }

  /** Decoding the text of a value, followed by anything that cannot extend
      it, gives back the value's canonical form and the rest of the input. */
  lemma {:induction false} ValueRoundTrip(v: JsValue, rest: string)
    requires Delimited(rest)
    ensures ParseValue(Text(v) + rest) == Some((Canon(v), rest))
    decreases v, 0
  {
    match v
    case Undefined => LiteralRoundTrip("null", Null, rest);
    case Null => LiteralRoundTrip("null", Null, rest);
    case Bool(b) => LiteralRoundTrip(if b then "true" else "false", v, rest);
    case Num(n) => NumberRoundTrip(n, rest);
    case Str(str) => StringRoundTrip(str, rest);
    case Arr(items) => ArrayRoundTrip(items, rest);
    case Obj(fields) => ObjectRoundTrip(fields, rest);
  }

  lemma {:induction false} ArrayRoundTrip(items: seq<JsValue>, rest: string)
    ensures ParseValue(Text(Arr(items)) + rest) == Some((Arr(CanonItems(items)), rest))
    decreases items, 2
  {
    var s := Text(Arr(items)) + rest;
    if |items| == 0 {
      assert s[0] == '[' && s[1] == ']' && s[2..] == rest;
    } else {
      var body := ItemsText(items, true);
      assert body == Text(items[0]) + ItemsText(items[1..], false);
      assert s[0] == '[' && s[1] == body[0] && s[1..] == body + "]" + rest;
      ItemsRoundTrip(items, rest);
    }
  }

  lemma {:induction false} ObjectRoundTrip(fields: seq<Field>, rest: string)
    ensures ParseValue(Text(Obj(fields)) + rest) == Some((Obj(CanonFields(fields)), rest))
    decreases fields, 2
  {
    var s := Text(Obj(fields)) + rest;
    if CanonFields(fields) == [] {
      FieldsTextNone(fields, true);
      assert s[0] == '{' && s[1] == '}' && s[2..] == rest;
    } else {
      var body := FieldsText(fields, true);
      FieldsTextLater(fields);
      assert s[0] == '{' && s[1] == body[0] && s[1..] == body + "}" + rest;
      FieldsRoundTrip(fields, rest);
    }
  }

  /** The parser's step after an array element. */
  lemma ItemsStep(s: string, v: JsValue, t: string)
    requires ParseValue(s) == Some((v, t))
    requires |t| > 0 && t[0] == ']'
    ensures ParseItems(s) == Some(([v], t[1..]))
  {
  }

  lemma ItemsStepMore(s: string, v: JsValue, t: string, vs: seq<JsValue>, rest: string)
    requires ParseValue(s) == Some((v, t))
    requires |t| > 0 && t[0] == ',' && ParseItems(t[1..]) == Some((vs, rest))
    ensures ParseItems(s) == Some(([v] + vs, rest))
  {
  }

  lemma {:induction false} ItemsRoundTrip(items: seq<JsValue>, rest: string)
    requires |items| > 0
    ensures ParseItems(ItemsText(items, true) + "]" + rest) == Some((CanonItems(items), rest))
    decreases items, 1
  {
    var tail := items[1..];
    var t := ItemsText(tail, false) + "]" + rest;
    var s := ItemsText(items, true) + "]" + rest;
    assert s == Text(items[0]) + t;
    assert CanonItems(items) == [Canon(items[0])] + CanonItems(tail);
    if |tail| == 0 {
      assert t == "]" + rest;
      ValueRoundTrip(items[0], t);
      ItemsStep(s, Canon(items[0]), t);
      assert t[1..] == rest;
      assert CanonItems(tail) == [];
      assert CanonItems(items) == [Canon(items[0])];
    } else {
      ItemsTextLater(tail);
      assert t == "," + (ItemsText(tail, true) + "]" + rest);
      ValueRoundTrip(items[0], t);
      ItemsRoundTrip(tail, rest);
      assert t[1..] == ItemsText(tail, true) + "]" + rest;
      ItemsStepMore(s, Canon(items[0]), t, CanonItems(tail), rest);
    }
  }

  /** The parser's steps through one object member. */
  lemma MemberPrefix(name: string, x: string) returns (s: string)
    ensures s == Quote(name) + ":" + x
    ensures |s| > 0 && s[0] == '"'
    ensures ParseChars(s[1..]) == Some((name, ":" + x))
  {
    var r1 := ":" + x;
    s := Quote(name) + ":" + x;
    EscapeStringRoundTrip(name, r1);
    assert s[1..] == EscapeString(name) + "\"" + r1;
  }

  lemma FieldsStep(s: string, name: string, x: string, v: JsValue, t: string)
    requires |s| > 0 && s[0] == '"' && ParseChars(s[1..]) == Some((name, ":" + x))
    requires ParseValue(x) == Some((v, t))
    requires |t| > 0 && t[0] == '}'
    ensures ParseFields(s) == Some(([Field(name, v)], t[1..]))
  {
    assert (":" + x)[1..] == x;
  }

  lemma FieldsStepMore(s: string, name: string, x: string, v: JsValue, t: string, fs: seq<Field>, rest: string)
    requires |s| > 0 && s[0] == '"' && ParseChars(s[1..]) == Some((name, ":" + x))
    requires ParseValue(x) == Some((v, t))
    requires |t| > 0 && t[0] == ',' && ParseFields(t[1..]) == Some((fs, rest))
    ensures ParseFields(s) == Some(([Field(name, v)] + fs, rest))
  {
    assert (":" + x)[1..] == x;
  }

  lemma {:induction false} FieldsRoundTrip(fields: seq<Field>, rest: string)
    requires CanonFields(fields) != []
    ensures ParseFields(FieldsText(fields, true) + "}" + rest) == Some((CanonFields(fields), rest))
    decreases fields, 1
  {
    if fields[0].value.Undefined? {
      FieldsRoundTrip(fields[1..], rest);
    } else {
      MemberRoundTrip(fields, rest);
    }
  }

  lemma MemberText(fields: seq<Field>, rest: string)
    requires |fields| > 0 && !fields[0].value.Undefined?
    ensures FieldsText(fields, true) + "}" + rest
         == Quote(fields[0].name) + ":" + (Text(fields[0].value) + (FieldsText(fields[1..], false) + "}" + rest))
    ensures CanonFields(fields) == [Field(fields[0].name, Canon(fields[0].value))] + CanonFields(fields[1..])
  {
    var a, b, c := Quote(fields[0].name), Text(fields[0].value), FieldsText(fields[1..], false);
    assert FieldsText(fields, true) == "" + a + ":" + b + c;
    assert "" + a == a;
    calc {
      a + ":" + b + c + "}" + rest;
      a + ":" + b + (c + "}" + rest);
      a + ":" + (b + (c + "}" + rest));
    }
  }

  /** Decoding from an object member that is written out. */
  lemma {:induction false} MemberRoundTrip(fields: seq<Field>, rest: string)
    requires |fields| > 0 && !fields[0].value.Undefined?
    ensures ParseFields(FieldsText(fields, true) + "}" + rest) == Some((CanonFields(fields), rest))
    decreases fields, 0
  {
    var f := fields[0];
    var tail := fields[1..];
    var t := FieldsText(tail, false) + "}" + rest;
    var x := Text(f.value) + t;
    MemberText(fields, rest);
    if CanonFields(tail) == [] {
      FieldsTextNone(tail, false);
      assert t == "}" + rest;
      ValueRoundTrip(f.value, t);
      var s := MemberPrefix(f.name, x);
      FieldsStep(s, f.name, x, Canon(f.value), t);
      assert t[1..] == rest;
      assert CanonFields(fields) == [Field(f.name, Canon(f.value))];
    } else {
      FieldsTextLater(tail);
      assert t == "," + (FieldsText(tail, true) + "}" + rest);
      ValueRoundTrip(f.value, t);
      FieldsRoundTrip(tail, rest);
      assert t[1..] == FieldsText(tail, true) + "}" + rest;
      var s := MemberPrefix(f.name, x);
      FieldsStepMore(s, f.name, x, Canon(f.value), t, CanonFields(tail), rest);
    }
  }

  /** The decoder inverts `Json.Text` up to canonical form. */
  lemma ParseText(v: JsValue)
    ensures Parse(Text(v)) == Some(Canon(v))
  {
    ValueRoundTrip(v, []);
    assert Text(v) + [] == Text(v);
  }

  /** Two values have the same JSON text exactly when they have the same
      canonical form: the text loses nothing but `undefined`. */
  lemma TextInjective(a: JsValue, b: JsValue)
    ensures Text(a) == Text(b) <==> Canon(a) == Canon(b)
  {
    ParseText(a);
    ParseText(b);
    if Canon(a) == Canon(b) {
      TextOfCanon(a);
      TextOfCanon(b);
    }
  }
}
