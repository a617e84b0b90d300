/** The values a caller can use as cache keys, and the JSON text that
    `JSON.stringify` produces for them. Only what key normalization needs is
    modelled: integers stand for JavaScript numbers, and an object is the
    ordered list of its own enumerable properties, in the order the engine
    enumerates them (which is the order `JSON.stringify` writes them). */
module Json {
  import opened Wrappers

  /** A key value. `Obj` admits repeated member names, which no JavaScript
      object has; the facts proved about keys hold for all of these values,
      so in particular for the real ones. */
  datatype JsValue =
    | Undefined
    | Null
    | Bool(b: bool)
    | Num(n: int)
    | Str(s: string)
    | Arr(items: seq<JsValue>)
    | Obj(fields: seq<Field>)

  datatype Field = Field(name: string, value: JsValue)

  predicate IsDigit(c: char)
  {
    '0' <= c <= '9'
  }

  function DigitChar(d: nat): (c: char)
    requires d < 10
    ensures IsDigit(c)
  {
    ('0' as int + d) as char
  }

  /** The characters a JSON value can start with. */
  predicate ValueStart(c: char)
  {
    c == 'n' || c == 't' || c == 'f' || c == '-' || IsDigit(c) || c == '"' || c == '[' || c == '{'
  }

  /** The hexadecimal digit `JSON.stringify` writes in a `\u` escape (lower case). */
  function HexChar(d: nat): (c: char)
    requires d < 16
  {
    if d < 10 then DigitChar(d) else ('a' as int + (d - 10)) as char
  }

  /** Decimal text of a natural number, without leading zeros. */
  function NatText(n: nat): (r: string)
    decreases n
    ensures |r| > 0 && IsDigit(r[0])
  {
    if n < 10 then [DigitChar(n)] else NatText(n / 10) + [DigitChar(n % 10)]
  }

  /** The text of an integer-valued JavaScript number. */
  function IntText(n: int): (r: string)
    ensures |r| > 0
    ensures r[0] == '-' <==> n < 0
    ensures r[0] == '-' || IsDigit(r[0])
  {
    if n < 0 then "-" + NatText(-n) else NatText(n)
  }

  /** How `JSON.stringify` writes one character inside a string literal:
      the two-character escapes for quote, backslash, backspace, tab, line
      feed, form feed and carriage return, a `\u00XX` escape for the other
      control characters, and every other character as itself. */
  function EscapeChar(c: char): (r: string)
  {
    if c == '"' then ['\\', '"']
    else if c == '\\' then ['\\', '\\']
    else if c as int == 8 then ['\\', 'b']
    else if c as int == 9 then ['\\', 't']
    else if c as int == 10 then ['\\', 'n']
    else if c as int == 12 then ['\\', 'f']
    else if c as int == 13 then ['\\', 'r']
    else if (c as int) < 0x20 then ['\\', 'u', '0', '0', HexChar(c as int / 16), HexChar(c as int % 16)]
    else [c]
  }

  function EscapeString(s: string): (r: string)
  {
    if |s| == 0 then [] else EscapeChar(s[0]) + EscapeString(s[1..])
  }

  /** A JSON string literal. */
  function Quote(s: string): (r: string)
  {
    "\"" + EscapeString(s) + "\""
  }

  /** The JSON text of `v` in a position where `undefined` is written as
      `null` (an array element); at the top level `Stringify` decides. */
  function Text(v: JsValue): (r: string)
    decreases v
    ensures |r| > 0 && ValueStart(r[0])
    ensures r[0] == '[' <==> v.Arr?
    ensures r[0] == '{' <==> v.Obj?
    ensures r[0] == '"' <==> v.Str?
    ensures r[0] == '-' || IsDigit(r[0]) <==> v.Num?
  {
    match v
    case Undefined => "null"
    case Null => "null"
    case Bool(b) => if b then "true" else "false"
    case Num(n) => IntText(n)
    case Str(s) => Quote(s)
    case Arr(items) => "[" + ItemsText(items, true) + "]"
    case Obj(fields) => "{" + FieldsText(fields, true) + "}"
  }

  /** Array elements separated by commas; `first` says no comma is due yet. */
  function ItemsText(items: seq<JsValue>, first: bool): (r: string)
    decreases items
  {
    if |items| == 0 then ""
    else (if first then "" else ",") + Text(items[0]) + ItemsText(items[1..], false)
  }

  /** Object members separated by commas; a property whose value is
      `undefined` is left out, as `JSON.stringify` does. */
  function FieldsText(fields: seq<Field>, first: bool): (r: string)
    decreases fields
  {
    if |fields| == 0 then ""
    else if fields[0].value.Undefined? then FieldsText(fields[1..], first)
    else (if first then "" else ",") + Quote(fields[0].name) + ":" + Text(fields[0].value)
         + FieldsText(fields[1..], false)
  }

  /** `JSON.stringify(v)`: no text at all (JavaScript `undefined`) for
      `undefined`, the JSON text otherwise. */
  function Stringify(v: JsValue): (r: Option<string>)
    ensures r.None? <==> v.Undefined?
  {
    if v.Undefined? then None else Some(Text(v))
  }

  /** The value JSON text can distinguish: `undefined` array elements become
      `null` and `undefined` properties disappear. */
  function Canon(v: JsValue): (r: JsValue)
    decreases v
  {
    match v
    case Undefined => Null
    case Arr(items) => Arr(CanonItems(items))
    case Obj(fields) => Obj(CanonFields(fields))
    case _ => v
  }

  function CanonItems(items: seq<JsValue>): (r: seq<JsValue>)
    decreases items
    ensures |r| == |items|
  {
    if |items| == 0 then [] else [Canon(items[0])] + CanonItems(items[1..])
  }

  function CanonFields(fields: seq<Field>): (r: seq<Field>)
    decreases fields
  {
    if |fields| == 0 then []
    else if fields[0].value.Undefined? then CanonFields(fields[1..])
    else [Field(fields[0].name, Canon(fields[0].value))] + CanonFields(fields[1..])
  }

  /** No `undefined` anywhere inside. */
  predicate Clean(v: JsValue)
    decreases v
  {
    match v
    case Undefined => false
    case Arr(items) => forall i | 0 <= i < |items| :: Clean(items[i])
    case Obj(fields) => forall i | 0 <= i < |fields| :: Clean(fields[i].value)
    case _ => true
  }
}

/** Facts about `Json.Text` and `Json.Canon` that do not need a decoder. */
module JsonFacts {
  import opened Json

  /** Canonicalizing a value does not change its JSON text. */
  lemma {:induction false} TextOfCanon(v: JsValue)
    ensures Text(Canon(v)) == Text(v)
    decreases v
  {
    match v
    case Arr(items) => ItemsTextOfCanon(items, true);
    case Obj(fields) => FieldsTextOfCanon(fields, true);
    case _ =>
  }

  lemma {:induction false} ItemsTextOfCanon(items: seq<JsValue>, first: bool)
    ensures ItemsText(CanonItems(items), first) == ItemsText(items, first)
    decreases items
  {
    if |items| > 0 {
      var c := CanonItems(items);
      assert c[0] == Canon(items[0]) && c[1..] == CanonItems(items[1..]);
      TextOfCanon(items[0]);
      ItemsTextOfCanon(items[1..], false);
    }
  }

  lemma {:induction false} FieldsTextOfCanon(fields: seq<Field>, first: bool)
    ensures FieldsText(CanonFields(fields), first) == FieldsText(fields, first)
    decreases fields
  {
    if |fields| > 0 {
      FieldsTextOfCanon(fields[1..], if fields[0].value.Undefined? then first else false);
      if !fields[0].value.Undefined? {
        var f := fields[0];
        var c := CanonFields(fields);
        assert c[0] == Field(f.name, Canon(f.value)) && c[1..] == CanonFields(fields[1..]);
        TextOfCanon(f.value);
      }
    }
  }

  /** A canonical value holds no `undefined`. */
  lemma {:induction false} CanonIsClean(v: JsValue)
    ensures Clean(Canon(v))
    decreases v
  {
    match v
    case Arr(items) => CanonItemsClean(items);
    case Obj(fields) => CanonFieldsClean(fields);
    case _ =>
  }

  lemma {:induction false} CanonItemsClean(items: seq<JsValue>)
    ensures forall i | 0 <= i < |CanonItems(items)| :: Clean(CanonItems(items)[i])
    decreases items
  {
    if |items| > 0 {
      CanonIsClean(items[0]);
      CanonItemsClean(items[1..]);
      var c := CanonItems(items);
      assert c == [Canon(items[0])] + CanonItems(items[1..]);
      forall i | 0 <= i < |c|
        ensures Clean(c[i])
      {
        if i > 0 {
          assert c[i] == CanonItems(items[1..])[i - 1];
        }
      }
    }
  }

  lemma {:induction false} CanonFieldsClean(fields: seq<Field>)
    ensures forall i | 0 <= i < |CanonFields(fields)| :: Clean(CanonFields(fields)[i].value)
    decreases fields
  {
    if |fields| > 0 {
      CanonFieldsClean(fields[1..]);
      if !fields[0].value.Undefined? {
        CanonIsClean(fields[0].value);
        var c := CanonFields(fields);
        assert c == [Field(fields[0].name, Canon(fields[0].value))] + CanonFields(fields[1..]);
        forall i | 0 <= i < |c|
          ensures Clean(c[i].value)
        {
          if i > 0 {
            assert c[i] == CanonFields(fields[1..])[i - 1];
          }
        }
      }
    }
  }

  /** A value without `undefined` is already canonical. */
  lemma {:induction false} CleanIsCanon(v: JsValue)
    requires Clean(v)
    ensures Canon(v) == v
    decreases v
  {
    match v
    case Arr(items) => CleanItemsAreCanon(items);
    case Obj(fields) => CleanFieldsAreCanon(fields);
    case _ =>
  }

  lemma {:induction false} CleanItemsAreCanon(items: seq<JsValue>)
    requires forall i | 0 <= i < |items| :: Clean(items[i])
    ensures CanonItems(items) == items
    decreases items
  {
    if |items| > 0 {
      CleanIsCanon(items[0]);
      CleanItemsAreCanon(items[1..]);
      assert items == [items[0]] + items[1..];
    }
  }

  lemma {:induction false} CleanFieldsAreCanon(fields: seq<Field>)
    requires forall i | 0 <= i < |fields| :: Clean(fields[i].value)
    ensures CanonFields(fields) == fields
    decreases fields
  {
    if |fields| > 0 {
      assert Clean(fields[0].value);
      CleanIsCanon(fields[0].value);
      CleanFieldsAreCanon(fields[1..]);
      assert fields == [fields[0]] + fields[1..];
    }
  }
}
