/** Key normalization: `serialize` in cache.js turns every caller-supplied
    key into the string under which the entry is stored. Keys share an entry
    exactly when these strings are equal. */
module Keys {
  import opened Wrappers
  import opened Json
  import opened JsonFacts
  import JsonParse

  /** The text `serialize` puts in front of every key. It reads `this.prefix`,
      but it is called without a receiver, so `this` is the global object and
      not the cache; that property is ordinarily absent and the prefix is the
      text of `undefined`. Every key gets the same prefix, which is all the
      lookups depend on. */
  const Prefix: string := "undefined"

  /** What `serialize` appends to the prefix: a string key itself, and
      `JSON.stringify` of any other key. `JSON.stringify(undefined)` is not a
      string but `undefined`, which string concatenation writes as
      "undefined". */
  function KeyText(key: JsValue): (r: string)
  {
    if key.Str? then key.s
    else match Stringify(key)
      case Some(text) => text
      case None => "undefined"
  }

  /** `serialize(key)`: the normalized key, the prefix followed by the key's
      own text. */
  function Serialize(key: JsValue): (r: string)
    ensures |Prefix| <= |r| && r[..|Prefix|] == Prefix
    ensures key.Str? ==> r[|Prefix|..] == key.s
    ensures key.Undefined? ==> r[|Prefix|..] == "undefined"
    ensures !key.Str? && !key.Undefined? ==> r[|Prefix|..] == Text(key)
  {
    Prefix + KeyText(key)
  }

  /** What a non-string key is identified by: `undefined` at the top level,
      and the canonical form (see `Json.Canon`) of anything else. */
  function Shape(key: JsValue): (r: JsValue)
  {
    if key.Undefined? then Undefined else Canon(key)
  }

  lemma PrefixCancels(x: string, y: string)
    ensures Prefix + x == Prefix + y <==> x == y
  {
    if Prefix + x == Prefix + y {
      assert x == (Prefix + x)[|Prefix|..];
      assert y == (Prefix + y)[|Prefix|..];
    }
  }

  /** After the prefix, the normalized key of anything but a string or
      `undefined` is JSON text that decodes to the key's canonical form. */
  lemma SerializeDecodes(key: JsValue)
    ensures !key.Str? && !key.Undefined? ==> JsonParse.Parse(Serialize(key)[|Prefix|..]) == Some(Canon(key))
  {
    assert Serialize(key)[|Prefix|..] == KeyText(key);
    if !key.Str? && !key.Undefined? {
      JsonParse.ParseText(key);
    }
  }

  /** Two string keys share an entry exactly when they are the same string. */
  lemma StringKeysCollideIff(s: string, t: string)
    ensures Serialize(Str(s)) == Serialize(Str(t)) <==> s == t
  {
    PrefixCancels(s, t);
  }

  /** Two keys that are not strings share an entry exactly when they have
      the same shape: arrays must agree element by element and in order,
      objects member by member in enumeration order, and `undefined` inside
      them counts as `null` in an array and as absent in an object. */
  lemma {:induction false} StructuredKeysCollideIff(a: JsValue, b: JsValue)
    requires !a.Str? && !b.Str?
    ensures Serialize(a) == Serialize(b) <==> Shape(a) == Shape(b)
  {
    PrefixCancels(KeyText(a), KeyText(b));
    if !a.Undefined? && !b.Undefined? {
      JsonParse.TextInjective(a, b);
    }
  }

  /** A string key meets a key of another type exactly when the string is
      that key's JSON text (or "undefined" for `undefined`): normalization is
      not injective across types. */
  lemma StringMeetsStructuredIff(s: string, b: JsValue)
    requires !b.Str?
    ensures Serialize(Str(s)) == Serialize(b) <==> s == (if b.Undefined? then "undefined" else Text(b))
  {
    PrefixCancels(s, KeyText(b));
  }

  /** Keys without `undefined` inside, other than strings, share an entry
      exactly when they are equal values. */
  lemma CleanKeysCollideIff(a: JsValue, b: JsValue)
    requires !a.Str? && !b.Str? && Clean(a) && Clean(b)
    ensures Serialize(a) == Serialize(b) <==> a == b
  {
    StructuredKeysCollideIff(a, b);
    CleanIsCanon(a);
    CleanIsCanon(b);
  }

  /** The number 1 and the string "1" share an entry. */
  lemma NumberOneMeetsStringOne()
    ensures Serialize(Num(1)) == Serialize(Str("1"))
  {
    StringMeetsStructuredIff("1", Num(1));
  }

  /** The key `undefined` and the string "undefined" share an entry. */
  lemma UndefinedMeetsItsName()
    ensures Serialize(Undefined) == Serialize(Str("undefined"))
  {
  }

  /** `[1, 'a', 3, 4]` and `[1, 'a', 4, 3]` are different keys. */
  lemma ReorderedArraysDiffer()
    ensures Serialize(Arr([Num(1), Str("a"), Num(3), Num(4)]))
         != Serialize(Arr([Num(1), Str("a"), Num(4), Num(3)]))
  {
    var a := Arr([Num(1), Str("a"), Num(3), Num(4)]);
    var b := Arr([Num(1), Str("a"), Num(4), Num(3)]);
    assert a.items[2] != b.items[2];
    CleanKeysCollideIff(a, b);
  }

  /** `{foo: 'bar', bar: 'baz'}` and `{bar: 'baz', foo: 'bar'}` are
      different keys: the JSON text follows the order of the members. */
  lemma MemberOrderMatters()
    ensures Serialize(Obj([Field("foo", Str("bar")), Field("bar", Str("baz"))]))
         != Serialize(Obj([Field("bar", Str("baz")), Field("foo", Str("bar"))]))
  {
    var a := Obj([Field("foo", Str("bar")), Field("bar", Str("baz"))]);
    var b := Obj([Field("bar", Str("baz")), Field("foo", Str("bar"))]);
    assert a.fields[0] != b.fields[0];
    CleanKeysCollideIff(a, b);
  }

  /** A member whose value is `undefined` does not take part in the key:
      `{a: 1, b: undefined}` and `{a: 1}` share an entry. */
  lemma UndefinedMemberIgnored()
    ensures Serialize(Obj([Field("a", Num(1)), Field("b", Undefined)]))
         == Serialize(Obj([Field("a", Num(1))]))
  {
    var a := Obj([Field("a", Num(1)), Field("b", Undefined)]);
    var b := Obj([Field("a", Num(1))]);
    assert CanonFields(a.fields) == [Field("a", Num(1))];
    assert CanonFields(b.fields) == [Field("a", Num(1))];
    StructuredKeysCollideIff(a, b);
  }
}
