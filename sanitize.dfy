/**
 * `sanitizeInput`, shared by all three validator copies: strings are trimmed
 * and then lose every `<` and `>`; arrays are sanitised element by element;
 * plain objects are rebuilt key by key with sanitised values, by assignment
 * to a fresh `{}`, so an own `__proto__` key does not come back as an own
 * key; every other value is returned unchanged.
 */
module Sanitize {
  import opened JsStrings
  import opened JsValues

  predicate IsAngle(c: char) {
    c == '<' || c == '>'
  }

  /** `s.replace(/[<>]/g, '')`. */
  function StripAngles(s: string): string {
    if |s| == 0 then ""
    else (if IsAngle(s[0]) then "" else [s[0]]) + StripAngles(s[1..])
  }

  /** What the sanitiser does to one string. */
  function SanitizeString(s: string): string {
    StripAngles(Trim(s))
  }

  /**
   * The key that an assignment `o[key] = value` on a plain object does not
   * create as an own property: it sets the prototype or is ignored.
   */
  const ProtoKey: string := "__proto__"

  /** The fields in order, without those called `__proto__`. */
  function WithoutProtoKey(fields: seq<(string, Value)>): (r: seq<(string, Value)>)
    ensures |r| <= |fields|
  {
    if |fields| == 0 then []
    else (if fields[0].0 == ProtoKey then [] else [fields[0]]) + WithoutProtoKey(fields[1..])
  }

  /** The sanitiser's result, by structural recursion on the value. */
  function Sanitize(v: Value): Value {
    match v
    case Str(s) => Str(SanitizeString(s))
    case Arr(items) => Arr(seq(|items|, i requires 0 <= i < |items| => Sanitize(items[i])))
    case Obj(fields) => Obj(WithoutProtoKey(seq(|fields|, i requires 0 <= i < |fields| => (fields[i].0, Sanitize(fields[i].1)))))
    case _ => v
  }

  /** No string anywhere inside `v` holds `<` or `>`. */
  predicate NoAngles(v: Value) {
    match v
    case Str(s) => forall k :: 0 <= k < |s| ==> !IsAngle(s[k])
    case Arr(items) => forall i :: 0 <= i < |items| ==> NoAngles(items[i])
    case Obj(fields) => forall i :: 0 <= i < |fields| ==> NoAngles(fields[i].1)
    case _ => true
  }

  /** `v` with every string inside it trimmed, and nothing else changed. */
  function TrimStrings(v: Value): Value {
    match v
    case Str(s) => Str(Trim(s))
    case Arr(items) => Arr(seq(|items|, i requires 0 <= i < |items| => TrimStrings(items[i])))
    case Obj(fields) => Obj(seq(|fields|, i requires 0 <= i < |fields| => (fields[i].0, TrimStrings(fields[i].1))))
    case _ => v
  }

  /**
   * The sanitiser as the source runs it: recursion for arrays and objects, and
   * a loop that fills the rebuilt object property by property.
   */
  method SanitizeInput(v: Value) returns (r: Value)
    ensures r == Sanitize(v)
    decreases v
  {
    match v {
      case Str(s) =>
        r := Str(StripAngles(Trim(s)));
      case Arr(items) =>
        var out: seq<Value> := [];
        var i := 0;
        while i < |items|
          invariant 0 <= i <= |items|
          invariant out == seq(i, k requires 0 <= k < i => Sanitize(items[k]))
        {
          var x := SanitizeInput(items[i]);
          out := out + [x];
          i := i + 1;
        }
        r := Arr(out);
      case Obj(fields) =>
        var sanitized: seq<(string, Value)> := [];
        var i := 0;
        while i < |fields|
          invariant 0 <= i <= |fields|
          invariant sanitized == WithoutProtoKey(seq(i, k requires 0 <= k < i => (fields[k].0, Sanitize(fields[k].1))))
        {
          var x := SanitizeInput(fields[i].1);
          var before := seq(i, k requires 0 <= k < i => (fields[k].0, Sanitize(fields[k].1)));
          assert seq(i + 1, k requires 0 <= k < i + 1 => (fields[k].0, Sanitize(fields[k].1))) == before + [(fields[i].0, x)];
          WithoutProtoKeySnoc(before, (fields[i].0, x));
          if fields[i].0 != ProtoKey {
            sanitized := sanitized + [(fields[i].0, x)];
          }
          i := i + 1;
        }
        r := Obj(sanitized);
      case _ =>
        r := v;
    }
  }

  // ---- properties ----

  /** Dropping the `__proto__` fields works field by field, so a loop can do it one field at a time. */
  lemma {:induction false} WithoutProtoKeySnoc(fields: seq<(string, Value)>, f: (string, Value))
    ensures WithoutProtoKey(fields + [f]) == WithoutProtoKey(fields) + (if f.0 == ProtoKey then [] else [f])
  {
    if |fields| > 0 {
      assert (fields + [f])[1..] == fields[1..] + [f];
      WithoutProtoKeySnoc(fields[1..], f);
    } else {
      assert fields + [f] == [f];
    }
  }

  /** A field survives exactly when it was there and is not called `__proto__`. */
  lemma {:induction false} WithoutProtoKeyMembers(fields: seq<(string, Value)>)
    ensures forall f :: f in WithoutProtoKey(fields) <==> f in fields && f.0 != ProtoKey
  {
    if |fields| > 0 {
      WithoutProtoKeyMembers(fields[1..]);
      assert fields == [fields[0]] + fields[1..];
    }
  }

  /** Without a `__proto__` field nothing is dropped. */
  lemma {:induction false} WithoutProtoKeyNone(fields: seq<(string, Value)>)
    requires forall i :: 0 <= i < |fields| ==> fields[i].0 != ProtoKey
    ensures WithoutProtoKey(fields) == fields
  {
    if |fields| > 0 {
      WithoutProtoKeyNone(fields[1..]);
      assert fields == [fields[0]] + fields[1..];
    }
  }

  /** Reading any other property is unaffected by dropping the `__proto__` fields. */
  lemma {:induction false} LookupWithoutProtoKey(fields: seq<(string, Value)>, key: string)
    requires key != ProtoKey
    ensures FieldLookup(WithoutProtoKey(fields), key) == FieldLookup(fields, key)
  {
    if |fields| > 0 {
      var rest := WithoutProtoKey(fields[1..]);
      LookupWithoutProtoKey(fields[1..], key);
      if fields[0].0 != ProtoKey {
        assert WithoutProtoKey(fields) == [fields[0]] + rest;
        assert ([fields[0]] + rest)[1..] == rest;
      } else {
        assert WithoutProtoKey(fields) == rest;
      }
    }
  }

  /** Reading a property of the rebuilt fields gives the sanitised property (`undefined` stays `undefined`). */
  lemma {:induction false} LookupSanitizedFields(fields: seq<(string, Value)>, key: string)
    ensures FieldLookup(seq(|fields|, i requires 0 <= i < |fields| => (fields[i].0, Sanitize(fields[i].1))), key)
         == Sanitize(FieldLookup(fields, key))
  {
    if |fields| > 0 {
      var mapped := seq(|fields|, i requires 0 <= i < |fields| => (fields[i].0, Sanitize(fields[i].1)));
      var rest := fields[1..];
      assert mapped[1..] == seq(|rest|, i requires 0 <= i < |rest| => (rest[i].0, Sanitize(rest[i].1)));
      LookupSanitizedFields(rest, key);
    }
  }

  lemma {:induction false} StripAnglesRemovesAngles(s: string)
    ensures forall k :: 0 <= k < |StripAngles(s)| ==> !IsAngle(StripAngles(s)[k])
    ensures |StripAngles(s)| <= |s|
  {
    if |s| > 0 {
      StripAnglesRemovesAngles(s[1..]);
    }
  }

  lemma {:induction false} StripAnglesKeepsOthers(s: string)
    requires forall k :: 0 <= k < |s| ==> !IsAngle(s[k])
    ensures StripAngles(s) == s
  {
    if |s| > 0 {
      StripAnglesKeepsOthers(s[1..]);
      assert s == [s[0]] + s[1..];
    }
  }

  /** A sanitised string holds no angle bracket and is no longer than the input. */
  lemma SanitizeStringProperties(s: string)
    ensures forall k :: 0 <= k < |SanitizeString(s)| ==> !IsAngle(SanitizeString(s)[k])
    ensures |SanitizeString(s)| <= |s|
  {
    StripAnglesRemovesAngles(Trim(s));
    TrimIsInnerSlice(s);
  }

  /** Output strings never contain `<` or `>`, however deep they sit. */
  lemma {:induction false} SanitizeRemovesAngles(v: Value)
    ensures NoAngles(Sanitize(v))
  {
    match v {
      case Str(s) =>
        SanitizeStringProperties(s);
      case Arr(items) =>
        forall i | 0 <= i < |items| ensures NoAngles(Sanitize(items[i])) {
          SanitizeRemovesAngles(items[i]);
        }
      case Obj(fields) =>
        var mapped := seq(|fields|, i requires 0 <= i < |fields| => (fields[i].0, Sanitize(fields[i].1)));
        var kept := WithoutProtoKey(mapped);
        WithoutProtoKeyMembers(mapped);
        forall j | 0 <= j < |kept| ensures NoAngles(kept[j].1) {
          assert kept[j] in mapped;
          var i :| 0 <= i < |mapped| && mapped[i] == kept[j];
          SanitizeRemovesAngles(fields[i].1);
        }
      case _ =>
    }
  }

  /**
   * The sanitiser keeps the structure: the same kind of value, arrays of the
   * same length, objects with the same keys save `__proto__` (in the same
   * order when there is none), reading any other property of the result gives
   * the sanitised property, and every value that is not a string, array or
   * object is untouched.
   */
  lemma SanitizeKeepsShape(v: Value, key: string)
    ensures Sanitize(v).Str? <==> v.Str?
    ensures Sanitize(v).Arr? <==> v.Arr?
    ensures Sanitize(v).Obj? <==> v.Obj?
    ensures v.Arr? ==> |Sanitize(v).items| == |v.items|
    ensures v.Obj? ==> (key in OwnKeys(Sanitize(v)) <==> key in OwnKeys(v) && key != ProtoKey)
    ensures v.Obj? && ProtoKey !in OwnKeys(v) ==> OwnKeys(Sanitize(v)) == OwnKeys(v)
    ensures v.Obj? && key != ProtoKey ==> Prop(Sanitize(v), key) == Sanitize(Prop(v, key))
    ensures !v.Str? && !v.Arr? && !v.Obj? ==> Sanitize(v) == v
  {
    if v.Obj? {
      var mapped := seq(|v.fields|, i requires 0 <= i < |v.fields| => (v.fields[i].0, Sanitize(v.fields[i].1)));
      SanitizedKeys(v.fields, key);
      if ProtoKey !in OwnKeys(v) {
        assert forall i :: 0 <= i < |mapped| ==> mapped[i].0 == OwnKeys(v)[i];
        WithoutProtoKeyNone(mapped);
      }
      if key != ProtoKey {
        LookupWithoutProtoKey(mapped, key);
        LookupSanitizedFields(v.fields, key);
      }
    }
  }

  /** A key is among the rebuilt object's keys exactly when it was among the input's and is not `__proto__`. */
  lemma SanitizedKeys(fields: seq<(string, Value)>, key: string)
    ensures key in OwnKeys(Sanitize(Obj(fields))) <==> key in OwnKeys(Obj(fields)) && key != ProtoKey
  {
    var mapped := seq(|fields|, i requires 0 <= i < |fields| => (fields[i].0, Sanitize(fields[i].1)));
    var kept := WithoutProtoKey(mapped);
    WithoutProtoKeyMembers(mapped);
    if key in OwnKeys(Sanitize(Obj(fields))) {
      var j :| 0 <= j < |kept| && kept[j].0 == key;
      assert kept[j] in mapped;
      var i :| 0 <= i < |mapped| && mapped[i] == kept[j];
      assert OwnKeys(Obj(fields))[i] == key;
    }
    if key in OwnKeys(Obj(fields)) && key != ProtoKey {
      var i :| 0 <= i < |fields| && OwnKeys(Obj(fields))[i] == key;
      assert mapped[i] in kept;
      var j :| 0 <= j < |kept| && kept[j] == mapped[i];
      assert OwnKeys(Sanitize(Obj(fields)))[j] == key;
    }
  }

  /**
   * Sanitising twice is the same as trimming the once-sanitised value: the
   * second pass finds no angle bracket left, but stripping the first pass's
   * brackets may have exposed white space.
   */
  lemma {:induction false} SanitizeTwice(v: Value)
    ensures Sanitize(Sanitize(v)) == TrimStrings(Sanitize(v))
  {
    match v {
      case Str(s) =>
        var once := SanitizeString(s);
        SanitizeStringProperties(s);
        TrimIsInnerSlice(once);
        var t := Trim(once);
        var i, j :| 0 <= i <= j <= |once| && t == once[i..j];
        assert forall k :: 0 <= k < |t| ==> !IsAngle(t[k]) by {
          forall k | 0 <= k < |t| ensures !IsAngle(t[k]) {
            assert t[k] == once[i + k];
          }
        }
        StripAnglesKeepsOthers(t);
      case Arr(items) =>
        forall i | 0 <= i < |items| ensures Sanitize(Sanitize(items[i])) == TrimStrings(Sanitize(items[i])) {
          SanitizeTwice(items[i]);
        }
      case Obj(fields) =>
        var mapped := seq(|fields|, i requires 0 <= i < |fields| => (fields[i].0, Sanitize(fields[i].1)));
        var kept := WithoutProtoKey(mapped);
        WithoutProtoKeyMembers(mapped);
        var again := seq(|kept|, j requires 0 <= j < |kept| => (kept[j].0, Sanitize(kept[j].1)));
        forall j | 0 <= j < |kept| ensures Sanitize(kept[j].1) == TrimStrings(kept[j].1) {
          assert kept[j] in mapped;
          var i :| 0 <= i < |mapped| && mapped[i] == kept[j];
          SanitizeTwice(fields[i].1);
        }
        forall j | 0 <= j < |again| ensures again[j].0 != ProtoKey {
          assert kept[j] in kept;
        }
        WithoutProtoKeyNone(again);
      case _ =>
    }
  }

  /** The sanitiser is not idempotent: `"< a"` becomes `" a"`, which becomes `"a"`. */
  lemma SanitizeNotIdempotent()
    ensures Sanitize(Str("< a")) == Str(" a")
    ensures Sanitize(Sanitize(Str("< a"))) == Str("a")
  {
    assert Trim("< a") == "< a";
    assert StripAngles("< a") == " a";
    assert TrimStart(" a") == "a";
    assert Trim(" a") == "a";
    assert StripAngles("a") == "a";
  }

  /** An own `__proto__` key is not carried over, while the other keys are. */
  lemma SanitizeDropsProtoKey()
    ensures Sanitize(Obj([(ProtoKey, Str("x")), ("a", Str("<b>"))])) == Obj([("a", Str("b"))])
  {
    var fields := [(ProtoKey, Str("x")), ("a", Str("<b>"))];
    assert Trim("x") == "x" && StripAngles("x") == "x";
    assert Trim("<b>") == "<b>" && StripAngles("<b>") == "b";
    assert Sanitize(Str("x")) == Str("x") && Sanitize(Str("<b>")) == Str("b");
    var mapped := seq(|fields|, i requires 0 <= i < |fields| => (fields[i].0, Sanitize(fields[i].1)));
    assert mapped == [(ProtoKey, Str("x")), ("a", Str("b"))];
    assert WithoutProtoKey(mapped[1..]) == [("a", Str("b"))];
  }
}
