/**
 * The CommonJS configuration (config/index.js): `parseNumber`,
 * `parseCorsOrigins`, and the two length limits the validator reads.
 * Environment variables are parameters: `None` is an unset variable.
 */
module Config {
  import opened Wrappers
  import opened JsStrings

  /** The two limits the validation engine reads from the configuration. */
  datatype Limits = Limits(maxQuestionnaireLength: int, maxAnswerLength: int)

  const DefaultMaxQuestionnaireLength: int := 50
  const DefaultMaxAnswerLength: int := 1000
  const DefaultCorsOrigin: string := "http://localhost:5173"

  // ---- Number.parseInt(value, 10) ----

  /** The leading run of decimal digits of `s`. */
  function DigitPrefix(s: string): (d: string)
    ensures |d| <= |s| && d == s[..|d|]
    ensures forall i :: 0 <= i < |d| ==> IsDigit(d[i])
    ensures |d| < |s| ==> !IsDigit(s[|d|])
  {
    if |s| > 0 && IsDigit(s[0]) then [s[0]] + DigitPrefix(s[1..]) else ""
  }

  /** The value of a string of decimal digits. */
  function DigitsValue(d: string): nat
    requires forall i :: 0 <= i < |d| ==> IsDigit(d[i])
  {
    if |d| == 0 then 0 else 10 * DigitsValue(d[..|d| - 1]) + DigitValue(d[|d| - 1])
  }

  /** `t` without its leading sign, if it has one. */
  function Unsigned(t: string): string {
    if |t| > 0 && (t[0] == '-' || t[0] == '+') then t[1..] else t
  }

  /** `Number.MAX_SAFE_INTEGER`: up to here every integer is exactly a double. */
  const MaxSafeInteger: nat := 9007199254740991

  /**
   * `Number.parseInt(s, 10)`: skip leading white space, read an optional sign
   * and then the longest run of digits; `None` (NaN) when there is no digit.
   */
  function ParseIntPrefix(s: string): Option<int> {
    var t := TrimStart(s);
    var negative := |t| > 0 && t[0] == '-';
    var d := DigitPrefix(Unsigned(t));
    if |d| == 0 then None
    else if negative then Some(0 - DigitsValue(d) as int)
    else Some(DigitsValue(d))
  }

  /** `parseNumber(value, fallback)`. */
  function ParseNumber(value: Option<string>, fallback: int): int {
    if value.None? || value.value == "" then fallback
    else match ParseIntPrefix(value.value)
      case None => fallback
      case Some(n) => n
  }

  /** The limits the CommonJS tree reads from MAX_QUESTIONNAIRE_LENGTH and MAX_ANSWER_LENGTH. */
  function AppLimits(maxQuestionnaireLength: Option<string>, maxAnswerLength: Option<string>): Limits {
    Limits(ParseNumber(maxQuestionnaireLength, DefaultMaxQuestionnaireLength),
           ParseNumber(maxAnswerLength, DefaultMaxAnswerLength))
  }

  // ---- CORS origins ----

  /** What the configuration holds as the CORS origin: `'*'`, one origin string, or a list. */
  datatype CorsOrigin = AnyOrigin | OneOrigin(origin: string) | OriginList(origins: seq<string>)

  /** `.map(origin => origin.trim()).filter(Boolean)` over the comma-separated pieces. */
  function TrimmedNonEmpty(pieces: seq<string>): (r: seq<string>)
    ensures |r| <= |pieces|
  {
    if |pieces| == 0 then []
    else (if Trim(pieces[0]) == "" then [] else [Trim(pieces[0])]) + TrimmedNonEmpty(pieces[1..])
  }

  /** `value.split(',').map(trim).filter(Boolean)`. */
  function CommaList(value: string): seq<string> {
    TrimmedNonEmpty(Split(value, ','))
  }

  /** `parseCorsOrigins(value)`. */
  function ParseCorsOrigins(value: Option<string>): CorsOrigin {
    if value.None? || value.value == "" then OriginList([DefaultCorsOrigin])
    else if value.value == "*" then AnyOrigin
    else OriginList(CommaList(value.value))
  }

  // ---- properties ----

  lemma {:induction false} DigitsValueOfNatToString(n: nat)
    ensures DigitsValue(NatToString(n)) == n
  {
    if n >= 10 {
      DigitsValueOfNatToString(n / 10);
      var s := NatToString(n);
      assert s[..|s| - 1] == NatToString(n / 10);
    }
  }

  lemma {:induction false} DigitPrefixOfDigits(d: string, rest: string)
    requires forall i :: 0 <= i < |d| ==> IsDigit(d[i])
    requires rest == [] || !IsDigit(rest[0])
    ensures DigitPrefix(d + rest) == d
  {
    if |d| > 0 {
      assert (d + rest)[1..] == d[1..] + rest;
      DigitPrefixOfDigits(d[1..], rest);
    }
  }

  /**
   * `parseNumber` reads the integer prefix: the decimal rendering of `n`
   * followed by anything that does not start with a digit parses back to `n`
   * (so `'12abc'` gives 12), whatever the fallback.
   */
  lemma ParseNumberReadsPrefix(n: nat, rest: string, fallback: int)
    requires n <= MaxSafeInteger
    requires rest == [] || !IsDigit(rest[0])
    ensures ParseNumber(Some(NatToString(n) + rest), fallback) == n
  {
    var s := NatToString(n) + rest;
    assert s[0] == NatToString(n)[0];
    assert TrimStart(s) == s;
    DigitPrefixOfDigits(NatToString(n), rest);
    DigitsValueOfNatToString(n);
  }

  /** `parseNumber` round-trips the decimal rendering of a natural number. */
  lemma ParseNumberRoundTrip(n: nat, fallback: int)
    requires n <= MaxSafeInteger
    ensures ParseNumber(Some(NatToString(n)), fallback) == n
  {
    ParseNumberReadsPrefix(n, "", fallback);
    assert NatToString(n) + "" == NatToString(n);
  }

  /**
   * Unset or empty values give the fallback, and so does a value with no digit
   * after its leading white space and optional sign, such as `'abc'`, `'-'`
   * or `'+x'`.
   */
  lemma ParseNumberFallsBack(value: Option<string>, fallback: int)
    requires value.None? || value.value == "" || DigitPrefix(Unsigned(TrimStart(value.value))) == ""
    ensures ParseNumber(value, fallback) == fallback
  {
  }

  /** With nothing set, the validator's limits are 50 questions and 1000 characters. */
  lemma DefaultLimits()
    ensures AppLimits(None, None) == Limits(50, 1000)
  {
  }

  lemma {:induction false} TrimmedNonEmptyProperties(pieces: seq<string>)
    ensures forall o :: o in TrimmedNonEmpty(pieces) ==> o != "" && IsTrimmed(o)
    ensures forall o :: o in TrimmedNonEmpty(pieces) ==> exists p :: p in pieces && o == Trim(p)
    ensures forall p :: p in pieces && Trim(p) != "" ==> Trim(p) in TrimmedNonEmpty(pieces)
  {
    if |pieces| > 0 {
      TrimmedNonEmptyProperties(pieces[1..]);
      TrimIsInnerSlice(pieces[0]);
      assert pieces == [pieces[0]] + pieces[1..];
    }
  }

  /** One piece contributes its trimmed text, unless that is empty. */
  lemma TrimmedNonEmptyOne(p: string)
    ensures TrimmedNonEmpty([p]) == if Trim(p) == "" then [] else [Trim(p)]
  {
    assert [p][1..] == [];
  }

  /** Trimming and filtering works piece by piece: order and repeats are kept. */
  lemma {:induction false} TrimmedNonEmptyAppend(a: seq<string>, b: seq<string>)
    ensures TrimmedNonEmpty(a + b) == TrimmedNonEmpty(a) + TrimmedNonEmpty(b)
  {
    if |a| > 0 {
      assert (a + b)[0] == a[0] && (a + b)[1..] == a[1..] + b;
      TrimmedNonEmptyAppend(a[1..], b);
    } else {
      assert a + b == b;
    }
  }

  /** Splitting at the first comma: the text before it is the first piece. */
  lemma SplitAtFirstComma(a: string, b: string)
    requires ',' !in a
    ensures Split(a + "," + b, ',') == [a] + Split(b, ',')
  {
    var s := a + "," + b;
    assert s[|a|] == ',';
    assert forall i :: 0 <= i < |a| ==> s[i] == a[i];
    assert IndexOf(s, ',') == |a|;
    assert s[..|a|] == a && s[|a| + 1..] == b;
  }

  /**
   * The origin list keeps the order and repeats of the setting: the part
   * before the first comma contributes its origin (if any) ahead of the
   * origins of the rest.
   */
  lemma CommaListOrder(a: string, b: string)
    requires ',' !in a
    ensures CommaList(a + "," + b) == (if Trim(a) == "" then [] else [Trim(a)]) + CommaList(b)
  {
    SplitAtFirstComma(a, b);
    TrimmedNonEmptyAppend([a], Split(b, ','));
    TrimmedNonEmptyOne(a);
  }

  /**
   * A list of origins never holds an empty string; each origin is a trimmed,
   * non-empty comma-separated piece of the setting, holds no comma, and every
   * such piece is kept.
   */
  lemma CommaListProperties(value: string)
    ensures forall o :: o in CommaList(value) ==> o != "" && IsTrimmed(o) && ',' !in o
    ensures forall o :: o in CommaList(value) ==> exists p :: p in Split(value, ',') && o == Trim(p)
    ensures forall p :: p in Split(value, ',') && Trim(p) != "" ==> Trim(p) in CommaList(value)
  {
    var pieces := Split(value, ',');
    TrimmedNonEmptyProperties(pieces);
    SplitPiecesAvoidSeparator(value, ',');
    forall o | o in CommaList(value) ensures ',' !in o {
      var p :| p in pieces && o == Trim(p);
      TrimKeepsOut(p, ',');
    }
  }

  /** Trimming adds no character: one absent from a piece is absent from its trim. */
  lemma TrimKeepsOut(p: string, c: char)
    requires c !in p
    ensures c !in Trim(p)
  {
    TrimIsInnerSlice(p);
    var i, j :| 0 <= i <= j <= |p| && Trim(p) == p[i..j];
    assert forall k :: 0 <= k < |Trim(p)| ==> Trim(p)[k] == p[i + k];
  }

  /** A setting without a comma becomes the one-element list of its trimmed text, when that is not empty. */
  lemma CommaListWithoutComma(value: string)
    requires ',' !in value && Trim(value) != ""
    ensures CommaList(value) == [Trim(value)]
  {
    SplitPiecesAvoidSeparator(value, ',');
  }

  /** An unset or empty setting gives the development origin; `'*'` allows any origin. */
  lemma CorsOriginDefaults()
    ensures ParseCorsOrigins(None) == OriginList(["http://localhost:5173"])
    ensures ParseCorsOrigins(Some("")) == OriginList(["http://localhost:5173"])
    ensures ParseCorsOrigins(Some("*")) == AnyOrigin
  {
  }
}

/**
 * The TypeScript configuration (src/config/index.ts, compiled to
 * dist/src/config/index.js): `parseOrigins` and the defaults.
 */
module ConfigTs {
  import opened Wrappers
  import opened JsStrings
  import Config

  /** `parseOrigins(origins)`. */
  function ParseOrigins(origins: Option<string>): Config.CorsOrigin {
    if origins.None? || origins.value == "" || origins.value == "*" then Config.AnyOrigin
    else if ',' in origins.value then Config.OriginList(Config.CommaList(origins.value))
    else Config.OneOrigin(origins.value)
  }

  /** `corsOrigin`: CORS_ORIGIN, or the development origin when it is unset. */
  function CorsOriginSetting(env: Option<string>): Config.CorsOrigin {
    ParseOrigins(Some(if env.None? then Config.DefaultCorsOrigin else env.value))
  }

  /** The limits when MAX_QUESTIONNAIRE_LENGTH and MAX_ANSWER_LENGTH are unset. */
  const DefaultLimits: Config.Limits := Config.Limits(50, 1000)

  /**
   * `parseOrigins` returns `'*'` for an unset, empty or `'*'` value, the
   * trimmed non-empty pieces for a value with a comma, and otherwise the value
   * verbatim: neither trimmed nor wrapped in a list.
   */
  lemma ParseOriginsCases(origins: Option<string>)
    ensures origins.None? || origins == Some("") || origins == Some("*") ==> ParseOrigins(origins) == Config.AnyOrigin
    ensures origins.Some? && origins.value != "*" && ',' in origins.value ==>
      ParseOrigins(origins) == Config.OriginList(Config.CommaList(origins.value)) &&
      (forall o :: o in ParseOrigins(origins).origins ==> o != "" && IsTrimmed(o) && ',' !in o) &&
      (forall o :: o in ParseOrigins(origins).origins ==> exists p :: p in Split(origins.value, ',') && o == Trim(p)) &&
      (forall p :: p in Split(origins.value, ',') && Trim(p) != "" ==> Trim(p) in ParseOrigins(origins).origins)
    ensures origins.Some? && origins.value != "" && origins.value != "*" && ',' !in origins.value ==>
      ParseOrigins(origins) == Config.OneOrigin(origins.value)
  {
    if origins.Some? && ',' in origins.value {
      Config.CommaListProperties(origins.value);
    }
  }

  /**
   * The two trees disagree on an empty CORS_ORIGIN: the CommonJS tree falls
   * back to the development origin, the TypeScript tree allows any origin.
   */
  lemma EmptyCorsOriginDiffers()
    ensures Config.ParseCorsOrigins(Some("")) == Config.OriginList([Config.DefaultCorsOrigin])
    ensures CorsOriginSetting(Some("")) == Config.AnyOrigin
  {
  }

  /** Unset, the TypeScript tree uses the development origin as one verbatim string. */
  lemma CorsOriginDefault()
    ensures CorsOriginSetting(None) == Config.OneOrigin("http://localhost:5173")
  {
    assert ',' !in Config.DefaultCorsOrigin;
  }
}
