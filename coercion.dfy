/** Typed coercion of captured path values (the per-value branches of
    `detect_params`) and the typed input check `validate_input`. */
module Coercion {
  import opened Common
  import opened Text

  /** A value bound to a handler parameter: a PHP string, int or bool. */
  datatype Value = Str(s: string) | Int(i: int) | Bool(b: bool)

  /** Bounds of PHP's 64-bit `int`. */
  const IntMin: int := -0x8000_0000_0000_0000
  const IntMax: int := 0x7FFF_FFFF_FFFF_FFFF

  predicate IsDigit(c: char) {
    '0' <= c <= '9'
  }

  predicate AllDigits(s: string) {
    forall k :: 0 <= k < |s| ==> IsDigit(s[k])
  }

  predicate IsSign(c: char) {
    c == '+' || c == '-'
  }

  /** `is_numeric`, restricted to integers: an optional sign followed by
      one or more decimal digits. */
  predicate IsNumeric(s: string) {
    |s| > 0 &&
    if IsSign(s[0]) then |s| > 1 && AllDigits(s[1..]) else AllDigits(s)
  }

  /** The number a digit string denotes. */
  function DigitsValue(s: string): (n: nat)
    requires AllDigits(s)
  {
    if |s| == 0 then 0
    else DigitsValue(s[..|s| - 1]) * 10 + (s[|s| - 1] as int - '0' as int)
  }

  /** The number a numeric string denotes, sign included, before any
      truncation to the machine width. */
  function NumericValue(s: string): int
    requires IsNumeric(s)
  {
    if s[0] == '-' then -(DigitsValue(s[1..]) as int)
    else if s[0] == '+' then DigitsValue(s[1..])
    else DigitsValue(s)
  }

  /** PHP saturates integer strings outside the 64-bit range, as long as
      they are within the range of a double. */
  function Saturate(n: int): (r: int)
    ensures IntMin <= r <= IntMax
    ensures IntMin <= n <= IntMax ==> r == n
    ensures n > IntMax ==> r == IntMax
    ensures n < IntMin ==> r == IntMin
  {
    if n > IntMax then IntMax else if n < IntMin then IntMin else n
  }

  /** `intval` on a numeric string. */
  function IntVal(s: string): int
    requires IsNumeric(s)
  {
    Saturate(NumericValue(s))
  }

  /** The decimal digits of a natural number, with no leading zero. */
  function DecimalDigits(n: nat): (s: string)
    ensures |s| >= 1 && AllDigits(s)
    ensures n > 0 <==> s[0] != '0'
  {
    if n < 10 then [('0' as int + n) as char]
    else DecimalDigits(n / 10) + [('0' as int + n % 10) as char]
  }

  /** The decimal notation of an integer, as PHP prints it. */
  function Decimal(n: int): string {
    if n < 0 then "-" + DecimalDigits(-n) else DecimalDigits(n)
  }

  lemma {:induction false} DigitsValueOfDecimal(n: nat)
    ensures DigitsValue(DecimalDigits(n)) == n
  {
    if n >= 10 {
      DigitsValueOfDecimal(n / 10);
      var s := DecimalDigits(n);
      assert s[..|s| - 1] == DecimalDigits(n / 10);
    }
  }

  /** Any 64-bit integer written in decimal is numeric and `intval` reads it back. */
  lemma IntValRoundTrip(n: int)
    requires IntMin <= n <= IntMax
    ensures IsNumeric(Decimal(n))
    ensures IntVal(Decimal(n)) == n
  {
    var s := Decimal(n);
    if n < 0 {
      DigitsValueOfDecimal(-n);
      assert s[1..] == DecimalDigits(-n);
    } else {
      DigitsValueOfDecimal(n);
    }
  }

  /** The boolean tokens `detect_params` accepts. */
  const Booleans: seq<string> := ["0", "1", "true", "false"]

  /** PHP 8 loose `==` between two strings: numerically when both are
      numeric, textually otherwise. */
  predicate LooseEquals(a: string, b: string) {
    if IsNumeric(a) && IsNumeric(b) then NumericValue(a) == NumericValue(b) else a == b
  }

  /** `in_array(v, Booleans)`, with its loose comparison. */
  predicate InBooleans(v: string) {
    exists i :: 0 <= i < |Booleans| && LooseEquals(v, Booleans[i])
  }

  /** `boolval` on a string: only "" and "0" are false. */
  function BoolVal(s: string): bool {
    s != "" && s != "0"
  }

  /** What one captured value becomes. */
  datatype Coerced =
    /** The value is stored under `key` in the processed parameters. */
    | Bound(key: string, value: Value)
    /** A two-part spec of an unknown type: nothing is stored. */
    | Dropped
    /** The value did not pass its type's check. */
    | Failed(error: Error)

  /** One round of the coercion loop of `detect_params`:
      `spec` is a raw parameter spec (`id` or `id:int`), `value` the
      captured text, `isEmail` the `FILTER_VALIDATE_EMAIL` check. */
  function CoerceOne(spec: string, value: string, isEmail: string -> bool): Coerced {
    var pieces := Split(spec, ':');
    if |pieces| == 2 then
      var name, kind := pieces[0], pieces[1];
      if kind == "int" then
        if IsNumeric(value) then Bound(name, Int(IntVal(value))) else Failed(NotInteger(name))
      else if kind == "bool" then
        if InBooleans(value) then Bound(name, Bool(BoolVal(value))) else Failed(NotBoolean(name))
      else if kind == "email" then
        if isEmail(value) then Bound(name, Str(value)) else Failed(NotEmail(name))
      else Dropped
    else Bound(spec, Str(value))
  }

  /** A spec `name:kind` with neither part holding a colon splits in two. */
  lemma TypedSpecSplit(name: string, kind: string)
    requires ':' !in name && ':' !in kind
    ensures Split(name + ":" + kind, ':') == [name, kind]
  {
    SplitJoin([name, kind], ':');
    assert Join([name, kind], ':') == name + ":" + kind by {
      assert [name, kind][1..] == [kind];
    }
  }

  /** `{name:int}`: a numeric capture is bound as its `intval`; anything
      else throws "is not an integer". */
  lemma CoerceInt(name: string, value: string, isEmail: string -> bool)
    requires ':' !in name
    ensures IsNumeric(value) ==> CoerceOne(name + ":int", value, isEmail) == Bound(name, Int(IntVal(value)))
    ensures !IsNumeric(value) ==> CoerceOne(name + ":int", value, isEmail) == Failed(NotInteger(name))
  {
    TypedSpecSplit(name, "int");
    assert name + ":" + "int" == name + ":int";
  }

  /** `{name:bool}`: a boolean token is bound as its `boolval`; anything
      else throws "is not a boolean". */
  lemma CoerceBool(name: string, value: string, isEmail: string -> bool)
    requires ':' !in name
    ensures InBooleans(value) ==> CoerceOne(name + ":bool", value, isEmail) == Bound(name, Bool(BoolVal(value)))
    ensures !InBooleans(value) ==> CoerceOne(name + ":bool", value, isEmail) == Failed(NotBoolean(name))
  {
    TypedSpecSplit(name, "bool");
    assert name + ":" + "bool" == name + ":bool";
  }

  /** `{name:email}`: an address the filter accepts is bound unchanged;
      anything else throws "is not a valid email address". */
  lemma CoerceEmail(name: string, value: string, isEmail: string -> bool)
    requires ':' !in name
    ensures isEmail(value) ==> CoerceOne(name + ":email", value, isEmail) == Bound(name, Str(value))
    ensures !isEmail(value) ==> CoerceOne(name + ":email", value, isEmail) == Failed(NotEmail(name))
  {
    TypedSpecSplit(name, "email");
    assert name + ":" + "email" == name + ":email";
  }

  /** `{name:kind}` with a kind other than int, bool and email binds nothing. */
  lemma CoerceUnknownKind(name: string, kind: string, value: string, isEmail: string -> bool)
    requires ':' !in name && ':' !in kind
    requires kind != "int" && kind != "bool" && kind != "email"
    ensures CoerceOne(name + ":" + kind, value, isEmail) == Dropped
  {
    TypedSpecSplit(name, kind);
  }

  /** `{name}` without a type: the capture is bound unchanged under `name`. */
  lemma CoerceUntyped(name: string, value: string, isEmail: string -> bool)
    requires ':' !in name
    ensures CoerceOne(name, value, isEmail) == Bound(name, Str(value))
  {
    SplitFree(name, ':');
  }

  /** The accepted boolean texts are "true", "false" and the numeric
      strings worth 0 or 1 (so "00" and "+1" pass as well). */
  lemma BooleanTokens(v: string)
    ensures InBooleans(v) <==>
      v == "true" || v == "false" || (IsNumeric(v) && (NumericValue(v) == 0 || NumericValue(v) == 1))
  {
    assert IsNumeric("0") && NumericValue("0") == 0 by {
      assert "0"[..0] == "";
    }
    assert IsNumeric("1") && NumericValue("1") == 1 by {
      assert "1"[..0] == "";
    }
    assert !IsNumeric("true") && !IsNumeric("false") by {
      assert !IsDigit("true"[0]) && !IsDigit("false"[0]);
    }
    if IsNumeric(v) && (NumericValue(v) == 0 || NumericValue(v) == 1) {
      if NumericValue(v) == 0 {
        assert LooseEquals(v, Booleans[0]);
      } else {
        assert LooseEquals(v, Booleans[1]);
      }
    } else if v == "true" {
      assert LooseEquals(v, Booleans[2]);
    } else if v == "false" {
      assert LooseEquals(v, Booleans[3]);
    }
  }

  /** Among accepted boolean texts only "0" is bound as false; in particular
      "false" is bound as true. */
  lemma BoolValOfTokens(v: string)
    requires InBooleans(v)
    ensures !BoolVal(v) <==> v == "0"
  {
    BooleanTokens(v);
  }

  /** `FILTER_VALIDATE_INT`: an optional sign, then "0" or digits without a
      leading zero, inside the 64-bit range; the filter's `false` is `None`. */
  function FilterInt(s: string): (r: Option<int>)
    ensures r.Some? ==> IsNumeric(s) && r.value == NumericValue(s) && IntMin <= r.value <= IntMax
  {
    if |s| == 0 then None
    else
      var body := if IsSign(s[0]) then s[1..] else s;
      if |body| == 0 || !AllDigits(body) || (body[0] == '0' && |body| > 1) then None
      else
        var n: int := if s[0] == '-' then -(DigitsValue(body) as int) else DigitsValue(body);
        if IntMin <= n <= IntMax then Some(n) else None
  }

  /** The filter accepts the decimal notation of every 64-bit integer. */
  lemma FilterIntDecimal(n: int)
    requires IntMin <= n <= IntMax
    ensures FilterInt(Decimal(n)) == Some(n)
  {
    var s := Decimal(n);
    if n < 0 {
      var b := DecimalDigits(-n);
      assert s[1..] == b;
      DigitsValueOfDecimal(-n);
      assert IsSign(s[0]) && b[0] != '0';
    } else {
      DigitsValueOfDecimal(n);
      assert !IsSign(s[0]);
    }
  }

  /** The types `validate_input` has a filter for. */
  predicate KnownDataType(t: string) {
    t == "int" || t == "email" || t == "ip"
  }

  /** Whether the filter for a known type accepts the value. */
  predicate FilterAccepts(value: string, t: string, isEmail: string -> bool, isIp: string -> bool)
    requires KnownDataType(t)
  {
    if t == "int" then FilterInt(value).Some? else if t == "email" then isEmail(value) else isIp(value)
  }

  /** Whether PHP reads the filter's result as true: the int filter returns
      the integer, so an accepted 0 reads as false. */
  predicate FilterTruthy(value: string, t: string, isEmail: string -> bool, isIp: string -> bool)
    requires KnownDataType(t)
  {
    if t == "int" then FilterInt(value).Some? && FilterInt(value).value != 0
    else FilterAccepts(value, t, isEmail, isIp)
  }

  /** `validate_input` as written: `Ok(Some(value))` for an accepted value,
      `Ok(None)` for PHP `null`, `Err` for a thrown exception. */
  function ValidateInput(value: string, t: string, throwException: bool,
                         isEmail: string -> bool, isIp: string -> bool): (r: Result<Option<string>>)
    ensures r.Ok? && r.value.Some? ==> r.value.value == value
  {
    if !KnownDataType(t) then Err(UnknownDataType(t))
    else if FilterTruthy(value, t, isEmail, isIp) then Ok(Some(value))
    else if throwException then Err(InvalidValue(value, t))
    else Ok(None)
  }

  /** As written, the valid integer "0" is rejected. */
  lemma ValidateInputRejectsZero(throwException: bool, isEmail: string -> bool, isIp: string -> bool)
    ensures FilterInt("0") == Some(0)
    ensures ValidateInput("0", "int", throwException, isEmail, isIp) ==
      if throwException then Err(InvalidValue("0", "int")) else Ok(None)
  {
    assert "0"[..0] == "";
  }

  /** `validate_input` as evidently intended: the filter's verdict, not the
      truth of the value it returns, decides. */
  function ValidateInputIntended(value: string, t: string, throwException: bool,
                                 isEmail: string -> bool, isIp: string -> bool): (r: Result<Option<string>>)
  {
    if !KnownDataType(t) then Err(UnknownDataType(t))
    else if FilterAccepts(value, t, isEmail, isIp) then Ok(Some(value))
    else if throwException then Err(InvalidValue(value, t))
    else Ok(None)
  }

  /** The intended check: an unknown type throws; an accepted value comes back
      unchanged; a rejected one throws or yields null as asked. */
  lemma ValidateInputIntendedSpec(value: string, t: string, throwException: bool,
                                  isEmail: string -> bool, isIp: string -> bool)
    ensures !KnownDataType(t) <==>
      ValidateInputIntended(value, t, throwException, isEmail, isIp) == Err(UnknownDataType(t))
    ensures ValidateInputIntended(value, t, throwException, isEmail, isIp) == Ok(Some(value)) <==>
      KnownDataType(t) && FilterAccepts(value, t, isEmail, isIp)
    ensures ValidateInputIntended(value, t, throwException, isEmail, isIp) == Ok(None) <==>
      KnownDataType(t) && !FilterAccepts(value, t, isEmail, isIp) && !throwException
    ensures ValidateInputIntended(value, t, throwException, isEmail, isIp) == Err(InvalidValue(value, t)) <==>
      KnownDataType(t) && !FilterAccepts(value, t, isEmail, isIp) && throwException
    ensures forall n :: IntMin <= n <= IntMax ==>
      ValidateInputIntended(Decimal(n), "int", throwException, isEmail, isIp) == Ok(Some(Decimal(n)))
  {
    forall n | IntMin <= n <= IntMax
      ensures ValidateInputIntended(Decimal(n), "int", throwException, isEmail, isIp) == Ok(Some(Decimal(n)))
    {
      FilterIntDecimal(n);
    }
  }

  /** The code as written departs from the intended check only on values the
      int filter reads as 0. */
  lemma ValidateInputDiffersOnlyAtZero(value: string, t: string, throwException: bool,
                                       isEmail: string -> bool, isIp: string -> bool)
    ensures ValidateInput(value, t, throwException, isEmail, isIp) !=
            ValidateInputIntended(value, t, throwException, isEmail, isIp)
        <==> t == "int" && FilterInt(value) == Some(0) && ValidateInputIntended(value, t, throwException, isEmail, isIp) == Ok(Some(value))
  {
  }
}
