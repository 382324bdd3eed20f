/** The generic tree that xml2js produces with `explicitArray: false`, and the parts of
    JavaScript's value semantics the normaliser uses on it: truthiness, property access
    `v?.[key]`, conversion to string (template literals, `parseInt`'s argument) and
    `parseInt(·, 10)`. */
module JsValues {
  import opened JsStrings

  datatype Option<T> = None | Some(value: T)

  /** A call that completes with a value, or throws. */
  datatype Result<T, E> = Ok(value: T) | Err(error: E)

  /** A node of the parsed tree. xml2js yields strings, objects and (for repeated child
      elements) arrays; `Null` and `Num` also occur because the normaliser feeds its own
      defaults (`null`, `0`, `''`, `[]`) through the same code paths. */
  datatype Value =
    | Null
    | Str(s: string)
    | Num(n: int)
    | Obj(fields: map<string, Value>)
    | Arr(items: seq<Value>)

  /** JavaScript truthiness: `null`, `''` and `0` are falsy; every object and every
      array, empty or not, is truthy. */
  predicate Truthy(v: Value) {
    match v
    case Null => false
    case Str(s) => s != ""
    case Num(n) => n != 0
    case Obj(_) => true
    case Arr(_) => true
  }

  /** The element index a property key names on an array: a canonical decimal string
      (no sign, no leading zero except in "0"). */
  function ArrayIndex(key: string): Option<nat>
  {
    if key != [] && AllDigits(key) && (key[0] != '0' || |key| == 1) then Some(DigitsValue(key))
    else None
  }

  /** A key names element `i` exactly when it is the decimal form of `i`. */
  lemma {:induction false} ArrayIndexIsDecimal(key: string, i: nat)
    ensures ArrayIndex(key) == Some(i) <==> key == NatToDecimal(i)
  {
    if key == NatToDecimal(i) {
      NatToDecimalValue(i);
    }
    if ArrayIndex(key) == Some(i) {
      CanonicalDecimal(key);
    }
  }

  /** `v?.[key]`, with `None` for `undefined`: own keys of an object, element indices of
      an array; every other access (on null, a number or a string) is undefined. */
  function Member(v: Value, key: string): Option<Value>
  {
    match v
    case Obj(fields) => if key in fields then Some(fields[key]) else None
    case Arr(items) =>
      (match ArrayIndex(key)
       case Some(i) => if i < |items| then Some(items[i]) else None
       case None => None)
    case _ => None
  }

  /** Element `i` of an array is reached through the key `String(i)`. */
  lemma {:induction false} MemberOfArray(items: seq<Value>, key: string, i: nat)
    requires i < |items|
    ensures Member(Arr(items), key) == Some(items[i]) <== key == NatToDecimal(i)
  {
    ArrayIndexIsDecimal(key, i);
  }

  /** `String(v)`, as a template literal or `parseInt` converts its argument: arrays join
      their elements with "," and show `null` elements as empty. */
  function ToJsString(v: Value): string
  {
    match v
    case Null => "null"
    case Str(s) => s
    case Num(n) => IntToDecimal(n)
    case Obj(_) => "[object Object]"
    case Arr(items) =>
      Join(seq(|items|, i requires 0 <= i < |items| =>
        if items[i].Null? then "" else ToJsString(items[i])), ",")
  }

  /** A repeated element turns a text node into an array; in a template literal an empty
      array reads as '', and an array of one element as that element (or '' for null). */
  lemma {:induction false} ToJsStringOfShortArrays(v: Value)
    ensures ToJsString(Arr([])) == ""
    ensures ToJsString(Arr([v])) == if v.Null? then "" else ToJsString(v)
  {
    var parts := seq(1, i requires 0 <= i < 1 => if [v][i].Null? then "" else ToJsString([v][i]));
    assert ToJsString(Arr([v])) == Join(parts, ",");
  }

  /** The result of `parseInt`: a JavaScript number that is an integer, or NaN. */
  datatype IntOrNaN = Int(value: int) | NaN

  /** The longest prefix of `s` made of decimal digits. */
  function DigitPrefix(s: string): (r: string)
    ensures |r| <= |s| && r == s[..|r|] && AllDigits(r)
    ensures |r| == |s| || !IsDigit(s[|r|])
  {
    if s != [] && IsDigit(s[0]) then [s[0]] + DigitPrefix(s[1..]) else []
  }

  /** `parseInt(s, 10)`: skip leading whitespace, take one optional sign, then the
      longest run of decimal digits; NaN when that run is empty. Nothing after the run
      is looked at. */
  function ParseInt(s: string): IntOrNaN
  {
    var t := TrimStart(s);
    var negative := t != [] && t[0] == '-';
    var unsigned := if t != [] && (t[0] == '+' || t[0] == '-') then t[1..] else t;
    var digits := DigitPrefix(unsigned);
    if digits == [] then NaN
    else
      var magnitude: int := DigitsValue(digits);
      Int(if negative then -magnitude else magnitude)
  }

  /** `parseInt(v, 10)` for any tree value. */
  function ParseIntValue(v: Value): IntOrNaN
  {
    ParseInt(ToJsString(v))
  }

  /** How `parseInt` reads a string that starts with a digit or a sign: whatever
      digit run follows the sign, nothing is skipped before it. */
  lemma {:induction false} ParseIntUnpadded(s: string)
    requires s != [] && (IsDigit(s[0]) || s[0] == '-' || s[0] == '+')
    ensures var u := if IsDigit(s[0]) then s else s[1..];
            var ds := DigitPrefix(u);
            ParseInt(s) == if ds == [] then NaN
                           else if s[0] == '-' then Int(-(DigitsValue(ds) as int))
                           else Int(DigitsValue(ds))
  {
    assert !IsSpace(s[0]);
    assert TrimStart(s) == s;
  }

  /** The digit run of a string that is one digit run followed by a non-digit is that
      run. */
  lemma {:induction false} DigitPrefixOf(ds: string, rest: string)
    requires AllDigits(ds)
    requires rest == [] || !IsDigit(rest[0])
    ensures DigitPrefix(ds + rest) == ds
  {
    if ds == [] {
      assert ds + rest == rest;
    } else {
      assert (ds + rest)[1..] == ds[1..] + rest;
      DigitPrefixOf(ds[1..], rest);
    }
  }

  /** `parseInt` reads back the decimal form of every integer. */
  lemma {:induction false} ParseIntOfDecimal(n: int)
    ensures ParseInt(IntToDecimal(n)) == Int(n)
  {
    var m: nat := if n < 0 then -n else n;
    var ds := NatToDecimal(m);
    NatToDecimalValue(m);
    if n < 0 {
      ParseIntOfNegative(ds);
    } else {
      ParseIntStopsAtNonDigit(ds, []);
      assert ds + [] == ds;
    }
  }

  /** A minus sign before a digit run negates it. */
  lemma {:induction false} ParseIntOfNegative(ds: string)
    requires ds != [] && AllDigits(ds)
    ensures ParseInt("-" + ds) == Int(-(DigitsValue(ds) as int))
  {
    var s := "-" + ds;
    assert s[0] == '-' && !IsSpace(s[0]);
    assert TrimStart(s) == s;
    assert s[1..] == ds;
    DigitPrefixOf(ds, []);
    assert ds + [] == ds;
  }

  /** `parseInt` stops at the first character that is not a digit ("12ab" reads 12). */
  lemma {:induction false} ParseIntStopsAtNonDigit(ds: string, rest: string)
    requires ds != [] && AllDigits(ds)
    requires rest == [] || !IsDigit(rest[0])
    ensures ParseInt(ds + rest) == Int(DigitsValue(ds))
  {
    var s := ds + rest;
    assert s[0] == ds[0];
    DigitPrefixOf(ds, rest);
    ParseIntUnpadded(s);
  }

  /** Leading whitespace never changes what `parseInt` reads. */
  lemma {:induction false} ParseIntSkipsSpace(ws: string, s: string)
    requires AllSpace(ws)
    ensures ParseInt(ws + s) == ParseInt(s)
  {
    TrimStartSkipsSpace(ws, s);
  }

  /** `parseInt` finds no digit run in a string that starts with neither whitespace,
      a sign nor a digit. */
  lemma {:induction false} ParseIntNoDigits(s: string)
    requires s == [] || (!IsSpace(s[0]) && !IsDigit(s[0]) && s[0] != '-' && s[0] != '+')
    ensures ParseInt(s) == NaN
  {
    assert TrimStart(s) == s;
    assert DigitPrefix(s) == [];
  }

  /** `parseInt` of a number tree value is that number; of `null` or an object it is
      NaN, since their strings "null" and "[object Object]" hold no leading digit. */
  lemma {:induction false} ParseIntValueOfScalars(n: int, fields: map<string, Value>)
    ensures ParseIntValue(Num(n)) == Int(n)
    ensures ParseIntValue(Null) == NaN
    ensures ParseIntValue(Obj(fields)) == NaN
  {
    ParseIntOfDecimal(n);
    assert ToJsString(Null) == "null";
    ParseIntNoDigits("null");
    assert ToJsString(Obj(fields)) == "[object Object]";
    ParseIntNoDigits("[object Object]");
  }
}
