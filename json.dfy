/** The JavaScript values that arrive in request bodies, and how the handlers coerce them. */
module Json {
  import opened Wrappers
  import opened Strings

  /** A scalar field of a parsed JSON body; `Undefined` is a field that is not there. */
  datatype JsValue = Undefined | Null | Bool(b: bool) | Num(n: int) | Str(s: string)

  /** JavaScript truthiness (`!!v`). */
  predicate Truthy(v: JsValue) {
    match v
    case Undefined => false
    case Null => false
    case Bool(b) => b
    case Num(n) => n != 0
    case Str(s) => s != ""
  }

  /** Truthiness of an optional string field: present and non-empty. */
  predicate Filled(s: Option<string>) {
    s.Some? && s.value != ""
  }

  /** `String(v)`. */
  function ToJsString(v: JsValue): string {
    match v
    case Undefined => "undefined"
    case Null => "null"
    case Bool(b) => if b then "true" else "false"
    case Num(n) => IntToDecimal(n)
    case Str(s) => s
  }

  /** `parseInt(v)`: the value is converted to a string first; `None` stands for NaN. */
  function ParseIntValue(v: JsValue): Option<int> {
    ParseInt(ToJsString(v))
  }

  /** A JSON integer parses to itself. */
  lemma ParseIntOfNumber(n: int)
    ensures ParseIntValue(Num(n)) == Some(n)
  {
    ParseIntOfDecimal(n);
  }

  /** `parseInt` of a missing field, `null` or a boolean is NaN. */
  lemma ParseIntOfNonNumber(v: JsValue)
    requires v.Undefined? || v.Null? || v.Bool?
    ensures ParseIntValue(v) == None
  {
    var s := ToJsString(v);
    assert s[0] in "untf";
    NoLeadingDigit(s);
  }

  lemma NoLeadingDigit(s: string)
    requires s != [] && !IsSpace(s[0]) && s[0] != '-' && s[0] != '+' && s[0] != '0'
    requires DigitValue(s[0]) >= 10
    ensures ParseInt(s) == None
  {
    assert TrimStart(s) == s;
    assert DigitPrefix(s, 10) == [];
  }
}
