/** JSON values as serde_json's `Value` holds them, and their compact text
    (`Value::to_string`). Numbers are integers only. Objects are maps, so two
    objects with the same members are equal whatever order they were built
    in, as serde_json's `Map` equality also ignores order. */
module JsonValues {
  import opened KeyOrder

  datatype Json =
    | JNull
    | JBool(b: bool)
    | JNumber(n: int)
    | JString(s: string)
    | JArray(items: seq<Json>)
    | JObject(fields: map<string, Json>)

  /** `json!({})`. */
  const EmptyObject: Json := JObject(map[])

  /** `json!({"error": message})`, the shape of every error reply. */
  function ErrorObject(message: string): (r: Json)
    ensures r.JObject? && r.fields.Keys == {"error"} && r.fields["error"] == JString(message)
  {
    JObject(map["error" := JString(message)])
  }

  function DigitChar(d: nat): char
    requires d < 10
  {
    "0123456789"[d]
  }

  predicate IsDigit(c: char)
  {
    '0' <= c <= '9'
  }

  /** Decimal digits of `n` without leading zeros. */
  function Digits(n: nat): (r: string)
    ensures |r| > 0
    ensures forall i | 0 <= i < |r| :: IsDigit(r[i])
    ensures |r| > 1 ==> r[0] != '0'
  {
    if n < 10 then [DigitChar(n)] else Digits(n / 10) + [DigitChar(n % 10)]
  }

  /** The value of a digit string, the inverse of `Digits`. */
  function DigitsValue(s: string): nat
    requires forall i | 0 <= i < |s| :: IsDigit(s[i])
  {
    if |s| == 0 then 0
    else
      assert IsDigit(s[|s| - 1]);
      DigitsValue(s[..|s| - 1]) * 10 + (s[|s| - 1] as int - '0' as int) as nat
  }

  lemma {:induction false} DigitsRoundTrip(n: nat)
    ensures DigitsValue(Digits(n)) == n
  {
    if n >= 10 {
      var s := Digits(n);
      assert s[..|s| - 1] == Digits(n / 10);
      DigitsRoundTrip(n / 10);
    }
  }

  /** serde_json's text for an integer. */
  function NumberText(n: int): string
  {
    if n < 0 then "-" + Digits(-n) else Digits(n)
  }

  lemma DigitsInjective(a: nat, b: nat)
    requires Digits(a) == Digits(b)
    ensures a == b
  {
    DigitsRoundTrip(a);
    DigitsRoundTrip(b);
  }

  lemma NumberTextInjective(a: int, b: int)
    requires NumberText(a) == NumberText(b)
    ensures a == b
  {
    NumberTextSign(a);
    NumberTextSign(b);
    if a < 0 && b < 0 {
      DigitsInjective(-a, -b);
    } else if a >= 0 && b >= 0 {
      DigitsInjective(a, b);
    }
  }

  /** A negative number's text is a minus sign before its magnitude's digits;
      any other number's text starts with a digit. */
  lemma NumberTextSign(n: int)
    ensures n < 0 ==> NumberText(n)[0] == '-' && NumberText(n)[1..] == Digits(-n)
    ensures n >= 0 ==> IsDigit(NumberText(n)[0]) && NumberText(n) == Digits(n)
  {
    if n < 0 {
      assert NumberText(n) == "-" + Digits(-n);
    }
  }

  function HexDigit(d: nat): char
    requires d < 16
  {
    "0123456789abcdef"[d]
  }

  /** serde_json's escaping of one character inside a string literal. */
  function EscapeChar(c: char): string
  {
    if c == '"' then "\\\""
    else if c == '\\' then "\\\\"
    else if c == '\U{0008}' then "\\b"
    else if c == '\U{000C}' then "\\f"
    else if c == '\n' then "\\n"
    else if c == '\r' then "\\r"
    else if c == '\t' then "\\t"
    else if (c as int) < 0x20 then "\\u00" + [HexDigit(c as int / 16), HexDigit(c as int % 16)]
    else [c]
  }

  function Escape(s: string): string
  {
    if |s| == 0 then "" else EscapeChar(s[0]) + Escape(s[1..])
  }

  /** `Value::to_string()`: the compact JSON text of a value, object members
      in ascending key order. */
  function Render(v: Json): (r: string)
    ensures |r| > 0
    decreases v, 1, 0
  {
    match v
    case JNull => "null"
    case JBool(b) => if b then "true" else "false"
    case JNumber(n) => NumberText(n)
    case JString(s) => "\"" + Escape(s) + "\""
    case JArray(items) => "[" + RenderItems(v, 0) + "]"
    case JObject(fields) => "{" + RenderMembers(v, SortedKeys(fields.Keys)) + "}"
  }

  function RenderItems(arr: Json, from: nat): string
    requires arr.JArray?
    decreases arr, 0, |arr.items| - from
  {
    if from >= |arr.items| then ""
    else
      (if from == 0 then "" else ",") + Render(arr.items[from]) + RenderItems(arr, from + 1)
  }

  function RenderMembers(obj: Json, keys: seq<string>): string
    requires obj.JObject?
    decreases obj, 0, |keys|
  {
    if |keys| == 0 then ""
    else
      var member :=
        if keys[0] in obj.fields then "\"" + Escape(keys[0]) + "\":" + Render(obj.fields[keys[0]]) else "";
      member + (if |keys| == 1 then "" else "," + RenderMembers(obj, keys[1..]))
  }

  /** Only a JSON string renders with a leading quote. */
  lemma RenderQuoted(v: Json)
    ensures Render(v)[0] == '"' <==> v.JString?
  {
    match v
    case JNumber(n) => NumberTextSign(n);
    case _ =>
  }

  /** The text of an integer is its decimal numeral and nothing else renders
      to it: comparing texts identifies an integer exactly. */
  lemma RenderNumberExactly(v: Json, n: int)
    ensures Render(v) == NumberText(n) <==> v == JNumber(n)
  {
    if Render(v) == NumberText(n) {
      NumberTextSign(n);
      if v.JNumber? {
        NumberTextInjective(v.n, n);
      }
    }
  }
}
