/**
  The dynamically typed values that flow through the tool: front-matter
  fields parsed from YAML and article fields decoded from JSON. Python's
  equality between them and Python's `str()` of them are modelled where the
  tool relies on them: the article search compares with `==` and the update
  URL formats the article id into a path.
 */
module Values {

  /** A scalar value, or a compound one (list, dictionary, float, date)
      represented by its canonical text and by whether `json.dumps` accepts
      it: a date or datetime, alone or nested, it rejects. */
  datatype Value =
    | Null
    | Bool(b: bool)
    | Int(i: int)
    | Str(s: string)
    | Opaque(text: string, encodable: bool)

  /** A remote article or any other JSON object: field names to values. */
  type Article = map<string, Value>

  function BoolAsInt(b: bool): int
  {
    if b then 1 else 0
  }

  /** Python's `a == b`: `True == 1` and `False == 0` hold, and otherwise
      values of different kinds are unequal. */
  predicate PyEq(a: Value, b: Value)
  {
    match (a, b)
    case (Bool(x), Int(n)) => BoolAsInt(x) == n
    case (Int(n), Bool(x)) => n == BoolAsInt(x)
    case _ => a == b
  }

  predicate IsDigit(c: char)
  {
    '0' <= c <= '9'
  }

  function DigitValue(c: char): nat
    requires IsDigit(c)
  {
    c as int - '0' as int
  }

  function DigitChar(d: nat): (c: char)
    requires d < 10
    ensures IsDigit(c) && DigitValue(c) == d
  {
    ('0' as int + d) as char
  }

  /** The decimal digits of `n`, most significant first, without leading zeros. */
  function NatToString(n: nat): (s: string)
    ensures |s| >= 1 && forall k :: 0 <= k < |s| ==> IsDigit(s[k])
    decreases n
  {
    if n < 10 then [DigitChar(n)] else NatToString(n / 10) + [DigitChar(n % 10)]
  }

  /** Reads a string of decimal digits back as a number. */
  function ParseNat(s: string): nat
    requires forall k :: 0 <= k < |s| ==> IsDigit(s[k])
  {
    if s == [] then 0 else ParseNat(s[..|s| - 1]) * 10 + DigitValue(s[|s| - 1])
  }

  /** Python's `str(n)` for an integer: a minus sign for negative numbers. */
  function IntToString(n: int): string
  {
    if n < 0 then "-" + NatToString(-n) else NatToString(n)
  }

  function ParseInt(s: string): int
    requires |s| >= 1
    requires forall k :: 1 <= k < |s| ==> IsDigit(s[k])
    requires s[0] == '-' || IsDigit(s[0])
  {
    if s[0] == '-' then 0 - ParseNat(s[1..]) else ParseNat(s)
  }

  lemma {:induction false} ParseNatToString(n: nat)
    ensures ParseNat(NatToString(n)) == n
    decreases n
  {
    if n >= 10 {
      var s := NatToString(n);
      assert s[..|s| - 1] == NatToString(n / 10);
      ParseNatToString(n / 10);
    }
  }

  /** `str()` of an integer can be read back: distinct ids format differently. */
  lemma ParseIntToString(n: int)
    ensures var s := IntToString(n);
      |s| >= 1 && (s[0] == '-' || IsDigit(s[0])) && (forall k :: 1 <= k < |s| ==> IsDigit(s[k]))
      && ParseInt(s) == n
  {
    if n < 0 {
      var s := IntToString(n);
      assert s[1..] == NatToString(-n);
      ParseNatToString(-n);
    } else {
      ParseNatToString(n);
    }
  }

  /** Whether the JSON encoder accepts the value: every scalar, and the
      compound values that hold no date. */
  predicate JsonEncodable(v: Value)
  {
    !v.Opaque? || v.encodable
  }

  /** Python's `str(v)`, as used by an f-string. */
  function Format(v: Value): string
  {
    match v
    case Null => "None"
    case Bool(b) => if b then "True" else "False"
    case Int(n) => IntToString(n)
    case Str(s) => s
    case Opaque(text, _) => text
  }
}
