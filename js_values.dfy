/** Values as they arrive in a parsed JSON request body, and the handful of
    JavaScript operations the GPark handlers apply to them: truthiness,
    strict equality, `typeof`, `Object.entries` and the decimal rendering
    of a whole number. */
module JsValues {

  /** A JSON value. `Undefined` stands for a key the request body does not
      carry. An object is given by its own properties, each key once, in the
      order in which `Object.entries` lists them: keys that are array
      indices (such as all eight duration tiers) first, in ascending numeric
      order, then the other keys in the order they were inserted. `Num`
      holds a finite number; a literal out of the double range, which
      `JSON.parse` turns into an infinity, is not represented. */
  datatype Json =
    | Undefined
    | Null
    | Bool(b: bool)
    | Num(x: real)
    | Str(s: string)
    | Arr(items: seq<Json>)
    | Obj(props: seq<(string, Json)>)

  /** JavaScript truthiness: the value of `!!v`. */
  predicate Truthy(v: Json) {
    match v
    case Undefined => false
    case Null => false
    case Bool(b) => b
    case Num(x) => x != 0.0
    case Str(s) => s != ""
    case Arr(_) => true
    case Obj(_) => true
  }

  /** `a === b`. Primitives compare by value; arrays and objects compare by
      identity, and two of them parsed from different request bodies are
      never the same object. */
  predicate StrictEquals(a: Json, b: Json) {
    a == b && !a.Arr? && !a.Obj?
  }

  /** `typeof v === 'object'` (true of null as well). */
  predicate IsObjectType(v: Json) {
    v.Null? || v.Arr? || v.Obj?
  }

  /** `Object.entries(v)` for an array or an object: an array lists its
      indices, written in decimal, with its elements. */
  function Entries(v: Json): seq<(string, Json)>
    requires v.Arr? || v.Obj?
  {
    if v.Obj? then v.props
    else seq(|v.items|, i requires 0 <= i < |v.items| => (NatToString(i), v.items[i]))
  }

  predicate IsDigit(c: char) {
    '0' <= c <= '9'
  }

  function DigitChar(d: nat): (c: char)
    requires d < 10
    ensures IsDigit(c)
  {
    "0123456789"[d]
  }

  function DigitValue(c: char): nat {
    if IsDigit(c) then (c as int - '0' as int) else 0
  }

  /** `n.toString()` for a whole number `n`: its decimal digits, most
      significant first, without leading zeros. */
  function NatToString(n: nat): (s: string)
    ensures |s| >= 1
    ensures forall i :: 0 <= i < |s| ==> IsDigit(s[i])
    ensures (s[0] == '0') <==> (n == 0)
    decreases n
  {
    if n < 10 then [DigitChar(n)] else NatToString(n / 10) + [DigitChar(n % 10)]
  }

  /** The value of a string of decimal digits; the inverse of NatToString. */
  function ParseNat(s: string): nat
    decreases |s|
  {
    if s == [] then 0 else ParseNat(s[..|s| - 1]) * 10 + DigitValue(s[|s| - 1])
  }

  lemma DigitRoundTrip(d: nat)
    requires d < 10
    ensures DigitValue(DigitChar(d)) == d
  {
  }

  /** Reading back the rendering of a number gives the number. */
  lemma {:induction false} ParseNatToString(n: nat)
    ensures ParseNat(NatToString(n)) == n
    decreases n
  {
    var s := NatToString(n);
    if n < 10 {
      DigitRoundTrip(n);
      assert s[..|s| - 1] == [];
    } else {
      ParseNatToString(n / 10);
      DigitRoundTrip(n % 10);
      assert s[..|s| - 1] == NatToString(n / 10);
    }
  }

  /** Distinct numbers render as distinct strings. */
  lemma NatToStringInjective(a: nat, b: nat)
    ensures NatToString(a) == NatToString(b) ==> a == b
  {
    ParseNatToString(a);
    ParseNatToString(b);
  }
}
