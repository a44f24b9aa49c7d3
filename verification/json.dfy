/**
 * JSON-like values as the LLM returns them and as spreadsheet cells hold them,
 * and Python's `str()` on the scalar ones.
 */
module Json {

  import opened Wrappers

  /** A scalar: Python None, bool, int, float or str. A float carries the text `str()` gives for it. */
  datatype Scalar = Null | Bool(b: bool) | Int(i: int) | Float(repr: string) | Str(s: string)

  /** A value tree: a scalar leaf, a list, or a dict whose entries keep their insertion order. */
  datatype Json = Leaf(v: Scalar) | Arr(items: seq<Json>) | Obj(fields: seq<(string, Json)>)

  predicate IsContainer(j: Json) {
    j.Arr? || j.Obj?
  }

  function DigitChar(d: nat): (c: char)
    requires d < 10
    ensures '0' <= c <= '9'
  {
    ('0' as int + d) as char
  }

  /** Decimal digits of a natural number, as Python's `str()` writes them (no leading zero). */
  function NatToString(n: nat): (r: string)
    ensures |r| >= 1
    ensures forall i :: 0 <= i < |r| ==> '0' <= r[i] <= '9'
    ensures n < 10 <==> |r| == 1
    decreases n
  {
    if n < 10 then [DigitChar(n)] else NatToString(n / 10) + [DigitChar(n % 10)]
  }

  function IntToString(i: int): string {
    if i < 0 then "-" + NatToString(-i) else NatToString(i)
  }

  /** Distinct numbers have distinct decimal forms. */
  lemma {:induction false} NatToStringInjective(a: nat, b: nat)
    requires NatToString(a) == NatToString(b)
    ensures a == b
    decreases a
  {
    var sa, sb := NatToString(a), NatToString(b);
    if a < 10 && b < 10 {
      assert sa[0] == DigitChar(a) && sb[0] == DigitChar(b);
    } else if a >= 10 && b >= 10 {
      var pa, pb := NatToString(a / 10), NatToString(b / 10);
      assert sa == pa + [DigitChar(a % 10)] && sb == pb + [DigitChar(b % 10)];
      assert |pa| == |sa| - 1 == |sb| - 1 == |pb|;
      assert pa == sa[..|pa|] && pb == sb[..|pb|];
      NatToStringInjective(a / 10, b / 10);
      assert sa[|pa|] == DigitChar(a % 10) && sb[|pb|] == DigitChar(b % 10);
    }
  }

  /** Python's `str()` of a scalar. */
  function PyStr(v: Scalar): string {
    match v
    case Null => "None"
    case Bool(b) => if b then "True" else "False"
    case Int(i) => IntToString(i)
    case Float(r) => r
    case Str(s) => s
  }

  /** Python's `isinstance(x, int)`: a bool is an int too (True is 1, False is 0). */
  function AsPyInt(v: Scalar): Option<int> {
    match v
    case Int(i) => Some(i)
    case Bool(b) => Some(if b then 1 else 0)
    case _ => None
  }
}
