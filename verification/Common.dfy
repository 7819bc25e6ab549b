/** Arithmetic and container idioms shared by every component model. */
module Common {

  datatype Option<+T> = None | Some(value: T)

  function Abs(x: int): nat {
    if x < 0 then -x else x
  }

  function Max(a: int, b: int): int {
    if a < b then b else a
  }

  function Min(a: int, b: int): int {
    if a < b then a else b
  }

  /** Python's `(a + b - 1) // b` for a positive divisor. */
  function CeilDiv(a: int, b: int): int
    requires b > 0
  {
    (a + b - 1) / b
  }

  /** Python's `int(round(x / 2.0))`: round half to even. */
  function RoundHalf(x: int): (r: int)
    ensures -1 <= 2 * r - x <= 1 && (2 * r != x ==> r % 2 == 0)
  {
    if x % 2 == 0 || (x / 2) % 2 == 0 then x / 2 else x / 2 + 1
  }

  /** `q` is the least integer whose product with `b` reaches `a`. */
  lemma CeilDivIsLeast(a: int, b: int, q: int)
    requires b > 0
    ensures CeilDiv(a, b) <= q <==> a <= q * b
  {
    var c := CeilDiv(a, b);
    var r := (a + b - 1) % b;
    assert a + b - 1 == b * c + r;
    if q < c {
      assert q * b <= (c - 1) * b;
      assert (c - 1) * b == b * c - b;
    } else {
      assert c * b <= q * b;
      assert c * b == b * c;
    }
  }

  /** A product is negative exactly for opposite signs. */
  lemma SignsMultiply(a: int, b: int)
    ensures a * b < 0 <==> (a < 0 < b) || (b < 0 < a)
    ensures a * b > 0 <==> (a > 0 && b > 0) || (a < 0 && b < 0)
  {
    if a != 0 && b != 0 {
      ScaleOrder(1, Abs(a), Abs(b));
    }
  }

  lemma ScaleOrder(a: int, b: int, k: int)
    requires a <= b && 0 <= k
    ensures a * k <= b * k
  {
  }

  /** `q` is at most the floor quotient exactly while `q * d` is at most `v`. */
  lemma FloorReaches(v: int, d: int, q: int)
    requires d > 0
    ensures q <= v / d <==> q * d <= v
  {
    var f := v / d;
    assert f * d <= v < (f + 1) * d;
    if q <= f {
      ScaleOrder(q, f, d);
    } else {
      ScaleOrder(f + 1, q, d);
    }
  }

  lemma FloorBetween(low: int, high: int, v: int, d: int)
    requires d > 0 && low * d <= v <= high * d
    ensures low <= v / d <= high
  {
    FloorReaches(v, d, low);
    FloorReaches(v, d, high + 1);
    assert (high + 1) * d == high * d + d;
  }

  function Insert(x: int, s: seq<int>): (r: seq<int>)
    ensures |r| == |s| + 1
  {
    if s == [] then [x]
    else if x <= s[0] then [x] + s
    else [s[0]] + Insert(x, s[1..])
  }

  function Sort(s: seq<int>): (r: seq<int>)
    ensures |r| == |s|
  {
    if s == [] then [] else Insert(s[|s| - 1], Sort(s[..|s| - 1]))
  }

  ghost predicate Ascending(s: seq<int>) {
    forall i, j :: 0 <= i < j < |s| ==> s[i] <= s[j]
  }

  lemma {:induction false} InsertKeepsOrder(x: int, s: seq<int>)
    requires Ascending(s)
    ensures Ascending(Insert(x, s))
    ensures Insert(x, s)[0] == if s == [] then x else Min(x, s[0])
  {
    if s != [] && x > s[0] {
      InsertKeepsOrder(x, s[1..]);
    }
  }
}
