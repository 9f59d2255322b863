/**
  Shared vocabulary of the model: optional values, bytes, and the
  status-code replies that the HTTP handlers send back.
 */
module Basics {

  /** A value that may be absent (`undefined` / SQL NULL in the source). */
  datatype Option<+T> = None | Some(value: T) {

    /** The value, or `default` when absent (a column default, a `||` fallback). */
    function GetOr(default: T): T {
      match this
      case Some(v) => v
      case None => default
    }
  }

  /** One byte of a `Buffer` / `Uint8Array`. */
  type uint8 = x: int | 0 <= x < 256

  /** Milliseconds since the epoch, as `Date.now()` and `new Date()` give them. */
  type Millis = nat

  /**
    What a route handler answers: a success status with a body, or an
    error status with the message of its JSON body.
   */
  datatype Reply<+T> =
    | Success(code: int, body: T)
    | Failure(code: int, message: string)

  /** The decimal numeral of `n`, as a template literal or `toString()` prints it. */
  function NatToString(n: nat): (s: string)
    ensures |s| >= 1
    ensures forall i :: 0 <= i < |s| ==> '0' <= s[i] <= '9'
  {
    if n < 10 then [('0' as int + n) as char]
    else NatToString(n / 10) + [('0' as int + n % 10) as char]
  }

  /** The position of the first `c` in `s`. */
  function IndexOf(s: string, c: char): (i: nat)
    requires c in s
    ensures i < |s| && s[i] == c && c !in s[..i]
  {
    if s[0] == c then 0 else 1 + IndexOf(s[1..], c)
  }

  /** In `p + [c] + q` with no `c` in `p`, the first `c` is the one after `p`. */
  lemma IndexOfJoin(p: string, c: char, q: string)
    requires c !in p
    ensures c in p + [c] + q
    ensures IndexOf(p + [c] + q, c) == |p|
    ensures (p + [c] + q)[..|p|] == p && (p + [c] + q)[|p| + 1..] == q
  {
    var s := p + [c] + q;
    assert s[|p|] == c;
    var i := IndexOf(s, c);
    assert i == |p|;
    assert s[..|p|] == p;
    assert s[|p| + 1..] == q;
  }

  /** The number a string of decimal digits denotes. */
  function DecimalValue(s: string): nat
    requires forall i :: 0 <= i < |s| ==> '0' <= s[i] <= '9'
  {
    if s == [] then 0 else DecimalValue(s[..|s| - 1]) * 10 + (s[|s| - 1] as int - '0' as int)
  }

  /** Reading the numeral back gives the number: distinct numbers print differently. */
  lemma {:induction false} DecimalRoundTrip(n: nat)
    ensures DecimalValue(NatToString(n)) == n
  {
    var s := NatToString(n);
    if n >= 10 {
      DecimalRoundTrip(n / 10);
      assert s[..|s| - 1] == NatToString(n / 10);
    }
  }

  const CREATED := 201
  const OK := 200
  const BAD_REQUEST := 400
  const UNAUTHORIZED := 401
  const FORBIDDEN := 403
  const NOT_FOUND := 404
  const SERVER_ERROR := 500

  /** Multiplying by a non-negative factor keeps the order. */
  lemma MultiplyMonotone(a: nat, b: int, c: int)
    requires b <= c
    ensures a * b <= a * c
  {
    assert a * c == a * b + a * (c - b);
  }

  /** Integer division by a positive divisor is monotone in the dividend. */
  lemma DivideMonotone(a: int, b: int, d: nat)
    requires d > 0 && a <= b
    ensures a / d <= b / d
  {
    var qa, qb := a / d, b / d;
    if qa > qb {
      MultiplyMonotone(d, qb + 1, qa);
      assert false;
    }
  }

  /** A quotient is pinned down by the multiples of the divisor around the dividend. */
  lemma DivisionUnique(a: int, d: nat, q: int)
    requires d > 0 && d * q <= a < d * (q + 1)
    ensures a / d == q
  {
    var q' := a / d;
    if q' < q {
      MultiplyMonotone(d, q' + 1, q);
      assert false;
    }
    if q' > q {
      MultiplyMonotone(d, q + 1, q');
      assert false;
    }
  }
}
