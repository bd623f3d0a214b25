/** The parts of Java's `int` and `Long` semantics the services rely on. */
module JavaLang {

  /** Java's 32-bit `int` (and unboxed `Integer`). */
  type int32 = x: int | -0x8000_0000 <= x < 0x8000_0000

  /** Java's `a - b` on `int`: the exact difference wrapped into 32 bits. */
  function Sub(a: int32, b: int32): (r: int32)
    ensures (a - b - r) % 0x1_0000_0000 == 0
    ensures -0x8000_0000 <= a - b < 0x8000_0000 ==> r == a - b
  {
    var d := a - b;
    if d < -0x8000_0000 then d + 0x1_0000_0000
    else if d >= 0x8000_0000 then d - 0x1_0000_0000
    else d
  }

  /** The character Java prints for the decimal digit d. */
  function Digit(d: nat): (c: char)
    requires d < 10
    ensures '0' <= c <= '9'
  {
    (48 + d) as char
  }

  ghost predicate IsDigits(s: string) {
    forall i :: 0 <= i < |s| ==> '0' <= s[i] <= '9'
  }

  /** The decimal numeral of n, without leading zeros. */
  function NatToString(n: nat): (s: string)
    ensures 1 <= |s| && IsDigits(s)
    ensures |s| == 1 <==> n < 10
    ensures s[0] == '0' ==> n == 0
  {
    if n < 10 then [Digit(n)] else NatToString(n / 10) + [Digit(n % 10)]
  }

  /** Java's `Long.toString(n)`, which is what `"text" + n` appends for a `Long`. */
  function LongToString(n: int): (s: string)
    ensures 1 <= |s|
    ensures s[0] == '-' <==> n < 0
  {
    if n < 0 then "-" + NatToString(-n) else NatToString(n)
  }

  /** The number a string of decimal digits denotes, most significant digit first. */
  function DecimalValue(s: string): int
    decreases |s|
  {
    if s == [] then 0 else DecimalValue(s[..|s| - 1]) * 10 + (s[|s| - 1] as int - 48)
  }

  /** The number a decimal numeral with an optional leading '-' denotes
      (what `Long.parseLong` reads back). */
  function LongValue(s: string): int {
    if 0 < |s| && s[0] == '-' then -DecimalValue(s[1..]) else DecimalValue(s)
  }

  /** The numeral NatToString prints stands for n. */
  lemma {:induction false} NatToStringValue(n: nat)
    ensures DecimalValue(NatToString(n)) == n
    decreases n
  {
    if n >= 10 {
      var s := NatToString(n);
      assert s[..|s| - 1] == NatToString(n / 10);
      NatToStringValue(n / 10);
    }
  }

  /** The numeral LongToString prints stands for n: Long.parseLong reads n back. */
  lemma LongToStringValue(n: int)
    ensures LongValue(LongToString(n)) == n
  {
    if n < 0 {
      var digits := NatToString(-n);
      var s := "-" + digits;
      assert s[0] == '-' && s[1..] == digits;
      assert LongValue(s) == -DecimalValue(digits);
      NatToStringValue(-n);
    } else {
      NatToStringValue(n);
    }
  }

  /** Distinct numbers print differently: the id in a message determines the id. */
  lemma LongToStringInjective(a: int, b: int)
    requires LongToString(a) == LongToString(b)
    ensures a == b
  {
    LongToStringValue(a);
    LongToStringValue(b);
  }

  /** The message `prefix + id` gives back its id. */
  lemma MessageSuffix(prefix: string, a: int, b: int)
    requires prefix + LongToString(a) == prefix + LongToString(b)
    ensures a == b
  {
    var m := prefix + LongToString(a);
    assert LongToString(a) == m[|prefix|..] == LongToString(b);
    LongToStringInjective(a, b);
  }
}
