/** Bytes, little-endian integers and decimal numerals. */
module Encodings {
  type byte = b: int | 0 <= b < 256

  // ---------------------------------------------------------------- little-endian integers

  function Pow256(k: nat): nat {
    if k == 0 then 1 else 256 * Pow256(k - 1)
  }

  /** The low `k` bytes of `n`, least significant first; higher ones are cut off. */
  function ToLE(n: nat, k: nat): (bytes: seq<byte>)
    ensures |bytes| == k
  {
    if k == 0 then [] else [n % 256] + ToLE(n / 256, k - 1)
  }

  function FromLE(bytes: seq<byte>): (n: nat)
    ensures n < Pow256(|bytes|)
  {
    if bytes == [] then 0 else bytes[0] + 256 * FromLE(bytes[1..])
  }

  /** Decoding what was encoded gives the number back, as long as it fits the width. */
  lemma {:induction false} LERoundTrip(n: nat, k: nat)
    requires n < Pow256(k)
    ensures FromLE(ToLE(n, k)) == n
  {
    if k > 0 {
      LERoundTrip(n / 256, k - 1);
      assert ToLE(n, k)[1..] == ToLE(n / 256, k - 1);
    }
  }

  /** Byte `i` is digit `i` of the number in base 256: the least significant comes first. */
  lemma {:induction false} LEDigits(n: nat, k: nat, i: nat)
    requires i < k
    ensures Pow256(i) > 0 && ToLE(n, k)[i] == n / Pow256(i) % 256
    decreases k
  {
    if i > 0 {
      LEDigits(n / 256, k - 1, i - 1);
      assert ToLE(n, k)[i] == ToLE(n / 256, k - 1)[i - 1];
      DivTwice(n, Pow256(i - 1));
    }
  }

  lemma DivTwice(n: nat, p: nat)
    requires p > 0
    ensures n / (256 * p) == n / 256 / p
  {
    var q, r := n / 256 / p, n / 256 % p;
    assert n / 256 == q * p + r;
    var rest := 256 * r + n % 256;
    assert n == q * (256 * p) + rest && 0 <= rest < 256 * p;
    QuotientIs(n, 256 * p, q, rest);
  }

  lemma QuotientIs(n: nat, d: nat, q: nat, r: nat)
    requires r < d && n == q * d + r
    ensures n / d == q
  {
    if q < n / d {
      Scaled(q + 1, n / d, d);
      assert false;
    } else if n / d < q {
      Scaled(n / d + 1, q, d);
      assert false;
    }
  }

  lemma Scaled(a: nat, b: nat, d: nat)
    requires a <= b
    ensures a * d <= b * d
  {
    assert b * d == a * d + (b - a) * d;
  }

  function Word(a: int, b: int, c: int, d: int): int {
    a + 0x100 * b + 0x1_0000 * c + 0x100_0000 * d
  }

  /** Four bytes spelled out. */
  lemma FourBytes(bytes: seq<byte>)
    requires |bytes| == 4
    ensures FromLE(bytes) == Word(bytes[0], bytes[1], bytes[2], bytes[3])
  {
    var a, b, c := bytes[1..], bytes[1..][1..], bytes[1..][1..][1..];
    assert FromLE(c) == c[0] + 256 * FromLE(c[1..]) == bytes[3];
    assert FromLE(b) == bytes[2] + 256 * FromLE(c);
    assert FromLE(a) == bytes[1] + 256 * FromLE(b);
  }

  lemma U32Range()
    ensures Pow256(4) == 0x1_0000_0000
  {
    assert Pow256(2) == 0x1_0000;
  }

  lemma U64Range()
    ensures Pow256(8) == 0x1_0000_0000_0000_0000
  {
    U32Range();
    assert Pow256(6) == 0x1_0000_0000_0000;
  }

  // ---------------------------------------------------------------- decimal numerals

  function Decimal(n: nat): string {
    var digit := [('0' as int + n % 10) as char];
    if n < 10 then digit else Decimal(n / 10) + digit
  }

  /** The value of a string of digits. */
  function Value(s: string): int {
    if s == "" then 0 else 10 * Value(s[..|s| - 1]) + (s[|s| - 1] as int - '0' as int)
  }

  /** A numeral is made of digits, has the number as its value, and starts with no zero but for 0 itself. */
  lemma {:induction false} DecimalReads(n: nat)
    ensures forall c | c in Decimal(n) :: '0' <= c <= '9'
    ensures Decimal(n) != "" && Value(Decimal(n)) == n
    ensures Decimal(n)[0] == '0' ==> n == 0 && Decimal(n) == "0"
  {
    var s, digit := Decimal(n), ('0' as int + n % 10) as char;
    assert s[|s| - 1] == digit;
    if n < 10 {
      assert s == [digit] && s[..0] == "";
    } else {
      DecimalReads(n / 10);
      assert s[..|s| - 1] == Decimal(n / 10);
    }
  }

  function Pow10(k: nat): nat {
    if k == 0 then 1 else 10 * Pow10(k - 1)
  }

  lemma {:induction false} DecimalLength(n: nat, k: nat)
    requires 0 < k && n < Pow10(k)
    ensures |Decimal(n)| <= k
    decreases k
  {
    if 10 <= n {
      assert k > 1 by {
        assert Pow10(1) == 10;
      }
      DecimalLength(n / 10, k - 1);
    }
  }

  lemma {:induction false} DecimalInjective(a: nat, b: nat)
    requires Decimal(a) == Decimal(b)
    ensures a == b
  {
    var x, y := Decimal(a), Decimal(b);
    assert x[|x| - 1] == ('0' as int + a % 10) as char && y[|y| - 1] == ('0' as int + b % 10) as char;
    assert a % 10 == b % 10;
    if a >= 10 && b >= 10 {
      assert x[..|x| - 1] == Decimal(a / 10) && y[..|y| - 1] == Decimal(b / 10);
      DecimalInjective(a / 10, b / 10);
    }
  }
}
