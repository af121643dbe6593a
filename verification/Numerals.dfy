/** Decimal numerals: how ids are printed and read back. */
module Numerals {

  function Digit(d: nat): char
    requires d < 10
  {
    '0' + d as char
  }

  predicate IsDigit(c: char) {
    '0' <= c <= '9'
  }

  predicate AllDigits(s: string) {
    forall i :: 0 <= i < |s| ==> IsDigit(s[i])
  }

  /** `str(n)`. */
  function Dec(n: nat): (s: string)
    ensures s != [] && AllDigits(s)
  {
    if n < 10 then [Digit(n)] else Dec(n / 10) + [Digit(n % 10)]
  }

  /** `int(s)` on a string of digits. */
  function Value(s: string): nat
    requires AllDigits(s)
  {
    if s == [] then 0
    else
      var last := s[|s| - 1];
      assert IsDigit(last);
      Value(s[..|s| - 1]) * 10 + (last - '0') as nat
  }

  /** Reading a printed number gives it back. */
  lemma {:induction false} ValueOfDec(n: nat)
    ensures Value(Dec(n)) == n
  {
    if n < 10 {
      assert Dec(n)[..0] == [];
      assert Value(Dec(n)[..0]) == 0;
    } else {
      ValueOfDec(n / 10);
      assert Dec(n)[..|Dec(n)| - 1] == Dec(n / 10);
    }
  }

  lemma DecInjective(a: nat, b: nat)
    requires Dec(a) == Dec(b)
    ensures a == b
  {
    ValueOfDec(a);
    ValueOfDec(b);
  }

  /** `f"{n:0{width}d}"`. */
  function Padded(n: nat, width: nat): string {
    Zeros(width - |Dec(n)|) + Dec(n)
  }

  function Zeros(k: int): string {
    if k <= 0 then "" else "0" + Zeros(k - 1)
  }

  lemma {:induction false} ZerosAre(k: int)
    ensures |Zeros(k)| == (if k <= 0 then 0 else k) && forall i :: 0 <= i < |Zeros(k)| ==> Zeros(k)[i] == '0'
    decreases k
  {
    if k > 0 {
      ZerosAre(k - 1);
    }
  }

  lemma {:induction false} LeadingZeros(z: string, s: string)
    requires (forall i :: 0 <= i < |z| ==> z[i] == '0') && AllDigits(s)
    ensures AllDigits(z + s) && Value(z + s) == Value(s)
    decreases |z| + |s|
  {
    var all := z + s;
    if s != [] {
      LeadingZeros(z, s[..|s| - 1]);
      assert all[..|all| - 1] == z + s[..|s| - 1];
    } else if z != [] {
      LeadingZeros(z[..|z| - 1], []);
      assert all[..|all| - 1] == z[..|z| - 1] + [];
    }
  }

  /** A padded number is digits that read back as the number, as many as the width asks for
      or the number takes. */
  lemma PaddedIs(n: nat, width: nat)
    ensures var s := Padded(n, width);
            && AllDigits(s) && Value(s) == n && |s| == (if |Dec(n)| < width then width else |Dec(n)|)
  {
    hide Dec, Zeros, Value;
    ZerosAre(width - |Dec(n)|);
    LeadingZeros(Zeros(width - |Dec(n)|), Dec(n));
    ValueOfDec(n);
  }

  lemma PaddedInjective(a: nat, b: nat, width: nat)
    requires Padded(a, width) == Padded(b, width)
    ensures a == b
  {
    hide Padded;
    PaddedIs(a, width);
    PaddedIs(b, width);
  }
}
