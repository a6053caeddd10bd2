/** Decimal numbers as bytes: printing, padding, and Rust's unsigned from_str. */
module Decimal {
  import opened Wrappers
  import opened Octets

  function DigitByte(d: int): byte
    requires 0 <= d < 10
  {
    48 + d as byte
  }

  function DigitValue(b: byte): (d: nat)
    requires IsDigit(b)
    ensures d < 10 && DigitByte(d) == b
  {
    b as int - 48
  }

  /** The decimal text of n, without leading zeros. */
  function Digits(n: nat): (s: Bytes)
    ensures s != []
  {
    if n < 10 then [DigitByte(n)] else Digits(n / 10) + [DigitByte(n % 10)]
  }

  /** Digits padded with zeros on the left to a least width. */
  function Padded(n: nat, width: nat): Bytes {
    Zeros(width - |Digits(n)|) + Digits(n)
  }

  function Zeros(n: int): Bytes {
    if n <= 0 then [] else [ZERO] + Zeros(n - 1)
  }

  predicate AllDigits(s: Bytes) {
    forall k :: 0 <= k < |s| ==> IsDigit(s[k])
  }

  function Value(s: Bytes): nat
    requires AllDigits(s)
  {
    if s == [] then 0 else Value(s[..|s| - 1]) * 10 + DigitValue(s[|s| - 1])
  }

  /** str::parse for an unsigned type of a given greatest value: an optional plus sign, digits, no overflow. */
  function FromStr(s: Bytes, max: nat): (r: Option<nat>)
    ensures r.Some? ==> r.value <= max
  {
    var digits := if |s| > 1 && s[0] == PLUS then s[1..] else s;
    if digits != [] && AllDigits(digits) && Value(digits) <= max then Some(Value(digits)) else None
  }

  lemma {:induction false} DigitsHaveValue(n: nat)
    ensures AllDigits(Digits(n)) && Value(Digits(n)) == n
  {
    if n < 10 {
      assert [DigitByte(n)][..0] == [];
    } else {
      DigitsHaveValue(n / 10);
      var s := Digits(n / 10) + [DigitByte(n % 10)];
      assert s[..|s| - 1] == Digits(n / 10);
    }
  }

  /** A printed number is read back exactly when it fits the type. */
  lemma PrintedNumberParses(n: nat, max: nat)
    ensures FromStr(Digits(n), max) == if n <= max then Some(n) else None
  {
    DigitsHaveValue(n);
  }

  /** What is read as a number: decimal digits, with any zeros and at most one plus sign in front, within the bound. */
  lemma NumbersAreRead(n: nat, zeros: nat, max: nat)
    ensures FromStr(Zeros(zeros) + Digits(n), max) == FromStr(Digits(n), max)
    ensures FromStr([PLUS] + (Zeros(zeros) + Digits(n)), max) == FromStr(Digits(n), max)
  {
    DigitsHaveValue(n);
    ZerosAddNothing(zeros, Digits(n));
    var t := Zeros(zeros) + Digits(n);
    assert ([PLUS] + t)[1..] == t && t != [];
    assert IsDigit(t[0]);
    assert IsDigit(Digits(n)[0]);
  }

  lemma OnlyNumbersAreRead(s: Bytes, max: nat)
    ensures FromStr(s, max).Some? ==> s != [] && IsDigit(s[|s| - 1])
    ensures FromStr(s, max).Some? ==> forall k :: 0 <= k < |s| ==> IsDigit(s[k]) || (k == 0 && s[k] == PLUS)
  {
  }

  lemma PaddedTwo(n: nat)
    requires n < 100
    ensures Padded(n, 2) == [DigitByte(n / 10), DigitByte(n % 10)]
  {
    if n < 10 {
      assert Zeros(1) == [ZERO] + Zeros(0);
    } else {
      assert Digits(n / 10) == [DigitByte(n / 10)];
    }
  }

  /** Padded numbers have their value. */
  lemma {:induction false} ZerosAddNothing(zeros: nat, s: Bytes)
    requires AllDigits(s)
    ensures AllDigits(Zeros(zeros) + s) && Value(Zeros(zeros) + s) == Value(s)
    decreases |s|
  {
    ZerosAreDigits(zeros);
    var t := Zeros(zeros) + s;
    if s == [] {
      assert t == Zeros(zeros);
    } else {
      ZerosAddNothing(zeros, s[..|s| - 1]);
      assert t[..|t| - 1] == Zeros(zeros) + s[..|s| - 1];
    }
  }

  lemma {:induction false} ZerosAreDigits(zeros: nat)
    ensures |Zeros(zeros)| == zeros && AllDigits(Zeros(zeros)) && Value(Zeros(zeros)) == 0
  {
    hide Value;
    if zeros == 0 {
      NothingHasNoValue();
    } else {
      ZerosAreDigits(zeros - 1);
      ZerosGrowBehind(zeros - 1);
      ZeroBehind(Zeros(zeros - 1));
    }
  }

  lemma NothingHasNoValue()
    ensures Value([]) == 0
  {
  }

  lemma ZeroBehind(s: Bytes)
    requires AllDigits(s)
    ensures AllDigits(s + [ZERO]) && Value(s + [ZERO]) == Value(s) * 10
  {
    assert (s + [ZERO])[..|s|] == s;
  }

  lemma {:induction false} ZerosGrowBehind(zeros: nat)
    ensures Zeros(zeros + 1) == Zeros(zeros) + [ZERO]
  {
    if zeros > 0 {
      ZerosGrowBehind(zeros - 1);
    } else {
      assert Zeros(1) == [ZERO] + Zeros(0);
    }
  }

  lemma PaddedHasValue(n: nat, width: nat)
    ensures AllDigits(Padded(n, width)) && Value(Padded(n, width)) == n
  {
    hide Digits;
    DigitsHaveValue(n);
    if width > |Digits(n)| {
      ZerosAddNothing(width - |Digits(n)|, Digits(n));
    } else {
      assert Zeros(width - |Digits(n)|) == [] && [] + Digits(n) == Digits(n);
    }
  }

  lemma PaddedFour(n: nat)
    requires n < 10_000
    ensures Padded(n, 4) == [DigitByte(n / 1000), DigitByte(n / 100 % 10), DigitByte(n / 10 % 10), DigitByte(n % 10)]
  {
    hide DigitByte;
    assert Zeros(0) == [] && Zeros(1) == [ZERO] && Zeros(2) == [ZERO, ZERO] && Zeros(3) == [ZERO, ZERO, ZERO];
    DigitsUpToFour(n);
    ZeroIsADigit();
  }

  lemma ZeroIsADigit()
    ensures DigitByte(0) == ZERO
  {
  }

  lemma DigitsUpToFour(n: nat)
    requires n < 10_000
    ensures n < 10 ==> Digits(n) == [DigitByte(n)]
    ensures 10 <= n < 100 ==> Digits(n) == [DigitByte(n / 10), DigitByte(n % 10)]
    ensures 100 <= n < 1000 ==> Digits(n) == [DigitByte(n / 100), DigitByte(n / 10 % 10), DigitByte(n % 10)]
    ensures 1000 <= n ==> Digits(n) == [DigitByte(n / 1000), DigitByte(n / 100 % 10), DigitByte(n / 10 % 10),
                                        DigitByte(n % 10)]
    decreases n
  {
    hide DigitByte;
    if n >= 10 {
      DigitsUpToFour(n / 10);
      Tenths(n);
    }
  }

  lemma Tenths(n: nat)
    ensures n / 10 / 10 == n / 100 && n / 10 / 100 == n / 1000
  {
  }

  /** Four digits are two and two. */
  lemma PaddedHalves(n: nat)
    requires n < 10_000
    ensures Padded(n, 4) == Padded(n / 100, 2) + Padded(n % 100, 2)
  {
    hide Padded;
    PaddedFour(n);
    PaddedTwo(n / 100);
    PaddedTwo(n % 100);
    HalfDigits(n);
  }

  lemma HalfDigits(n: nat)
    ensures n / 1000 == n / 100 / 10 && n / 10 % 10 == n % 100 / 10 && n % 10 == n % 100 % 10
  {
    var h, l := n / 100, n % 100;
    var t, u := l / 10, l % 10;
    assert n == 10 * (10 * h + t) + u;
    assert n / 10 == 10 * h + t;
    assert n == 1000 * (h / 10) + (100 * (h % 10) + l);
  }
}
