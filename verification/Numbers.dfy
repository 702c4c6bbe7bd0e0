/**
 Signed 64-bit integers in text form, as Go's strconv package reads and writes them.
 */
module Numbers {
  import opened Bytes
  import opened Options

  const MAX_INT: int := 0x7fff_ffff_ffff_ffff

  const PLUS: byte := 43
  const MINUS: byte := 45
  const ZERO: byte := 48

  /** The ASCII bytes of a string literal. */
  function Ascii(s: string): (b: ByteString)
    ensures |b| == |s| && forall i :: 0 <= i < |s| && s[i] < 128 as char ==> b[i] == s[i] as int
  {
    seq(|s|, i requires 0 <= i < |s| => (s[i] as int) % 256)
  }

  function DigitValue(b: byte): Option<nat> {
    if 48 <= b <= 57 then Some(b - 48)
    else if 97 <= b <= 122 then Some(b - 87)
    else if 65 <= b <= 90 then Some(b - 55)
    else None
  }

  /** The value of a non-empty run of digits in the given base. */
  function ParseDigits(s: ByteString, base: nat): Option<nat> {
    if s == [] then None
    else
      match DigitValue(s[|s| - 1])
      case None => None
      case Some(d) =>
        if d >= base then None
        else if |s| == 1 then Some(d)
        else
          match ParseDigits(s[..|s| - 1], base)
          case None => None
          case Some(high) => Some(high * base + d)
  }

  /** strconv.ParseInt(s, base, 64) for an explicit base: an optional sign, digits, and a range check. */
  function ParseInt64(s: ByteString, base: nat): (r: Option<int>)
    ensures r.Some? ==> -MAX_INT - 1 <= r.value <= MAX_INT
  {
    if s == [] then None
    else
      var negative := s[0] == MINUS;
      var digits := if negative || s[0] == PLUS then s[1..] else s;
      match ParseDigits(digits, base)
      case None => None
      case Some(n) =>
        var v: int := if negative then 0 - n else n;
        if -MAX_INT - 1 <= v <= MAX_INT then Some(v) else None
  }

  /** strconv.Itoa for a length. */
  function Decimal(n: nat): (s: ByteString)
    ensures |s| > 0
    ensures forall b :: b in s ==> 48 <= b <= 57
  {
    if n < 10 then [ZERO + n] else Decimal(n / 10) + [ZERO + n % 10]
  }

  lemma {:induction false} DecimalParses(n: nat)
    ensures ParseDigits(Decimal(n), 10) == Some(n)
  {
    if n < 10 {
    } else {
      DecimalParses(n / 10);
      var s := Decimal(n);
      assert s[..|s| - 1] == Decimal(n / 10);
      assert s[|s| - 1] == ZERO + n % 10;
    }
  }

  lemma AtoiOfItoa(n: nat)
    requires n <= MAX_INT
    ensures ParseInt64(Decimal(n), 10) == Some(n)
  {
    DecimalParses(n);
    assert Decimal(n)[0] in Decimal(n);
  }

  // ---------- What a number in text form is ----------

  /** The byte stands for the digit: 0 to 9, then letters of either case. */
  predicate IsDigit(b: byte, d: nat) {
    if d < 10 then b == 48 + d else d < 36 && (b == 87 + d || b == 55 + d)
  }

  /** The digits of `n` in the given base, most significant first; zeros may stand in front. */
  predicate Spells(s: ByteString, base: nat, n: nat)
    requires base > 1
    decreases |s|
  {
    && s != [] && IsDigit(s[|s| - 1], n % base)
    && if |s| == 1 then n < base else Spells(s[..|s| - 1], base, n / base)
  }

  /** A 64-bit number: its digits with an optional sign. */
  predicate Denotes(s: ByteString, base: nat, v: int)
    requires base > 1
  {
    && -0x8000_0000_0000_0000 <= v <= 0x7fff_ffff_ffff_ffff && s != []
    && if s[0] == MINUS then v <= 0 && Spells(s[1..], base, -v)
       else v >= 0 && Spells(if s[0] == PLUS then s[1..] else s, base, v)
  }

  lemma DigitIff(b: byte, base: nat, d: nat)
    requires d < base <= 36
    ensures IsDigit(b, d) <==> DigitValue(b) == Some(d)
  {
  }

  lemma {:induction false} Multiples(q: nat, q': nat, base: nat)
    ensures q < q' ==> q * base + base <= q' * base
    decreases q'
  {
    if q < q' {
      assert q' * base == (q' - 1) * base + base;
      Multiples(q, q' - 1, base);
    }
  }

  /** Quotient and remainder are unique. */
  lemma LastDigit(base: nat, high: nat, d: nat, n: nat)
    requires base > 1 && d < base
    ensures high * base + d == n <==> high == n / base && d == n % base
  {
    assert n == (n / base) * base + n % base;
    Multiples(high, n / base, base);
    Multiples(n / base, high, base);
  }

  lemma {:induction false} ParsesDigits(s: ByteString, base: nat, n: nat)
    requires 1 < base <= 36
    ensures ParseDigits(s, base) == Some(n) <==> Spells(s, base, n)
    decreases |s|
  {
    hide IsDigit, DigitValue;
    if s != [] {
      var last, front := s[|s| - 1], s[..|s| - 1];
      Remainder(n, base);
      DigitIff(last, base, n % base);
      if |s| > 1 {
        ParsesDigits(front, base, n / base);
        ParsesLast(s, base, n);
      } else {
        SmallRemainder(n, base);
      }
    }
  }

  lemma Remainder(n: nat, base: nat)
    requires base > 1
    ensures 0 <= n % base < base && n / base >= 0
  {
  }

  lemma SmallRemainder(n: nat, base: nat)
    requires base > 1
    ensures n < base ==> n % base == n
  {
  }

  lemma ParsesLast(s: ByteString, base: nat, n: nat)
    requires 1 < base <= 36 && |s| > 1
    ensures ParseDigits(s, base) == Some(n) <==>
      DigitValue(s[|s| - 1]) == Some(n % base) && ParseDigits(s[..|s| - 1], base) == Some(n / base)
  {
    hide DigitValue;
    Remainder(n, base);
    var d, high := DigitValue(s[|s| - 1]), ParseDigits(s[..|s| - 1], base);
    if d.Some? && d.value < base && high.Some? {
      LastDigit(base, high.value, d.value, n);
    }
  }

  /** The parser reads exactly the numbers. */
  lemma ParsesNumber(s: ByteString, base: nat, v: int)
    requires 1 < base <= 36
    ensures ParseInt64(s, base) == Some(v) <==> Denotes(s, base, v)
  {
    hide ParseDigits, Spells;
    if s != [] {
      var digits := if s[0] == MINUS || s[0] == PLUS then s[1..] else s;
      if v >= 0 {
        ParsesDigits(digits, base, v);
      }
      if v <= 0 {
        ParsesDigits(digits, base, -v);
      }
    }
  }

  /** What is written is what is read. */
  lemma DecimalDenotes(n: nat)
    requires n <= MAX_INT
    ensures Denotes(Decimal(n), 10, n)
  {
    hide Denotes, ParseInt64, Decimal;
    AtoiOfItoa(n);
    ParsesNumber(Decimal(n), 10, n);
  }
}
