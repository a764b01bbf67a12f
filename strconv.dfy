/**
 * Base-10 integer parsing as done by Go's `strconv.ParseUint(s, 10, bits)`
 * and `strconv.ParseInt(s, 10, bits)`, which flag.go uses to read integer
 * environment values. Only success or failure matters to the caller, so
 * every error (syntax or range) is `None`.
 */
module Strconv {
  import opened Wrappers

  predicate IsDigit(c: char) { '0' <= c <= '9' }

  predicate AllDigits(s: string) {
    forall i :: 0 <= i < |s| ==> IsDigit(s[i])
  }

  function Pow2(n: nat): (r: nat)
    ensures r >= 1
  {
    if n == 0 then 1 else 2 * Pow2(n - 1)
  }

  /** The value of a string of decimal digits. */
  function Decimal(s: string): nat
    requires AllDigits(s)
  {
    if s == [] then 0
    else 10 * Decimal(s[..|s| - 1]) + (s[|s| - 1] as int - '0' as int)
  }

  /**
   * `strconv.ParseUint(s, 10, bits)`: one or more decimal digits, no sign,
   * no underscores, and a value that fits in `bits` bits.
   */
  function ParseUint(s: string, bits: nat): (r: Option<nat>)
    ensures r.Some? <==> s != [] && AllDigits(s) && Decimal(s) < Pow2(bits)
    ensures r.Some? ==> r.value == Decimal(s) && r.value < Pow2(bits)
  {
    if s == [] || !AllDigits(s) then None
    else if Decimal(s) >= Pow2(bits) then None
    else Some(Decimal(s))
  }

  /** The text after an optional leading '+' or '-'. */
  function Magnitude(s: string): string
    requires s != []
  {
    if s[0] == '+' || s[0] == '-' then s[1..] else s
  }

  /**
   * `strconv.ParseInt(s, 10, bits)`: an optional '+' or '-', then what
   * `ParseUint` accepts, within [-2^(bits-1), 2^(bits-1) - 1].
   */
  function ParseInt(s: string, bits: nat): (r: Option<int>)
    requires bits >= 1
    ensures r.Some? <==>
      && s != [] && Magnitude(s) != [] && AllDigits(Magnitude(s))
      && (if s[0] == '-' then Decimal(Magnitude(s)) <= Pow2(bits - 1)
          else Decimal(Magnitude(s)) < Pow2(bits - 1))
    ensures r.Some? ==>
      r.value == if s[0] == '-' then -(Decimal(Magnitude(s)) as int) else Decimal(Magnitude(s))
    ensures r.Some? ==> -(Pow2(bits - 1) as int) <= r.value < Pow2(bits - 1)
  {
    if s == [] then None
    else
      var neg := s[0] == '-';
      var digits := if s[0] == '+' || s[0] == '-' then s[1..] else s;
      assert Pow2(bits) == 2 * Pow2(bits - 1);
      match ParseUint(digits, bits)
      case None => None
      case Some(un) =>
        var cutoff := Pow2(bits - 1);
        if !neg && un >= cutoff then None
        else if neg && un > cutoff then None
        else Some(if neg then -(un as int) else un)
  }

  /** Unsigned parsing never accepts a sign. */
  lemma ParseUintRejectsSign(s: string, bits: nat)
    requires s != [] && (s[0] == '-' || s[0] == '+')
    ensures ParseUint(s, bits) == None
  {
  }

  /** Decimal text of a natural number, as the flag package prints defaults. */
  function FormatUint(n: nat): (r: string)
    ensures r != [] && AllDigits(r)
  {
    if n < 10 then [('0' as int + n) as char]
    else FormatUint(n / 10) + [('0' as int + n % 10) as char]
  }

  lemma {:induction false} DecimalOfFormat(n: nat)
    ensures Decimal(FormatUint(n)) == n
  {
    if n >= 10 {
      DecimalOfFormat(n / 10);
      var s := FormatUint(n);
      assert s[..|s| - 1] == FormatUint(n / 10);
    }
  }

  /** Parsing the printed form of a value that fits gives the value back. */
  lemma ParseFormatUint(n: nat, bits: nat)
    requires n < Pow2(bits)
    ensures ParseUint(FormatUint(n), bits) == Some(n)
  {
    DecimalOfFormat(n);
  }

  /** A negative value that fits is accepted by `ParseInt` from "-" and its digits. */
  lemma ParseIntNegative(n: nat, bits: nat)
    requires bits >= 1 && 0 < n <= Pow2(bits - 1)
    ensures ParseInt("-" + FormatUint(n), bits) == Some(-(n as int))
  {
    var s := "-" + FormatUint(n);
    assert s[1..] == FormatUint(n);
    assert Pow2(bits) == 2 * Pow2(bits - 1);
    ParseFormatUint(n, bits);
  }

  /**
   * A value below 2^(bits-1) printed in decimal, with or without a '+',
   * is read back by `ParseInt`.
   */
  lemma ParseIntFormat(n: nat, bits: nat)
    requires bits >= 1 && n < Pow2(bits - 1)
    ensures ParseInt(FormatUint(n), bits) == Some(n as int)
    ensures ParseInt("+" + FormatUint(n), bits) == Some(n as int)
  {
    var d := FormatUint(n);
    DecimalOfFormat(n);
    assert IsDigit(d[0]);
    assert Magnitude(d) == d;
    assert ("+" + d)[1..] == d;
  }

  lemma DecimalExample(s: string)
    requires s == "6000"
    ensures AllDigits(s) && Decimal(s) == 6000
  {
    var s1, s2, s3 := s[..1], s[..2], s[..3];
    assert s1[..0] == "" && s2[..1] == s1 && s3[..2] == s2;
    assert Decimal(s1) == 6;
    assert Decimal(s2) == 60;
    assert Decimal(s3) == 600;
  }

  lemma Pow2Of32()
    ensures Pow2(32) == 4294967296
  {
    assert Pow2(8) == 256;
    Pow2Add(8, 8);
    Pow2Add(16, 16);
  }

  /** "6000" fits in 32 bits. */
  lemma ParseUintExample(s: string)
    requires s == "6000"
    ensures ParseUint(s, 32) == Some(6000)
  {
    DecimalExample(s);
    Pow2Of32();
  }

  /** A sign, or a letter, is refused. */
  lemma ParseRejectExamples(neg: string, word: string)
    requires neg == "-6000" && word == "test"
    ensures ParseUint(neg, 32) == None
    ensures ParseUint(word, 64) == None && ParseInt(word, 32) == None
  {
    assert !IsDigit(word[0]);
    ParseUintRejectsSign(neg, 32);
  }

  lemma {:induction false} Pow2Add(a: nat, b: nat)
    ensures Pow2(a + b) == Pow2(a) * Pow2(b)
  {
    if a > 0 {
      Pow2Add(a - 1, b);
    }
  }
}
