/**
 * Rust's `u16::from_str`, which `main` in src/main.rs applies to the port
 * argument: an optional single leading '+', then one or more ASCII decimal
 * digits whose value is at most 65535. Which error kind a failure carries is
 * not modelled, because the caller discards it with `unwrap_or`.
 */
module PortArg {
  import opened Options

  const MaxU16: nat := 65535

  predicate IsDigit(c: char) {
    '0' <= c <= '9'
  }

  predicate AllDigits(s: string) {
    forall i :: 0 <= i < |s| ==> IsDigit(s[i])
  }

  /** The value of a string of decimal digits, most significant digit first. */
  function DecimalValue(s: string): nat
    requires AllDigits(s)
  {
    if s == [] then 0
    else 10 * DecimalValue(s[..|s| - 1]) + (s[|s| - 1] as int - '0' as int)
  }

  /** `s.parse::<u16>()`: `None` for an empty string, a lone sign, a non-digit or an overflow. */
  function ParseU16(s: string): (r: Option<nat>)
    ensures r.Some? ==> r.value <= MaxU16
    ensures r.Some? ==> s != [] && s != "+"
    ensures r.Some? ==> AllDigits(if s[0] == '+' then s[1..] else s)
  {
    if s == [] || s == "+" || s == "-" then None
    else
      var digits := if s[0] == '+' then s[1..] else s;
      if AllDigits(digits) && DecimalValue(digits) <= MaxU16 then Some(DecimalValue(digits))
      else None
  }

  /** The digits of `s` once one leading '+' is removed. */
  function Unsigned(s: string): string {
    if s != [] && s[0] == '+' then s[1..] else s
  }

  /**
   * Both directions of `u16::from_str` on every input: it succeeds exactly
   * when, after one optional '+', a non-empty digit string of value at most
   * 65535 remains, and then it yields that value.
   */
  lemma ParseU16Meaning(s: string)
    ensures ParseU16(s).Some? <==>
      (Unsigned(s) != [] && AllDigits(Unsigned(s)) && DecimalValue(Unsigned(s)) <= MaxU16)
    ensures ParseU16(s).Some? ==> ParseU16(s).value == DecimalValue(Unsigned(s))
  {
    if s == "-" {
      assert !IsDigit(s[0]);
    }
  }

  /** The canonical decimal spelling of `n`: no sign, no leading zeros. */
  function ToDecimal(n: nat): (r: string)
    ensures |r| > 0 && AllDigits(r)
    ensures r[0] != '0' || n == 0
  {
    var d := ['0' + (n % 10) as char];
    if n < 10 then d else ToDecimal(n / 10) + d
  }

  lemma {:induction false} DecimalValueOfToDecimal(n: nat)
    ensures DecimalValue(ToDecimal(n)) == n
  {
    if n >= 10 {
      var r := ToDecimal(n);
      assert r[..|r| - 1] == ToDecimal(n / 10);
      DecimalValueOfToDecimal(n / 10);
    }
  }

  /**
   * Parsing round-trips with printing: the decimal spelling of every `u16`
   * parses back to it, and that of every larger number is rejected.
   */
  lemma ParseToDecimal(n: nat)
    ensures ParseU16(ToDecimal(n)) == if n <= MaxU16 then Some(n) else None
  {
    DecimalValueOfToDecimal(n);
  }

  /** One leading '+' is accepted and ignored; a second one is not. */
  lemma ParsePlusSign(s: string)
    requires s != []
    ensures s[0] != '+' ==> ParseU16("+" + s) == ParseU16(s)
    ensures s[0] == '+' ==> ParseU16("+" + s) == None
  {
    assert ("+" + s)[1..] == s;
  }

  lemma {:induction false} DecimalValueLeadingZero(s: string)
    requires AllDigits(s)
    ensures AllDigits("0" + s) && DecimalValue("0" + s) == DecimalValue(s)
    decreases |s|
  {
    if s != [] {
      var s' := s[..|s| - 1];
      assert ("0" + s)[..|s|] == "0" + s';
      DecimalValueLeadingZero(s');
    }
  }

  /** Leading zeros do not change the parsed value: "0080" is port 80. */
  lemma ParseLeadingZero(s: string)
    requires s != [] && AllDigits(s)
    ensures ParseU16("0" + s) == ParseU16(s)
  {
    DecimalValueLeadingZero(s);
  }

  /** Port arguments that parse. */
  lemma ParseAccepts()
    ensures ParseU16("8080") == Some(8080)
    ensures ParseU16("+8080") == Some(8080)
    ensures ParseU16("65535") == Some(65535)
  {
    assert ToDecimal(8080) == "8080";
    assert ToDecimal(65535) == "65535";
    ParseToDecimal(8080);
    ParseToDecimal(65535);
    ParsePlusSign("8080");
  }

  /** Port arguments that do not parse, and so leave the default port. */
  lemma ParseRejects()
    ensures ParseU16("65536") == None
    ensures ParseU16("-1") == None
    ensures ParseU16("") == None
    ensures ParseU16("notaport") == None
  {
    assert !IsDigit("notaport"[0]);
    assert !IsDigit("-1"[0]);
    assert ToDecimal(65536) == "65536";
    ParseToDecimal(65536);
  }
}
