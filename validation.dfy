/**
 * The non-interface part of submitting the form: resolving the position,
 * checking the fields and turning the digit strings into numbers.
 */
module Validation {
  import opened Wrappers
  import opened Workers

  /** The position choice that means "type the position by hand". */
  const Other: string := "Lainnya"

  /** What the form holds when "add worker" is pressed. */
  datatype Form = Form(id: string, name: string, age: string, position: string, manualPosition: string, salary: string)

  predicate IsDigit(c: char)
  {
    '0' <= c <= '9'
  }

  predicate AllDigits(s: string)
  {
    forall i :: 0 <= i < |s| ==> IsDigit(s[i])
  }

  /**
   * `str.isdigit()` for ASCII text: at least one character, and every character a decimal digit.
   * Unlike `int()`, it turns away a sign, blanks and the `_` digit separator.
   */
  predicate IsDigitString(s: string)
    ensures IsDigitString(s) ==> s != "" && '-' !in s && '+' !in s && ' ' !in s && '_' !in s
  {
    |s| > 0 && AllDigits(s)
  }

  function DigitValue(c: char): (d: nat)
    requires IsDigit(c)
    ensures d < 10
  {
    (c as int - '0' as int) as nat
  }

  function DigitChar(d: nat): (c: char)
    requires d < 10
    ensures IsDigit(c) && DigitValue(c) == d
  {
    ('0' as int + d) as char
  }

  function Pow10(n: nat): (p: nat)
    ensures p > 0
  {
    if n == 0 then 1 else 10 * Pow10(n - 1)
  }

  /**
   * `int(s)` on a string of decimal digits: the number the digits denote, most significant first.
   * A string of n digits denotes less than 10 to the n.
   */
  function DecimalValue(s: string): (v: nat)
    requires AllDigits(s)
    ensures v < Pow10(|s|)
    decreases |s|
  {
    if |s| == 0 then 0 else 10 * DecimalValue(s[..|s| - 1]) + DigitValue(s[|s| - 1])
  }

  /** `str(n)`: the shortest decimal numeral of `n`. */
  function Decimal(n: nat): (s: string)
    ensures IsDigitString(s)
    ensures s[0] != '0' || |s| == 1
  {
    if n < 10 then [DigitChar(n)] else Decimal(n / 10) + [DigitChar(n % 10)]
  }

  /** Reading back the numeral of `n` gives `n`. */
  lemma {:induction false} DecimalValueOfDecimal(n: nat)
    ensures DecimalValue(Decimal(n)) == n
  {
    if n >= 10 {
      var s := Decimal(n);
      assert s[..|s| - 1] == Decimal(n / 10);
      DecimalValueOfDecimal(n / 10);
    }
  }

  /** A numeral starting with a digit other than zero denotes a positive number. */
  lemma {:induction false} LeadingDigitPositive(s: string)
    requires IsDigitString(s) && s[0] != '0'
    ensures DecimalValue(s) > 0
  {
    if |s| > 1 {
      LeadingDigitPositive(s[..|s| - 1]);
    }
  }

  /** A numeral without leading zeros is the numeral of its own value. */
  lemma {:induction false} DecimalOfDecimalValue(s: string)
    requires IsDigitString(s) && (s[0] != '0' || |s| == 1)
    ensures Decimal(DecimalValue(s)) == s
  {
    var n := |s|;
    if n > 1 {
      var p := s[..n - 1];
      var d := DigitValue(s[n - 1]);
      LeadingDigitPositive(p);
      DecimalOfDecimalValue(p);
      var v := DecimalValue(s);
      assert v == 10 * DecimalValue(p) + d;
      assert v / 10 == DecimalValue(p) && v % 10 == d;
      assert DigitChar(d) == s[n - 1];
      assert s == p + [s[n - 1]];
    }
  }

  /** Leading zeros do not change the value, as `int("007") == 7`. */
  lemma {:induction false} LeadingZeroIgnored(s: string)
    requires AllDigits(s)
    ensures AllDigits("0" + s) && DecimalValue("0" + s) == DecimalValue(s)
  {
    if |s| > 0 {
      var n := |s|;
      assert ("0" + s)[..n] == "0" + s[..n - 1];
      LeadingZeroIgnored(s[..n - 1]);
    }
  }

  /** The position that is stored: the hand-typed text when the choice is "Lainnya", the choice otherwise. */
  function ResolvePosition(choice: string, manual: string): (p: string)
    ensures choice == Other ==> p == manual
    ensures choice != Other ==> p == choice
  {
    if choice == Other then manual else choice
  }

  /**
   * The check before a worker is created, and the record it is created with:
   * id, name and the resolved position non-empty, age and salary digit strings.
   */
  function Validate(f: Form): (r: Option<WorkerRecord>)
    ensures r.Some? <==>
              && f.id != ""
              && f.name != ""
              && IsDigitString(f.age)
              && ResolvePosition(f.position, f.manualPosition) != ""
              && IsDigitString(f.salary)
    ensures r.Some? ==>
              && r.value.id == f.id
              && r.value.name == f.name
              && r.value.age == DecimalValue(f.age)
              && r.value.position == ResolvePosition(f.position, f.manualPosition)
              && r.value.salary == DecimalValue(f.salary)
  {
    var position := ResolvePosition(f.position, f.manualPosition);
    if f.id != "" && f.name != "" && IsDigitString(f.age) && position != "" && IsDigitString(f.salary) then
      Some(WorkerRecord(f.id, f.name, DecimalValue(f.age), position, DecimalValue(f.salary)))
    else
      None
  }

  /**
   * The form an operator fills in to enter `rec`: numbers written as numerals, the
   * position either chosen directly or, with `byHand`, typed after choosing "Lainnya".
   */
  function FormFor(rec: WorkerRecord, byHand: bool): (f: Form)
    ensures byHand ==> f.position == Other && f.manualPosition == rec.position
    ensures !byHand ==> f.position == rec.position
  {
    Form(rec.id, rec.name, Decimal(rec.age), if byHand then Other else rec.position,
         if byHand then rec.position else "", Decimal(rec.salary))
  }

  /**
   * Every record with non-empty id, name and position is accepted from the form that
   * spells it out, and comes back unchanged.
   */
  lemma ValidateFormFor(rec: WorkerRecord, byHand: bool)
    requires rec.id != "" && rec.name != "" && rec.position != ""
    requires !byHand ==> rec.position != Other
    ensures Validate(FormFor(rec, byHand)) == Some(rec)
  {
    DecimalValueOfDecimal(rec.age);
    DecimalValueOfDecimal(rec.salary);
  }

  /**
   * Rejected submissions: an empty id, an empty name, a non-numeric age, a signed salary,
   * an empty age, an empty position, and "Lainnya" with no typed text.
   */
  lemma RejectedForms()
    ensures Validate(Form("", "Ana", "30", "Manajer", "", "5000000")) == None
    ensures Validate(Form("1", "", "30", "Manajer", "", "5000000")) == None
    ensures Validate(Form("1", "Ana", "abc", "Manajer", "", "5000000")) == None
    ensures Validate(Form("1", "Ana", "30", "Manajer", "", "-5")) == None
    ensures Validate(Form("1", "Ana", "", "Manajer", "", "5000000")) == None
    ensures Validate(Form("1", "Ana", "30", "", "", "5000000")) == None
    ensures Validate(Form("1", "Ana", "30", Other, "", "5000000")) == None
  {
    assert !IsDigit('a');
    assert !IsDigit('-');
  }

  /** An accepted submission, and one whose position is typed by hand after choosing "Lainnya". */
  lemma AcceptedForms()
    ensures Validate(Form("1", "Ana", "30", "Manajer", "", "5000000"))
            == Some(WorkerRecord("1", "Ana", 30, "Manajer", 5000000))
    ensures Validate(Form("2", "Budi", "041", Other, "Konsultan", "0"))
            == Some(WorkerRecord("2", "Budi", 41, "Konsultan", 0))
  {
    DecimalValueOfDecimal(30);
    DecimalValueOfDecimal(5000000);
    DecimalValueOfDecimal(41);
    DecimalValueOfDecimal(0);
    assert Decimal(30) == "30" && Decimal(5000000) == "5000000";
    assert Decimal(41) == "41" && Decimal(0) == "0";
    LeadingZeroIgnored("41");
    assert "0" + "41" == "041";
  }
}
