/** The credit band of the form: parsing the maximum the user types, the
    derived minimum, the advisory status shown beside the selection, and the
    warning shown after the optimizer has dropped conflicting subjects. */
module Credits {
  import opened Base
  import opened Selection

  // ---------------------------------------------------------------------
  // JavaScript's parseInt(value, 10)

  /** The characters parseInt skips before the number: white space and line
      terminators. */
  predicate IsJsSpace(c: char)
  {
    c == '\t' || c == '\n' || c == '\r' || c == ' '
    || c as int == 0x0B || c as int == 0x0C || c as int == 0xA0 || c as int == 0x1680
    || (0x2000 <= c as int <= 0x200A) || c as int == 0x2028 || c as int == 0x2029
    || c as int == 0x202F || c as int == 0x205F || c as int == 0x3000 || c as int == 0xFEFF
  }

  predicate IsDigit(c: char) { '0' <= c <= '9' }

  function TrimStart(s: string): (r: string)
    ensures r <= s || (|r| <= |s| && r == s[|s| - |r|..])
    ensures r == [] || !IsJsSpace(r[0])
  {
    if s == [] || !IsJsSpace(s[0]) then s else TrimStart(s[1..])
  }

  lemma {:induction false} TrimStartIsSuffix(s: string)
    ensures |TrimStart(s)| <= |s| && TrimStart(s) == s[|s| - |TrimStart(s)|..]
  {
    if s != [] && IsJsSpace(s[0]) {
      TrimStartIsSuffix(s[1..]);
    }
  }

  /** The longest prefix made of decimal digits. */
  function DigitPrefix(s: string): (r: string)
    ensures r <= s
    ensures forall i :: 0 <= i < |r| ==> IsDigit(r[i])
    ensures |r| < |s| ==> !IsDigit(s[|r|])
  {
    if s == [] || !IsDigit(s[0]) then []
    else
      var rest := DigitPrefix(s[1..]);
      assert [s[0]] + rest <= s;
      [s[0]] + rest
  }

  /** Value of a string of decimal digits, most significant first. */
  function DigitsValue(ds: string): (n: int)
    requires forall i :: 0 <= i < |ds| ==> IsDigit(ds[i])
    ensures n >= 0
  {
    if ds == [] then 0
    else
      var d := ds[|ds| - 1];
      assert IsDigit(d);
      DigitsValue(ds[..|ds| - 1]) * 10 + (d as int - '0' as int)
  }

  /** parseInt(value, 10): skip leading white space, read an optional sign,
      then as many decimal digits as there are; no digit at all is NaN
      (None). Whatever follows the digits is ignored. */
  function ParseInt(s: string): (r: Option<int>)
    ensures r.Some? ==> exists i :: 0 <= i < |s| && IsDigit(s[i])
    ensures r.Some? && r.value < 0 ==> exists i :: 0 <= i < |s| && s[i] == '-'
  {
    TrimStartIsSuffix(s);
    var t := TrimStart(s);
    var negative := t != [] && t[0] == '-';
    var lead := if t != [] && (t[0] == '-' || t[0] == '+') then 1 else 0;
    var unsigned := t[lead..];
    var ds := DigitPrefix(unsigned);
    if ds == [] then None
    else
      assert s[|s| - |t| + lead] == ds[0];
      if negative then
        assert s[|s| - |t|] == '-';
        Some(-DigitsValue(ds))
      else Some(DigitsValue(ds))
  }

  /** Decimal text of a natural number, without leading zeros. */
  function DecimalText(n: nat): (s: string)
    ensures |s| > 0
    ensures forall i :: 0 <= i < |s| ==> IsDigit(s[i])
  {
    var d := Clock.Digit(n % 10);
    if n < 10 then [d] else DecimalText(n / 10) + [d]
  }

  lemma {:induction false} DigitsValueOfDecimalText(n: nat)
    ensures DigitsValue(DecimalText(n)) == n
    decreases n
  {
    var s := DecimalText(n);
    if n >= 10 {
      DigitsValueOfDecimalText(n / 10);
      assert s[..|s| - 1] == DecimalText(n / 10);
    }
  }

  lemma {:induction false} DigitPrefixOfDigits(ds: string, rest: string)
    requires forall i :: 0 <= i < |ds| ==> IsDigit(ds[i])
    requires rest == [] || !IsDigit(rest[0])
    ensures DigitPrefix(ds + rest) == ds
    decreases |ds|
  {
    if ds != [] {
      assert (ds + rest)[1..] == ds[1..] + rest;
      DigitPrefixOfDigits(ds[1..], rest);
    } else {
      assert ds + rest == rest;
    }
  }

  /** The number's own text parses back to the number, and so does the text
      followed by anything that does not start with a digit ("12.5", "12e3"). */
  lemma ParseIntOfDecimalText(n: nat, rest: string)
    requires rest == [] || !IsDigit(rest[0])
    ensures ParseInt(DecimalText(n) + rest) == Some(n)
  {
    var s := DecimalText(n) + rest;
    assert s[0] == DecimalText(n)[0];
    assert TrimStart(s) == s;
    DigitPrefixOfDigits(DecimalText(n), rest);
    DigitsValueOfDecimalText(n);
  }

  // ---------------------------------------------------------------------
  // The band

  /** A form field that is either blank ('') or holds a number. */
  datatype CreditField = Blank | Num(n: int)

  datatype StudyInfo = StudyInfo(semester: string, major: string, maxCredits: CreditField, minCredits: CreditField)

  /** `Math.floor((n * 2) / 3)`: the largest m with 3m <= 2n. */
  function MinCreditsFor(n: nat): (m: nat)
    ensures 3 * m <= 2 * n < 3 * m + 3
    ensures m <= n
  {
    (2 * n) / 3
  }

  /** `handleMaxCreditsChange(value)`. */
  function AfterMaxCreditsInput(info: StudyInfo, value: string): (r: StudyInfo)
    ensures r.semester == info.semester && r.major == info.major
    ensures value == "" ==> r.maxCredits == Blank && r.minCredits == Blank
    ensures value != "" && (ParseInt(value).None? || ParseInt(value).value < 0) ==> r == info
    ensures value != "" && ParseInt(value).Some? && ParseInt(value).value >= 0 ==>
      r.maxCredits == Num(ParseInt(value).value) && r.minCredits == Num(MinCreditsFor(ParseInt(value).value))
  {
    if value == "" then info.(maxCredits := Blank, minCredits := Blank)
    else
      match ParseInt(value)
      case None => info
      case Some(n) => if n < 0 then info else info.(maxCredits := Num(n), minCredits := Num(MinCreditsFor(n)))
  }

  /** The band is in lock-step: both blank, or a non-negative maximum with
      its derived minimum. */
  predicate BandConsistent(info: StudyInfo)
  {
    match info.maxCredits
    case Blank => info.minCredits == Blank
    case Num(n) => n >= 0 && info.minCredits == Num(MinCreditsFor(n))
  }

  /** Every input keeps the band in lock-step. */
  lemma MaxCreditsInputKeepsBand(info: StudyInfo, value: string)
    requires BandConsistent(info)
    ensures BandConsistent(AfterMaxCreditsInput(info, value))
  {
  }

  /** Typing "18" sets the maximum to 18 and the minimum to 12. */
  lemma EighteenGivesTwelve(info: StudyInfo)
    ensures AfterMaxCreditsInput(info, "18").maxCredits == Num(18)
    ensures AfterMaxCreditsInput(info, "18").minCredits == Num(12)
  {
    assert DecimalText(18) == "18";
    ParseIntOfDecimalText(18, "");
    assert "18" + "" == "18";
  }

  // ---------------------------------------------------------------------
  // Status beside the selection, before submission

  /** `field || 0`. */
  function FieldOr0(f: CreditField): int
  {
    if f.Num? then f.n else 0
  }

  /** `reduce((sum, s) => sum + (s.credits || 0), 0)`. */
  function TotalCredits(subjects: seq<Subject>): int
  {
    if subjects == [] then 0
    else TotalCredits(subjects[..|subjects| - 1]) + subjects[|subjects| - 1].credits
  }

  lemma {:induction false} TotalCreditsAppend(xs: seq<Subject>, ys: seq<Subject>)
    ensures TotalCredits(xs + ys) == TotalCredits(xs) + TotalCredits(ys)
    decreases |ys|
  {
    if ys == [] {
      assert xs + ys == xs;
    } else {
      assert (xs + ys)[..|xs + ys| - 1] == xs + ys[..|ys| - 1];
      TotalCreditsAppend(xs, ys[..|ys| - 1]);
    }
  }

  datatype CreditStatus = CreditStatus(
    total: int,
    isLow: bool,
    isHigh: bool,
    shortfall: Option<int>,   // "missing N credits", shown when low and a minimum is set
    excess: Option<int>)      // "N credits over", shown when high

  /** The advisory status block: the sum of the selected credits, whether it
      is under the minimum or over a set maximum, and by how much. */
  function Status(subjects: seq<Subject>, info: StudyInfo): (r: CreditStatus)
    ensures r.total == TotalCredits(subjects)
    ensures r.isLow <==> r.total < FieldOr0(info.minCredits)
    ensures r.isHigh <==> FieldOr0(info.maxCredits) > 0 && r.total > FieldOr0(info.maxCredits)
    ensures r.shortfall.Some? <==> r.isLow && FieldOr0(info.minCredits) > 0
    ensures r.shortfall.Some? ==> r.shortfall.value > 0 && r.total + r.shortfall.value == FieldOr0(info.minCredits)
    ensures r.excess.Some? <==> r.isHigh
    ensures r.excess.Some? ==> r.excess.value > 0 && r.total - r.excess.value == FieldOr0(info.maxCredits)
  {
    var total := TotalCredits(subjects);
    var min := FieldOr0(info.minCredits);
    var max := FieldOr0(info.maxCredits);
    var isLow := total < min;
    var isHigh := max > 0 && total > max;
    CreditStatus(total, isLow, isHigh,
                 if isLow && min > 0 then Some(min - total) else None,
                 if isHigh then Some(total - max) else None)
  }

  /** With the band in lock-step the selection is never reported both under
      the minimum and over the maximum. */
  lemma NeverLowAndHigh(subjects: seq<Subject>, info: StudyInfo)
    requires BandConsistent(info)
    ensures !(Status(subjects, info).isLow && Status(subjects, info).isHigh)
  {
  }

  /** Three 3-credit subjects against a maximum of 18: under the minimum of
      12, missing 3. */
  lemma ThreeSubjectsUnderTwelve(info: StudyInfo, a: Subject, b: Subject, c: Subject)
    requires info.maxCredits == Num(18) && info.minCredits == Num(12)
    requires a.credits == 3 && b.credits == 3 && c.credits == 3
    ensures Status([a, b, c], info).isLow && !Status([a, b, c], info).isHigh
    ensures Status([a, b, c], info).shortfall == Some(3)
  {
    assert [a, b, c][..2] == [a, b] && [a, b][..1] == [a] && [a][..0] == [];
    assert TotalCredits([a]) == 3;
    assert TotalCredits([a, b]) == 6;
    assert TotalCredits([a, b, c]) == 9;
  }

  // ---------------------------------------------------------------------
  // Warning after the optimizer's answer

  /** One subject the server dropped, with the reason it gives. */
  datatype ConflictEntry = ConflictEntry(subject: string, reason: string)

  predicate Dropped(s: Subject, conflicts: seq<ConflictEntry>)
  {
    exists c :: c in conflicts && c.subject == s.name
  }

  /** The submitted subjects whose name no conflict entry names, in order. */
  function Scheduled(subjects: seq<Subject>, conflicts: seq<ConflictEntry>): (r: seq<Subject>)
    ensures forall x :: x in r <==> x in subjects && !Dropped(x, conflicts)
    ensures !(exists x :: x in subjects && Dropped(x, conflicts)) ==> r == subjects
  {
    if subjects == [] then []
    else
      var last := subjects[|subjects| - 1];
      var init := subjects[..|subjects| - 1];
      assert subjects == init + [last];
      Scheduled(init, conflicts) + if Dropped(last, conflicts) then [] else [last]
  }

  /** The warning after generation: a minimum is set and the credits of the
      subjects that were not dropped fall short of it. */
  predicate ShowsCreditWarning(subjects: seq<Subject>, conflicts: seq<ConflictEntry>, info: StudyInfo)
    ensures ShowsCreditWarning(subjects, conflicts, info) <==> Status(Scheduled(subjects, conflicts), info).shortfall.Some?
  {
    var min := FieldOr0(info.minCredits);
    min > 0 && TotalCredits(Scheduled(subjects, conflicts)) < min
  }

  lemma {:induction false} ScheduledCreditsAtMostTotal(subjects: seq<Subject>, conflicts: seq<ConflictEntry>)
    requires forall x :: x in subjects ==> x.credits >= 0
    ensures TotalCredits(Scheduled(subjects, conflicts)) <= TotalCredits(subjects)
    decreases |subjects|
  {
    if subjects != [] {
      var last := subjects[|subjects| - 1];
      var init := subjects[..|subjects| - 1];
      assert forall x :: x in init ==> x in subjects;
      ScheduledCreditsAtMostTotal(init, conflicts);
      var tail := if Dropped(last, conflicts) then [] else [last];
      TotalCreditsAppend(Scheduled(init, conflicts), tail);
      assert tail != [] ==> tail[..0] == [];
    }
  }

  /** The two checks are different rules: when the selection met the
      minimum before submission, a warning afterwards means the server
      dropped at least one subject; and with nothing dropped the warning is
      exactly the pre-submission "under the minimum" status. */
  lemma WarningNeedsADrop(subjects: seq<Subject>, conflicts: seq<ConflictEntry>, info: StudyInfo)
    ensures !Status(subjects, info).isLow && ShowsCreditWarning(subjects, conflicts, info) ==>
      exists x :: x in subjects && Dropped(x, conflicts)
    ensures !(exists x :: x in subjects && Dropped(x, conflicts)) ==>
      (ShowsCreditWarning(subjects, conflicts, info) <==> Status(subjects, info).isLow && FieldOr0(info.minCredits) > 0)
  {
  }

  /** Subjects A and B of 3 credits each, B dropped, under the band 5..8
      that typing 8 sets: the selection passed before submission (5 <= 6 <= 8)
      and the warning shows afterwards (3 < 5). */
  lemma DroppedSubjectTriggersWarning(info: StudyInfo, a: Subject, b: Subject, reason: string)
    requires info.maxCredits == Num(8) && info.minCredits == Num(5)
    requires a.credits == 3 && b.credits == 3 && a.name != b.name
    ensures BandConsistent(info)
    ensures !Status([a, b], info).isLow && !Status([a, b], info).isHigh
    ensures ShowsCreditWarning([a, b], [ConflictEntry(b.name, reason)], info)
  {
    var cs := [ConflictEntry(b.name, reason)];
    assert [a, b][..1] == [a] && [a][..0] == [];
    assert TotalCredits([a]) == 3;
    assert TotalCredits([a, b]) == 6;
    assert cs[0] in cs && Dropped(b, cs);
    assert !Dropped(a, cs);
    assert Scheduled([a], cs) == [a];
    assert Scheduled([a, b], cs) == [a];
  }
}
