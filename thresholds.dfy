/**
 * Inventory threshold settings: the edit/save/cancel editor over the list of
 * threshold rows, the stock status rule applied on save, and the two counts
 * shown above the table.
 *
 * The editor's form holds text; `handleEdit` fills it with `toString()` of
 * the row's numbers and `handleSave` reads it back with `parseInt`. Both are
 * modelled on whole numbers, NaN and null limits included: an empty or
 * non-numeric field, a limit from 10^21 on (which `toString` writes in
 * exponent notation) and a null limit (on which `toString` throws) are
 * followed through.
 */
module Thresholds {
  import opened JsValues

  /** A stock figure: a whole number, NaN, or nothing at all (a limit the
      backend sent as null or left out). */
  datatype StockNumber = Whole(value: int) | NotANumber | Missing

  // ---------------------------------------------------------------------------
  // Number.prototype.toString on whole numbers
  // ---------------------------------------------------------------------------

  /** From 10^21 on, `toString` writes a number in exponent notation. */
  const ExponentFrom: nat := 1_000_000_000_000_000_000_000

  function Abs(n: int): nat
  {
    if n < 0 then -n else n
  }

  function DigitChar(d: nat): char
    requires d < 10
  {
    "0123456789"[d]
  }

  function NatToDigits(n: nat): (r: string)
    ensures |r| >= 1
    ensures forall i :: 0 <= i < |r| ==> IsDigit(r[i], 10)
    decreases n
  {
    if n < 10 then [DigitChar(n)] else NatToDigits(n / 10) + [DigitChar(n % 10)]
  }

  /** The significant digits: trailing '0's dropped, the first digit kept. */
  function DropTrailingZeros(ds: string): (r: string)
    requires ds != []
    ensures 1 <= |r| <= |ds| && r == ds[..|r|]
    ensures |r| == 1 || r[|r| - 1] != '0'
  {
    if |ds| == 1 || ds[|ds| - 1] != '0' then ds else DropTrailingZeros(ds[..|ds| - 1])
  }

  /** The exponent form of a whole number: its first digit, the other
      significant digits after a '.', then "e+" and the exponent. */
  function Exponential(m: nat): string
  {
    var ds := NatToDigits(m);
    var sig := DropTrailingZeros(ds);
    [ds[0]] + (if |sig| > 1 then "." + sig[1..] else "") + "e+" + NatToDigits(|ds| - 1)
  }

  /** `n.toString()` for a whole number n. */
  function IntToString(n: int): (r: string)
    // a sign exactly for negative numbers, exponent notation exactly from 10^21 on
    ensures r != [] && (r[0] == '-' <==> n < 0)
    ensures 'e' in r <==> Abs(n) >= ExponentFrom
  {
    var body := if Abs(n) < ExponentFrom then NatToDigits(Abs(n)) else Exponential(Abs(n));
    assert body != [] && body[0] != '-' && ('e' in body <==> Abs(n) >= ExponentFrom) by {
      var ds := NatToDigits(Abs(n));
      assert IsDigit(ds[0], 10);
      if Abs(n) < ExponentFrom {
        assert forall i :: 0 <= i < |ds| ==> ds[i] != 'e';
      } else {
        var sig := DropTrailingZeros(ds);
        var mid := if |sig| > 1 then "." + sig[1..] else "";
        assert body == [ds[0]] + mid + "e+" + NatToDigits(|ds| - 1);
        assert body[1 + |mid|] == 'e';
      }
    }
    if n < 0 then "-" + body else body
  }

  /** `x.toString()`; it throws on a null or missing limit. */
  function Text(x: StockNumber): (r: Outcome<string>)
    ensures r.Threw? <==> x.Missing?
    // only a whole number from 10^21 on is written with an exponent
    ensures r.Returned? ==> ('e' in r.value <==> x.Whole? && Abs(x.value) >= ExponentFrom)
  {
    match x
    case Whole(n) => Returned(IntToString(n))
    case NotANumber => Returned("NaN")
    case Missing => Threw
  }

  // ---------------------------------------------------------------------------
  // parseInt(s) with no radix
  // ---------------------------------------------------------------------------

  /** The white space and line terminators parseInt skips (the Unicode
      space separators other than U+00A0 are not listed). */
  predicate IsSpace(c: char)
  {
    c == ' ' || c == '\t' || c == '\n' || c == '\r' || c == '\U{000B}' || c == '\U{000C}'
    || c == '\U{00A0}' || c == '\U{2028}' || c == '\U{2029}' || c == '\U{FEFF}'
  }

  function TrimStart(s: string): (r: string)
    ensures |r| <= |s| && r == s[|s| - |r|..]
    ensures r == [] || !IsSpace(r[0])
  {
    if s != [] && IsSpace(s[0]) then TrimStart(s[1..]) else s
  }

  /** The value of a digit in base 10 or 16, or `radix` when it is not one. */
  function DigitValue(c: char, radix: nat): (v: nat)
    requires radix == 10 || radix == 16
    ensures v <= radix
  {
    if '0' <= c <= '9' then (c as int) - ('0' as int)
    else if radix == 16 && 'a' <= c <= 'f' then (c as int) - ('a' as int) + 10
    else if radix == 16 && 'A' <= c <= 'F' then (c as int) - ('A' as int) + 10
    else radix
  }

  predicate IsDigit(c: char, radix: nat)
    requires radix == 10 || radix == 16
  {
    DigitValue(c, radix) < radix
  }

  /** The longest prefix of `s` made of digits in `radix`. */
  function DigitRun(s: string, radix: nat): (r: string)
    requires radix == 10 || radix == 16
    ensures |r| <= |s| && r == s[..|r|]
    ensures forall i :: 0 <= i < |r| ==> IsDigit(r[i], radix)
    ensures |r| == |s| || !IsDigit(s[|r|], radix)
  {
    if s != [] && IsDigit(s[0], radix) then [s[0]] + DigitRun(s[1..], radix) else []
  }

  /** The number a run of digits denotes, read left to right. */
  function RunValue(ds: string, radix: nat): nat
    requires radix == 10 || radix == 16
    requires forall i :: 0 <= i < |ds| ==> IsDigit(ds[i], radix)
  {
    if ds == [] then 0
    else RunValue(ds[..|ds| - 1], radix) * radix + DigitValue(ds[|ds| - 1], radix)
  }

  /** The digits after any sign: a `0x` or `0X` prefix switches to base 16,
      then the longest run of digits is read; None when that run is empty. */
  function UnsignedPart(u: string): (r: Option<nat>)
    ensures r.None? <==>
              if |u| >= 2 && u[0] == '0' && (u[1] == 'x' || u[1] == 'X')
              then DigitRun(u[2..], 16) == [] else DigitRun(u, 10) == []
  {
    var hex := |u| >= 2 && u[0] == '0' && (u[1] == 'x' || u[1] == 'X');
    var radix := if hex then 16 else 10;
    var ds := DigitRun(if hex then u[2..] else u, radix);
    if ds == [] then None else Some(RunValue(ds, radix))
  }

  /** `parseInt(s)`: leading white space, an optional sign, then the digits
      `UnsignedPart` reads; NaN when there are none. Anything after the digits
      is ignored. */
  function ParseInt(s: string): (r: StockNumber)
    ensures !r.Missing?
    ensures r.NotANumber? <==>
              var t := TrimStart(s);
              UnsignedPart(if t != [] && (t[0] == '-' || t[0] == '+') then t[1..] else t).None?
  {
    var t := TrimStart(s);
    var negative := t != [] && t[0] == '-';
    var u := if t != [] && (t[0] == '-' || t[0] == '+') then t[1..] else t;
    match UnsignedPart(u)
    case None => NotANumber
    case Some(m) => Whole(if negative then -(m as int) else m as int)
  }

  // ---------------------------------------------------------------------------
  // parseInt(x.toString()) == x
  // ---------------------------------------------------------------------------

  lemma {:induction false} LeadingDigitNonZero(n: nat)
    requires n >= 1
    ensures NatToDigits(n)[0] != '0'
    decreases n
  {
    if n >= 10 {
      LeadingDigitNonZero(n / 10);
    }
  }

  lemma {:induction false} DigitsValue(n: nat)
    ensures RunValue(NatToDigits(n), 10) == n
    decreases n
  {
    var ds := NatToDigits(n);
    if n < 10 {
      assert ds[..0] == [];
    } else {
      assert ds[..|ds| - 1] == NatToDigits(n / 10);
      DigitsValue(n / 10);
    }
  }

  lemma {:induction false} WholeRun(s: string, radix: nat)
    requires radix == 10 || radix == 16
    requires forall i :: 0 <= i < |s| ==> IsDigit(s[i], radix)
    ensures DigitRun(s, radix) == s
  {
    if s != [] {
      WholeRun(s[1..], radix);
    }
  }

  lemma UnsignedDigits(n: nat)
    ensures UnsignedPart(NatToDigits(n)) == Some(n)
  {
    var ds := NatToDigits(n);
    DigitsValue(n);
    WholeRun(ds, 10);
    if |ds| >= 2 {
      LeadingDigitNonZero(n);
    }
  }

  lemma NoLeadingSpace(s: string)
    requires s != [] && !IsSpace(s[0])
    ensures TrimStart(s) == s
  {
  }

  /** parseInt of text with no leading white space, an optional sign and
      digits `UnsignedPart` reads as m. */
  lemma SignedParse(t: string, m: nat)
    requires t != [] && !IsSpace(t[0])
    requires t[0] == '-' ==> UnsignedPart(t[1..]) == Some(m)
    requires t[0] != '-' && t[0] != '+' ==> UnsignedPart(t) == Some(m)
    requires t[0] != '+'
    ensures t[0] == '-' ==> ParseInt(t) == Whole(-(m as int))
    ensures t[0] != '-' ==> ParseInt(t) == Whole(m)
  {
    NoLeadingSpace(t);
  }

  lemma PositiveParse(n: nat)
    ensures ParseInt(NatToDigits(n)) == Whole(n)
  {
    var ds := NatToDigits(n);
    UnsignedDigits(n);
    assert IsDigit(ds[0], 10);
    SignedParse(ds, n);
  }

  lemma NegativeParse(n: nat)
    ensures ParseInt("-" + NatToDigits(n)) == Whole(-(n as int))
  {
    var ds := NatToDigits(n);
    var t := "-" + ds;
    UnsignedDigits(n);
    assert t[0] == '-' && t[1..] == ds;
    SignedParse(t, n);
  }

  /** The first decimal digit of m. */
  function LeadingDigit(m: nat): (d: nat)
    ensures d < 10 && (m >= 1 ==> d >= 1)
  {
    if m < 10 then m else LeadingDigit(m / 10)
  }

  lemma {:induction false} LeadingDigitIsFirst(m: nat)
    ensures NatToDigits(m)[0] == DigitChar(LeadingDigit(m))
    decreases m
  {
    if m >= 10 {
      LeadingDigitIsFirst(m / 10);
    }
  }

  /** In exponent notation parseInt stops after the first digit, at the '.'
      or the 'e'. */
  lemma ExponentialParse(m: nat)
    requires m >= 1
    ensures Exponential(m) != [] && '1' <= Exponential(m)[0] <= '9'
    ensures UnsignedPart(Exponential(m)) == Some(LeadingDigit(m))
  {
    var t := Exponential(m);
    var d := LeadingDigit(m);
    LeadingDigitIsFirst(m);
    assert t[0] == DigitChar(d);
    assert t[1] == '.' || t[1] == 'e';
    assert DigitRun(t[1..], 10) == [];
    assert DigitRun(t, 10) == [t[0]];
    SingleDigit(d);
  }

  lemma SingleDigit(d: nat)
    requires d < 10
    ensures RunValue([DigitChar(d)], 10) == d
  {
    assert [DigitChar(d)][..0] == [];
    assert DigitValue(DigitChar(d), 10) == d;
  }

  /** What `parseInt(x.toString())` gives back for a limit that has a value:
      the number itself below 10^21, and the signed first digit from there on. */
  function ReadBack(x: StockNumber): StockNumber
    requires !x.Missing?
  {
    match x
    case NotANumber => NotANumber
    case Whole(n) =>
      if Abs(n) < ExponentFrom then x
      else Whole(if n < 0 then -(LeadingDigit(Abs(n)) as int) else LeadingDigit(Abs(n)))
  }

  /** A figure survives the round trip exactly when `toString` writes it in
      full, that is NaN and every whole number below 10^21 in magnitude. */
  lemma ReadBackKeeps(x: StockNumber)
    requires !x.Missing?
    ensures ReadBack(x) == x <==> x.NotANumber? || Abs(x.value) < ExponentFrom
  {
  }

  /** `parseInt` reads back a whole number `toString` wrote: all of it below
      10^21, and only the first digit, with its sign, from 10^21 on. */
  lemma WholeRoundTrip(n: int)
    ensures Abs(n) < ExponentFrom ==> ParseInt(IntToString(n)) == Whole(n)
    ensures Abs(n) >= ExponentFrom ==>
              ParseInt(IntToString(n)) == Whole(if n < 0 then -(LeadingDigit(Abs(n)) as int) else LeadingDigit(Abs(n)))
  {
    var s := IntToString(n);
    var m := Abs(n);
    if m < ExponentFrom {
      if n < 0 {
        assert s == "-" + NatToDigits(m);
        NegativeParse(m);
      } else {
        assert s == NatToDigits(m);
        PositiveParse(m);
      }
    } else {
      var e := Exponential(m);
      ExponentialParse(m);
      if n < 0 {
        assert s == "-" + e && s[1..] == e;
        SignedParse(s, LeadingDigit(m));
      } else {
        assert s == e;
        SignedParse(s, LeadingDigit(m));
      }
    }
  }

  /** `parseInt("NaN")` is NaN again. */
  lemma NaNRoundTrip()
    ensures ParseInt("NaN") == NotANumber
  {
    var t := "NaN";
    NoLeadingSpace(t);
    assert t[0] == 'N' && !IsDigit(t[0], 10);
    assert DigitRun(t, 10) == [];
  }

  /** `toString` throws exactly on a missing limit; otherwise `parseInt`
      reads its text back as `ReadBack`. */
  lemma TextRoundTrip(x: StockNumber)
    ensures Text(x).Threw? <==> x.Missing?
    ensures !x.Missing? ==> ParseInt(Text(x).value) == ReadBack(x)
  {
    match x
    case Whole(n) => WholeRoundTrip(n);
    case NotANumber => NaNRoundTrip();
    case Missing =>
  }

  function Pow10(k: nat): (p: nat)
    ensures p >= 1
  {
    if k == 0 then 1 else 10 * Pow10(k - 1)
  }

  lemma {:induction false} PowerSum(a: nat, b: nat)
    ensures Pow10(a + b) == Pow10(a) * Pow10(b)
  {
    if a > 0 {
      PowerSum(a - 1, b);
    }
  }

  function Zeros(k: nat): (z: string)
    ensures |z| == k
  {
    if k == 0 then [] else Zeros(k - 1) + ['0']
  }

  /** 10^k is written as a one followed by k zeros. */
  lemma {:induction false} PowerDigits(k: nat)
    ensures NatToDigits(Pow10(k)) == ['1'] + Zeros(k)
  {
    if k > 0 {
      PowerDigits(k - 1);
      var p := Pow10(k - 1);
      assert Pow10(k) / 10 == p && Pow10(k) % 10 == 0;
      assert ['1'] + Zeros(k) == ['1'] + Zeros(k - 1) + ['0'];
    }
  }

  lemma {:induction false} OneThenZeros(k: nat)
    ensures DropTrailingZeros(['1'] + Zeros(k)) == "1"
  {
    if k > 0 {
      var ds := ['1'] + Zeros(k);
      assert ds[..|ds| - 1] == ['1'] + Zeros(k - 1);
      OneThenZeros(k - 1);
    }
  }

  /** 10^k in exponent notation is "1e+" and k. */
  lemma PowerExponential(k: nat)
    ensures Exponential(Pow10(k)) == ['1'] + "e+" + NatToDigits(k)
  {
    PowerDigits(k);
    OneDigitExponential(Pow10(k), k);
  }

  /** A number written as a one and k zeros is "1e+" and k in exponent form. */
  lemma OneDigitExponential(m: nat, k: nat)
    requires NatToDigits(m) == ['1'] + Zeros(k)
    ensures Exponential(m) == ['1'] + "e+" + NatToDigits(k)
  {
    var ds := NatToDigits(m);
    OneThenZeros(k);
    assert DropTrailingZeros(ds) == "1";
    assert |ds| - 1 == k && ds[0] == '1';
    assert Exponential(m) == [ds[0]] + "" + "e+" + NatToDigits(|ds| - 1);
    assert [ds[0]] + "" == ['1'];
  }

  lemma {:induction false} PowerLeadingDigit(k: nat)
    ensures LeadingDigit(Pow10(k)) == 1
  {
    if k > 0 {
      assert Pow10(k) / 10 == Pow10(k - 1);
      PowerLeadingDigit(k - 1);
    }
  }

  /** A limit of 10^21 is written "1e+21" and saved back as 1. */
  lemma LargeLimitSavesAsOne()
    ensures Text(Whole(ExponentFrom)) == Returned("1e+21")
    ensures ReadBack(Whole(ExponentFrom)) == Whole(1)
  {
    ExponentFromIsPower();
    PowerExponential(21);
    ExponentText();
    PowerLeadingDigit(21);
    assert IntToString(ExponentFrom) == Exponential(ExponentFrom);
  }

  lemma ExponentFromIsPower()
    ensures ExponentFrom == Pow10(21)
  {
    PowerSum(7, 7);
    PowerSum(14, 7);
    assert Pow10(7) == 10_000_000;
  }

  lemma ExponentText()
    ensures ['1'] + "e+" + NatToDigits(21) == "1e+21"
  {
    assert NatToDigits(21) == "21";
  }

  /** An empty form field saves as NaN. */
  lemma EmptyFieldIsNaN()
    ensures ParseInt("") == NotANumber
  {
  }

  /** parseInt keeps the integer part of a decimal and stops at the point. */
  lemma DecimalIsTruncated()
    ensures ParseInt("12.7") == Whole(12)
  {
    NoLeadingSpace("12.7");
    assert DigitRun(".7", 10) == [];
    assert DigitRun("12.7", 10) == "12";
    assert "12"[..1] == "1" && "1"[..0] == "";
    assert RunValue("12", 10) == 12;
    assert UnsignedPart("12.7") == Some(12);
  }

  // ---------------------------------------------------------------------------
  // Stock status
  // ---------------------------------------------------------------------------

  datatype StockStatus = Normal | Low | Critical

  function StatusLabel(s: StockStatus): string
  {
    match s
    case Normal => "normal"
    case Low => "low"
    case Critical => "critical"
  }

  /** `current <= x`: every comparison with NaN is false, and null compares
      as 0. */
  predicate AtMost(current: int, x: StockNumber)
  {
    match x
    case Whole(v) => current <= v
    case NotANumber => false
    case Missing => current <= 0
  }

  /** The rule of `handleSave`, most severe first. */
  function DeriveStatus(current: int, minStock: StockNumber, reorderLevel: StockNumber): (r: StockStatus)
    ensures r == Critical <==> AtMost(current, minStock)
    ensures r == Low <==> !AtMost(current, minStock) && AtMost(current, reorderLevel)
    ensures r == Normal <==> !AtMost(current, minStock) && !AtMost(current, reorderLevel)
  {
    if AtMost(current, minStock) then Critical
    else if AtMost(current, reorderLevel) then Low
    else Normal
  }

  function Severity(s: StockStatus): nat
  {
    match s
    case Normal => 0
    case Low => 1
    case Critical => 2
  }

  /** More stock never gives a more severe status. */
  lemma StatusMonotone(c1: int, c2: int, minStock: StockNumber, reorderLevel: StockNumber)
    requires c1 <= c2
    ensures Severity(DeriveStatus(c2, minStock, reorderLevel)) <= Severity(DeriveStatus(c1, minStock, reorderLevel))
  {
  }

  /** Critical wins when both limits are reached. */
  lemma CriticalWins(current: int, minStock: int, reorderLevel: int)
    requires current <= minStock && current <= reorderLevel
    ensures DeriveStatus(current, Whole(minStock), Whole(reorderLevel)) == Critical
  {
  }

  lemma ScenarioCritical()
    ensures DeriveStatus(2, Whole(5), Whole(10)) == Critical
  {
  }

  // ---------------------------------------------------------------------------
  // Rows and the form
  // ---------------------------------------------------------------------------

  datatype Threshold = Threshold(
    id: string,
    itemName: string,
    currentStock: int,
    reorderLevel: StockNumber,
    minStock: StockNumber,
    maxStock: StockNumber,
    autoAlerts: bool,
    status: string)

  datatype EditForm = EditForm(reorderLevel: string, minStock: string, maxStock: string, autoAlerts: bool)

  const EmptyForm := EditForm("", "", "", false)

  /** The form `handleEdit` fills in for a row, or Threw when one of the
      three `toString` calls throws. */
  function FormOf(t: Threshold): (r: Outcome<EditForm>)
    ensures r.Threw? <==> t.reorderLevel.Missing? || t.minStock.Missing? || t.maxStock.Missing?
    ensures r.Returned? ==> r.value.autoAlerts == t.autoAlerts
    // each field holds text that `parseInt` reads back as `ReadBack` of the limit
    ensures r.Returned? ==> && ParseInt(r.value.reorderLevel) == ReadBack(t.reorderLevel)
                            && ParseInt(r.value.minStock) == ReadBack(t.minStock)
                            && ParseInt(r.value.maxStock) == ReadBack(t.maxStock)
  {
    TextRoundTrip(t.reorderLevel);
    TextRoundTrip(t.minStock);
    TextRoundTrip(t.maxStock);
    match (Text(t.reorderLevel), Text(t.minStock), Text(t.maxStock))
    case (Returned(a), Returned(b), Returned(c)) => Returned(EditForm(a, b, c, t.autoAlerts))
    case _ => Threw
  }

  /** The copy `handleSave` makes of the row being edited. */
  function ApplyForm(t: Threshold, f: EditForm): (r: Threshold)
    ensures r.id == t.id && r.itemName == t.itemName && r.currentStock == t.currentStock
    ensures r.reorderLevel == ParseInt(f.reorderLevel) && r.minStock == ParseInt(f.minStock)
    ensures r.maxStock == ParseInt(f.maxStock) && r.autoAlerts == f.autoAlerts
    ensures r.status == StatusLabel(DeriveStatus(t.currentStock, r.minStock, r.reorderLevel))
  {
    var u := t.(reorderLevel := ParseInt(f.reorderLevel),
                minStock := ParseInt(f.minStock),
                maxStock := ParseInt(f.maxStock),
                autoAlerts := f.autoAlerts);
    u.(status := StatusLabel(DeriveStatus(u.currentStock, u.minStock, u.reorderLevel)))
  }

  /** The list `handleSave` stores: only rows with the edited id change. */
  function SaveRows(rows: seq<Threshold>, id: string, f: EditForm): (r: seq<Threshold>)
    ensures |r| == |rows|
    ensures forall i :: 0 <= i < |rows| && rows[i].id == id ==> r[i] == ApplyForm(rows[i], f)
    ensures forall i :: 0 <= i < |rows| && rows[i].id != id ==> r[i] == rows[i]
  {
    seq(|rows|, i requires 0 <= i < |rows| => if rows[i].id == id then ApplyForm(rows[i], f) else rows[i])
  }

  /** Saving a form that `handleEdit` filled in and nobody changed gives each
      limit back as `parseInt(x.toString())` and recomputes the status from
      those; a row whose limits `toString` writes in full keeps them. */
  lemma UnchangedEditKeepsRow(t: Threshold)
    ensures FormOf(t).Returned? ==>
              ApplyForm(t, FormOf(t).value)
              == t.(reorderLevel := ReadBack(t.reorderLevel), minStock := ReadBack(t.minStock),
                    maxStock := ReadBack(t.maxStock),
                    status := StatusLabel(DeriveStatus(t.currentStock, ReadBack(t.minStock), ReadBack(t.reorderLevel))))
    ensures FormOf(t).Returned? && WrittenInFull(t) ==>
              ApplyForm(t, FormOf(t).value) == t.(status := StatusLabel(DeriveStatus(t.currentStock, t.minStock, t.reorderLevel)))
  {
    TextRoundTrip(t.reorderLevel);
    TextRoundTrip(t.minStock);
    TextRoundTrip(t.maxStock);
    if FormOf(t).Returned? {
      ReadBackKeeps(t.reorderLevel);
      ReadBackKeeps(t.minStock);
      ReadBackKeeps(t.maxStock);
    }
  }

  /** `toString` writes all three limits of the row in full. */
  predicate WrittenInFull(t: Threshold)
  {
    (t.reorderLevel.NotANumber? || (t.reorderLevel.Whole? && Abs(t.reorderLevel.value) < ExponentFrom))
    && (t.minStock.NotANumber? || (t.minStock.Whole? && Abs(t.minStock.value) < ExponentFrom))
    && (t.maxStock.NotANumber? || (t.maxStock.Whole? && Abs(t.maxStock.value) < ExponentFrom))
  }

  /** `JSON.stringify` writes NaN as null, so a limit posted as NaN comes back
      from the backend as null. */
  function Posted(x: StockNumber): (r: StockNumber)
    ensures r.Missing? <==> !x.Whole?
    ensures x.Whole? ==> r == x
  {
    if x.Whole? then x else Missing
  }

  /** The row as the backend stores it from the posted list. */
  function PostedRow(t: Threshold): Threshold
  {
    t.(reorderLevel := Posted(t.reorderLevel), minStock := Posted(t.minStock), maxStock := Posted(t.maxStock))
  }

  /** A limit field saved empty is posted as null, and editing that row
      after it is loaded back throws. */
  lemma EmptyFieldBreaksNextEdit(t: Threshold, f: EditForm)
    requires f.reorderLevel == "" || f.minStock == "" || f.maxStock == ""
    ensures FormOf(PostedRow(ApplyForm(t, f))).Threw?
  {
    EmptyFieldIsNaN();
  }

  /** `rows.filter(t => t.status === wanted).length` */
  function CountStatus(rows: seq<Threshold>, wanted: string): (n: nat)
    ensures n <= |rows|
  {
    if rows == [] then 0
    else CountStatus(rows[1..], wanted) + (if rows[0].status == wanted then 1 else 0)
  }

  function Statuses(rows: seq<Threshold>): (r: seq<string>)
    ensures |r| == |rows| && forall i :: 0 <= i < |rows| ==> r[i] == rows[i].status
  {
    seq(|rows|, i requires 0 <= i < |rows| => rows[i].status)
  }

  /** The count is the number of rows that carry the status. */
  lemma {:induction false} CountIsMultiplicity(rows: seq<Threshold>, wanted: string)
    ensures CountStatus(rows, wanted) == multiset(Statuses(rows))[wanted]
  {
    if rows != [] {
      CountIsMultiplicity(rows[1..], wanted);
      assert Statuses(rows) == [rows[0].status] + Statuses(rows[1..]);
    }
  }

  /** The critical and low counts together never exceed the total. */
  lemma {:induction false} CountsWithinTotal(rows: seq<Threshold>)
    ensures CountStatus(rows, "critical") + CountStatus(rows, "low") <= |rows|
  {
    if rows != [] {
      CountsWithinTotal(rows[1..]);
    }
  }

  // ---------------------------------------------------------------------------
  // The editor state
  // ---------------------------------------------------------------------------

  class ThresholdEditor {
    var thresholds: seq<Threshold>
    var editingId: Option<string>
    var form: EditForm

    constructor ()
      ensures thresholds == [] && editingId == None && form == EmptyForm
    {
      thresholds := [];
      editingId := None;
      form := EmptyForm;
    }

    /** The list the loader stores, as the backend sent it. */
    method Load(data: seq<Threshold>)
      modifies this
      ensures thresholds == data && editingId == old(editingId) && form == old(form)
    {
      thresholds := data;
    }

    /** `handleEdit`. It sets the id being edited and then fills in the form
        from the row; when a limit is null or missing, `toString` throws
        before the form is set, and `threw` reports it. */
    method Edit(t: Threshold) returns (threw: bool)
      modifies this
      ensures threw <==> t.reorderLevel.Missing? || t.minStock.Missing? || t.maxStock.Missing?
      ensures editingId == Some(t.id) && thresholds == old(thresholds)
      ensures !threw ==> form == FormOf(t).value
      ensures threw ==> form == old(form)
    {
      editingId := Some(t.id);
      var f := FormOf(t);
      if f.Threw? {
        return true;
      }
      form := f.value;
      return false;
    }

    /** The form inputs' change handlers. */
    method SetForm(f: EditForm)
      modifies this
      ensures form == f && editingId == old(editingId) && thresholds == old(thresholds)
    {
      form := f;
    }

    /** `handleSave`: nothing happens when no row (or a row with an empty id)
        is being edited; otherwise the matching rows are rewritten from the
        form and editing ends. The form itself is left as it was. */
    method Save()
      modifies this
      ensures form == old(form)
      ensures old(editingId).None? || old(editingId).value == "" ==>
                thresholds == old(thresholds) && editingId == old(editingId)
      ensures old(editingId).Some? && old(editingId).value != "" ==>
                thresholds == SaveRows(old(thresholds), old(editingId).value, old(form))
                && editingId == None
    {
      if editingId.None? || editingId.value == "" {
        return;
      }
      thresholds := SaveRows(thresholds, editingId.value, form);
      editingId := None;
    }

    /** `handleCancel` */
    method Cancel()
      modifies this
      ensures editingId == None && form == EmptyForm && thresholds == old(thresholds)
    {
      editingId := None;
      form := EmptyForm;
    }

    /** `criticalItems`: how many rows are critical. */
    function CriticalItems(): (n: nat)
      reads this
      ensures n == multiset(Statuses(thresholds))["critical"]
      ensures n + CountStatus(thresholds, "low") <= |thresholds|
    {
      CountIsMultiplicity(thresholds, "critical");
      CountsWithinTotal(thresholds);
      CountStatus(thresholds, "critical")
    }

    /** `lowStockItems`: how many rows are low. */
    function LowStockItems(): (n: nat)
      reads this
      ensures n == multiset(Statuses(thresholds))["low"]
      ensures CountStatus(thresholds, "critical") + n <= |thresholds|
    {
      CountIsMultiplicity(thresholds, "low");
      CountsWithinTotal(thresholds);
      CountStatus(thresholds, "low")
    }
  }

  /** Edit followed by an untouched Save. When editing does not throw, every
      row with that id now carries the edited row's limits as parsed back from
      their text, with the status derived from them, and the other rows are
      unchanged. When it throws, the save uses the form as it was before. */
  method EditThenSave(e: ThresholdEditor, t: Threshold) returns (threw: bool)
    requires t.id != ""
    modifies e
    ensures threw <==> FormOf(t).Threw?
    ensures |e.thresholds| == |old(e.thresholds)| && e.editingId == None
    ensures !threw ==> forall i :: 0 <= i < |e.thresholds| && old(e.thresholds[i]).id == t.id ==>
              e.thresholds[i] == old(e.thresholds[i]).(
                reorderLevel := ReadBack(t.reorderLevel), minStock := ReadBack(t.minStock),
                maxStock := ReadBack(t.maxStock), autoAlerts := t.autoAlerts,
                status := StatusLabel(DeriveStatus(old(e.thresholds[i]).currentStock, ReadBack(t.minStock), ReadBack(t.reorderLevel))))
    ensures forall i :: 0 <= i < |e.thresholds| && old(e.thresholds[i]).id != t.id ==>
              e.thresholds[i] == old(e.thresholds[i])
    ensures threw ==> e.thresholds == SaveRows(old(e.thresholds), t.id, old(e.form))
  {
    threw := e.Edit(t);
    e.Save();
    if !threw {
      TextRoundTrip(t.reorderLevel);
      TextRoundTrip(t.minStock);
      TextRoundTrip(t.maxStock);
    }
  }
}
