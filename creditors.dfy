/**
 * Supplier creditors: the loader's normalisation of backend records, the
 * balance helpers used by the settlement dialog, the settlement and
 * new-creditor request bodies, and the status badge.
 */
module Creditors {
  import opened JsValues

  /** A settlement record; `A` is the type of its amount field. */
  datatype Settlement<A> = Settlement(
    id: string,
    amount: A,
    date: string,
    paymentMethod: string,
    reference: Option<string>,
    recordedBy: string,
    notes: Option<string>)

  type RawSettlement = Settlement<RawValue>

  /** A creditor as the backend sends it: every numeric field may be a number,
      a string, null or missing, and the history itself may be missing. */
  datatype RawCreditor = RawCreditor(
    id: string,
    supplierName: string,
    originalAmount: RawValue,
    remainingBalance: RawValue,
    creationDate: string,
    status: string,
    settlementHistory: Option<seq<RawSettlement>>)

  datatype CreditorStatus = Unpaid | PartiallyPaid | FullyPaid

  /** A creditor as the module stores it after normalisation. */
  datatype Creditor = Creditor(
    id: string,
    supplierName: string,
    originalAmount: real,
    remainingBalance: real,
    creationDate: string,
    status: CreditorStatus,
    settlementHistory: seq<Settlement<real>>)

  /** The display string the source stores in `status`. */
  function StatusLabel(s: CreditorStatus): (r: string)
    ensures r in {"Unpaid", "Partially Paid", "Fully Paid"}
  {
    match s
    case Unpaid => "Unpaid"
    case PartiallyPaid => "Partially Paid"
    case FullyPaid => "Fully Paid"
  }

  // ---------------------------------------------------------------------------
  // Normalisation (the loader effect)
  // ---------------------------------------------------------------------------

  /** `{ ...s, amount: Number(s.amount) || 0 }` */
  function NormalizeSettlement(s: RawSettlement): (r: Settlement<real>)
    ensures r.amount == Coerce(s.amount)
    ensures r.id == s.id && r.date == s.date && r.paymentMethod == s.paymentMethod
    ensures r.reference == s.reference && r.recordedBy == s.recordedBy && r.notes == s.notes
  {
    Settlement(s.id, Coerce(s.amount), s.date, s.paymentMethod, s.reference, s.recordedBy, s.notes)
  }

  /** `(c.settlementHistory || []).map(NormalizeSettlement)` */
  function NormalizeHistory(h: seq<RawSettlement>): (r: seq<Settlement<real>>)
    ensures |r| == |h|
    ensures forall i :: 0 <= i < |h| ==> r[i] == NormalizeSettlement(h[i])
  {
    seq(|h|, i requires 0 <= i < |h| => NormalizeSettlement(h[i]))
  }

  function HistoryOf(c: RawCreditor): seq<RawSettlement>
  {
    match c.settlementHistory
    case Some(h) => h
    case None => []
  }

  /** The sum of the settlement amounts, folded from the left as `reduce` does.
      On normalised amounts `Number(s.amount || 0)` is the amount itself. */
  function TotalPaid(h: seq<Settlement<real>>): (r: real)
    // `reduce` starts from 0, and only ever adds the amounts
    ensures h == [] ==> r == 0.0
    ensures (forall i :: 0 <= i < |h| ==> h[i].amount >= 0.0) ==> r >= 0.0
  {
    if h == [] then 0.0 else TotalPaid(h[..|h| - 1]) + h[|h| - 1].amount
  }

  /** The status rule: settled balance first, then any payment at all. */
  function DeriveStatus(remaining: real, totalPaid: real): (r: CreditorStatus)
    ensures r == FullyPaid <==> remaining == 0.0
    ensures r == PartiallyPaid <==> remaining != 0.0 && totalPaid > 0.0
    ensures r == Unpaid <==> remaining != 0.0 && totalPaid <= 0.0
  {
    if remaining == 0.0 then FullyPaid
    else if totalPaid > 0.0 then PartiallyPaid
    else Unpaid
  }

  /** The normalisation applied to each creditor the backend returns. */
  function NormalizeCreditor(c: RawCreditor): (r: Creditor)
    // the fields the spread copies are untouched
    ensures r.id == c.id && r.supplierName == c.supplierName && r.creationDate == c.creationDate
    // every amount is coerced; the history keeps its length and order
    ensures r.originalAmount == Coerce(c.originalAmount)
    ensures r.settlementHistory == NormalizeHistory(HistoryOf(c))
    // a non-zero server balance wins; otherwise the clamped difference
    ensures Coerce(c.remainingBalance) != 0.0 ==> r.remainingBalance == Coerce(c.remainingBalance)
    ensures Coerce(c.remainingBalance) == 0.0 ==>
              r.remainingBalance == Max(0.0, r.originalAmount - TotalPaid(r.settlementHistory))
    ensures Coerce(c.remainingBalance) == 0.0 ==> r.remainingBalance >= 0.0
    // status agrees with the recomputed figures
    ensures r.status == DeriveStatus(r.remainingBalance, TotalPaid(r.settlementHistory))
  {
    var settlements := NormalizeHistory(HistoryOf(c));
    var originalAmount := Coerce(c.originalAmount);
    var totalPaid := TotalPaid(settlements);
    var serverBalance := Coerce(c.remainingBalance);
    var remainingBalance := if serverBalance != 0.0 then serverBalance
                            else Max(0.0, originalAmount - totalPaid);
    Creditor(c.id, c.supplierName, originalAmount, remainingBalance, c.creationDate,
             DeriveStatus(remainingBalance, totalPaid), settlements)
  }

  /** `(data || []).map(NormalizeCreditor)` */
  function NormalizeCreditors(data: Option<seq<RawCreditor>>): (r: seq<Creditor>)
    ensures data.None? ==> r == []
    ensures data.Some? ==> |r| == |data.value|
    ensures data.Some? ==> forall i :: 0 <= i < |r| ==> r[i] == NormalizeCreditor(data.value[i])
  {
    match data
    case None => []
    case Some(d) => seq(|d|, i requires 0 <= i < |d| => NormalizeCreditor(d[i]))
  }

  /** A normalised creditor written back as JSON: numbers as numbers. */
  function AsRaw(c: Creditor): RawCreditor
  {
    RawCreditor(c.id, c.supplierName, RawNumber(c.originalAmount), RawNumber(c.remainingBalance),
                c.creationDate, StatusLabel(c.status),
                Some(seq(|c.settlementHistory|, i requires 0 <= i < |c.settlementHistory| =>
                  var s := c.settlementHistory[i];
                  Settlement(s.id, RawNumber(s.amount), s.date, s.paymentMethod, s.reference, s.recordedBy, s.notes))))
  }

  // ---------------------------------------------------------------------------
  // Properties of the normalisation
  // ---------------------------------------------------------------------------

  /** Normalising an already-normalised creditor gives it back unchanged. */
  lemma NormalizeIdempotent(c: RawCreditor)
    ensures NormalizeCreditor(AsRaw(NormalizeCreditor(c))) == NormalizeCreditor(c)
  {
    var n := NormalizeCreditor(c);
    var m := NormalizeCreditor(AsRaw(n));
    assert m.settlementHistory == n.settlementHistory;
    if Coerce(c.remainingBalance) == 0.0 {
      assert n.remainingBalance == Max(0.0, n.originalAmount - TotalPaid(n.settlementHistory));
    }
  }

  /** Without a server balance, and with non-negative amounts, a creditor is
      fully paid exactly when the payments cover the original amount, and
      partially paid exactly when something but not everything was paid. */
  lemma StatusMeaning(c: RawCreditor)
    requires Coerce(c.remainingBalance) == 0.0
    requires forall i :: 0 <= i < |HistoryOf(c)| ==> Coerce(HistoryOf(c)[i].amount) >= 0.0
    ensures var r := NormalizeCreditor(c);
            var paid := TotalPaid(r.settlementHistory);
            && paid >= 0.0
            && (r.status == FullyPaid <==> paid >= r.originalAmount)
            && (r.status == PartiallyPaid <==> 0.0 < paid < r.originalAmount)
            && (r.status == Unpaid <==> paid == 0.0 && r.originalAmount > 0.0)
  {
    var h := NormalizeCreditor(c).settlementHistory;
    assert forall i :: 0 <= i < |h| ==> h[i].amount >= 0.0;
  }

  /** For non-negative inputs and no server balance, the balance is the
      amount still owed, clamped at zero. */
  lemma RemainingIsClampedDifference(c: RawCreditor)
    requires Coerce(c.remainingBalance) == 0.0
    requires Coerce(c.originalAmount) >= 0.0
    requires forall i :: 0 <= i < |HistoryOf(c)| ==> Coerce(HistoryOf(c)[i].amount) >= 0.0
    ensures var r := NormalizeCreditor(c);
            r.remainingBalance == Max(0.0, r.originalAmount - TotalPaid(r.settlementHistory))
            && 0.0 <= r.remainingBalance <= r.originalAmount
  {
    var h := NormalizeCreditor(c).settlementHistory;
    assert forall i :: 0 <= i < |h| ==> h[i].amount >= 0.0;
  }

  /** A creditor of amount 0 with no settlements is reported 'Fully Paid'. */
  lemma ZeroCreditorIsFullyPaid(c: RawCreditor)
    requires Coerce(c.originalAmount) == 0.0 && Coerce(c.remainingBalance) == 0.0
    requires HistoryOf(c) == []
    ensures NormalizeCreditor(c).status == FullyPaid
    ensures NormalizeCreditor(c).remainingBalance == 0.0
  {
  }

  function Paid(amount: real): RawSettlement
  {
    Settlement("", RawNumber(amount), "", "Cash", None, "", None)
  }

  lemma ScenarioPartiallyPaid()
    ensures var r := NormalizeCreditor(RawCreditor("c1", "Acme", RawNumber(10000.0), RawAbsent, "",
                                                   "", Some([Paid(3000.0), Paid(2000.0)])));
            r.remainingBalance == 5000.0 && r.status == PartiallyPaid
  {
    var h := NormalizeHistory([Paid(3000.0), Paid(2000.0)]);
    assert h[..1] == [h[0]];
    assert TotalPaid(h) == 5000.0;
  }

  lemma ScenarioFullyPaid()
    ensures var r := NormalizeCreditor(RawCreditor("c2", "Acme", RawNumericText(5000.0), RawNull, "",
                                                   "", Some([Paid(5000.0)])));
            r.remainingBalance == 0.0 && r.status == FullyPaid
  {
    var h := NormalizeHistory([Paid(5000.0)]);
    assert TotalPaid(h) == 5000.0;
  }

  // ---------------------------------------------------------------------------
  // Balance helpers used by the settlement dialog
  // ---------------------------------------------------------------------------

  /** `getTotalPaid` */
  function GetTotalPaid(c: Creditor): (r: real)
    // a creditor with no settlements has paid nothing
    ensures c.settlementHistory == [] ==> r == 0.0
    ensures (forall i :: 0 <= i < |c.settlementHistory| ==> c.settlementHistory[i].amount >= 0.0) ==> r >= 0.0
  {
    TotalPaid(c.settlementHistory)
  }

  /** `getRemainingBalance`: not clamped. */
  function GetRemainingBalance(c: Creditor): (r: real)
    ensures r + GetTotalPaid(c) == c.originalAmount
  {
    c.originalAmount - GetTotalPaid(c)
  }

  /** An overpaid creditor has a negative displayed balance. */
  lemma {:induction false} RemainingBalanceCanBeNegative(c: Creditor)
    requires GetTotalPaid(c) > c.originalAmount
    ensures GetRemainingBalance(c) < 0.0
  {
  }

  /** `getRemainingBalance` agrees with the stored balance exactly when the
      normaliser computed it and the payments did not exceed the amount. */
  lemma RemainingBalanceAgrees(c: RawCreditor)
    requires Coerce(c.remainingBalance) == 0.0
    requires TotalPaid(NormalizeHistory(HistoryOf(c))) <= Coerce(c.originalAmount)
    ensures GetRemainingBalance(NormalizeCreditor(c)) == NormalizeCreditor(c).remainingBalance
  {
  }

  // ---------------------------------------------------------------------------
  // Request bodies
  // ---------------------------------------------------------------------------

  /** The PATCH body of a settlement. */
  datatype PaymentPayload = PaymentPayload(
    originalBalance: real,
    remainingBalance: JsNumber,
    paymentMethod: string,
    reference: Option<string>,
    notes: Option<string>)

  /** The settlement request: the supplier that addresses it and its body. */
  datatype SettlementRequest = SettlementRequest(supplierName: string, payload: PaymentPayload)

  /** The guard and payload of `handleRecordPayment`; `parseFloat` is the
      browser's parser, passed in. */
  function RecordPayment(selected: Option<Creditor>, amountText: string, paymentMethod: string,
                         reference: string, notes: string,
                         parseFloat: string -> JsNumber): (r: Option<SettlementRequest>)
    ensures r.None? <==> selected.None? || amountText == "" || paymentMethod == ""
    ensures r.Some? ==>
              && r.value.supplierName == selected.value.supplierName
              && r.value.payload.originalBalance == selected.value.originalAmount
              && r.value.payload.paymentMethod == paymentMethod
              && r.value.payload.reference == NonEmpty(reference)
              && r.value.payload.notes == NonEmpty(notes)
    // the new balance is the selected balance less the amount, NaN if the amount does not parse
    ensures r.Some? ==>
              (r.value.payload.remainingBalance.Num? <==> parseFloat(amountText).Num?)
    ensures r.Some? && parseFloat(amountText).Num? ==>
              r.value.payload.remainingBalance.value + parseFloat(amountText).value
              == selected.value.remainingBalance
  {
    if selected.None? || amountText == "" || paymentMethod == "" then None
    else
      var amount := parseFloat(amountText);
      Some(SettlementRequest(selected.value.supplierName,
        PaymentPayload(selected.value.originalAmount,
                       Minus(Num(selected.value.remainingBalance), amount),
                       paymentMethod, NonEmpty(reference), NonEmpty(notes))))
  }

  /** Paying the whole outstanding balance leaves nothing outstanding. */
  lemma PayingInFullClearsBalance(c: Creditor, amountText: string, paymentMethod: string,
                                  parseFloat: string -> JsNumber)
    requires amountText != "" && paymentMethod != ""
    requires parseFloat(amountText) == Num(c.remainingBalance)
    ensures RecordPayment(Some(c), amountText, paymentMethod, "", "", parseFloat).Some?
    ensures RecordPayment(Some(c), amountText, paymentMethod, "", "", parseFloat).value.payload.remainingBalance
            == Num(0.0)
  {
  }

  /** The POST body of `handleAddCreditor`. JSON.stringify writes NaN as null. */
  datatype NewCreditorBody = NewCreditorBody(supplierName: string, originalAmount: JsNumber,
                                             creationDate: string)

  function AddCreditor(name: string, amountText: string, today: string,
                       parseFloat: string -> JsNumber): (r: Option<NewCreditorBody>)
    ensures r.None? <==> name == "" || amountText == ""
    ensures r.Some? ==> r.value.supplierName == name && r.value.creationDate == today
                        && r.value.originalAmount == parseFloat(amountText)
  {
    if name == "" || amountText == "" then None
    else Some(NewCreditorBody(name, parseFloat(amountText), today))
  }

  /** The creditor the backend returns for a new body it stored unchanged. */
  function Stored(id: string, b: NewCreditorBody): RawCreditor
  {
    RawCreditor(id, b.supplierName,
                match b.originalAmount case Num(x) => RawNumber(x) case NaN => RawNull,
                RawAbsent, b.creationDate, "", None)
  }

  /** A new creditor for a positive amount loads back as 'Unpaid', owing the
      whole amount; one whose amount did not parse loads back as 'Fully Paid'. */
  lemma NewCreditorLoadsBack(id: string, name: string, amountText: string, today: string,
                             parseFloat: string -> JsNumber)
    requires name != "" && amountText != ""
    ensures var b := AddCreditor(name, amountText, today, parseFloat).value;
            var r := NormalizeCreditor(Stored(id, b));
            && (parseFloat(amountText).Num? && parseFloat(amountText).value > 0.0 ==>
                  r.status == Unpaid && r.remainingBalance == parseFloat(amountText).value)
            && (parseFloat(amountText).NaN? ==> r.status == FullyPaid)
  {
  }

  // ---------------------------------------------------------------------------
  // Status badge
  // ---------------------------------------------------------------------------

  datatype Badge = Green | Yellow | Red

  /** `getStatusBadge`: anything that is not an exact label shows as unpaid. */
  function StatusBadge(status: string): (b: Badge)
    ensures b == Green <==> status == "Fully Paid"
    ensures b == Yellow <==> status == "Partially Paid"
  {
    if status == "Fully Paid" then Green
    else if status == "Partially Paid" then Yellow
    else Red
  }

  function BadgeText(b: Badge): string
  {
    match b
    case Green => "Fully Paid"
    case Yellow => "Partially Paid"
    case Red => "Unpaid"
  }

  /** For every normalised creditor the badge shows its status. */
  lemma BadgeShowsStatus(c: RawCreditor)
    ensures BadgeText(StatusBadge(StatusLabel(NormalizeCreditor(c).status)))
            == StatusLabel(NormalizeCreditor(c).status)
  {
  }
}
