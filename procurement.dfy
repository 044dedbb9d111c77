/**
 * Procurement requests: approval and rejection over the request list, the
 * loader's normalisation of backend records, the total value shown for a
 * request, and the body of a new request.
 */
module Procurement {
  import opened JsValues

  const Pending := "Pending"
  const Approved := "Approved"
  const Rejected := "Rejected"
  const Approver := "Super Admin"

  /** An item as the backend sends it. */
  datatype RawItem = RawItem(
    name: string,
    requestedQty: RawValue,
    approvedQty: RawValue,
    estimatedCost: RawValue,
    adjustedCost: RawValue)

  /** A request as the backend sends it; every optional field may be missing. */
  datatype RawRequest = RawRequest(
    id: string,
    department: string,
    items: Option<seq<RawItem>>,
    status: Option<string>,
    requestDate: Option<string>,
    approvedBy: Option<string>,
    approvedDate: Option<string>,
    notes: Option<string>)

  datatype Item = Item(
    name: string,
    requestedQty: real,
    approvedQty: Option<JsNumber>,
    estimatedCost: real,
    adjustedCost: Option<JsNumber>)

  datatype Request = Request(
    id: string,
    department: string,
    items: seq<Item>,
    status: string,
    requestDate: string,
    approvedBy: Option<string>,
    approvedDate: Option<string>,
    notes: Option<string>)

  // ---------------------------------------------------------------------------
  // Approval
  // ---------------------------------------------------------------------------

  /** `prev.map(req => req.id === id ? { ...req, status, approvedBy, approvedDate } : req)` */
  function Decide(requests: seq<Request>, id: string, status: string, today: string): (r: seq<Request>)
    ensures |r| == |requests|
    ensures forall i :: 0 <= i < |requests| && requests[i].id == id ==>
              r[i] == requests[i].(status := status, approvedBy := Some(Approver), approvedDate := Some(today))
    ensures forall i :: 0 <= i < |requests| && requests[i].id != id ==> r[i] == requests[i]
  {
    seq(|requests|, i requires 0 <= i < |requests| =>
      if requests[i].id == id
      then requests[i].(status := status, approvedBy := Some(Approver), approvedDate := Some(today))
      else requests[i])
  }

  /** A decision keeps each request's id, department, items, date and notes. */
  lemma DecideKeepsContent(requests: seq<Request>, id: string, status: string, today: string, i: nat)
    requires i < |requests|
    ensures var r := Decide(requests, id, status, today)[i];
            r.id == requests[i].id && r.department == requests[i].department
            && r.items == requests[i].items && r.requestDate == requests[i].requestDate
            && r.notes == requests[i].notes
  {
  }

  /** An id no request carries leaves the list unchanged. */
  lemma DecideUnknownId(requests: seq<Request>, id: string, status: string, today: string)
    requires forall i :: 0 <= i < |requests| ==> requests[i].id != id
    ensures Decide(requests, id, status, today) == requests
  {
  }

  /** The row actions the table offers: edit, approve and reject only on a
      pending request. */
  datatype Action = EditAction | ApproveAction | RejectAction

  function Offered(r: Request): (acts: set<Action>)
    ensures acts != {} <==> r.status == Pending
  {
    if r.status == Pending then {EditAction, ApproveAction, RejectAction} else {}
  }

  predicate UniqueIds(requests: seq<Request>)
  {
    forall i, j :: 0 <= i < j < |requests| ==> requests[i].id != requests[j].id
  }

  /** The table's click on a row's approve or reject button. */
  function Click(requests: seq<Request>, i: nat, a: Action, today: string): (r: seq<Request>)
    requires i < |requests| && a in Offered(requests[i]) && a != EditAction
    // the clicked row was pending and is now decided, so it offers nothing more
    ensures |r| == |requests| && requests[i].status == Pending
    ensures r[i].status == (if a == ApproveAction then Approved else Rejected)
    ensures r[i].approvedBy == Some(Approver) && r[i].approvedDate == Some(today)
    ensures Offered(r[i]) == {}
    // rows with another id are untouched
    ensures forall j :: 0 <= j < |requests| && requests[j].id != requests[i].id ==> r[j] == requests[j]
  {
    Decide(requests, requests[i].id, if a == ApproveAction then Approved else Rejected, today)
  }

  /** With unique ids, a click decides the clicked pending request, which then
      offers no further action, and changes no other request. */
  lemma ClickIsOneWay(requests: seq<Request>, i: nat, a: Action, today: string)
    requires UniqueIds(requests)
    requires i < |requests| && a in Offered(requests[i]) && a != EditAction
    ensures var r := Click(requests, i, a, today);
            && UniqueIds(r)
            && requests[i].status == Pending
            && r[i].status == (if a == ApproveAction then Approved else Rejected)
            && r[i].approvedBy == Some(Approver) && r[i].approvedDate == Some(today)
            && Offered(r[i]) == {}
            && forall j :: 0 <= j < |r| && j != i ==> r[j] == requests[j]
  {
  }

  /** The handlers themselves do not look at the status: rejecting an
      approved request overwrites the decision. Only the table's guard makes
      decisions terminal. */
  lemma RejectOverwritesApproval(r: Request, today: string)
    requires r.status == Approved
    ensures Decide([r], r.id, Rejected, today)[0].status == Rejected
  {
  }

  /** With a duplicated id, approving one pending row also re-decides an
      already rejected row that shares its id. */
  lemma DuplicateIdRedecides(today: string)
    ensures var rows := [Request("r1", "Ops", [], Pending, "", None, None, None),
                         Request("r1", "Ops", [], Rejected, "", None, None, None)];
            Click(rows, 0, ApproveAction, today)[1].status == Approved
  {
  }

  class ProcurementBoard {
    var requests: seq<Request>

    constructor ()
      ensures requests == []
    {
      requests := [];
    }

    /** The loader's `setRequests(normalized)`. */
    method Load(data: Option<seq<RawRequest>>, today: string)
      modifies this
      ensures requests == NormalizeRequests(data, today)
    {
      requests := NormalizeRequests(data, today);
    }

    /** `handleApprove` */
    method Approve(id: string, today: string)
      modifies this
      ensures requests == Decide(old(requests), id, Approved, today)
    {
      requests := Decide(requests, id, Approved, today);
    }

    /** `handleReject` */
    method Reject(id: string, today: string)
      modifies this
      ensures requests == Decide(old(requests), id, Rejected, today)
    {
      requests := Decide(requests, id, Rejected, today);
    }
  }

  // ---------------------------------------------------------------------------
  // Normalisation
  // ---------------------------------------------------------------------------

  /** `x == null ? undefined : Number(x)`: null and missing stay absent, any
      other value is converted and may be NaN. */
  function OptionalNumber(v: RawValue): (r: Option<JsNumber>)
    ensures r.None? <==> v.RawNull? || v.RawAbsent?
    ensures r.Some? ==> r.value == ToNumber(v)
  {
    if v.RawNull? || v.RawAbsent? then None else Some(ToNumber(v))
  }

  function NormalizeItem(it: RawItem): (r: Item)
    ensures r.name == it.name
    ensures r.requestedQty == Coerce(it.requestedQty) && r.estimatedCost == Coerce(it.estimatedCost)
    ensures r.approvedQty == OptionalNumber(it.approvedQty)
    ensures r.adjustedCost == OptionalNumber(it.adjustedCost)
  {
    Item(it.name, Coerce(it.requestedQty), OptionalNumber(it.approvedQty),
         Coerce(it.estimatedCost), OptionalNumber(it.adjustedCost))
  }

  function NormalizeRequest(r: RawRequest, today: string): (n: Request)
    ensures n.id == r.id && n.department == r.department
    ensures n.approvedBy == r.approvedBy && n.approvedDate == r.approvedDate && n.notes == r.notes
    ensures n.status == TextOr(r.status, Pending)
    ensures n.requestDate == TextOr(r.requestDate, today)
    ensures r.items.None? ==> n.items == []
    ensures r.items.Some? ==> |n.items| == |r.items.value|
    ensures r.items.Some? ==> forall i :: 0 <= i < |n.items| ==> n.items[i] == NormalizeItem(r.items.value[i])
  {
    var raw := match r.items case Some(s) => s case None => [];
    Request(r.id, r.department,
            seq(|raw|, i requires 0 <= i < |raw| => NormalizeItem(raw[i])),
            TextOr(r.status, Pending), TextOr(r.requestDate, today),
            r.approvedBy, r.approvedDate, r.notes)
  }

  function NormalizeRequests(data: Option<seq<RawRequest>>, today: string): (r: seq<Request>)
    ensures data.None? ==> r == []
    ensures data.Some? ==> |r| == |data.value|
    ensures data.Some? ==> forall i :: 0 <= i < |r| ==> r[i] == NormalizeRequest(data.value[i], today)
  {
    match data
    case None => []
    case Some(d) => seq(|d|, i requires 0 <= i < |d| => NormalizeRequest(d[i], today))
  }

  // ---------------------------------------------------------------------------
  // Total value
  // ---------------------------------------------------------------------------

  /** `item.adjustedCost || item.estimatedCost`: an absent, NaN or zero
      adjusted cost falls back to the estimate. */
  function EffectiveCost(it: Item): (c: real)
    ensures it.adjustedCost.Some? && NumberTruthy(it.adjustedCost.value) ==> c == it.adjustedCost.value.value
    ensures !(it.adjustedCost.Some? && NumberTruthy(it.adjustedCost.value)) ==> c == it.estimatedCost
  {
    if it.adjustedCost.Some? && NumberTruthy(it.adjustedCost.value)
    then it.adjustedCost.value.value else it.estimatedCost
  }

  /** `items.reduce((sum, item) => sum + EffectiveCost(item), 0)` */
  function TotalValue(items: seq<Item>): (r: real)
    // `reduce` starts from 0, and only ever adds the effective costs
    ensures items == [] ==> r == 0.0
    ensures (forall i :: 0 <= i < |items| ==> EffectiveCost(items[i]) >= 0.0) ==> r >= 0.0
  {
    if items == [] then 0.0 else TotalValue(items[..|items| - 1]) + EffectiveCost(items[|items| - 1])
  }

  /** The total of a list split in two is the sum of the totals. */
  lemma {:induction false} TotalValueAppend(a: seq<Item>, b: seq<Item>)
    ensures TotalValue(a + b) == TotalValue(a) + TotalValue(b)
    decreases |b|
  {
    if b != [] {
      assert (a + b)[..|a + b| - 1] == a + b[..|b| - 1];
      TotalValueAppend(a, b[..|b| - 1]);
    } else {
      assert a + b == a;
    }
  }

  /** Non-negative estimates and adjusted costs give a non-negative total,
      since whichever of the two is effective is non-negative. */
  lemma TotalValueNonNegative(items: seq<Item>)
    requires forall i :: 0 <= i < |items| ==> items[i].estimatedCost >= 0.0
    requires forall i :: 0 <= i < |items| && items[i].adjustedCost.Some? && items[i].adjustedCost.value.Num?
               ==> items[i].adjustedCost.value.value >= 0.0
    ensures TotalValue(items) >= 0.0
  {
    assert forall i :: 0 <= i < |items| ==> EffectiveCost(items[i]) >= 0.0;
  }

  /** With no adjustments the total is the sum of the estimates. */
  function EstimatedTotal(items: seq<Item>): real
  {
    if items == [] then 0.0 else EstimatedTotal(items[..|items| - 1]) + items[|items| - 1].estimatedCost
  }

  lemma {:induction false} UnadjustedTotalIsEstimate(items: seq<Item>)
    requires forall i :: 0 <= i < |items| ==> items[i].adjustedCost.None?
    ensures TotalValue(items) == EstimatedTotal(items)
  {
    if items != [] {
      UnadjustedTotalIsEstimate(items[..|items| - 1]);
    }
  }

  /** An adjusted cost of 0 counts as the estimate, not as free. */
  lemma ZeroAdjustmentFallsBack(it: Item)
    requires it.adjustedCost == Some(Num(0.0))
    ensures TotalValue([it]) == it.estimatedCost
  {
    assert [it][..0] == [];
  }

  // ---------------------------------------------------------------------------
  // A new request
  // ---------------------------------------------------------------------------

  datatype NewItem = NewItem(name: string, requestedQty: JsNumber, estimatedCost: JsNumber)

  datatype NewRequestBody = NewRequestBody(department: string, items: seq<NewItem>, requestDate: string)

  /** The guard and body of `handleAddRequest`; `toNumber` is `Number` on a
      form string, passed in. */
  function AddRequest(department: string, itemName: string, qtyText: string, costText: string,
                      today: string, toNumber: string -> JsNumber): (r: Option<NewRequestBody>)
    ensures r.None? <==> department == "" || itemName == "" || qtyText == "" || costText == ""
    ensures r.Some? ==>
              && r.value.department == department && r.value.requestDate == today
              && r.value.items == [NewItem(itemName, toNumber(qtyText), toNumber(costText))]
  {
    if department == "" || itemName == "" || qtyText == "" || costText == "" then None
    else Some(NewRequestBody(department, [NewItem(itemName, toNumber(qtyText), toNumber(costText))], today))
  }

  /** JSON.stringify writes NaN as null. */
  function AsJson(n: JsNumber): RawValue
  {
    match n
    case Num(x) => RawNumber(x)
    case NaN => RawNull
  }

  /** The request the backend returns for a body it stored unchanged. */
  function StoredRequest(id: string, b: NewRequestBody): RawRequest
  {
    RawRequest(id, b.department,
               Some(seq(|b.items|, i requires 0 <= i < |b.items| =>
                 RawItem(b.items[i].name, AsJson(b.items[i].requestedQty), RawAbsent,
                         AsJson(b.items[i].estimatedCost), RawAbsent))),
               None, Some(b.requestDate), None, None, None)
  }

  /** A new request loads back pending, dated the day it was made, with its
      one item valued at the estimate (0 when the estimate did not parse). */
  lemma NewRequestLoadsBack(id: string, department: string, itemName: string, qtyText: string,
                            costText: string, today: string, later: string,
                            toNumber: string -> JsNumber)
    requires department != "" && itemName != "" && qtyText != "" && costText != "" && today != ""
    ensures var b := AddRequest(department, itemName, qtyText, costText, today, toNumber).value;
            var r := NormalizeRequest(StoredRequest(id, b), later);
            && r.status == Pending && r.requestDate == today && |r.items| == 1
            && r.items[0].approvedQty.None? && r.items[0].adjustedCost.None?
            && TotalValue(r.items) == OrZero(toNumber(costText))
            && Offered(r) == {EditAction, ApproveAction, RejectAction}
  {
    var b := AddRequest(department, itemName, qtyText, costText, today, toNumber).value;
    var r := NormalizeRequest(StoredRequest(id, b), later);
    assert r.items[..0] == [];
  }
}
