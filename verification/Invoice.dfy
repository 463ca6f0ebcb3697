/** The invoice aggregate (internal/modules/invoice/domain/invoice.go): line items edited in place
    while in draft, totals recomputed from gross prices, and a four-state lifecycle. Amounts are
    cents; the clock reading of each call is a parameter. */
module Invoice {
  import opened Options
  import opened Products
  import opened VatRounding

  datatype Status = Draft | Finalized | Paid | Void

  datatype Error = InvalidTransition | NotDraft | NoLineItems | LineItemNotFound

  datatype Outcome = Ok | Err(error: Error)

  datatype LineItem = LineItem(id: string, productId: string, productName: string, description: string,
                               quantity: int, unitPriceGross: int, vatRate: int,
                               unitPrice: int, totalPrice: int, totalVAT: int, totalGross: int)

  /** The fields the aggregate's methods change. */
  datatype Record = Record(status: Status, lineItems: seq<LineItem>,
                           subTotal: int, vatTotal: int, totalAmount: int,
                           dueDate: int, paidAt: Option<int>, reminderSentAt: Option<int>, updatedAt: int)

  datatype Op =
    | AddLine(item: LineItem)
    | UpdateLine(itemId: string, productName: string, description: string,
                 quantity: int, unitPriceGross: int, vatRate: int)
    | RemoveLine(itemId: string)
    | Recalc
    | Finalise
    | Pay
    | Cancel
    | Remind

  function NewRecord(now: int, dueDate: int): Record {
    Record(Draft, [], 0, 0, 0, dueDate, None, None, now)
  }

  // ---------------------------------------------------------------- what each call does

  /** Position of the first line with this id, or the number of lines. */
  function FirstIndex(lines: seq<LineItem>, id: string): (k: nat)
    ensures k <= |lines| && (k < |lines| ==> lines[k].id == id)
    ensures forall j :: 0 <= j < k ==> lines[j].id != id
  {
    if lines == [] || lines[0].id == id then 0 else 1 + FirstIndex(lines[1..], id)
  }

  function Repriced(li: LineItem): LineItem {
    var net := NetFromGross(li.unitPriceGross, li.vatRate);
    li.(totalGross := li.quantity * li.unitPriceGross,
        unitPrice := net,
        totalPrice := li.quantity * net,
        totalVAT := li.quantity * li.unitPriceGross - li.quantity * net)
  }

  function AllRepriced(lines: seq<LineItem>): (r: seq<LineItem>)
    ensures |r| == |lines| && forall k :: 0 <= k < |lines| ==> r[k] == Repriced(lines[k])
  {
    seq(|lines|, k requires 0 <= k < |lines| => Repriced(lines[k]))
  }

  function SumNet(lines: seq<LineItem>): int {
    if lines == [] then 0 else SumNet(lines[..|lines| - 1]) + lines[|lines| - 1].totalPrice
  }

  function SumVat(lines: seq<LineItem>): int {
    if lines == [] then 0 else SumVat(lines[..|lines| - 1]) + lines[|lines| - 1].totalVAT
  }

  function SumGross(lines: seq<LineItem>): int {
    if lines == [] then 0 else SumGross(lines[..|lines| - 1]) + lines[|lines| - 1].totalGross
  }

  lemma SumsOneMore(lines: seq<LineItem>, i: nat)
    requires i < |lines|
    ensures SumNet(lines[..i + 1]) == SumNet(lines[..i]) + lines[i].totalPrice
    ensures SumVat(lines[..i + 1]) == SumVat(lines[..i]) + lines[i].totalVAT
    ensures SumGross(lines[..i + 1]) == SumGross(lines[..i]) + lines[i].totalGross
  {
    assert lines[..i + 1][..i] == lines[..i];
  }

  function Recalculated(r: Record, now: int): Record {
    var lines := AllRepriced(r.lineItems);
    r.(lineItems := lines, subTotal := SumNet(lines), vatTotal := SumVat(lines), totalAmount := SumGross(lines),
       updatedAt := now)
  }

  predicate Overdue(r: Record, now: int) {
    r.status.Finalized? && now > r.dueDate
  }

  function Apply(r: Record, op: Op, now: int): (Record, Outcome) {
    match op
    case AddLine(item) =>
      if !r.status.Draft? then (r, Err(NotDraft))
      else (r.(lineItems := r.lineItems + [item], updatedAt := now), Ok)
    case UpdateLine(id, productName, description, quantity, unitPriceGross, vatRate) =>
      var k := FirstIndex(r.lineItems, id);
      if !r.status.Draft? then (r, Err(NotDraft))
      else if k == |r.lineItems| then (r, Err(LineItemNotFound))
      else
        var li := r.lineItems[k].(productName := productName, description := description, quantity := quantity,
                                  unitPriceGross := unitPriceGross, vatRate := vatRate);
        (r.(lineItems := r.lineItems[k := li], updatedAt := now), Ok)
    case RemoveLine(id) =>
      var k := FirstIndex(r.lineItems, id);
      if !r.status.Draft? then (r, Err(NotDraft))
      else if k == |r.lineItems| then (r, Err(LineItemNotFound))
      else (r.(lineItems := r.lineItems[..k] + r.lineItems[k + 1..], updatedAt := now), Ok)
    case Recalc => (Recalculated(r, now), Ok)
    case Finalise =>
      if !r.status.Draft? then (r, Err(InvalidTransition))
      else if r.lineItems == [] then (r, Err(NoLineItems))
      else (Recalculated(r, now).(status := Finalized), Ok)
    case Pay =>
      if !r.status.Finalized? then (r, Err(InvalidTransition))
      else (r.(status := Paid, paidAt := Some(now), updatedAt := now), Ok)
    case Cancel =>
      if !r.status.Draft? && !r.status.Finalized? then (r, Err(InvalidTransition))
      else (r.(status := Void, updatedAt := now), Ok)
    case Remind =>
      if !Overdue(r, now) then (r, Err(InvalidTransition))
      else (r.(reminderSentAt := Some(now), updatedAt := now), Ok)
  }

  // ---------------------------------------------------------------- lines, described without the calls

  predicate IsFirst(lines: seq<LineItem>, id: string, k: int) {
    0 <= k < |lines| && lines[k].id == id && forall j :: 0 <= j < k ==> lines[j].id != id
  }

  predicate NoLine(lines: seq<LineItem>, id: string) {
    forall k :: 0 <= k < |lines| ==> lines[k].id != id
  }

  /** The derived amounts follow from quantity, gross price and rate: the net price is the gross one
      without its VAT to the nearest cent, and the VAT is what is left of the gross. */
  ghost predicate Priced(li: LineItem) {
    && li.totalGross == li.quantity * li.unitPriceGross
    && li.totalPrice == li.quantity * li.unitPrice
    && li.totalVAT == li.totalGross - li.totalPrice
    && if li.vatRate <= 0 then li.unitPrice == li.unitPriceGross
       else IsNearest(li.unitPriceGross * 100, 100 + li.vatRate, li.unitPrice)
  }

  /** Everything a line says apart from its derived amounts. */
  predicate SameInputs(a: LineItem, b: LineItem) {
    && a.id == b.id && a.productId == b.productId && a.productName == b.productName
    && a.description == b.description
    && a.quantity == b.quantity && a.unitPriceGross == b.unitPriceGross && a.vatRate == b.vatRate
  }

  lemma RepricedIsPriced(li: LineItem)
    ensures Priced(Repriced(li)) && SameInputs(Repriced(li), li)
  {
    if li.vatRate > 0 { RoundsToNearest(li.unitPriceGross * 100, 100 + li.vatRate); }
  }

  /** The description leaves nothing open. */
  lemma PricingIsUnique(a: LineItem, b: LineItem)
    requires Priced(a) && Priced(b) && SameInputs(a, b)
    ensures a == b
  {
    if a.vatRate > 0 { NearestIsUnique(a.unitPriceGross * 100, 100 + a.vatRate, a.unitPrice, b.unitPrice); }
  }

  /** Quantities times gross prices. */
  function GrossOf(lines: seq<LineItem>): int {
    if lines == [] then 0
    else GrossOf(lines[..|lines| - 1]) + lines[|lines| - 1].quantity * lines[|lines| - 1].unitPriceGross
  }

  /** A recalculation has been done on these lines, and on no others. */
  ghost predicate AreRepriced(before: seq<LineItem>, after: seq<LineItem>) {
    |after| == |before|
    && forall k :: 0 <= k < |before| ==> SameInputs(after[k], before[k]) && Priced(after[k])
  }

  lemma AllRepricedAreRepriced(lines: seq<LineItem>)
    ensures AreRepriced(lines, AllRepriced(lines))
  {
    forall k | 0 <= k < |lines| ensures SameInputs(AllRepriced(lines)[k], lines[k]) && Priced(AllRepriced(lines)[k]) {
      RepricedIsPriced(lines[k]);
    }
  }

  lemma {:induction false} GrossIsKept(before: seq<LineItem>, after: seq<LineItem>)
    requires AreRepriced(before, after)
    ensures SumGross(after) == GrossOf(before) == GrossOf(after)
  {
    if before != [] {
      var n := |before| - 1;
      GrossIsKept(before[..n], after[..n]);
    }
  }

  // ---------------------------------------------------------------- the aggregate

  class Invoice {
    var status: Status
    var lineItems: seq<LineItem>
    var subTotal: int
    var vatTotal: int
    var totalAmount: int
    var dueDate: int
    var paidAt: Option<int>
    var reminderSentAt: Option<int>
    var updatedAt: int

    function State(): Record
      reads this
    {
      Record(status, lineItems, subTotal, vatTotal, totalAmount, dueDate, paidAt, reminderSentAt, updatedAt)
    }

    constructor (now: int)
      ensures State() == NewRecord(now, now)
      ensures status == Draft && lineItems == [] && subTotal == 0 && vatTotal == 0 && totalAmount == 0
      ensures dueDate == now && paidAt == None && reminderSentAt == None && updatedAt == now
    {
      status, lineItems := Draft, [];
      subTotal, vatTotal, totalAmount := 0, 0, 0;
      dueDate, paidAt, reminderSentAt, updatedAt := now, None, None, now;
    }

    method AddLineItem(item: LineItem, now: int) returns (outcome: Outcome)
      modifies this`lineItems, this`updatedAt
      ensures (State(), outcome) == Apply(old(State()), AddLine(item), now)
      ensures outcome == if status.Draft? then Ok else Err(NotDraft)
      ensures lineItems == if outcome.Ok? then old(lineItems) + [item] else old(lineItems)
      ensures updatedAt == if outcome.Ok? then now else old(updatedAt)
    {
      if status != Draft { return Err(NotDraft); }
      lineItems, updatedAt := lineItems + [item], now;
      outcome := Ok;
    }

    method UpdateLineItem(itemId: string, productName: string, description: string,
                          quantity: int, unitPriceGross: int, vatRate: int, now: int) returns (outcome: Outcome)
      modifies this`lineItems, this`updatedAt
      ensures (State(), outcome) ==
              Apply(old(State()), UpdateLine(itemId, productName, description, quantity, unitPriceGross, vatRate), now)
      ensures outcome == if !status.Draft? then Err(NotDraft)
                         else if NoLine(old(lineItems), itemId) then Err(LineItemNotFound) else Ok
      ensures |lineItems| == |old(lineItems)|
      ensures forall k :: 0 <= k < |lineItems| ==>
                var li := old(lineItems)[k];
                lineItems[k] == if outcome.Ok? && IsFirst(old(lineItems), itemId, k)
                                then LineItem(li.id, li.productId, productName, description, quantity, unitPriceGross,
                                              vatRate, li.unitPrice, li.totalPrice, li.totalVAT, li.totalGross)
                                else li
      ensures updatedAt == if outcome.Ok? then now else old(updatedAt)
    {
      if status != Draft { return Err(NotDraft); }
      for i := 0 to |lineItems|
        invariant State() == old(State())
        invariant i <= FirstIndex(lineItems, itemId)
      {
        if lineItems[i].id == itemId {
          lineItems := lineItems[i := lineItems[i].(productName := productName, description := description,
                                                    quantity := quantity, unitPriceGross := unitPriceGross,
                                                    vatRate := vatRate)];
          updatedAt := now;
          return Ok;
        }
      }
      outcome := Err(LineItemNotFound);
    }

    method RemoveLineItem(itemId: string, now: int) returns (outcome: Outcome)
      modifies this`lineItems, this`updatedAt
      ensures (State(), outcome) == Apply(old(State()), RemoveLine(itemId), now)
      ensures outcome == if !status.Draft? then Err(NotDraft)
                         else if NoLine(old(lineItems), itemId) then Err(LineItemNotFound) else Ok
      ensures outcome.Err? ==> lineItems == old(lineItems) && updatedAt == old(updatedAt)
      ensures outcome.Ok? ==> updatedAt == now
      ensures outcome.Ok? ==>
                exists k :: IsFirst(old(lineItems), itemId, k) && lineItems == old(lineItems)[..k] + old(lineItems)[k + 1..]
    {
      if status != Draft { return Err(NotDraft); }
      for i := 0 to |lineItems|
        invariant State() == old(State())
        invariant i <= FirstIndex(lineItems, itemId)
      {
        if lineItems[i].id == itemId {
          lineItems := lineItems[..i] + lineItems[i + 1..];
          updatedAt := now;
          return Ok;
        }
      }
      outcome := Err(LineItemNotFound);
    }

    /** One line of the loop below. */
    method Reprice(line: LineItem) returns (li: LineItem)
      ensures li == Repriced(line)
    {
      li := line.(totalGross := line.quantity * line.unitPriceGross,
                  unitPrice := NetFromGross(line.unitPriceGross, line.vatRate));
      li := li.(totalPrice := li.quantity * li.unitPrice);
      li := li.(totalVAT := li.totalGross - li.totalPrice);
    }

    /** Reprices every line in place while adding up the three totals. */
    method Recalculate(now: int)
      modifies this`lineItems, this`subTotal, this`vatTotal, this`totalAmount, this`updatedAt
      ensures State() == Apply(old(State()), Recalc, now).0
      ensures AreRepriced(old(lineItems), lineItems) && updatedAt == now
      ensures subTotal + vatTotal == totalAmount == GrossOf(old(lineItems)) && subTotal == SumNet(lineItems)
    {
      ghost var before, after := lineItems, AllRepriced(lineItems);
      var net, vat, gross := 0, 0, 0;
      for i := 0 to |lineItems|
        invariant |lineItems| == |before|
        invariant forall k :: 0 <= k < |before| ==> lineItems[k] == if k < i then after[k] else before[k]
        invariant net == SumNet(after[..i]) && vat == SumVat(after[..i]) && gross == SumGross(after[..i])
      {
        var li := Reprice(lineItems[i]);
        lineItems := lineItems[i := li];
        net, vat, gross := net + li.totalPrice, vat + li.totalVAT, gross + li.totalGross;
        SumsOneMore(after, i);
      }
      assert lineItems == after;
      assert after[..|after|] == after;
      AllRepricedAreRepriced(before);
      GrossIsKept(before, after);
      NetPlusVatIsGross(before);
      subTotal, vatTotal, totalAmount, updatedAt := net, vat, gross, now;
    }

    method Finalize(now: int) returns (outcome: Outcome)
      modifies this`status, this`lineItems, this`subTotal, this`vatTotal, this`totalAmount, this`updatedAt
      ensures (State(), outcome) == Apply(old(State()), Finalise, now)
      ensures outcome == if !old(status).Draft? then Err(InvalidTransition)
                         else if |old(lineItems)| == 0 then Err(NoLineItems) else Ok
      ensures outcome.Err? ==> State() == old(State())
      ensures outcome.Ok? ==> status == Finalized && AreRepriced(old(lineItems), lineItems) && updatedAt == now
      ensures outcome.Ok? ==> subTotal + vatTotal == totalAmount == GrossOf(old(lineItems)) && subTotal == SumNet(lineItems)
    {
      if status != Draft { return Err(InvalidTransition); }
      if |lineItems| == 0 { return Err(NoLineItems); }
      Recalculate(now);
      status, updatedAt := Finalized, now;
      outcome := Ok;
    }

    method MarkPaid(now: int) returns (outcome: Outcome)
      modifies this`status, this`paidAt, this`updatedAt
      ensures (State(), outcome) == Apply(old(State()), Pay, now)
      ensures outcome == if old(status).Finalized? then Ok else Err(InvalidTransition)
      ensures outcome.Err? ==> State() == old(State())
      ensures outcome.Ok? ==> status == Paid && paidAt == Some(now) && updatedAt == now
    {
      if status != Finalized { return Err(InvalidTransition); }
      status, paidAt, updatedAt := Paid, Some(now), now;
      outcome := Ok;
    }

    method VoidInvoice(now: int) returns (outcome: Outcome)
      modifies this`status, this`updatedAt
      ensures (State(), outcome) == Apply(old(State()), Cancel, now)
      ensures outcome == if old(status).Paid? || old(status).Void? then Err(InvalidTransition) else Ok
      ensures outcome.Err? ==> State() == old(State())
      ensures outcome.Ok? ==> status == Void && updatedAt == now
    {
      if status != Draft && status != Finalized { return Err(InvalidTransition); }
      status, updatedAt := Void, now;
      outcome := Ok;
    }

    method MarkReminderSent(now: int) returns (outcome: Outcome)
      modifies this`reminderSentAt, this`updatedAt
      ensures (State(), outcome) == Apply(old(State()), Remind, now)
      ensures outcome == if status.Finalized? && now > dueDate then Ok else Err(InvalidTransition)
      ensures reminderSentAt == if outcome.Ok? then Some(now) else old(reminderSentAt)
      ensures updatedAt == if outcome.Ok? then now else old(updatedAt)
    {
      if !Overdue(State(), now) { return Err(InvalidTransition); }
      reminderSentAt, updatedAt := Some(now), now;
      outcome := Ok;
    }
  }

  // ---------------------------------------------------------------- whole runs

  datatype Call = Call(op: Op, now: int)

  function Run(r: Record, calls: seq<Call>): Record {
    if calls == [] then r
    else Apply(Run(r, calls[..|calls| - 1]), calls[|calls| - 1].op, calls[|calls| - 1].now).0
  }

  /** The totals and every line's derived amounts are up to date. */
  predicate Settled(r: Record) {
    && r.lineItems == AllRepriced(r.lineItems)
    && r.subTotal == SumNet(r.lineItems)
    && r.vatTotal == SumVat(r.lineItems)
    && r.totalAmount == SumGross(r.lineItems)
  }

  predicate Inv(r: Record) {
    && (r.paidAt.Some? <==> r.status.Paid?)
    && (r.status.Finalized? || r.status.Paid? ==> r.lineItems != [] && Settled(r))
  }

  lemma {:induction false} NetPlusVatIsGross(lines: seq<LineItem>)
    ensures SumNet(AllRepriced(lines)) + SumVat(AllRepriced(lines)) == SumGross(AllRepriced(lines))
  {
    if lines != [] {
      var n := |lines| - 1;
      NetPlusVatIsGross(lines[..n]);
      assert AllRepriced(lines)[..n] == AllRepriced(lines[..n]);
    }
  }

  lemma RecalculatedIsSettled(r: Record, now: int)
    ensures Settled(Recalculated(r, now))
  {
    var once := AllRepriced(r.lineItems);
    assert AllRepriced(once) == once;
  }

  lemma ApplyKeepsInv(r: Record, op: Op, now: int)
    requires Inv(r)
    ensures Inv(Apply(r, op, now).0)
  {
    RecalculatedIsSettled(r, now);
  }

  /** A refused call changes nothing, and status moves only along draft, finalized, paid, with void
      reachable from the first two. */
  lemma StatusMovesForward(r: Record, op: Op, now: int)
    ensures var (s, outcome) := Apply(r, op, now);
            && (outcome.Err? ==> s == r)
            && (s.status != r.status <==> outcome.Ok? && op in {Finalise, Pay, Cancel})
            && (s.status != r.status ==>
                  (op, r.status, s.status) in {(Finalise, Draft, Finalized), (Pay, Finalized, Paid),
                                               (Cancel, Draft, Void), (Cancel, Finalized, Void)})
  {
  }

  /** Over every sequence of calls, stray recalculations included: a finalized or paid invoice has
      lines and exact totals that add up, and it has a payment time exactly when it is paid. */
  lemma {:induction false} EveryRunIsConsistent(created: int, due: int, calls: seq<Call>)
    ensures var r := Run(NewRecord(created, due), calls);
            && Inv(r)
            && (r.status.Finalized? || r.status.Paid? ==>
                  && r.lineItems != []
                  && r.subTotal + r.vatTotal == r.totalAmount == SumGross(r.lineItems)
                  && r.subTotal == SumNet(r.lineItems) && r.vatTotal == SumVat(r.lineItems)
                  && r.totalAmount == GrossOf(r.lineItems)
                  && forall k :: 0 <= k < |r.lineItems| ==> Priced(r.lineItems[k]))
  {
    var r := Run(NewRecord(created, due), calls);
    if calls != [] {
      var n := |calls| - 1;
      EveryRunIsConsistent(created, due, calls[..n]);
      ApplyKeepsInv(Run(NewRecord(created, due), calls[..n]), calls[n].op, calls[n].now);
    }
    NetPlusVatIsGross(r.lineItems);
    AllRepricedAreRepriced(r.lineItems);
    GrossIsKept(r.lineItems, AllRepriced(r.lineItems));
  }

  /** What an invoice charges: its lines and its three totals. */
  function Content(r: Record): (seq<LineItem>, int, int, int) {
    (r.lineItems, r.subTotal, r.vatTotal, r.totalAmount)
  }

  lemma RunOneMore(r: Record, calls: seq<Call>, c: Call)
    ensures Run(r, calls + [c]) == Apply(Run(r, calls), c.op, c.now).0
  {
    assert (calls + [c])[..|calls|] == calls;
  }

  lemma {:induction false} SettledStaysFrozen(r: Record, calls: seq<Call>)
    requires !r.status.Draft? && Settled(r)
    ensures Content(Run(r, calls)) == Content(r) && !Run(r, calls).status.Draft?
  {
    if calls != [] {
      SettledStaysFrozen(r, calls[..|calls| - 1]);
    }
  }

  /** Once out of draft, what an invoice charges can never change again exactly when its totals were
      up to date; finalizing guarantees that, voiding a draft does not. */
  lemma FrozenIffSettled(r: Record)
    requires !r.status.Draft?
    ensures (forall calls :: Content(Run(r, calls)) == Content(r)) <==> Settled(r)
  {
    if Settled(r) {
      forall calls ensures Content(Run(r, calls)) == Content(r) {
        SettledStaysFrozen(r, calls);
      }
    } else {
      RunOneMore(r, [], Call(Recalc, 0));
      RecalculatedIsSettled(r, 0);
      var s := Run(r, [] + [Call(Recalc, 0)]);
      assert Settled(s);
      assert Content(s) != Content(r);
    }
  }

  lemma VoidedDraftCanBeStale(created: int, item: LineItem)
    requires item.quantity * item.unitPriceGross != 0
    ensures var r := Run(NewRecord(created, created), [Call(AddLine(item), created)] + [Call(Cancel, created)]);
            r.status.Void? && !Settled(r)
  {
    var start := NewRecord(created, created);
    RunOneMore(start, [], Call(AddLine(item), created));
    assert [] + [Call(AddLine(item), created)] == [Call(AddLine(item), created)];
    RunOneMore(start, [Call(AddLine(item), created)], Call(Cancel, created));
    assert [] + [item] == [item] && [item][..0] == [];
    assert SumGross([item]) == item.totalGross;
    assert item == Repriced(item) ==> item.totalGross != 0;
    assert AllRepriced([item]) == [Repriced(item)];
  }

  /** Removing a line just added restores the lines, provided its id was not in use. */
  lemma RemoveUndoesAdd(r: Record, item: LineItem, now: int, later: int)
    requires r.status.Draft? && forall k :: 0 <= k < |r.lineItems| ==> r.lineItems[k].id != item.id
    ensures var added := Apply(r, AddLine(item), now).0;
            var (back, outcome) := Apply(added, RemoveLine(item.id), later);
            outcome.Ok? && back == r.(updatedAt := later)
  {
    var lines := r.lineItems + [item];
    var k := FirstIndex(lines, item.id);
    assert lines[|r.lineItems|] == item;
    assert k == |r.lineItems|;
    assert lines[..k] + lines[k + 1..] == r.lineItems;
  }

  // ---------------------------------------------------------------- rounding over lines

  /** The exact net of a line, before any rounding. */
  function ExactNet(li: LineItem): real {
    var rate := if li.vatRate <= 0 then 0 else li.vatRate;
    (li.quantity * li.unitPriceGross * 100) as real / (100 + rate) as real
  }

  function SumExactNet(lines: seq<LineItem>): real {
    if lines == [] then 0.0 else SumExactNet(lines[..|lines| - 1]) + ExactNet(lines[|lines| - 1])
  }

  function Units(lines: seq<LineItem>): nat {
    if lines == [] then 0 else Units(lines[..|lines| - 1]) + Abs(lines[|lines| - 1].quantity)
  }

  predicate Within(x: int, exact: real, twiceBound: int) {
    -(twiceBound as real) <= 2.0 * (x as real - exact) <= twiceBound as real
  }

  lemma LineNetError(li: LineItem)
    requires li == Repriced(li)
    ensures Within(li.totalPrice, ExactNet(li), Abs(li.quantity))
  {
    var q, g := li.quantity, li.unitPriceGross;
    if li.vatRate <= 0 {
      assert ExactNet(li) == (q * g) as real;
    } else {
      var d, net := 100 + li.vatRate, li.unitPrice;
      NetWithinHalfCent(g, li.vatRate);
      QuantityTimesError(q, 2 * (d * net - 100 * g), d);
      ScaledDifference(q, net, d, g);
      QuotientError(q * net, q * g * 100, d, Abs(q));
    }
  }

  lemma ScaledDifference(q: int, net: int, d: int, g: int)
    ensures 2 * (q * net * d - q * g * 100) == q * (2 * (d * net - 100 * g))
  {
    MulAssoc(q, net, d);
    MulAssoc(q, g, 100);
    MulMinus(q, net * d, g * 100);
  }

  /** From an integer bound on 2 * (x * d - n) to one on the distance of x from n / d. */
  lemma QuotientError(x: int, n: int, d: int, b: nat)
    requires d > 0 && -(b * d) <= 2 * (x * d - n) <= b * d
    ensures Within(x, n as real / d as real, b)
  {
    var e, dr, br := n as real / d as real, d as real, b as real;
    QuotientTimesDivisor(n, d);
    RealProduct(x, d);
    RealProduct(b, d);
    var t := 2.0 * (x as real - e);
    assert t * dr == 2.0 * (x as real * dr) - 2.0 * (e * dr);
    assert -br * dr == -(br * dr);
    UnscaleLe(t, br, dr);
    UnscaleLe(-br, t, dr);
  }

  lemma QuantityTimesError(q: int, e: int, d: int)
    requires Abs(e) <= d
    ensures -(Abs(q) * d) <= q * e <= Abs(q) * d
  {
    ProductWithin(q, e, d);
  }

  /** The invoice's net total is within half a cent per unit sold of the exact rational net, whatever
      the mix of rates. */
  lemma {:induction false} SubTotalError(lines: seq<LineItem>)
    requires lines == AllRepriced(lines)
    ensures Within(SumNet(lines), SumExactNet(lines), Units(lines))
  {
    if lines != [] {
      var n := |lines| - 1;
      assert lines[..n] == AllRepriced(lines[..n]);
      SubTotalError(lines[..n]);
      LineNetError(lines[n]);
    }
  }

  /** Ordinary amounts: no negative quantity or price. */
  predicate NonNegative(lines: seq<LineItem>) {
    forall k :: 0 <= k < |lines| ==> lines[k].quantity >= 0 && lines[k].unitPriceGross >= 0
  }

  /** Neither the net nor the VAT part is ever negative or more than the gross total. */
  lemma {:induction false} NetAndVatWithinGross(lines: seq<LineItem>)
    requires lines == AllRepriced(lines) && NonNegative(lines)
    ensures 0 <= SumNet(lines) <= SumGross(lines) && 0 <= SumVat(lines) <= SumGross(lines)
  {
    NetPlusVatIsGross(lines);
    if lines != [] {
      var n := |lines| - 1;
      var li := lines[n];
      assert lines[..n] == AllRepriced(lines[..n]);
      NetAndVatWithinGross(lines[..n]);
      NetBetweenZeroAndGross(li.unitPriceGross, li.vatRate);
      MulMonotone(li.quantity, 0, li.unitPrice);
      MulMonotone(li.quantity, li.unitPrice, li.unitPriceGross);
      NetPlusVatIsGross(lines[..n]);
    }
  }

  // ---------------------------------------------------------------- 64-bit range

  const INT64_MAX: int := 0x7FFF_FFFF_FFFF_FFFF

  predicate FitsInt64(x: int) {
    -INT64_MAX - 1 <= x <= INT64_MAX
  }

  function Volume(lines: seq<LineItem>): nat {
    if lines == [] then 0
    else Volume(lines[..|lines| - 1]) + Abs(lines[|lines| - 1].quantity) * Abs(lines[|lines| - 1].unitPriceGross)
  }

  lemma LineWithinVolume(li: LineItem)
    requires li == Repriced(li)
    ensures Abs(li.totalGross) <= Abs(li.quantity) * Abs(li.unitPriceGross)
    ensures Abs(li.totalPrice) <= Abs(li.quantity) * Abs(li.unitPriceGross)
    ensures Abs(li.totalVAT) <= Abs(li.quantity) * Abs(li.unitPriceGross)
  {
    var q, g, net := li.quantity, li.unitPriceGross, NetFromGross(li.unitPriceGross, li.vatRate);
    NetBetweenZeroAndGross(g, li.vatRate);
    ProductWithin(q, g, g);
    ProductWithin(q, net, g);
    ProductWithin(q, g - net, g);
    MulMinus(q, g, net);
  }

  lemma {:induction false} PartialSumsWithinVolume(lines: seq<LineItem>)
    requires lines == AllRepriced(lines)
    ensures Abs(SumNet(lines)) <= Volume(lines) && Abs(SumVat(lines)) <= Volume(lines)
    ensures Abs(SumGross(lines)) <= Volume(lines)
  {
    if lines != [] {
      var n := |lines| - 1;
      assert lines[..n] == AllRepriced(lines[..n]);
      PartialSumsWithinVolume(lines[..n]);
      LineWithinVolume(lines[n]);
    }
  }

  lemma {:induction false} VolumeGrows(lines: seq<LineItem>, i: nat)
    requires i <= |lines|
    ensures Volume(lines[..i]) <= Volume(lines)
    decreases |lines|
  {
    var n := |lines| - 1;
    if i <= n {
      VolumeGrows(lines[..n], i);
      assert lines[..n][..i] == lines[..i];
      MulMonotone(Abs(lines[n].quantity), 0, Abs(lines[n].unitPriceGross));
    } else {
      assert lines[..i] == lines;
    }
  }

  lemma RunningTotalsFit(done: seq<LineItem>, i: nat)
    requires i <= |done| && done == AllRepriced(done) && Volume(done) <= INT64_MAX
    ensures FitsInt64(SumNet(done[..i])) && FitsInt64(SumVat(done[..i])) && FitsInt64(SumGross(done[..i]))
  {
    VolumeGrows(done, i);
    assert done[..i] == AllRepriced(done[..i]);
    PartialSumsWithinVolume(done[..i]);
  }

  lemma LineFits(done: seq<LineItem>, i: nat)
    requires i < |done| && done == AllRepriced(done) && Volume(done) <= INT64_MAX
    ensures FitsInt64(done[i].totalGross) && FitsInt64(done[i].totalPrice) && FitsInt64(done[i].totalVAT)
  {
    LineVolume(done, i);
    LineWithinVolume(done[i]);
  }

  /** Nothing in a recalculation wraps in 64 bits, no running total included, while the quantities
      times the absolute gross prices add up to an int64. */
  lemma RecalculateFitsInt64(lines: seq<LineItem>)
    requires Volume(lines) <= INT64_MAX
    ensures forall i :: 0 <= i <= |lines| ==>
              var sofar := AllRepriced(lines)[..i];
              FitsInt64(SumNet(sofar)) && FitsInt64(SumVat(sofar)) && FitsInt64(SumGross(sofar))
    ensures forall i :: 0 <= i < |lines| ==>
              var li := AllRepriced(lines)[i];
              FitsInt64(li.totalGross) && FitsInt64(li.totalPrice) && FitsInt64(li.totalVAT)
  {
    var done := AllRepriced(lines);
    SameVolume(lines);
    assert done == AllRepriced(done);
    forall i | 0 <= i <= |lines|
      ensures FitsInt64(SumNet(done[..i])) && FitsInt64(SumVat(done[..i])) && FitsInt64(SumGross(done[..i]))
    {
      RunningTotalsFit(done, i);
    }
    forall i | 0 <= i < |lines|
      ensures FitsInt64(done[i].totalGross) && FitsInt64(done[i].totalPrice) && FitsInt64(done[i].totalVAT)
    {
      LineFits(done, i);
    }
  }

  lemma {:induction false} SameVolume(lines: seq<LineItem>)
    ensures Volume(AllRepriced(lines)) == Volume(lines)
  {
    if lines != [] {
      var n := |lines| - 1;
      SameVolume(lines[..n]);
      assert AllRepriced(lines)[..n] == AllRepriced(lines[..n]);
    }
  }

  // ---------------------------------------------------------------- the recalculation in machine arithmetic

  /** Two's complement: what an int64 operation keeps of its exact result. */
  function Wrap64(x: int): (r: int)
    ensures FitsInt64(r) && (FitsInt64(x) ==> r == x)
  {
    (x + INT64_MAX + 1) % (2 * (INT64_MAX + 1)) - INT64_MAX - 1
  }

  lemma WrapIsCongruent(x: int)
    ensures (x - Wrap64(x)) % 0x1_0000_0000_0000_0000 == 0
  {
  }

  /** One line in int64, given the float64 quotient its net price is rounded from. */
  function MachineRepriced(li: LineItem, quotient: real): LineItem {
    var unit := if li.vatRate <= 0 then li.unitPriceGross else Wrap64(MathRound(quotient));
    var gross, price := Wrap64(li.quantity * li.unitPriceGross), Wrap64(li.quantity * unit);
    li.(totalGross := gross, unitPrice := unit, totalPrice := price, totalVAT := Wrap64(gross - price))
  }

  function MachineLines(lines: seq<LineItem>, quotients: seq<real>): (r: seq<LineItem>)
    requires |quotients| == |lines|
    ensures |r| == |lines|
  {
    seq(|lines|, k requires 0 <= k < |lines| => MachineRepriced(lines[k], quotients[k]))
  }

  /** The three running totals, each addition in int64. */
  function MachineTotals(lines: seq<LineItem>): (int, int, int) {
    if lines == [] then (0, 0, 0)
    else
      var t, li := MachineTotals(lines[..|lines| - 1]), lines[|lines| - 1];
      (Wrap64(t.0 + li.totalPrice), Wrap64(t.1 + li.totalVAT), Wrap64(t.2 + li.totalGross))
  }

  function MachineRecalculated(r: Record, quotients: seq<real>, now: int): Record
    requires |quotients| == |r.lineItems|
  {
    var lines := MachineLines(r.lineItems, quotients);
    var (net, vat, gross) := MachineTotals(lines);
    r.(lineItems := lines, subTotal := net, vatTotal := vat, totalAmount := gross, updatedAt := now)
  }

  /** The price is small enough for an exact division, and the quotient is one that float64 division of
      it may give. */
  ghost predicate Divided(li: LineItem, quotient: real) {
    li.vatRate > 0 ==>
      200 * Abs(li.unitPriceGross) < TWO_53 && CorrectlyRounded(quotient, li.unitPriceGross * 100, 100 + li.vatRate)
  }

  lemma MachineLineIsExact(li: LineItem, quotient: real)
    requires Divided(li, quotient) && Abs(li.quantity) * Abs(li.unitPriceGross) <= INT64_MAX
    ensures MachineRepriced(li, quotient) == Repriced(li)
  {
    var done := Repriced(li);
    if li.vatRate > 0 {
      FloatNetIsExact(li.unitPriceGross, li.vatRate, quotient);
      NetBetweenZeroAndGross(li.unitPriceGross, li.vatRate);
      assert FitsInt64(done.unitPrice);
    }
    assert done == Repriced(done);
    LineWithinVolume(done);
  }

  lemma WrapsToItself(x: int)
    requires Abs(x) <= INT64_MAX
    ensures Wrap64(x) == x
  {
  }

  lemma MachineTotalsStep(done: seq<LineItem>)
    requires done != [] && done == AllRepriced(done) && Volume(done) <= INT64_MAX
    requires var n := |done| - 1; MachineTotals(done[..n]) == (SumNet(done[..n]), SumVat(done[..n]), SumGross(done[..n]))
    ensures MachineTotals(done) == (SumNet(done), SumVat(done), SumGross(done))
  {
    var before, li := done[..|done| - 1], done[|done| - 1];
    PartialSumsWithinVolume(done);
    WrapsToItself(SumNet(before) + li.totalPrice);
    WrapsToItself(SumVat(before) + li.totalVAT);
    WrapsToItself(SumGross(before) + li.totalGross);
  }

  lemma {:induction false} MachineTotalsAreExact(done: seq<LineItem>)
    requires done == AllRepriced(done) && Volume(done) <= INT64_MAX
    ensures MachineTotals(done) == (SumNet(done), SumVat(done), SumGross(done))
  {
    if done != [] {
      var n := |done| - 1;
      VolumeGrows(done, n);
      assert done[..n] == AllRepriced(done[..n]);
      MachineTotalsAreExact(done[..n]);
      MachineTotalsStep(done);
    }
  }

  lemma LineVolume(lines: seq<LineItem>, i: nat)
    requires i < |lines|
    ensures Abs(lines[i].quantity) * Abs(lines[i].unitPriceGross) <= Volume(lines)
  {
    VolumeGrows(lines, i + 1);
    assert lines[..i + 1][..i] == lines[..i];
  }

  /** In float64 and int64 a recalculation leaves exactly the record it leaves in exact arithmetic, while
      every taxed price is below 2^53 / 200 cents and the volume of the lines fits an int64. */
  lemma MachineRecalculationIsExact(r: Record, quotients: seq<real>, now: int)
    requires |quotients| == |r.lineItems| && Volume(r.lineItems) <= INT64_MAX
    requires forall k :: 0 <= k < |quotients| ==> Divided(r.lineItems[k], quotients[k])
    ensures MachineRecalculated(r, quotients, now) == Recalculated(r, now)
  {
    var lines, done := r.lineItems, AllRepriced(r.lineItems);
    forall k | 0 <= k < |lines| ensures MachineLines(lines, quotients)[k] == done[k] {
      LineVolume(lines, k);
      MachineLineIsExact(lines[k], quotients[k]);
    }
    assert MachineLines(lines, quotients) == done;
    SameVolume(lines);
    assert done == AllRepriced(done);
    MachineTotalsAreExact(done);
  }
}
