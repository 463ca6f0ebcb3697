/** The billing run (cmd/server/billing_actions.go) with its invoice handler
    (internal/modules/invoice/app/commands/generate.go): due services are grouped by customer, each
    customer is invoiced, and the services of the invoiced customers are advanced.

    Outcomes of the customer lookup, the invoice handler and the row saves are parameters, as is the
    calendar arithmetic of the billing cycle. */
module Billing {
  import opened Options
  import opened Invoice
  import opened VatRounding

  datatype Service = Service(id: string, customerId: string, productId: string, productName: string,
                             priceAmount: int, active: bool, billingCycle: string, nextBillingDate: Option<int>)

  type Table = map<string, Service>

  type Calendar = (int, string) -> int

  /** How the outside world answers during one run; `dueDate` is thirty days after `now`. */
  datatype Env = Env(customerFound: string -> bool, handlerOk: string -> bool, savedOk: string -> bool,
                     advance: Calendar, lineId: nat -> string, now: int, dueDate: int)

  predicate IsDue(s: Service, now: int) {
    s.active && s.nextBillingDate.Some? && s.nextBillingDate.value <= now
  }

  /** The result of the due query. */
  ghost predicate DueListing(rows: Table, now: int, due: seq<Service>) {
    && (forall i, j :: 0 <= i < j < |due| ==> due[i].id != due[j].id)
    && (forall s :: s in due ==> s.id in rows && rows[s.id] == s && IsDue(s, now))
    && (forall id :: id in rows && IsDue(rows[id], now) ==> rows[id] in due)
    && (forall id :: id in rows ==> rows[id].id == id)
  }

  /** Every table of services stored under their own ids has such a result: the theorems below are about
      every table. */
  lemma DueListingExists(rows: Table, now: int) returns (due: seq<Service>)
    requires forall id :: id in rows ==> rows[id].id == id
    ensures DueListing(rows, now, due)
  {
    due := ListingOf(rows, set id | id in rows && IsDue(rows[id], now));
    forall id | id in rows && IsDue(rows[id], now) ensures rows[id] in due {}
  }

  lemma {:induction false} ListingOf(rows: Table, ids: set<string>) returns (listing: seq<Service>)
    requires ids <= rows.Keys && forall id :: id in rows ==> rows[id].id == id
    ensures forall s :: s in listing <==> s.id in ids && rows[s.id] == s
    ensures forall i, j :: 0 <= i < j < |listing| ==> listing[i].id != listing[j].id
    decreases ids
  {
    listing := [];
    if ids != {} {
      var id :| id in ids;
      var fewer := ListingOf(rows, ids - {id});
      assert forall k :: 0 <= k < |fewer| ==> fewer[k] in fewer;
      listing := fewer + [rows[id]];
    }
  }

  function Group(due: seq<Service>, customerId: string): seq<Service> {
    if due == [] then []
    else
      var n := |due| - 1;
      Group(due[..n], customerId) + if due[n].customerId == customerId then [due[n]] else []
  }

  function Customers(due: seq<Service>): set<string> {
    set s | s in due :: s.customerId
  }

  function AdvanceNextBillingDate(s: Service, advance: Calendar): Service {
    if s.nextBillingDate.None? then s
    else s.(nextBillingDate := Some(advance(s.nextBillingDate.value, s.billingCycle)))
  }

  // ---------------------------------------------------------------- the invoice of one customer

  const DEFAULT_VAT_RATE := 21

  function LineFor(s: Service, lineId: string): LineItem {
    LineItem(lineId, s.productId, s.productName, s.productName, 1, s.priceAmount, DEFAULT_VAT_RATE, 0, 0, 0, 0)
  }

  function LinesFor(services: seq<Service>, lineId: nat -> string): (r: seq<LineItem>)
    ensures |r| == |services|
  {
    seq(|services|, k requires 0 <= k < |services| => LineFor(services[k], lineId(k)))
  }

  function InvoiceFor(services: seq<Service>, env: Env): Record {
    Recalculated(NewRecord(env.now, env.dueDate).(lineItems := LinesFor(services, env.lineId)), env.now)
  }

  /** A line that charges one unit of the service at its price and at 21 percent VAT. */
  ghost predicate LineBills(li: LineItem, s: Service) {
    && li.productId == s.productId && li.productName == s.productName && li.description == s.productName
    && li.quantity == 1 && li.unitPriceGross == s.priceAmount && li.vatRate == 21 && Priced(li)
  }

  /** A draft with one line per service, in order, and their total. */
  ghost predicate Bills(inv: Record, services: seq<Service>) {
    && inv.status.Draft? && inv.paidAt.None? && |inv.lineItems| == |services|
    && (forall k :: 0 <= k < |services| ==> LineBills(inv.lineItems[k], services[k]))
    && inv.subTotal + inv.vatTotal == inv.totalAmount == GrossOf(inv.lineItems)
  }

  lemma LineForBills(s: Service, lineId: string)
    ensures LineBills(Repriced(LineFor(s, lineId)), s)
  {
    RepricedIsPriced(LineFor(s, lineId));
  }

  lemma InvoiceBills(services: seq<Service>, env: Env)
    ensures Bills(InvoiceFor(services, env), services)
  {
    var lines := LinesFor(services, env.lineId);
    forall k | 0 <= k < |services| ensures LineBills(AllRepriced(lines)[k], services[k]) {
      LineForBills(services[k], env.lineId(k));
      assert AllRepriced(lines)[k] == Repriced(LineFor(services[k], env.lineId(k)));
    }
    AllRepricedAreRepriced(lines);
    GrossIsKept(lines, AllRepriced(lines));
    NetPlusVatIsGross(lines);
  }

  /** The handler: nothing for no services, otherwise a draft with one line per service. */
  method BuildInvoice(services: seq<Service>, env: Env) returns (inv: Invoice?)
    ensures services == [] <==> inv == null
    ensures inv != null ==> fresh(inv) && inv.State() == InvoiceFor(services, env)
    ensures inv != null ==> Bills(inv.State(), services) && inv.dueDate == env.dueDate
  {
    InvoiceBills(services, env);
    if services == [] { return null; }
    inv := new Invoice(env.now);
    inv.dueDate := env.dueDate;
    for i := 0 to |services|
      invariant inv != null && fresh(inv)
      invariant inv.State() == NewRecord(env.now, env.dueDate).(lineItems := LinesFor(services, env.lineId)[..i])
    {
      var outcome := inv.AddLineItem(LineFor(services[i], env.lineId(i)), env.now);
    }
    assert LinesFor(services, env.lineId)[..|services|] == LinesFor(services, env.lineId);
    inv.Recalculate(env.now);
  }

  // ---------------------------------------------------------------- the run

  predicate Billed(env: Env, customerId: string) {
    env.customerFound(customerId) && env.handlerOk(customerId)
  }

  /** A row of an invoiced service: its next billing date moved on, if the save went through. */
  function Advanced(s: Service, env: Env): Service {
    if env.savedOk(s.id) then AdvanceNextBillingDate(s, env.advance) else s
  }

  /** A row after the run. */
  function RowAfter(s: Service, env: Env): Service {
    if IsDue(s, env.now) && Billed(env, s.customerId) then Advanced(s, env) else s
  }

  /** The tables once the customers in `done` have been dealt with. */
  function RowsAfter(rows: Table, done: set<string>, env: Env): Table {
    map id | id in rows :: if rows[id].customerId in done then RowAfter(rows[id], env) else rows[id]
  }

  function InvoicesAfter(due: seq<Service>, done: set<string>, env: Env): map<string, Record> {
    map c | c in done && Billed(env, c) :: InvoiceFor(Group(due, c), env)
  }

  lemma NothingDoneYet(rows: Table, due: seq<Service>, env: Env)
    ensures RowsAfter(rows, {}, env) == rows && InvoicesAfter(due, {}, env) == map[]
  {
  }

  lemma InvoicesStep(due: seq<Service>, done: set<string>, c: string, env: Env)
    ensures InvoicesAfter(due, done + {c}, env) ==
            if Billed(env, c) then InvoicesAfter(due, done, env)[c := InvoiceFor(Group(due, c), env)]
            else InvoicesAfter(due, done, env)
  {
  }

  lemma RowsSkip(rows: Table, done: set<string>, c: string, env: Env)
    requires !Billed(env, c)
    ensures RowsAfter(rows, done + {c}, env) == RowsAfter(rows, done, env)
  {
  }

  lemma RowsStep(start: Table, due: seq<Service>, done: set<string>, c: string, env: Env, before: Table, after: Table)
    requires DueListing(start, env.now, due) && Billed(env, c) && c !in done
    requires before == RowsAfter(start, done, env) && after.Keys == before.Keys
    requires forall s :: s in Group(due, c) ==> s.id in after && after[s.id] == Advanced(s, env)
    requires forall id :: id in after && (forall s :: s in Group(due, c) ==> s.id != id) ==> after[id] == before[id]
    ensures after == RowsAfter(start, done + {c}, env)
  {
    GroupFacts(due, c);
    forall id | id in start
      ensures after[id] == RowsAfter(start, done + {c}, env)[id]
    {
      if start[id].customerId == c && IsDue(start[id], env.now) {
        assert start[id] in Group(due, c);
      } else {
        assert forall s :: s in Group(due, c) ==> s.id != id;
      }
    }
  }

  lemma GroupIsIntact(start: Table, due: seq<Service>, done: set<string>, c: string, env: Env)
    requires DueListing(start, env.now, due) && c !in done && c in Customers(due)
    ensures var rows := RowsAfter(start, done, env);
            forall s :: s in Group(due, c) ==> s.id in rows && rows[s.id] == s
    ensures Group(due, c) != []
    ensures forall i, j :: 0 <= i < j < |Group(due, c)| ==> Group(due, c)[i].id != Group(due, c)[j].id
  {
    GroupFacts(due, c);
    var s :| s in due && s.customerId == c;
    assert s in Group(due, c);
  }

  lemma GroupOneMore(due: seq<Service>, i: nat, c: string)
    requires i < |due|
    ensures Group(due[..i + 1], c) == Group(due[..i], c) + if due[i].customerId == c then [due[i]] else []
    ensures Customers(due[..i + 1]) == Customers(due[..i]) + {due[i].customerId}
  {
    assert due[..i + 1] == due[..i] + [due[i]] && due[..i + 1][..i] == due[..i];
  }

  class BillingRun {
    var rows: Table
    /** The invoice made for each customer in this run. */
    var invoices: map<string, Record>

    constructor (rows: Table)
      ensures this.rows == rows && invoices == map[]
    {
      this.rows, invoices := rows, map[];
    }

    method GroupByCustomer(due: seq<Service>) returns (byCustomer: map<string, seq<Service>>)
      ensures byCustomer.Keys == Customers(due)
      ensures forall c :: c in byCustomer ==> byCustomer[c] == Group(due, c)
    {
      byCustomer := map[];
      for i := 0 to |due|
        invariant byCustomer.Keys == Customers(due[..i])
        invariant forall c :: c in byCustomer ==> byCustomer[c] == Group(due[..i], c)
        invariant forall c :: c !in byCustomer ==> Group(due[..i], c) == []
      {
        var s := due[i];
        forall c ensures Group(due[..i + 1], c) == Group(due[..i], c) + if s.customerId == c then [s] else [] {
          GroupOneMore(due, i, c);
        }
        GroupOneMore(due, i, s.customerId);
        var before := if s.customerId in byCustomer then byCustomer[s.customerId] else [];
        byCustomer := byCustomer[s.customerId := before + [s]];
      }
      assert due[..|due|] == due;
    }

    /** Advances and saves the services of one invoiced customer. */
    method AdvanceAll(services: seq<Service>, env: Env)
      requires forall i, j :: 0 <= i < j < |services| ==> services[i].id != services[j].id
      requires forall s :: s in services ==> s.id in rows && rows[s.id] == s
      modifies this`rows
      ensures rows.Keys == old(rows).Keys
      ensures forall s :: s in services ==> rows[s.id] == Advanced(s, env)
      ensures forall id :: id in rows && (forall s :: s in services ==> s.id != id) ==> rows[id] == old(rows)[id]
    {
      for i := 0 to |services|
        invariant rows.Keys == old(rows).Keys
        invariant forall k :: 0 <= k < i ==> rows[services[k].id] == Advanced(services[k], env)
        invariant forall k :: i <= k < |services| ==> rows[services[k].id] == services[k]
        invariant forall id :: id in rows && (forall s :: s in services ==> s.id != id) ==> rows[id] == old(rows)[id]
      {
        var s := AdvanceNextBillingDate(services[i], env.advance);
        if env.savedOk(s.id) {
          rows := rows[s.id := s];
        }
      }
    }

    /** The body of the loop over customers. */
    method BillCustomer(c: string, due: seq<Service>, services: seq<Service>, ghost start: Table, ghost done: set<string>,
                        env: Env)
      requires DueListing(start, env.now, due) && c in Customers(due) && services == Group(due, c) && c !in done
      requires rows == RowsAfter(start, done, env) && invoices == InvoicesAfter(due, done, env)
      modifies this
      ensures rows == RowsAfter(start, done + {c}, env) && invoices == InvoicesAfter(due, done + {c}, env)
    {
      InvoicesStep(due, done, c, env);
      if !env.customerFound(c) || !env.handlerOk(c) {
        RowsSkip(start, done, c, env);
        return;
      }
      GroupIsIntact(start, due, done, c, env);
      var inv := BuildInvoice(services, env);
      if inv == null { return; }
      invoices := invoices[c := inv.State()];
      ghost var before := rows;
      AdvanceAll(services, env);
      RowsStep(start, due, done, c, env, before, rows);
    }

    /** The loop over customers, in no particular order. */
    method BillAll(byCustomer: map<string, seq<Service>>, due: seq<Service>, env: Env)
      requires DueListing(rows, env.now, due) && invoices == map[]
      requires byCustomer.Keys == Customers(due) && forall c :: c in byCustomer ==> byCustomer[c] == Group(due, c)
      modifies this
      ensures rows == RowsAfter(old(rows), Customers(due), env)
      ensures invoices == InvoicesAfter(due, Customers(due), env)
    {
      ghost var start := rows;
      ghost var all := Customers(due);
      var todo := byCustomer.Keys;
      assert all - todo == {};
      NothingDoneYet(rows, due, env);
      while todo != {}
        invariant todo <= all
        invariant rows == RowsAfter(start, all - todo, env)
        invariant invoices == InvoicesAfter(due, all - todo, env)
        decreases todo
      {
        var c :| c in todo;
        assert all - todo + {c} == all - (todo - {c});
        BillCustomer(c, due, byCustomer[c], start, all - todo, env);
        todo := todo - {c};
      }
      assert all - todo == all;
    }

    /** One run. Everything it leaves behind is a function of its inputs, whatever order the customers
        are visited in. */
    method GenerateDueInvoices(due: seq<Service>, listOk: bool, env: Env)
      requires (listOk ==> DueListing(rows, env.now, due)) && invoices == map[]
      modifies this
      ensures !listOk ==> rows == old(rows) && invoices == map[]
      ensures listOk ==> rows == RowsAfter(old(rows), Customers(due), env)
      ensures listOk ==> invoices == InvoicesAfter(due, Customers(due), env)
    {
      if !listOk { return; }
      if |due| == 0 {
        assert Customers(due) == {};
        NothingDoneYet(rows, due, env);
        return;
      }
      var byCustomer := GroupByCustomer(due);
      BillAll(byCustomer, due, env);
    }
  }

  lemma {:induction false} GroupFacts(due: seq<Service>, c: string)
    ensures forall s :: s in Group(due, c) <==> s in due && s.customerId == c
    ensures (forall i, j :: 0 <= i < j < |due| ==> due[i].id != due[j].id) ==>
              forall i, j :: 0 <= i < j < |Group(due, c)| ==> Group(due, c)[i].id != Group(due, c)[j].id
  {
    if due != [] {
      var n := |due| - 1;
      GroupFacts(due[..n], c);
      assert due == due[..n] + [due[n]];
    }
  }

  /** A customer's services keep the order of the due query. */
  lemma {:induction false} GroupInOrder(due: seq<Service>, c: string) returns (at: seq<nat>)
    ensures forall j, k :: 0 <= j < k < |at| ==> at[j] < at[k]
    ensures forall j: nat :: j in at <==> j < |due| && due[j].customerId == c
    ensures |Group(due, c)| == |at| && forall k :: 0 <= k < |at| ==> at[k] < |due| && Group(due, c)[k] == due[at[k]]
  {
    at := [];
    if due != [] {
      var n := |due| - 1;
      at := GroupInOrder(due[..n], c);
      assert forall k :: 0 <= k < |at| ==> at[k] in at;
      if due[n].customerId == c { at := at + [n]; }
    }
  }

  // ---------------------------------------------------------------- what a run guarantees

  /** A service moves exactly when it was handed to an invoice that was made and its save went through,
      and then by one billing cycle; rows of anyone else stay put. */
  lemma AdvancedIffInvoiced(rows: Table, due: seq<Service>, env: Env, id: string)
    requires DueListing(rows, env.now, due) && id in rows
    ensures var s := rows[id];
            var invoiced := s.customerId in InvoicesAfter(due, Customers(due), env) && s in Group(due, s.customerId);
            RowsAfter(rows, Customers(due), env)[id] == if invoiced then Advanced(s, env) else s
  {
    var s := rows[id];
    GroupFacts(due, s.customerId);
    if IsDue(s, env.now) {
      assert s in due && s.customerId in Customers(due);
    }
  }

  /** A due service is due again for a second run at the same time exactly when its customer was not
      invoiced, its save failed, or one cycle did not carry it past now. */
  lemma StillDueIff(rows: Table, due: seq<Service>, env: Env, id: string)
    requires DueListing(rows, env.now, due) && id in rows && IsDue(rows[id], env.now)
    ensures IsDue(RowsAfter(rows, Customers(due), env)[id], env.now) <==>
            !Billed(env, rows[id].customerId) || !env.savedOk(id)
            || env.advance(rows[id].nextBillingDate.value, rows[id].billingCycle) <= env.now
  {
    assert rows[id] in due && rows[id].customerId in Customers(due);
  }

  /** Two environments that treat a customer and its services alike give it the same invoice and rows:
      neither the visiting order nor the other customers' failures matter. */
  lemma OtherCustomersDoNotMatter(rows: Table, due: seq<Service>, env: Env, other: Env, c: string)
    requires env.now == other.now && env.dueDate == other.dueDate && env.advance == other.advance && env.lineId == other.lineId
    requires Billed(env, c) == Billed(other, c)
    requires forall id :: id in rows && rows[id].customerId == c ==> env.savedOk(rows[id].id) == other.savedOk(rows[id].id)
    ensures c in InvoicesAfter(due, Customers(due), env) <==> c in InvoicesAfter(due, Customers(due), other)
    ensures c in InvoicesAfter(due, Customers(due), env) ==>
              InvoicesAfter(due, Customers(due), env)[c] == InvoicesAfter(due, Customers(due), other)[c]
    ensures forall id :: id in rows && rows[id].customerId == c ==>
              RowsAfter(rows, Customers(due), env)[id] == RowsAfter(rows, Customers(due), other)[id]
  {
    assert forall services :: InvoiceFor(services, env) == InvoiceFor(services, other);
  }

  // ---------------------------------------------------------------- conservation of amounts

  type Amount = Service -> int

  type Total = Record -> int

  function Price(s: Service): int { s.priceAmount }

  /** The price without 21 percent VAT, rounded to cents. */
  function NetPrice(s: Service): int { NetFromGross(s.priceAmount, 21) }

  function Vat(s: Service): int { s.priceAmount - NetFromGross(s.priceAmount, 21) }

  function TotalAmount(inv: Record): int { inv.totalAmount }

  function SubTotal(inv: Record): int { inv.subTotal }

  function VatTotal(inv: Record): int { inv.vatTotal }

  function Sum(services: seq<Service>, amount: Amount): int {
    if services == [] then 0 else Sum(services[..|services| - 1], amount) + amount(services[|services| - 1])
  }

  /** An amount summed over the due services of the customers in a set. */
  function SumOf(due: seq<Service>, customers: set<string>, amount: Amount): int {
    if due == [] then 0
    else
      var n := |due| - 1;
      SumOf(due[..n], customers, amount) + if due[n].customerId in customers then amount(due[n]) else 0
  }

  /** A total summed over the invoices of distinct customers, listed in any order. */
  function SumTotals(invoices: map<string, Record>, listing: seq<string>, total: Total): int
    requires forall c :: c in listing ==> c in invoices
  {
    if listing == [] then 0
    else
      var n := |listing| - 1;
      assert forall c :: c in listing[..n] ==> c in listing;
      SumTotals(invoices, listing[..n], total) + total(invoices[listing[n]])
  }

  lemma LineAmounts(s: Service, lineId: string)
    ensures var li := Repriced(LineFor(s, lineId));
            li.totalGross == Price(s) && li.totalPrice == NetPrice(s) && li.totalVAT == Vat(s)
  {
  }

  lemma {:induction false} SumsOfLines(services: seq<Service>, lineId: nat -> string)
    ensures var lines := AllRepriced(LinesFor(services, lineId));
            SumGross(lines) == Sum(services, Price) && SumNet(lines) == Sum(services, NetPrice) && SumVat(lines) == Sum(services, Vat)
  {
    if services != [] {
      var n := |services| - 1;
      var lines := LinesFor(services, lineId);
      SumsOfLines(services[..n], lineId);
      LineAmounts(services[n], lineId(n));
      assert lines[..n] == LinesFor(services[..n], lineId);
      assert AllRepriced(lines)[..n] == AllRepriced(lines[..n]);
      assert AllRepriced(lines)[n] == Repriced(LineFor(services[n], lineId(n)));
    }
  }

  lemma {:induction false} GroupAddsUp(due: seq<Service>, customers: set<string>, c: string, amount: Amount)
    requires c !in customers
    ensures SumOf(due, customers + {c}, amount) == SumOf(due, customers, amount) + Sum(Group(due, c), amount)
  {
    if due != [] {
      var n := |due| - 1;
      GroupAddsUp(due[..n], customers, c, amount);
      if due[n].customerId == c {
        assert Group(due, c)[..|Group(due, c)| - 1] == Group(due[..n], c);
      } else {
        assert Group(due, c) == Group(due[..n], c);
      }
    }
  }

  lemma {:induction false} NobodyOwesNothing(due: seq<Service>, amount: Amount)
    ensures SumOf(due, {}, amount) == 0
  {
    if due != [] { NobodyOwesNothing(due[..|due| - 1], amount); }
  }

  function Listed(listing: seq<string>): set<string> {
    set c | c in listing
  }

  lemma ListedOneMore(listing: seq<string>)
    requires listing != [] && forall i, j :: 0 <= i < j < |listing| ==> listing[i] != listing[j]
    ensures var n := |listing| - 1;
            Listed(listing) == Listed(listing[..n]) + {listing[n]} && listing[n] !in Listed(listing[..n])
  {
    assert listing == listing[..|listing| - 1] + [listing[|listing| - 1]];
  }

  /** The total of an invoice is an amount summed over its services. */
  ghost predicate TotalsAmount(total: Total, amount: Amount, env: Env) {
    forall services :: total(InvoiceFor(services, env)) == Sum(services, amount)
  }

  lemma {:induction false} ListingAddsUp(due: seq<Service>, env: Env, invoices: map<string, Record>, listing: seq<string>,
                                         total: Total, amount: Amount)
    requires TotalsAmount(total, amount, env)
    requires forall c :: c in listing ==> c in invoices && invoices[c] == InvoiceFor(Group(due, c), env)
    requires forall i, j :: 0 <= i < j < |listing| ==> listing[i] != listing[j]
    ensures SumTotals(invoices, listing, total) == SumOf(due, Listed(listing), amount)
  {
    if listing == [] {
      NobodyOwesNothing(due, amount);
      assert Listed(listing) == {};
    } else {
      var n := |listing| - 1;
      ListedOneMore(listing);
      assert forall c :: c in listing[..n] ==> c in listing;
      ListingAddsUp(due, env, invoices, listing[..n], total, amount);
      GroupAddsUp(due, Listed(listing[..n]), listing[n], amount);
    }
  }

  lemma TotalsAddAmounts(env: Env)
    ensures TotalsAmount(TotalAmount, Price, env) && TotalsAmount(SubTotal, NetPrice, env) && TotalsAmount(VatTotal, Vat, env)
  {
    forall services
      ensures TotalAmount(InvoiceFor(services, env)) == Sum(services, Price)
      ensures SubTotal(InvoiceFor(services, env)) == Sum(services, NetPrice)
      ensures VatTotal(InvoiceFor(services, env)) == Sum(services, Vat)
    {
      SumsOfLines(services, env.lineId);
    }
  }

  /** Conservation: the totals of the invoices made add up to exactly the due amounts of the customers
      billed, and so do their net and VAT parts at 21 percent. */
  lemma InvoicedAmountsAreDueAmounts(due: seq<Service>, env: Env, listing: seq<string>)
    requires forall i, j :: 0 <= i < j < |listing| ==> listing[i] != listing[j]
    requires forall c :: c in listing <==> c in InvoicesAfter(due, Customers(due), env)
    ensures var invoices, billed := InvoicesAfter(due, Customers(due), env),
                                    set c | c in Customers(due) && env.customerFound(c) && env.handlerOk(c);
            && SumTotals(invoices, listing, TotalAmount) == SumOf(due, billed, Price)
            && SumTotals(invoices, listing, SubTotal) == SumOf(due, billed, NetPrice)
            && SumTotals(invoices, listing, VatTotal) == SumOf(due, billed, Vat)
  {
    var invoices := InvoicesAfter(due, Customers(due), env);
    TotalsAddAmounts(env);
    ListingAddsUp(due, env, invoices, listing, TotalAmount, Price);
    ListingAddsUp(due, env, invoices, listing, SubTotal, NetPrice);
    ListingAddsUp(due, env, invoices, listing, VatTotal, Vat);
    assert Listed(listing) == set c | c in Customers(due) && env.customerFound(c) && env.handlerOk(c);
  }
}
