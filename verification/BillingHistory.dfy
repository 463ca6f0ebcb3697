/** Billing runs one after the other (cmd/server/billing_actions.go): how often a service is invoiced while
    its next billing date moves on. */
module BillingHistory {
  import opened Options
  import opened Billing
  import opened Invoice

  /** One run: what its due query returned, and how the world answered. A run whose query fails changes
      nothing and is left out. */
  datatype Turn = Turn(due: seq<Service>, env: Env)

  function TablesAfter(rows: Table, turns: seq<Turn>): Table {
    if turns == [] then rows
    else
      var n := |turns| - 1;
      RowsAfter(TablesAfter(rows, turns[..n]), Customers(turns[n].due), turns[n].env)
  }

  ghost predicate TurnFits(rows: Table, turns: seq<Turn>, advance: Calendar, k: nat) {
    && k < |turns| && turns[k].env.advance == advance
    && DueListing(TablesAfter(rows, turns[..k]), turns[k].env.now, turns[k].due)
  }

  /** Every run sees the table the runs before it left behind. */
  ghost predicate IsHistory(rows: Table, turns: seq<Turn>, advance: Calendar) {
    forall k: nat :: k < |turns| ==> TurnFits(rows, turns, advance, k)
  }

  lemma ShorterHistory(rows: Table, turns: seq<Turn>, advance: Calendar)
    requires IsHistory(rows, turns, advance) && turns != []
    ensures var n := |turns| - 1;
            && IsHistory(rows, turns[..n], advance) && turns[n].env.advance == advance
            && DueListing(TablesAfter(rows, turns[..n]), turns[n].env.now, turns[n].due)
  {
    var n := |turns| - 1;
    var fewer := turns[..n];
    assert TurnFits(rows, turns, advance, n);
    forall k: nat | k < n ensures TurnFits(rows, fewer, advance, k) {
      assert TurnFits(rows, turns, advance, k) && fewer[..k] == turns[..k];
    }
  }

  lemma PrefixIsHistory(rows: Table, turns: seq<Turn>, advance: Calendar)
    requires IsHistory(rows, turns, advance) && turns != []
    ensures IsHistory(rows, turns[..|turns| - 1], advance)
  {
    ShorterHistory(rows, turns, advance);
  }

  // ---------------------------------------------------------------- how often a service is invoiced

  /** The positions of the lines that bill a service. */
  ghost function LinesBilling(lines: seq<LineItem>, services: seq<Service>, id: string): set<nat> {
    set k: nat | k < |lines| && k < |services| && services[k].id == id && LineBills(lines[k], services[k])
  }

  /** The lines for a service on the invoice that a run made for a customer, if it made one. */
  ghost function TimesInvoiced(t: Turn, customerId: string, id: string): nat {
    var invoices := InvoicesAfter(t.due, Customers(t.due), t.env);
    if customerId in invoices then |LinesBilling(invoices[customerId].lineItems, Group(t.due, customerId), id)| else 0
  }

  lemma LinesOfDistinct(inv: Record, services: seq<Service>, id: string)
    requires Bills(inv, services) && forall i, j :: 0 <= i < j < |services| ==> services[i].id != services[j].id
    ensures |LinesBilling(inv.lineItems, services, id)| == if exists s :: s in services && s.id == id then 1 else 0
  {
    var lines := LinesBilling(inv.lineItems, services, id);
    if exists s :: s in services && s.id == id {
      var k: nat :| k < |services| && services[k].id == id;
      assert lines == {k};
    } else {
      assert lines == {};
    }
  }

  /** A run puts a service on an invoice at most once, on a line of its own for its price: exactly when it
      is active and its billing date has come, its customer is found, and the handler makes the invoice. */
  lemma InvoicedAtMostOnce(rows: Table, t: Turn, id: string)
    requires DueListing(rows, t.env.now, t.due) && id in rows
    ensures TimesInvoiced(t, rows[id].customerId, id)
            == if && rows[id].active && rows[id].nextBillingDate.Some? && rows[id].nextBillingDate.value <= t.env.now
                  && t.env.customerFound(rows[id].customerId) && t.env.handlerOk(rows[id].customerId)
               then 1 else 0
  {
    var s := rows[id];
    var c := s.customerId;
    GroupFacts(t.due, c);
    InvoiceBills(Group(t.due, c), t.env);
    LinesOfDistinct(InvoiceFor(Group(t.due, c), t.env), Group(t.due, c), id);
    if IsDue(s, t.env.now) {
      assert s in t.due && s in Group(t.due, c) && c in Customers(t.due);
    } else {
      forall x | x in Group(t.due, c) ensures x.id != id {
        assert rows[x.id] == x;
      }
    }
  }

  ghost function TotalInvoiced(turns: seq<Turn>, customerId: string, id: string): nat {
    if turns == [] then 0
    else TotalInvoiced(turns[..|turns| - 1], customerId, id) + TimesInvoiced(turns[|turns| - 1], customerId, id)
  }

  /** Invoices whose service could not be saved afterwards. */
  ghost function FailedSaves(turns: seq<Turn>, customerId: string, id: string): nat {
    if turns == [] then 0
    else
      var t := turns[|turns| - 1];
      FailedSaves(turns[..|turns| - 1], customerId, id)
      + if t.env.savedOk(id) then 0 else TimesInvoiced(t, customerId, id)
  }

  // ---------------------------------------------------------------- cycles

  /** The billing date n cycles on. */
  function CyclesOn(date: int, cycle: string, advance: Calendar, n: nat): int {
    if n == 0 then date else advance(CyclesOn(date, cycle, advance, n - 1), cycle)
  }

  ghost predicate MovesOn(advance: Calendar, cycle: string) {
    forall d :: advance(d, cycle) > d
  }

  lemma {:induction false} CyclesIncrease(date: int, cycle: string, advance: Calendar, m: nat, n: nat)
    requires MovesOn(advance, cycle) && m < n
    ensures CyclesOn(date, cycle, advance, m) < CyclesOn(date, cycle, advance, n)
    decreases n
  {
    if m < n - 1 { CyclesIncrease(date, cycle, advance, m, n - 1); }
  }

  /** A service as it is n cycles on. */
  function MovedOn(s: Service, advance: Calendar, n: nat): Service
    requires s.nextBillingDate.Some?
  {
    s.(nextBillingDate := Some(CyclesOn(s.nextBillingDate.value, s.billingCycle, advance, n)))
  }

  lemma RowAfterTurn(rows: Table, t: Turn, id: string)
    requires DueListing(rows, t.env.now, t.due) && id in rows
    ensures var after := RowsAfter(rows, Customers(t.due), t.env);
            id in after && after[id] == if TimesInvoiced(t, rows[id].customerId, id) == 1 then Advanced(rows[id], t.env) else rows[id]
    ensures TimesInvoiced(t, rows[id].customerId, id) <= 1
  {
    InvoicedAtMostOnce(rows, t, id);
    if IsDue(rows[id], t.env.now) { assert rows[id] in t.due && rows[id].customerId in Customers(t.due); }
  }

  lemma AdvancedMovesOn(s: Service, env: Env, m: nat)
    requires s.nextBillingDate.Some?
    ensures Advanced(MovedOn(s, env.advance, m), env) == MovedOn(s, env.advance, if env.savedOk(s.id) then m + 1 else m)
  {
  }

  ghost predicate HasMovedOn(rows: Table, s: Service, advance: Calendar, m: nat) {
    s.nextBillingDate.Some? && s.id in rows && rows[s.id] == MovedOn(s, advance, m)
  }

  /** The cycles passed after a run, if m were before it. */
  ghost function CyclesAfter(t: Turn, s: Service, m: nat): nat {
    if t.env.savedOk(s.id) then m + TimesInvoiced(t, s.customerId, s.id) else m
  }

  lemma TurnMovesOn(rows: Table, t: Turn, s: Service, m: nat)
    requires DueListing(rows, t.env.now, t.due) && HasMovedOn(rows, s, t.env.advance, m)
    ensures HasMovedOn(RowsAfter(rows, Customers(t.due), t.env), s, t.env.advance, CyclesAfter(t, s, m))
  {
    RowAfterTurn(rows, t, s.id);
    AdvancedMovesOn(s, t.env, m);
    assert rows[s.id].customerId == s.customerId;
  }

  /** What the last run adds to the two counts and to the cycles passed. */
  lemma LastTurnCounts(turns: seq<Turn>, s: Service, m: nat)
    requires turns != []
    requires var fewer := turns[..|turns| - 1];
             TotalInvoiced(fewer, s.customerId, s.id) == m + FailedSaves(fewer, s.customerId, s.id)
    ensures TotalInvoiced(turns, s.customerId, s.id)
            == CyclesAfter(turns[|turns| - 1], s, m) + FailedSaves(turns, s.customerId, s.id)
  {
  }

  lemma LastTurnMovesOn(rows: Table, turns: seq<Turn>, advance: Calendar, s: Service, m: nat)
    requires IsHistory(rows, turns, advance) && turns != []
    requires HasMovedOn(TablesAfter(rows, turns[..|turns| - 1]), s, advance, m)
    ensures HasMovedOn(TablesAfter(rows, turns), s, advance, CyclesAfter(turns[|turns| - 1], s, m))
  {
    var n := |turns| - 1;
    ShorterHistory(rows, turns, advance);
    TurnMovesOn(TablesAfter(rows, turns[..n]), turns[n], s, m);
  }

  lemma {:induction false} CyclesPassed(rows: Table, turns: seq<Turn>, advance: Calendar, s: Service) returns (m: nat)
    requires IsHistory(rows, turns, advance) && HasMovedOn(rows, s, advance, 0)
    ensures HasMovedOn(TablesAfter(rows, turns), s, advance, m)
    ensures TotalInvoiced(turns, s.customerId, s.id) == m + FailedSaves(turns, s.customerId, s.id)
  {
    m := 0;
    if turns != [] {
      var n := |turns| - 1;
      PrefixIsHistory(rows, turns, advance);
      m := CyclesPassed(rows, turns[..n], advance, s);
      LastTurnMovesOn(rows, turns, advance, s, m);
      LastTurnCounts(turns, s, m);
      m := CyclesAfter(turns[n], s, m);
    }
  }

  lemma CyclesAreDetermined(rows: Table, s: Service, advance: Calendar, m: nat, n: nat)
    requires MovesOn(advance, s.billingCycle) && HasMovedOn(rows, s, advance, m) && HasMovedOn(rows, s, advance, n)
    ensures m == n
  {
    if m < n { CyclesIncrease(s.nextBillingDate.value, s.billingCycle, advance, m, n); }
    if n < m { CyclesIncrease(s.nextBillingDate.value, s.billingCycle, advance, n, m); }
  }

  /** Over any sequence of runs a service is invoiced once for every cycle its billing date has passed,
      plus once for every invoice after which it could not be saved. */
  lemma InvoicedOncePerCycle(rows: Table, turns: seq<Turn>, advance: Calendar, s: Service)
    requires IsHistory(rows, turns, advance) && s.id in rows && rows[s.id] == s && s.nextBillingDate.Some?
    requires MovesOn(advance, s.billingCycle)
    ensures exists m: nat :: HasMovedOn(TablesAfter(rows, turns), s, advance, m)
    ensures forall m: nat :: HasMovedOn(TablesAfter(rows, turns), s, advance, m) ==>
              TotalInvoiced(turns, s.customerId, s.id) == m + FailedSaves(turns, s.customerId, s.id)
  {
    var p := CyclesPassed(rows, turns, advance, s);
    forall m: nat | HasMovedOn(TablesAfter(rows, turns), s, advance, m) ensures m == p {
      CyclesAreDetermined(TablesAfter(rows, turns), s, advance, m, p);
    }
  }
}
