/** What the edits of a draft add up to (internal/modules/invoice/domain/invoice.go): a run of calls against
    a plain dictionary of wanted lines, and the total that is charged for it. */
module InvoiceEdits {
  import opened Invoice

  /** What a caller last asked for under an id. */
  datatype Wanted = Wanted(productId: string, productName: string, description: string,
                           quantity: int, unitPriceGross: int, vatRate: int)

  type Basket = map<string, Wanted>

  function WantedOf(li: LineItem): Wanted {
    Wanted(li.productId, li.productName, li.description, li.quantity, li.unitPriceGross, li.vatRate)
  }

  /** The dictionary after one call: ids only, no positions. */
  function Ordered(b: Basket, op: Op): Basket {
    match op
    case AddLine(item) => b[item.id := WantedOf(item)]
    case UpdateLine(id, productName, description, quantity, unitPriceGross, vatRate) =>
      if id !in b then b
      else b[id := Wanted(b[id].productId, productName, description, quantity, unitPriceGross, vatRate)]
    case RemoveLine(id) => b - {id}
    case _ => b
  }

  function BasketOf(calls: seq<Call>): Basket {
    if calls == [] then map[] else Ordered(BasketOf(calls[..|calls| - 1]), calls[|calls| - 1].op)
  }

  /** No call leaves draft, and every line is added under an id not in use. */
  predicate IsEditing(calls: seq<Call>) {
    && (forall k :: 0 <= k < |calls| ==> !calls[k].op.Finalise? && !calls[k].op.Cancel?)
    && (forall k :: 0 <= k < |calls| && calls[k].op.AddLine? ==> calls[k].op.item.id !in BasketOf(calls[..k]))
  }

  predicate DistinctIds(lines: seq<LineItem>) {
    forall i, j :: 0 <= i < j < |lines| ==> lines[i].id != lines[j].id
  }

  /** The lines are those of the dictionary, one per id. */
  ghost predicate Holds(lines: seq<LineItem>, b: Basket) {
    && DistinctIds(lines)
    && (forall k :: 0 <= k < |lines| ==> lines[k].id in b && b[lines[k].id] == WantedOf(lines[k]))
    && (forall id :: id in b ==> exists k :: 0 <= k < |lines| && lines[k].id == id)
  }

  lemma AddedHolds(lines: seq<LineItem>, b: Basket, item: LineItem)
    requires Holds(lines, b) && item.id !in b
    ensures Holds(lines + [item], b[item.id := WantedOf(item)])
  {
    var after, wanted := lines + [item], b[item.id := WantedOf(item)];
    assert after[|lines|] == item;
    forall id | id in wanted ensures exists k :: 0 <= k < |after| && after[k].id == id {
      if id in b {
        var k :| 0 <= k < |lines| && lines[k].id == id;
        assert after[k] == lines[k];
      }
    }
  }

  lemma UpdatedHolds(lines: seq<LineItem>, b: Basket, k: nat, li: LineItem)
    requires Holds(lines, b) && k < |lines| && li.id == lines[k].id
    ensures Holds(lines[k := li], b[li.id := WantedOf(li)])
  {
    var after, wanted := lines[k := li], b[li.id := WantedOf(li)];
    forall id | id in wanted ensures exists j :: 0 <= j < |after| && after[j].id == id {
      if id == li.id {
        assert after[k].id == id;
      } else {
        var j :| 0 <= j < |lines| && lines[j].id == id;
        assert after[j] == lines[j];
      }
    }
  }

  lemma RemovedAt(lines: seq<LineItem>, k: nat)
    requires k < |lines| && DistinctIds(lines)
    ensures var after := lines[..k] + lines[k + 1..];
            && DistinctIds(after)
            && (forall j :: 0 <= j < |after| ==> after[j] == lines[if j < k then j else j + 1])
            && (forall j :: 0 <= j < |after| ==> after[j] in lines && after[j].id != lines[k].id)
  {
    var after := lines[..k] + lines[k + 1..];
    assert forall j :: 0 <= j < |after| ==> after[j] == lines[if j < k then j else j + 1];
  }

  lemma RemovedHolds(lines: seq<LineItem>, b: Basket, k: nat)
    requires Holds(lines, b) && k < |lines|
    ensures Holds(lines[..k] + lines[k + 1..], b - {lines[k].id})
  {
    var after := lines[..k] + lines[k + 1..];
    RemovedAt(lines, k);
    forall id | id in b - {lines[k].id} ensures exists j :: 0 <= j < |after| && after[j].id == id {
      var j :| 0 <= j < |lines| && lines[j].id == id;
      assert after[if j < k then j else j - 1] == lines[j];
    }
  }

  lemma AbsentId(lines: seq<LineItem>, b: Basket, id: string)
    requires Holds(lines, b)
    ensures FirstIndex(lines, id) == |lines| <==> id !in b
  {
    if id in b {
      var k :| 0 <= k < |lines| && lines[k].id == id;
    }
  }

  lemma RepricedHolds(lines: seq<LineItem>, b: Basket, after: seq<LineItem>)
    requires Holds(lines, b) && AreRepriced(lines, after)
    ensures Holds(after, b)
  {
    forall id | id in b ensures exists k :: 0 <= k < |after| && after[k].id == id {
      var k :| 0 <= k < |lines| && lines[k].id == id;
      assert after[k].id == id;
    }
  }

  lemma CallHolds(r: Record, b: Basket, op: Op, now: int)
    requires r.status.Draft? && Holds(r.lineItems, b) && !op.Finalise? && !op.Cancel?
    requires op.AddLine? ==> op.item.id !in b
    ensures Apply(r, op, now).0.status.Draft? && Holds(Apply(r, op, now).0.lineItems, Ordered(b, op))
  {
    match op
    case AddLine(item) => AddedHolds(r.lineItems, b, item);
    case UpdateLine(id, _, _, _, _, _) =>
      AbsentId(r.lineItems, b, id);
      var k := FirstIndex(r.lineItems, id);
      if k < |r.lineItems| { UpdatedHolds(r.lineItems, b, k, Apply(r, op, now).0.lineItems[k]); }
    case RemoveLine(id) =>
      AbsentId(r.lineItems, b, id);
      var k := FirstIndex(r.lineItems, id);
      if k < |r.lineItems| { RemovedHolds(r.lineItems, b, k); } else { assert b - {id} == b; }
    case Recalc =>
      AllRepricedAreRepriced(r.lineItems);
      RepricedHolds(r.lineItems, b, AllRepriced(r.lineItems));
    case _ =>
  }

  /** Whatever the order of additions, updates and removals, refused ones and stray recalculations
      included, a draft holds exactly one line per id that is still wanted, with the fields last asked
      for. */
  lemma {:induction false} DraftHoldsBasket(created: int, due: int, calls: seq<Call>)
    requires IsEditing(calls)
    ensures Run(NewRecord(created, due), calls).status.Draft?
    ensures Holds(Run(NewRecord(created, due), calls).lineItems, BasketOf(calls))
  {
    if calls != [] {
      var n := |calls| - 1;
      var earlier := calls[..n];
      assert forall k :: 0 <= k < n ==> earlier[k] == calls[k] && earlier[..k] == calls[..k];
      DraftHoldsBasket(created, due, earlier);
      CallHolds(Run(NewRecord(created, due), earlier), BasketOf(earlier), calls[n].op, calls[n].now);
    }
  }

  /** Finalizing after any such run succeeds exactly when something is wanted, and then charges quantity
      times gross price of every wanted line, as last asked for. */
  lemma FinalizedChargesBasket(created: int, due: int, calls: seq<Call>, now: int)
    requires IsEditing(calls)
    ensures var (s, outcome) := Apply(Run(NewRecord(created, due), calls), Finalise, now);
            && (outcome.Ok? <==> BasketOf(calls) != map[])
            && (outcome.Ok? ==>
                  && s.status.Finalized? && Holds(s.lineItems, BasketOf(calls))
                  && s.totalAmount == GrossOf(s.lineItems))
  {
    DraftHoldsBasket(created, due, calls);
    DraftCharges(Run(NewRecord(created, due), calls), BasketOf(calls), now);
  }

  lemma DraftCharges(r: Record, b: Basket, now: int)
    requires r.status.Draft? && Holds(r.lineItems, b)
    ensures Apply(r, Finalise, now).1.Ok? <==> b != map[]
    ensures b != map[] ==>
              && Apply(r, Finalise, now).0.status.Finalized?
              && Holds(Apply(r, Finalise, now).0.lineItems, b)
              && Apply(r, Finalise, now).0.totalAmount == GrossOf(Apply(r, Finalise, now).0.lineItems)
  {
    SomeLineIffWanted(r.lineItems, b);
    AllRepricedAreRepriced(r.lineItems);
    GrossIsKept(r.lineItems, AllRepriced(r.lineItems));
    RepricedHolds(r.lineItems, b, AllRepriced(r.lineItems));
  }

  lemma SomeLineIffWanted(lines: seq<LineItem>, b: Basket)
    requires Holds(lines, b)
    ensures lines == [] <==> b == map[]
  {
    if lines != [] {
      assert lines[0].id in b;
    } else {
      assert b.Keys == {};
    }
  }

  lemma {:induction false} GrossOfUpdate(lines: seq<LineItem>, k: nat, li: LineItem)
    requires k < |lines|
    ensures GrossOf(lines[k := li])
            == GrossOf(lines) - lines[k].quantity * lines[k].unitPriceGross + li.quantity * li.unitPriceGross
  {
    var n := |lines| - 1;
    if k < n {
      GrossOfUpdate(lines[..n], k, li);
      assert lines[k := li][..n] == lines[..n][k := li];
    } else {
      assert lines[k := li][..n] == lines[..n];
    }
  }

  /** The state after adding a line to a draft, updating it, and finalizing. */
  function AddedUpdatedFinalized(r: Record, item: LineItem, productName: string, description: string, quantity: int,
                                 unitPriceGross: int, vatRate: int, now: int): (Record, Outcome) {
    var added := Apply(r, AddLine(item), now).0;
    var update := UpdateLine(item.id, productName, description, quantity, unitPriceGross, vatRate);
    Apply(Apply(added, update, now).0, Finalise, now)
  }

  /** After adding a line to any draft, updating it and finalizing, the total is the update's quantity
      times its gross price on top of what the other lines come to. */
  lemma EditedLineIsCharged(r: Record, item: LineItem, productName: string, description: string, quantity: int,
                            unitPriceGross: int, vatRate: int, now: int)
    requires r.status.Draft? && NoLine(r.lineItems, item.id)
    ensures var (s, outcome) :=
              AddedUpdatedFinalized(r, item, productName, description, quantity, unitPriceGross, vatRate, now);
            && outcome.Ok? && s.status.Finalized?
            && s.totalAmount == GrossOf(r.lineItems) + quantity * unitPriceGross
  {
    var lines := r.lineItems + [item];
    var k := FirstIndex(lines, item.id);
    assert lines[|r.lineItems|] == item;
    assert forall j :: 0 <= j < |r.lineItems| ==> lines[j] == r.lineItems[j];
    assert k == |r.lineItems|;
    assert lines[..k] == r.lineItems;
    var li := item.(productName := productName, description := description, quantity := quantity,
                    unitPriceGross := unitPriceGross, vatRate := vatRate);
    GrossOfUpdate(lines, k, li);
    AllRepricedAreRepriced(lines[k := li]);
    GrossIsKept(lines[k := li], AllRepriced(lines[k := li]));
  }
}
