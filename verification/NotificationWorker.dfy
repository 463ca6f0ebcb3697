/** The worker's event handler (internal/infrastructure/notifications/worker.go), run on its own. */
module NotificationWorker {
  import opened NotificationEvents
  import opened NotificationStore

  /** Whether handling an event stores a row and publishes its wake-up. */
  predicate Surfaced(rows: seq<Row>, event: Event, newId: string, dbOk: bool) {
    Titled(event) && dbOk && !HasId(rows, newId)
  }

  function HandledRows(rows: seq<Row>, event: Event, newId: string, now: int, dbOk: bool): seq<Row> {
    if Surfaced(rows, event, newId, dbOk) then rows + [Row(newId, TitleFor(event).0, TitleFor(event).1, now)] else rows
  }

  class Worker {
    const store: Store
    /** What the worker handed to its publisher, in order. */
    var published: seq<Event>

    constructor (store: Store)
      ensures this.store == store && published == []
    {
      this.store, published := store, [];
    }

    /** A row is stored first and its wake-up published second, so every published id is in the
        table; a skipped event or a failed insert publishes nothing. */
    method Handle(event: Event, newId: string, now: int, dbOk: bool)
      requires DistinctIds(store.rows)
      requires forall k :: 0 <= k < |published| ==> HasId(store.rows, published[k].aggregateId)
      modifies this`published, store`rows
      ensures DistinctIds(store.rows)
      ensures forall k :: 0 <= k < |published| ==> HasId(store.rows, published[k].aggregateId)
      ensures store.rows == HandledRows(old(store.rows), event, newId, now, dbOk)
      ensures var stored := && dbOk && TitleFor(event).0 != ""
                            && (forall k :: 0 <= k < |old(store.rows)| ==> old(store.rows)[k].id != newId);
              && store.rows == old(store.rows) + (if stored then [Row(newId, TitleFor(event).0, TitleFor(event).1, now)] else [])
              && |published| == |old(published)| + (if stored then 1 else 0)
      ensures published == old(published) + if Surfaced(old(store.rows), event, newId, dbOk) then [WakeEvent(newId)] else []
    {
      var (title, url) := TitleFor(event);
      if title == "" { return; }
      if !dbOk { return; }
      var ok := store.Create(newId, title, url, now);
      if !ok { return; }
      forall id | HasId(old(store.rows), id) ensures HasId(store.rows, id) {
        var k :| 0 <= k < |old(store.rows)| && old(store.rows)[k].id == id;
        assert store.rows[k].id == id;
      }
      assert store.rows[|old(store.rows)|].id == newId;
      published := published + [WakeEvent(newId)];
    }
  }
}
