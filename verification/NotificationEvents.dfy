/** Which domain events become notifications (internal/infrastructure/notifications/worker.go). */
module NotificationEvents {

  /** The event payload: undecodable JSON, or its string fields. */
  datatype Payload = Undecodable | Fields(values: map<string, string>)

  datatype Event = Event(kind: string, aggregateId: string, data: Payload)

  /** A decoded string field; absent fields and undecodable payloads both read as empty. */
  function Field(data: Payload, name: string): string {
    if data.Fields? && name in data.values then data.values[name] else ""
  }

  /** Title and URL; an empty title means the event is skipped. */
  function TitleFor(e: Event): (string, string) {
    if e.kind == "customer.created" then
      if Field(e.data, "company_name") != ""
      then ("New customer: " + Field(e.data, "company_name"), "/customers/" + e.aggregateId)
      else ("New customer created", "/customers/" + e.aggregateId)
    else if e.kind == "customer.deleted" then
      if Field(e.data, "code") != "" then ("Customer " + Field(e.data, "code") + " deleted", "")
      else ("Customer deleted", "")
    else if e.kind == "network.arp_changed" then
      if Field(e.data, "ip") != ""
      then ("ARP " + (if Field(e.data, "status") == "disabled" then "disabled" else "enabled")
            + ": " + Field(e.data, "ip"), "")
      else ("", "")
    else if e.kind == "network.router.created" then
      if Field(e.data, "name") != ""
      then ("New router: " + Field(e.data, "name"), "/routers/" + e.aggregateId)
      else ("", "")
    else if e.kind == "network.router.deleted" then
      if Field(e.data, "name") != "" then ("Router " + Field(e.data, "name") + " deleted", "") else ("", "")
    else ("", "")
  }

  predicate Titled(e: Event) {
    TitleFor(e).0 != ""
  }

  /** The wake-up the worker publishes after storing a row. */
  function WakeEvent(id: string): Event {
    Event("notification.created", id, Fields(map["id" := id]))
  }

  /** An event is surfaced exactly for these kinds, the network ones only with their field present;
      in particular the worker's own wake-up is never surfaced again. */
  lemma TitledKinds(e: Event)
    ensures Titled(e) <==>
            || e.kind == "customer.created" || e.kind == "customer.deleted"
            || (e.kind == "network.arp_changed" && Field(e.data, "ip") != "")
            || (e.kind in {"network.router.created", "network.router.deleted"} && Field(e.data, "name") != "")
    ensures forall id :: !Titled(WakeEvent(id))
  {
  }

  /** What each surfaced event says and where it leads: created things lead to their page, deletions and
      ARP changes nowhere. */
  lemma TitlesSay(e: Event)
    requires Titled(e)
    ensures e.kind == "customer.created" ==>
              && TitleFor(e).1 == "/customers/" + e.aggregateId
              && TitleFor(e).0 == if Field(e.data, "company_name") == "" then "New customer created"
                                  else "New customer: " + Field(e.data, "company_name")
    ensures e.kind == "customer.deleted" ==>
              TitleFor(e).0 == if Field(e.data, "code") == "" then "Customer deleted"
                               else "Customer " + Field(e.data, "code") + " deleted"
    ensures e.kind == "network.arp_changed" ==>
              TitleFor(e).0 == (if Field(e.data, "status") == "disabled" then "ARP disabled: " else "ARP enabled: ")
                               + Field(e.data, "ip")
    ensures e.kind == "network.router.created" ==>
              TitleFor(e) == ("New router: " + Field(e.data, "name"), "/routers/" + e.aggregateId)
    ensures e.kind == "network.router.deleted" ==> TitleFor(e).0 == "Router " + Field(e.data, "name") + " deleted"
    ensures TitleFor(e).1 != "" <==> e.kind in {"customer.created", "network.router.created"}
  {
    if e.kind == "network.arp_changed" {
      ArpTitle("disabled", Field(e.data, "ip"));
      ArpTitle("enabled", Field(e.data, "ip"));
    }
  }

  lemma ArpTitle(state: string, ip: string)
    ensures "ARP " + state + ": " + ip == "ARP " + (state + ": ") + ip
  {
  }
}
