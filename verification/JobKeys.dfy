// The keys of the jobs that the writers run: the sub key is a function of the entity.
module JobKeys {
  import opened Wrappers
  import opened ObservationLog

  datatype Scope =
    | OrgScope
    | NetworkScope(network: string)
    | SsidScope(network: string, number: string)
    | DeviceScope(serial: string)

  // The catalog's and the change-log poller's job of an area.
  function CatalogEntity(org: string, scope: Scope, area: string): Entity {
    match scope
    case OrgScope => Entity("org", org, area, None)
    case NetworkScope(network) => Entity("network", network, area, None)
    case SsidScope(network, number) => Entity("ssid", network + ":" + number, area, Some(number))
    case DeviceScope(serial) => Entity("device", serial, area, None)
  }

  function AfterColon(s: string): string {
    if s == "" then "" else if s[0] == ':' then s[1..] else AfterColon(s[1..])
  }

  // A manual refresh's job; none for another organisation, or an SSID whose id has no colon.
  function RefreshEntity(org: string, entityType: string, entityId: string, area: string): Option<Entity> {
    if entityType == "ssid" then
      if ':' in entityId then Some(Entity("ssid", entityId, area, Some(AfterColon(entityId)))) else None
    else if (entityType == "org" && entityId == org) || entityType == "network" || entityType == "device" then
      Some(Entity(entityType, entityId, area, None))
    else None
  }

  // The sub key is what follows the colon of an SSID's id, and absent elsewhere.
  predicate WellKeyed(key: Key) {
    key.entity.subKey == if key.entity.entityType == "ssid" then Some(AfterColon(key.entity.entityId)) else None
  }

  lemma {:induction false} AfterColonExactly(network: string, number: string)
    ensures AfterColon(network + ":" + number) == number <==> ':' !in network
  {
    var s := network + ":" + number;
    if network == "" {
      assert s[1..] == number;
    } else if network[0] == ':' {
      assert s[1..] == network[1..] + ":" + number;
      assert |s[1..]| > |number|;
    } else {
      assert s[1..] == network[1..] + ":" + number;
      assert network == [network[0]] + network[1..];
      AfterColonExactly(network[1..], number);
    }
  }

  // Every job is well keyed, as long as network ids hold no colon.
  lemma CatalogKeyed(org: string, scope: Scope, area: string)
    ensures WellKeyed(Key(org, CatalogEntity(org, scope, area))) <==> (scope.SsidScope? ==> ':' !in scope.network)
  {
    if scope.SsidScope? { AfterColonExactly(scope.network, scope.number); }
  }

  lemma RefreshKeyed(org: string, entityType: string, entityId: string, area: string)
    ensures var e := RefreshEntity(org, entityType, entityId, area); e.Some? ==> WellKeyed(Key(org, e.value))
  {}

  ghost predicate Keyed(log: seq<Observation>) {
    forall i :: 0 <= i < |log| ==> WellKeyed(log[i].key)
  }

  // So the whole log is well keyed, whatever was written in which order.
  lemma {:induction false} WrittenKeyed(s: State, ws: seq<Write>, clock: nat -> int, h: string -> Hash)
    requires Keyed(s.log) && forall i :: 0 <= i < |ws| ==> WellKeyed(ws[i].key)
    ensures Keyed(Run(s, ws, clock, h).log)
  {
    if ws != [] { WrittenKeyed(s, ws[..|ws| - 1], clock, h); }
  }
}
