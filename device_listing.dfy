/**
 * The pure parts of the RPC handlers that describe the host's entities to a speaker: entity-id
 * prefix filters, the domain of an entity id, the fixed domain-to-commands table, the device
 * listing, the initial snapshot of a state stream, and the uptime split of the keep-alive reply.
 */
module DeviceListing {
  import opened Wrappers

  /** One entity of the host's state snapshot. Attributes other than the friendly name are not modelled. */
  datatype EntityState = EntityState(entityId: string, state: string, friendlyName: Option<string>)

  /** `attributes.get('friendly_name', entity_id)` */
  function FriendlyName(e: EntityState): (n: string)
    ensures e.friendlyName.Some? ==> n == e.friendlyName.value
    ensures e.friendlyName.None? ==> n == e.entityId
  {
    match e.friendlyName
    case Some(n) => n
    case None => e.entityId
  }

  // ---------------------------------------------------------------------------------------
  // Domains and filters

  /** `entity_id.split('.')[0]`: everything before the first dot, or the whole id when it has none. */
  function Domain(entityId: string): (d: string)
    ensures d <= entityId
    ensures '.' !in d
    ensures |d| < |entityId| ==> entityId[|d|] == '.'
  {
    if entityId == [] || entityId[0] == '.' then []
    else [entityId[0]] + Domain(entityId[1..])
  }

  /** The domain of `domain.object_id` is `domain`. */
  lemma {:induction false} DomainOfQualifiedId(domain: string, objectId: string)
    requires '.' !in domain
    ensures Domain(domain + "." + objectId) == domain
  {
    if domain != [] {
      assert (domain + "." + objectId)[1..] == domain[1..] + "." + objectId;
      DomainOfQualifiedId(domain[1..], objectId);
    }
  }

  /** `any(entity_id.startswith(p) for p in filters)` */
  function AnyPrefix(filters: seq<string>, entityId: string): (r: bool)
    ensures r <==> exists i :: 0 <= i < |filters| && filters[i] <= entityId
  {
    if filters == [] then false
    else filters[0] <= entityId || AnyPrefix(filters[1..], entityId)
  }

  /** An empty filter list lets everything through; otherwise some filter must be a prefix. */
  function MatchesFilters(entityId: string, filters: seq<string>): (r: bool)
    ensures filters == [] ==> r
    ensures filters != [] ==> (r <==> exists i :: 0 <= i < |filters| && filters[i] <= entityId)
  {
    filters == [] || AnyPrefix(filters, entityId)
  }

  /** `not domains or domain in domains` */
  function DomainAllowed(domains: seq<string>, domain: string): (r: bool)
    ensures domains == [] ==> r
    ensures domains != [] ==> (r <==> exists i :: 0 <= i < |domains| && domains[i] == domain)
  {
    domains == [] || domain in domains
  }

  // ---------------------------------------------------------------------------------------
  // Supported commands

  const KnownDomains: set<string> := {"light", "switch", "climate", "media_player", "cover", "fan", "scene", "script"}

  /** The fixed table of commands offered for an entity, decided by its domain alone. */
  function SupportedCommands(domain: string): (r: seq<string>)
    ensures r == [] <==> domain !in KnownDomains
  {
    if domain == "light" then ["turn_on", "turn_off", "toggle", "set_brightness"]
    else if domain == "switch" then ["turn_on", "turn_off", "toggle"]
    else if domain == "climate" then ["set_temperature", "set_mode"]
    else if domain == "media_player" then ["play", "pause", "stop", "volume_set", "volume_up", "volume_down"]
    else if domain == "cover" then ["open_cover", "close_cover", "stop_cover"]
    else if domain == "fan" then ["turn_on", "turn_off", "set_speed"]
    else if domain == "scene" then ["turn_on"]
    else if domain == "script" then ["turn_on"]
    else []
  }

  // ---------------------------------------------------------------------------------------
  // Device listing

  datatype DeviceInfo = DeviceInfo(
    entityId: string,
    friendlyName: string,
    domain: string,
    currentState: string,
    supportedCommands: seq<string>)

  datatype DeviceList = DeviceList(devices: seq<DeviceInfo>, totalCount: nat)

  /** One device of the listing: the entity under its own id and state, with its domain's commands. */
  function Describe(e: EntityState): (d: DeviceInfo)
    ensures d.entityId == e.entityId && d.currentState == e.state && d.friendlyName == FriendlyName(e)
    ensures d.domain <= d.entityId && '.' !in d.domain
    ensures |d.domain| < |d.entityId| ==> d.entityId[|d.domain|] == '.'
    ensures d.supportedCommands == [] <==> d.domain !in KnownDomains
  {
    var domain := Domain(e.entityId);
    DeviceInfo(e.entityId, FriendlyName(e), domain, e.state, SupportedCommands(domain))
  }

  /**
   * The listing for a snapshot: the entities whose domain passes the domain list, in snapshot
   * order, each described with the commands of its domain.
   */
  function Listing(states: seq<EntityState>, domains: seq<string>): (r: seq<DeviceInfo>)
    ensures |r| <= |states|
    ensures domains == [] ==> |r| == |states|
    ensures forall d :: d in r <==> exists e :: e in states && DomainAllowed(domains, Domain(e.entityId)) && d == Describe(e)
    ensures forall i :: 0 <= i < |r| ==>
      r[i].domain == Domain(r[i].entityId) && DomainAllowed(domains, r[i].domain)
      && r[i].supportedCommands == SupportedCommands(r[i].domain)
  {
    if states == [] then []
    else
      var init := states[..|states| - 1];
      var e := states[|states| - 1];
      assert forall x :: x in states <==> x in init || x == e;
      Listing(init, domains) + (if DomainAllowed(domains, Domain(e.entityId)) then [Describe(e)] else [])
  }

  /** The scan of `GetAvailableDevices` over the snapshot. */
  method ListDevices(states: seq<EntityState>, domains: seq<string>) returns (devices: seq<DeviceInfo>)
    ensures devices == Listing(states, domains)
  {
    devices := [];
    for i := 0 to |states|
      invariant devices == Listing(states[..i], domains)
    {
      assert states[..i + 1][..i] == states[..i];
      var domain := Domain(states[i].entityId);
      if domains == [] || domain in domains {
        var commands := SupportedCommands(domain);
        devices := devices + [DeviceInfo(states[i].entityId, FriendlyName(states[i]), domain, states[i].state, commands)];
      }
    }
    assert states[..|states|] == states;
  }

  // ---------------------------------------------------------------------------------------
  // Initial snapshot of a device-state stream

  datatype DeviceState = DeviceState(
    entityId: string,
    state: string,
    friendlyName: string,
    domain: string,
    lastChanged: int,
    lastUpdated: int)

  /** The message pushed for one entity at second `now` (timestamps in milliseconds). */
  function DescribeState(e: EntityState, now: nat): (s: DeviceState)
    ensures s.entityId == e.entityId && s.state == e.state
    ensures s.friendlyName == Describe(e).friendlyName && s.domain == Describe(e).domain
    ensures s.lastChanged == s.lastUpdated && s.lastChanged % 1000 == 0 && s.lastChanged / 1000 == now
  {
    DeviceState(e.entityId, e.state, FriendlyName(e), Domain(e.entityId), now * 1000, now * 1000)
  }

  /** The initial messages: one per entity that passes the prefix filters, in snapshot order. */
  function InitialStates(states: seq<EntityState>, filters: seq<string>, now: nat): (r: seq<DeviceState>)
    ensures |r| <= |states|
    ensures filters == [] ==> |r| == |states|
    ensures forall d :: d in r <==> exists e :: e in states && MatchesFilters(e.entityId, filters) && d == DescribeState(e, now)
  {
    if states == [] then []
    else
      var init := states[..|states| - 1];
      var e := states[|states| - 1];
      assert forall x :: x in states <==> x in init || x == e;
      InitialStates(init, filters, now) + (if MatchesFilters(e.entityId, filters) then [DescribeState(e, now)] else [])
  }

  /** The initial-state loop of `StreamDeviceStates`. */
  method InitialDeviceStates(states: seq<EntityState>, filters: seq<string>, now: nat) returns (out: seq<DeviceState>)
    ensures out == InitialStates(states, filters, now)
  {
    out := [];
    for i := 0 to |states|
      invariant out == InitialStates(states[..i], filters, now)
    {
      assert states[..i + 1][..i] == states[..i];
      var entityId := states[i].entityId;
      if filters == [] || AnyPrefix(filters, entityId) {
        out := out + [DeviceState(entityId, states[i].state, FriendlyName(states[i]), Domain(entityId), now * 1000, now * 1000)];
      }
    }
    assert states[..|states|] == states;
  }

  /** Of two entities, where only the first passes the filters, only the first is pushed. */
  lemma InitialStatesOfPair(a: EntityState, b: EntityState, filters: seq<string>, now: nat)
    requires MatchesFilters(a.entityId, filters) && !MatchesFilters(b.entityId, filters)
    ensures InitialStates([a, b], filters, now) == [DescribeState(a, now)]
  {
    assert [a, b][..1] == [a];
    assert [a][..0] == [];
  }

  lemma FilterVerdicts(kitchen: EntityState, fan: EntityState)
    requires kitchen.entityId == "light.kitchen" && fan.entityId == "switch.fan"
    ensures MatchesFilters(kitchen.entityId, ["light."]) && !MatchesFilters(fan.entityId, ["light."])
  {
    assert "light." <= "light.kitchen";
    assert "switch.fan"[0] != "light."[0];
  }

  lemma KitchenDomain(entityId: string)
    requires entityId == "light.kitchen"
    ensures Domain(entityId) == "light"
  {
    assert entityId == "light" + "." + "kitchen";
    DomainOfQualifiedId("light", "kitchen");
  }

  /** With the filter `light.`, of `light.kitchen` and `switch.fan` only the light is pushed. */
  lemma LightFilterExample(now: nat)
    ensures
      var states := [EntityState("light.kitchen", "on", None), EntityState("switch.fan", "off", None)];
      var r := InitialStates(states, ["light."], now);
      |r| == 1 && r[0].entityId == "light.kitchen" && r[0].domain == "light"
  {
    var kitchen := EntityState("light.kitchen", "on", None);
    var fan := EntityState("switch.fan", "off", None);
    FilterVerdicts(kitchen, fan);
    InitialStatesOfPair(kitchen, fan, ["light."], now);
    KitchenDomain(kitchen.entityId);
  }

  // ---------------------------------------------------------------------------------------
  // Uptime

  datatype Uptime = Uptime(hours: int, minutes: int, seconds: int)

  /** `t // 3600`, `(t % 3600) // 60`, `t % 60` (floor division; the divisors are positive). */
  function UptimeParts(t: int): (u: Uptime)
    ensures u.hours * 3600 + u.minutes * 60 + u.seconds == t
    ensures 0 <= u.minutes < 60 && 0 <= u.seconds < 60
  {
    var r := t % 3600;
    assert r % 60 == t % 60 by {
      assert t == (t / 3600) * 3600 + r;
      assert t == ((t / 3600) * 60) * 60 + r;
    }
    Uptime(t / 3600, r / 60, t % 60)
  }
}
