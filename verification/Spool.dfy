/**
 Write-through spooling: six page actions change the device and gateway tables and keep the keys
 `systems:by-ip:*` and `fleetipsec:{psk,site,nat}:*` in step with them.
 */
module Spool {
  import opened Wrappers
  import opened Text
  import opened SpoolRecords

  type Hash = map<string, string>

  /** `saved` is history: the devices whose own save has been spooled. */
  datatype DeviceSide = DeviceSide(devices: map<nat, Device>, byIp: map<string, Hash>, saved: set<nat>)

  datatype GatewaySide = GatewaySide(gateways: map<nat, Gateway>, psk: map<string, string>, site: map<string, SiteRecord>,
                                     nats: map<string, NatRecord>, saved: set<nat>)

  datatype State = State(catalog: Catalog, dev: DeviceSide, gw: GatewaySide)

  // ---- Forms ----

  function OrNull(raw: string): Option<string> {
    var t := Trim(raw, JavaScript);
    if t == "" then None else Some(t)
  }

  datatype DeviceForm = DeviceForm(ip: string, ipReal: string, serial: string, productPath: string, regionPath: string,
                                   gateway: Option<nat>, internalUse: string, dpa: bool, dmy: bool)

  /** The customer of a device is not on the form. */
  function DeviceRow(c: Catalog, f: DeviceForm, customer: Option<nat>): Device {
    Device(OrNull(f.ip), OrNull(f.ipReal), f.gateway, OrNull(f.serial), Lookup(c.iso, OrNull(f.regionPath)),
           if f.internalUse == "STD" || f.internalUse == "NIU" then Some(f.internalUse) else None,
           f.dpa, f.dmy, OrNull(f.productPath), customer)
  }

  /** `ipsec` is `Err` when the submitted text is not JSON. */
  datatype GatewayForm = GatewayForm(region: string, publicIp: string, psk: string, ipsec: Result<Option<Ipsec>>,
                                     natMode: string, accessIp: string, sdIp: string, emIp: string)

  predicate Accepted(f: GatewayForm) {
    OrNull(f.region).Some? && f.ipsec.Ok?
  }

  function GatewayRow(f: GatewayForm): Gateway
    requires Accepted(f)
  {
    Gateway(OrNull(f.publicIp), OrNull(f.psk), f.ipsec.value, f.natMode == "backend",
            OrNull(f.accessIp), OrNull(f.sdIp), OrNull(f.emIp))
  }

  // ---- Spooling ----

  function SpoolDevice(c: Catalog, d: DeviceSide, id: nat): (d': DeviceSide)
    requires id in d.devices
    ensures d'.devices == d.devices
  {
    match Address(d.devices[id].ip)
    case Some(ip) => d.(byIp := d.byIp[ip := DeviceHash(c, d.devices[id])], saved := d.saved + {id})
    case None => d.(saved := d.saved + {id})
  }

  function DropDevice(d: DeviceSide, ip: Option<string>): DeviceSide {
    if ip.Some? then d.(byIp := d.byIp - {ip.value}) else d
  }

  ghost function SpoolGateway(g: GatewaySide, devices: map<nat, Device>, gid: nat): (g': GatewaySide)
    ensures g'.gateways == g.gateways
  {
    if gid !in g.gateways then g
    else
      var row := g.gateways[gid];
      match Address(row.publicIp)
      case None => g
      case Some(ip) =>
        GatewaySide(g.gateways,
                    if Present(row.psk) then g.psk[ip := row.psk.value] else g.psk - {ip},
                    g.site[ip := Site(row)],
                    g.nats[ip := Nat(row, gid, devices)],
                    g.saved + {gid})
  }

  ghost function Respool(g: GatewaySide, devices: map<nat, Device>, gid: Option<nat>): (g': GatewaySide)
    ensures g'.gateways == g.gateways
  {
    if gid.Some? then SpoolGateway(g, devices, gid.value) else g
  }

  function DropGateway(g: GatewaySide, ip: Option<string>): GatewaySide {
    if ip.Some? then g.(psk := g.psk - {ip.value}, site := g.site - {ip.value}, nats := g.nats - {ip.value}) else g
  }

  // ---- The actions ----

  datatype Event =
    | UpdateDevice(id: nat, device: DeviceForm)
    | CreateDevice(id: nat, device: DeviceForm)
    | DeleteDevice(id: nat, grants: nat)
    | UpdateGateway(id: nat, form: GatewayForm)
    | CreateGateway(id: nat, form: GatewayForm)
    | DeleteGateway(id: nat)

  /** The database hands out new identifiers. */
  predicate Enabled(s: State, e: Event) {
    && (e.CreateDevice? ==> e.id !in s.dev.devices && e.id !in s.dev.saved)
    && (e.CreateGateway? ==> e.id !in s.gw.gateways && e.id !in s.gw.saved)
  }

  predicate KnownGateway(s: State, gid: Option<nat>) {
    gid.Some? ==> gid.value in s.gw.gateways
  }

  function PrevAddress(devices: map<nat, Device>, id: nat): Option<string> {
    if id in devices then Address(devices[id].ip) else None
  }

  function PrevGateway(devices: map<nat, Device>, id: nat): Option<nat> {
    if id in devices then devices[id].gateway else None
  }

  /** The row is written and its key follows, the old key going when the address changed. */
  function DeviceSaved(c: Catalog, d: DeviceSide, id: nat, row: Device): (d': DeviceSide)
    ensures d'.devices == d.devices[id := row]
  {
    var prev := PrevAddress(d.devices, id);
    var spooled := SpoolDevice(c, d.(devices := d.devices[id := row]), id);
    if prev == Address(row.ip) then spooled else DropDevice(spooled, prev)
  }

  /** The gateways the device has and had are spooled again. */
  ghost function BothRespooled(g: GatewaySide, before: map<nat, Device>, after: map<nat, Device>, id: nat): (g': GatewaySide)
    requires id in after
    ensures g'.gateways == g.gateways
  {
    var prev, now := PrevGateway(before, id), after[id].gateway;
    Respool(Respool(g, after, now), after, if prev == now then None else prev)
  }

  /** The database part of a save, then `spoolDeviceOnSave`. */
  ghost function SaveDevice(s: State, id: nat, row: Device): State {
    State(s.catalog, DeviceSaved(s.catalog, s.dev, id, row),
          BothRespooled(s.gw, s.dev.devices, s.dev.devices[id := row], id))
  }

  function DeviceDeleted(d: DeviceSide, id: nat): DeviceSide
    requires id in d.devices
  {
    DropDevice(d.(devices := d.devices - {id}, saved := d.saved - {id}), Address(d.devices[id].ip))
  }

  /** The database part of a save, then `spoolGatewayOnSave`. */
  ghost function GatewaySaved(g: GatewaySide, devices: map<nat, Device>, id: nat, row: Gateway): (g': GatewaySide)
    ensures g'.gateways == g.gateways[id := row]
  {
    var prev := if id in g.gateways then Address(g.gateways[id].publicIp) else None;
    var spooled := SpoolGateway(g.(gateways := g.gateways[id := row]), devices, id);
    if prev == Address(row.publicIp) then spooled else DropGateway(spooled, prev)
  }

  function GatewayDeleted(g: GatewaySide, id: nat): GatewaySide
    requires id in g.gateways
  {
    DropGateway(g.(gateways := g.gateways - {id}, saved := g.saved - {id}), Address(g.gateways[id].publicIp))
  }

  ghost function Next(s: State, e: Event): State {
    var devices := s.dev.devices;
    match e
    case UpdateDevice(id, f) =>
      if id !in devices || !KnownGateway(s, f.gateway) then s
      else SaveDevice(s, id, DeviceRow(s.catalog, f, devices[id].customer))
    case CreateDevice(id, f) =>
      if !KnownGateway(s, f.gateway) then s else SaveDevice(s, id, DeviceRow(s.catalog, f, None))
    case DeleteDevice(id, grants) =>
      if 0 < grants || id !in devices then s
      else State(s.catalog, DeviceDeleted(s.dev, id), Respool(s.gw, devices - {id}, devices[id].gateway))
    case UpdateGateway(id, f) =>
      if id !in s.gw.gateways || !Accepted(f) then s else s.(gw := GatewaySaved(s.gw, devices, id, GatewayRow(f)))
    case CreateGateway(id, f) =>
      if !Accepted(f) then s else s.(gw := GatewaySaved(s.gw, devices, id, GatewayRow(f)))
    case DeleteGateway(id) =>
      if Attached(devices, id) != {} || id !in s.gw.gateways then s else s.(gw := GatewayDeleted(s.gw, id))
  }

  // ---- What the forms and the actions mean ----

  /** A form field is stored without the white space around it, and as nothing when nothing else is in it. */
  lemma OrNullMeans(before: string, text: string, after: string)
    requires AllSpaces(before, JavaScript) && AllSpaces(after, JavaScript)
    requires text != "" ==> !Space(JavaScript, text[0]) && !Space(JavaScript, text[|text| - 1])
    ensures OrNull(before + (text + after)) == if text == "" then None else Some(text)
  {
    TrimPadded(before, text, after, JavaScript);
    hide Trim;
  }

  /** Column by column, the row a device form writes. */
  lemma DeviceRowMeans(c: Catalog, f: DeviceForm, customer: Option<nat>)
    ensures var r := DeviceRow(c, f, customer);
      && r.ip == OrNull(f.ip) && r.ipReal == OrNull(f.ipReal) && r.serial == OrNull(f.serial) && r.productPath == OrNull(f.productPath)
      && r.gateway == f.gateway && r.dpa == f.dpa && r.dmy == f.dmy && r.customer == customer
      && r.country == Joined(c.iso, OrNull(f.regionPath))
      && (if f.internalUse in {"STD", "NIU"} then r.internalUse == Some(f.internalUse) else r.internalUse.None?)
  {
    hide OrNull;
  }

  /** Column by column, the row a gateway form writes. */
  lemma GatewayRowMeans(f: GatewayForm)
    requires Accepted(f)
    ensures var r := GatewayRow(f);
      && r.publicIp == OrNull(f.publicIp) && r.psk == OrNull(f.psk) && Ok(r.ipsec) == f.ipsec && r.backendNat == (f.natMode == "backend")
      && r.accessIp == OrNull(f.accessIp) && r.sdIp == OrNull(f.sdIp) && r.emIp == OrNull(f.emIp)
  {
    hide OrNull;
  }

  /** What a device action does to the tables: one row, and only under its conditions. */
  lemma DeviceActionsMean(s: State, id: nat, f: DeviceForm, grants: nat)
    ensures Next(s, UpdateDevice(id, f)).gw.gateways == Next(s, CreateDevice(id, f)).gw.gateways == s.gw.gateways
    ensures Next(s, DeleteDevice(id, grants)).gw.gateways == s.gw.gateways
    ensures var known := f.gateway.None? || f.gateway.value in s.gw.gateways;
      && Next(s, UpdateDevice(id, f)).dev.devices == (
           if known && id in s.dev.devices then s.dev.devices[id := DeviceRow(s.catalog, f, s.dev.devices[id].customer)] else s.dev.devices)
      && Next(s, CreateDevice(id, f)).dev.devices == (
           if known then s.dev.devices[id := DeviceRow(s.catalog, f, None)] else s.dev.devices)
    ensures Next(s, DeleteDevice(id, grants)).dev.devices == if grants == 0 then s.dev.devices - {id} else s.dev.devices
  {
    hide DeviceRow, SpoolGateway, SpoolDevice, Address;
  }

  /** And a gateway action: a region and readable settings are needed to save, and no attached device to delete. */
  lemma GatewayActionsMean(s: State, id: nat, f: GatewayForm)
    ensures Next(s, UpdateGateway(id, f)).dev == Next(s, CreateGateway(id, f)).dev == Next(s, DeleteGateway(id)).dev == s.dev
    ensures var ok := OrNull(f.region).Some? && f.ipsec.Ok?;
      && Next(s, UpdateGateway(id, f)).gw.gateways == (
           if ok && id in s.gw.gateways then s.gw.gateways[id := GatewayRow(f)] else s.gw.gateways)
      && Next(s, CreateGateway(id, f)).gw.gateways == if ok then s.gw.gateways[id := GatewayRow(f)] else s.gw.gateways
    ensures Next(s, DeleteGateway(id)).gw.gateways ==
            if exists d :: d in s.dev.devices && s.dev.devices[d].gateway == Some(id) then s.gw.gateways else s.gw.gateways - {id}
  {
    hide GatewayRow, SpoolGateway, SpoolDevice, Address, OrNull;
    var attached := Attached(s.dev.devices, id);
    assert attached != {} <==> exists d :: d in attached;
    assert forall d :: d in attached <==> d in s.dev.devices && s.dev.devices[d].gateway == Some(id);
  }

  // ---- What every key means ----

  /** At most one row owns an address. */
  ghost predicate UniqueDevices(devices: map<nat, Device>) {
    forall a, b | a in devices && b in devices && Address(devices[a].ip).Some? && Address(devices[a].ip) == Address(devices[b].ip) :: a == b
  }

  ghost predicate UniqueGateways(gateways: map<nat, Gateway>) {
    forall a, b | a in gateways && b in gateways && Address(gateways[a].publicIp).Some?
                  && Address(gateways[a].publicIp) == Address(gateways[b].publicIp) :: a == b
  }

  ghost predicate Unique(s: State) {
    UniqueDevices(s.dev.devices) && UniqueGateways(s.gw.gateways)
  }

  /** The device's key, if there is one, is its hash; if it was saved, there is one. */
  predicate DeviceOk(c: Catalog, d: DeviceSide, id: nat)
    requires id in d.devices
  {
    match Address(d.devices[id].ip)
    case None => true
    case Some(ip) => (ip in d.byIp ==> d.byIp[ip] == DeviceHash(c, d.devices[id])) && (id in d.saved ==> ip in d.byIp)
  }

  ghost predicate DeviceOwned(d: DeviceSide, ip: string) {
    exists id | id in d.devices :: Address(d.devices[id].ip) == Some(ip)
  }

  ghost predicate DeviceKeys(c: Catalog, d: DeviceSide) {
    && (forall id | id in d.devices :: DeviceOk(c, d, id))
    && (forall ip | ip in d.byIp :: DeviceOwned(d, ip))
  }

  ghost predicate GatewayOk(g: GatewaySide, devices: map<nat, Device>, gid: nat)
    requires gid in g.gateways
  {
    var row := g.gateways[gid];
    match Address(row.publicIp)
    case None => true
    case Some(ip) =>
      && (ip in g.psk ==> Present(row.psk) && g.psk[ip] == row.psk.value)
      && (ip in g.site ==> g.site[ip] == Site(row))
      && (ip in g.nats ==> g.nats[ip] == Nat(row, gid, devices))
      && (gid in g.saved ==> ip in g.site && ip in g.nats && (Present(row.psk) ==> ip in g.psk))
  }

  ghost predicate GatewayOwned(g: GatewaySide, ip: string) {
    exists gid | gid in g.gateways :: Address(g.gateways[gid].publicIp) == Some(ip)
  }

  /** Every key but those under the address `gone` belongs to a gateway. */
  ghost predicate OwnedBut(g: GatewaySide, gone: Option<string>) {
    forall ip | (ip in g.psk || ip in g.site || ip in g.nats) && Some(ip) != gone :: GatewayOwned(g, ip)
  }

  ghost predicate NoOrphans(g: GatewaySide) {
    OwnedBut(g, None)
  }

  /** All gateways but the stale ones have current keys. */
  ghost predicate AllBut(g: GatewaySide, devices: map<nat, Device>, stale: set<nat>) {
    forall gid | gid in g.gateways && gid !in stale :: GatewayOk(g, devices, gid)
  }

  ghost predicate GatewayKeys(g: GatewaySide, devices: map<nat, Device>) {
    AllBut(g, devices, {}) && NoOrphans(g)
  }

  ghost predicate References(s: State) {
    forall id | id in s.dev.devices :: KnownGateway(s, s.dev.devices[id].gateway)
  }

  /** Saved rows that were since deleted are forgotten. */
  ghost predicate Inv(s: State) {
    DeviceKeys(s.catalog, s.dev) && GatewayKeys(s.gw, s.dev.devices) && References(s)
  }

  // ---- The device side ----

  /** Rows that share the address of row `id` have the same hash. */
  ghost predicate NoClash(c: Catalog, devices: map<nat, Device>, id: nat)
    requires id in devices
  {
    forall other | other in devices && Address(devices[id].ip).Some? && Address(devices[other].ip) == Address(devices[id].ip) ::
      DeviceHash(c, devices[other]) == DeviceHash(c, devices[id])
  }

  /** No other saved row has the address. */
  ghost predicate NoneElseSaved(d: DeviceSide, id: nat, ip: Option<string>) {
    forall other | other in d.devices && other != id && ip.Some? && Address(d.devices[other].ip) == ip :: other !in d.saved
  }

  /** The address a save gives up, if any. */
  function GivenUp(before: Option<string>, after: Option<string>): Option<string> {
    if before == after then None else before
  }

  lemma SaveKeepsOwners(c: Catalog, d: DeviceSide, id: nat, row: Device)
    requires forall ip | ip in d.byIp :: DeviceOwned(d, ip)
    ensures forall ip | ip in DeviceSaved(c, d, id, row).byIp :: DeviceOwned(DeviceSaved(c, d, id, row), ip)
  {
    hide DeviceHash;
    var d' := DeviceSaved(c, d, id, row);
    forall ip | ip in d'.byIp
      ensures DeviceOwned(d', ip)
    {
      if Address(row.ip) == Some(ip) {
        assert Address(d'.devices[id].ip) == Some(ip);
      } else {
        assert DeviceOwned(d, ip);
        var owner :| owner in d.devices && Address(d.devices[owner].ip) == Some(ip);
        assert owner != id && Address(d'.devices[owner].ip) == Some(ip);
      }
    }
  }

  /** The key of row `other` is right after row `id` has been saved. */
  ghost predicate SurvivesSave(c: Catalog, d: DeviceSide, id: nat, row: Device, other: nat)
    requires other in d.devices
  {
    var ip := Address(d.devices[other].ip);
    && (ip.Some? && ip == Address(row.ip) ==> DeviceHash(c, d.devices[other]) == DeviceHash(c, row))
    && (ip.Some? && ip == GivenUp(PrevAddress(d.devices, id), Address(row.ip)) ==> other !in d.saved)
  }

  lemma SaveMeetsOther(c: Catalog, d: DeviceSide, id: nat, row: Device, other: nat)
    requires other in d.devices && other != id && DeviceOk(c, d, other)
    ensures DeviceOk(c, DeviceSaved(c, d, id, row), other) <==> SurvivesSave(c, d, id, row, other)
  {
    hide DeviceHash;
  }

  lemma AllSurviveIff(c: Catalog, d: DeviceSide, id: nat, row: Device)
    ensures (forall other | other in d.devices && other != id :: SurvivesSave(c, d, id, row, other)) <==>
            && NoClash(c, d.devices[id := row], id)
            && NoneElseSaved(d, id, GivenUp(PrevAddress(d.devices, id), Address(row.ip)))
  {
    hide DeviceHash, GivenUp, PrevAddress, Address;
    var rows := d.devices[id := row];
    assert forall other | other in d.devices && other != id :: other in rows && rows[other] == d.devices[other];
  }

  /**
   A save leaves every key right exactly when no row with another hash has the new address and no
   other saved row has the address given up.
   */
  lemma SaveRightIff(c: Catalog, d: DeviceSide, id: nat, row: Device)
    requires DeviceKeys(c, d)
    ensures DeviceKeys(c, DeviceSaved(c, d, id, row)) <==>
            && NoClash(c, d.devices[id := row], id)
            && NoneElseSaved(d, id, GivenUp(PrevAddress(d.devices, id), Address(row.ip)))
  {
    var d' := DeviceSaved(c, d, id, row);
    SaveKeepsOwners(c, d, id, row);
    assert DeviceOk(c, d', id) by { hide DeviceHash; }
    AllSurviveIff(c, d, id, row);
    hide DeviceHash, DeviceSaved, DeviceOwned, PrevAddress, GivenUp, DeviceOk, NoClash, NoneElseSaved, SurvivesSave;
    forall other | other in d.devices && other != id
      ensures DeviceOk(c, d', other) <==> SurvivesSave(c, d, id, row, other)
    {
      SaveMeetsOther(c, d, id, row, other);
    }
  }

  /** A deletion leaves every key right exactly when no other saved row has the address. */
  lemma DeleteRightIff(c: Catalog, d: DeviceSide, id: nat)
    requires DeviceKeys(c, d) && id in d.devices
    ensures DeviceKeys(c, DeviceDeleted(d, id)) <==> NoneElseSaved(d, id, Address(d.devices[id].ip))
  {
    hide DeviceHash;
    var d', ip := DeviceDeleted(d, id), Address(d.devices[id].ip);
    if DeviceKeys(c, d') {
      forall other | other in d.devices && other != id && ip.Some? && Address(d.devices[other].ip) == ip
        ensures other !in d.saved
      {
        assert DeviceOk(c, d', other);
      }
    }
    if NoneElseSaved(d, id, ip) {
      forall other | other in d'.devices
        ensures DeviceOk(c, d', other)
      {
        assert DeviceOk(c, d, other);
      }
      forall key | key in d'.byIp
        ensures DeviceOwned(d', key)
      {
        assert DeviceOwned(d, key);
        var owner :| owner in d.devices && Address(d.devices[owner].ip) == Some(key);
        assert owner in d'.devices;
      }
    }
  }

  /** Every remaining row that had a key still has one. */
  ghost predicate DeviceKeysStay(before: DeviceSide, after: DeviceSide) {
    forall id | id in after.devices && Address(after.devices[id].ip).Some? && Address(after.devices[id].ip).value in before.byIp ::
      Address(after.devices[id].ip).value in after.byIp
  }

  /** A deletion takes no other row's key exactly when there is no key under the address or no other row has it. */
  lemma DeleteTakesNoOtherKeyIff(d: DeviceSide, id: nat)
    requires id in d.devices
    ensures DeviceKeysStay(d, DeviceDeleted(d, id)) <==>
            var ip := Address(d.devices[id].ip);
            ip.None? || ip.value !in d.byIp || forall other | other in d.devices && other != id :: Address(d.devices[other].ip) != ip
  {
    var d', ip := DeviceDeleted(d, id), Address(d.devices[id].ip);
    if ip.Some? && ip.value in d.byIp && DeviceKeysStay(d, d') {
      forall other | other in d.devices && other != id
        ensures Address(d.devices[other].ip) != ip
      {
        assert other in d'.devices;
      }
    }
  }

  /** A save writes the key of the new address, removes that of the address given up, and touches no other. */
  lemma DeviceSaveWrites(c: Catalog, d: DeviceSide, id: nat, row: Device, ip: string)
    ensures var after := DeviceSaved(c, d, id, row).byIp;
      if row.ip == Some(ip) && ip != "" then ip in after && after[ip] == DeviceHash(c, row) && Describes(after[ip], c, row)
      else if id in d.devices && d.devices[id].ip == Some(ip) && ip != "" then ip !in after
      else (ip in after <==> ip in d.byIp) && (ip in after ==> after[ip] == d.byIp[ip])
  {
    HashDescribes(c, row);
    hide DeviceHash, Describes;
  }

  /** A deletion removes the key of the row's address and touches no other. */
  lemma DeviceDeleteWrites(d: DeviceSide, id: nat, ip: string)
    requires id in d.devices
    ensures var after := DeviceDeleted(d, id).byIp;
      if d.devices[id].ip == Some(ip) && ip != "" then ip !in after
      else (ip in after <==> ip in d.byIp) && (ip in after ==> after[ip] == d.byIp[ip])
  {}

  // ---- The gateway side ----

  lemma SpoolFreshens(g: GatewaySide, devices: map<nat, Device>, gid: nat, stale: set<nat>)
    requires AllBut(g, devices, stale) && UniqueGateways(g.gateways)
    ensures AllBut(SpoolGateway(g, devices, gid), devices, stale - {gid})
  {
    hide SpoolGateway, GatewayOk, SameRecords;
    if gid in g.gateways {
      RespoolRightIff(g, devices, gid, stale);
    } else {
      NoSuchGateway(g, devices, gid);
    }
  }

  lemma NoSuchGateway(g: GatewaySide, devices: map<nat, Device>, gid: nat)
    requires gid !in g.gateways
    ensures SpoolGateway(g, devices, gid) == g
  {}

  lemma SpoolKeepsOwners(g: GatewaySide, devices: map<nat, Device>, gid: nat, gone: Option<string>)
    requires OwnedBut(g, gone)
    ensures OwnedBut(SpoolGateway(g, devices, gid), gone)
  {
    hide Site, Nat;
    var g' := SpoolGateway(g, devices, gid);
    forall ip | (ip in g'.psk || ip in g'.site || ip in g'.nats) && Some(ip) != gone
      ensures GatewayOwned(g', ip)
    {
      if gid in g.gateways && Address(g.gateways[gid].publicIp) == Some(ip) {
      } else {
        assert GatewayOwned(g, ip);
      }
    }
  }

  lemma RespoolFreshens(g: GatewaySide, devices: map<nat, Device>, gid: Option<nat>, stale: set<nat>)
    requires AllBut(g, devices, stale) && NoOrphans(g) && UniqueGateways(g.gateways)
    ensures NoOrphans(Respool(g, devices, gid))
    ensures AllBut(Respool(g, devices, gid), devices, if gid.Some? then stale - {gid.value} else stale)
  {
    hide SpoolGateway, AllBut, OwnedBut;
    if gid.Some? {
      SpoolFreshens(g, devices, gid.value, stale);
      SpoolKeepsOwners(g, devices, gid.value, None);
    }
  }

  function Pick(gid: Option<nat>): set<nat> {
    if gid.Some? then {gid.value} else {}
  }

  /** Changing one device leaves the records current but for its gateway before and after. */
  lemma DeviceChangeStales(g: GatewaySide, before: map<nat, Device>, after: map<nat, Device>, id: nat, stale: set<nat>)
    requires AllBut(g, before, {})
    requires forall other | other != id :: (other in before <==> other in after) && (other in before ==> before[other] == after[other])
    requires id in before ==> Pick(before[id].gateway) <= stale
    requires id in after ==> Pick(after[id].gateway) <= stale
    ensures AllBut(g, after, stale)
  {
    hide Site;
    forall gid | gid in g.gateways && gid !in stale
      ensures GatewayOk(g, after, gid)
    {
      assert GatewayOk(g, before, gid);
      assert Attached(before, gid) == Attached(after, gid);
      NatDependsOnAttached(g.gateways[gid], gid, before, after);
      hide Nat;
    }
  }

  lemma OnSaveKeepsGatewayKeys(g: GatewaySide, before: map<nat, Device>, id: nat, row: Device)
    requires GatewayKeys(g, before) && UniqueGateways(g.gateways)
    ensures GatewayKeys(BothRespooled(g, before, before[id := row], id), before[id := row])
  {
    hide AllBut, OwnedBut, Respool;
    var after, prev, now := before[id := row], PrevGateway(before, id), row.gateway;
    var stale := Pick(prev) + Pick(now);
    DeviceChangeStales(g, before, after, id, stale);
    RespoolFreshens(g, after, now, stale);
    var g1 := Respool(g, after, now);
    var left := if now.Some? then stale - {now.value} else stale;
    var again := if prev == now then None else prev;
    RespoolFreshens(g1, after, again, left);
    assert (if again.Some? then left - {again.value} else left) == {};
  }

  lemma DeleteDeviceKeepsGatewayKeys(g: GatewaySide, devices: map<nat, Device>, id: nat)
    requires GatewayKeys(g, devices) && UniqueGateways(g.gateways) && id in devices
    ensures GatewayKeys(Respool(g, devices - {id}, devices[id].gateway), devices - {id})
  {
    hide AllBut, NoOrphans, Respool;
    var stale := Pick(devices[id].gateway);
    DeviceChangeStales(g, devices, devices - {id}, id, stale);
    RespoolFreshens(g, devices - {id}, devices[id].gateway, stale);
    assert (if devices[id].gateway.Some? then stale - {devices[id].gateway.value} else stale) == {};
  }

  /** What one address holds. */
  datatype Slot = Slot(psk: Option<string>, site: Option<SiteRecord>, nats: Option<NatRecord>)

  function SlotAt(g: GatewaySide, ip: string): Slot {
    Slot(if ip in g.psk then Some(g.psk[ip]) else None,
         if ip in g.site then Some(g.site[ip]) else None,
         if ip in g.nats then Some(g.nats[ip]) else None)
  }

  const NO_KEYS := Slot(None, None, None)

  ghost function Written(devices: map<nat, Device>, id: nat, row: Gateway): Slot {
    Slot(Address(row.psk), Some(Site(row)), Some(Nat(row, id, devices)))
  }

  /** A save sets the slot of the new address, empties that of the old one, and leaves the others. */
  lemma SavedSlots(g: GatewaySide, devices: map<nat, Device>, id: nat, row: Gateway, ip: string)
    ensures SlotAt(GatewaySaved(g, devices, id, row), ip) ==
            if Address(row.publicIp) == Some(ip) then Written(devices, id, row)
            else if id in g.gateways && Address(g.gateways[id].publicIp) == Some(ip) then NO_KEYS
            else SlotAt(g, ip)
  {
    var prev := if id in g.gateways then Address(g.gateways[id].publicIp) else None;
    var written := g.(gateways := g.gateways[id := row]);
    assert SlotAt(written, ip) == SlotAt(g, ip);
    SpooledSlot(written, devices, id, ip);
    DroppedSlot(SpoolGateway(written, devices, id), prev, ip);
    hide Site, Nat, SlotAt, SpoolGateway, DropGateway, Address, Written;
  }

  lemma SpooledSlot(g: GatewaySide, devices: map<nat, Device>, gid: nat, ip: string)
    requires gid in g.gateways
    ensures var row := g.gateways[gid];
      SlotAt(SpoolGateway(g, devices, gid), ip) ==
      if Address(row.publicIp) == Some(ip) then Written(devices, gid, row)
      else SlotAt(g, ip)
  {
    hide Site, Nat;
  }

  lemma DroppedSlot(g: GatewaySide, gone: Option<string>, ip: string)
    ensures SlotAt(DropGateway(g, gone), ip) == if gone == Some(ip) then NO_KEYS else SlotAt(g, ip)
  {}

  /** `GatewayOk`, of what the gateway's address holds. */
  ghost predicate SlotOk(slot: Slot, row: Gateway, gid: nat, devices: map<nat, Device>, saved: bool) {
    && (slot.psk.Some? ==> Present(row.psk) && slot.psk == row.psk)
    && (slot.site.Some? ==> slot.site.value == Site(row))
    && (slot.nats.Some? ==> slot.nats.value == Nat(row, gid, devices))
    && (saved ==> slot.site.Some? && slot.nats.Some? && (Present(row.psk) ==> slot.psk.Some?))
  }

  lemma OkBySlot(g: GatewaySide, devices: map<nat, Device>, gid: nat)
    requires gid in g.gateways
    ensures var row := g.gateways[gid];
      GatewayOk(g, devices, gid) <==>
      (Address(row.publicIp).Some? ==> SlotOk(SlotAt(g, Address(row.publicIp).value), row, gid, devices, gid in g.saved))
  {
    hide Site, Nat;
  }

  /** The records written for row `id` are right for row `other` as well, and so is their lack of a key. */
  ghost predicate SameRecords(devices: map<nat, Device>, id: nat, row: Gateway, other: nat, theirs: Gateway, saved: bool) {
    && Site(theirs) == Site(row) && Nat(theirs, other, devices) == Nat(row, id, devices)
    && (Present(row.psk) ==> theirs.psk == row.psk) && (!Present(row.psk) && saved ==> !Present(theirs.psk))
  }

  lemma WrittenIsOk(devices: map<nat, Device>, id: nat, row: Gateway, other: nat, theirs: Gateway, saved: bool)
    ensures SlotOk(Written(devices, id, row), theirs, other, devices, saved) <==> SameRecords(devices, id, row, other, theirs, saved)
    ensures SlotOk(Written(devices, id, row), row, id, devices, saved)
  {
    hide Site, Nat;
  }

  lemma NothingIsOk(row: Gateway, gid: nat, devices: map<nat, Device>, saved: bool)
    ensures SlotOk(NO_KEYS, row, gid, devices, saved) <==> !saved
  {
    hide Site, Nat;
  }

  /** Other rows under the new address take the same records. */
  ghost predicate NoGatewayClash(g: GatewaySide, devices: map<nat, Device>, id: nat, row: Gateway) {
    forall other | other in g.gateways && other != id && Address(row.publicIp).Some?
                   && Address(g.gateways[other].publicIp) == Address(row.publicIp) ::
      SameRecords(devices, id, row, other, g.gateways[other], other in g.saved)
  }

  ghost predicate NoGatewaySaved(g: GatewaySide, id: nat, ip: Option<string>) {
    forall other | other in g.gateways && other != id && ip.Some? && Address(g.gateways[other].publicIp) == ip :: other !in g.saved
  }

  function PrevPublic(gateways: map<nat, Gateway>, id: nat): Option<string> {
    if id in gateways then Address(gateways[id].publicIp) else None
  }

  /** The keys of gateway `other` are right after gateway `id` has been saved. */
  ghost predicate SurvivesGatewaySave(g: GatewaySide, devices: map<nat, Device>, id: nat, row: Gateway, other: nat)
    requires other in g.gateways
  {
    var ip := Address(g.gateways[other].publicIp);
    && (ip.Some? && ip == Address(row.publicIp) ==> SameRecords(devices, id, row, other, g.gateways[other], other in g.saved))
    && (ip.Some? && ip == GivenUp(PrevPublic(g.gateways, id), Address(row.publicIp)) ==> other !in g.saved)
  }

  lemma SaveMeetsOtherGateway(g: GatewaySide, devices: map<nat, Device>, id: nat, row: Gateway, other: nat)
    requires other in g.gateways && other != id && GatewayOk(g, devices, other)
    ensures GatewayOk(GatewaySaved(g, devices, id, row), devices, other) <==> SurvivesGatewaySave(g, devices, id, row, other)
  {
    var g', theirs := GatewaySaved(g, devices, id, row), g.gateways[other];
    var ip := Address(theirs.publicIp);
    OkBySlot(g, devices, other);
    OkBySlot(g', devices, other);
    SavedHistory(g, devices, id, row, other);
    if ip.Some? {
      SavedSlots(g, devices, id, row, ip.value);
    }
    WrittenIsOk(devices, id, row, other, theirs, other in g.saved);
    NothingIsOk(theirs, other, devices, other in g.saved);
    hide Address, GatewaySaved, SlotAt, GatewayOk, SlotOk, SameRecords, Written;
  }

  lemma SavedHistory(g: GatewaySide, devices: map<nat, Device>, id: nat, row: Gateway, other: nat)
    requires other != id
    ensures other in GatewaySaved(g, devices, id, row).saved <==> other in g.saved
  {
    hide Site, Nat;
  }

  lemma SaveKeepsOwn(g: GatewaySide, devices: map<nat, Device>, id: nat, row: Gateway)
    ensures GatewayOk(GatewaySaved(g, devices, id, row), devices, id)
  {
    var g' := GatewaySaved(g, devices, id, row);
    OkBySlot(g', devices, id);
    if Address(row.publicIp).Some? {
      SavedSlots(g, devices, id, row, Address(row.publicIp).value);
      WrittenIsOk(devices, id, row, id, row, id in g'.saved);
    }
    hide Address, GatewaySaved, SlotAt, GatewayOk, SlotOk, SameRecords, Written;
  }

  lemma SaveKeepsGatewayOwners(g: GatewaySide, devices: map<nat, Device>, id: nat, row: Gateway)
    requires NoOrphans(g)
    ensures NoOrphans(GatewaySaved(g, devices, id, row))
  {
    var g' := GatewaySaved(g, devices, id, row);
    hide Site, Nat, GatewaySaved;
    forall ip | ip in g'.psk || ip in g'.site || ip in g'.nats
      ensures GatewayOwned(g', ip)
    {
      SavedSlots(g, devices, id, row, ip);
      assert SlotAt(g', ip) != NO_KEYS;
      if Address(row.publicIp) == Some(ip) {
        assert id in g'.gateways && Address(g'.gateways[id].publicIp) == Some(ip);
      } else {
        assert GatewayOwned(g, ip);
        var owner :| owner in g.gateways && Address(g.gateways[owner].publicIp) == Some(ip);
        assert owner != id && g'.gateways[owner] == g.gateways[owner];
      }
    }
  }

  lemma AllGatewaysSurviveIff(g: GatewaySide, devices: map<nat, Device>, id: nat, row: Gateway)
    ensures (forall other | other in g.gateways && other != id :: SurvivesGatewaySave(g, devices, id, row, other)) <==>
            && NoGatewayClash(g, devices, id, row)
            && NoGatewaySaved(g, id, GivenUp(PrevPublic(g.gateways, id), Address(row.publicIp)))
  {
    hide SameRecords, GivenUp, PrevPublic, Address;
  }

  /**
   A save leaves all gateway keys right exactly when the other rows under the new address take the
   same records and no other saved row has the address given up.
   */
  lemma GatewaySaveRightIff(g: GatewaySide, devices: map<nat, Device>, id: nat, row: Gateway)
    requires GatewayKeys(g, devices)
    ensures GatewayKeys(GatewaySaved(g, devices, id, row), devices) <==>
            && NoGatewayClash(g, devices, id, row)
            && NoGatewaySaved(g, id, GivenUp(PrevPublic(g.gateways, id), Address(row.publicIp)))
  {
    var g' := GatewaySaved(g, devices, id, row);
    SaveKeepsGatewayOwners(g, devices, id, row);
    SaveKeepsOwn(g, devices, id, row);
    AllGatewaysSurviveIff(g, devices, id, row);
    assert g'.gateways == g.gateways[id := row];
    hide GatewayOk, GatewaySaved, GatewayOwned, SurvivesGatewaySave, NoGatewayClash, NoGatewaySaved;
    forall other | other in g.gateways && other != id
      ensures GatewayOk(g', devices, other) <==> SurvivesGatewaySave(g, devices, id, row, other)
    {
      SaveMeetsOtherGateway(g, devices, id, row, other);
    }
  }

  /** Gateway `other` can do with what is written under the address of `gid`. */
  ghost predicate Suits(g: GatewaySide, devices: map<nat, Device>, gid: nat, other: nat)
    requires gid in g.gateways && other in g.gateways
  {
    var row, theirs := g.gateways[gid], g.gateways[other];
    Address(row.publicIp).Some? && Address(theirs.publicIp) == Address(row.publicIp) ==>
      SameRecords(devices, gid, row, other, theirs, other in g.saved)
  }

  lemma RespooledOk(g: GatewaySide, devices: map<nat, Device>, gid: nat, other: nat)
    requires gid in g.gateways && other in g.gateways && (other != gid ==> GatewayOk(g, devices, other))
    ensures GatewayOk(SpoolGateway(g, devices, gid), devices, other) <==> other == gid || Suits(g, devices, gid, other)
  {
    var g', row, theirs := SpoolGateway(g, devices, gid), g.gateways[gid], g.gateways[other];
    OkBySlot(g, devices, other);
    OkBySlot(g', devices, other);
    if Address(theirs.publicIp).Some? {
      SpooledSlot(g, devices, gid, Address(theirs.publicIp).value);
    }
    assert other != gid ==> (other in g'.saved <==> other in g.saved);
    WrittenIsOk(devices, gid, row, other, theirs, other in g'.saved);
    hide Address, SpoolGateway, SlotAt, GatewayOk, SlotOk, SameRecords, Written;
  }

  /**
   Writing a gateway's records again, after a device of it has changed, leaves current what was current
   exactly when every current row under its address can do with them.
   */
  lemma RespoolRightIff(g: GatewaySide, devices: map<nat, Device>, gid: nat, stale: set<nat>)
    requires AllBut(g, devices, stale) && gid in g.gateways
    ensures AllBut(SpoolGateway(g, devices, gid), devices, stale - {gid}) <==>
            forall other | other in g.gateways && other !in stale && other != gid :: Suits(g, devices, gid, other)
  {
    RespooledOk(g, devices, gid, gid);
    hide GatewayOk, SpoolGateway, Suits;
    forall other | other in g.gateways && other !in stale && other != gid
      ensures GatewayOk(SpoolGateway(g, devices, gid), devices, other) <==> Suits(g, devices, gid, other)
    {
      RespooledOk(g, devices, gid, other);
    }
  }

  /** After a device save the records of its gateway, and of the one it left, are those of the devices attached now. */
  lemma DeviceSaveRespools(g: GatewaySide, before: map<nat, Device>, after: map<nat, Device>, id: nat, gid: nat)
    requires id in after && gid in g.gateways && UniqueGateways(g.gateways) && Address(g.gateways[gid].publicIp).Some?
    requires after[id].gateway == Some(gid) || (id in before && before[id].gateway == Some(gid))
    ensures SlotAt(BothRespooled(g, before, after, id), Address(g.gateways[gid].publicIp).value) == Written(after, gid, g.gateways[gid])
  {
    var prev, now := PrevGateway(before, id), after[id].gateway;
    var ip := Address(g.gateways[gid].publicIp).value;
    var g1 := Respool(g, after, now);
    if now.Some? && now.value in g.gateways { SpooledSlot(g, after, now.value, ip); }
    if prev.Some? && prev.value in g.gateways { SpooledSlot(g1, after, prev.value, ip); }
    hide SpoolGateway, SlotAt, Written, Address;
    if prev.Some? && prev.value !in g.gateways { NoSuchGateway(g1, after, prev.value); }
  }

  lemma DeletedSlots(g: GatewaySide, id: nat, ip: string)
    requires id in g.gateways
    ensures SlotAt(GatewayDeleted(g, id), ip) ==
            if Address(g.gateways[id].publicIp) == Some(ip) then NO_KEYS else SlotAt(g, ip)
  {
    DroppedSlot(g.(gateways := g.gateways - {id}, saved := g.saved - {id}), Address(g.gateways[id].publicIp), ip);
  }

  lemma DeleteMeetsOtherGateway(g: GatewaySide, devices: map<nat, Device>, id: nat, other: nat)
    requires id in g.gateways && other in g.gateways && other != id && GatewayOk(g, devices, other)
    ensures var ip := Address(g.gateways[other].publicIp);
      GatewayOk(GatewayDeleted(g, id), devices, other) <==>
      (ip.Some? && ip == Address(g.gateways[id].publicIp) ==> other !in g.saved)
  {
    var g', theirs := GatewayDeleted(g, id), g.gateways[other];
    OkBySlot(g, devices, other);
    OkBySlot(g', devices, other);
    if Address(theirs.publicIp).Some? {
      DeletedSlots(g, id, Address(theirs.publicIp).value);
    }
    NothingIsOk(theirs, other, devices, other in g.saved);
    assert (other in g'.saved <==> other in g.saved) && g'.gateways[other] == theirs;
    hide Address, GatewayDeleted, SlotAt, GatewayOk, SlotOk;
  }

  lemma DeleteKeepsGatewayOwners(g: GatewaySide, id: nat)
    requires NoOrphans(g) && id in g.gateways
    ensures NoOrphans(GatewayDeleted(g, id))
  {
    var g' := GatewayDeleted(g, id);
    forall ip | ip in g'.psk || ip in g'.site || ip in g'.nats
      ensures GatewayOwned(g', ip)
    {
      assert GatewayOwned(g, ip);
      var owner :| owner in g.gateways && Address(g.gateways[owner].publicIp) == Some(ip);
      assert owner in g'.gateways;
    }
  }

  /** A deletion leaves all gateway keys right exactly when no other saved row has the address. */
  lemma GatewayDeleteRightIff(g: GatewaySide, devices: map<nat, Device>, id: nat)
    requires GatewayKeys(g, devices) && id in g.gateways
    ensures GatewayKeys(GatewayDeleted(g, id), devices) <==> NoGatewaySaved(g, id, Address(g.gateways[id].publicIp))
  {
    DeleteKeepsGatewayOwners(g, id);
    assert GatewayDeleted(g, id).gateways == g.gateways - {id};
    hide GatewayOk, GatewayDeleted, GatewayOwned, Address;
    forall other | other in g.gateways && other != id
      ensures GatewayOk(GatewayDeleted(g, id), devices, other) <==>
              var ip := Address(g.gateways[other].publicIp);
              (ip.Some? && ip == Address(g.gateways[id].publicIp) ==> other !in g.saved)
    {
      DeleteMeetsOtherGateway(g, devices, id, other);
    }
  }

  /** The three keys of an address. */
  function KeysAt(g: GatewaySide, ip: string): (bool, bool, bool) {
    (ip in g.psk, ip in g.site, ip in g.nats)
  }

  ghost predicate GatewayKeysStay(before: GatewaySide, after: GatewaySide) {
    forall gid | gid in after.gateways && Address(after.gateways[gid].publicIp).Some? ::
      KeysAt(after, Address(after.gateways[gid].publicIp).value) == KeysAt(before, Address(after.gateways[gid].publicIp).value)
  }

  /** A deletion takes no other gateway's keys exactly when there are none under the address or no other row has it. */
  lemma GatewayDeleteTakesNoOtherKeyIff(g: GatewaySide, id: nat)
    requires id in g.gateways
    ensures GatewayKeysStay(g, GatewayDeleted(g, id)) <==>
            var ip := Address(g.gateways[id].publicIp);
            ip.None? || KeysAt(g, ip.value) == (false, false, false)
            || forall other | other in g.gateways && other != id :: Address(g.gateways[other].publicIp) != ip
  {
    var g', ip := GatewayDeleted(g, id), Address(g.gateways[id].publicIp);
    if ip.Some? && KeysAt(g, ip.value) != (false, false, false) && GatewayKeysStay(g, g') {
      forall other | other in g.gateways && other != id
        ensures Address(g.gateways[other].publicIp) != ip
      {
        assert other in g'.gateways;
      }
    }
  }

  // ---- Runs ----

  lemma UniqueDoesNotClash(c: Catalog, devices: map<nat, Device>, id: nat)
    requires UniqueDevices(devices) && id in devices
    ensures NoClash(c, devices, id)
  {
    hide DeviceHash;
  }

  lemma SaveDeviceKeepsInv(s: State, id: nat, row: Device)
    requires Inv(s) && Unique(s) && KnownGateway(s, row.gateway) && UniqueDevices(s.dev.devices[id := row])
    ensures Inv(SaveDevice(s, id, row))
  {
    UniqueDoesNotClash(s.catalog, s.dev.devices[id := row], id);
    assert References(SaveDevice(s, id, row)) by {
      hide DeviceKeys, GatewayKeys, Address, DeviceSaved, UniqueGateways, UniqueDevices, NoClash;
    }
    assert NoneElseSaved(s.dev, id, GivenUp(PrevAddress(s.dev.devices, id), Address(row.ip)));
    hide DeviceHash, DeviceKeys, GatewayKeys, BothRespooled, NoClash, DeviceSaved, UniqueGateways, UniqueDevices, References;
    SaveRightIff(s.catalog, s.dev, id, row);
    OnSaveKeepsGatewayKeys(s.gw, s.dev.devices, id, row);
  }

  lemma DeleteDeviceKeepsInv(s: State, id: nat)
    requires Inv(s) && Unique(s) && id in s.dev.devices
    ensures Inv(State(s.catalog, DeviceDeleted(s.dev, id), Respool(s.gw, s.dev.devices - {id}, s.dev.devices[id].gateway)))
  {
    DeleteRightIff(s.catalog, s.dev, id);
    hide DeviceKeys, GatewayKeys, Respool, DeviceHash;
    DeleteDeviceKeepsGatewayKeys(s.gw, s.dev.devices, id);
  }

  lemma SaveGatewayKeepsInv(s: State, id: nat, row: Gateway)
    requires Inv(s) && Unique(s) && UniqueGateways(s.gw.gateways[id := row])
    ensures Inv(s.(gw := GatewaySaved(s.gw, s.dev.devices, id, row)))
  {
    var g, rows := s.gw, s.gw.gateways[id := row];
    hide DeviceKeys, GatewayKeys, SpoolGateway, SameRecords, Address;
    assert forall other | other in g.gateways && other != id :: other in rows && rows[other] == g.gateways[other];
    assert id in rows && rows[id] == row;
    assert NoGatewayClash(g, s.dev.devices, id, row);
    assert NoGatewaySaved(g, id, GivenUp(PrevPublic(g.gateways, id), Address(row.publicIp)));
    GatewaySaveRightIff(g, s.dev.devices, id, row);
  }

  lemma DeleteGatewayKeepsInv(s: State, id: nat)
    requires Inv(s) && Unique(s) && id in s.gw.gateways && Attached(s.dev.devices, id) == {}
    ensures Inv(s.(gw := GatewayDeleted(s.gw, id)))
  {
    hide DeviceKeys, GatewayKeys;
    GatewayDeleteRightIff(s.gw, s.dev.devices, id);
    forall d | d in s.dev.devices
      ensures s.dev.devices[d].gateway != Some(id)
    {
      assert d !in Attached(s.dev.devices, id);
    }
  }

  lemma InvKept(s: State, e: Event)
    requires Inv(s) && Unique(s) && Enabled(s, e) && Unique(Next(s, e))
    ensures Inv(Next(s, e))
  {
    hide Inv, Respool, SpoolGateway, SpoolDevice, DeviceHash, Address, Trim;
    var devices := s.dev.devices;
    match e
    case UpdateDevice(id, f) =>
      if id in devices && KnownGateway(s, f.gateway) {
        SaveDeviceKeepsInv(s, id, DeviceRow(s.catalog, f, devices[id].customer));
      }
    case CreateDevice(id, f) =>
      if KnownGateway(s, f.gateway) {
        SaveDeviceKeepsInv(s, id, DeviceRow(s.catalog, f, None));
      }
    case DeleteDevice(id, grants) =>
      if id in devices && grants == 0 {
        DeleteDeviceKeepsInv(s, id);
      }
    case UpdateGateway(id, f) =>
      if id in s.gw.gateways && Accepted(f) {
        assert Next(s, e).gw.gateways == s.gw.gateways[id := GatewayRow(f)];
        SaveGatewayKeepsInv(s, id, GatewayRow(f));
      }
    case CreateGateway(id, f) =>
      if Accepted(f) {
        assert Next(s, e).gw.gateways == s.gw.gateways[id := GatewayRow(f)];
        SaveGatewayKeepsInv(s, id, GatewayRow(f));
      }
    case DeleteGateway(id) =>
      if id in s.gw.gateways && Attached(devices, id) == {} {
        DeleteGatewayKeepsInv(s, id);
      }
  }

  /** Addresses are unique throughout. */
  ghost predicate Runs(s: State, evs: seq<Event>)
    decreases |evs|
  {
    Unique(s) && (evs == [] || (Enabled(s, evs[0]) && Runs(Next(s, evs[0]), evs[1..])))
  }

  ghost function Run(s: State, evs: seq<Event>): State
    requires Runs(s, evs)
    decreases |evs|
  {
    if evs == [] then s else Run(Next(s, evs[0]), evs[1..])
  }

  lemma {:induction false} RunKeepsInv(s: State, evs: seq<Event>)
    requires Inv(s) && Runs(s, evs)
    ensures Inv(Run(s, evs)) && Unique(Run(s, evs))
    decreases |evs|
  {
    hide Inv, Unique, Next, Enabled;
    if evs != [] {
      InvKept(s, evs[0]);
      RunKeepsInv(Next(s, evs[0]), evs[1..]);
    }
  }

  /** Imported tables and an empty store: keys appear only as rows are saved. */
  ghost predicate Imported(s: State) {
    && s.dev.byIp == map[] && s.gw.psk == map[] && s.gw.site == map[] && s.gw.nats == map[]
    && s.dev.saved == {} && s.gw.saved == {} && References(s)
  }

  lemma OwnerOfKey(c: Catalog, d: DeviceSide, ip: string) returns (id: nat)
    requires DeviceKeys(c, d) && ip in d.byIp
    ensures id in d.devices && Address(d.devices[id].ip) == Some(ip) && d.byIp[ip] == DeviceHash(c, d.devices[id])
  {
    hide DeviceHash;
    assert DeviceOwned(d, ip);
    id :| id in d.devices && Address(d.devices[id].ip) == Some(ip);
    assert DeviceOk(c, d, id);
  }

  /** The row a device key stands for. */
  lemma DeviceKeysFollow(s: State, evs: seq<Event>, ip: string) returns (id: nat)
    requires Imported(s) && Runs(s, evs) && ip in Run(s, evs).dev.byIp
    ensures var t := Run(s, evs);
      && id in t.dev.devices && Address(t.dev.devices[id].ip) == Some(ip)
      && t.dev.byIp[ip] == DeviceHash(t.catalog, t.dev.devices[id])
      && forall other | other in t.dev.devices && Address(t.dev.devices[other].ip) == Some(ip) :: other == id
  {
    ImportedHasInv(s);
    RunKeepsInv(s, evs);
    hide Run, Runs, DeviceHash, Address, DeviceKeys, Imported, GatewayKeys;
    id := OwnerOfKey(Run(s, evs).catalog, Run(s, evs).dev, ip);
  }

  lemma ImportedHasInv(s: State)
    requires Imported(s)
    ensures Inv(s)
  {
    hide Address;
  }

  lemma OwnerOfKeys(g: GatewaySide, devices: map<nat, Device>, ip: string) returns (gid: nat)
    requires GatewayKeys(g, devices) && (ip in g.psk || ip in g.site || ip in g.nats)
    ensures gid in g.gateways && Address(g.gateways[gid].publicIp) == Some(ip)
    ensures ip in g.psk ==> g.gateways[gid].psk == Some(g.psk[ip])
    ensures ip in g.site ==> g.site[ip] == Site(g.gateways[gid])
    ensures ip in g.nats ==> g.nats[ip] == Nat(g.gateways[gid], gid, devices)
  {
    hide Site, Nat;
    assert GatewayOwned(g, ip);
    gid :| gid in g.gateways && Address(g.gateways[gid].publicIp) == Some(ip);
    assert GatewayOk(g, devices, gid);
  }

  /** The row a gateway's keys stand for, with the devices attached to it now. */
  lemma GatewayKeysFollow(s: State, evs: seq<Event>, ip: string) returns (gid: nat)
    requires Imported(s) && Runs(s, evs)
    requires var g := Run(s, evs).gw; ip in g.psk || ip in g.site || ip in g.nats
    ensures var g, devices := Run(s, evs).gw, Run(s, evs).dev.devices;
      && gid in g.gateways && Address(g.gateways[gid].publicIp) == Some(ip)
      && (ip in g.psk ==> g.gateways[gid].psk == Some(g.psk[ip]))
      && (ip in g.site ==> g.site[ip] == Site(g.gateways[gid]))
      && (ip in g.nats ==> g.nats[ip] == Nat(g.gateways[gid], gid, devices))
      && forall other | other in g.gateways && Address(g.gateways[other].publicIp) == Some(ip) :: other == gid
  {
    ImportedHasInv(s);
    RunKeepsInv(s, evs);
    hide Imported, Run, Runs, Site, Nat, Address, GatewayKeys;
    gid := OwnerOfKeys(Run(s, evs).gw, Run(s, evs).dev.devices, ip);
  }

  /** Every row that has an address and was saved has its keys, the pre-shared key only if it has one. */
  lemma SavedRowsHaveKeys(s: State, evs: seq<Event>)
    requires Imported(s) && Runs(s, evs)
    ensures var d, g := Run(s, evs).dev, Run(s, evs).gw;
      && (forall id | id in d.devices && id in d.saved && Address(d.devices[id].ip).Some? ::
            Address(d.devices[id].ip).value in d.byIp)
      && (forall gid | gid in g.gateways && gid in g.saved && Address(g.gateways[gid].publicIp).Some? ::
            var ip := Address(g.gateways[gid].publicIp).value;
            ip in g.site && ip in g.nats && (ip in g.psk <==> Present(g.gateways[gid].psk)))
  {
    ImportedHasInv(s);
    RunKeepsInv(s, evs);
    hide Imported, Run, Runs, Site, Nat, DeviceHash;
    var t := Run(s, evs);
    forall id | id in t.dev.devices
      ensures DeviceOk(t.catalog, t.dev, id)
    {}
    forall gid | gid in t.gw.gateways
      ensures GatewayOk(t.gw, t.dev.devices, gid)
    {}
  }

  const NO_DEVICES := DeviceSide(map[], map[], {})

  /** Two devices saved one after the other into empty tables. */
  function TwoSaved(c: Catalog, a: Device, b: Device): DeviceSide {
    DeviceSaved(c, DeviceSaved(c, NO_DEVICES, 0, a), 1, b)
  }

  lemma FirstSaveIsRight(c: Catalog, a: Device)
    ensures DeviceKeys(c, DeviceSaved(c, NO_DEVICES, 0, a))
  {
    hide DeviceHash;
    SaveRightIff(c, NO_DEVICES, 0, a);
  }

  /** Nothing in the schema keeps two devices from sharing an address; then one save overwrites and one deletion removes the other's key. */
  lemma SharedAddressBreaksSpool(c: Catalog, a: Device, b: Device)
    requires Address(a.ip).Some? && Address(b.ip) == Address(a.ip) && DeviceHash(c, a) != DeviceHash(c, b)
    ensures var both := TwoSaved(c, a, b);
      && DeviceKeys(c, DeviceSaved(c, NO_DEVICES, 0, a)) && !DeviceKeys(c, both)
      && 0 in DeviceDeleted(both, 1).saved && Address(a.ip).value !in DeviceDeleted(both, 1).byIp
  {
    hide DeviceHash;
    FirstSaveIsRight(c, a);
    var one := DeviceSaved(c, NO_DEVICES, 0, a);
    SaveRightIff(c, one, 1, b);
    assert one.devices[1 := b][0] == a;
  }

  /** Two alike devices may share an address, until one of them moves: it takes the other's key along. */
  lemma MovingTakesSharedKey(c: Catalog, a: Device, b: Device, moved: Device)
    requires Address(a.ip).Some? && Address(b.ip) == Address(a.ip) && DeviceHash(c, a) == DeviceHash(c, b)
    requires Address(moved.ip) != Address(a.ip)
    ensures var both := TwoSaved(c, a, b);
      var after := DeviceSaved(c, both, 1, moved);
      && DeviceKeys(c, both) && NoClash(c, both.devices[1 := moved], 1)
      && 0 in after.saved && Address(after.devices[0].ip) == Address(a.ip) && Address(a.ip).value !in after.byIp
      && !DeviceKeys(c, after)
  {
    hide DeviceHash;
    FirstSaveIsRight(c, a);
    SaveRightIff(c, DeviceSaved(c, NO_DEVICES, 0, a), 1, b);
    var after := DeviceSaved(c, TwoSaved(c, a, b), 1, moved);
    assert 0 in after.devices && !DeviceOk(c, after, 0);
  }

  const NO_GATEWAYS := GatewaySide(map[], map[], map[], map[], {})

  ghost function TwoGatewaysSaved(devices: map<nat, Device>, a: Gateway, b: Gateway): GatewaySide {
    GatewaySaved(GatewaySaved(NO_GATEWAYS, devices, 0, a), devices, 1, b)
  }

  lemma FirstGatewayIsRight(devices: map<nat, Device>, a: Gateway)
    ensures GatewayKeys(GatewaySaved(NO_GATEWAYS, devices, 0, a), devices)
  {
    GatewaySaveRightIff(NO_GATEWAYS, devices, 0, a);
  }

  /** Public addresses are as free: the second of two gateways on one overwrites the first's records. */
  lemma SharedPublicAddressBreaksSpool(devices: map<nat, Device>, a: Gateway, b: Gateway)
    requires Address(a.publicIp).Some? && Address(b.publicIp) == Address(a.publicIp) && Site(a) != Site(b)
    ensures GatewayKeys(GatewaySaved(NO_GATEWAYS, devices, 0, a), devices)
    ensures !GatewayKeys(TwoGatewaysSaved(devices, a, b), devices)
  {
    hide Site, Nat;
    FirstGatewayIsRight(devices, a);
    GatewaySaveRightIff(GatewaySaved(NO_GATEWAYS, devices, 0, a), devices, 1, b);
    assert GatewaySaved(NO_GATEWAYS, devices, 0, a).gateways[0] == a;
  }

  /** Even one alike in all but the pre-shared key, which it does not have, takes the first's key. */
  lemma KeylessTwinTakesKey(devices: map<nat, Device>, a: Gateway, b: Gateway)
    requires Address(a.publicIp).Some? && Address(b.publicIp) == Address(a.publicIp) && Site(b) == Site(a)
    requires Nat(b, 1, devices) == Nat(a, 0, devices) && Present(a.psk) && !Present(b.psk)
    ensures var both := TwoGatewaysSaved(devices, a, b);
      && 0 in both.saved && both.gateways[0] == a && Address(a.publicIp).value !in both.psk
      && !GatewayKeys(both, devices)
  {
    hide Site, Nat;
    var both := TwoGatewaysSaved(devices, a, b);
    assert 0 in both.gateways && !GatewayOk(both, devices, 0);
  }

  // ---- The portal ----

  class Portal {
    const catalog: Catalog
    var devices: map<nat, Device>
    var gateways: map<nat, Gateway>
    var byIp: map<string, Hash>
    var psk: map<string, string>
    var site: map<string, SiteRecord>
    var nats: map<string, NatRecord>
    ghost var savedDevices: set<nat>
    ghost var savedGateways: set<nat>

    constructor (catalog: Catalog, devices: map<nat, Device>, gateways: map<nat, Gateway>)
      ensures View() == State(catalog, DeviceSide(devices, map[], {}), GatewaySide(gateways, map[], map[], map[], {}))
    {
      this.catalog, this.devices, this.gateways := catalog, devices, gateways;
      byIp, psk, site, nats := map[], map[], map[], map[];
      savedDevices, savedGateways := {}, {};
    }

    ghost function View(): State
      reads this
    {
      State(catalog, DeviceView(), GatewayView())
    }

    ghost function DeviceView(): DeviceSide
      reads this
    {
      DeviceSide(devices, byIp, savedDevices)
    }

    ghost function GatewayView(): GatewaySide
      reads this
    {
      GatewaySide(gateways, psk, site, nats, savedGateways)
    }

    /** `spoolDevice`: deletes and rewrites the device's key. */
    method WriteDevice(id: nat) returns (ip: Option<string>, gateway: Option<nat>)
      modifies this`byIp, this`savedDevices
      ensures if id in devices
              then DeviceView() == SpoolDevice(catalog, old(DeviceView()), id)
                   && ip == Address(devices[id].ip) && gateway == devices[id].gateway
              else DeviceView() == old(DeviceView()) && ip.None? && gateway.None?
    {
      if id !in devices {
        return None, None;
      }
      savedDevices := savedDevices + {id};
      ip, gateway := Address(devices[id].ip), devices[id].gateway;
      if ip.Some? {
        var hash := BuildDeviceHash(catalog, devices[id]);
        hide DeviceHash;
        byIp := byIp - {ip.value};
        byIp := byIp[ip.value := hash];
        assert byIp == old(byIp)[ip.value := hash];
      }
    }

    method DeleteDeviceKey(ip: Option<string>)
      modifies this`byIp
      ensures DeviceView() == DropDevice(old(DeviceView()), ip)
    {
      if ip.Some? {
        byIp := byIp - {ip.value};
      }
    }

    /** `spoolGateway` */
    method WriteGateway(gid: nat) returns (ip: Option<string>)
      modifies this`psk, this`site, this`nats, this`savedGateways
      ensures GatewayView() == SpoolGateway(old(GatewayView()), devices, gid)
      ensures ip == if gid in gateways then Address(gateways[gid].publicIp) else None
    {
      hide Site, Nat, Address;
      if gid !in gateways {
        return None;
      }
      var row := gateways[gid];
      ip := Address(row.publicIp);
      if ip.None? {
        return;
      }
      var record := BuildNatRecord(row, gid, devices);
      psk := if Present(row.psk) then psk[ip.value := row.psk.value] else psk - {ip.value};
      site := site[ip.value := Site(row)];
      nats := nats[ip.value := record];
      savedGateways := savedGateways + {gid};
    }

    method DeleteGatewayKeys(ip: Option<string>)
      modifies this`psk, this`site, this`nats
      ensures GatewayView() == DropGateway(old(GatewayView()), ip)
    {
      if ip.Some? {
        psk, site, nats := psk - {ip.value}, site - {ip.value}, nats - {ip.value};
      }
    }

    /** `spoolDeviceOnSave` for a device that exists. */
    method OnDeviceSave(id: nat, prevIp: Option<string>, prevGateway: Option<nat>)
      requires id in devices
      modifies this`byIp, this`savedDevices, this`psk, this`site, this`nats, this`savedGateways
      ensures var spooled := SpoolDevice(catalog, old(DeviceView()), id);
        DeviceView() == if prevIp == Address(devices[id].ip) then spooled else DropDevice(spooled, prevIp)
      ensures var now := devices[id].gateway;
        GatewayView() == Respool(Respool(old(GatewayView()), devices, now), devices, if prevGateway == now then None else prevGateway)
    {
      var ip, now := WriteDevice(id);
      hide SpoolDevice, SpoolGateway, Address;
      if prevIp != ip {
        DeleteDeviceKey(prevIp);
      }
      if now.Some? {
        var _ := WriteGateway(now.value);
      }
      if prevGateway != now && prevGateway.Some? {
        var _ := WriteGateway(prevGateway.value);
      }
    }

    method OnGatewaySave(id: nat, prev: Option<string>)
      requires id in gateways
      modifies this`psk, this`site, this`nats, this`savedGateways
      ensures var spooled := SpoolGateway(old(GatewayView()), devices, id);
        GatewayView() == if prev == Address(gateways[id].publicIp) then spooled else DropGateway(spooled, prev)
    {
      var ip := WriteGateway(id);
      hide SpoolGateway, Address;
      if prev != ip {
        DeleteGatewayKeys(prev);
      }
    }

    /** The address and gateway before the write are kept for the spool. */
    method WriteRow(id: nat, row: Device)
      modifies this
      ensures View() == SaveDevice(old(View()), id, row)
    {
      var prevIp, prevGateway := PrevAddress(devices, id), PrevGateway(devices, id);
      hide SpoolDevice, Respool, Address, PrevAddress, PrevGateway;
      devices := devices[id := row];
      OnDeviceSave(id, prevIp, prevGateway);
    }

    /** Saving through a foreign key that does not exist fails in the database and changes nothing. */
    method UpdateDevice(id: nat, f: DeviceForm) returns (ok: bool)
      modifies this
      ensures View() == Next(old(View()), Event.UpdateDevice(id, f))
      ensures ok <==> id !in old(devices) || KnownGateway(old(View()), f.gateway)
    {
      hide DeviceSaved, BothRespooled, DeviceRow;
      ok := id !in devices || (f.gateway.Some? ==> f.gateway.value in gateways);
      if ok && id in devices {
        WriteRow(id, DeviceRow(catalog, f, devices[id].customer));
      }
    }

    method CreateDevice(id: nat, f: DeviceForm) returns (ok: bool)
      requires Enabled(View(), Event.CreateDevice(id, f))
      modifies this
      ensures View() == Next(old(View()), Event.CreateDevice(id, f))
      ensures ok <==> KnownGateway(old(View()), f.gateway)
    {
      hide DeviceSaved, BothRespooled, DeviceRow;
      ok := f.gateway.Some? ==> f.gateway.value in gateways;
      if ok {
        WriteRow(id, DeviceRow(catalog, f, None));
      }
    }

    /** `grants` is how many single-system grants name the device. */
    method DeleteDevice(id: nat, grants: nat) returns (ok: bool)
      modifies this
      ensures View() == Next(old(View()), Event.DeleteDevice(id, grants))
      ensures ok <==> grants == 0
    {
      hide SpoolDevice, SpoolGateway, Address;
      ok := grants == 0;
      if ok && id in devices {
        var prev := devices[id];
        devices, savedDevices := devices - {id}, savedDevices - {id};
        DeleteDeviceKey(Address(prev.ip));
        if prev.gateway.Some? {
          var _ := WriteGateway(prev.gateway.value);
        }
      }
    }

    method UpdateGateway(id: nat, f: GatewayForm) returns (ok: bool)
      modifies this
      ensures View() == Next(old(View()), Event.UpdateGateway(id, f))
      ensures ok <==> Accepted(f)
    {
      hide SpoolDevice, SpoolGateway, Address, OrNull;
      ok := Accepted(f);
      if ok && id in gateways {
        var prev := Address(gateways[id].publicIp);
        gateways := gateways[id := GatewayRow(f)];
        OnGatewaySave(id, prev);
      }
    }

    method CreateGateway(id: nat, f: GatewayForm) returns (ok: bool)
      requires Enabled(View(), Event.CreateGateway(id, f))
      modifies this
      ensures View() == Next(old(View()), Event.CreateGateway(id, f))
      ensures ok <==> Accepted(f)
    {
      hide SpoolDevice, SpoolGateway, Address, OrNull;
      ok := Accepted(f);
      if ok {
        gateways := gateways[id := GatewayRow(f)];
        OnGatewaySave(id, None);
      }
    }

    /** Refused while devices are attached. */
    method DeleteGateway(id: nat) returns (ok: bool)
      modifies this
      ensures View() == Next(old(View()), Event.DeleteGateway(id))
      ensures ok <==> Attached(old(devices), id) == {}
    {
      hide SpoolDevice, SpoolGateway, Address;
      ok := Attached(devices, id) == {};
      if ok && id in gateways {
        var prev := Address(gateways[id].publicIp);
        gateways, savedGateways := gateways - {id}, savedGateways - {id};
        DeleteGatewayKeys(prev);
      }
    }
  }
}
