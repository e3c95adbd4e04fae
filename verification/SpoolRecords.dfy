/** The records the portal spools for devices and gateways, as functions of their database rows. */
module SpoolRecords {
  import opened Wrappers
  import opened Text

  /** The columns of `device` that the spool reads. */
  datatype Device = Device(
    ip: Option<string>,
    ipReal: Option<string>,
    gateway: Option<nat>,
    serial: Option<string>,
    country: Option<string>,
    internalUse: Option<string>,
    dpa: bool,
    dmy: bool,
    productPath: Option<string>,
    customer: Option<nat>)

  /** Tables the spool joins but none of the six actions changes. */
  datatype Catalog = Catalog(
    partno: map<string, string>,
    modality: map<string, string>,
    product: map<string, string>,
    iso: map<string, string>,
    variant: map<nat, string>)

  function Lookup<K>(m: map<K, string>, k: Option<K>): Option<string> {
    if k.Some? && k.value in m then Some(m[k.value]) else None
  }

  /** JavaScript truthiness of a nullable string. */
  predicate Present(v: Option<string>) {
    v.Some? && v.value != ""
  }

  /** `null` and the empty string alike mean: no address, no key. */
  function Address(v: Option<string>): (a: Option<string>)
    ensures a.Some? ==> a == v && a.value != ""
  {
    if Present(v) then v else None
  }

  /** Sets the fields in turn, leaving out absent and empty values. */
  function Puts(h: map<string, string>, fields: seq<(string, Option<string>)>): map<string, string> {
    if fields == [] then h
    else
      var (k, v) := fields[|fields| - 1];
      var before := Puts(h, fields[..|fields| - 1]);
      if Present(v) then before[k := v.value] else before
  }

  lemma {:induction false} PutsNoBlanks(h: map<string, string>, fields: seq<(string, Option<string>)>)
    requires forall k | k in h :: h[k] != ""
    ensures forall k | k in Puts(h, fields) :: Puts(h, fields)[k] != ""
  {
    if fields != [] {
      PutsNoBlanks(h, fields[..|fields| - 1]);
    }
  }

  function Contracts(d: Device): seq<string> {
    (if Present(d.internalUse) then [d.internalUse.value] else [])
    + (if d.dpa then ["DPA"] else []) + (if d.dmy then ["DMY"] else [])
  }

  function Dtm(c: Catalog, d: Device): string {
    var v := Lookup(c.variant, d.customer);
    if Present(v) then v.value else "STD"
  }

  function DeviceFields(c: Catalog, d: Device): seq<(string, Option<string>)> {
    [("modality", Lookup(c.modality, d.productPath)),
     ("product", Lookup(c.product, d.productPath)),
     ("partno", Lookup(c.partno, d.productPath)),
     ("serial", d.serial),
     ("country", d.country),
     ("dtm", Some(Dtm(c, d)))]
  }

  /** `buildDeviceHash` on the joined row of a device. */
  function DeviceHash(c: Catalog, d: Device): map<string, string> {
    var h := Puts(map[], DeviceFields(c, d));
    if Contracts(d) == [] then h else h["contracts" := Join(Contracts(d), ',')]
  }

  // ---- What the hash says, key by key ----

  /** The key is there exactly when the column is not empty, and then holds it. */
  predicate Carries(h: map<string, string>, key: string, column: Option<string>) {
    if column.Some? && column.value != "" then key in h && h[key] == column.value else key !in h
  }

  /** A column of a joined table. */
  function Joined<K>(table: map<K, string>, key: Option<K>): Option<string> {
    match key
    case Some(k) => if k in table then Some(table[k]) else None
    case None => None
  }

  /** Internal use, then DPA, then DMY. */
  predicate ContractsRead(h: map<string, string>, internalUse: Option<string>, dpa: bool, dmy: bool) {
    var use := if internalUse.Some? then internalUse.value else "";
    Carries(h, "contracts", Some(
      if use == "" then
        if dpa && dmy then "DPA,DMY" else if dpa then "DPA" else if dmy then "DMY" else ""
      else
        use + if dpa && dmy then ",DPA,DMY" else if dpa then ",DPA" else if dmy then ",DMY" else ""))
  }

  predicate Columns(h: map<string, string>, c: Catalog, d: Device) {
    && Carries(h, "serial", d.serial) && Carries(h, "country", d.country)
    && Carries(h, "modality", Joined(c.modality, d.productPath)) && Carries(h, "product", Joined(c.product, d.productPath))
    && Carries(h, "partno", Joined(c.partno, d.productPath))
    && var variant := Joined(c.variant, d.customer);
       Carries(h, "dtm", if variant.Some? && variant.value != "" then variant else Some("STD"))
  }

  /** Every column under its own key, and no other key. */
  predicate Describes(h: map<string, string>, c: Catalog, d: Device) {
    && Columns(h, c, d)
    && ContractsRead(h, d.internalUse, d.dpa, d.dmy)
    && h.Keys <= {"serial", "country", "modality", "product", "partno", "dtm", "contracts"}
  }

  lemma {:induction false} PutsCarry(fields: seq<(string, Option<string>)>, i: nat)
    requires i < |fields| && forall j, k | 0 <= j < k < |fields| :: fields[j].0 != fields[k].0
    ensures Carries(Puts(map[], fields), fields[i].0, fields[i].1)
  {
    var n := |fields| - 1;
    if i < n {
      PutsCarry(fields[..n], i);
    } else {
      PutsKeys(map[], fields[..n]);
    }
  }

  lemma JoinFew(a: string, b: string, c: string)
    ensures Join([a], ',') == a && Join([a, b], ',') == a + ([','] + b)
    ensures Join([a, b, c], ',') == a + ([','] + (b + ([','] + c)))
  {
    assert [a, b][1..] == [b] && [a, b, c][1..] == [b, c] && [b, c][1..] == [c];
    assert Join([b], ',') == b && Join([c], ',') == c;
    assert Join([b, c], ',') == b + ([','] + c);
  }

  lemma ContractsAre(d: Device)
    ensures var use := if Present(d.internalUse) then d.internalUse.value else "";
      Contracts(d) == if use == "" then
        if d.dpa && d.dmy then ["DPA", "DMY"] else if d.dpa then ["DPA"] else if d.dmy then ["DMY"] else []
      else
        if d.dpa && d.dmy then [use, "DPA", "DMY"] else if d.dpa then [use, "DPA"] else if d.dmy then [use, "DMY"] else [use]
  {}

  lemma ContractsSpelled(d: Device)
    ensures ContractsRead(if Contracts(d) == [] then map[] else map["contracts" := Join(Contracts(d), ',')], d.internalUse, d.dpa, d.dmy)
  {
    var use := if Present(d.internalUse) then d.internalUse.value else "";
    ContractsAre(d);
    JoinFew(use, "DPA", "DMY");
    JoinFew("DPA", "DMY", "");
    JoinFew("DMY", "", "");
    JoinFew(use, "DMY", "");
    Commas(use);
    hide Join, Contracts;
  }

  lemma Commas(use: string)
    ensures "DPA" + ([','] + "DMY") == "DPA,DMY"
    ensures use + ([','] + "DPA") == use + ",DPA" && use + ([','] + "DMY") == use + ",DMY"
    ensures use + ([','] + ("DPA" + ([','] + "DMY"))) == use + ",DPA,DMY"
  {}

  lemma FieldsNamed(c: Catalog, d: Device)
    ensures var f := DeviceFields(c, d);
      && |f| == 6 && (forall j, k | 0 <= j < k < 6 :: f[j].0 != f[k].0)
      && f[0].0 == "modality" && f[1].0 == "product" && f[2].0 == "partno" && f[3].0 == "serial"
      && f[4].0 == "country" && f[5].0 == "dtm" && forall j | 0 <= j < 6 :: f[j].0 != "contracts"
  {}

  lemma FieldsHold(c: Catalog, d: Device)
    ensures var f := DeviceFields(c, d);
      && |f| == 6 && f[0].1 == Joined(c.modality, d.productPath) && f[1].1 == Joined(c.product, d.productPath)
      && f[2].1 == Joined(c.partno, d.productPath) && f[3].1 == d.serial && f[4].1 == d.country
      && var variant := Joined(c.variant, d.customer);
         f[5].1 == if variant.Some? && variant.value != "" then variant else Some("STD")
  {}

  lemma ContractsApart(h: map<string, string>, text: string, key: string, column: Option<string>)
    requires key != "contracts"
    ensures Carries(h["contracts" := text], key, column) <==> Carries(h, key, column)
  {}

  lemma PutsColumns(c: Catalog, d: Device)
    ensures var h := Puts(map[], DeviceFields(c, d));
      Columns(h, c, d) && h.Keys <= {"serial", "country", "modality", "product", "partno", "dtm"}
  {
    var f := DeviceFields(c, d);
    FieldsNamed(c, d);
    FieldsHold(c, d);
    hide DeviceFields, Puts, Carries, Joined;
    forall i: nat | i < 6
      ensures Carries(Puts(map[], f), f[i].0, f[i].1)
    {
      PutsCarry(f, i);
    }
    PutsKeys(map[], f);
  }

  lemma HashDescribes(c: Catalog, d: Device)
    ensures Describes(DeviceHash(c, d), c, d)
  {
    var h := Puts(map[], DeviceFields(c, d));
    var text := Join(Contracts(d), ',');
    PutsColumns(c, d);
    ContractsSpelled(d);
    forall key, column | key != "contracts"
      ensures Carries(h["contracts" := text], key, column) <==> Carries(h, key, column)
    {
      ContractsApart(h, text, key, column);
    }
    assert "contracts" !in h;
    var full := DeviceHash(c, d);
    assert ContractsRead(full, d.internalUse, d.dpa, d.dmy) by { hide Puts, DeviceFields, Contracts, Join, Columns, Joined; }
    hide Puts, Contracts, Join, DeviceFields, Carries, Joined, ContractsRead;
  }

  /** The statements of `buildDeviceHash`: `put` for each field, the contracts collected apart. */
  method BuildDeviceHash(c: Catalog, d: Device) returns (hash: map<string, string>)
    ensures hash == DeviceHash(c, d) && Describes(hash, c, d)
  {
    HashDescribes(c, d);
    hide Describes;
    var contracts: seq<string> := [];
    if Present(d.internalUse) { contracts := contracts + [d.internalUse.value]; }
    if d.dpa { contracts := contracts + ["DPA"]; }
    if d.dmy { contracts := contracts + ["DMY"]; }
    assert contracts == Contracts(d);
    hide Contracts, Join;
    hash := map[];
    var fields := DeviceFields(c, d);
    for i := 0 to |fields|
      invariant hash == Puts(map[], fields[..i])
    {
      assert fields[..i + 1][..i] == fields[..i];
      if Present(fields[i].1) {
        hash := hash[fields[i].0 := fields[i].1.value];
      }
    }
    assert fields[..|fields|] == fields;
    if contracts != [] {
      hash := hash["contracts" := Join(contracts, ',')];
    }
  }

  /** The hash always names a transfer matrix, so it is never empty and is always written; no field is blank. */
  lemma DeviceHashNeverEmpty(c: Catalog, d: Device)
    ensures var h := DeviceHash(c, d);
      && "dtm" in h && h["dtm"] == Dtm(c, d)
      && ("contracts" in h <==> Present(d.internalUse) || d.dpa || d.dmy)
      && forall k | k in h && k != "contracts" :: h[k] != ""
  {
    var fields := DeviceFields(c, d);
    PutsNoBlanks(map[], fields);
    PutsKeys(map[], fields);
    assert fields[..5] + [fields[5]] == fields;
    assert Puts(map[], fields) == Puts(map[], fields[..5])["dtm" := Dtm(c, d)];
    assert "contracts" !in Puts(map[], fields);
  }

  lemma {:induction false} PutsKeys(h: map<string, string>, fields: seq<(string, Option<string>)>)
    ensures forall k | k in Puts(h, fields) && k !in h :: exists i | 0 <= i < |fields| :: fields[i].0 == k
  {
    if fields != [] {
      var n := |fields| - 1;
      PutsKeys(h, fields[..n]);
      forall k | k in Puts(h, fields) && k !in h
        ensures exists i | 0 <= i < |fields| :: fields[i].0 == k
      {
        if k in Puts(h, fields[..n]) {
          var i :| 0 <= i < n && fields[..n][i].0 == k;
          assert fields[i].0 == k;
        } else {
          assert fields[n].0 == k;
        }
      }
    }
  }

  // ---- Gateways ----

  /** The stored crypto settings; `None` is an absent field, an empty list an explicitly empty one. */
  datatype Ipsec = Ipsec(
    ikeVersion: Option<int>,
    staticIp: Option<bool>,
    ikeIdentity: Option<string>,
    dyndnsPassword: Option<string>,
    ikeEnc: Option<seq<string>>,
    ikeAuth: Option<seq<string>>,
    ikeDh: Option<seq<int>>,
    espEnc: Option<seq<string>>,
    espAuth: Option<seq<string>>,
    espPfs: Option<seq<int>>,
    remoteTs: Option<seq<string>>,
    localTs: Option<seq<string>>)

  const NO_IPSEC := Ipsec(None, None, None, None, None, None, None, None, None, None, None, None)

  datatype Gateway = Gateway(
    publicIp: Option<string>,
    psk: Option<string>,
    ipsec: Option<Ipsec>,
    backendNat: bool,
    accessIp: Option<string>,
    sdIp: Option<string>,
    emIp: Option<string>)

  datatype SiteRecord = SiteRecord(
    ikeVersion: int,
    staticIp: bool,
    backendNat: bool,
    ikeIdentity: Option<string>,
    dyndnsPassword: Option<string>,
    ikeEnc: Option<seq<string>>,
    ikeAuth: Option<seq<string>>,
    ikeDh: Option<seq<int>>,
    espEnc: Option<seq<string>>,
    espAuth: Option<seq<string>>,
    espPfs: Option<seq<int>>,
    remoteTs: Option<seq<string>>,
    localTs: Option<seq<string>>)

  function NonBlank(s: seq<string>): seq<string> {
    if s == [] then [] else (if s[0] != "" then [s[0]] else []) + NonBlank(s[1..])
  }

  function Emit<T(==)>(s: seq<T>): Option<seq<T>> {
    if s == [] then None else Some(s)
  }

  /** Absent: the editor's default; present, even empty: as stored. */
  function Strings(stored: Option<seq<string>>, usual: seq<string>): Option<seq<string>> {
    Emit(if stored.None? then usual else NonBlank(stored.value))
  }

  function Numbers(stored: Option<seq<int>>, usual: seq<int>): Option<seq<int>> {
    Emit(GetOr(stored, usual))
  }

  /** `buildSiteRecord` */
  function Site(gw: Gateway): SiteRecord {
    var s := GetOr(gw.ipsec, NO_IPSEC);
    var fixed := GetOr(s.staticIp, true);
    var identity := Trim(GetOr(s.ikeIdentity, ""), JavaScript);
    SiteRecord(
      if s.ikeVersion == Some(1) then 1 else 2,
      fixed,
      gw.backendNat,
      if identity == "" then None else Some(identity),
      if !fixed then Address(s.dyndnsPassword) else None,
      Strings(s.ikeEnc, ["aes256"]),
      Strings(s.ikeAuth, ["sha256"]),
      Numbers(s.ikeDh, [14]),
      Strings(s.espEnc, ["aes256gcm"]),
      Strings(s.espAuth, ["none"]),
      Numbers(s.espPfs, [14]),
      Strings(s.remoteTs, []),
      Strings(s.localTs, []))
  }

  lemma {:induction false} NonBlankEmpty(s: seq<string>)
    ensures NonBlank(s) == [] <==> forall i | 0 <= i < |s| :: s[i] == ""
  {
    if s != [] {
      NonBlankEmpty(s[1..]);
      assert forall i | 1 <= i < |s| :: s[i] == s[1..][i - 1];
    }
  }

  /** The crypto set is explicit: a field is left out only when it was stored with nothing in it. */
  lemma CryptoIsExplicit(gw: Gateway)
    ensures var s, r := GetOr(gw.ipsec, NO_IPSEC), Site(gw);
      && (r.ikeEnc.None? <==> s.ikeEnc.Some? && forall i | 0 <= i < |s.ikeEnc.value| :: s.ikeEnc.value[i] == "")
      && (r.ikeAuth.None? <==> s.ikeAuth.Some? && forall i | 0 <= i < |s.ikeAuth.value| :: s.ikeAuth.value[i] == "")
      && (r.espEnc.None? <==> s.espEnc.Some? && forall i | 0 <= i < |s.espEnc.value| :: s.espEnc.value[i] == "")
      && (r.espAuth.None? <==> s.espAuth.Some? && forall i | 0 <= i < |s.espAuth.value| :: s.espAuth.value[i] == "")
      && (r.ikeDh.None? <==> s.ikeDh == Some([])) && (r.espPfs.None? <==> s.espPfs == Some([]))
      && (r.dyndnsPassword.Some? ==> !r.staticIp)
  {
    hide Trim, NonBlank;
    var s := GetOr(gw.ipsec, NO_IPSEC);
    NonBlankEmpty(GetOr(s.ikeEnc, []));
    NonBlankEmpty(GetOr(s.ikeAuth, []));
    NonBlankEmpty(GetOr(s.espEnc, []));
    NonBlankEmpty(GetOr(s.espAuth, []));
  }

  /** A stored list without its blanks, in its order; the default only when nothing was stored; nothing for an empty list. */
  predicate Kept(stored: Option<seq<string>>, usual: seq<string>, out: Option<seq<string>>) {
    match stored
    case None => out == if usual == [] then None else Some(usual)
    case Some(s) =>
      (if (forall i | 0 <= i < |s| :: s[i] == "") then out == None else out == Some(NonBlank(s)))
  }

  /** `NonBlank` goes element by element. */
  lemma {:induction false} NonBlankMeans(a: seq<string>, b: seq<string>, x: string)
    ensures NonBlank(a + b) == NonBlank(a) + NonBlank(b)
    ensures NonBlank([]) == [] && NonBlank([x]) == if x == "" then [] else [x]
  {
    assert [x][1..] == [];
    if a == [] {
      assert a + b == b;
    } else {
      NonBlankMeans(a[1..], b, x);
      assert (a + b)[0] == a[0] && (a + b)[1..] == a[1..] + b;
    }
  }

  predicate KeptNumbers(stored: Option<seq<int>>, usual: seq<int>, out: Option<seq<int>>) {
    var s := if stored.Some? then stored.value else usual;
    out == if s == [] then None else Some(s)
  }

  /** Field by field, what the record takes from the stored settings and what it fills in. */
  lemma SiteMeans(gw: Gateway)
    ensures var r, s := Site(gw), if gw.ipsec.Some? then gw.ipsec.value else NO_IPSEC;
      && (r.ikeVersion == 1 || r.ikeVersion == 2) && (r.ikeVersion == 1 <==> s.ikeVersion == Some(1))
      && (r.staticIp <==> s.staticIp != Some(false)) && r.backendNat == gw.backendNat
      && (r.dyndnsPassword == if r.staticIp || s.dyndnsPassword == Some("") then None else s.dyndnsPassword)
      && Kept(s.ikeEnc, ["aes256"], r.ikeEnc) && Kept(s.ikeAuth, ["sha256"], r.ikeAuth) && KeptNumbers(s.ikeDh, [14], r.ikeDh)
      && Kept(s.espEnc, ["aes256gcm"], r.espEnc) && Kept(s.espAuth, ["none"], r.espAuth) && KeptNumbers(s.espPfs, [14], r.espPfs)
      && Kept(s.remoteTs, [], r.remoteTs) && Kept(s.localTs, [], r.localTs)
  {
    hide Trim;
    var s := GetOr(gw.ipsec, NO_IPSEC);
    StringsKept(s.ikeEnc, ["aes256"]);
    StringsKept(s.ikeAuth, ["sha256"]);
    StringsKept(s.espEnc, ["aes256gcm"]);
    StringsKept(s.espAuth, ["none"]);
    StringsKept(s.remoteTs, []);
    StringsKept(s.localTs, []);
    hide Strings, Kept, NonBlank;
  }

  lemma StringsKept(stored: Option<seq<string>>, usual: seq<string>)
    ensures Kept(stored, usual, Strings(stored, usual))
  {
    if stored.Some? {
      NonBlankEmpty(stored.value);
      hide NonBlank;
    }
  }

  /** The identity is what is between the white space around it, if there is anything. */
  lemma IdentityMeans(gw: Gateway, before: string, identity: string, after: string)
    requires gw.ipsec.Some? && gw.ipsec.value.ikeIdentity == Some(before + (identity + after))
    requires AllSpaces(before, JavaScript) && AllSpaces(after, JavaScript)
    requires identity != "" ==> !Space(JavaScript, identity[0]) && !Space(JavaScript, identity[|identity| - 1])
    ensures Site(gw).ikeIdentity == if identity == "" then None else Some(identity)
  {
    TrimPadded(before, identity, after, JavaScript);
    hide Trim, Strings, Numbers;
  }

  datatype NatEntry = NatEntry(internalIp: string, globalIp: string)

  datatype Backend = Backend(access: Option<string>, sd: Option<string>, em: Option<string>)

  /** The order of the entries is the database's and is not kept. */
  datatype NatRecord = NatRecord(backendNat: bool, deviceNat: multiset<NatEntry>, backend: Option<Backend>)

  /** A device without an address is passed over. */
  function Entry(backendNat: bool, d: Device): Option<NatEntry> {
    var globalIp := Trim(GetOr(d.ip, ""), JavaScript);
    var inner := Trim(GetOr(d.ipReal, ""), JavaScript);
    if globalIp == "" then None
    else Some(NatEntry(if backendNat && inner != "" then inner else globalIp, globalIp))
  }

  function BackendOf(gw: Gateway): Option<Backend> {
    var b := Backend(Address(gw.accessIp), Address(gw.sdIp), Address(gw.emIp));
    if b == Backend(None, None, None) then None else Some(b)
  }

  /** `raw` is `text` with white space around it. */
  predicate Around(raw: Option<string>, before: string, text: string, after: string) {
    && (raw == Some(before + (text + after)) || (raw == None && before == text == after == ""))
    && AllSpaces(before, JavaScript) && AllSpaces(after, JavaScript)
    && (text != "" ==> !Space(JavaScript, text[0]) && !Space(JavaScript, text[|text| - 1]))
  }

  /**
   The address a device is reached at, without white space around it, and behind it the real one: its own
   under backend NAT if it has one, and the same one otherwise. Without an address there is no entry.
   */
  lemma EntryMeans(backendNat: bool, d: Device, b: string, address: string, a: string, b2: string, inner: string, a2: string)
    requires Around(d.ip, b, address, a) && Around(d.ipReal, b2, inner, a2)
    ensures var e := Entry(backendNat, d);
      && (e.Some? <==> address != "")
      && (e.Some? ==> e.value.globalIp == address && e.value.internalIp == if !backendNat || inner == "" then address else inner)
  {
    TrimPadded(b, address, a, JavaScript);
    TrimPadded(b2, inner, a2, JavaScript);
    assert "" + ("" + "") == "";
    hide Trim;
  }

  /** The three servers, each if it is set; no block when none is. */
  lemma BackendMeans(gw: Gateway)
    ensures var b := BackendOf(gw);
      && (b.None? <==> !Present(gw.accessIp) && !Present(gw.sdIp) && !Present(gw.emIp))
      && (b.Some? ==> && (b.value.access == if Present(gw.accessIp) then gw.accessIp else None)
                      && (b.value.sd == if Present(gw.sdIp) then gw.sdIp else None)
                      && (b.value.em == if Present(gw.emIp) then gw.emIp else None))
  {}

  /** An entry occurs as often as there are devices of this gateway it stands for. */
  lemma NatMeans(gw: Gateway, gid: nat, devices: map<nat, Device>, e: NatEntry)
    ensures var r := Nat(gw, gid, devices);
      && r.backendNat == gw.backendNat && r.backend == BackendOf(gw)
      && r.deviceNat[e] == |set id | id in devices && devices[id].gateway == Some(gid) && Entry(gw.backendNat, devices[id]) == Some(e)|
  {
    hide Entry;
    assert (set id | id in devices && devices[id].gateway == Some(gid) && Entry(gw.backendNat, devices[id]) == Some(e))
        == Having(gw.backendNat, devices, Attached(devices, gid), e);
  }

  function Having(backendNat: bool, devices: map<nat, Device>, ids: set<nat>, e: NatEntry): set<nat> {
    set id | id in ids && id in devices && Entry(backendNat, devices[id]) == Some(e)
  }

  /** How often an entry occurs is the number of devices it stands for. */
  ghost function Entries(backendNat: bool, devices: map<nat, Device>, ids: set<nat>): (m: multiset<NatEntry>)
    requires ids <= devices.Keys
    ensures forall e :: m[e] == |Having(backendNat, devices, ids, e)|
  {
    if ids == {} then
      assert forall e :: Having(backendNat, devices, ids, e) == {};
      multiset{}
    else
      var id :| id in ids;
      hide Having, EntryBag;
      EntriesOneMore(backendNat, devices, ids - {id}, id);
      assert ids - {id} + {id} == ids;
      Entries(backendNat, devices, ids - {id}) + EntryBag(backendNat, devices[id])
  }

  function EntryBag(backendNat: bool, d: Device): multiset<NatEntry> {
    match Entry(backendNat, d)
    case None => multiset{}
    case Some(e) => multiset{e}
  }

  lemma HavingOneMore(backendNat: bool, devices: map<nat, Device>, ids: set<nat>, id: nat, e: NatEntry)
    requires id in devices && id !in ids
    ensures |Having(backendNat, devices, ids + {id}, e)| ==
            |Having(backendNat, devices, ids, e)| + if Entry(backendNat, devices[id]) == Some(e) then 1 else 0
  {
    hide Entry;
    var rest := Having(backendNat, devices, ids, e);
    assert id !in rest;
    if Entry(backendNat, devices[id]) == Some(e) {
      assert Having(backendNat, devices, ids + {id}, e) == rest + {id};
    } else {
      assert Having(backendNat, devices, ids + {id}, e) == rest;
    }
  }

  lemma EntriesOneMore(backendNat: bool, devices: map<nat, Device>, ids: set<nat>, id: nat)
    requires id in devices && id !in ids
    ensures forall e :: |Having(backendNat, devices, ids + {id}, e)| ==
                        |Having(backendNat, devices, ids, e)| + EntryBag(backendNat, devices[id])[e]
  {
    forall e
      ensures |Having(backendNat, devices, ids + {id}, e)| ==
              |Having(backendNat, devices, ids, e)| + EntryBag(backendNat, devices[id])[e]
    {
      hide Entry, Having;
      HavingOneMore(backendNat, devices, ids, id, e);
    }
  }

  function Attached(devices: map<nat, Device>, gid: nat): set<nat> {
    set id | id in devices && devices[id].gateway == Some(gid)
  }

  /** `buildNatRecord` */
  ghost function Nat(gw: Gateway, gid: nat, devices: map<nat, Device>): NatRecord {
    NatRecord(gw.backendNat, Entries(gw.backendNat, devices, Attached(devices, gid)), BackendOf(gw))
  }

  /** The record depends on nothing but the gateway's row and its attached devices. */
  lemma NatDependsOnAttached(gw: Gateway, gid: nat, before: map<nat, Device>, after: map<nat, Device>)
    requires Attached(before, gid) == Attached(after, gid)
    requires forall id | id in Attached(before, gid) :: before[id] == after[id]
    ensures Nat(gw, gid, before) == Nat(gw, gid, after)
  {
    hide Entry;
    var ids := Attached(before, gid);
    forall e
      ensures Entries(gw.backendNat, before, ids)[e] == Entries(gw.backendNat, after, ids)[e]
    {
      assert Having(gw.backendNat, before, ids, e) == Having(gw.backendNat, after, ids, e);
    }
    assert Entries(gw.backendNat, before, ids) == Entries(gw.backendNat, after, ids);
  }

  /** The loop of `buildNatRecord` over the attached devices in any order. */
  method BuildNatRecord(gw: Gateway, gid: nat, devices: map<nat, Device>) returns (r: NatRecord)
    ensures r == Nat(gw, gid, devices)
  {
    hide Entry;
    var deviceNat: multiset<NatEntry> := multiset{};
    var left := set id | id in devices && devices[id].gateway == Some(gid);
    ghost var ids := Attached(devices, gid);
    assert forall e :: Having(gw.backendNat, devices, ids - left, e) == {};
    hide Having, EntryBag;
    while left != {}
      invariant left <= ids
      invariant forall e :: deviceNat[e] == |Having(gw.backendNat, devices, ids - left, e)|
      decreases |left|
    {
      var id :| id in left;
      EntriesOneMore(gw.backendNat, devices, ids - left, id);
      assert ids - left + {id} == ids - (left - {id});
      deviceNat := deviceNat + EntryBag(gw.backendNat, devices[id]);
      left := left - {id};
    }
    assert ids - {} == ids;
    assert deviceNat == Entries(gw.backendNat, devices, ids);
    r := NatRecord(gw.backendNat, deviceNat, BackendOf(gw));
  }
}
