/**
 * The configuration objects built for one row: a tree of managed objects
 * (kind, attributes, ordered children) under the policy universe, with
 * cross-references written as distinguished-name strings, and the four
 * subtrees handed to the controller as one commit.
 */
module Graph {
  import opened Wrappers
  import opened PyText
  import opened Rows
  import opened Settings

  /** The managed-object classes the script instantiates. */
  datatype Kind =
    | PolUni | Infra | VlanInstP | EncapBlk | PhysDomP | RsVlanNs
    | Tenant | Ctx | Ap | AEPg | RsDomAtt | BD | Subnet | RsCtx | RsBd
    | AttEntityP | Generic | RsFuncToEpg | RsDomP | FuncP

  /**
   * A managed object: constructing one with a parent appends it to that
   * parent's children, so `children` lists them in creation order.
   */
  datatype Mo = Mo(kind: Kind, attrs: map<string, string>, children: seq<Mo>)

  predicate Has(mo: Mo, key: string, value: string) {
    key in mo.attrs && mo.attrs[key] == value
  }

  // ------------------------------------------------- distinguished names

  function VlanPoolDn(pool: string): string {
    "uni/infra/vlanns-[" + pool + "]-static"
  }

  function DomainDn(domain: string): string {
    "uni/phys-" + domain
  }

  function EpgDn(tenant: string, ap: string, epg: string): string {
    "uni/tn-" + tenant + "/ap-" + ap + "/epg-" + epg
  }

  /**
   * The relative name of an object, for the classes whose naming the three
   * DN templates rely on: the universe, infra, a VLAN pool (named by its
   * name and allocation mode), a physical domain, a tenant, an application
   * profile and an EPG. Other classes are not addressed here.
   */
  function Rn(mo: Mo): Option<string> {
    match mo.kind
    case PolUni => Some("uni")
    case Infra => Some("infra")
    case VlanInstP =>
      if "name" in mo.attrs && "allocMode" in mo.attrs
      then Some("vlanns-[" + mo.attrs["name"] + "]-" + mo.attrs["allocMode"]) else None
    case PhysDomP => if "name" in mo.attrs then Some("phys-" + mo.attrs["name"]) else None
    case Tenant => if "name" in mo.attrs then Some("tn-" + mo.attrs["name"]) else None
    case Ap => if "name" in mo.attrs then Some("ap-" + mo.attrs["name"]) else None
    case AEPg => if "name" in mo.attrs then Some("epg-" + mo.attrs["name"]) else None
    case _ => None
  }

  /** The object reached from `mo` by following child indices. */
  function At(mo: Mo, path: seq<nat>): Option<Mo>
    decreases |path|
  {
    if path == [] then Some(mo)
    else if path[0] < |mo.children| then At(mo.children[path[0]], path[1..])
    else None
  }

  /** The `/`-prefixed relative names along `path` below `mo`. */
  function DnBelow(mo: Mo, path: seq<nat>): Option<string>
    decreases |path|
  {
    if path == [] then Some("")
    else if path[0] < |mo.children| then
      var c := mo.children[path[0]];
      match (Rn(c), DnBelow(c, path[1..]))
      case (Some(r), Some(rest)) => Some("/" + r + rest)
      case _ => None
    else None
  }

  /** The distinguished name of the object at `path` below the root `root`. */
  function DnOf(root: Mo, path: seq<nat>): Option<string> {
    match (Rn(root), DnBelow(root, path))
    case (Some(r), Some(rest)) => Some(r + rest)
    case _ => None
  }

  /** Some object of kind `kind` in the tree has the distinguished name `dn`. */
  ghost predicate Resolves(root: Mo, dn: string, kind: Kind) {
    exists path :: DnOf(root, path) == Some(dn) && At(root, path).Some? && At(root, path).value.kind == kind
  }

  // ------------------------------------------------------------ builders

  function EncapBlock(encap: string): Mo {
    Mo(EncapBlk, map["from" := encap, "to" := encap, "role" := "external", "allocMode" := "inherit"], [])
  }

  /** The static VLAN pool with its one-VLAN block. */
  function VlanPool(rec: Record): Mo {
    Mo(VlanInstP, map["name" := rec.vlanPool, "allocMode" := "static"], [EncapBlock(rec.encap)])
  }

  /** The physical domain, pointing at the VLAN pool by DN. */
  function Domain(rec: Record): Mo {
    Mo(PhysDomP, map["name" := rec.domain],
       [Mo(RsVlanNs, map["tDn" := VlanPoolDn(rec.vlanPool)], [])])
  }

  /** The EPG, attached to the domain by DN and to the bridge domain by name. */
  function Epg(rec: Record): Mo {
    Mo(AEPg, map["name" := rec.epg, "nameAlias" := rec.epgAlias],
       [Mo(RsDomAtt, map["tDn" := DomainDn(rec.domain)], []),
        Mo(RsBd, map["tnFvBDName" := rec.bd], [])])
  }

  function BdAttrs(rec: Record, flags: BdSettings, vmac: string): map<string, string> {
    map["name" := rec.bd, "vmac" := vmac, "limitIpLearnToSubnets" := "yes",
        "mcastAllow" := "no", "unkMcastAct" := "flood",
        "unkMacUcastAct" := flags.unkUcast, "arpFlood" := flags.arpFlood,
        "unicastRoute" := flags.unicastRoute, "multiDstPktAct" := "bd-flood",
        "type" := "regular", "ipLearning" := "yes", "nameAlias" := rec.bdAlias]
  }

  function GatewaySubnet(gw: string, virtual: string): Mo {
    Mo(Subnet, map["ip" := gw, "virtual" := virtual, "scope" := "public",
                   "preferred" := "yes", "ctrl" := ""], [])
  }

  /**
   * The bridge domain: a real virtual MAC is used as given and makes the
   * gateway subnet virtual; the sentinel "None" gives the MAC
   * "not-applicable" and a non-virtual subnet. A subnet exists only for a
   * gateway other than "None". The link to the VRF comes last.
   */
  function BridgeDomain(rec: Record, flags: BdSettings): Mo {
    var ctxRef := Mo(RsCtx, map["tnFvCtxName" := rec.vrf], []);
    if rec.bdVmac != NoneText then
      Mo(BD, BdAttrs(rec, flags, rec.bdVmac),
         (if rec.bdGw != NoneText then [GatewaySubnet(rec.bdGw, "yes")] else []) + [ctxRef])
    else
      Mo(BD, BdAttrs(rec, flags, "not-applicable"),
         (if rec.bdGw != NoneText then [GatewaySubnet(rec.bdGw, "no")] else []) + [ctxRef])
  }

  /** The tenant with its VRF, application profile (holding the EPG) and bridge domain. */
  function TenantTree(rec: Record, flags: BdSettings): Mo {
    Mo(Tenant, map["name" := rec.tenant],
       [Mo(Ctx, map["name" := rec.vrf], []),
        Mo(Ap, map["name" := rec.ap], [Epg(rec)]),
        BridgeDomain(rec, flags)])
  }

  /** One attachment-entity profile, linking the EPG and the domain for one AEP name. */
  function AepProfile(item: string, rec: Record): Mo {
    Mo(AttEntityP, map["ownerKey" := "", "name" := item, "desc" := "", "ownerTag" := "",
                       "nameAlias" := "", "annotation" := ""],
       [Mo(Generic, map["nameAlias" := "", "annotation" := "", "descr" := "", "name" := "default"],
           [Mo(RsFuncToEpg, map["tDn" := EpgDn(rec.tenant, rec.ap, rec.epg),
                                "primaryEncap" := "unknown", "instrImedcy" := "lazy",
                                "mode" := "regular", "encap" := rec.encap, "annotation" := ""], [])]),
        Mo(RsDomP, map["annotation" := "", "tDn" := DomainDn(rec.domain)], [])])
  }

  /** The function profile created under infra on every AEP iteration. */
  const FuncProfile := Mo(FuncP, map[], [])

  /** What the AEP loop appends to infra: a profile and a function profile per item. */
  function AepChildren(items: seq<string>, rec: Record): seq<Mo>
    decreases |items|
  {
    if items == [] then []
    else AepChildren(items[..|items| - 1], rec) + [AepProfile(items[|items| - 1], rec), FuncProfile]
  }

  /** Infra: the VLAN pool, then the AEP subtrees, one per comma-separated item. */
  function InfraTree(rec: Record): Mo {
    Mo(Infra, map[], [VlanPool(rec)] + AepChildren(Split(rec.aep, ','), rec))
  }

  /** The policy universe of one row: infra, the domain and the tenant. */
  function Universe(rec: Record, flags: BdSettings): Mo {
    Mo(PolUni, map[], [InfraTree(rec), Domain(rec), TenantTree(rec, flags)])
  }

  /** The objects of one commit, in the order they are added to the request. */
  type Batch = seq<Mo>

  function CommitBatch(rec: Record, flags: BdSettings): Batch {
    [TenantTree(rec, flags), VlanPool(rec), Domain(rec), InfraTree(rec)]
  }

  /** A row's commit, or the decoding error raised before anything is committed. */
  function BuildRow(rec: Record): Result<Batch, DecodeError> {
    match Decode(rec.bdSettings)
    case Err(e) => Err(e)
    case Ok(flags) => Ok(CommitBatch(rec, flags))
  }

  /** The AEP loop: infra gets its children appended one AEP item at a time. */
  method BuildInfra(rec: Record) returns (infra: Mo)
    ensures infra == InfraTree(rec)
  {
    var children := [VlanPool(rec)];
    var items := Split(rec.aep, ',');
    var i := 0;
    while i < |items|
      invariant 0 <= i <= |items|
      invariant children == [VlanPool(rec)] + AepChildren(items[..i], rec)
    {
      var aepItem := items[i];
      children := children + [AepProfile(aepItem, rec)];
      children := children + [FuncProfile];
      assert items[..i + 1][..i] == items[..i];
      i := i + 1;
    }
    assert items[..i] == items;
    infra := Mo(Infra, map[], children);
  }

  /** One row: decode the settings, build the trees, form the batch. */
  method DeployRow(rec: Record) returns (r: Result<Batch, DecodeError>)
    ensures r == BuildRow(rec)
  {
    var decoded := DecodeSettings(rec.bdSettings);
    if decoded.Err? {
      return Err(decoded.error);
    }
    var flags := decoded.value;
    var infra := BuildInfra(rec);
    r := Ok([TenantTree(rec, flags), VlanPool(rec), Domain(rec), infra]);
  }
}
