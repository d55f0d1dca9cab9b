/** What the trees built for a row are guaranteed to look like. */
module GraphFacts {
  import opened Wrappers
  import opened PyText
  import opened Rows
  import opened Settings
  import opened Graph

  // ------------------------------------------------- distinguished names

  /**
   * With names free of `/`, the EPG's DN has exactly the four path
   * components universe, tenant, application profile and EPG.
   */
  lemma EpgDnComponents(tenant: string, ap: string, epg: string)
    requires '/' !in tenant && '/' !in ap && '/' !in epg
    ensures Split(EpgDn(tenant, ap, epg), '/') == ["uni", "tn-" + tenant, "ap-" + ap, "epg-" + epg]
  {
    var ps := ["uni", "tn-" + tenant, "ap-" + ap, "epg-" + epg];
    EpgDnJoin(tenant, ap, epg);
    assert forall i :: 0 <= i < |ps| ==> '/' !in ps[i];
    JoinSplit(ps, '/');
  }

  lemma EpgDnJoin(tenant: string, ap: string, epg: string)
    ensures Join(["uni", "tn-" + tenant, "ap-" + ap, "epg-" + epg], '/') == EpgDn(tenant, ap, epg)
  {
    var ps := ["uni", "tn-" + tenant, "ap-" + ap, "epg-" + epg];
    assert Join(ps[3..], '/') == ps[3];
    assert Join(ps[2..], '/') == ps[2] + "/" + ps[3];
    assert Join(ps[1..], '/') == ps[1] + "/" + (ps[2] + "/" + ps[3]);
  }

  lemma DomainDnComponents(domain: string)
    requires '/' !in domain
    ensures Split(DomainDn(domain), '/') == ["uni", "phys-" + domain]
  {
    var ps := ["uni", "phys-" + domain];
    assert Join(ps[1..], '/') == ps[1];
    assert Join(ps, '/') == DomainDn(domain);
    JoinSplit(ps, '/');
  }

  lemma VlanPoolDnComponents(pool: string)
    requires '/' !in pool
    ensures Split(VlanPoolDn(pool), '/') == ["uni", "infra", "vlanns-[" + pool + "]-static"]
  {
    var ps := ["uni", "infra", "vlanns-[" + pool + "]-static"];
    assert Join(ps[2..], '/') == ps[2];
    assert Join(ps[1..], '/') == ps[1] + "/" + ps[2];
    assert Join(ps, '/') == VlanPoolDn(pool);
    JoinSplit(ps, '/');
  }

  /** Different tenant, profile or EPG names give different EPG DNs (names free of `/`). */
  lemma EpgDnInjective(t1: string, a1: string, e1: string, t2: string, a2: string, e2: string)
    requires '/' !in t1 && '/' !in a1 && '/' !in e1
    requires '/' !in t2 && '/' !in a2 && '/' !in e2
    requires EpgDn(t1, a1, e1) == EpgDn(t2, a2, e2)
    ensures t1 == t2 && a1 == a2 && e1 == e2
  {
    EpgDnComponents(t1, a1, e1);
    EpgDnComponents(t2, a2, e2);
    var p1 := ["uni", "tn-" + t1, "ap-" + a1, "epg-" + e1];
    var p2 := ["uni", "tn-" + t2, "ap-" + a2, "epg-" + e2];
    assert p1 == p2;
    assert t1 == p1[1][3..] && t2 == p2[1][3..];
    assert a1 == p1[2][3..] && a2 == p2[2][3..];
    assert e1 == p1[3][4..] && e2 == p2[3][4..];
  }

  /** One step down the tree adds `/` and the child's relative name to the DN. */
  lemma DnStep(mo: Mo, i: nat, rest: seq<nat>, r: string, d: string)
    requires i < |mo.children| && Rn(mo.children[i]) == Some(r)
    requires DnBelow(mo.children[i], rest) == Some(d)
    ensures DnBelow(mo, [i] + rest) == Some("/" + r + d)
    ensures At(mo, [i] + rest) == At(mo.children[i], rest)
  {
    assert ([i] + rest)[1..] == rest;
  }

  /** A VLAN pool as first child is addressed by its relative name below the parent. */
  lemma PoolFirstChild(parent: Mo, rec: Record)
    requires |parent.children| > 0 && parent.children[0] == VlanPool(rec)
    ensures DnBelow(parent, [0]) == Some("/" + ("vlanns-[" + rec.vlanPool + "]-static"))
    ensures At(parent, [0]) == Some(VlanPool(rec))
  {
    var poolRn := "vlanns-[" + rec.vlanPool + "]-static";
    var empty: seq<nat> := [];
    assert "vlanns-[" + rec.vlanPool + "]-" + "static" == poolRn;
    DnStep(parent, 0, empty, poolRn, "");
    assert [0] + empty == [0];
    assert "/" + poolRn + "" == "/" + poolRn;
  }

  lemma VlanPoolDnParts(pool: string)
    ensures VlanPoolDn(pool) == "uni" + ("/" + "infra" + ("/" + ("vlanns-[" + pool + "]-static")))
  {
    assert "uni/infra/vlanns-[" == "uni" + "/" + "infra" + "/" + "vlanns-[";
  }

  /** A universe whose first child is infra holding the pool first addresses the pool by its template. */
  lemma VlanPoolPath(u: Mo, infra: Mo, rec: Record)
    requires u.kind == PolUni && |u.children| > 0 && u.children[0] == infra
    requires infra.kind == Infra && |infra.children| > 0 && infra.children[0] == VlanPool(rec)
    ensures DnOf(u, [0, 0]) == Some(VlanPoolDn(rec.vlanPool)) && At(u, [0, 0]) == Some(VlanPool(rec))
  {
    var poolPart := "/" + ("vlanns-[" + rec.vlanPool + "]-static");
    PoolFirstChild(infra, rec);
    DnStep(u, 0, [0], "infra", poolPart);
    assert [0] + [0] == [0, 0];
    VlanPoolDnParts(rec.vlanPool);
  }

  /** The VLAN-pool template is the DN of the pool under infra. */
  lemma VlanPoolDnResolves(rec: Record, flags: BdSettings)
    ensures var u := Universe(rec, flags);
      DnOf(u, [0, 0]) == Some(VlanPoolDn(rec.vlanPool)) && At(u, [0, 0]) == Some(VlanPool(rec))
  {
    VlanPoolPath(Universe(rec, flags), InfraTree(rec), rec);
  }

  /** A universe whose second child is the domain addresses it by its template. */
  lemma DomainPath(u: Mo, rec: Record)
    requires u.kind == PolUni && |u.children| > 1 && u.children[1] == Domain(rec)
    ensures DnOf(u, [1]) == Some(DomainDn(rec.domain)) && At(u, [1]) == Some(Domain(rec))
  {
    var empty: seq<nat> := [];
    DnStep(u, 1, empty, "phys-" + rec.domain, "");
    assert [1] + empty == [1];
    assert "uni" + ("/" + ("phys-" + rec.domain) + "") == DomainDn(rec.domain);
  }

  /** The domain template is the DN of the physical domain. */
  lemma DomainDnResolves(rec: Record, flags: BdSettings)
    ensures var u := Universe(rec, flags);
      DnOf(u, [1]) == Some(DomainDn(rec.domain)) && At(u, [1]) == Some(Domain(rec))
  {
    DomainPath(Universe(rec, flags), rec);
  }

  /** Below a tenant holding the AP second, the EPG is reached through the AP and EPG names. */
  lemma ApEpgPath(tenant: Mo, ap: Mo, rec: Record)
    requires |tenant.children| > 1 && tenant.children[1] == ap
    requires Rn(ap) == Some("ap-" + rec.ap) && |ap.children| > 0 && ap.children[0] == Epg(rec)
    ensures DnBelow(tenant, [1, 0]) == Some("/" + ("ap-" + rec.ap) + ("/" + ("epg-" + rec.epg) + ""))
    ensures At(tenant, [1, 0]) == Some(Epg(rec))
  {
    var empty: seq<nat> := [];
    DnStep(ap, 0, empty, "epg-" + rec.epg, "");
    assert [0] + empty == [0];
    DnStep(tenant, 1, [0], "ap-" + rec.ap, "/" + ("epg-" + rec.epg) + "");
    assert [1] + [0] == [1, 0];
  }

  lemma EpgDnParts(tenant: string, ap: string, epg: string)
    ensures "uni" + ("/" + ("tn-" + tenant) + ("/" + ("ap-" + ap) + ("/" + ("epg-" + epg) + ""))) ==
            EpgDn(tenant, ap, epg)
  {
  }

  /** A universe holding tenant, AP and EPG at child positions 2, 1, 0 addresses the EPG by its template. */
  lemma EpgPath(u: Mo, tenant: Mo, ap: Mo, rec: Record)
    requires u.kind == PolUni && |u.children| > 2 && u.children[2] == tenant
    requires Rn(tenant) == Some("tn-" + rec.tenant) && |tenant.children| > 1 && tenant.children[1] == ap
    requires Rn(ap) == Some("ap-" + rec.ap) && |ap.children| > 0 && ap.children[0] == Epg(rec)
    ensures DnOf(u, [2, 1, 0]) == Some(EpgDn(rec.tenant, rec.ap, rec.epg)) && At(u, [2, 1, 0]) == Some(Epg(rec))
  {
    var apPart := "/" + ("ap-" + rec.ap) + ("/" + ("epg-" + rec.epg) + "");
    ApEpgPath(tenant, ap, rec);
    DnStep(u, 2, [1, 0], "tn-" + rec.tenant, apPart);
    assert [2] + [1, 0] == [2, 1, 0];
    EpgDnParts(rec.tenant, rec.ap, rec.epg);
  }

  /** The EPG template is the DN of the EPG under its application profile and tenant. */
  lemma EpgDnResolves(rec: Record, flags: BdSettings)
    ensures var u := Universe(rec, flags);
      DnOf(u, [2, 1, 0]) == Some(EpgDn(rec.tenant, rec.ap, rec.epg)) && At(u, [2, 1, 0]) == Some(Epg(rec))
  {
    EpgPath(Universe(rec, flags), TenantTree(rec, flags), Mo(Ap, map["name" := rec.ap], [Epg(rec)]), rec);
  }

  /**
   * Every distinguished-name reference the row makes points at an object
   * of the right class in the same row's tree: the domain's VLAN-pool link,
   * the EPG's domain attachment and each AEP's EPG and domain links.
   */
  lemma ReferencesResolve(rec: Record, flags: BdSettings)
    ensures var u := Universe(rec, flags);
      Resolves(u, VlanPoolDn(rec.vlanPool), VlanInstP) &&
      Resolves(u, DomainDn(rec.domain), PhysDomP) &&
      Resolves(u, EpgDn(rec.tenant, rec.ap, rec.epg), AEPg)
  {
    var u := Universe(rec, flags);
    VlanPoolDnResolves(rec, flags);
    ResolvedAt(u, [0, 0], VlanPoolDn(rec.vlanPool), VlanInstP);
    DomainDnResolves(rec, flags);
    ResolvedAt(u, [1], DomainDn(rec.domain), PhysDomP);
    EpgDnResolves(rec, flags);
    ResolvedAt(u, [2, 1, 0], EpgDn(rec.tenant, rec.ap, rec.epg), AEPg);
  }

  /** An object found at a path, with that DN and kind, makes the DN resolve. */
  lemma ResolvedAt(root: Mo, path: seq<nat>, dn: string, kind: Kind)
    requires DnOf(root, path) == Some(dn) && At(root, path).Some? && At(root, path).value.kind == kind
    ensures Resolves(root, dn, kind)
  {
  }

  // ---------------------------------------------------------- the batch

  /**
   * The commit holds the tenant, the VLAN pool, the domain and infra, in that
   * order: the three subtrees under the universe, and the pool, which is also
   * infra's first child.
   */
  lemma BatchIsUniverseRoots(rec: Record, flags: BdSettings)
    ensures var u := Universe(rec, flags); var b := CommitBatch(rec, flags);
      |b| == 4 && |u.children| == 3 &&
      b[0] == u.children[2] && b[1] == u.children[0].children[0] &&
      b[2] == u.children[1] && b[3] == u.children[0] &&
      b[0].kind == Tenant && b[1].kind == VlanInstP && b[2].kind == PhysDomP && b[3].kind == Infra
  {
  }

  /** A row whose settings decode is committed as exactly that batch; one that does not, never. */
  lemma BuildRowOutcome(rec: Record)
    ensures BuildRow(rec).Ok? <==> Decode(rec.bdSettings).Ok?
    ensures BuildRow(rec).Ok? ==> BuildRow(rec).value == CommitBatch(rec, Decode(rec.bdSettings).value)
    ensures BuildRow(rec).Err? ==> exists i :: 0 <= i < |Split(rec.bdSettings, '/')| && Malformed(Split(rec.bdSettings, '/')[i])
  {
    ApplyFails(Unset, Split(rec.bdSettings, '/'));
  }

  // ----------------------------------------------------- pool and domain

  /**
   * The VLAN pool is static and holds exactly one block, from and to the
   * row's encapsulation, external, inheriting the allocation mode; the
   * domain's VLAN-namespace link carries the pool's DN.
   */
  lemma PoolAndDomain(rec: Record)
    ensures var pool := VlanPool(rec);
      Has(pool, "name", rec.vlanPool) && Has(pool, "allocMode", "static") &&
      |pool.children| == 1 && pool.children[0].kind == EncapBlk &&
      Has(pool.children[0], "from", rec.encap) && Has(pool.children[0], "to", rec.encap) &&
      Has(pool.children[0], "role", "external") && Has(pool.children[0], "allocMode", "inherit")
    ensures var dom := Domain(rec);
      Has(dom, "name", rec.domain) && |dom.children| == 1 && dom.children[0].kind == RsVlanNs &&
      Has(dom.children[0], "tDn", VlanPoolDn(rec.vlanPool))
  {
  }

  // ------------------------------------------------------ tenant and BD

  /**
   * Inside the tenant the bridge domain refers to the VRF by name; the link
   * carries no DN.
   */
  lemma BridgeDomainRefersToVrf(rec: Record, flags: BdSettings)
    ensures var t := TenantTree(rec, flags);
      |t.children| == 3 && t.children[0].kind == Ctx && t.children[1].kind == Ap &&
      t.children[2].kind == BD && Has(t, "name", rec.tenant) && Has(t.children[0], "name", rec.vrf) &&
      var bd := t.children[2];
      var ctxRef := bd.children[|bd.children| - 1];
      ctxRef.kind == RsCtx && Has(ctxRef, "tnFvCtxName", t.children[0].attrs["name"]) &&
      "tDn" !in ctxRef.attrs
  {
  }

  /**
   * The application profile holds the EPG; the EPG is attached to the
   * physical domain by DN and refers to the bridge domain by name, without a DN.
   */
  lemma EpgLinks(rec: Record, flags: BdSettings)
    ensures var t := TenantTree(rec, flags);
      t.children[1].kind == Ap && Has(t.children[1], "name", rec.ap) &&
      |t.children[1].children| == 1 &&
      var epg := t.children[1].children[0];
      epg.kind == AEPg && Has(epg, "name", rec.epg) && Has(epg, "nameAlias", rec.epgAlias) &&
      |epg.children| == 2 &&
      epg.children[0].kind == RsDomAtt && Has(epg.children[0], "tDn", DomainDn(rec.domain)) &&
      epg.children[1].kind == RsBd && Has(epg.children[1], "tnFvBDName", t.children[2].attrs["name"]) &&
      "tDn" !in epg.children[1].attrs
  {
    var t := TenantTree(rec, flags);
    assert t.children[1] == Mo(Ap, map["name" := rec.ap], [Epg(rec)]);
    EpgShape(rec);
    BridgeDomainName(rec, flags);
  }

  /** The EPG's own attributes and its two links. */
  lemma EpgShape(rec: Record)
    ensures var epg := Epg(rec);
      epg.kind == AEPg && Has(epg, "name", rec.epg) && Has(epg, "nameAlias", rec.epgAlias) &&
      |epg.children| == 2 &&
      epg.children[0].kind == RsDomAtt && Has(epg.children[0], "tDn", DomainDn(rec.domain)) &&
      epg.children[1].kind == RsBd && Has(epg.children[1], "tnFvBDName", rec.bd) &&
      "tDn" !in epg.children[1].attrs
  {
  }

  /** The tenant's third child is the bridge domain, named after the row's bridge domain. */
  lemma BridgeDomainName(rec: Record, flags: BdSettings)
    ensures var t := TenantTree(rec, flags);
      |t.children| == 3 && t.children[2] == BridgeDomain(rec, flags) && Has(t.children[2], "name", rec.bd)
  {
    BridgeDomainShape(rec, flags);
    BdAttrsHas(rec, flags, if rec.bdVmac == NoneText then "not-applicable" else rec.bdVmac);
  }

  /** The subnets among a bridge domain's children. */
  function Subnets(children: seq<Mo>): seq<Mo>
    decreases |children|
  {
    if children == [] then []
    else (if children[0].kind == Subnet then [children[0]] else []) + Subnets(children[1..])
  }

  /**
   * The bridge domain's two-way branch: the MAC is the given one unless it is
   * the sentinel, in which case it is "not-applicable"; there is a gateway
   * subnet exactly when the gateway is not the sentinel, virtual exactly when
   * the MAC is not; and the three decoded flags are forwarded unchanged.
   */
  lemma BridgeDomainBranch(rec: Record, flags: BdSettings)
    ensures var bd := BridgeDomain(rec, flags);
      bd.kind == BD && Has(bd, "name", rec.bd) && Has(bd, "nameAlias", rec.bdAlias) &&
      Has(bd, "vmac", if rec.bdVmac == NoneText then "not-applicable" else rec.bdVmac) &&
      Has(bd, "unkMacUcastAct", flags.unkUcast) && Has(bd, "arpFlood", flags.arpFlood) &&
      Has(bd, "unicastRoute", flags.unicastRoute) &&
      (|Subnets(bd.children)| == 1 <==> rec.bdGw != NoneText) &&
      (|Subnets(bd.children)| == 0 <==> rec.bdGw == NoneText) &&
      (rec.bdGw != NoneText ==>
        var sn := Subnets(bd.children)[0];
        Has(sn, "ip", rec.bdGw) && Has(sn, "virtual", if rec.bdVmac != NoneText then "yes" else "no") &&
        Has(sn, "scope", "public") && Has(sn, "preferred", "yes") && Has(sn, "ctrl", ""))
  {
    var virtual := if rec.bdVmac != NoneText then "yes" else "no";
    var subnets := if rec.bdGw != NoneText then [GatewaySubnet(rec.bdGw, virtual)] else [];
    var ctxRef := Mo(RsCtx, map["tnFvCtxName" := rec.vrf], []);
    BridgeDomainShape(rec, flags);
    BdAttrsHas(rec, flags, if rec.bdVmac == NoneText then "not-applicable" else rec.bdVmac);
    SubnetsBeforeLink(subnets, ctxRef);
    GatewaySubnetHas(rec.bdGw, virtual);
  }

  /** The bridge domain's attributes are BdAttrs with the chosen MAC; its children the optional subnet, then the VRF link. */
  lemma BridgeDomainShape(rec: Record, flags: BdSettings)
    ensures var bd := BridgeDomain(rec, flags);
      bd.kind == BD &&
      bd.attrs == BdAttrs(rec, flags, if rec.bdVmac == NoneText then "not-applicable" else rec.bdVmac) &&
      bd.children ==
        (if rec.bdGw != NoneText then [GatewaySubnet(rec.bdGw, if rec.bdVmac != NoneText then "yes" else "no")] else []) +
        [Mo(RsCtx, map["tnFvCtxName" := rec.vrf], [])]
  {
  }

  /** The bridge-domain attributes that come from the row and the decoded flags. */
  lemma BdAttrsHas(rec: Record, flags: BdSettings, vmac: string)
    ensures var bd := Mo(BD, BdAttrs(rec, flags, vmac), []);
      Has(bd, "name", rec.bd) && Has(bd, "nameAlias", rec.bdAlias) && Has(bd, "vmac", vmac) &&
      Has(bd, "unkMacUcastAct", flags.unkUcast) && Has(bd, "arpFlood", flags.arpFlood) &&
      Has(bd, "unicastRoute", flags.unicastRoute)
  {
  }

  lemma GatewaySubnetHas(gw: string, virtual: string)
    ensures var sn := GatewaySubnet(gw, virtual);
      sn.kind == Subnet && Has(sn, "ip", gw) && Has(sn, "virtual", virtual) &&
      Has(sn, "scope", "public") && Has(sn, "preferred", "yes") && Has(sn, "ctrl", "")
  {
  }

  /** Subnets listed before a link that is not a subnet are exactly the subnets found. */
  lemma SubnetsBeforeLink(subnets: seq<Mo>, link: Mo)
    requires |subnets| <= 1 && (forall i :: 0 <= i < |subnets| ==> subnets[i].kind == Subnet)
    requires link.kind != Subnet
    ensures Subnets(subnets + [link]) == subnets
  {
    assert Subnets([link]) == [] by {
      assert [link][1..] == [];
    }
    if subnets != [] {
      assert (subnets + [link])[1..] == [link];
    }
  }

  /**
   * Apart from the MAC, both branches give the bridge domain the same
   * attributes: only `vmac` depends on the virtual MAC and the gateway.
   */
  lemma BridgeDomainAttrsUniform(rec: Record, flags: BdSettings, vmac: string, gw: string)
    ensures BridgeDomain(rec, flags).attrs - {"vmac"} ==
            BridgeDomain(rec.(bdVmac := vmac, bdGw := gw), flags).attrs - {"vmac"}
  {
    var a1 := BdAttrs(rec, flags, if rec.bdVmac == NoneText then "not-applicable" else rec.bdVmac);
    var a2 := BdAttrs(rec, flags, if vmac == NoneText then "not-applicable" else vmac);
    assert a1.Keys == a2.Keys;
    assert forall k :: k in a1 && k != "vmac" ==> a1[k] == a2[k];
    assert a1 - {"vmac"} == a2 - {"vmac"};
  }

  /**
   * With the virtual MAC and the gateway hard-wired to "None" (every row the
   * normaliser produces), the bridge domain has the MAC "not-applicable" and
   * no subnet: its only child is the VRF link.
   */
  lemma NormalizedRowBridgeDomain(row: Row)
    requires BuildRow(Normalize(row)).Ok?
    ensures var bd := BuildRow(Normalize(row)).value[0].children[2];
      Has(bd, "vmac", "not-applicable") && Subnets(bd.children) == [] &&
      |bd.children| == 1 && bd.children[0].kind == RsCtx
  {
    var rec := Normalize(row);
    BridgeDomainBranch(rec, Decode(rec.bdSettings).value);
  }

  // ---------------------------------------------------------------- AEPs

  /** The links one AEP subtree must carry. */
  predicate AepLinks(aep: Mo, rec: Record) {
    aep.kind == AttEntityP && |aep.children| == 2 &&
    var gen := aep.children[0];
    gen.kind == Generic && Has(gen, "name", "default") && |gen.children| == 1 &&
    var fn := gen.children[0];
    fn.kind == RsFuncToEpg && Has(fn, "tDn", EpgDn(rec.tenant, rec.ap, rec.epg)) &&
    Has(fn, "primaryEncap", "unknown") && Has(fn, "encap", rec.encap) &&
    Has(fn, "instrImedcy", "lazy") && Has(fn, "mode", "regular") &&
    var dom := aep.children[1];
    dom.kind == RsDomP && Has(dom, "tDn", DomainDn(rec.domain))
  }

  /** Every profile the AEP loop builds carries the links. */
  lemma AepProfileLinked(item: string, rec: Record)
    ensures AepLinks(AepProfile(item, rec), rec)
  {
    AepEpgLink(item, rec);
    AepDomainLink(item, rec);
  }

  /** The profile's first child is the default generic entry holding the link to the EPG. */
  lemma AepEpgLink(item: string, rec: Record)
    ensures var gen := AepProfile(item, rec).children[0];
      gen.kind == Generic && Has(gen, "name", "default") && |gen.children| == 1 &&
      var fn := gen.children[0];
      fn.kind == RsFuncToEpg && Has(fn, "tDn", EpgDn(rec.tenant, rec.ap, rec.epg)) &&
      Has(fn, "primaryEncap", "unknown") && Has(fn, "encap", rec.encap) &&
      Has(fn, "instrImedcy", "lazy") && Has(fn, "mode", "regular")
  {
  }

  /** The profile's second child is the link to the physical domain. */
  lemma AepDomainLink(item: string, rec: Record)
    ensures var dom := AepProfile(item, rec).children[1];
      dom.kind == RsDomP && Has(dom, "tDn", DomainDn(rec.domain))
  {
  }

  /** A profile is named after its AEP item. */
  lemma AepProfileName(item: string, rec: Record)
    ensures var p := AepProfile(item, rec); p.kind == AttEntityP && "name" in p.attrs && p.attrs["name"] == item
  {
  }

  /**
   * The AEP loop appends, for item j, the profile at position 2j and a
   * function profile right after it.
   */
  lemma {:induction false} AepChildrenLayout(items: seq<string>, rec: Record)
    ensures |AepChildren(items, rec)| == 2 * |items|
    ensures forall j :: 0 <= j < |items| ==>
      AepChildren(items, rec)[2 * j] == AepProfile(items[j], rec) &&
      AepChildren(items, rec)[2 * j + 1] == FuncProfile
    decreases |items|
  {
    if items != [] {
      var init := items[..|items| - 1];
      AepChildrenLayout(init, rec);
      forall j | 0 <= j < |init| ensures init[j] == items[j] { }
    }
  }

  lemma {:induction false} AepChildrenLinked(items: seq<string>, rec: Record)
    ensures forall j :: 0 <= j < |AepChildren(items, rec)| && AepChildren(items, rec)[j].kind == AttEntityP ==>
      AepLinks(AepChildren(items, rec)[j], rec)
    decreases |items|
  {
    if items != [] {
      var init := items[..|items| - 1];
      var pre := AepChildren(init, rec);
      var cs := AepChildren(items, rec);
      AepChildrenLinked(init, rec);
      AepProfileLinked(items[|items| - 1], rec);
      forall j | 0 <= j < |cs| && cs[j].kind == AttEntityP ensures AepLinks(cs[j], rec) {
        if j < |pre| {
          assert cs[j] == pre[j];
        }
      }
    }
  }

  /** Every AEP profile under infra carries the EPG and domain links and the row's encapsulation. */
  lemma EveryAepLinked(rec: Record)
    ensures forall j :: 0 <= j < |InfraTree(rec).children| && InfraTree(rec).children[j].kind == AttEntityP ==>
      AepLinks(InfraTree(rec).children[j], rec)
  {
    var items := Split(rec.aep, ',');
    var cs := InfraTree(rec).children;
    AepChildrenLinked(items, rec);
    forall j | 0 <= j < |cs| && cs[j].kind == AttEntityP ensures AepLinks(cs[j], rec) {
      assert cs[j] == AepChildren(items, rec)[j - 1];
    }
  }

  /** The names of the AEP profiles among `children`, in order. */
  function AepNames(children: seq<Mo>): seq<string>
    decreases |children|
  {
    if children == [] then []
    else
      var c := children[|children| - 1];
      AepNames(children[..|children| - 1]) +
        (if c.kind == AttEntityP && "name" in c.attrs then [c.attrs["name"]] else [])
  }

  lemma {:induction false} AepNamesOfChildren(items: seq<string>, rec: Record)
    ensures AepNames(AepChildren(items, rec)) == items
    decreases |items|
  {
    if items != [] {
      var init := items[..|items| - 1];
      var last := items[|items| - 1];
      var pre := AepChildren(init, rec);
      var profile := AepProfile(last, rec);
      AepNamesOfChildren(init, rec);
      assert AepChildren(items, rec) == (pre + [profile]) + [FuncProfile];
      AepNamesSnoc(pre + [profile], FuncProfile);
      AepNamesSnoc(pre, profile);
      AepProfileName(last, rec);
      assert init + [last] == items;
    }
  }

  /** Appending one object adds its name when it is an AEP profile. */
  lemma AepNamesSnoc(cs: seq<Mo>, c: Mo)
    ensures AepNames(cs + [c]) == AepNames(cs) + (if c.kind == AttEntityP && "name" in c.attrs then [c.attrs["name"]] else [])
  {
    assert (cs + [c])[..|cs|] == cs;
  }

  lemma {:induction false} AepNamesPrefix(first: Mo, rest: seq<Mo>)
    requires first.kind != AttEntityP
    ensures AepNames([first] + rest) == AepNames(rest)
    decreases |rest|
  {
    if rest == [] {
      assert ([first] + rest)[..0] == [];
    } else {
      var all := [first] + rest;
      assert all[..|all| - 1] == [first] + rest[..|rest| - 1];
      AepNamesPrefix(first, rest[..|rest| - 1]);
    }
  }

  /**
   * One AEP subtree per comma-separated item, neither trimmed nor filtered:
   * joining the profile names with commas gives back the AEP cell, so there
   * are one more profiles than the cell has commas.
   */
  lemma AepNamesRoundTrip(rec: Record)
    ensures Join(Split(rec.aep, ','), ',') == rec.aep
    ensures AepNames(InfraTree(rec).children) == Split(rec.aep, ',')
    ensures |AepNames(InfraTree(rec).children)| == Count(rec.aep, ',') + 1
  {
    var items := Split(rec.aep, ',');
    AepNamesOfChildren(items, rec);
    AepNamesPrefix(VlanPool(rec), AepChildren(items, rec));
    SplitJoin(rec.aep, ',');
  }

  /** An AEP cell "a,b" (say "aep1,aep2") yields exactly the two profiles "a" and "b". */
  lemma TwoAeps(rec: Record, a: string, b: string)
    requires ',' !in a && ',' !in b && rec.aep == a + "," + b
    ensures AepNames(InfraTree(rec).children) == [a, b]
  {
    AepNamesRoundTrip(rec);
    SplitAround(a, ',', b);
    SplitNoSep(a, ',');
    SplitNoSep(b, ',');
  }
}
