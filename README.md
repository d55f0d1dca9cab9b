# Tenant deployment script, modelled in Dafny

`deploytenant.py` reads an Excel workbook. Each worksheet holds a header row and then one row per
configuration (tenant, EPG, bridge domain). Each row has twelve text columns: tenant, VRF, physical domain, VLAN pool, AEP list,
application profile, EPG, EPG alias, encapsulation, bridge domain, BD alias and BD settings.

For every data row the script does the following:

- it cleans each cell with `safe_str`;
- it decodes the BD settings cell (`UniRtg:…/L2UnkUni:…/ArpFlood:…`) into three flags;
- it builds a tree of ACI managed objects under the policy universe: infra with the VLAN pool and one AEP subtree per comma-separated AEP name, the physical domain, and the tenant with its VRF, application profile, EPG and bridge domain;
- it commits four of those subtrees as one configuration request.

The model covers those steps and the two loops around them: the sheet loop and the row loop.
It has one module per step:

| file | module | what it models |
|---|---|---|
| `wrappers.dfy` | `Wrappers` | `Option` and `Result` |
| `pytext.dfy` | `PyText` | the Python string operations the script uses: `str.strip` (Python's whitespace set), `encode('ascii', 'ignore')`, ASCII `lower`, `split` on one character, and `join` as its inverse |
| `cells.dfy` | `Cells` | a cell value (`None`, text, integer, boolean), `str()` of it, and `safe_str` |
| `record.dfy` | `Rows` | a row, and the record the script reads from columns 1–12 |
| `settings.dfy` | `Settings` | the BD settings decoder: the loop as a method, and its recursive specification |
| `graph.dfy` | `Graph` | managed objects as a kind, an attribute map and ordered children; the DN templates; the builders; the AEP loop; the commit batch; the imperative row body |
| `graph_facts.dfy` | `GraphFacts` | properties of the trees: DN shape and resolution, links, the BD branch, the AEP subtrees |
| `driver.dfy` | `Driver` | the sheet loop and the row loop, and what a run commits |

The cobra constructors append a child to the parent they are given. The model builds the same
trees as values: each parent is built with its children in the order the script creates them.
Both loops (the AEP loop and the settings loop) are methods, and each is proved equal to a
recursive function.

The script's own code in lines 57–150 raises one exception: `IndexError`, for a matched settings
key with no `:`. It is modelled as `Err(MissingValue(segment))`. The script does not catch it, so the whole run
stops at that row. Rows committed before it stay committed. Nothing of the failing row is
committed, because the decoder runs before the commit.

Behaviour of the script that is easy to misread:

- The script never checks the column count. openpyxl returns `None` for a missing cell, so a row with fewer than twelve cells is read with the text `"None"` for every missing field (`Rows.NormalizeShortRow`).
- `safe_str` is not idempotent. Dropping a non-ASCII character can expose whitespace that the earlier strip did not see (`Cells.SafeStrNotIdempotent`). Applying it a second time only strips (`Cells.SafeStrTwice`), and the third application changes nothing more (`Cells.SafeStrStable`).
- A settings segment without `:` is harmless only if its key is not one of the three flags. With a matching key, `pair.split(':')[1]` raises `IndexError` (`Settings.ColonlessKeyFails`). A colon-less garbage segment is ignored (`Settings.ColonlessIgnored`).
- A flag's value is the second `:`-field, lowercased and trimmed. It is not everything after the first colon (`Settings.KeyValueSegment`).

## Model

| member | source | states |
|---|---|---|
| PyText.IsSpace | cisco-aci-bta-tenant-script/deploytenant.py:46 | definition: the characters Python's `str.isspace()` accepts, which `strip()` removes |
| PyText.LeadingSpaceSpec | cisco-aci-bta-tenant-script/deploytenant.py:46 | the leading run counted for `strip` is all whitespace, and the character after it is not whitespace |
| PyText.TrailingSpaceSpec | cisco-aci-bta-tenant-script/deploytenant.py:46 | the trailing run counted for `strip` is all whitespace, and the character before it is not whitespace |
| PyText.Strip | cisco-aci-bta-tenant-script/deploytenant.py:46 | `str.strip()` returns a contiguous slice of its input that neither begins nor ends with whitespace |
| PyText.StripSpec | cisco-aci-bta-tenant-script/deploytenant.py:46 | everything `strip` removes, on either side, is whitespace |
| PyText.StripUnique | cisco-aci-bta-tenant-script/deploytenant.py:46 | whitespace + m + whitespace strips to m, for any m with no whitespace at either end |
| PyText.StripIdempotent | cisco-aci-bta-tenant-script/deploytenant.py:46 | stripping twice is stripping once |
| PyText.StripTrimmed | cisco-aci-bta-tenant-script/deploytenant.py:46 | a text with no whitespace at either end is unchanged by `strip` |
| PyText.StripAscii | cisco-aci-bta-tenant-script/deploytenant.py:46 | stripping ASCII text leaves ASCII text |
| PyText.FilterAscii | cisco-aci-bta-tenant-script/deploytenant.py:46 | `encode('ascii', 'ignore').decode()` yields ASCII only, and never a longer text |
| PyText.FilterAsciiConcat | cisco-aci-bta-tenant-script/deploytenant.py:46 | dropping non-ASCII characters works character by character: it distributes over concatenation |
| PyText.FilterAsciiChar | cisco-aci-bta-tenant-script/deploytenant.py:46 | one character is kept when it is ASCII and dropped otherwise, so with `FilterAsciiConcat` the filter keeps exactly the ASCII characters, in order |
| PyText.FilterAsciiDrops | cisco-aci-bta-tenant-script/deploytenant.py:46 | a non-ASCII character is dropped, not replaced |
| PyText.FilterAsciiIdentity | cisco-aci-bta-tenant-script/deploytenant.py:46 | ASCII text is kept as it is |
| PyText.LowerChar | cisco-aci-bta-tenant-script/deploytenant.py:113 | an ASCII capital becomes its lower-case letter (32 code points on); every other character is kept |
| PyText.Lower | cisco-aci-bta-tenant-script/deploytenant.py:113 | lowercasing keeps the length, maps each character by `LowerChar`, and leaves no ASCII capital |
| PyText.LowerIdempotent | cisco-aci-bta-tenant-script/deploytenant.py:113 | lowering twice is lowering once |
| PyText.Split | cisco-aci-bta-tenant-script/deploytenant.py:111 | `split(sep)` gives one more piece than there are separators |
| PyText.SplitPieces | cisco-aci-bta-tenant-script/deploytenant.py:111 | no piece of a split contains the separator |
| PyText.SplitJoin | cisco-aci-bta-tenant-script/deploytenant.py:111 | joining the pieces with the separator gives back the input |
| PyText.JoinSplit | cisco-aci-bta-tenant-script/deploytenant.py:111 | splitting a join of separator-free pieces gives back the pieces |
| PyText.SplitNoSep | cisco-aci-bta-tenant-script/deploytenant.py:111 | a text without the separator splits into itself alone |
| PyText.SplitPrefix | cisco-aci-bta-tenant-script/deploytenant.py:111 | the first piece is the text up to the first separator, and the rest is the split of what follows |
| PyText.SplitAround | cisco-aci-bta-tenant-script/deploytenant.py:111 | splitting x + sep + y is splitting x and then y |
| PyText.JoinConcat | cisco-aci-bta-tenant-script/deploytenant.py:138 | joining two piece lists is joining each, with a separator between them |
| PyText.SplitHasSecond | cisco-aci-bta-tenant-script/deploytenant.py:113 | `split(':')[1]` exists exactly when the text contains `:` |
| Cells.Digits | cisco-aci-bta-tenant-script/deploytenant.py:46 | the decimal digits of a natural number: non-empty, only `0`–`9`, and no leading zero except for 0 itself |
| Cells.DecimalString | cisco-aci-bta-tenant-script/deploytenant.py:46 | `str(n)` of an integer is non-empty ASCII text with no surrounding whitespace; for n >= 0 it is all digits, for n < 0 it is `-` followed by digits, and there is no leading zero |
| Cells.DecimalStringRoundTrip | cisco-aci-bta-tenant-script/deploytenant.py:46 | `str(n)` read back as a signed decimal number is `n` |
| Cells.DigitsRoundTrip | cisco-aci-bta-tenant-script/deploytenant.py:46 | the decimal digits of a natural number read back as that number |
| Cells.Str | cisco-aci-bta-tenant-script/deploytenant.py:46 | definition: `str()` of a cell value; `None` gives `"None"`, text is kept, an integer gives its decimal text, a boolean `True`/`False` |
| Cells.SafeStr | cisco-aci-bta-tenant-script/deploytenant.py:45-46 | `safe_str` returns ASCII text only |
| Cells.SafeStrEmpty | cisco-aci-bta-tenant-script/deploytenant.py:45-46 | an empty cell (`None`) becomes the sentinel `"None"` |
| Cells.SafeStrText | cisco-aci-bta-tenant-script/deploytenant.py:45-46 | a text cell gives its whitespace-trimmed core with the non-ASCII characters dropped |
| Cells.SafeStrClean | cisco-aci-bta-tenant-script/deploytenant.py:45-46 | trimmed ASCII text is unchanged |
| Cells.SafeStrInteger | cisco-aci-bta-tenant-script/deploytenant.py:45-46 | an integer cell gives its decimal digits, with `-` when negative |
| Cells.SafeStrDropsAccent | cisco-aci-bta-tenant-script/deploytenant.py:45-46 | `"Tênant1"` becomes `"Tnant1"`: non-ASCII characters are dropped, not transliterated |
| Cells.SafeStrNotIdempotent | cisco-aci-bta-tenant-script/deploytenant.py:45-46 | for a non-ASCII character c that is not whitespace and any trimmed ASCII m, `safe_str` of c + " " + m is " " + m, and `safe_str` of that is m: so `safe_str` is not idempotent |
| Cells.FilterDropsHead | cisco-aci-bta-tenant-script/deploytenant.py:46 | a leading non-ASCII character is dropped and the ASCII rest kept |
| Cells.SafeStrTwice | cisco-aci-bta-tenant-script/deploytenant.py:45-46 | a second `safe_str` only strips the first one's result |
| Cells.SafeStrStable | cisco-aci-bta-tenant-script/deploytenant.py:45-46 | from the second application on, `safe_str` is a fixed point |
| Cells.SafeStrIdempotentOnAscii | cisco-aci-bta-tenant-script/deploytenant.py:45-46 | when the stripped text is already ASCII, `safe_str` is idempotent |
| Rows.CellAt | cisco-aci-bta-tenant-script/deploytenant.py:57-68 | definition: `ws.cell(row=i, column=k).value`; a column past the end of the row is an empty cell |
| Rows.Normalize | cisco-aci-bta-tenant-script/deploytenant.py:57-72 | virtual MAC and gateway are always the sentinel `"None"` |
| Rows.NormalizeSanitised | cisco-aci-bta-tenant-script/deploytenant.py:57-72 | every field of a normalised record is ASCII |
| Rows.NormalizeIgnoresExtraColumns | cisco-aci-bta-tenant-script/deploytenant.py:57-68 | columns after the twelfth are never read |
| Rows.NormalizeShortRow | cisco-aci-bta-tenant-script/deploytenant.py:57-68 | a missing column gives the field `"None"`; a short row is not refused |
| Rows.MissingColumn | cisco-aci-bta-tenant-script/deploytenant.py:57-68 | reading a column past the end of the row gives the field `"None"` |
| Rows.NormalizeCleanRow | cisco-aci-bta-tenant-script/deploytenant.py:57-72 | twelve trimmed ASCII cells give exactly those twelve fields, in column order |
| Settings.KeyOf | cisco-aci-bta-tenant-script/deploytenant.py:112 | the key of a segment, `pair.split(':')[0].strip()`, has no surrounding whitespace |
| Settings.FlagOf | cisco-aci-bta-tenant-script/deploytenant.py:112-117 | definition: the three keys `UniRtg`, `L2UnkUni` and `ArpFlood`, compared exactly, case included |
| Settings.ValueOf | cisco-aci-bta-tenant-script/deploytenant.py:113 | the value of a segment, `pair.split(':')[1].lower().strip()`, has no surrounding whitespace and no upper-case ASCII letter |
| Settings.Step | cisco-aci-bta-tenant-script/deploytenant.py:112-117 | one segment fails exactly when it is malformed (a flag key, no `:`), with that segment as the error |
| Settings.Apply | cisco-aci-bta-tenant-script/deploytenant.py:111-117 | definition: the segments applied left to right from the given flags, stopping at the first error |
| Settings.Decode | cisco-aci-bta-tenant-script/deploytenant.py:107-117 | definition: `Apply` from three empty flags over `split('/')` of the cell (characterised by `ApplyFails` and `LastOccurrenceWins`) |
| Settings.Set | cisco-aci-bta-tenant-script/deploytenant.py:112-117 | assigning one flag sets it and leaves the other two alone |
| Settings.DecodeSettings | cisco-aci-bta-tenant-script/deploytenant.py:107-117 | the decoding loop over `split('/')`, with its three local flags, computes `Decode` |
| Settings.DecodeEmpty | cisco-aci-bta-tenant-script/deploytenant.py:107-111 | an empty settings cell leaves all three flags `''` (unset) |
| Settings.IgnoredSegment | cisco-aci-bta-tenant-script/deploytenant.py:112-117 | a segment whose trimmed key is none of `UniRtg`, `L2UnkUni`, `ArpFlood` changes nothing |
| Settings.EmptySegmentIgnored | cisco-aci-bta-tenant-script/deploytenant.py:111-117 | an empty segment changes nothing |
| Settings.ColonlessIgnored | cisco-aci-bta-tenant-script/deploytenant.py:112-117 | a colon-less segment whose key matches no flag changes nothing |
| Settings.ColonlessKeyFails | cisco-aci-bta-tenant-script/deploytenant.py:112-117 | a colon-less segment with a matching key fails (the `IndexError` of `split(':')[1]`) |
| Settings.MatchedSegment | cisco-aci-bta-tenant-script/deploytenant.py:112-117 | a matched segment with a value sets exactly its own flag, to the lowercased trimmed second `:`-field |
| Settings.FirstSegmentFor | cisco-aci-bta-tenant-script/deploytenant.py:112-117 | a successful step on a segment naming a flag gives that flag the segment's value; any other segment leaves the flag as it was |
| Settings.NoColonSegment | cisco-aci-bta-tenant-script/deploytenant.py:112 | without `:` the key is the whole trimmed segment, and there is no value |
| Settings.KeyValueSegment | cisco-aci-bta-tenant-script/deploytenant.py:112-113 | for `k:v`, the key is `k` trimmed, and the value is the text of `v` up to any further `:`, lowercased and trimmed |
| Settings.ApplyFails | cisco-aci-bta-tenant-script/deploytenant.py:111-117 | decoding fails if and only if some segment has a matching key and no `:` |
| Settings.LastOccurrenceWins | cisco-aci-bta-tenant-script/deploytenant.py:111-117 | a flag ends with the value of its last occurrence, or keeps its start value if it never occurs |
| Settings.DecodeFlag | cisco-aci-bta-tenant-script/deploytenant.py:107-117 | a decoded flag is the value of its last segment in the cell, or `''` if none names it |
| Settings.ApplyConcat | cisco-aci-bta-tenant-script/deploytenant.py:111 | decoding p + q is decoding p, then q from where p left the flags; an error in p stops it |
| Settings.SetCommutes | cisco-aci-bta-tenant-script/deploytenant.py:112-117 | assignments to two different flags commute |
| Settings.StepsCommute | cisco-aci-bta-tenant-script/deploytenant.py:111-117 | two segments with different keys give the same flags, and succeed or fail alike, in either order |
| Settings.SwapNeighbours | cisco-aci-bta-tenant-script/deploytenant.py:111-117 | swapping two neighbouring segments with different keys anywhere in the cell does not change the outcome |
| Settings.DecodeSingle | cisco-aci-bta-tenant-script/deploytenant.py:111 | a cell without `/` is one segment |
| Settings.DecodePair | cisco-aci-bta-tenant-script/deploytenant.py:111 | `a/b` is segment a, then segment b |
| Settings.DecodeTwoSettings | cisco-aci-bta-tenant-script/deploytenant.py:107-117 | `K1:v1/K2:v2` with two flag keys sets those flags, the second winning when both name the same flag, and leaves the third `''` |
| Settings.DecodeTwoSegments | cisco-aci-bta-tenant-script/deploytenant.py:107-117 | two `/`-separated segments naming flags, each with a value, set those flags, the second winning a tie, and leave the third `''` |
| Settings.KeyValueValue | cisco-aci-bta-tenant-script/deploytenant.py:112-113 | in `k:v` with no other `:` the key is `k` trimmed and the value is `v` lowercased and trimmed |
| Settings.LastFor | cisco-aci-bta-tenant-script/deploytenant.py:111-117 | the position of the last segment naming a flag: it names the flag, and no later segment does |
| Graph.VlanPoolDn | cisco-aci-bta-tenant-script/deploytenant.py:75 | definition: the template `uni/infra/vlanns-[<pool>]-static` |
| Graph.DomainDn | cisco-aci-bta-tenant-script/deploytenant.py:76 | definition: the template `uni/phys-<domain>` |
| Graph.EpgDn | cisco-aci-bta-tenant-script/deploytenant.py:77 | definition: the template `uni/tn-<tenant>/ap-<ap>/epg-<epg>` |
| Graph.VlanPool | cisco-aci-bta-tenant-script/deploytenant.py:84-85 | definition: the static VLAN pool with its one encap block |
| Graph.Domain | cisco-aci-bta-tenant-script/deploytenant.py:86-87 | definition: the physical domain with its `RsVlanNs` link to the pool DN |
| Graph.Epg | cisco-aci-bta-tenant-script/deploytenant.py:99-134 | definition: the EPG with its `RsDomAtt` and `RsBd` links |
| Graph.BridgeDomain | cisco-aci-bta-tenant-script/deploytenant.py:119-131 | definition: the BD of the `vmac` branch, its optional subnet and its `RsCtx` link |
| Graph.TenantTree | cisco-aci-bta-tenant-script/deploytenant.py:90-134 | definition: the tenant with VRF, AP (holding the EPG) and BD, in creation order |
| Graph.AepProfile | cisco-aci-bta-tenant-script/deploytenant.py:139-142 | definition: one AEP profile with its `Generic`/`RsFuncToEpg` and `RsDomP` children |
| Graph.InfraTree | cisco-aci-bta-tenant-script/deploytenant.py:83-143 | definition: infra with the VLAN pool, then a profile and a `FuncP` per AEP item |
| Graph.AepChildren | cisco-aci-bta-tenant-script/deploytenant.py:138-143 | definition: what the AEP loop appends to infra, a profile and a `FuncP` per item in order (the value `BuildInfra`'s loop invariant ties each prefix to) |
| Graph.Universe | cisco-aci-bta-tenant-script/deploytenant.py:80-143 | definition: the policy universe holding infra, the domain and the tenant |
| Graph.CommitBatch | cisco-aci-bta-tenant-script/deploytenant.py:146-150 | definition: tenant, VLAN pool, domain and infra, in the order they are added to the request |
| Graph.BuildRow | cisco-aci-bta-tenant-script/deploytenant.py:107-150 | definition: the batch for the decoded flags, or the decoding error (characterised by `GraphFacts.BuildRowOutcome`) |
| Graph.BuildInfra | cisco-aci-bta-tenant-script/deploytenant.py:138-143 | the AEP loop, appending a profile and a `FuncP` per item to infra, builds `InfraTree` |
| Graph.DeployRow | cisco-aci-bta-tenant-script/deploytenant.py:80-150 | the row body (decoder loop, AEP loop, batch) computes `BuildRow` |
| GraphFacts.VlanPoolDnComponents | cisco-aci-bta-tenant-script/deploytenant.py:75 | the pool DN's path components are `uni`, `infra`, `vlanns-[<pool>]-static` |
| GraphFacts.DomainDnComponents | cisco-aci-bta-tenant-script/deploytenant.py:76 | the domain DN's path components are `uni`, `phys-<domain>` |
| GraphFacts.EpgDnComponents | cisco-aci-bta-tenant-script/deploytenant.py:77 | the EPG DN's path components are `uni`, `tn-<tenant>`, `ap-<ap>`, `epg-<epg>` |
| GraphFacts.EpgDnInjective | cisco-aci-bta-tenant-script/deploytenant.py:77 | for names without `/`, the EPG DN determines tenant, AP and EPG |
| GraphFacts.VlanPoolDnResolves | cisco-aci-bta-tenant-script/deploytenant.py:75-85 | the pool DN is the DN of the pool object built under infra |
| GraphFacts.DomainDnResolves | cisco-aci-bta-tenant-script/deploytenant.py:76-86 | the domain DN is the DN of the domain object built under the universe |
| GraphFacts.EpgDnResolves | cisco-aci-bta-tenant-script/deploytenant.py:77-99 | the EPG DN is the DN of the EPG built under tenant and AP |
| GraphFacts.ReferencesResolve | cisco-aci-bta-tenant-script/deploytenant.py:75-101 | each of the three DN texts names an object of the right class in the row's universe |
| GraphFacts.PoolAndDomain | cisco-aci-bta-tenant-script/deploytenant.py:84-87 | the pool is `static` with one encap block `from = to = encap`, `role = external`, `allocMode = inherit`; the domain is named, and its `RsVlanNs.tDn` is the pool DN |
| GraphFacts.EpgLinks | cisco-aci-bta-tenant-script/deploytenant.py:96-134 | the AP holds the EPG, with its name and alias; the EPG's `RsDomAtt.tDn` is the domain DN; its `RsBd` names the BD by name, not by DN |
| GraphFacts.EpgShape | cisco-aci-bta-tenant-script/deploytenant.py:99-134 | the EPG carries its name and alias, an `RsDomAtt` to the domain DN and an `RsBd` naming the BD without a DN |
| GraphFacts.BridgeDomainRefersToVrf | cisco-aci-bta-tenant-script/deploytenant.py:90-131 | the tenant holds VRF, AP and BD; the BD's last child `RsCtx` names the VRF by name, not by DN |
| GraphFacts.BridgeDomainBranch | cisco-aci-bta-tenant-script/deploytenant.py:119-128 | vmac is `not-applicable` for the sentinel, else the given MAC; a subnet exists exactly when the gateway is not the sentinel, with `virtual` yes/no following the vmac branch; the three decoded flags are forwarded unchanged |
| GraphFacts.BdAttrsHas | cisco-aci-bta-tenant-script/deploytenant.py:119-128 | the BD carries the row's name, alias and MAC and the three decoded flags unchanged |
| GraphFacts.GatewaySubnetHas | cisco-aci-bta-tenant-script/deploytenant.py:123-128 | the gateway subnet has the gateway address, the given virtual flag, public scope, preferred `yes` and empty `ctrl` |
| GraphFacts.BridgeDomainAttrsUniform | cisco-aci-bta-tenant-script/deploytenant.py:119-128 | the two BD branches differ in `vmac` only |
| GraphFacts.NormalizedRowBridgeDomain | cisco-aci-bta-tenant-script/deploytenant.py:70-128 | with the hard-wired sentinels, every committed BD has vmac `not-applicable` and no subnet |
| GraphFacts.AepProfileLinked | cisco-aci-bta-tenant-script/deploytenant.py:139-142 | an AEP subtree holds a `Generic` named `default` whose `RsFuncToEpg` points at the EPG DN with encap, `unknown`, `lazy`, `regular`; and an `RsDomP` pointing at the domain DN |
| GraphFacts.AepEpgLink | cisco-aci-bta-tenant-script/deploytenant.py:139-141 | an AEP profile's first child is the `default` generic entry whose `RsFuncToEpg` points at the EPG DN with the row's encap |
| GraphFacts.AepDomainLink | cisco-aci-bta-tenant-script/deploytenant.py:142 | an AEP profile's second child points at the domain DN |
| GraphFacts.AepProfileName | cisco-aci-bta-tenant-script/deploytenant.py:139 | an AEP profile is named by its item |
| GraphFacts.AepChildrenLayout | cisco-aci-bta-tenant-script/deploytenant.py:138-143 | item j of the AEP list gives infra children 2j (its profile) and 2j+1 (a `FuncP`) |
| GraphFacts.AepChildrenLinked | cisco-aci-bta-tenant-script/deploytenant.py:138-143 | every AEP profile in the appended children carries the links |
| GraphFacts.EveryAepLinked | cisco-aci-bta-tenant-script/deploytenant.py:138-143 | every AEP profile under infra carries the links |
| GraphFacts.AepNamesOfChildren | cisco-aci-bta-tenant-script/deploytenant.py:138-139 | the AEP profiles appended are named by the items, in order |
| GraphFacts.AepNamesRoundTrip | cisco-aci-bta-tenant-script/deploytenant.py:138-143 | the AEP names under infra are exactly the comma pieces, untrimmed and empty ones kept, so there is one more than there are commas, and they join back to the cell |
| GraphFacts.TwoAeps | cisco-aci-bta-tenant-script/deploytenant.py:138-139 | `a,b` gives AEP profiles named a and b, in that order |
| GraphFacts.BatchIsUniverseRoots | cisco-aci-bta-tenant-script/deploytenant.py:146-150 | the batch is exactly [tenant, VLAN pool, domain, infra] of the row's universe, in that order |
| GraphFacts.BuildRowOutcome | cisco-aci-bta-tenant-script/deploytenant.py:107-150 | a row builds a batch exactly when its settings decode; then the batch is the one for the decoded flags; otherwise a segment is malformed |
| Driver.RowResult | cisco-aci-bta-tenant-script/deploytenant.py:57-150 | definition: the row body, normalising the row and building its batch |
| Driver.DeployRows | cisco-aci-bta-tenant-script/deploytenant.py:55 | definition: rows built in order, each batch committed, stopping at the first error (characterised by `DeployRowsSpec`) |
| Driver.DataRows | cisco-aci-bta-tenant-script/deploytenant.py:55 | definition: the rows of `range(2, max_row + 1)`, everything after the header row |
| Driver.DeploySheets | cisco-aci-bta-tenant-script/deploytenant.py:52-55 | definition: sheets deployed in order, skipping the header row, stopping at the first error |
| Driver.RunRows | cisco-aci-bta-tenant-script/deploytenant.py:55 | the loop `for i in range(2, max_row + 1)` computes `DeployRows` over the data rows |
| Driver.RunSheets | cisco-aci-bta-tenant-script/deploytenant.py:52-55 | the loop over the sheet names computes `DeploySheets` |
| Driver.DeploySheet | cisco-aci-bta-tenant-script/deploytenant.py:55-150 | one sheet, deployed with the script's row body |
| Driver.Deploy | cisco-aci-bta-tenant-script/deploytenant.py:52-150 | the workbook, deployed with the script's row body |
| Driver.DeployRowsSpec | cisco-aci-bta-tenant-script/deploytenant.py:55 | the committed batches are those of the first rows, in row order; the run fails exactly when it stops early, with the error of the first row not committed |
| Driver.FailureStopsRows | cisco-aci-bta-tenant-script/deploytenant.py:55 | after a failing row, no later row changes the outcome |
| Driver.RowFailurePersists | cisco-aci-bta-tenant-script/deploytenant.py:55 | a failure among the first i rows is the outcome of the whole sheet |
| Driver.FailedRowsStay | cisco-aci-bta-tenant-script/deploytenant.py:55 | once a row has failed, one more row changes nothing |
| Driver.OneBatchPerDataRow | cisco-aci-bta-tenant-script/deploytenant.py:55 | without a failure, a sheet commits one batch per row after the header |
| Driver.FailureStopsSheets | cisco-aci-bta-tenant-script/deploytenant.py:52 | after a failing sheet, no later sheet changes the outcome |
| Driver.SheetFailurePersists | cisco-aci-bta-tenant-script/deploytenant.py:52 | a failure among the first i sheets is the outcome of the whole workbook |
| Driver.FailedSheetsStay | cisco-aci-bta-tenant-script/deploytenant.py:52 | once a sheet has failed, one more sheet changes nothing |
| Driver.CompleteRun | cisco-aci-bta-tenant-script/deploytenant.py:52-55 | a run without a failure had no failing sheet and committed one batch per data row of the workbook |

## Left out

- Argument parsing, the controller URL and `urllib3.disable_warnings` (lines 20–36) are command-line and TLS glue.
- `LoginSession`, `MoDirectory` and `md.login()` (lines 40–42) are network session set-up.
- The cobra constructors (lines 80–143) are assumed never to raise; their code is not part of this model.
- `md.commit(c)` (line 151) is network I/O. The model produces the batch that would be committed. What cobra does with a rejected commit is not visible here, so a commit failure is not modelled.
- `load_workbook` and cell access (lines 49–55) are file I/O. A workbook is a sequence of sheets, and a sheet is its rows from row 1 up to `max_row`, each row a sequence of cells.
- The `print` progress messages (lines 39, 50, 153) are not modelled.
- Floating-point and date cells are left out. `str()` of a float or a `datetime` is Python's own formatting. A cell is empty, text, an integer or a boolean.
- Cobra's handling of children with the same relative name is left out, as is merging on the controller. For example, `FuncP(uniInfra)` is created once per AEP item (line 143). Children are an appended list, one `FuncP` per item, and no deduplication is claimed.
- Graph.Rn: relative names are defined only for the classes the three DN templates pass through (polUni, infra, the VLAN pool, the physical domain, the tenant, the AP and the EPG). For other classes the naming rules belong to cobra, which is not part of this model.
- PyText.Lower: lowercases ASCII letters only. Python's `lower()` also maps non-ASCII letters, but the decoder only sees `safe_str` output, which is ASCII.
- PyText.Strip: the whitespace set is Python's `str.isspace` over the code points Dafny's `char` covers; surrogate halves are not whitespace.
- Driver.RunRows and Driver.RunSheets take the row body as a function parameter. `Driver.DeploySheet` and `Driver.Deploy` pass the script's row function, `RowResult`. `Graph.DeployRow` is the imperative row body, and the model proves it computes that same function; the loop wrappers do not call it directly.
