/**
 * The KubeVirt PCI host-device plugin: advertising the inventory devices
 * that match a vendor selector, and allocating requested devices to
 * containers after rebinding them to `vfio-pci`.
 */
module Plugin {
  import opened Wrappers
  import opened Strings
  import opened Pci
  import opened Lspci
  import opened Rpc

  /** The permitted host device a plugin serves: `vendor:device` and the resource it is advertised as. */
  datatype PciHostDevice = PciHostDevice(pciVendorSelector: string, resourceName: string)

  const RegistryDir: string := "/var/lib/kubelet/plugins_registry"

  /** Where the plugin listens: its selector and `.sock`, in the kubelet's plugin registry. */
  function SocketPath(h: PciHostDevice): string {
    Join(RegistryDir, h.pciVendorSelector + ".sock")
  }

  /** For a selector without separator the socket is one file directly inside the registry. */
  lemma SocketPathInRegistry(h: PciHostDevice)
    requires '/' !in h.pciVendorSelector
    ensures SocketPath(h) == RegistryDir + "/" + h.pciVendorSelector + ".sock"
    ensures Base(SocketPath(h)) == h.pciVendorSelector + ".sock"
  {
    var elem := h.pciVendorSelector + ".sock";
    assert elem[|elem| - 5..] == ".sock";
    assert IsElem(elem);
    BaseOfJoin(RegistryDir, elem);
  }

  // ---------------------------------------------------------------------
  // Registration and the trivial device-plugin calls

  datatype PluginInfo = PluginInfo(pluginType: string, name: string, endpoint: string, supportedVersions: seq<string>)

  /** `GetInfo`: a device plugin, named after the resource, speaking `v1beta1`. */
  function GetInfo(h: PciHostDevice): (r: PluginInfo)
    ensures r.pluginType == "DevicePlugin" && r.name == h.resourceName
    ensures r.endpoint == "" && r.supportedVersions == ["v1beta1"]
  {
    PluginInfo("DevicePlugin", h.resourceName, "", ["v1beta1"])
  }

  datatype DevicePluginOptions = DevicePluginOptions(preStartRequired: bool, getPreferredAllocationAvailable: bool)

  /** `GetDevicePluginOptions`: the empty options, so neither optional call is asked for. */
  function GetDevicePluginOptions(): (r: DevicePluginOptions)
    ensures !r.preStartRequired && !r.getPreferredAllocationAvailable
  {
    DevicePluginOptions(false, false)
  }

  /** `GetPreferredAllocation`: refused, whatever the request. */
  function GetPreferredAllocation(request: seq<seq<string>>): (r: Result<seq<seq<string>>, Status>)
    ensures r == Failure(Status(Unimplemented, ""))
  {
    Failure(Status(Unimplemented, ""))
  }

  /** `PreStartContainer`: accepted with an empty response, whatever the request. */
  function PreStartContainer(devicesIds: seq<string>): (r: Result<Empty, Status>)
    ensures r == Success(Empty)
  {
    Success(Empty)
  }

  /** `NotifyRegistrationStatus`: acknowledged whether or not the kubelet registered the plugin. */
  function NotifyRegistrationStatus(pluginRegistered: bool, error: string): (r: Result<Empty, Status>)
    ensures r == Success(Empty)
  {
    Success(Empty)
  }

  // ---------------------------------------------------------------------
  // ListAndWatch

  const Healthy: string := "Healthy"

  /** A device as the device-plugin API advertises it. */
  datatype Advert = Advert(id: string, health: string)

  /** The device is the `vendor:device` pair the plugin serves. */
  predicate Selected(h: PciHostDevice, p: PCIDevice) {
    p.vendor + ":" + p.device == h.pciVendorSelector
  }

  /** The advert of a selected device. */
  function AdvertOf(h: PciHostDevice, p: PCIDevice): seq<Advert> {
    if Selected(h, p) then [Advert(p.slot, Healthy)] else []
  }

  /** What `ListAndWatch` sends for the inventory `inv`. */
  function Advertised(h: PciHostDevice, inv: seq<PCIDevice>): seq<Advert> {
    if inv == [] then [] else Advertised(h, inv[..|inv| - 1]) + AdvertOf(h, inv[|inv| - 1])
  }

  /**
   * `ListAndWatch`: one healthy device per selected inventory entry, with
   * the entry's slot as its ID, in inventory order.
   */
  method ListAndWatch(fs: Fs, h: PciHostDevice) returns (response: seq<Advert>)
    requires ClassesWellFormed(fs)
    ensures response == Advertised(h, Inventory(fs))
  {
    var inventory := ListAll(fs);
    response := SelectAdverts(h, inventory);
  }

  /** The loop of `ListAndWatch` over the inventory it has read. */
  method SelectAdverts(h: PciHostDevice, inventory: seq<PCIDevice>) returns (response: seq<Advert>)
    ensures response == Advertised(h, inventory)
  {
    response := [];
    for i := 0 to |inventory|
      invariant response == Advertised(h, inventory[..i])
    {
      var p := inventory[i];
      assert inventory[..i + 1][..i] == inventory[..i];
      if p.vendor + ":" + p.device == h.pciVendorSelector {
        response := response + [Advert(p.slot, Healthy)];
      }
    }
    assert inventory[..|inventory|] == inventory;
  }

  /** Device by device, the advert it yields, if any. */
  function Offers(h: PciHostDevice, inv: seq<PCIDevice>): (r: seq<Option<Advert>>)
    ensures |r| == |inv|
    ensures forall i :: 0 <= i < |inv| ==> r[i] == if Selected(h, inv[i]) then Some(Advert(inv[i].slot, Healthy)) else None
  {
    seq(|inv|, i requires 0 <= i < |inv| =>
      if Selected(h, inv[i]) then Some(Advert(inv[i].slot, Healthy)) else None)
  }

  lemma {:induction false} AdvertisedIsPresent(h: PciHostDevice, inv: seq<PCIDevice>)
    ensures Advertised(h, inv) == Present(Offers(h, inv))
  {
    if inv != [] {
      var init := inv[..|inv| - 1];
      AdvertisedIsPresent(h, init);
      assert Offers(h, inv)[..|inv| - 1] == Offers(h, init);
    }
  }

  /** The adverts are exactly the healthy slots of the selected devices. */
  lemma AdvertisedMembers(h: PciHostDevice, inv: seq<PCIDevice>, a: Advert)
    ensures a in Advertised(h, inv) <==>
      exists i :: 0 <= i < |inv| && Selected(h, inv[i]) && a == Advert(inv[i].slot, Healthy)
  {
    var os := Offers(h, inv);
    AdvertisedIsPresent(h, inv);
    PresentMembers(os, a);
    if i :| 0 <= i < |inv| && Selected(h, inv[i]) && a == Advert(inv[i].slot, Healthy) {
      assert os[i] == Some(a);
    }
  }

  /**
   * Where the adverts come from: one selected device each, at strictly
   * increasing positions of the inventory, and no selected device skipped.
   */
  function AdvertOrigins(h: PciHostDevice, inv: seq<PCIDevice>): (o: seq<nat>)
    ensures |o| == |Advertised(h, inv)|
    ensures forall k :: 0 <= k < |o| ==>
      o[k] < |inv| && Selected(h, inv[o[k]]) && Advertised(h, inv)[k] == Advert(inv[o[k]].slot, Healthy)
    ensures forall k, l :: 0 <= k < l < |o| ==> o[k] < o[l]
    ensures forall i :: 0 <= i < |inv| && Selected(h, inv[i]) ==> i in o
  {
    AdvertisedIsPresent(h, inv);
    Positions(Offers(h, inv))
  }

  // ---------------------------------------------------------------------
  // Allocate: what the kernel sees

  const VfioDriver: string := "vfio-pci"

  /** The `Failure` of a result, as the error `Allocate` hands back. */
  function ErrorOf<T>(r: Result<T, Error>): Option<Error> {
    if r.Failure? then Some(r.error) else None
  }

  /**
   * The writes that hand device `p` to `vfio-pci`, in order: an unbind from
   * its driver if it has one, the driver override, the bind; none at all
   * when `vfio-pci` drives it already.
   */
  function Plan(p: PCIDevice): seq<(string, string)> {
    if p.driver == VfioDriver then []
    else
      var unbind := if p.driver != "" then [(UnbindPath(p.driver), p.slot)] else [];
      unbind + [(DriverOverridePath(p.slot), VfioDriver), (BindPath(VfioDriver), p.slot)]
  }

  /**
   * The writes `ws`, in order, until one fails. Each accepted write adds
   * one event with its data to the trace; a failure stops before the
   * remaining writes, and so the trace has grown by all of `ws` exactly
   * when every write succeeded.
   */
  function WriteAll(s: Sys, ws: seq<(string, string)>): (r: After<Option<Error>>)
    ensures r.sys.loadable == s.loadable && SameExceptDriverLinks(s.fs, r.sys.fs)
    ensures s.trace <= r.sys.trace && |r.sys.trace| <= |s.trace| + |ws|
    ensures r.out.None? <==> |r.sys.trace| == |s.trace| + |ws|
    ensures forall i :: |s.trace| <= i < |r.sys.trace| ==>
      r.sys.trace[i].Wrote? && r.sys.trace[i].data == ws[i - |s.trace|].1
    decreases |ws|
  {
    if ws == [] then After(s, None)
    else
      var w := WriteEffect(s, ws[0].0, ws[0].1);
      if w.out.Some? then w
      else
        var r := WriteAll(w.sys, ws[1..]);
        SameExceptDriverLinksTrans(s.fs, w.sys.fs, r.sys.fs);
        r
  }

  /**
   * The rebinding done while scanning the snapshot `ps` for the device
   * `id`: every entry with that slot is handed to `vfio-pci`, and the
   * first failure stops the scan. Entries already on `vfio-pci`, and IDs
   * no entry has, cause no write at all.
   */
  function ScanEffect(s: Sys, id: string, ps: seq<PCIDevice>): (r: After<Option<Error>>)
    ensures r.sys.loadable == s.loadable && SameExceptDriverLinks(s.fs, r.sys.fs)
    ensures s.trace <= r.sys.trace
    decreases |ps|
  {
    if ps == [] then After(s, None)
    else
      var w := if ps[0].slot == id then WriteAll(s, Plan(ps[0])) else After(s, None);
      if w.out.Some? then w
      else
        var r := ScanEffect(w.sys, id, ps[1..]);
        SameExceptDriverLinksTrans(s.fs, w.sys.fs, r.sys.fs);
        r
  }

  /** When every matching device is already on `vfio-pci`, the scan writes nothing and succeeds. */
  lemma {:induction false} ScanIdle(s: Sys, id: string, ps: seq<PCIDevice>)
    requires forall i :: 0 <= i < |ps| && ps[i].slot == id ==> ps[i].driver == VfioDriver
    ensures ScanEffect(s, id, ps) == After(s, None)
    decreases |ps|
  {
    if ps != [] {
      ScanIdle(s, id, ps[1..]);
    }
  }

  /** Some container requests an ID, so the inventory is read. */
  predicate AnyRequested(requests: seq<seq<string>>) {
    exists c :: 0 <= c < |requests| && requests[c] != []
  }

  lemma AnyRequestedSuffix(requests: seq<seq<string>>, c: nat)
    requires c <= |requests|
    ensures AnyRequested(requests[c..]) ==> AnyRequested(requests)
  {
    if AnyRequested(requests[c..]) {
      var i :| 0 <= i < |requests[c..]| && requests[c..][i] != [];
      assert requests[c + i] != [];
    }
  }

  /** The inventory as read when `read` holds, and the empty one when the source does not read it. */
  function InventoryIf(fs: Fs, read: bool): seq<PCIDevice>
    requires read ==> ClassesWellFormed(fs)
  {
    if read then Inventory(fs) else []
  }

  /** The requested IDs of one container, each scanned against a fresh inventory. */
  function IdsEffect(s: Sys, ids: seq<string>): (r: After<Option<Error>>)
    requires ids != [] ==> ClassesWellFormed(s.fs)
    ensures r.sys.loadable == s.loadable && SameExceptDriverLinks(s.fs, r.sys.fs)
    ensures s.trace <= r.sys.trace
    decreases |ids|
  {
    if ids == [] then After(s, None)
    else
      var w := ScanEffect(s, ids[0], Inventory(s.fs));
      if w.out.Some? then w
      else
        InventoryStable(s.fs, w.sys.fs);
        var r := IdsEffect(w.sys, ids[1..]);
        SameExceptDriverLinksTrans(s.fs, w.sys.fs, r.sys.fs);
        r
  }

  /** The container requests, in order, until one fails. */
  function ContainersEffect(s: Sys, requests: seq<seq<string>>): (r: After<Option<Error>>)
    requires AnyRequested(requests) ==> ClassesWellFormed(s.fs)
    ensures r.sys.loadable == s.loadable && SameExceptDriverLinks(s.fs, r.sys.fs)
    ensures s.trace <= r.sys.trace
    decreases |requests|
  {
    if requests == [] then After(s, None)
    else
      assert requests[0] != [] ==> AnyRequested(requests);
      var w := IdsEffect(s, requests[0]);
      if w.out.Some? then w
      else
        AnyRequestedSuffix(requests, 1);
        WellFormedStays(s.fs, w.sys.fs);
        var r := ContainersEffect(w.sys, requests[1..]);
        SameExceptDriverLinksTrans(s.fs, w.sys.fs, r.sys.fs);
        r
  }

  /**
   * `Allocate` on the kernel side: `vfio_iommu_type1` and then `vfio_pci`
   * are probed before any device is touched, and a failed probe ends the
   * call; then the containers are served in order.
   */
  function AllocateEffect(s: Sys, requests: seq<seq<string>>): (r: After<Option<Error>>)
    requires AnyRequested(requests) ==> ClassesWellFormed(s.fs)
    ensures r.sys.loadable == s.loadable && SameExceptDriverLinks(s.fs, r.sys.fs)
    ensures "vfio_iommu_type1" !in s.loadable ==> r == After(s, Some(ProbeFailed("vfio_iommu_type1")))
    ensures "vfio_iommu_type1" in s.loadable && "vfio_pci" !in s.loadable ==>
      r == After(s.(trace := s.trace + [Probed("vfio_iommu_type1")]), Some(ProbeFailed("vfio_pci")))
    ensures "vfio_iommu_type1" in s.loadable && "vfio_pci" in s.loadable ==>
      s.trace + [Probed("vfio_iommu_type1"), Probed("vfio_pci")] <= r.sys.trace
  {
    var p1 := ProbeEffect(s, "vfio_iommu_type1");
    if p1.out.Some? then p1
    else
      var p2 := ProbeEffect(p1.sys, "vfio_pci");
      if p2.out.Some? then p2
      else ContainersEffect(p2.sys, requests)
  }

  // ---------------------------------------------------------------------
  // Allocate: the response

  datatype DeviceSpec = DeviceSpec(containerPath: string, hostPath: string, permissions: string)

  datatype ContainerAllocateResponse = ContainerAllocateResponse(envs: map<string, string>, devices: seq<DeviceSpec>)

  /** `/dev/vfio/<group>`, shared with the container under the same path. */
  function GroupSpec(group: string): DeviceSpec {
    DeviceSpec("/dev/vfio/" + group, "/dev/vfio/" + group, "mrw")
  }

  /** The VFIO container device every container gets. */
  const VfioSpec: DeviceSpec := DeviceSpec("/dev/vfio/vfio", "/dev/vfio/vfio", "mrw")

  /** The slots of the inventory entries matching `id`, concatenated. */
  function SlotsOf(inv: seq<PCIDevice>, id: string): string {
    if inv == [] then ""
    else SlotsOf(inv[..|inv| - 1], id) + (if inv[|inv| - 1].slot == id then inv[|inv| - 1].slot else "")
  }

  /** The group device of an entry matching `id`, if it has an IOMMU group. */
  function GroupOf(p: PCIDevice, id: string): seq<DeviceSpec> {
    if p.slot == id && p.iommuGroup != "" then [GroupSpec(p.iommuGroup)] else []
  }

  /** The group devices of the inventory entries matching `id`, in inventory order. */
  function GroupsOf(inv: seq<PCIDevice>, id: string): seq<DeviceSpec> {
    if inv == [] then [] else GroupsOf(inv[..|inv| - 1], id) + GroupOf(inv[|inv| - 1], id)
  }

  /** The environment value of a container: per requested ID, its matching slots and a comma. */
  function EnvValue(inv: seq<PCIDevice>, ids: seq<string>): string {
    if ids == [] then "" else EnvValue(inv, ids[..|ids| - 1]) + SlotsOf(inv, ids[|ids| - 1]) + ","
  }

  /** The group devices of a container, ID by ID. */
  function GroupSpecs(inv: seq<PCIDevice>, ids: seq<string>): seq<DeviceSpec> {
    if ids == [] then [] else GroupSpecs(inv, ids[..|ids| - 1]) + GroupsOf(inv, ids[|ids| - 1])
  }

  /** The response for one container asking for the devices `ids`. */
  function ContainerResponse(inv: seq<PCIDevice>, key: string, ids: seq<string>): ContainerAllocateResponse {
    ContainerAllocateResponse(map[key := EnvValue(inv, ids)], GroupSpecs(inv, ids) + [VfioSpec])
  }

  /** `f` applied to every element, appended one result at a time. */
  function Appended<A, B>(xs: seq<A>, f: A -> B): seq<B> {
    if xs == [] then [] else Appended(xs[..|xs| - 1], f) + [f(xs[|xs| - 1])]
  }

  lemma {:induction false} AppendedAt<A, B>(xs: seq<A>, f: A -> B)
    ensures |Appended(xs, f)| == |xs|
    ensures forall c :: 0 <= c < |xs| ==> Appended(xs, f)[c] == f(xs[c])
  {
    if xs != [] {
      AppendedAt(xs[..|xs| - 1], f);
    }
  }

  /** The responses for the container requests, in order. */
  function Responses(inv: seq<PCIDevice>, key: string, requests: seq<seq<string>>): seq<ContainerAllocateResponse> {
    Appended(requests, ids => ContainerResponse(inv, key, ids))
  }

  // ---------------------------------------------------------------------
  // Allocate

  /**
   * The rebinding step of `Allocate` (`internal/plugin.go` lines 85-97):
   * hand a matched device to `vfio-pci` unless it is there already.
   */
  method Rebind(k: Kernel, p: PCIDevice) returns (err: Option<Error>)
    modifies k
    ensures After(k.State(), err) == WriteAll(old(k.State()), Plan(p))
  {
    err := None;
    if p.driver != VfioDriver {
      var bind := (BindPath(VfioDriver), p.slot);
      var rest := [(DriverOverridePath(p.slot), VfioDriver), bind];
      if p.driver != "" {
        var unbind := (UnbindPath(p.driver), p.slot);
        assert Plan(p) == [unbind] + rest;
        WriteAllCons(old(k.State()), unbind, rest);
        err := Unbind(k, p.driver, p.slot);
        if err.Some? {
          return;
        }
      } else {
        assert Plan(p) == rest;
      }
      ghost var s1 := k.State();
      WriteAllCons(s1, rest[0], [bind]);
      err := DriverOverride(k, p.slot, VfioDriver);
      if err.Some? {
        return;
      }
      ghost var s2 := k.State();
      WriteAllCons(s2, bind, []);
      err := Bind(k, VfioDriver, p.slot);
    }
  }

  /** Writing a list that starts with `w`: `w` first, and the rest only if `w` succeeded. */
  lemma WriteAllCons(s: Sys, w: (string, string), ws: seq<(string, string)>)
    ensures WriteAll(s, [w] + ws) ==
      var e := WriteEffect(s, w.0, w.1);
      if e.out.Some? then e else WriteAll(e.sys, ws)
  {
    assert ([w] + ws)[1..] == ws;
  }

  /**
   * The scan of one inventory snapshot for the requested `id`: each
   * matching entry is rebound, contributes its slot, and contributes its
   * group device when it has an IOMMU group.
   */
  method ScanDevices(k: Kernel, id: string, inventory: seq<PCIDevice>)
    returns (err: Option<Error>, slots: string, specs: seq<DeviceSpec>)
    modifies k
    ensures After(k.State(), err) == ScanEffect(old(k.State()), id, inventory)
    ensures err.None? ==> slots == SlotsOf(inventory, id) && specs == GroupsOf(inventory, id)
  {
    err, slots, specs := None, "", [];
    for j := 0 to |inventory|
      invariant err.None?
      invariant ScanEffect(old(k.State()), id, inventory) == ScanEffect(k.State(), id, inventory[j..])
      invariant slots == SlotsOf(inventory[..j], id) && specs == GroupsOf(inventory[..j], id)
    {
      var p := inventory[j];
      assert inventory[..j + 1][..j] == inventory[..j];
      assert inventory[j..][1..] == inventory[j + 1..];
      if p.slot == id {
        err := Rebind(k, p);
        if err.Some? {
          return;
        }
        if p.iommuGroup != "" {
          specs := specs + [GroupSpec(p.iommuGroup)];
        }
        slots := slots + p.slot;
      }
    }
    assert inventory[..|inventory|] == inventory;
    assert inventory[|inventory|..] == [];
  }

  /** One requested ID: a fresh inventory, scanned for it. */
  method MatchDevices(k: Kernel, id: string) returns (err: Option<Error>, slots: string, specs: seq<DeviceSpec>)
    requires ClassesWellFormed(k.fs)
    modifies k
    ensures After(k.State(), err) == ScanEffect(old(k.State()), id, Inventory(old(k.fs)))
    ensures err.None? ==> slots == SlotsOf(Inventory(old(k.fs)), id) && specs == GroupsOf(Inventory(old(k.fs)), id)
  {
    var inventory := ListAll(k.fs);
    err, slots, specs := ScanDevices(k, id, inventory);
  }

  /**
   * One container request: its IDs in order, then the response with the
   * environment value and the group devices followed by the VFIO device.
   * The inventory is re-read for every ID, and only drivers can differ
   * between those readings, so the response is that of the inventory read
   * when the container is reached.
   */
  method AllocateContainer(k: Kernel, envKey: string, ids: seq<string>)
    returns (r: Result<ContainerAllocateResponse, Error>)
    requires ids != [] ==> ClassesWellFormed(k.fs)
    modifies k
    ensures After(k.State(), ErrorOf(r)) == IdsEffect(old(k.State()), ids)
    ensures r.Success? ==> r.value == ContainerResponse(InventoryIf(old(k.fs), ids != []), envKey, ids)
  {
    ghost var fs0 := k.fs;
    ghost var inv := InventoryIf(k.fs, ids != []);
    var envValue := "";
    var devices: seq<DeviceSpec> := [];
    for j := 0 to |ids|
      invariant SameExceptDriverLinks(fs0, k.fs) && (ids != [] ==> ClassesWellFormed(k.fs))
      invariant IdsEffect(old(k.State()), ids) == IdsEffect(k.State(), ids[j..])
      invariant envValue == EnvValue(inv, ids[..j]) && devices == GroupSpecs(inv, ids[..j])
    {
      InventoryStable(fs0, k.fs);
      MatchesMasked(Inventory(k.fs), inv, ids[j]);
      ghost var before := k.State();
      var err, slots, specs := MatchDevices(k, ids[j]);
      assert ids[j..][1..] == ids[j + 1..];
      if err.Some? {
        return Failure(err.value);
      }
      SameExceptDriverLinksTrans(fs0, before.fs, k.fs);
      InventoryStable(fs0, k.fs);
      ContainerSnoc(inv, ids, j);
      envValue := envValue + slots + ",";
      devices := devices + specs;
    }
    assert ids[..|ids|] == ids;
    return Success(ContainerAllocateResponse(map[envKey := envValue], devices + [VfioSpec]));
  }

  /**
   * `Allocate`: probe the two VFIO modules, then serve every container
   * request in order. The first failure ends the call with that error and
   * no response; the kernel keeps the writes made before it.
   */
  method Allocate(k: Kernel, h: PciHostDevice, toEnvVar: string -> string, requests: seq<seq<string>>)
    returns (r: Result<seq<ContainerAllocateResponse>, Error>)
    requires AnyRequested(requests) ==> ClassesWellFormed(k.fs)
    modifies k
    ensures After(k.State(), ErrorOf(r)) == AllocateEffect(old(k.State()), requests)
    ensures r.Success? ==> r.value == Responses(InventoryIf(old(k.fs), AnyRequested(requests)), toEnvVar(h.resourceName), requests)
  {
    var err := k.Probe("vfio_iommu_type1");
    if err.Some? {
      return Failure(err.value);
    }
    err := k.Probe("vfio_pci");
    if err.Some? {
      return Failure(err.value);
    }
    var envKey := toEnvVar(h.resourceName);
    r := ServeContainers(k, envKey, requests);
  }

  /** The container requests of `Allocate`, served in order until one fails. */
  method ServeContainers(k: Kernel, envKey: string, requests: seq<seq<string>>)
    returns (r: Result<seq<ContainerAllocateResponse>, Error>)
    requires AnyRequested(requests) ==> ClassesWellFormed(k.fs)
    modifies k
    ensures After(k.State(), ErrorOf(r)) == ContainersEffect(old(k.State()), requests)
    ensures r.Success? ==> r.value == Responses(InventoryIf(old(k.fs), AnyRequested(requests)), envKey, requests)
  {
    ghost var fs0 := k.fs;
    ghost var any := AnyRequested(requests);
    ghost var inv := InventoryIf(k.fs, any);
    ghost var s0 := k.State();
    var responses: seq<ContainerAllocateResponse> := [];
    for c := 0 to |requests|
      invariant SameExceptDriverLinks(fs0, k.fs) && (any ==> ClassesWellFormed(k.fs))
      invariant AnyRequested(requests[c..]) ==> any
      invariant ContainersEffect(s0, requests) == ContainersEffect(k.State(), requests[c..])
      invariant responses == Responses(inv, envKey, requests[..c])
    {
      ghost var before := k.State();
      assert requests[c] != [] ==> AnyRequested(requests);
      ResponseOfReading(fs0, k.fs, any, envKey, requests[c]);
      var response := AllocateContainer(k, envKey, requests[c]);
      assert requests[c..][1..] == requests[c + 1..];
      if response.Failure? {
        return Failure(response.error);
      }
      SameExceptDriverLinksTrans(fs0, before.fs, k.fs);
      WellFormedStays(fs0, k.fs);
      AnyRequestedSuffix(requests, c + 1);
      ResponsesSnoc(inv, envKey, requests, c);
      responses := responses + [response.value];
    }
    assert requests[..|requests|] == requests;
    return Success(responses);
  }

  // ---------------------------------------------------------------------
  // The response depends on the inventory only through slots and groups

  lemma {:induction false} SlotsOfMasked(a: seq<PCIDevice>, b: seq<PCIDevice>, id: string)
    requires MaskAll(a) == MaskAll(b)
    ensures SlotsOf(a, id) == SlotsOf(b, id) && GroupsOf(a, id) == GroupsOf(b, id)
  {
    if a != [] {
      var n := |a| - 1;
      assert MaskAll(a[..n]) == MaskAll(a)[..n];
      assert MaskAll(b[..n]) == MaskAll(b)[..n];
      SlotsOfMasked(a[..n], b[..n], id);
      assert Masked(a[n]) == MaskAll(a)[n] == Masked(b[n]);
    }
  }

  /**
   * The response of a container to the inventory read when it is reached
   * (none, for a container that requests nothing) is its response to the
   * inventory at the start.
   */
  lemma ResponseOfReading(fs0: Fs, fs: Fs, any: bool, key: string, ids: seq<string>)
    requires SameExceptDriverLinks(fs0, fs) && (any ==> ClassesWellFormed(fs0)) && (ids != [] ==> any)
    ensures ids != [] ==> ClassesWellFormed(fs)
    ensures ContainerResponse(InventoryIf(fs, ids != []), key, ids) == ContainerResponse(InventoryIf(fs0, any), key, ids)
  {
    if ids != [] {
      InventoryStable(fs0, fs);
      ContainerResponseMasked(Inventory(fs), Inventory(fs0), key, ids);
    }
  }

  /** One more requested ID appends its slots and a comma, and its group devices. */
  lemma ContainerSnoc(inv: seq<PCIDevice>, ids: seq<string>, j: nat)
    requires j < |ids|
    ensures EnvValue(inv, ids[..j + 1]) == EnvValue(inv, ids[..j]) + SlotsOf(inv, ids[j]) + ","
    ensures GroupSpecs(inv, ids[..j + 1]) == GroupSpecs(inv, ids[..j]) + GroupsOf(inv, ids[j])
  {
    assert ids[..j + 1][..j] == ids[..j];
  }

  /** One more container appends its response. */
  lemma ResponsesSnoc(inv: seq<PCIDevice>, key: string, requests: seq<seq<string>>, c: nat)
    requires c < |requests|
    ensures Responses(inv, key, requests[..c + 1]) == Responses(inv, key, requests[..c]) + [ContainerResponse(inv, key, requests[c])]
  {
    assert requests[..c + 1][..c] == requests[..c];
  }

  /** Sysfs stays listable as long as only driver links change. */
  lemma WellFormedStays(fs: Fs, fs': Fs)
    requires SameExceptDriverLinks(fs, fs')
    ensures ClassesWellFormed(fs) ==> ClassesWellFormed(fs')
  {
    if ClassesWellFormed(fs) {
      InventoryStable(fs, fs');
    }
  }

  lemma MatchesMasked(a: seq<PCIDevice>, b: seq<PCIDevice>, id: string)
    requires MaskAll(a) == MaskAll(b)
    ensures SlotsOf(a, id) == SlotsOf(b, id) && GroupsOf(a, id) == GroupsOf(b, id)
  {
    SlotsOfMasked(a, b, id);
  }

  /** Inventories that differ only in drivers give every container the same response. */
  lemma {:induction false} ContainerResponseMasked(a: seq<PCIDevice>, b: seq<PCIDevice>, key: string, ids: seq<string>)
    requires MaskAll(a) == MaskAll(b)
    ensures EnvValue(a, ids) == EnvValue(b, ids) && GroupSpecs(a, ids) == GroupSpecs(b, ids)
    ensures ContainerResponse(a, key, ids) == ContainerResponse(b, key, ids)
    decreases |ids|
  {
    if ids != [] {
      var init := ids[..|ids| - 1];
      ContainerResponseMasked(a, b, key, init);
      SlotsOfMasked(a, b, ids[|ids| - 1]);
    }
  }

  // ---------------------------------------------------------------------
  // What the response holds

  /** The number of inventory entries whose slot is `id`. */
  function Count(inv: seq<PCIDevice>, id: string): nat {
    if inv == [] then 0 else Count(inv[..|inv| - 1], id) + (if inv[|inv| - 1].slot == id then 1 else 0)
  }

  /** `n` copies of `s`, one after the other. */
  function Repeat(s: string, n: nat): string {
    if n == 0 then "" else Repeat(s, n - 1) + s
  }

  /** The slots matched by `id` are `id` itself, once per matching entry. */
  lemma {:induction false} SlotsOfRepeats(inv: seq<PCIDevice>, id: string)
    ensures SlotsOf(inv, id) == Repeat(id, Count(inv, id))
  {
    if inv != [] {
      SlotsOfRepeats(inv[..|inv| - 1], id);
    }
  }

  lemma {:induction false} CountZero(inv: seq<PCIDevice>, id: string)
    ensures Count(inv, id) == 0 <==> forall i :: 0 <= i < |inv| ==> inv[i].slot != id
  {
    if inv != [] {
      var init := inv[..|inv| - 1];
      CountZero(init, id);
      assert forall i :: 0 <= i < |init| ==> init[i] == inv[i];
    }
  }

  /** An ID no inventory entry has is not an error: it adds only a comma. */
  lemma UnknownIdAddsComma(inv: seq<PCIDevice>, ids: seq<string>, id: string)
    requires forall i :: 0 <= i < |inv| ==> inv[i].slot != id
    ensures EnvValue(inv, ids + [id]) == EnvValue(inv, ids) + ","
    ensures GroupSpecs(inv, ids + [id]) == GroupSpecs(inv, ids)
  {
    CountZero(inv, id);
    SlotsOfRepeats(inv, id);
    GroupsOfMembers(inv, id, GroupSpec(""));
    assert (ids + [id])[..|ids|] == ids;
    if GroupsOf(inv, id) != [] {
      var x := GroupsOf(inv, id)[0];
      GroupsOfMembers(inv, id, x);
    }
  }

  /** Entry by entry, the group device it yields, if any. */
  function GroupOffers(inv: seq<PCIDevice>, id: string): (r: seq<Option<DeviceSpec>>)
    ensures |r| == |inv|
    ensures forall i :: 0 <= i < |inv| ==>
      r[i] == if inv[i].slot == id && inv[i].iommuGroup != "" then Some(GroupSpec(inv[i].iommuGroup)) else None
  {
    seq(|inv|, i requires 0 <= i < |inv| =>
      if inv[i].slot == id && inv[i].iommuGroup != "" then Some(GroupSpec(inv[i].iommuGroup)) else None)
  }

  lemma {:induction false} GroupsOfIsPresent(inv: seq<PCIDevice>, id: string)
    ensures GroupsOf(inv, id) == Present(GroupOffers(inv, id))
  {
    if inv != [] {
      var init := inv[..|inv| - 1];
      GroupsOfIsPresent(init, id);
      assert GroupOffers(inv, id)[..|inv| - 1] == GroupOffers(init, id);
    }
  }

  /** The group devices for `id` are those of the matching entries with an IOMMU group. */
  lemma GroupsOfMembers(inv: seq<PCIDevice>, id: string, x: DeviceSpec)
    ensures x in GroupsOf(inv, id) <==>
      exists i :: 0 <= i < |inv| && inv[i].slot == id && inv[i].iommuGroup != "" && x == GroupSpec(inv[i].iommuGroup)
  {
    var os := GroupOffers(inv, id);
    GroupsOfIsPresent(inv, id);
    PresentMembers(os, x);
    if i :| 0 <= i < |inv| && inv[i].slot == id && inv[i].iommuGroup != "" && x == GroupSpec(inv[i].iommuGroup) {
      assert os[i] == Some(x);
    }
  }

  /**
   * Where the group devices for `id` come from: one matching entry with an
   * IOMMU group each, at strictly increasing positions, none skipped; so
   * they are in inventory order and repeated groups are kept.
   */
  function GroupOrigins(inv: seq<PCIDevice>, id: string): (o: seq<nat>)
    ensures |o| == |GroupsOf(inv, id)|
    ensures forall k :: 0 <= k < |o| ==>
      && o[k] < |inv| && inv[o[k]].slot == id && inv[o[k]].iommuGroup != ""
      && GroupsOf(inv, id)[k] == GroupSpec(inv[o[k]].iommuGroup)
    ensures forall k, l :: 0 <= k < l < |o| ==> o[k] < o[l]
    ensures forall i :: 0 <= i < |inv| && inv[i].slot == id && inv[i].iommuGroup != "" ==> i in o
  {
    GroupsOfIsPresent(inv, id);
    Positions(GroupOffers(inv, id))
  }

  /**
   * A container's group devices are those of the inventory entries it
   * asked for, by any of its IDs, that have an IOMMU group.
   */
  lemma GroupSpecsMembers(inv: seq<PCIDevice>, ids: seq<string>, x: DeviceSpec)
    ensures x in GroupSpecs(inv, ids) <==>
      exists j, i :: 0 <= j < |ids| && 0 <= i < |inv| && inv[i].slot == ids[j] && inv[i].iommuGroup != ""
                     && x == GroupSpec(inv[i].iommuGroup)
  {
    if x in GroupSpecs(inv, ids) {
      GroupSpecsOrigin(inv, ids, x);
    }
    if j, i :| 0 <= j < |ids| && 0 <= i < |inv| && inv[i].slot == ids[j] && inv[i].iommuGroup != ""
               && x == GroupSpec(inv[i].iommuGroup) {
      GroupSpecInSpecs(inv, ids, x, j, i);
    }
  }

  /** The group device of an entry asked for by one of the IDs is among the container's devices. */
  lemma {:induction false} GroupSpecInSpecs(inv: seq<PCIDevice>, ids: seq<string>, x: DeviceSpec, j: nat, i: nat)
    requires j < |ids| && i < |inv| && inv[i].slot == ids[j] && inv[i].iommuGroup != ""
    requires x == GroupSpec(inv[i].iommuGroup)
    ensures x in GroupSpecs(inv, ids)
  {
    var n := |ids| - 1;
    var init := ids[..n];
    assert GroupSpecs(inv, ids) == GroupSpecs(inv, init) + GroupsOf(inv, ids[n]);
    if j < n {
      assert init[j] == ids[j];
      GroupSpecInSpecs(inv, init, x, j, i);
      assert x in GroupSpecs(inv, init);
    } else {
      GroupsOfMembers(inv, ids[n], x);
      assert x in GroupsOf(inv, ids[n]);
    }
  }

  /** Every device of the container comes from an entry asked for by one of the IDs. */
  lemma {:induction false} GroupSpecsOrigin(inv: seq<PCIDevice>, ids: seq<string>, x: DeviceSpec)
    requires x in GroupSpecs(inv, ids)
    ensures exists j, i :: 0 <= j < |ids| && 0 <= i < |inv| && inv[i].slot == ids[j] && inv[i].iommuGroup != ""
                           && x == GroupSpec(inv[i].iommuGroup)
  {
    var n := |ids| - 1;
    var init := ids[..n];
    if x in GroupSpecs(inv, init) {
      GroupSpecsOrigin(inv, init, x);
      var j, i :| 0 <= j < |init| && 0 <= i < |inv| && inv[i].slot == init[j] && inv[i].iommuGroup != ""
                  && x == GroupSpec(inv[i].iommuGroup);
      assert ids[j] == init[j];
    } else {
      GroupsOfMembers(inv, ids[n], x);
      var i :| 0 <= i < |inv| && inv[i].slot == ids[n] && inv[i].iommuGroup != "" && x == GroupSpec(inv[i].iommuGroup);
    }
  }

  /**
   * One response per container request, in request order, all under the
   * same environment key; each container's devices end with exactly one
   * `/dev/vfio/vfio`, after its group devices.
   */
  lemma ResponsesShape(inv: seq<PCIDevice>, key: string, requests: seq<seq<string>>)
    ensures |Responses(inv, key, requests)| == |requests|
    ensures forall c :: 0 <= c < |requests| ==>
      var r := Responses(inv, key, requests)[c];
      && r == ContainerResponse(inv, key, requests[c])
      && r.envs.Keys == {key} && r.envs[key] == EnvValue(inv, requests[c])
      && r.devices == GroupSpecs(inv, requests[c]) + [VfioSpec]
  {
    ResponsesAt(inv, key, requests);
    forall c | 0 <= c < |requests|
      ensures Responses(inv, key, requests)[c].envs.Keys == {key}
    {
      assert ContainerResponse(inv, key, requests[c]).envs == map[key := EnvValue(inv, requests[c])];
    }
  }

  /** The response at each position is the one for the request at that position. */
  lemma ResponsesAt(inv: seq<PCIDevice>, key: string, requests: seq<seq<string>>)
    ensures |Responses(inv, key, requests)| == |requests|
    ensures forall c :: 0 <= c < |requests| ==> Responses(inv, key, requests)[c] == ContainerResponse(inv, key, requests[c])
  {
    AppendedAt(requests, ids => ContainerResponse(inv, key, ids));
  }


  // ---------------------------------------------------------------------
  // A rebinding takes effect

  /** Writing a list that ends with `w`: the list before it, then `w` if that succeeded. */
  lemma {:induction false} WriteAllSnoc(s: Sys, ws: seq<(string, string)>, w: (string, string))
    ensures WriteAll(s, ws + [w]) ==
      var r := WriteAll(s, ws);
      if r.out.Some? then r else WriteEffect(r.sys, w.0, w.1)
    decreases |ws|
  {
    if ws == [] {
      assert [] + [w] == [w];
      WriteAllCons(s, w, []);
    } else {
      WriteAllCons(s, ws[0], ws[1..] + [w]);
      assert ws + [w] == [ws[0]] + (ws[1..] + [w]);
      var e := WriteEffect(s, ws[0].0, ws[0].1);
      if e.out.None? {
        WriteAllSnoc(e.sys, ws[1..], w);
      }
      WriteAllCons(s, ws[0], ws[1..]);
      assert [ws[0]] + ws[1..] == ws;
    }
  }

  /** The `vfio-pci` driver's directory name, and the `bind` file inside it, are plain elements. */
  lemma VfioNames()
    ensures IsElem(VfioDriver) && IsElem("bind")
    ensures !EndsWith(BindPath(VfioDriver), "/driver")
    ensures Base(DriverPath(VfioDriver)) == VfioDriver
  {
    var v, b := VfioDriver, "bind";
    assert forall i :: 0 <= i < |v| ==> v[i] != '/';
    assert forall i :: 0 <= i < |b| ==> b[i] != '/';
    NotDriverLink(DriverPath(VfioDriver), "bind");
    BaseOfJoin(DriversDir, VfioDriver);
  }

  /** Whether `fs` routes writes to the `vfio-pci` bind file to the kernel's binding of `vfio-pci`. */
  predicate VfioBindable(fs: Fs) {
    && BindPath(VfioDriver) in fs.resolve
    && fs.resolve[BindPath(VfioDriver)] in fs.controls
    && fs.controls[fs.resolve[BindPath(VfioDriver)]] == BindFile(VfioDriver)
  }

  /** An accepted bind of `slot` to `vfio-pci` points the device's `driver` link at it. */
  lemma BindTakesEffect(s: Sys, slot: string)
    requires VfioBindable(s.fs)
    requires WriteEffect(s, BindPath(VfioDriver), slot).out.None?
    ensures ReadLink(WriteEffect(s, BindPath(VfioDriver), slot).sys.fs, slot, DriverLink) == Success(DriverPath(VfioDriver))
  {
    var fs' := WriteEffect(s, BindPath(VfioDriver), slot).sys.fs;
    assert fs' == React(s.fs, s.fs.resolve[BindPath(VfioDriver)], slot);
    assert Join(DevicePath(slot), LinkFile(DriverLink)) == DriverLinkOf(slot);
  }

  /**
   * When the bus's `vfio-pci` bind file is in place and all the writes
   * for a device not on `vfio-pci` succeed, the device's `driver` link
   * then resolves to the `vfio-pci` driver, so an inventory read after it
   * names `vfio-pci` as its driver and a second scan writes nothing.
   */
  lemma RebindTakesEffect(s: Sys, p: PCIDevice)
    requires p.driver != VfioDriver && VfioBindable(s.fs)
    requires WriteAll(s, Plan(p)).out.None?
    ensures ReadLink(WriteAll(s, Plan(p)).sys.fs, p.slot, DriverLink) == Success(DriverPath(VfioDriver))
    ensures LinkBase(ReadLink(WriteAll(s, Plan(p)).sys.fs, p.slot, DriverLink)) == VfioDriver
  {
    var bind := (BindPath(VfioDriver), p.slot);
    var front := Plan(p)[..|Plan(p)| - 1];
    assert Plan(p) == front + [bind];
    WriteAllSnoc(s, front, bind);
    var r := WriteAll(s, front);
    VfioNames();
    assert VfioBindable(r.sys.fs);
    BindTakesEffect(r.sys, p.slot);
  }
}
