# device-selector in Dafny

A model of the core of inaccel's `device-selector`, the KubeVirt companion that
hands PCI devices to virtual machines, with proofs about it. It has three parts.

- **Inventory** (`lspci.dfy`, `pci.dfy`). `ListAll` walks
  `/sys/bus/pci/devices` and builds one `PCIDevice` record per device whose class,
  vendor and device attributes can be read. It strips `0x` prefixes, splits the
  class code from the programming interface, finds the physical slot by the
  first slot address that prefixes the device name, and takes the last path
  element of the `driver` and `iommu_group` links. `String` prints a record.
  sysfs is an abstract filesystem `Fs`:
  - directory listings;
  - symbolic-link resolution;
  - file contents;
  - which files open for writing;
  - which writes the kernel refuses;
  - the kernel's `bind` and `unbind` control files.
- **Device plugin** (`plugin.dfy`). `ListAndWatch` advertises the inventory
  devices whose `vendor:device` is the plugin's selector. `Allocate` first
  probes `vfio_iommu_type1` and `vfio_pci`. Then, for every container and every
  requested ID, it re-reads the inventory and rebinds each matching device that
  is not on `vfio-pci` yet: an unbind from its driver when it has one, the
  driver override, the bind. It builds one response per container: an
  environment value, the `/dev/vfio/<group>` devices, and `/dev/vfio/vfio`. The
  environment value holds, per requested ID, that ID written once per matching
  inventory device (a device matches when its slot is the ID), then a comma:
  `X,` for one match, `XX,` for two, `,` for none.
  The kernel is a `Kernel` object whose filesystem and trace of probes and
  writes the methods update. The response is proved to depend only on the
  inventory read at the start: a rebinding changes nothing but driver links,
  and the response does not use drivers.
- **Domain hook** (`hook.dfy`). `OnDefineDomain` parses the libvirt domain. It
  replaces every PCI `hostdev` that has no guest address by one copy per host
  function of its source slot. Each copy gets a guest address on bus
  `index + 1`, function `0x<f>` (multifunction for function 0), the alias
  suffixed `-<f>` and the source function `0x<f>`. The copies are inserted
  before the original, which is then removed. The children of `devices` are
  modelled as a sequence of XML nodes. The in-place loop is proved equal to
  the specification `Expanded`.

`strings.dfy` holds the Go library behaviour the program relies on:
`strings.TrimPrefix`, `strings.TrimSpace`, `filepath.Join`, `filepath.Base` and
`%02x`. `wrappers.dfy` holds `Option` and `Result`. `rpc.dfy` holds the gRPC
status and empty message.

The model rests on one assumption about the kernel (`Pci.React`). An accepted
write of a device address to a driver's `bind` file points that device's
`driver` link at the driver. The same write to an `unbind` file removes the
link. No other write changes what later reads see.

## Model

| member | source | states |
|---|---|---|
| Strings.TrimPrefix | pkg/lspci/lspci.go:53 | with the prefix present, prefix + result is the input; otherwise the input is returned unchanged |
| Strings.TrimSpaceTrims | pkg/sysfs/bus/pci/devices.go:32 | the trimmed text is an infix with only white space around it, and it neither starts nor ends with white space |
| Strings.BaseOfJoin | pkg/sysfs/bus/pci/drivers.go:39-51 | `filepath.Base` of a plain element joined onto a directory is the element |
| Strings.BaseOfPath | pkg/lspci/lspci.go:94 | `filepath.Base` of a path that has a separator and does not end in one is non-empty, has no separator, and follows the final separator |
| Strings.Hex02RoundTrip | internal/hook.go:100 | `%02x` parses back to the number, and has exactly two digits iff the number is below 256 |
| Pci.ReadDir | pkg/sysfs/bus/pci/devices.go:10-13 | a listing succeeds iff the directory is readable, gives its entries in order, and otherwise names the directory in the error |
| Pci.ListEntries | pkg/sysfs/bus/pci/devices.go:9-19 | the loop collects one name per entry, in listing order, or returns the read error |
| Pci.Devices | pkg/sysfs/bus/pci/devices.go:9-19 | the entries of `/sys/bus/pci/devices`, in order, or the read error |
| Pci.Drivers | pkg/sysfs/bus/pci/drivers.go:9-19 | the entries of `/sys/bus/pci/drivers`, in order, or the read error |
| Pci.Slots | pkg/sysfs/bus/pci/slots.go:9-19 | the entries of `/sys/bus/pci/slots`, in order, or the read error |
| Pci.PathShape | pkg/sysfs/bus/pci/devices.go:87-92 | a name with a separator is its own path; a plain name lies directly inside the bus directory |
| Pci.NameOfPath | pkg/sysfs/bus/pci/devices.go:106-111 | `String()` of a path is the non-empty last element, the text after the final separator |
| Pci.NameOfPathIn | pkg/sysfs/bus/pci/slots.go:35-47 | `String()` of `Path()` of a plain name is the name |
| Pci.ReadTrimmedCases | pkg/sysfs/bus/pci/devices.go:23-33 | an attribute read succeeds iff the path resolves to a readable file and gives its trimmed content; a failure names the resolve or the read |
| Pci.ProbeEffect | internal/plugin.go:74-76 | a probe succeeds iff the module can be loaded; success records the load, and failure changes nothing and names the module |
| Pci.WriteEffect | pkg/sysfs/bus/pci/devices.go:51-65 | a write succeeds iff resolve, open and write all succeed; success records exactly one write of the data to the resolved file, and a failure changes nothing and names the failing step |
| Pci.Kernel.Probe | internal/plugin.go:74 | the kernel's state and the result are those of `ProbeEffect` |
| Pci.Kernel.WriteString | pkg/sysfs/bus/pci/devices.go:52-64 | the kernel's state and the result are those of `WriteEffect` |
| Pci.DriverOverride | pkg/sysfs/bus/pci/devices.go:51-65 | writes the string to the device's `driver_override`, as `WriteEffect` |
| Pci.Bind | pkg/sysfs/bus/pci/drivers.go:23-37 | writes the string to the driver's `bind`, as `WriteEffect` |
| Pci.Unbind | pkg/sysfs/bus/pci/drivers.go:53-67 | writes the string to the driver's `unbind`, as `WriteEffect` |
| Pci.ReadAttributeStable | pkg/sysfs/bus/pci/devices.go:23-45 | the text attributes read the same before and after any rebinding |
| Pci.ReadLinkStable | pkg/sysfs/bus/pci/devices.go:67-85 | the `iommu_group` and `of_node` links resolve the same before and after any rebinding |
| Pci.AddressStable | pkg/sysfs/bus/pci/slots.go:23-33 | slot addresses read the same before and after any rebinding |
| Lspci.Describe | pkg/lspci/lspci.go:51-129 | slot is the device's name; class + prog-if is the stripped class code, and the class has 4 characters; SDevice is non-empty only if SVendor was readable; driver and IOMMU group are non-empty iff their links resolve |
| Lspci.DescribeOptional | pkg/lspci/lspci.go:55-113 | each optional field is the value read (with `0x` stripped for SVendor, SDevice and Rev; the last path element of the link target for Driver and IOMMUGroup), or empty when the read fails; PhySlot is the slot search's result |
| Lspci.Record | pkg/lspci/lspci.go:35-54 | a device yields a record iff its class, device and vendor are readable; the record is built from their `0x`-stripped values |
| Lspci.Origins | pkg/lspci/lspci.go:34-130 | every record comes from one listed device, at increasing positions in listing order, and no device with the three attributes is skipped |
| Lspci.InventoryMembers | pkg/lspci/lspci.go:34-129 | a record is in the inventory iff some listed device yields it |
| Lspci.InventoryOfUnreadableDirectory | pkg/lspci/lspci.go:30-34 | when the device directory cannot be listed, the inventory is empty |
| Lspci.FindPhySlot | pkg/lspci/lspci.go:67-82 | the name of the first slot, in listing order, whose address is readable and a prefix of the device name; empty otherwise |
| Lspci.ListAll | pkg/lspci/lspci.go:28-132 | the loop's result is the inventory: the records of the listed devices, in order |
| Lspci.RecordStable | internal/plugin.go:83-97 | after any rebinding a device yields a record iff it did before, differing only in the driver |
| Lspci.InventoryStable | internal/plugin.go:83-97 | an inventory re-read after rebindings equals the earlier one except for drivers |
| Lspci.EntriesMembers | pkg/lspci/lspci.go:136-166 | a line is printed iff it is one of Slot, Class, Vendor and Device or a non-empty optional field, and it carries that field's value |
| Lspci.EntriesOrdered | pkg/lspci/lspci.go:136-166 | the printed lines follow the fixed field order, so no key repeats |
| Lspci.PrintOptional | pkg/lspci/lspci.go:140-166 | one optional `Fprintf` adds the key's line iff its field is non-empty |
| Lspci.String | pkg/lspci/lspci.go:134-168 | the output is the text of those lines, each as `Key:\tvalue\n` |
| Plugin.SocketPathInRegistry | internal/plugin.go:41 | the socket is `<selector>.sock` directly inside `/var/lib/kubelet/plugins_registry` |
| Plugin.GetInfo | internal/plugin.go:131-141 | type DevicePlugin, name the resource name, empty endpoint, versions `v1beta1` |
| Plugin.GetDevicePluginOptions | internal/plugin.go:125-129 | neither pre-start nor preferred allocation is asked for |
| Plugin.GetPreferredAllocation | internal/plugin.go:143-145 | always `Unimplemented` |
| Plugin.PreStartContainer | internal/plugin.go:178-182 | always an empty success |
| Plugin.NotifyRegistrationStatus | internal/plugin.go:168-176 | an empty success, whether or not registration succeeded |
| Plugin.ListAndWatch | internal/plugin.go:147-159 | sends the adverts of the inventory it reads |
| Plugin.SelectAdverts | internal/plugin.go:150-157 | the filter loop's result is the adverts of the selected devices |
| Plugin.AdvertisedMembers | internal/plugin.go:150-157 | an advert is sent iff some inventory device has vendor:device equal to the selector, with its slot as ID and Healthy |
| Plugin.AdvertOrigins | internal/plugin.go:150-157 | adverts come from selected devices, in inventory order, and none is skipped |
| Plugin.WriteAll | internal/plugin.go:85-97 | writes go in order until one fails; the trace only grows, by the data of the writes; all were made iff none failed; only driver links change |
| Plugin.ScanIdle | internal/plugin.go:83-97 | when every matching device is already on `vfio-pci`, the scan writes nothing and succeeds |
| Plugin.IdsEffect | internal/plugin.go:82-109 | the IDs of a container leave the probe set alone, only extend the trace, and change only driver links |
| Plugin.ContainersEffect | internal/plugin.go:79-120 | the same holds for the container requests in order |
| Plugin.AllocateEffect | internal/plugin.go:67-123 | `vfio_iommu_type1` then `vfio_pci` are probed before anything else; either failing ends the call with that error and nothing written |
| Plugin.Rebind | internal/plugin.go:85-97 | the writes are the plan: unbind (only with a current driver), override, bind; none for a device on `vfio-pci`; the first failure stops |
| Plugin.ScanDevices | internal/plugin.go:83-107 | rebinds every entry whose slot is the ID, and collects their slots and group devices |
| Plugin.MatchDevices | internal/plugin.go:83-107 | the same scan on an inventory read at that moment |
| Plugin.AllocateContainer | internal/plugin.go:79-120 | the container's writes are `IdsEffect`, and its response is the container response of the inventory read on entry; sysfs must be listable only when the container requests an ID |
| Plugin.ServeContainers | internal/plugin.go:78-120 | the container requests are served in order as `ContainersEffect` says; on success there is one response per container, each that of the inventory at the start |
| Plugin.Allocate | internal/plugin.go:67-123 | the kernel ends as `AllocateEffect` says; on success the responses are those of the inventory at the start, under one environment key; sysfs must be listable only when some container requests an ID |
| Plugin.ContainerResponseMasked | internal/plugin.go:82-119 | inventories that differ only in drivers give every container the same response |
| Plugin.SlotsOfRepeats | internal/plugin.go:84-105 | an ID contributes itself once per inventory entry with that slot |
| Plugin.UnknownIdAddsComma | internal/plugin.go:82-108 | an ID that matches nothing is no error: it adds just a comma and no device |
| Plugin.GroupsOfMembers | internal/plugin.go:98-104 | the group devices of an ID are those of its matching entries with an IOMMU group |
| Plugin.GroupOrigins | internal/plugin.go:98-104 | one group device per matching entry with a group, in inventory order and without removing duplicates |
| Plugin.GroupSpecsMembers | internal/plugin.go:82-104 | a container's group devices are those of the entries it asked for, by any of its IDs, that have a group |
| Plugin.ResponsesShape | internal/plugin.go:110-119 | one response per request, in order, all with the one key; devices are the group devices followed by exactly one `/dev/vfio/vfio` |
| Plugin.BindTakesEffect | internal/plugin.go:94-96 | an accepted bind to `vfio-pci` makes the device's driver link resolve to `vfio-pci` |
| Plugin.RebindTakesEffect | internal/plugin.go:85-97 | after a successful plan, the device's driver reads as `vfio-pci` |
| Hook.SetAttrGet | internal/hook.go:107-109 | after `CreateAttr` the attribute reads back as set, and every other attribute reads as before |
| Hook.AttrValueAt | internal/hook.go:86-89 | `SelectAttrValue` gives the value of the first attribute with the key |
| Hook.GuestAddressShape | internal/hook.go:97-105 | type pci, domain `0x0000`, bus `0x` + `%02x` of index + 1, slot `0x00`, function `0x<f>`, and multifunction iff the function is `0` |
| Hook.CloneAddressed | internal/hook.go:95-97 | a copy keeps the hostdev's attributes and children, every child but the source and the alias unchanged, has the guest address last, and is no longer eligible |
| Hook.CloneAlias | internal/hook.go:107 | the copy's alias name is the original's + `-` + function; its other attributes and its children are kept |
| Hook.CloneSource | internal/hook.go:109 | the copy's source function is `0x` + function; the other address attributes, the source's attributes, its other children and the address's children are kept |
| Hook.CloneOrigins | internal/hook.go:91-95 | one copy per inventory device whose slot starts with `domain:bus:slot.`, in inventory order; no such device, no copy |
| Hook.ClonesSettled | internal/hook.go:86-97 | no copy is eligible for another expansion |
| Hook.ClonesNone | internal/hook.go:86-114 | a hostdev whose source slot holds no inventory device needs no alias and is removed without a copy |
| Hook.ExpandHostdev | internal/hook.go:87-114 | the hostdev is replaced in place by its copies, in inventory order; an alias is needed only when some device is in its source slot |
| Hook.RewriteOne | internal/hook.go:85-114 | one hostdev of the walk is expanded at its current position, numbered by the hostdevs before it |
| Hook.Rewrite | internal/hook.go:85-116 | the loop's result is the specification `Expanded` |
| Hook.ExpandedUnchanged | internal/hook.go:85-86 | with no eligible hostdev the children are unchanged, whatever the inventory |
| Hook.ExpandedSettledTail | internal/hook.go:85-114 | children after the last eligible hostdev stay, in order, behind the rest |
| Hook.ExpandedOne | internal/hook.go:111-114 | a single eligible hostdev is replaced where it stood by its copies; the other children stay in place |
| Hook.ExpandedMembers | internal/hook.go:85-114 | the result holds exactly what replaces each child: a non-eligible child itself, an eligible one its copies |
| Hook.ExpandedSettled | internal/hook.go:86-103 | after the rewrite no hostdev is eligible |
| Hook.ExpandedIdempotent | internal/hook.go:85-116 | rewriting a rewritten domain changes nothing |
| Hook.RewrittenExpands | internal/hook.go:91 | the hook's result is the expansion against the inventory sysfs gives |
| Hook.OnDefineDomain | internal/hook.go:78-125 | a parse failure is returned as such; otherwise the rewritten domain is serialized, or the serialization failure is returned |
| Hook.Info | internal/hook.go:62-76 | name `inaccel`, the one hook point `OnDefineDomain` with the priority left at 0, versions `v1alpha2` |
| Hook.PreCloudInitIso | internal/hook.go:127-129 | always `Unimplemented` |

## Left out

- Pci.PathIn: `filepath.Join`'s `Clean` step is modelled only for a clean directory and an element without a separator, which is what sysfs listings and the constants give; a name with `//`, `.` or `..` inside it would be cleaned by Go and is not here.
- Plugin.SocketPathInRegistry: stated only for a selector without `/`, which is not cleaned (see the line above).
- Text is `seq<char>`: file contents and XML are not decoded from UTF-8, and `TrimSpace` uses the Unicode white-space set on characters.
- Logging (`logrus`) has no effect on results and is not modelled, including the log call in `NotifyRegistrationStatus`.
- The gRPC servers are not modelled: `listen`, `Serve`, the goroutines that close listeners, the hook's socket path `/var/run/kubevirt-hooks/inaccel.sock`, `ListAndWatch`'s `Send` error and its blocking wait for cancellation. These are I/O and lifecycle.
- Concurrent `Allocate` calls and races with other writers of sysfs cannot be stated sequentially; the model runs one call at a time.
- `kmodule.Probe` is a set of loadable modules. A load does not change the filesystem, so the `vfio-pci` driver directory is present or absent from the start.
- The kernel's reaction to writes is the assumption `Pci.React`. What a write to `driver_override` does, beyond being recorded, is not modelled.
- `util.ResourceNameToEnvVar` is the function parameter `toEnvVar` of `Allocate`.
- etree's parser, serializer and `IndentTabs` are the function parameters `parse` and `serialize` of `OnDefineDomain`. The domain is taken to have one `devices` element, as libvirt's schema has. The list `FindElements` returns is walked as the children of `devices`, counting hostdev elements for the index.
- XML comments, processing instructions and directives inside `devices` are not represented: a `Hook.Node` is an element or character data, so a domain holding them does not round-trip through `parse` and `serialize`. etree counts such tokens in a child's index, but the copies are still inserted right before the original hostdev.
- Hook.OnDefineDomain: reads the inventory once, before the walk, and only when some hostdev is eligible; the source reads it once per eligible hostdev, and nothing writes sysfs in between, so the readings agree.
- Hook.OnDefineDomain: requires every eligible hostdev to have a `source/address` child, and an `alias` child when some inventory device is in its source slot (`Hook.Expandable`); otherwise the source dereferences nil and panics. An eligible hostdev without alias whose slot holds no device is accepted and removed (`Hook.ClonesNone`).
- Lspci.ListAll: requires every listed device with readable class, device and vendor to have a stripped class of at least four characters; a shorter one makes the source's slice panic. `ListAndWatch` inherits this; `Allocate` only when some container requests an ID, and `OnDefineDomain` only when some hostdev is eligible, since only then does the source read the inventory.
- Pci.ReadDir: the order of a listing is left to the filesystem `Fs`; Go's `os.ReadDir` sorts entries by file name, so the inventory order and the first-match choice of `Lspci.PhySlot` follow name order in the source, and any fixed order here.
- Errors are `Pci.Error` values naming the failing step and its path; Go's error texts are not modelled.
- The source's nested loops are split into helper methods, each proved against its own specification: `SelectAdverts`, `ScanDevices`, `MatchDevices`, `AllocateContainer`, `ServeContainers`, `RewriteOne`, `ExpandHostdev`, `PrintOptional` and `FindPhySlot`.
