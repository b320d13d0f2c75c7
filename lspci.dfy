/**
 * The PCI inventory: one `PCIDevice` record per device directory whose
 * class, device and vendor attributes can be read, with the optional
 * attributes left empty when they cannot.
 */
module Lspci {
  import opened Wrappers
  import opened Strings
  import opened Pci

  datatype PCIDevice = PCIDevice(
    slot: string,
    classCode: string,
    vendor: string,
    device: string,
    sVendor: string,
    sDevice: string,
    phySlot: string,
    rev: string,
    progIf: string,
    driver: string,
    numaNode: string,
    dtNode: string,
    iommuGroup: string)

  /** The device names listed under the devices directory; none when it cannot be read. */
  function Listed(fs: Fs): seq<string> {
    match ReadDir(fs, DevicesDir)
    case Success(names) => names
    case Failure(_) => []
  }

  /** The three attributes without which a device yields no record. */
  predicate Required(fs: Fs, d: string) {
    && ReadAttribute(fs, d, Class).Success?
    && ReadAttribute(fs, d, Device).Success?
    && ReadAttribute(fs, d, Vendor).Success?
  }

  /**
   * The class code is sliced at its fourth character once the three
   * required attributes are read; a shorter code makes the slice panic.
   */
  predicate ClassSplittable(fs: Fs, d: string) {
    Required(fs, d) ==> |TrimPrefix(ReadAttribute(fs, d, Class).value, "0x")| >= 4
  }

  predicate ClassesWellFormed(fs: Fs) {
    forall d :: d in Listed(fs) ==> ClassSplittable(fs, d)
  }

  /** The slot's address is readable and is a prefix of the device name `name`. */
  predicate SlotMatches(fs: Fs, slot: string, name: string) {
    Address(fs, slot).Success? && HasPrefix(name, Address(fs, slot).value)
  }

  /** The position of the first element of `xs` that satisfies `p`. */
  function FirstWhere<T>(xs: seq<T>, p: T -> bool): (r: Option<nat>)
    ensures r.Some? ==> r.value < |xs| && p(xs[r.value])
    ensures r.Some? ==> forall j :: 0 <= j < r.value ==> !p(xs[j])
    ensures r.None? ==> forall j :: 0 <= j < |xs| ==> !p(xs[j])
  {
    if xs == [] then None
    else if p(xs[0]) then Some(0)
    else match FirstWhere(xs[1..], p)
      case None => None
      case Some(k) => Some(k + 1)
  }

  /** The first match is at `j` when no earlier element matches and `j` does (or is past the end). */
  lemma FirstWhereAt<T>(xs: seq<T>, p: T -> bool, j: nat)
    requires j <= |xs|
    requires forall k :: 0 <= k < j ==> !p(xs[k])
    requires j < |xs| ==> p(xs[j])
    ensures FirstWhere(xs, p) == if j < |xs| then Some(j) else None
  {
  }

  /** The position of the first slot, in listing order, that matches the device name. */
  function FirstSlot(fs: Fs, slots: seq<string>, name: string): Option<nat> {
    FirstWhere(slots, s => SlotMatches(fs, s, name))
  }

  /** The first matching slot is at `j` when no earlier slot matches and `j` does (or is past the end). */
  /** The name of the device's physical slot, or empty when no slot matches. */
  function PhySlot(fs: Fs, d: string): string {
    match ReadDir(fs, SlotsDir)
    case Failure(_) => ""
    case Success(slots) =>
      match FirstSlot(fs, slots, NameOf(d))
      case None => ""
      case Some(k) => NameOf(slots[k])
  }

  /** With the slot directory listed, the `j`-th slot is the first to match, or none does when `j` is past the end. */
  lemma PhySlotAt(fs: Fs, d: string, slots: seq<string>, j: nat)
    requires ReadDir(fs, SlotsDir) == Success(slots) && j <= |slots|
    requires forall k :: 0 <= k < j ==> !SlotMatches(fs, slots[k], NameOf(d))
    requires j < |slots| ==> SlotMatches(fs, slots[j], NameOf(d))
    ensures PhySlot(fs, d) == if j < |slots| then NameOf(slots[j]) else ""
  {
    FirstWhereAt(slots, s => SlotMatches(fs, s, NameOf(d)), j);
  }

  /** A text attribute with one leading `0x` removed, or empty when unreadable. */
  function Stripped(r: Result<string, Error>): string {
    if r.Success? then TrimPrefix(r.value, "0x") else ""
  }

  /** The last element of a resolved link, or empty when it does not resolve. */
  function LinkBase(r: Result<string, Error>): string {
    if r.Success? then Base(r.value) else ""
  }

  /**
   * The record of a device whose class code (with its programming
   * interface), vendor and device have been read: the optional attributes
   * are read here, and each is left empty when it cannot be.
   */
  function Describe(fs: Fs, d: string, code: string, vendor: string, device: string): (p: PCIDevice)
    requires |code| >= 4
    ensures p.slot == NameOf(d)
    ensures p.classCode + p.progIf == code && |p.classCode| == 4
    ensures p.vendor == vendor && p.device == device
    ensures p.sDevice != "" ==> ReadAttribute(fs, d, SubsystemVendor).Success?
    ensures p.driver != "" <==> ReadLink(fs, d, DriverLink).Success?
    ensures p.iommuGroup != "" <==> ReadLink(fs, d, IommuGroupLink).Success?
  {
    var subsystemVendor := ReadAttribute(fs, d, SubsystemVendor);
    var sDevice :=
      if subsystemVendor.Success? then Stripped(ReadAttribute(fs, d, SubsystemDevice)) else "";
    var numaNode := ReadAttribute(fs, d, NumaNode);
    var ofNode := ReadLink(fs, d, OfNodeLink);
    assert code == code[..4] + code[4..];
    PCIDevice(
      NameOf(d),
      code[..4],
      vendor,
      device,
      Stripped(subsystemVendor),
      sDevice,
      PhySlot(fs, d),
      Stripped(ReadAttribute(fs, d, Revision)),
      code[4..],
      LinkBase(ReadLink(fs, d, DriverLink)),
      if numaNode.Success? then numaNode.value else "",
      if ofNode.Success? then ofNode.value else "",
      LinkBase(ReadLink(fs, d, IommuGroupLink)))
  }

  /**
   * The optional fields of a record: each is the attribute as read (with
   * one leading `0x` removed where the source strips it), or the last
   * element of the link target for the driver and the IOMMU group, or
   * empty when it cannot be read; the subsystem device is read only after
   * the subsystem vendor was.
   */
  lemma DescribeOptional(fs: Fs, d: string, code: string, vendor: string, device: string)
    requires |code| >= 4
    ensures var p := Describe(fs, d, code, vendor, device);
      var sv := ReadAttribute(fs, d, SubsystemVendor);
      var sd := ReadAttribute(fs, d, SubsystemDevice);
      var rev := ReadAttribute(fs, d, Revision);
      var numa := ReadAttribute(fs, d, NumaNode);
      var ofNode := ReadLink(fs, d, OfNodeLink);
      var driver := ReadLink(fs, d, DriverLink);
      var group := ReadLink(fs, d, IommuGroupLink);
      && (sv.Success? ==> p.sVendor == TrimPrefix(sv.value, "0x")) && (sv.Failure? ==> p.sVendor == "")
      && (sv.Success? && sd.Success? ==> p.sDevice == TrimPrefix(sd.value, "0x"))
      && (sv.Failure? || sd.Failure? ==> p.sDevice == "")
      && (rev.Success? ==> p.rev == TrimPrefix(rev.value, "0x")) && (rev.Failure? ==> p.rev == "")
      && (numa.Success? ==> p.numaNode == numa.value) && (numa.Failure? ==> p.numaNode == "")
      && (ofNode.Success? ==> p.dtNode == ofNode.value) && (ofNode.Failure? ==> p.dtNode == "")
      && (driver.Success? ==> p.driver == Base(driver.value)) && (driver.Failure? ==> p.driver == "")
      && (group.Success? ==> p.iommuGroup == Base(group.value)) && (group.Failure? ==> p.iommuGroup == "")
      && p.phySlot == PhySlot(fs, d)
  {
  }

  /** The record of one listed device, if its required attributes can be read. */
  function Record(fs: Fs, d: string): (r: Option<PCIDevice>)
    requires ClassSplittable(fs, d)
    ensures r.Some? <==> Required(fs, d)
    ensures r.Some? ==> r.value == Describe(fs, d,
      TrimPrefix(ReadAttribute(fs, d, Class).value, "0x"),
      TrimPrefix(ReadAttribute(fs, d, Vendor).value, "0x"),
      TrimPrefix(ReadAttribute(fs, d, Device).value, "0x"))
  {
    match ReadAttribute(fs, d, Class)
    case Failure(_) => None
    case Success(classRaw) =>
      match ReadAttribute(fs, d, Device)
      case Failure(_) => None
      case Success(deviceRaw) =>
        match ReadAttribute(fs, d, Vendor)
        case Failure(_) => None
        case Success(vendorRaw) =>
          Some(Describe(fs, d, TrimPrefix(classRaw, "0x"), TrimPrefix(vendorRaw, "0x"), TrimPrefix(deviceRaw, "0x")))
  }

  function RecordSeq(fs: Fs, d: string): seq<PCIDevice>
    requires ClassSplittable(fs, d)
  {
    match Record(fs, d)
    case Some(p) => [p]
    case None => []
  }

  /** The records of the devices `ds`, in their order. */
  function Records(fs: Fs, ds: seq<string>): (r: seq<PCIDevice>)
    requires forall d :: d in ds ==> ClassSplittable(fs, d)
  {
    if ds == [] then []
    else Records(fs, ds[..|ds| - 1]) + RecordSeq(fs, ds[|ds| - 1])
  }

  /** What `ListAll` returns for the filesystem `fs`. */
  function Inventory(fs: Fs): seq<PCIDevice>
    requires ClassesWellFormed(fs)
  {
    Records(fs, Listed(fs))
  }

  /** The elements of the present options, in order. */
  function Present<T>(os: seq<Option<T>>): seq<T> {
    if os == [] then []
    else Present(os[..|os| - 1]) + (if os[|os| - 1].Some? then [os[|os| - 1].value] else [])
  }

  /** Each element of `Present(os)` comes from the option at the matching position of `o`. */
  ghost predicate PositionsSound<T>(os: seq<Option<T>>, o: seq<nat>) {
    && |o| == |Present(os)|
    && forall k :: 0 <= k < |o| ==> o[k] < |os| && os[o[k]] == Some(Present(os)[k])
  }

  ghost predicate Increasing(o: seq<nat>) {
    forall k, l :: 0 <= k < l < |o| ==> o[k] < o[l]
  }

  /** Every present option has its position in `o`. */
  ghost predicate PositionsComplete<T>(os: seq<Option<T>>, o: seq<nat>) {
    forall i :: 0 <= i < |os| && os[i].Some? ==> exists k :: 0 <= k < |o| && o[k] == i
  }

  /**
   * `o` says where each element of `Present(os)` comes from: the positions,
   * in increasing order, of exactly the present options.
   */
  ghost predicate PositionsOf<T>(os: seq<Option<T>>, o: seq<nat>) {
    PositionsSound(os, o) && Increasing(o) && PositionsComplete(os, o)
  }

  /** The positions of the present options, in increasing order. */
  function Positions<T>(os: seq<Option<T>>): (o: seq<nat>)
    ensures PositionsOf(os, o)
  {
    if os == [] then []
    else
      var o := Positions(os[..|os| - 1]);
      PositionsSnocSound(os, o);
      PositionsSnocIncreasing(os, o);
      PositionsSnocComplete(os, o);
      if os[|os| - 1].None? then o else o + [|os| - 1]
  }

  lemma PositionsSnocSound<T>(os: seq<Option<T>>, o: seq<nat>)
    requires os != [] && PositionsSound(os[..|os| - 1], o)
    ensures PositionsSound(os, if os[|os| - 1].None? then o else o + [|os| - 1])
  {
    var init := os[..|os| - 1];
    assert forall i :: 0 <= i < |init| ==> init[i] == os[i];
    if os[|os| - 1].None? {
      assert Present(os) == Present(init);
    } else {
      var o' := o + [|os| - 1];
      assert Present(os) == Present(init) + [os[|os| - 1].value];
      assert forall k :: 0 <= k < |o| ==> o'[k] == o[k] && Present(os)[k] == Present(init)[k];
    }
  }

  lemma PositionsSnocIncreasing<T>(os: seq<Option<T>>, o: seq<nat>)
    requires os != [] && Increasing(o) && forall k :: 0 <= k < |o| ==> o[k] < |os| - 1
    ensures Increasing(if os[|os| - 1].None? then o else o + [|os| - 1])
  {
  }

  lemma PositionsSnocComplete<T>(os: seq<Option<T>>, o: seq<nat>)
    requires os != [] && PositionsComplete(os[..|os| - 1], o)
    ensures PositionsComplete(os, if os[|os| - 1].None? then o else o + [|os| - 1])
  {
    var init := os[..|os| - 1];
    var o' := if os[|os| - 1].None? then o else o + [|os| - 1];
    forall i | 0 <= i < |os| && os[i].Some?
      ensures exists k :: 0 <= k < |o'| && o'[k] == i
    {
      if i == |os| - 1 {
        assert o'[|o|] == i;
      } else {
        assert init[i].Some?;
        var k :| 0 <= k < |o| && o[k] == i;
        assert o'[k] == i;
      }
    }
  }

  /** What each of the devices `ds` yields, position by position. */
  function Outcomes(fs: Fs, ds: seq<string>): (r: seq<Option<PCIDevice>>)
    requires forall d :: d in ds ==> ClassSplittable(fs, d)
    ensures |r| == |ds| && forall i :: 0 <= i < |ds| ==> r[i] == Record(fs, ds[i])
  {
    seq(|ds|, i requires 0 <= i < |ds| => Record(fs, ds[i]))
  }

  /** The records collected device by device are the present outcomes. */
  lemma {:induction false} RecordsArePresent(fs: Fs, ds: seq<string>)
    requires forall d :: d in ds ==> ClassSplittable(fs, d)
    ensures Records(fs, ds) == Present(Outcomes(fs, ds))
  {
    if ds != [] {
      var init := ds[..|ds| - 1];
      RecordsArePresent(fs, init);
      assert Outcomes(fs, ds)[..|ds| - 1] == Outcomes(fs, init);
    }
  }

  /**
   * Where each record of the inventory comes from: the positions in the
   * listing, in increasing order, of exactly the devices whose required
   * attributes can be read.
   */
  function Origins(fs: Fs): (o: seq<nat>)
    requires ClassesWellFormed(fs)
    ensures |o| == |Inventory(fs)|
    ensures forall k :: 0 <= k < |o| ==> o[k] < |Listed(fs)| && Record(fs, Listed(fs)[o[k]]) == Some(Inventory(fs)[k])
    ensures forall k, l :: 0 <= k < l < |o| ==> o[k] < o[l]
    ensures forall i :: 0 <= i < |Listed(fs)| && Required(fs, Listed(fs)[i]) ==> i in o
  {
    RecordsArePresent(fs, Listed(fs));
    Positions(Outcomes(fs, Listed(fs)))
  }

  /** An element is present exactly when some option holds it. */
  lemma PresentMembers<T>(os: seq<Option<T>>, x: T)
    ensures x in Present(os) <==> exists i :: 0 <= i < |os| && os[i] == Some(x)
  {
    var o := Positions(os);
    var ps := Present(os);
    if x in ps {
      var k :| 0 <= k < |ps| && ps[k] == x;
      assert os[o[k]] == Some(x);
    }
    if i :| 0 <= i < |os| && os[i] == Some(x) {
      var k :| 0 <= k < |o| && o[k] == i;
      assert ps[k] == x;
    }
  }

  /** A record is in the inventory exactly when some listed device yields it. */
  lemma InventoryMembers(fs: Fs, p: PCIDevice)
    requires ClassesWellFormed(fs)
    ensures p in Inventory(fs) <==> exists i :: 0 <= i < |Listed(fs)| && Record(fs, Listed(fs)[i]) == Some(p)
  {
    var os := Outcomes(fs, Listed(fs));
    RecordsArePresent(fs, Listed(fs));
    PresentMembers(os, p);
  }

  /** No directory listing, no records. */
  lemma InventoryOfUnreadableDirectory(fs: Fs)
    requires DevicesDir !in fs.dirs
    ensures ClassesWellFormed(fs) && Inventory(fs) == []
  {
  }

  /**
   * The physical slot of device `d`: the first slot, in listing order,
   * whose address can be read and is a prefix of the device's name.
   */
  method FindPhySlot(fs: Fs, d: string) returns (phySlot: string)
    ensures phySlot == PhySlot(fs, d)
  {
    phySlot := "";
    var name := NameOf(d);
    var listed := Slots(fs);
    if listed.Success? {
      var slots := listed.value;
      var j := 0;
      while j < |slots|
        invariant 0 <= j <= |slots|
        invariant forall k :: 0 <= k < j ==> !SlotMatches(fs, slots[k], name)
      {
        if SlotMatches(fs, slots[j], name) {
          phySlot := NameOf(slots[j]);
          PhySlotAt(fs, d, slots, j);
          return;
        }
        j := j + 1;
      }
      PhySlotAt(fs, d, slots, |slots|);
    }
  }

  /** `ListAll`: walks the device directory in order and collects the records. */
  method ListAll(fs: Fs) returns (devices: seq<PCIDevice>)
    requires ClassesWellFormed(fs)
    ensures devices == Inventory(fs)
  {
    devices := [];
    var listed := Devices(fs);
    var names := if listed.Success? then listed.value else [];
    assert names == Listed(fs);
    for i := 0 to |names|
      invariant devices == Records(fs, names[..i])
    {
      var d := names[i];
      assert ClassSplittable(fs, d) by { assert d in Listed(fs); }
      assert Records(fs, names[..i + 1]) == devices + RecordSeq(fs, d) by {
        assert names[..i + 1][..i] == names[..i];
      }
      var classRaw := ReadAttribute(fs, d, Class);
      if classRaw.Failure? {
        continue;
      }
      var deviceRaw := ReadAttribute(fs, d, Device);
      if deviceRaw.Failure? {
        continue;
      }
      var vendorRaw := ReadAttribute(fs, d, Vendor);
      if vendorRaw.Failure? {
        continue;
      }
      var slot := NameOf(d);
      var code := TrimPrefix(classRaw.value, "0x");
      var classCode := code[..4];
      var vendor := TrimPrefix(vendorRaw.value, "0x");
      var device := TrimPrefix(deviceRaw.value, "0x");
      var sVendor, sDevice := "", "";
      var subsystemVendorRaw := ReadAttribute(fs, d, SubsystemVendor);
      if subsystemVendorRaw.Success? {
        sVendor := TrimPrefix(subsystemVendorRaw.value, "0x");
        var subsystemDeviceRaw := ReadAttribute(fs, d, SubsystemDevice);
        if subsystemDeviceRaw.Success? {
          sDevice := TrimPrefix(subsystemDeviceRaw.value, "0x");
        }
      }
      var phySlot := FindPhySlot(fs, d);
      var rev := "";
      var revisionRaw := ReadAttribute(fs, d, Revision);
      if revisionRaw.Success? {
        rev := TrimPrefix(revisionRaw.value, "0x");
      }
      var progIf := code[4..];
      var driver := "";
      var driverRaw := ReadLink(fs, d, DriverLink);
      if driverRaw.Success? {
        driver := Base(driverRaw.value);
      }
      var numaNode := "";
      var numaNodeRaw := ReadAttribute(fs, d, NumaNode);
      if numaNodeRaw.Success? {
        numaNode := numaNodeRaw.value;
      }
      var dtNode := "";
      var ofNodeRaw := ReadLink(fs, d, OfNodeLink);
      if ofNodeRaw.Success? {
        dtNode := ofNodeRaw.value;
      }
      var iommuGroup := "";
      var iommuGroupRaw := ReadLink(fs, d, IommuGroupLink);
      if iommuGroupRaw.Success? {
        iommuGroup := Base(iommuGroupRaw.value);
      }
      var p := PCIDevice(slot, classCode, vendor, device, sVendor, sDevice, phySlot,
                         rev, progIf, driver, numaNode, dtNode, iommuGroup);
      assert p == Describe(fs, d, code, vendor, device);
      devices := devices + [p];
    }
    assert names[..|names|] == names;
  }

  // ---------------------------------------------------------------------
  // What a rebinding leaves unchanged

  /** A record with its driver blanked: everything a rebinding cannot change. */
  function Masked(p: PCIDevice): PCIDevice {
    p.(driver := "")
  }

  function MaskAll(ps: seq<PCIDevice>): (r: seq<PCIDevice>)
    ensures |r| == |ps|
  {
    seq(|ps|, i requires 0 <= i < |ps| => Masked(ps[i]))
  }

  lemma FirstWhereSame<T>(xs: seq<T>, p: T -> bool, q: T -> bool)
    requires forall x :: x in xs ==> p(x) == q(x)
    ensures FirstWhere(xs, p) == FirstWhere(xs, q)
  {
    var r := FirstWhere(xs, p);
    if r.Some? {
      FirstWhereAt(xs, q, r.value);
    } else {
      FirstWhereAt(xs, q, |xs|);
    }
  }

  lemma PhySlotStable(fs: Fs, fs': Fs, d: string)
    requires SameExceptDriverLinks(fs, fs')
    ensures PhySlot(fs', d) == PhySlot(fs, d)
  {
    if SlotsDir in fs.dirs {
      var slots := fs.dirs[SlotsDir];
      var name := NameOf(d);
      forall s | s in slots
        ensures SlotMatches(fs', s, name) == SlotMatches(fs, s, name)
      {
        AddressStable(fs, fs', s);
      }
      FirstWhereSame(slots, s => SlotMatches(fs', s, name), s => SlotMatches(fs, s, name));
    }
  }

  lemma DescribeStable(fs: Fs, fs': Fs, d: string, code: string, vendor: string, device: string)
    requires SameExceptDriverLinks(fs, fs') && |code| >= 4
    ensures Masked(Describe(fs', d, code, vendor, device)) == Masked(Describe(fs, d, code, vendor, device))
  {
    ReadAttributeStable(fs, fs', d, SubsystemVendor);
    ReadAttributeStable(fs, fs', d, SubsystemDevice);
    ReadAttributeStable(fs, fs', d, Revision);
    ReadAttributeStable(fs, fs', d, NumaNode);
    ReadLinkStable(fs, fs', d, OfNodeLink);
    ReadLinkStable(fs, fs', d, IommuGroupLink);
    PhySlotStable(fs, fs', d);
  }

  /** A rebinding changes at most the driver of a device's record. */
  lemma RecordStable(fs: Fs, fs': Fs, d: string)
    requires SameExceptDriverLinks(fs, fs') && ClassSplittable(fs, d)
    ensures ClassSplittable(fs', d)
    ensures Record(fs', d).Some? <==> Record(fs, d).Some?
    ensures Record(fs, d).Some? ==> Masked(Record(fs', d).value) == Masked(Record(fs, d).value)
  {
    ReadAttributeStable(fs, fs', d, Class);
    ReadAttributeStable(fs, fs', d, Device);
    ReadAttributeStable(fs, fs', d, Vendor);
    if Required(fs, d) {
      DescribeStable(fs, fs', d,
        TrimPrefix(ReadAttribute(fs, d, Class).value, "0x"),
        TrimPrefix(ReadAttribute(fs, d, Vendor).value, "0x"),
        TrimPrefix(ReadAttribute(fs, d, Device).value, "0x"));
    }
  }

  lemma RecordSeqStable(fs: Fs, fs': Fs, d: string)
    requires SameExceptDriverLinks(fs, fs') && ClassSplittable(fs, d)
    ensures ClassSplittable(fs', d)
    ensures MaskAll(RecordSeq(fs', d)) == MaskAll(RecordSeq(fs, d))
  {
    RecordStable(fs, fs', d);
    MaskOptions(Record(fs, d), RecordSeq(fs, d), Record(fs', d), RecordSeq(fs', d));
  }

  lemma MaskOptions(o: Option<PCIDevice>, s: seq<PCIDevice>, o': Option<PCIDevice>, s': seq<PCIDevice>)
    requires s == (match o case Some(p) => [p] case None => [])
    requires s' == (match o' case Some(p) => [p] case None => [])
    requires o.Some? <==> o'.Some?
    requires o.Some? ==> Masked(o'.value) == Masked(o.value)
    ensures MaskAll(s') == MaskAll(s)
  {
    if o.Some? {
      assert MaskAll(s) == [Masked(o.value)];
      assert MaskAll(s') == [Masked(o'.value)];
    }
  }

  lemma {:induction false} RecordsStable(fs: Fs, fs': Fs, ds: seq<string>)
    requires SameExceptDriverLinks(fs, fs')
    requires forall d :: d in ds ==> ClassSplittable(fs, d)
    ensures forall d :: d in ds ==> ClassSplittable(fs', d)
    ensures MaskAll(Records(fs', ds)) == MaskAll(Records(fs, ds))
  {
    if ds != [] {
      var init := ds[..|ds| - 1];
      var last := ds[|ds| - 1];
      assert forall d :: d in init ==> d in ds;
      RecordsStable(fs, fs', init);
      RecordSeqStable(fs, fs', last);
      assert forall d :: d in ds ==> d in init || d == last;
      var a, b := Records(fs, init), RecordSeq(fs, last);
      var a', b' := Records(fs', init), RecordSeq(fs', last);
      assert Records(fs, ds) == a + b;
      assert Records(fs', ds) == a' + b';
      MaskAppend(a, b);
      MaskAppend(a', b');
    }
  }

  lemma MaskAppend(a: seq<PCIDevice>, b: seq<PCIDevice>)
    ensures MaskAll(a + b) == MaskAll(a) + MaskAll(b)
  {
    assert forall i :: 0 <= i < |a + b| ==> MaskAll(a + b)[i] == (MaskAll(a) + MaskAll(b))[i];
  }

  /**
   * A rebinding leaves the inventory the same except for drivers: the same
   * devices, in the same order, with the same fields but `Driver`.
   */
  lemma InventoryStable(fs: Fs, fs': Fs)
    requires SameExceptDriverLinks(fs, fs') && ClassesWellFormed(fs)
    ensures ClassesWellFormed(fs')
    ensures MaskAll(Inventory(fs')) == MaskAll(Inventory(fs))
  {
    assert Listed(fs') == Listed(fs);
    RecordsStable(fs, fs', Listed(fs));
  }

  // ---------------------------------------------------------------------
  // (*PCIDevice).String

  /** The keys of the lines `String` prints. */
  datatype Key =
    | SlotKey | ClassKey | VendorKey | DeviceKey | SVendorKey | SDeviceKey | PhySlotKey
    | RevKey | ProgIfKey | DriverKey | NUMANodeKey | DTNodeKey | IOMMUGroupKey

  function KeyName(k: Key): string {
    match k
    case SlotKey => "Slot"
    case ClassKey => "Class"
    case VendorKey => "Vendor"
    case DeviceKey => "Device"
    case SVendorKey => "SVendor"
    case SDeviceKey => "SDevice"
    case PhySlotKey => "PhySlot"
    case RevKey => "Rev"
    case ProgIfKey => "ProgIf"
    case DriverKey => "Driver"
    case NUMANodeKey => "NUMANode"
    case DTNodeKey => "DTNode"
    case IOMMUGroupKey => "IOMMUGroup"
  }

  /** The position of a key's line among all possible lines. */
  function Rank(k: Key): nat {
    match k
    case SlotKey => 0
    case ClassKey => 1
    case VendorKey => 2
    case DeviceKey => 3
    case SVendorKey => 4
    case SDeviceKey => 5
    case PhySlotKey => 6
    case RevKey => 7
    case ProgIfKey => 8
    case DriverKey => 9
    case NUMANodeKey => 10
    case DTNodeKey => 11
    case IOMMUGroupKey => 12
  }

  /** The key whose line comes `n`-th. */
  function KeyAt(n: nat): (k: Key)
    requires n < 13
    ensures Rank(k) == n
  {
    match n
    case 0 => SlotKey
    case 1 => ClassKey
    case 2 => VendorKey
    case 3 => DeviceKey
    case 4 => SVendorKey
    case 5 => SDeviceKey
    case 6 => PhySlotKey
    case 7 => RevKey
    case 8 => ProgIfKey
    case 9 => DriverKey
    case 10 => NUMANodeKey
    case 11 => DTNodeKey
    case 12 => IOMMUGroupKey
  }

  /** The field a key prints. */
  function Field(p: PCIDevice, k: Key): string {
    match k
    case SlotKey => p.slot
    case ClassKey => p.classCode
    case VendorKey => p.vendor
    case DeviceKey => p.device
    case SVendorKey => p.sVendor
    case SDeviceKey => p.sDevice
    case PhySlotKey => p.phySlot
    case RevKey => p.rev
    case ProgIfKey => p.progIf
    case DriverKey => p.driver
    case NUMANodeKey => p.numaNode
    case DTNodeKey => p.dtNode
    case IOMMUGroupKey => p.iommuGroup
  }

  /** The first four lines are always printed, the others only for a non-empty field. */
  predicate Shown(p: PCIDevice, k: Key) {
    Rank(k) < 4 || Field(p, k) != ""
  }

  function Entry(p: PCIDevice, k: Key): seq<(Key, string)> {
    if Shown(p, k) then [(k, Field(p, k))] else []
  }

  /** The lines printed for the `n` first keys, in their order. */
  function Prefix(p: PCIDevice, n: nat): seq<(Key, string)>
    requires n <= 13
  {
    if n == 0 then [] else Prefix(p, n - 1) + Entry(p, KeyAt(n - 1))
  }

  /** The key/value lines `String` prints, in order. */
  function Entries(p: PCIDevice): seq<(Key, string)> {
    Prefix(p, 13)
  }

  /** One output line: the key, a colon and a tab, the value, a newline. */
  function Line(key: string, value: string): string {
    key + ":\t" + value + "\n"
  }

  function LineOf(e: (Key, string)): string {
    Line(KeyName(e.0), e.1)
  }

  /** The strings `f` gives for the elements of `xs`, concatenated in order. */
  function Concat<T>(xs: seq<T>, f: T -> string): string {
    if xs == [] then "" else Concat(xs[..|xs| - 1], f) + f(xs[|xs| - 1])
  }

  /** The text of the lines `es`. */
  function Text(es: seq<(Key, string)>): string {
    Concat(es, LineOf)
  }

  lemma {:induction false} PrefixMembers(p: PCIDevice, n: nat, k: Key, v: string)
    requires n <= 13
    ensures (k, v) in Prefix(p, n) <==> Rank(k) < n && Shown(p, k) && v == Field(p, k)
  {
    if n > 0 {
      PrefixMembers(p, n - 1, k, v);
      if Rank(k) == n - 1 {
        assert k == KeyAt(n - 1);
      }
    }
  }

  lemma {:induction false} PrefixOrdered(p: PCIDevice, n: nat)
    requires n <= 13
    ensures forall i, j :: 0 <= i < j < |Prefix(p, n)| ==> Rank(Prefix(p, n)[i].0) < Rank(Prefix(p, n)[j].0)
  {
    if n > 0 {
      PrefixOrdered(p, n - 1);
      var es := Prefix(p, n - 1);
      forall i | 0 <= i < |es|
        ensures Rank(es[i].0) < n - 1
      {
        PrefixMembers(p, n - 1, es[i].0, es[i].1);
      }
      var all := Prefix(p, n);
      assert all == es + Entry(p, KeyAt(n - 1));
      forall i, j | 0 <= i < j < |all|
        ensures Rank(all[i].0) < Rank(all[j].0)
      {
        if j >= |es| {
          assert all[j].0 == KeyAt(n - 1);
          assert all[i] == es[i];
        } else {
          assert all[i] == es[i] && all[j] == es[j];
        }
      }
    }
  }

  /**
   * The printed lines are exactly the always-printed fields and the
   * non-empty optional ones, each with its own value.
   */
  lemma EntriesMembers(p: PCIDevice, k: Key, v: string)
    ensures (k, v) in Entries(p) <==> Shown(p, k) && v == Field(p, k)
  {
    PrefixMembers(p, 13, k, v);
  }

  /** The printed lines follow the fixed key order, so no key repeats. */
  lemma EntriesOrdered(p: PCIDevice)
    ensures forall i, j :: 0 <= i < j < |Entries(p)| ==> Rank(Entries(p)[i].0) < Rank(Entries(p)[j].0)
  {
    PrefixOrdered(p, 13);
    assert Entries(p) == Prefix(p, 13);
  }

  lemma {:induction false} ConcatAppend<T>(xs: seq<T>, ys: seq<T>, f: T -> string)
    ensures Concat(xs + ys, f) == Concat(xs, f) + Concat(ys, f)
    decreases |ys|
  {
    if ys == [] {
      assert xs + ys == xs;
    } else {
      var init := ys[..|ys| - 1];
      ConcatAppend(xs, init, f);
      assert (xs + ys)[..|xs + ys| - 1] == xs + init;
      assert (xs + ys)[|xs + ys| - 1] == ys[|ys| - 1];
    }
  }

  /** The text of the lines for the `n` first keys, one key at a time. */
  function Printed(p: PCIDevice, n: nat): string
    requires n <= 13
  {
    if n == 0 then ""
    else
      var k := KeyAt(n - 1);
      Printed(p, n - 1) + if Shown(p, k) then Line(KeyName(k), Field(p, k)) else ""
  }

  lemma {:induction false} PrintedIsText(p: PCIDevice, n: nat)
    requires n <= 13
    ensures Printed(p, n) == Text(Prefix(p, n))
  {
    if n > 0 {
      var k := KeyAt(n - 1);
      PrintedIsText(p, n - 1);
      ConcatAppend(Prefix(p, n - 1), Entry(p, k), LineOf);
      if Shown(p, k) {
        assert Entry(p, k)[..0] == [];
      }
    }
  }

  /** One optional `Fprintf`: the line for key `k` is printed only when its field is not empty. */
  method PrintOptional(p: PCIDevice, n: nat, k: Key, s: string) returns (r: string)
    requires 4 <= n < 13 && KeyAt(n) == k && s == Printed(p, n)
    ensures r == Printed(p, n + 1)
  {
    r := s;
    if Field(p, k) != "" {
      r := r + Line(KeyName(k), Field(p, k));
    }
  }

  /** `String`: the device's lines, built up one `Fprintf` at a time. */
  method String(p: PCIDevice) returns (s: string)
    ensures s == Text(Entries(p))
  {
    s := "";
    s := s + Line(KeyName(SlotKey), p.slot);
    assert s == Printed(p, 1);
    s := s + Line(KeyName(ClassKey), p.classCode);
    assert s == Printed(p, 2);
    s := s + Line(KeyName(VendorKey), p.vendor);
    assert s == Printed(p, 3);
    s := s + Line(KeyName(DeviceKey), p.device);
    assert s == Printed(p, 4);
    s := PrintOptional(p, 4, SVendorKey, s);
    s := PrintOptional(p, 5, SDeviceKey, s);
    s := PrintOptional(p, 6, PhySlotKey, s);
    s := PrintOptional(p, 7, RevKey, s);
    s := PrintOptional(p, 8, ProgIfKey, s);
    s := PrintOptional(p, 9, DriverKey, s);
    s := PrintOptional(p, 10, NUMANodeKey, s);
    s := PrintOptional(p, 11, DTNodeKey, s);
    s := PrintOptional(p, 12, IOMMUGroupKey, s);
    PrintedIsText(p, 13);
  }
}
