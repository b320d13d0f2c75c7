/**
 * The sysfs view of the PCI bus (`/sys/bus/pci/{devices,drivers,slots}`):
 * the name/path helpers, the attribute readers and the writes to
 * `driver_override`, `bind` and `unbind`, over an abstract filesystem.
 */
module Pci {
  import opened Wrappers
  import opened Strings

  const DevicesDir: string := "/sys/bus/pci/devices"
  const DriversDir: string := "/sys/bus/pci/drivers"
  const SlotsDir: string := "/sys/bus/pci/slots"

  /** What the kernel does with a write to one of its control files. */
  datatype Control = BindFile(driver: string) | UnbindFile

  /**
   * The part of the filesystem the program sees. A path missing from
   * `resolve` is one `filepath.EvalSymlinks` fails on; a resolved name
   * missing from `files` is one `os.ReadFile` fails on.
   */
  datatype Fs = Fs(
    dirs: map<string, seq<string>>,   // os.ReadDir: entry names in listing order
    resolve: map<string, string>,     // filepath.EvalSymlinks
    files: map<string, string>,       // os.ReadFile, by resolved name
    openable: set<string>,            // os.OpenFile(name, O_WRONLY, 0) succeeds
    rejects: set<string>,             // the kernel refuses a write to the opened file
    controls: map<string, Control>)   // the bus's bind and unbind files, by resolved name

  datatype Error =
    | ReadDirFailed(path: string)
    | ResolveFailed(path: string)
    | ReadFailed(name: string)
    | OpenFailed(name: string)
    | WriteFailed(name: string)
    | ProbeFailed(modname: string)

  /** Side effects on the kernel, in the order they happen. */
  datatype Event = Probed(modname: string) | Wrote(name: string, data: string)

  /** The kernel: the filesystem, the modules a probe can load, and the effects so far. */
  datatype Sys = Sys(fs: Fs, loadable: set<string>, trace: seq<Event>)

  /** A kernel state together with what an operation returned. */
  datatype After<T> = After(sys: Sys, out: T)

  // ---------------------------------------------------------------------
  // Devices, Drivers, Slots: directory listings

  function ReadDir(fs: Fs, dir: string): (r: Result<seq<string>, Error>)
    ensures r.Success? <==> dir in fs.dirs
    ensures r.Success? ==> r.value == fs.dirs[dir]
    ensures r.Failure? ==> r.error == ReadDirFailed(dir)
  {
    if dir in fs.dirs then Success(fs.dirs[dir]) else Failure(ReadDirFailed(dir))
  }

  /** One name per directory entry, in listing order; the error when the directory cannot be read. */
  method ListEntries(fs: Fs, dir: string) returns (r: Result<seq<string>, Error>)
    ensures r == ReadDir(fs, dir)
  {
    if dir !in fs.dirs {
      return Failure(ReadDirFailed(dir));
    }
    var entries := fs.dirs[dir];
    var names: seq<string> := [];
    for i := 0 to |entries|
      invariant names == entries[..i]
    {
      names := names + [entries[i]];
    }
    assert entries[..|entries|] == entries;
    return Success(names);
  }

  method Devices(fs: Fs) returns (r: Result<seq<string>, Error>)
    ensures r == ReadDir(fs, DevicesDir)
  {
    r := ListEntries(fs, DevicesDir);
  }

  method Drivers(fs: Fs) returns (r: Result<seq<string>, Error>)
    ensures r == ReadDir(fs, DriversDir)
  {
    r := ListEntries(fs, DriversDir);
  }

  method Slots(fs: Fs) returns (r: Result<seq<string>, Error>)
    ensures r == ReadDir(fs, SlotsDir)
  {
    r := ListEntries(fs, SlotsDir);
  }

  // ---------------------------------------------------------------------
  // Path() and String() of devices, drivers and slots

  /** `Path()`: a name that holds a separator is a path already; any other name lives under `dir`. */
  function PathIn(dir: string, name: string): string {
    if '/' in name then name else Join(dir, name)
  }

  /** `String()`: a name without separator is itself; a path gives its last element. */
  function NameOf(name: string): string {
    if '/' !in name then name else Base(name)
  }

  /** A path not ending in a separator names its last element: what follows the final separator. */
  lemma NameOfPath(name: string)
    requires '/' in name && name[|name| - 1] != '/'
    ensures var n := NameOf(name); '/' !in n && n != "" && EndsWith(name, "/" + n)
  {
    BaseOfPath(name);
  }

  /** For a plain name `n`, `String()` of `Path(n)` is `n` again. */
  lemma NameOfPathIn(dir: string, name: string)
    requires IsElem(name)
    ensures NameOf(PathIn(dir, name)) == name
  {
    var p := Join(dir, name);
    assert p[|p| - |name| - 1] == '/';
    BaseOfJoin(dir, name);
  }

  /**
   * `Path()`: a name with a separator is kept; a plain name is placed
   * directly inside the bus directory.
   */
  lemma PathShape(dir: string, name: string)
    requires dir == DevicesDir || dir == DriversDir || dir == SlotsDir
    ensures '/' in name ==> PathIn(dir, name) == name
    ensures IsElem(name) ==> PathIn(dir, name) == dir + "/" + name
  {
  }

  function DevicePath(name: string): string {
    PathIn(DevicesDir, name)
  }

  function DriverPath(name: string): string {
    PathIn(DriversDir, name)
  }

  function SlotPath(name: string): string {
    PathIn(SlotsDir, name)
  }

  // ---------------------------------------------------------------------
  // Attribute readers

  /** The text attributes of a device that are read and trimmed. */
  datatype Attribute = Class | Device | Vendor | Revision | NumaNode | SubsystemVendor | SubsystemDevice

  function AttributeFile(a: Attribute): string {
    match a
    case Class => "class"
    case Device => "device"
    case Vendor => "vendor"
    case Revision => "revision"
    case NumaNode => "numa_node"
    case SubsystemVendor => "subsystem_vendor"
    case SubsystemDevice => "subsystem_device"
  }

  /** The symbolic links of a device that are resolved and returned as they are. */
  datatype Link = DriverLink | IommuGroupLink | OfNodeLink

  function LinkFile(l: Link): string {
    match l
    case DriverLink => "driver"
    case IommuGroupLink => "iommu_group"
    case OfNodeLink => "of_node"
  }

  function EvalSymlinks(fs: Fs, path: string): Result<string, Error> {
    if path in fs.resolve then Success(fs.resolve[path]) else Failure(ResolveFailed(path))
  }

  /** Resolve, read, and trim: the first failing step decides the error. */
  function ReadTrimmed(fs: Fs, path: string): Result<string, Error> {
    match EvalSymlinks(fs, path)
    case Failure(e) => Failure(e)
    case Success(name) =>
      if name in fs.files then Success(TrimSpace(fs.files[name])) else Failure(ReadFailed(name))
  }

  /**
   * A trimmed read succeeds exactly when the path resolves to a readable
   * file, and gives its content without surrounding white space; a failure
   * names the step that failed.
   */
  lemma ReadTrimmedCases(fs: Fs, path: string)
    ensures ReadTrimmed(fs, path).Success? <==> path in fs.resolve && fs.resolve[path] in fs.files
    ensures ReadTrimmed(fs, path).Success? ==> ReadTrimmed(fs, path).value == TrimSpace(fs.files[fs.resolve[path]])
    ensures path !in fs.resolve ==> ReadTrimmed(fs, path) == Failure(ResolveFailed(path))
    ensures path in fs.resolve && fs.resolve[path] !in fs.files ==>
      ReadTrimmed(fs, path) == Failure(ReadFailed(fs.resolve[path]))
  {
  }

  /** `Class`, `Device`, `Vendor`, `Revision`, `NumaNode`, `SubsystemVendor`, `SubsystemDevice`. */
  function ReadAttribute(fs: Fs, device: string, a: Attribute): (r: Result<string, Error>)
  {
    ReadTrimmed(fs, Join(DevicePath(device), AttributeFile(a)))
  }

  /** `Driver`, `IommuGroup`, `OfNode`: the resolved target, unchanged. */
  function ReadLink(fs: Fs, device: string, l: Link): (r: Result<string, Error>)
  {
    EvalSymlinks(fs, Join(DevicePath(device), LinkFile(l)))
  }

  /** `Slot.Address`: the trimmed content of the slot's `address` file. */
  function Address(fs: Fs, slot: string): (r: Result<string, Error>)
  {
    ReadTrimmed(fs, Join(SlotPath(slot), "address"))
  }

  // ---------------------------------------------------------------------
  // The kernel's side of the writes

  /** The link whose target names the driver of the device at `slot`. */
  function DriverLinkOf(slot: string): (p: string)
    ensures EndsWith(p, "/driver")
  {
    Join(DevicePath(slot), "driver")
  }

  /**
   * Everything reads can see is the same, except possibly the targets of
   * device `driver` links.
   */
  ghost predicate SameExceptDriverLinks(fs: Fs, fs': Fs) {
    && fs'.dirs == fs.dirs && fs'.files == fs.files
    && fs'.openable == fs.openable && fs'.rejects == fs.rejects && fs'.controls == fs.controls
    && forall p :: !EndsWith(p, "/driver") ==>
         (p in fs'.resolve <==> p in fs.resolve)
         && (p in fs.resolve ==> fs'.resolve[p] == fs.resolve[p])
  }

  /**
   * How the kernel reacts to an accepted write of `data` to the file
   * `name`: writing a device address to a driver's `bind` file points that
   * device's `driver` link at the driver, writing it to an `unbind` file
   * removes the link, and any other write changes nothing reads can see.
   */
  function React(fs: Fs, name: string, data: string): (r: Fs)
    ensures SameExceptDriverLinks(fs, r)
    ensures name in fs.controls && fs.controls[name].BindFile? ==>
      DriverLinkOf(data) in r.resolve && r.resolve[DriverLinkOf(data)] == DriverPath(fs.controls[name].driver)
    ensures name in fs.controls && fs.controls[name].UnbindFile? ==> DriverLinkOf(data) !in r.resolve
  {
    if name !in fs.controls then fs
    else match fs.controls[name]
      case BindFile(d) => fs.(resolve := fs.resolve[DriverLinkOf(data) := DriverPath(d)])
      case UnbindFile => fs.(resolve := fs.resolve - {DriverLinkOf(data)})
  }

  /** `kmodule.Probe`: loads the module or fails; a load is recorded. */
  function ProbeEffect(s: Sys, modname: string): (r: After<Option<Error>>)
    ensures r.out.None? <==> modname in s.loadable
    ensures r.out.None? ==> r.sys == s.(trace := s.trace + [Probed(modname)])
    ensures r.out.Some? ==> r.sys == s && r.out.value == ProbeFailed(modname)
  {
    if modname in s.loadable then After(s.(trace := s.trace + [Probed(modname)]), None)
    else After(s, Some(ProbeFailed(modname)))
  }

  /**
   * Writing `data` to the attribute at `path`: resolve, open, write. The
   * first step that fails decides the error and nothing changes; on
   * success exactly one write of `data` to the resolved file is recorded.
   */
  function WriteEffect(s: Sys, path: string, data: string): (r: After<Option<Error>>)
    ensures r.out.None? <==> path in s.fs.resolve && s.fs.resolve[path] in s.fs.openable
                             && s.fs.resolve[path] !in s.fs.rejects
    ensures r.out.None? ==> r.sys.trace == s.trace + [Wrote(s.fs.resolve[path], data)]
                            && r.sys.fs == React(s.fs, s.fs.resolve[path], data)
    ensures r.out.Some? ==> r.sys == s
    ensures path !in s.fs.resolve ==> r.out == Some(ResolveFailed(path))
    ensures path in s.fs.resolve && s.fs.resolve[path] !in s.fs.openable ==>
      r.out == Some(OpenFailed(s.fs.resolve[path]))
    ensures path in s.fs.resolve && s.fs.resolve[path] in s.fs.openable && s.fs.resolve[path] in s.fs.rejects ==>
      r.out == Some(WriteFailed(s.fs.resolve[path]))
    ensures r.sys.loadable == s.loadable && SameExceptDriverLinks(s.fs, r.sys.fs)
  {
    if path !in s.fs.resolve then After(s, Some(ResolveFailed(path)))
    else
      var name := s.fs.resolve[path];
      if name !in s.fs.openable then After(s, Some(OpenFailed(name)))
      else if name in s.fs.rejects then After(s, Some(WriteFailed(name)))
      else After(Sys(React(s.fs, name, data), s.loadable, s.trace + [Wrote(name, data)]), None)
  }

  function DriverOverridePath(device: string): string {
    Join(DevicePath(device), "driver_override")
  }

  function BindPath(driver: string): string {
    Join(DriverPath(driver), "bind")
  }

  function UnbindPath(driver: string): string {
    Join(DriverPath(driver), "unbind")
  }

  /** The kernel as the program drives it: module loads and attribute writes. */
  class Kernel {
    var fs: Fs
    var trace: seq<Event>
    const loadable: set<string>

    function State(): Sys
      reads this
    {
      Sys(fs, loadable, trace)
    }

    constructor (fs: Fs, loadable: set<string>)
      ensures State() == Sys(fs, loadable, [])
    {
      this.fs := fs;
      this.loadable := loadable;
      this.trace := [];
    }

    method Probe(modname: string) returns (err: Option<Error>)
      modifies this
      ensures After(State(), err) == ProbeEffect(old(State()), modname)
    {
      if modname !in loadable {
        return Some(ProbeFailed(modname));
      }
      trace := trace + [Probed(modname)];
      return None;
    }

    /** `filepath.EvalSymlinks`, `os.OpenFile(name, os.O_WRONLY, 0)`, `f.WriteString(data)`. */
    method WriteString(path: string, data: string) returns (err: Option<Error>)
      modifies this
      ensures After(State(), err) == WriteEffect(old(State()), path, data)
    {
      if path !in fs.resolve {
        return Some(ResolveFailed(path));
      }
      var name := fs.resolve[path];
      if name !in fs.openable {
        return Some(OpenFailed(name));
      }
      if name in fs.rejects {
        return Some(WriteFailed(name));
      }
      fs := React(fs, name, data);
      trace := trace + [Wrote(name, data)];
      return None;
    }
  }

  /** `Device.DriverOverride(s)`: writes `s` to the device's `driver_override`. */
  method DriverOverride(k: Kernel, device: string, s: string) returns (err: Option<Error>)
    modifies k
    ensures After(k.State(), err) == WriteEffect(old(k.State()), DriverOverridePath(device), s)
  {
    err := k.WriteString(DriverOverridePath(device), s);
  }

  /** `Driver.Bind(s)`: writes `s` to the driver's `bind` file. */
  method Bind(k: Kernel, driver: string, s: string) returns (err: Option<Error>)
    modifies k
    ensures After(k.State(), err) == WriteEffect(old(k.State()), BindPath(driver), s)
  {
    err := k.WriteString(BindPath(driver), s);
  }

  /** `Driver.Unbind(s)`: writes `s` to the driver's `unbind` file. */
  method Unbind(k: Kernel, driver: string, s: string) returns (err: Option<Error>)
    modifies k
    ensures After(k.State(), err) == WriteEffect(old(k.State()), UnbindPath(driver), s)
  {
    err := k.WriteString(UnbindPath(driver), s);
  }
  // ---------------------------------------------------------------------
  // What a write leaves unchanged

  lemma SameExceptDriverLinksTrans(a: Fs, b: Fs, c: Fs)
    requires SameExceptDriverLinks(a, b) && SameExceptDriverLinks(b, c)
    ensures SameExceptDriverLinks(a, c)
  {
  }

  /** A path ending in an element other than `driver` does not end in `/driver`. */
  lemma NotDriverSuffix(p: string, elem: string)
    requires EndsWith(p, "/" + elem) && IsElem(elem) && elem != "driver"
    ensures !EndsWith(p, "/driver")
  {
    var e := "/" + elem;
    SuffixesNest(p, e, "/driver");
    SuffixesNest(p, "/driver", e);
    var d := "/driver";
    assert forall i :: 1 <= i < 7 ==> d[i] != '/';
    SuffixHead(d, e);
    assert d == "/" + "driver";
    assert EndsWith(d, e) ==> |e| == 7;
    assert elem == e[1..] && "driver" == d[1..];
    assert !EndsWith(d, e);
    assert |e| > 7 ==> e[|e| - 7] == elem[|elem| - 7];
  }

  /** A file other than `driver`, joined under any directory, is not a `driver` link. */
  lemma NotDriverLink(dir: string, elem: string)
    requires IsElem(elem) && elem != "driver"
    ensures !EndsWith(Join(dir, elem), "/driver")
  {
    JoinEndsWith(dir, elem);
    NotDriverSuffix(Join(dir, elem), elem);
  }

  lemma AttributeFileIsElem(a: Attribute)
    ensures IsElem(AttributeFile(a)) && AttributeFile(a) != "driver"
  {
    var f := AttributeFile(a);
    assert forall i :: 0 <= i < |f| ==> f[i] != '/';
  }

  lemma LinkFileIsElem(l: Link)
    ensures IsElem(LinkFile(l))
    ensures l != DriverLink ==> LinkFile(l) != "driver"
  {
    var f := LinkFile(l);
    assert forall i :: 0 <= i < |f| ==> f[i] != '/';
  }

  /** Text attributes read the same before and after a rebinding. */
  lemma ReadAttributeStable(fs: Fs, fs': Fs, device: string, a: Attribute)
    requires SameExceptDriverLinks(fs, fs')
    ensures ReadAttribute(fs', device, a) == ReadAttribute(fs, device, a)
  {
    AttributeFileIsElem(a);
    NotDriverLink(DevicePath(device), AttributeFile(a));
  }

  /** Links other than `driver` resolve the same before and after a rebinding. */
  lemma ReadLinkStable(fs: Fs, fs': Fs, device: string, l: Link)
    requires SameExceptDriverLinks(fs, fs') && l != DriverLink
    ensures ReadLink(fs', device, l) == ReadLink(fs, device, l)
  {
    LinkFileIsElem(l);
    NotDriverLink(DevicePath(device), LinkFile(l));
  }

  /** Slot addresses read the same before and after a rebinding. */
  lemma AddressStable(fs: Fs, fs': Fs, slot: string)
    requires SameExceptDriverLinks(fs, fs')
    ensures Address(fs', slot) == Address(fs, slot)
  {
    assert IsElem("address") by {
      var f := "address";
      assert forall i :: 0 <= i < |f| ==> f[i] != '/';
    }
    NotDriverLink(SlotPath(slot), "address");
  }
}
