/**
 * The KubeVirt `OnDefineDomain` hook: in the libvirt domain's `devices`,
 * every PCI `hostdev` without a guest address is replaced by one copy per
 * host function of its source slot, each with a guest address of its own.
 */
module Hook {
  import opened Wrappers
  import opened Strings
  import opened Pci
  import opened Lspci
  import opened Rpc

  // ---------------------------------------------------------------------
  // The XML tree, as far as the hook reads and writes it

  datatype Attr = Attr(key: string, value: string)

  /** An element with its attributes and children in document order, or character data. */
  datatype Node = Element(tag: string, attrs: seq<Attr>, children: seq<Node>) | CharData(text: string)

  /** The parsed domain: the children of its `devices` element and the rest of the document. */
  datatype Domain = Domain(rest: seq<Node>, devices: seq<Node>)

  newtype Byte = b: int | 0 <= b < 256

  datatype HookError = ParseFailed | SerializeFailed

  predicate IsTagged(n: Node, tag: string) {
    n.Element? && n.tag == tag
  }

  /** Both are elements with one tag, or neither is an element. */
  predicate SameTag(a: Node, b: Node) {
    a.Element? == b.Element? && (a.Element? ==> a.tag == b.tag)
  }

  /** `SelectAttrValue(key, dflt)`: the value of the first attribute named `key`, or `dflt`. */
  function AttrValue(attrs: seq<Attr>, key: string, dflt: string): string {
    if attrs == [] then dflt
    else if attrs[0].key == key then attrs[0].value
    else AttrValue(attrs[1..], key, dflt)
  }

  /** `CreateAttr(key, value)`: the first attribute named `key` takes `value`; without one, it is appended. */
  function SetAttr(attrs: seq<Attr>, key: string, value: string): seq<Attr> {
    if attrs == [] then [Attr(key, value)]
    else if attrs[0].key == key then [Attr(key, value)] + attrs[1..]
    else [attrs[0]] + SetAttr(attrs[1..], key, value)
  }

  /** After `CreateAttr`, the attribute reads back as set, and every other attribute as before. */
  lemma {:induction false} SetAttrGet(attrs: seq<Attr>, key: string, value: string, other: string, dflt: string)
    ensures AttrValue(SetAttr(attrs, key, value), key, dflt) == value
    ensures other != key ==> AttrValue(SetAttr(attrs, key, value), other, dflt) == AttrValue(attrs, other, dflt)
  {
    var r := SetAttr(attrs, key, value);
    if attrs != [] && attrs[0].key != key {
      SetAttrGet(attrs[1..], key, value, other, dflt);
      assert r[1..] == SetAttr(attrs[1..], key, value);
    } else if attrs != [] {
      assert r[1..] == attrs[1..];
    }
  }

  /** The first attribute named `key` gives the value. */
  lemma {:induction false} AttrValueAt(attrs: seq<Attr>, key: string, i: nat)
    requires i < |attrs| && attrs[i].key == key
    requires forall m :: 0 <= m < i ==> attrs[m].key != key
    ensures forall dflt :: AttrValue(attrs, key, dflt) == attrs[i].value
  {
    if i > 0 {
      AttrValueAt(attrs[1..], key, i - 1);
    }
  }

  /** `FindElement(tag)` relative to an element: the position of its first child element with that tag. */
  function FindChild(children: seq<Node>, tag: string): Option<nat> {
    FirstWhere(children, n => IsTagged(n, tag))
  }

  /** Whether some child element carries the tag. */
  predicate HasChild(n: Node, tag: string) {
    n.Element? && FindChild(n.children, tag).Some?
  }

  /**
   * `FindElement("source/address")`: the first `source` child that has an
   * `address` child, and the position of that address in it.
   */
  function SourceAddress(children: seq<Node>): Option<(nat, nat)> {
    match FirstWhere(children, n => IsTagged(n, "source") && HasChild(n, "address"))
    case None => None
    case Some(i) => Some((i, FindChild(children[i].children, "address").value))
  }

  // ---------------------------------------------------------------------
  // Which hostdevs are expanded, and into what

  /** A `hostdev` of type `pci` that has no guest `address` yet. */
  predicate Eligible(n: Node) {
    IsTagged(n, "hostdev") && AttrValue(n.attrs, "type", "") == "pci" && FindChild(n.children, "address").None?
  }

  /** An eligible hostdev with the `source/address` element the hook reads its slot from. */
  predicate Sourced(n: Node) {
    Eligible(n) && SourceAddress(n.children).Some?
  }

  /** A sourced hostdev with the `alias` element every copy of it renames. */
  predicate Copyable(n: Node) {
    Sourced(n) && FindChild(n.children, "alias").Some?
  }

  /** Inventory entry `p` is in the source slot of `h` only if `h` has an alias to rename. */
  predicate CopyableFor(h: Node, p: PCIDevice)
    requires Sourced(h)
  {
    HasPrefix(p.slot, SourcePrefix(h)) ==> FindChild(h.children, "alias").Some?
  }

  /**
   * The hook gets through `n` against inventory `inv` without a nil
   * dereference: an eligible hostdev has a `source/address`, and an `alias`
   * as soon as some entry of `inv` is in its source slot.
   */
  predicate Expandable(n: Node, inv: seq<PCIDevice>) {
    Eligible(n) ==> Sourced(n) && forall i :: 0 <= i < |inv| ==> CopyableFor(n, inv[i])
  }

  /** The host address a hostdev points at. */
  function SourceAddressOf(h: Node): (a: Node)
    requires Sourced(h)
  {
    var (i, j) := SourceAddress(h.children).value;
    h.children[i].children[j]
  }

  /** `domain:bus:slot.`, each part the source attribute with one leading `0x` removed. */
  function SourcePrefix(h: Node): string
    requires Sourced(h)
  {
    var a := SourceAddressOf(h).attrs;
    TrimPrefix(AttrValue(a, "domain", ""), "0x") + ":" + TrimPrefix(AttrValue(a, "bus", ""), "0x") + ":"
      + TrimPrefix(AttrValue(a, "slot", ""), "0x") + "."
  }

  /** The guest address of the copy for function `f` of the `index`-th hostdev. */
  function GuestAddress(index: nat, f: string): Node {
    Element("address",
      [Attr("type", "pci"), Attr("domain", "0x0000"), Attr("bus", "0x" + Hex02(index + 1)),
       Attr("slot", "0x00"), Attr("function", "0x" + f)]
      + (if f == "0" then [Attr("multifunction", "on")] else []),
      [])
  }

  /**
   * The copy of hostdev `h` for host function `f`: the guest address
   * appended, the alias name suffixed with `-f`, the source function set
   * to `0xf`.
   */
  function Clone(h: Node, index: nat, f: string): Node
    requires Copyable(h)
  {
    var (i, j) := SourceAddress(h.children).value;
    var k := FindChild(h.children, "alias").value;
    var source := h.children[i];
    var address := source.children[j];
    var alias := h.children[k];
    var source' := source.(children := source.children[j := address.(attrs := SetAttr(address.attrs, "function", "0x" + f))]);
    var alias' := alias.(attrs := SetAttr(alias.attrs, "name", AttrValue(alias.attrs, "name", "") + "-" + f));
    h.(children := h.children[i := source'][k := alias'] + [GuestAddress(index, f)])
  }

  /** The copies of hostdev `h`, one per inventory device in its source slot, in inventory order. */
  function Clones(h: Node, index: nat, inv: seq<PCIDevice>): seq<Node>
    requires Eligible(h) && Expandable(h, inv)
  {
    if inv == [] then []
    else
      var p := inv[|inv| - 1];
      var prefix := SourcePrefix(h);
      Clones(h, index, inv[..|inv| - 1])
        + if HasPrefix(p.slot, prefix) then [Clone(h, index, TrimPrefix(p.slot, prefix))] else []
  }

  /** The number of `hostdev` elements among `ns`. */
  function Hostdevs(ns: seq<Node>): nat {
    if ns == [] then 0 else Hostdevs(ns[..|ns| - 1]) + if IsTagged(ns[|ns| - 1], "hostdev") then 1 else 0
  }

  /** What takes the place of `n`, the `index`-th hostdev if it is one. */
  function Replacement(n: Node, index: nat, inv: seq<PCIDevice>): seq<Node>
    requires Expandable(n, inv)
  {
    if Eligible(n) then Clones(n, index, inv) else [n]
  }

  /** The `devices` children after the rewrite. */
  function Expanded(ns: seq<Node>, inv: seq<PCIDevice>): seq<Node>
    requires forall n :: n in ns ==> Expandable(n, inv)
  {
    if ns == [] then []
    else Expanded(ns[..|ns| - 1], inv) + Replacement(ns[|ns| - 1], Hostdevs(ns[..|ns| - 1]), inv)
  }

  // ---------------------------------------------------------------------
  // The rewrite, in place

  /**
   * The body of the hostdev loop (`internal/hook.go` lines 87-114): insert
   * a copy before the hostdev at `at` for each matching inventory device,
   * then remove the hostdev.
   */
  method ExpandHostdev(children: seq<Node>, at: nat, hostdev: Node, index: nat, inventory: seq<PCIDevice>)
    returns (result: seq<Node>)
    requires at < |children| && children[at] == hostdev && Eligible(hostdev) && Expandable(hostdev, inventory)
    ensures result == children[..at] + Clones(hostdev, index, inventory) + children[at + 1..]
  {
    var source := SourceAddressOf(hostdev);
    var domain := TrimPrefix(AttrValue(source.attrs, "domain", ""), "0x");
    var bus := TrimPrefix(AttrValue(source.attrs, "bus", ""), "0x");
    var slot := TrimPrefix(AttrValue(source.attrs, "slot", ""), "0x");
    var prefix := domain + ":" + bus + ":" + slot + ".";
    result := children;
    var pos := at;
    assert prefix == SourcePrefix(hostdev);
    for i := 0 to |inventory|
      invariant pos == at + |Clones(hostdev, index, inventory[..i])|
      invariant result == children[..at] + Clones(hostdev, index, inventory[..i]) + children[at..]
    {
      var p := inventory[i];
      ClonesSnoc(hostdev, index, inventory, i);
      if HasPrefix(p.slot, prefix) {
        var fn := TrimPrefix(p.slot, prefix);
        ghost var done := Clones(hostdev, index, inventory[..i]);
        InsertAt(children[..at] + done, children[at..], Clone(hostdev, index, fn));
        Regroup(children[..at], done, [Clone(hostdev, index, fn)]);
        result := result[..pos] + [Clone(hostdev, index, fn)] + result[pos..];
        pos := pos + 1;
      }
    }
    assert inventory[..|inventory|] == inventory;
    Around(children, at);
    RemoveAt(children[..at] + Clones(hostdev, index, inventory), hostdev, children[at + 1..]);
    result := result[..pos] + result[pos + 1..];
  }

  /** One more inventory device adds its copy when it is in the hostdev's source slot. */
  lemma ClonesSnoc(h: Node, index: nat, inv: seq<PCIDevice>, i: nat)
    requires Eligible(h) && Expandable(h, inv) && i < |inv|
    ensures Clones(h, index, inv[..i + 1]) == Clones(h, index, inv[..i])
      + if HasPrefix(inv[i].slot, SourcePrefix(h)) then [Clone(h, index, TrimPrefix(inv[i].slot, SourcePrefix(h)))] else []
  {
    assert inv[..i + 1][..i] == inv[..i];
  }

  lemma InsertAt<T>(x: seq<T>, y: seq<T>, c: T)
    ensures (x + y)[..|x|] + [c] + (x + y)[|x|..] == x + [c] + y
  {
    assert (x + y)[..|x|] == x && (x + y)[|x|..] == y;
  }

  lemma Around<T>(s: seq<T>, i: nat)
    requires i < |s|
    ensures s[i..] == [s[i]] + s[i + 1..]
  {
  }

  lemma RemoveAt<T>(x: seq<T>, c: T, y: seq<T>)
    ensures (x + ([c] + y))[..|x|] + (x + ([c] + y))[|x| + 1..] == x + y
  {
    assert (x + ([c] + y))[..|x|] == x && (x + ([c] + y))[|x| + 1..] == y;
  }

  /**
   * The hostdev loop of `OnDefineDomain`: every hostdev, numbered in
   * document order, and every eligible one expanded where it stands.
   */
  method Rewrite(devices: seq<Node>, inventory: seq<PCIDevice>) returns (children: seq<Node>)
    requires forall n :: n in devices ==> Expandable(n, inventory)
    ensures children == Expanded(devices, inventory)
  {
    children := devices;
    var index := 0;
    for q := 0 to |devices|
      invariant index == Hostdevs(devices[..q])
      invariant children == Expanded(devices[..q], inventory) + devices[q..]
    {
      children, index := RewriteOne(devices, inventory, q, children, index);
    }
    assert devices[..|devices|] == devices;
  }

  /**
   * One hostdev of the walk: when eligible, expanded where it now stands,
   * which is after what replaced the children before it.
   */
  method RewriteOne(devices: seq<Node>, inventory: seq<PCIDevice>, q: nat, children: seq<Node>, index: nat)
    returns (children': seq<Node>, index': nat)
    requires forall n :: n in devices ==> Expandable(n, inventory)
    requires q < |devices|
    requires index == Hostdevs(devices[..q])
    requires children == Expanded(devices[..q], inventory) + devices[q..]
    ensures index' == Hostdevs(devices[..q + 1])
    ensures children' == Expanded(devices[..q + 1], inventory) + devices[q + 1..]
  {
    var n := devices[q];
    ghost var done := Expanded(devices[..q], inventory);
    ghost var rest := devices[q + 1..];
    ExpandedStep(devices, q, inventory);
    SplitAt(devices[..q], n, rest);
    assert devices == devices[..q] + [n] + rest;
    SplitAt(done, n, rest);
    var at := q + |children| - |devices|;
    children' := children;
    if n.Element? && n.tag == "hostdev" && AttrValue(n.attrs, "type", "") == "pci"
       && FindChild(n.children, "address").None? {
      children' := ExpandHostdev(children, at, n, index, inventory);
      Regroup(done, Clones(n, index, inventory), rest);
    } else {
      Regroup(done, [n], rest);
    }
    index' := index;
    if n.Element? && n.tag == "hostdev" {
      index' := index + 1;
    }
  }

  /** The parts of `a + [x] + b`. */
  lemma SplitAt<T>(a: seq<T>, x: T, b: seq<T>)
    ensures var s := a + [x] + b;
      s[..|a|] == a && s[|a|] == x && s[|a| + 1..] == b && s[|a|..] == [x] + b && a + ([x] + b) == s
  {
  }

  lemma Regroup<T>(a: seq<T>, b: seq<T>, c: seq<T>)
    ensures a + (b + c) == (a + b) + c
  {
  }

  lemma SplitLast<T>(b: seq<T>)
    requires b != []
    ensures b == b[..|b| - 1] + [b[|b| - 1]]
  {
  }

  lemma EmptyRight<T>(a: seq<T>)
    ensures a + [] == a
  {
  }

  /** One more child: its replacement follows, numbered by the hostdevs before it. */
  lemma ExpandedStep(devices: seq<Node>, q: nat, inv: seq<PCIDevice>)
    requires q < |devices|
    requires forall n :: n in devices ==> Expandable(n, inv)
    ensures Hostdevs(devices[..q + 1]) == Hostdevs(devices[..q]) + if IsTagged(devices[q], "hostdev") then 1 else 0
    ensures Expanded(devices[..q + 1], inv)
      == Expanded(devices[..q], inv) + Replacement(devices[q], Hostdevs(devices[..q]), inv)
  {
    assert devices[..q + 1][..q] == devices[..q];
  }

  // ---------------------------------------------------------------------
  // The hook's calls

  /** Some hostdev of the domain is to be expanded. */
  predicate AnyEligible(devices: seq<Node>) {
    exists n :: n in devices && Eligible(n)
  }

  /**
   * What the hook demands of sysfs and the domain: only when some hostdev
   * is eligible is the inventory read, and then every hostdev must get
   * through against it.
   */
  predicate Rewritable(fs: Fs, d: Domain) {
    AnyEligible(d.devices) ==> ClassesWellFormed(fs) && forall n :: n in d.devices ==> Expandable(n, Inventory(fs))
  }

  /**
   * The domain after the rewrite. The inventory is read only when some
   * hostdev is eligible, and nothing changes sysfs in between the reads.
   */
  function Rewritten(fs: Fs, d: Domain): Domain
    requires Rewritable(fs, d)
  {
    d.(devices := Expanded(d.devices, if AnyEligible(d.devices) then Inventory(fs) else []))
  }

  /**
   * `OnDefineDomain`: parse the domain, rewrite its hostdevs, serialize it.
   * Parsing and serializing (with `IndentTabs`) are the parameters `parse`
   * and `serialize`; either may fail, and the failure is returned.
   */
  method OnDefineDomain(fs: Fs, parse: seq<Byte> -> Option<Domain>, serialize: Domain -> Option<seq<Byte>>,
                        domainXml: seq<Byte>)
    returns (r: Result<seq<Byte>, HookError>)
    requires parse(domainXml).Some? ==> Rewritable(fs, parse(domainXml).value)
    ensures parse(domainXml).None? ==> r == Failure(ParseFailed)
    ensures parse(domainXml).Some? ==>
      var out := serialize(Rewritten(fs, parse(domainXml).value));
      && (out.None? ==> r == Failure(SerializeFailed))
      && (out.Some? ==> r == Success(out.value))
  {
    var parsed := parse(domainXml);
    if parsed.None? {
      return Failure(ParseFailed);
    }
    var d := parsed.value;
    var inventory := [];
    if AnyEligible(d.devices) {
      inventory := ListAll(fs);
    }
    var devices := Rewrite(d.devices, inventory);
    var out := serialize(d.(devices := devices));
    if out.None? {
      return Failure(SerializeFailed);
    }
    r := Success(out.value);
  }

  datatype HookPoint = HookPoint(name: string, priority: int)
  datatype InfoResult = InfoResult(name: string, hookPoints: seq<HookPoint>, versions: seq<string>)

  /** `Info`: the hook is `inaccel`, on the `OnDefineDomain` point, speaking `v1alpha2`. */
  function Info(): (r: InfoResult)
    ensures r.name == "inaccel" && r.hookPoints == [HookPoint("OnDefineDomain", 0)] && r.versions == ["v1alpha2"]
  {
    InfoResult("inaccel", [HookPoint("OnDefineDomain", 0)], ["v1alpha2"])
  }

  /** `PreCloudInitIso` is not implemented. */
  function PreCloudInitIso(): (r: Result<Empty, Status>)
    ensures r == Failure(Status(Unimplemented, ""))
  {
    Failure(Status(Unimplemented, ""))
  }

  // ---------------------------------------------------------------------
  // What a copy looks like

  /** Child lookup only looks at tags: a sequence with the same tags up front finds the same child. */
  lemma FindChildSameTags(ns: seq<Node>, ms: seq<Node>, tag: string)
    requires |ns| <= |ms|
    requires forall j :: 0 <= j < |ns| ==> IsTagged(ms[j], tag) == IsTagged(ns[j], tag)
    requires FindChild(ns, tag).Some?
    ensures FindChild(ms, tag) == FindChild(ns, tag)
  {
    FirstWhereAt(ms, n => IsTagged(n, tag), FindChild(ns, tag).value);
  }

  /** The guest address of a copy: bus `index + 1` in two hex digits, function `f`, multifunction for `0`. */
  lemma GuestAddressShape(index: nat, f: string)
    ensures var a := GuestAddress(index, f).attrs;
      && AttrValue(a, "type", "") == "pci" && AttrValue(a, "domain", "") == "0x0000"
      && AttrValue(a, "slot", "") == "0x00" && AttrValue(a, "function", "") == "0x" + f
      && (Attr("multifunction", "on") in a <==> f == "0")
    ensures AttrValue(GuestAddress(index, f).attrs, "bus", "") == "0x" + Hex02(index + 1)
      && ParseHex(Hex02(index + 1)) == index + 1 && (|Hex02(index + 1)| == 2 <==> index < 255)
  {
    var a := GuestAddress(index, f).attrs;
    GuestAddressMultifunction(index, f);
    AttrValueAt(a, "type", 0);
    AttrValueAt(a, "domain", 1);
    AttrValueAt(a, "bus", 2);
    AttrValueAt(a, "slot", 3);
    AttrValueAt(a, "function", 4);
    Hex02RoundTrip(index + 1);
  }

  /** Only the address of function 0 carries `multifunction="on"`. */
  lemma GuestAddressMultifunction(index: nat, f: string)
    ensures Attr("multifunction", "on") in GuestAddress(index, f).attrs <==> f == "0"
  {
    var a := GuestAddress(index, f).attrs;
    if f == "0" {
      assert a[5] == Attr("multifunction", "on");
    } else {
      assert |a| == 5;
      forall m | 0 <= m < 5
        ensures a[m].key != "multifunction"
      {
        assert a[m].key[0] != 'm';
      }
    }
  }

  /**
   * A copy keeps the hostdev's own attributes and children, in place, and
   * gets the guest address last, so it is itself no longer eligible. Of
   * the children, only the source and the alias differ.
   */
  lemma CloneAddressed(h: Node, index: nat, f: string)
    requires Copyable(h)
    ensures var c := Clone(h, index, f);
      && IsTagged(c, "hostdev") && c.attrs == h.attrs && |c.children| == |h.children| + 1
      && (forall m :: 0 <= m < |h.children| ==> SameTag(c.children[m], h.children[m]))
      && (forall m :: 0 <= m < |h.children| && m != SourceAddress(h.children).value.0 && m != FindChild(h.children, "alias").value
            ==> c.children[m] == h.children[m])
      && FindChild(c.children, "address") == Some(|h.children|)
      && c.children[|h.children|] == GuestAddress(index, f)
      && !Eligible(c)
  {
    var c := Clone(h, index, f);
    var n := |h.children|;
    CloneChildren(h, index, f);
    forall m | 0 <= m < n
      ensures !IsTagged(c.children[m], "address")
    {
      assert !IsTagged(h.children[m], "address");
    }
    FirstWhereAt(c.children, x => IsTagged(x, "address"), n);
  }

  /** The copy's children: the hostdev's, each with its tag, then the guest address. */
  lemma CloneChildren(h: Node, index: nat, f: string)
    requires Copyable(h)
    ensures var c := Clone(h, index, f);
      && IsTagged(c, "hostdev") && c.attrs == h.attrs && |c.children| == |h.children| + 1
      && (forall m :: 0 <= m < |h.children| ==> SameTag(c.children[m], h.children[m]))
      && (forall m :: 0 <= m < |h.children| && m != SourceAddress(h.children).value.0 && m != FindChild(h.children, "alias").value
            ==> c.children[m] == h.children[m])
      && c.children[|h.children|] == GuestAddress(index, f)
  {
  }

  /**
   * A copy's alias is where the hostdev's was, its name suffixed with `-f`;
   * its other attributes and its children are kept.
   */
  lemma CloneAlias(h: Node, index: nat, f: string)
    requires Copyable(h)
    ensures var c := Clone(h, index, f);
      var k := FindChild(h.children, "alias").value;
      && FindChild(c.children, "alias") == Some(k)
      && AttrValue(c.children[k].attrs, "name", "") == AttrValue(h.children[k].attrs, "name", "") + "-" + f
      && c.children[k].children == h.children[k].children
      && forall key :: key != "name" ==> AttrValue(c.children[k].attrs, key, "") == AttrValue(h.children[k].attrs, key, "")
  {
    var c := Clone(h, index, f);
    var k := FindChild(h.children, "alias").value;
    CloneAddressed(h, index, f);
    FindChildSameTags(h.children, c.children, "alias");
    var al := h.children[k].attrs;
    var name := AttrValue(al, "name", "") + "-" + f;
    SetAttrGet(al, "name", name, "", "");
    forall key | key != "name"
      ensures AttrValue(SetAttr(al, "name", name), key, "") == AttrValue(al, key, "")
    {
      SetAttrGet(al, "name", name, key, "");
    }
  }

  /**
   * A copy's source address is where the hostdev's was; its function is
   * `0xf` and every other attribute is kept, as are the source's own
   * attributes, its other children and the address's children.
   */
  lemma CloneSource(h: Node, index: nat, f: string)
    requires Copyable(h)
    ensures var c := Clone(h, index, f);
      var (i, j) := SourceAddress(h.children).value;
      && SourceAddress(c.children) == Some((i, j))
      && c.children[i].attrs == h.children[i].attrs
      && |c.children[i].children| == |h.children[i].children|
      && (forall m :: 0 <= m < |h.children[i].children| && m != j ==> c.children[i].children[m] == h.children[i].children[m])
      && c.children[i].children[j].children == h.children[i].children[j].children
      && AttrValue(c.children[i].children[j].attrs, "function", "") == "0x" + f
      && forall key :: key != "function" ==>
           AttrValue(c.children[i].children[j].attrs, key, "") == AttrValue(h.children[i].children[j].attrs, key, "")
  {
    var c := Clone(h, index, f);
    var (i, j) := SourceAddress(h.children).value;
    var k := FindChild(h.children, "alias").value;
    assert i != k;
    var src := h.children[i];
    FindChildSameTags(src.children, c.children[i].children, "address");
    var isSource := x => IsTagged(x, "source") && HasChild(x, "address");
    assert forall m :: 0 <= m < i ==> c.children[m] == h.children[m] || IsTagged(c.children[m], "alias");
    FirstWhereAt(c.children, isSource, i);
    var addr := src.children[j].attrs;
    forall key | key != "function"
      ensures AttrValue(SetAttr(addr, "function", "0x" + f), key, "") == AttrValue(addr, key, "")
    {
      SetAttrGet(addr, "function", "0x" + f, key, "");
    }
    SetAttrGet(addr, "function", "0x" + f, "", "");
  }

  // ---------------------------------------------------------------------
  // The copies of one hostdev

  /** The copy an inventory entry yields, if its slot is in the hostdev's source slot. */
  function CloneOffer(h: Node, index: nat, p: PCIDevice): Option<Node>
    requires Sourced(h) && CopyableFor(h, p)
  {
    if HasPrefix(p.slot, SourcePrefix(h)) then Some(Clone(h, index, TrimPrefix(p.slot, SourcePrefix(h)))) else None
  }

  /** Entry by entry, the copy it yields. */
  function CloneOffers(h: Node, index: nat, inv: seq<PCIDevice>): (r: seq<Option<Node>>)
    requires Eligible(h) && Expandable(h, inv)
    ensures |r| == |inv|
    ensures forall i :: 0 <= i < |inv| ==> r[i] == CloneOffer(h, index, inv[i])
  {
    seq(|inv|, i requires 0 <= i < |inv| => CloneOffer(h, index, inv[i]))
  }


  lemma {:induction false} ClonesArePresent(h: Node, index: nat, inv: seq<PCIDevice>)
    requires Eligible(h) && Expandable(h, inv)
    ensures Clones(h, index, inv) == Present(CloneOffers(h, index, inv))
  {
    if inv != [] {
      var init := inv[..|inv| - 1];
      ClonesArePresent(h, index, init);
      assert CloneOffers(h, index, inv)[..|inv| - 1] == CloneOffers(h, index, init);
    }
  }

  /**
   * Where the copies of a hostdev come from: one inventory device in its
   * source slot each, at increasing positions, none skipped; the copy
   * carries the part of the device's address after the slot as function.
   * With no such device, the hostdev leaves no copy.
   */
  function CloneOrigins(h: Node, index: nat, inv: seq<PCIDevice>): (o: seq<nat>)
    requires Eligible(h) && Expandable(h, inv)
    ensures |o| == |Clones(h, index, inv)|
    ensures forall k :: 0 <= k < |o| ==>
      && o[k] < |inv| && HasPrefix(inv[o[k]].slot, SourcePrefix(h))
      && Clones(h, index, inv)[k] == Clone(h, index, TrimPrefix(inv[o[k]].slot, SourcePrefix(h)))
    ensures forall k, l :: 0 <= k < l < |o| ==> o[k] < o[l]
    ensures forall i :: 0 <= i < |inv| && HasPrefix(inv[i].slot, SourcePrefix(h)) ==> i in o
  {
    ClonesArePresent(h, index, inv);
    Positions(CloneOffers(h, index, inv))
  }

  /** No copy is eligible for another expansion. */
  lemma {:induction false} ClonesSettled(h: Node, index: nat, inv: seq<PCIDevice>)
    requires Eligible(h) && Expandable(h, inv)
    ensures forall c :: c in Clones(h, index, inv) ==> !Eligible(c)
  {
    if inv != [] {
      var init := inv[..|inv| - 1];
      var p := inv[|inv| - 1];
      ClonesSettled(h, index, init);
      if HasPrefix(p.slot, SourcePrefix(h)) {
        CloneAddressed(h, index, TrimPrefix(p.slot, SourcePrefix(h)));
      }
    }
  }

  /**
   * A hostdev whose source slot holds no inventory entry needs no alias,
   * and is removed without a copy.
   */
  lemma {:induction false} ClonesNone(h: Node, index: nat, inv: seq<PCIDevice>)
    requires Sourced(h)
    requires forall i :: 0 <= i < |inv| ==> !HasPrefix(inv[i].slot, SourcePrefix(h))
    ensures Expandable(h, inv) && Clones(h, index, inv) == []
  {
    if inv != [] {
      ClonesNone(h, index, inv[..|inv| - 1]);
    }
  }

  // ---------------------------------------------------------------------
  // The rewrite as a whole

  /** A domain without eligible hostdevs is left as it is, whatever the inventory. */
  lemma {:induction false} ExpandedUnchanged(ns: seq<Node>, inv: seq<PCIDevice>)
    requires forall n :: n in ns ==> !Eligible(n)
    ensures Expanded(ns, inv) == ns
  {
    if ns != [] {
      var init := ns[..|ns| - 1];
      ExpandedUnchanged(init, inv);
      SplitLast(ns);
    }
  }

  /** Expanding one more child appends its replacement. */
  lemma ExpandedSnoc(ns: seq<Node>, x: Node, inv: seq<PCIDevice>)
    requires (forall n :: n in ns ==> Expandable(n, inv)) && Expandable(x, inv)
    ensures Expanded(ns + [x], inv) == Expanded(ns, inv) + Replacement(x, Hostdevs(ns), inv)
  {
    assert (ns + [x])[..|ns|] == ns;
  }

  /** Children after the last eligible hostdev stay as they are, behind what came before. */
  lemma {:induction false} ExpandedSettledTail(a: seq<Node>, b: seq<Node>, inv: seq<PCIDevice>)
    requires forall n :: n in a ==> Expandable(n, inv)
    requires forall n :: n in b ==> !Eligible(n)
    ensures Expanded(a + b, inv) == Expanded(a, inv) + b
    decreases |b|
  {
    if b != [] {
      var init := b[..|b| - 1];
      var last := b[|b| - 1];
      ExpandedSettledTail(a, init, inv);
      SplitLast(b);
      Regroup(a, init, [last]);
      ExpandedSnoc(a + init, last, inv);
      Regroup(Expanded(a, inv), init, [last]);
    } else {
      EmptyRight(a);
    }
  }

  /**
   * A single eligible hostdev among other children is replaced, in place,
   * by its copies, numbered by the hostdevs before it; the others stay.
   */
  lemma ExpandedOne(a: seq<Node>, h: Node, b: seq<Node>, inv: seq<PCIDevice>)
    requires Eligible(h) && Expandable(h, inv)
    requires forall n :: n in a + b ==> !Eligible(n)
    ensures Expanded(a + [h] + b, inv) == a + Clones(h, Hostdevs(a), inv) + b
  {
    ExpandedUnchanged(a, inv);
    assert (a + [h])[..|a|] == a;
    ExpandedSettledTail(a + [h], b, inv);
  }

  /**
   * What the rewrite holds: exactly what replaces each child, numbered by
   * the hostdevs before it; so every child that is not eligible is kept,
   * and everything else is a copy of an eligible one.
   */
  lemma {:induction false} ExpandedMembers(ns: seq<Node>, inv: seq<PCIDevice>, x: Node)
    requires forall n :: n in ns ==> Expandable(n, inv)
    ensures x in Expanded(ns, inv) <==> exists i :: 0 <= i < |ns| && x in Replacement(ns[i], Hostdevs(ns[..i]), inv)
  {
    if x in Expanded(ns, inv) {
      ExpandedOrigin(ns, inv, x);
    }
    if i :| 0 <= i < |ns| && x in Replacement(ns[i], Hostdevs(ns[..i]), inv) {
      ReplacementInExpanded(ns, inv, i, x);
    }
  }

  /** What replaces a child is part of the expansion. */
  lemma {:induction false} ReplacementInExpanded(ns: seq<Node>, inv: seq<PCIDevice>, i: nat, x: Node)
    requires forall n :: n in ns ==> Expandable(n, inv)
    requires i < |ns| && x in Replacement(ns[i], Hostdevs(ns[..i]), inv)
    ensures x in Expanded(ns, inv)
  {
    var n := |ns| - 1;
    var init := ns[..n];
    if i < n {
      assert init[i] == ns[i] && init[..i] == ns[..i];
      ReplacementInExpanded(init, inv, i, x);
    }
  }

  /** Every node of the expansion replaces some child. */
  lemma {:induction false} ExpandedOrigin(ns: seq<Node>, inv: seq<PCIDevice>, x: Node)
    requires forall n :: n in ns ==> Expandable(n, inv)
    requires x in Expanded(ns, inv)
    ensures exists i :: 0 <= i < |ns| && x in Replacement(ns[i], Hostdevs(ns[..i]), inv)
  {
    var n := |ns| - 1;
    var init := ns[..n];
    if x in Expanded(init, inv) {
      ExpandedOrigin(init, inv, x);
      var i :| 0 <= i < |init| && x in Replacement(init[i], Hostdevs(init[..i]), inv);
      assert init[i] == ns[i] && init[..i] == ns[..i];
    } else {
      assert x in Replacement(ns[n], Hostdevs(ns[..n]), inv);
    }
  }

  /** After the rewrite no hostdev is eligible any more. */
  lemma {:induction false} ExpandedSettled(ns: seq<Node>, inv: seq<PCIDevice>)
    requires forall n :: n in ns ==> Expandable(n, inv)
    ensures forall n :: n in Expanded(ns, inv) ==> !Eligible(n)
  {
    if ns != [] {
      var init := ns[..|ns| - 1];
      var last := ns[|ns| - 1];
      ExpandedSettled(init, inv);
      if Eligible(last) {
        ClonesSettled(last, Hostdevs(init), inv);
      }
    }
  }

  /** Rewriting a rewritten domain changes nothing. */
  lemma ExpandedIdempotent(ns: seq<Node>, inv: seq<PCIDevice>, inv': seq<PCIDevice>)
    requires forall n :: n in ns ==> Expandable(n, inv)
    ensures forall n :: n in Expanded(ns, inv) ==> Expandable(n, inv')
    ensures Expanded(Expanded(ns, inv), inv') == Expanded(ns, inv)
  {
    ExpandedSettled(ns, inv);
    ExpandedUnchanged(Expanded(ns, inv), inv');
  }

  /** The hook's rewrite is the expansion against the inventory of the sysfs it reads. */
  lemma RewrittenExpands(fs: Fs, d: Domain)
    requires ClassesWellFormed(fs) && forall n :: n in d.devices ==> Expandable(n, Inventory(fs))
    ensures Rewritten(fs, d).devices == Expanded(d.devices, Inventory(fs))
  {
    if !AnyEligible(d.devices) {
      ExpandedUnchanged(d.devices, Inventory(fs));
      ExpandedUnchanged(d.devices, []);
    }
  }
}
