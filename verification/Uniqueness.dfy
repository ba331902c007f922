/** validateUniqueness: nested loops over index maps, in whatever order the node map is iterated. */
module Uniqueness {
  import opened Common
  import opened Manifest
  import opened Text
  import opened SingleVM
  import opened Scheduler
  import opened Confluence

  /** The part of an address before the first slash. */
  function HostPart(address: string): string {
    Split(address, '/')[0]
  }

  predicate FixedMac(nic: Nic) {
    nic.mac != "" && nic.mac != "auto"
  }

  predicate Addressed(nic: Nic) {
    nic.network != "" && nic.address.Some? && nic.address.value != ""
  }

  /** A place in the manifest that claims something exclusive. */
  datatype Slot = VmSlot(node: string) | MacSlot(node: string, nic: nat) | AddrSlot(node: string, nic: nat)

  datatype Claim = VmId(id: int) | Mac(mac: string) | Addr(network: string, host: string)

  predicate IsSlot(nodes: map<string, Node>, s: Slot) {
    s.node in nodes &&
    match s
    case VmSlot(n) => true
    case MacSlot(n, i) => i < |nodes[n].nics| && FixedMac(nodes[n].nics[i])
    case AddrSlot(n, i) => i < |nodes[n].nics| && Addressed(nodes[n].nics[i])
  }

  function ClaimOf(nodes: map<string, Node>, s: Slot): Claim
    requires IsSlot(nodes, s)
  {
    match s
    case VmSlot(n) => VmId(nodes[n].vmid)
    case MacSlot(n, i) => Mac(nodes[n].nics[i].mac)
    case AddrSlot(n, i) => Addr(nodes[n].nics[i].network, HostPart(nodes[n].nics[i].address.value))
  }

  /** No two places claim the same: VMIDs, fixed MACs, and addresses within a network, over all nodes and NICs. */
  ghost predicate Unique(nodes: map<string, Node>) {
    forall s, t :: IsSlot(nodes, s) && IsSlot(nodes, t) && s != t ==> ClaimOf(nodes, s) != ClaimOf(nodes, t)
  }

  // ----- the slots in the order the loops meet them

  function NicSlots(nodes: map<string, Node>, n: string, k: nat): seq<Slot>
    requires n in nodes && k <= |nodes[n].nics|
  {
    if k == 0 then []
    else
      NicSlots(nodes, n, k - 1)
      + (if FixedMac(nodes[n].nics[k - 1]) then [MacSlot(n, k - 1)] else [])
      + (if Addressed(nodes[n].nics[k - 1]) then [AddrSlot(n, k - 1)] else [])
  }

  function NodeSlots(nodes: map<string, Node>, n: string): seq<Slot>
    requires n in nodes
  {
    [VmSlot(n)] + NicSlots(nodes, n, |nodes[n].nics|)
  }

  function Slots(nodes: map<string, Node>, order: seq<string>): seq<Slot>
    requires forall n :: n in order ==> n in nodes
  {
    if order == [] then [] else Slots(nodes, order[..|order| - 1]) + NodeSlots(nodes, order[|order| - 1])
  }

  ghost predicate NoRepeats<T(!new)>(xs: seq<T>) {
    forall i, j :: 0 <= i < j < |xs| ==> xs[i] != xs[j]
  }

  lemma {:induction false} NicSlotsAre(nodes: map<string, Node>, n: string, k: nat)
    requires n in nodes && k <= |nodes[n].nics|
    ensures NoRepeats(NicSlots(nodes, n, k))
    ensures forall s :: s in NicSlots(nodes, n, k) <==> IsSlot(nodes, s) && s.node == n && !s.VmSlot? && s.nic < k
  {
    if k > 0 {
      NicSlotsAre(nodes, n, k - 1);
    }
  }

  lemma {:induction false} SlotsAre(nodes: map<string, Node>, order: seq<string>)
    requires (forall n :: n in order ==> n in nodes) && NoRepeats(order)
    ensures NoRepeats(Slots(nodes, order))
    ensures forall s :: s in Slots(nodes, order) <==> IsSlot(nodes, s) && s.node in order
  {
    hide IsSlot, NodeSlots;
    if order != [] {
      var last := |order| - 1;
      var front := order[..last];
      SlotsAre(nodes, front);
      NodeSlotsAre(nodes, order[last]);
      assert order == front + [order[last]];
      assert order[last] !in front;
      JoinedNoRepeats(Slots(nodes, front), NodeSlots(nodes, order[last]));
    }
  }

  lemma JoinedNoRepeats<T(!new)>(xs: seq<T>, ys: seq<T>)
    requires NoRepeats(xs) && NoRepeats(ys) && forall x :: x in xs ==> x !in ys
    ensures NoRepeats(xs + ys)
  {
    var zs := xs + ys;
    forall i, j | 0 <= i < j < |zs| ensures zs[i] != zs[j] {
      if i < |xs| <= j { assert zs[i] in xs && zs[j] == ys[j - |xs|]; }
    }
  }

  lemma NodeSlotsAre(nodes: map<string, Node>, n: string)
    requires n in nodes
    ensures NoRepeats(NodeSlots(nodes, n))
    ensures forall s :: s in NodeSlots(nodes, n) <==> IsSlot(nodes, s) && s.node == n
  {
    NicSlotsAre(nodes, n, |nodes[n].nics|);
  }

  // ----- the index maps

  /** vmIDs, macs and ipByZone: each claim met so far, with the node that made it. */
  datatype Index = Index(vmIDs: map<int, string>, macs: map<string, string>, ipByZone: map<string, map<string, string>>)

  predicate Has(x: Index, c: Claim) {
    match c
    case VmId(id) => id in x.vmIDs
    case Mac(mac) => mac in x.macs
    case Addr(zone, host) => zone in x.ipByZone && host in x.ipByZone[zone]
  }

  function Owner(x: Index, c: Claim): string
    requires Has(x, c)
  {
    match c
    case VmId(id) => x.vmIDs[id]
    case Mac(mac) => x.macs[mac]
    case Addr(zone, host) => x.ipByZone[zone][host]
  }

  function Zone(x: Index, zone: string): map<string, string> {
    if zone in x.ipByZone then x.ipByZone[zone] else map[]
  }

  function Put(x: Index, c: Claim, name: string): Index {
    match c
    case VmId(id) => x.(vmIDs := x.vmIDs[id := name])
    case Mac(mac) => x.(macs := x.macs[mac := name])
    case Addr(zone, host) => x.(ipByZone := x.ipByZone[zone := Zone(x, zone)[host := name]])
  }

  /** x holds exactly the claims of the slots in done, no two of which are the same. */
  ghost predicate Indexes(nodes: map<string, Node>, done: seq<Slot>, x: Index) {
    && (forall s :: s in done ==> IsSlot(nodes, s) && Has(x, ClaimOf(nodes, s)))
    && (forall c :: Has(x, c) ==> exists s :: s in done && ClaimOf(nodes, s) == c && s.node == Owner(x, c))
    && (forall s, t :: s in done && t in done && s != t ==> ClaimOf(nodes, s) != ClaimOf(nodes, t))
  }

  lemma PutHas(x: Index, c: Claim, name: string)
    ensures forall d :: Has(Put(x, c, name), d) <==> d == c || Has(x, d)
    ensures forall d :: Has(Put(x, c, name), d) ==> Owner(Put(x, c, name), d) == if d == c then name else Owner(x, d)
  {
  }

  lemma PutIndexes(nodes: map<string, Node>, done: seq<Slot>, x: Index, t: Slot)
    requires IsSlot(nodes, t) && Indexes(nodes, done, x) && !Has(x, ClaimOf(nodes, t))
    ensures Indexes(nodes, done + [t], Put(x, ClaimOf(nodes, t), t.node))
  {
    hide IsSlot, ClaimOf, Has, Owner, Put;
    var x' := Put(x, ClaimOf(nodes, t), t.node);
    PutHas(x, ClaimOf(nodes, t), t.node);
    assert t in done + [t];
    forall c | Has(x', c) ensures exists s :: s in done + [t] && ClaimOf(nodes, s) == c && s.node == Owner(x', c) {
      if c != ClaimOf(nodes, t) {
        var s :| s in done && ClaimOf(nodes, s) == c && s.node == Owner(x, c);
        assert s in done + [t];
      }
    }
  }

  /** What the returned error names: the claim made twice, the node that made it first, and the one at hand. */
  datatype Duplicate = Duplicate(claim: Claim, prev: string, name: string)

  ghost predicate Clash(nodes: map<string, Node>, d: Duplicate) {
    exists s, t :: IsSlot(nodes, s) && IsSlot(nodes, t) && s != t && s.node == d.prev && t.node == d.name
                   && ClaimOf(nodes, s) == d.claim && ClaimOf(nodes, t) == d.claim
  }

  /** The nodes that have made the claims so far. */
  ghost function Claimants(done: seq<Slot>): set<string> {
    set s | s in done :: s.node
  }

  lemma RepeatClashes(nodes: map<string, Node>, done: seq<Slot>, x: Index, t: Slot)
    requires IsSlot(nodes, t) && Indexes(nodes, done, x) && t !in done && Has(x, ClaimOf(nodes, t))
    ensures Clash(nodes, Duplicate(ClaimOf(nodes, t), Owner(x, ClaimOf(nodes, t)), t.node))
    ensures Owner(x, ClaimOf(nodes, t)) in Claimants(done)
  {
    hide ClaimOf, Has, Owner;
    var s :| s in done && ClaimOf(nodes, s) == ClaimOf(nodes, t) && s.node == Owner(x, ClaimOf(nodes, t));
  }

  lemma ClashIsNotUnique(nodes: map<string, Node>, d: Duplicate)
    requires Clash(nodes, d)
    ensures !Unique(nodes)
  {
  }

  /** One NIC: the MAC, then the address within its network. */
  method ClaimNic(nodes: map<string, Node>, name: string, k: nat, x: Index, ghost done: seq<Slot>)
    returns (x': Index, d: Option<Duplicate>)
    requires name in nodes && k < |nodes[name].nics| && Indexes(nodes, done, x)
    requires forall s :: s in done && s.node == name && !s.VmSlot? ==> s.nic < k
    ensures d.None? ==>
              Indexes(nodes, done + (NicSlots(nodes, name, k + 1)[|NicSlots(nodes, name, k)|..]), x')
    ensures d.Some? ==> Clash(nodes, d.value) && d.value.name == name && d.value.prev in Claimants(done) + {name}
  {
    hide Indexes, Has, Owner;
    var nic := nodes[name].nics[k];
    x' := x;
    ghost var now := done;
    if nic.mac != "" && nic.mac != "auto" {
      ghost var t := MacSlot(name, k);
      assert ClaimOf(nodes, t) == Mac(nic.mac) && t !in now;
      if Has(x', Mac(nic.mac)) {
        RepeatClashes(nodes, now, x', t);
        return x', Some(Duplicate(Mac(nic.mac), Owner(x', Mac(nic.mac)), name));
      }
      PutIndexes(nodes, now, x', t);
      x' := x'.(macs := x'.macs[nic.mac := name]);
      now := now + [t];
    }
    if nic.network != "" && nic.address.Some? && nic.address.value != "" {
      ghost var t := AddrSlot(name, k);
      var c := Addr(nic.network, HostPart(nic.address.value));
      assert ClaimOf(nodes, t) == c && t !in now;
      if Has(x', c) {
        RepeatClashes(nodes, now, x', t);
        return x', Some(Duplicate(c, Owner(x', c), name));
      }
      PutIndexes(nodes, now, x', t);
      x' := x'.(ipByZone := x'.ipByZone[nic.network := Zone(x', nic.network)[c.host := name]]);
      now := now + [t];
    }
    assert now == done + NicSlots(nodes, name, k + 1)[|NicSlots(nodes, name, k)|..];
    return x', None;
  }

  /** One node: its VMID, then its NICs. */
  method ClaimNode(nodes: map<string, Node>, name: string, x: Index, ghost done: seq<Slot>)
    returns (x': Index, d: Option<Duplicate>)
    requires name in nodes && Indexes(nodes, done, x)
    requires forall s :: s in done ==> s.node != name
    ensures d.None? ==> Indexes(nodes, done + NodeSlots(nodes, name), x')
    ensures d.Some? ==> Clash(nodes, d.value) && d.value.name == name && d.value.prev in Claimants(done) + {name}
  {
    hide Indexes, Has, Owner;
    var c := VmId(nodes[name].vmid);
    assert ClaimOf(nodes, VmSlot(name)) == c && VmSlot(name) !in done;
    if Has(x, c) {
      RepeatClashes(nodes, done, x, VmSlot(name));
      return x, Some(Duplicate(c, Owner(x, c), name));
    }
    PutIndexes(nodes, done, x, VmSlot(name));
    x' := x.(vmIDs := x.vmIDs[nodes[name].vmid := name]);
    d := None;
    ghost var now := done + [VmSlot(name)];
    var k := 0;
    while k < |nodes[name].nics|
      invariant k <= |nodes[name].nics|
      invariant now == done + ([VmSlot(name)] + NicSlots(nodes, name, k))
      invariant Indexes(nodes, now, x') && d.None?
    {
      NicSlotsAre(nodes, name, k);
      x', d := ClaimNic(nodes, name, k, x', now);
      if d.Some? { return; }
      AppendRest(done, [VmSlot(name)], NicSlots(nodes, name, k), NicSlots(nodes, name, k + 1));
      now := done + ([VmSlot(name)] + NicSlots(nodes, name, k + 1));
      k := k + 1;
    }
  }

  lemma AppendRest(a: seq<Slot>, b: seq<Slot>, c: seq<Slot>, d: seq<Slot>)
    requires c <= d
    ensures (a + (b + c)) + d[|c|..] == a + (b + d)
  {
  }

  lemma SlotsSnoc(nodes: map<string, Node>, order: seq<string>, n: string)
    requires (forall m :: m in order ==> m in nodes) && n in nodes
    ensures Slots(nodes, order + [n]) == Slots(nodes, order) + NodeSlots(nodes, n)
  {
    hide NodeSlots;
    assert (order + [n])[..|order|] == order;
  }

  lemma PrefixSlots(nodes: map<string, Node>, order: seq<string>, i: nat)
    requires (forall n :: n in order ==> n in nodes) && NoRepeats(order) && i < |order|
    ensures forall s :: s in Slots(nodes, order[..i]) ==> s.node != order[i]
    ensures Slots(nodes, order[..i + 1]) == Slots(nodes, order[..i]) + NodeSlots(nodes, order[i])
    ensures order[i] !in order[..i] && order[..i + 1] == order[..i] + [order[i]]
  {
    hide IsSlot, Slots, NodeSlots;
    SlotsAre(nodes, order[..i]);
    assert order[..i + 1] == order[..i] + [order[i]];
    SlotsSnoc(nodes, order[..i], order[i]);
  }

  lemma AllIndexedIsUnique(nodes: map<string, Node>, order: seq<string>, x: Index)
    requires NoRepeats(order) && (forall n :: n in order <==> n in nodes) && Indexes(nodes, Slots(nodes, order), x)
    ensures Unique(nodes)
  {
    hide ClaimOf, Has, Owner;
    SlotsAre(nodes, order);
  }

  /**
   * validateUniqueness, the node map being iterated as order says: nil exactly when the manifest is unique, so the
   * verdict is the same for every order; an error names two different places that claim the same, the one met first
   * in front.
   */
  method ValidateUniqueness(env: Env, order: seq<string>) returns (d: Option<Duplicate>)
    requires env.hypervisor.Some? ==> NoRepeats(order) && forall n :: n in order <==> n in env.hypervisor.value.nodes
    ensures d.None? <==> (env.hypervisor.None? || Unique(env.hypervisor.value.nodes))
    ensures d.Some? ==> env.hypervisor.Some? && Clash(env.hypervisor.value.nodes, d.value)
    ensures d.Some? ==> exists j, i :: 0 <= j <= i < |order| && order[j] == d.value.prev && order[i] == d.value.name
  {
    hide Has, Owner, Indexes, IsSlot, ClaimOf, NodeSlots, Clash, Unique;
    if env.hypervisor.None? { return None; }
    var nodes := env.hypervisor.value.nodes;
    var x := Index(map[], map[], map[]);
    var hostnames: set<string> := {};
    EmptyIndex(nodes);
    for i := 0 to |order|
      invariant Indexes(nodes, Slots(nodes, order[..i]), x)
      invariant hostnames == set n | n in order[..i]
    {
      var name := order[i];
      if name in hostnames { assert false; }
      hostnames := hostnames + {name};
      PrefixSlots(nodes, order, i);
      x, d := ClaimNode(nodes, name, x, Slots(nodes, order[..i]));
      if d.Some? {
        ClashIsNotUnique(nodes, d.value);
        ghost var j := FirstMet(nodes, order, i, d.value.prev);
        return;
      }
    }
    assert order[..|order|] == order;
    AllIndexedIsUnique(nodes, order, x);
    return None;
  }

  /** Who made a claim before, or makes it now, stands no later in the order. */
  lemma FirstMet(nodes: map<string, Node>, order: seq<string>, i: nat, prev: string) returns (j: nat)
    requires (forall n :: n in order ==> n in nodes) && NoRepeats(order) && i < |order|
    requires prev in Claimants(Slots(nodes, order[..i])) + {order[i]}
    ensures j <= i && order[j] == prev
  {
    hide IsSlot, Slots;
    SlotsAre(nodes, order[..i]);
    if prev == order[i] {
      j := i;
    } else {
      j :| 0 <= j < i && order[..i][j] == prev;
    }
  }

  lemma EmptyIndex(nodes: map<string, Node>)
    ensures Indexes(nodes, [], Index(map[], map[], map[]))
  {
  }

  ghost predicate DistinctVmIds(nodes: map<string, Node>) {
    forall a, b :: a in nodes && b in nodes && a != b ==> nodes[a].vmid != nodes[b].vmid
  }

  /** (name, k) is a NIC of the manifest. */
  predicate IsNic(nodes: map<string, Node>, at: (string, nat)) {
    at.0 in nodes && at.1 < |nodes[at.0].nics|
  }

  function NicAt(nodes: map<string, Node>, at: (string, nat)): Nic
    requires IsNic(nodes, at)
  {
    nodes[at.0].nics[at.1]
  }

  ghost predicate DistinctMacs(nodes: map<string, Node>) {
    forall a, b :: IsNic(nodes, a) && IsNic(nodes, b) && a != b && NicAt(nodes, a).mac !in ["", "auto"] ==>
                     NicAt(nodes, a).mac != NicAt(nodes, b).mac
  }

  /** The address is host, or host with a prefix length behind a slash. */
  predicate HostOf(address: string, host: string) {
    '/' !in host && (address == host || host + "/" <= address)
  }

  /** Both NICs have an address in the same network, with the same host. */
  ghost predicate SameHost(a: Nic, b: Nic) {
    && a.network == b.network != "" && a.address.Some? && b.address.Some? && a.address.value != "" && b.address.value != ""
    && exists host :: HostOf(a.address.value, host) && HostOf(b.address.value, host)
  }

  ghost predicate DistinctAddresses(nodes: map<string, Node>) {
    forall a, b :: IsNic(nodes, a) && IsNic(nodes, b) && a != b ==> !SameHost(NicAt(nodes, a), NicAt(nodes, b))
  }

  lemma {:induction false} HostPartIs(address: string, host: string)
    ensures HostPart(address) == host <==> HostOf(address, host)
  {
    hide Split;
    var parts := Split(address, '/');
    JoinOfSplit(address, '/');
    assert parts[0] in parts;
    if HostOf(address, host) {
      if address == host {
        SplitOne(host, '/');
      } else {
        var rest := address[|host| + 1..];
        assert address == host + ['/'] + rest;
        SplitFirst(host, rest, '/');
      }
    }
    if |parts| > 1 { assert address == parts[0] + ['/'] + Join(parts[1..], '/'); }
  }

  lemma SameHostIs(a: Nic, b: Nic)
    ensures SameHost(a, b) <==> Addressed(a) && Addressed(b) && a.network == b.network && HostPart(a.address.value) == HostPart(b.address.value)
  {
    hide HostOf, HostPart;
    if a.address.Some? && b.address.Some? {
      forall host ensures HostPart(a.address.value) == host <==> HostOf(a.address.value, host) { HostPartIs(a.address.value, host); }
      forall host ensures HostPart(b.address.value) == host <==> HostOf(b.address.value, host) { HostPartIs(b.address.value, host); }
      assert HostOf(a.address.value, HostPart(a.address.value)) && HostOf(b.address.value, HostPart(b.address.value));
    }
  }

  lemma UniqueMacs(nodes: map<string, Node>)
    requires Unique(nodes)
    ensures DistinctMacs(nodes)
  {
    hide ClaimOf;
    forall a, b | IsNic(nodes, a) && IsNic(nodes, b) && a != b && NicAt(nodes, a).mac !in ["", "auto"]
      ensures NicAt(nodes, a).mac != NicAt(nodes, b).mac
    {
      if NicAt(nodes, a).mac == NicAt(nodes, b).mac {
        MacClaims(nodes, a);
        MacClaims(nodes, b);
      }
    }
  }

  lemma MacClaims(nodes: map<string, Node>, a: (string, nat))
    requires IsNic(nodes, a) && NicAt(nodes, a).mac !in ["", "auto"]
    ensures IsSlot(nodes, MacSlot(a.0, a.1)) && ClaimOf(nodes, MacSlot(a.0, a.1)) == Mac(NicAt(nodes, a).mac)
  {
  }

  lemma UniqueAddresses(nodes: map<string, Node>)
    requires Unique(nodes)
    ensures DistinctAddresses(nodes)
  {
    hide SameHost, HostPart, ClaimOf;
    forall a, b | IsNic(nodes, a) && IsNic(nodes, b) && a != b ensures !SameHost(NicAt(nodes, a), NicAt(nodes, b)) {
      SameHostIs(NicAt(nodes, a), NicAt(nodes, b));
      if SameHost(NicAt(nodes, a), NicAt(nodes, b)) {
        AddressClaims(nodes, a);
        AddressClaims(nodes, b);
      }
    }
  }

  lemma AddressClaims(nodes: map<string, Node>, a: (string, nat))
    requires IsNic(nodes, a) && Addressed(NicAt(nodes, a))
    ensures IsSlot(nodes, AddrSlot(a.0, a.1))
    ensures ClaimOf(nodes, AddrSlot(a.0, a.1)) == Addr(NicAt(nodes, a).network, HostPart(NicAt(nodes, a).address.value))
  {
    hide HostPart;
  }

  /** What uniqueness says, in the manifest's own terms. */
  lemma UniqueMeans(nodes: map<string, Node>)
    ensures Unique(nodes) <==> DistinctVmIds(nodes) && DistinctMacs(nodes) && DistinctAddresses(nodes)
  {
    hide HostPart, SameHost;
    if Unique(nodes) {
      forall a, b | a in nodes && b in nodes && a != b ensures nodes[a].vmid != nodes[b].vmid {
        assert ClaimOf(nodes, VmSlot(a)) != ClaimOf(nodes, VmSlot(b));
      }
      UniqueMacs(nodes);
      UniqueAddresses(nodes);
    }
    if DistinctVmIds(nodes) && DistinctMacs(nodes) && DistinctAddresses(nodes) {
      forall s, t | IsSlot(nodes, s) && IsSlot(nodes, t) && s != t ensures ClaimOf(nodes, s) != ClaimOf(nodes, t) {
        DifferentSlots(nodes, s, t);
      }
    }
  }

  lemma DifferentSlots(nodes: map<string, Node>, s: Slot, t: Slot)
    requires DistinctVmIds(nodes) && DistinctMacs(nodes) && DistinctAddresses(nodes)
    requires IsSlot(nodes, s) && IsSlot(nodes, t) && s != t
    ensures ClaimOf(nodes, s) != ClaimOf(nodes, t)
  {
    hide HostPart, SameHost;
    if !s.VmSlot? && !t.VmSlot? {
      var a, b := (s.node, s.nic), (t.node, t.nic);
      assert IsNic(nodes, a) && IsNic(nodes, b);
      SameHostIs(NicAt(nodes, a), NicAt(nodes, b));
    }
  }

  /** A manifest that passes gives every node a VM of its own, which is what the concurrent applies rely on. */
  lemma UniqueGivesDistinctVMs(c: Config)
    requires ValidConfig(c) && c.setup.env.hypervisor.Some? && Unique(c.setup.env.hypervisor.value.nodes)
    ensures DistinctVMs(c)
  {
    var nodes := c.setup.env.hypervisor.value.nodes;
    forall i, j | 0 <= i < j < |c.names| ensures Key(c.setup, c.names[i]) != Key(c.setup, c.names[j]) {
      assert ClaimOf(nodes, VmSlot(c.names[i])) != ClaimOf(nodes, VmSlot(c.names[j]));
    }
  }
}
