/** The part of the env manifest that the workflow and the validators read. */
module Manifest {
  import opened Common

  datatype Resources = Resources(memory: int, cores: int, sockets: int, cpu: string, bios: string, machine: string)
  datatype Disk = Disk(size: string, storageClass: string, storage: string, iface: string, shared: bool)
  datatype Nic = Nic(bridge: string, mac: string, network: string, address: Option<string>)

  /** One logical VM, pinned to a Proxmox host and a VMID. */
  datatype Node = Node(
    pve: string, vmid: int, ips: map<string, string>, resources: Option<Resources>,
    nics: seq<Nic>, disks: seq<Disk>, tags: seq<string>)

  datatype Iso = Iso(storage: string, image: string, kickstartStorage: string)
  datatype StorageClass = StorageClass(backend: string, shared: bool)
  datatype Hypervisor = Hypervisor(nodes: map<string, Node>, iso: Option<Iso>)
  datatype Env = Env(hypervisor: Option<Hypervisor>, classes: Option<map<string, StorageClass>>)

  predicate Defines(env: Env, name: string) {
    env.hypervisor.Some? && name in env.hypervisor.value.nodes
  }

  function NodeOf(env: Env, name: string): Node
    requires Defines(env, name)
  {
    env.hypervisor.value.nodes[name]
  }

  /** iso.kickstart_storage, empty when it is not configured. */
  function KickstartStorage(env: Env): string {
    if env.hypervisor.Some? && env.hypervisor.value.iso.Some? then env.hypervisor.value.iso.value.kickstartStorage else ""
  }

  /** Go's string order, as sort.Strings uses it. */
  predicate Before(a: string, b: string) {
    if b == "" then false
    else if a == "" then true
    else if a[0] != b[0] then a[0] < b[0]
    else Before(a[1..], b[1..])
  }

  /** a is smaller where the two first differ. */
  predicate SmallerAt(a: string, b: string, k: nat) {
    k < |a| && k < |b| && a[..k] == b[..k] && a[k] < b[k]
  }

  lemma SmallerBehind(a: string, b: string, k: nat)
    requires a != "" && b != "" && a[0] == b[0]
    ensures !SmallerAt(a, b, 0)
    ensures SmallerAt(a, b, k + 1) <==> SmallerAt(a[1..], b[1..], k)
  {
    if k < |a[1..]| && k < |b[1..]| {
      assert a[..k + 1] == [a[0]] + a[1..][..k] && b[..k + 1] == [b[0]] + b[1..][..k];
      assert a[..k + 1][1..] == a[1..][..k] && b[..k + 1][1..] == b[1..][..k];
    }
  }

  /** Before means a proper prefix, or smaller at the first difference. */
  lemma {:induction false} BeforeIff(a: string, b: string)
    ensures Before(a, b) <==> a < b || exists k: nat :: SmallerAt(a, b, k)
  {
    hide SmallerAt;
    if a != "" && b != "" && a[0] == b[0] {
      BeforeIff(a[1..], b[1..]);
      forall k: nat ensures SmallerAt(a, b, k + 1) <==> SmallerAt(a[1..], b[1..], k) { SmallerBehind(a, b, k); }
      SmallerBehind(a, b, 0);
      assert a < b <==> a[1..] < b[1..];
      if k: nat :| SmallerAt(a, b, k) { assert SmallerAt(a[1..], b[1..], k - 1); }
      if k: nat :| SmallerAt(a[1..], b[1..], k) { assert SmallerAt(a, b, k + 1); }
    } else {
      DifferentHeads(a, b);
    }
  }

  lemma DifferentHeads(a: string, b: string)
    requires a == "" || b == "" || a[0] != b[0]
    ensures a < b || (exists k: nat :: SmallerAt(a, b, k)) <==> b != "" && (a == "" || a[0] < b[0])
  {
    if a != "" && b != "" && a[0] < b[0] { assert SmallerAt(a, b, 0); }
  }

  lemma {:induction false} BeforeIsIrreflexive(a: string)
    ensures !Before(a, a)
  {
    if a != "" { BeforeIsIrreflexive(a[1..]); }
  }

  /** names is what nodeNames returns: every node name, in increasing order. */
  predicate SortedNames(env: Env, names: seq<string>) {
    && env.hypervisor.Some?
    && (forall i, j :: 0 <= i < j < |names| ==> Before(names[i], names[j]))
    && (set n | n in names) == env.hypervisor.value.nodes.Keys
  }

  lemma SortedNamesAreDistinct(env: Env, names: seq<string>)
    requires SortedNames(env, names)
    ensures forall i, j :: 0 <= i < j < |names| ==> names[i] != names[j]
    ensures forall i :: 0 <= i < |names| ==> Defines(env, names[i])
  {
    forall i, j | 0 <= i < j < |names| ensures names[i] != names[j] {
      BeforeIsIrreflexive(names[i]);
    }
    forall i | 0 <= i < |names| ensures Defines(env, names[i]) {
      assert names[i] in (set n | n in names);
    }
  }
}
