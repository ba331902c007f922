/** The Proxmox server as the client sees it: every request either takes effect or not, and answers or not. */
module Proxmox {
  import opened Common
  import opened Manifest
  import opened Text

  datatype DiskSpec = DiskSpec(iface: string, storage: string, size: string, shared: bool)
  datatype NicSpec = NicSpec(index: nat, bridge: string, mac: string)
  datatype CreateOpts = CreateOpts(
    node: string, vmid: int, name: string, tags: seq<string>, resources: Option<Resources>,
    efiDisk: Option<string>, disks: seq<DiskSpec>, nics: seq<NicSpec>, isoFile: string)

  type VMKey = (string, int)

  datatype VM = VM(opts: CreateOpts, running: bool, ide2: Option<string>, ide3: Option<string>, boot: Option<string>)

  /** files maps (host, volid) to content; a shared storage has one content list for all hosts. */
  datatype Server = Server(vms: map<VMKey, VM>, files: map<(string, string), string>, shared: set<string>)

  datatype Port = Ide2 | Ide3

  /** What happens to one call: it works, it is lost, or it takes effect and the answer is lost. */
  datatype Fate = Succeeds | FailsBefore | FailsAfter

  datatype Reply = Reply(server: Server, err: Option<Error>)

  /** effect is the state after the request, None when the server refuses it. */
  function Call(s: Server, effect: Option<Server>, what: string, f: Fate): Reply {
    if f.FailsBefore? || effect.None? then Reply(s, Some(Remote(what)))
    else if f.FailsAfter? then Reply(effect.value, Some(Remote(what)))
    else Reply(effect.value, None)
  }

  function Lower(c: char): char {
    if 'A' <= c <= 'Z' then c - 'A' + 'a' else c
  }

  predicate IsOvmf(bios: string) {
    |bios| == 4 && Lower(bios[0]) == 'o' && Lower(bios[1]) == 'v' && Lower(bios[2]) == 'm' && Lower(bios[3]) == 'f'
  }

  function BiosOf(r: Option<Resources>): string {
    if r.Some? then r.value.bios else ""
  }

  predicate ValidOpts(o: CreateOpts) {
    && o.node != "" && o.vmid > 0 && o.name != ""
    && (IsOvmf(BiosOf(o.resources)) ==> o.efiDisk.Some?)
    && (forall d :: d in o.disks ==> d.iface != "" && d.storage != "" && d.size != "")
    && (forall n :: n in o.nics ==> n.bridge != "")
  }

  const CDROM := ",media=cdrom"

  function NewVM(o: CreateOpts): VM {
    VM(o, false, if o.isoFile != "" then Some(o.isoFile + CDROM) else None, None, None)
  }

  function PutVM(s: Server, key: VMKey, vm: VM): Server {
    s.(vms := s.vms[key := vm])
  }

  function CreateVM(s: Server, o: CreateOpts, f: Fate): Reply {
    var key := (o.node, o.vmid);
    if !ValidOpts(o) then Reply(s, Some(Internal("CreateOpts invalid")))
    else Call(s, if key in s.vms then None else Some(PutVM(s, key, NewVM(o))), "create", f)
  }

  function WithPort(vm: VM, port: Port, value: Option<string>): VM {
    match port
    case Ide2 => vm.(ide2 := value)
    case Ide3 => vm.(ide3 := value)
  }

  function AttachISO(s: Server, key: VMKey, port: Port, iso: string, f: Fate): Reply {
    if iso == "" then Reply(s, Some(Internal("proxmox: iso spec required")))
    else Call(s, if key in s.vms then Some(PutVM(s, key, WithPort(s.vms[key], port, Some(iso + CDROM)))) else None, "attach", f)
  }

  /** Deleting a slot that is already absent succeeds. */
  function EjectISO(s: Server, key: VMKey, port: Port, f: Fate): Reply {
    Call(s, if key in s.vms then Some(PutVM(s, key, WithPort(s.vms[key], port, None))) else None, "eject", f)
  }

  function BootValue(boot: string): string {
    if "order=" <= TrimSpace(boot) then TrimSpace(boot) else "order=" + TrimSpace(boot)
  }

  function SetBootOrder(s: Server, key: VMKey, boot: string, f: Fate): Reply {
    if TrimSpace(boot) == "" then Reply(s, Some(Internal("proxmox: boot order required")))
    else Call(s, if key in s.vms then Some(PutVM(s, key, s.vms[key].(boot := Some(BootValue(boot))))) else None, "boot", f)
  }

  function StartVM(s: Server, key: VMKey, f: Fate): Reply {
    Call(s, if key in s.vms && !s.vms[key].running then Some(PutVM(s, key, s.vms[key].(running := true))) else None, "start", f)
  }

  function StopVM(s: Server, key: VMKey, f: Fate): Reply {
    Call(s, if key in s.vms then Some(PutVM(s, key, s.vms[key].(running := false))) else None, "stop", f)
  }

  /** A running VM is not destroyed. */
  function DeleteVM(s: Server, key: VMKey, f: Fate): Reply {
    Call(s, if key in s.vms && !s.vms[key].running then Some(s.(vms := s.vms - {key})) else None, "delete", f)
  }

  function VMExists(s: Server, key: VMKey, f: Fate): Result<bool> {
    if f.Succeeds? then Ok(key in s.vms) else Err(Remote("vm-exists"))
  }

  /** Whose content list a storage belongs to. */
  function Host(s: Server, node: string, storage: string): string {
    if storage in s.shared then "" else node
  }

  function VolId(storage: string, file: string): string {
    storage + ":iso/" + file
  }

  function UploadISO(s: Server, node: string, storage: string, content: string, file: string, f: Fate): Reply {
    if content == "" then Reply(s, Some(Internal("proxmox: localPath required")))
    else Call(s, Some(s.(files := s.files[(Host(s, node, storage), VolId(storage, file)) := content])), "upload", f)
  }

  function StorageContentExists(s: Server, node: string, storage: string, volid: string, f: Fate): Result<bool> {
    if f.Succeeds? then Ok((Host(s, node, storage), volid) in s.files) else Err(Remote("storage-content"))
  }

  /** Everything outside the process: the server, and what will happen to the calls still to come. */
  class World {
    var server: Server
    var calls: nat
    const fate: nat -> Fate

    constructor (s: Server, fate: nat -> Fate)
      ensures server == s && calls == 0 && this.fate == fate
    {
      server, calls, this.fate := s, 0, fate;
    }

    /** The outcome of the next call. */
    method Take() returns (f: Fate)
      modifies this`calls
      ensures f == fate(old(calls)) && calls == old(calls) + 1
    {
      f := fate(calls);
      calls := calls + 1;
    }

    /** Records the server's answer to the call just made. */
    method Settle(r: Reply) returns (err: Option<Error>)
      modifies this`server
      ensures server == r.server && err == r.err
    {
      server := r.server;
      err := r.err;
    }
  }
}
