/** A call about one VM depends on that VM alone and changes nothing else. */
module Locality {
  import opened Common
  import opened Proxmox

  function At<K, V>(m: map<K, V>, k: K): Option<V> {
    if k in m then Some(m[k]) else None
  }

  lemma SameEverywhere<K, V>(m: map<K, V>, n: map<K, V>)
    requires forall k :: At(m, k) == At(n, k)
    ensures m == n
  {
    forall k | k in m ensures k in n && m[k] == n[k] { assert At(m, k) == At(n, k); }
    forall k | k in n ensures k in m { assert At(m, k) == At(n, k); }
  }

  ghost predicate OnlyVM(s: Server, t: Server, key: VMKey) {
    s.files == t.files && s.shared == t.shared && forall k :: k != key ==> At(s.vms, k) == At(t.vms, k)
  }

  /** The replies tell the caller the same and leave the VM the same. */
  ghost predicate SameReply(r: Reply, q: Reply, key: VMKey) {
    r.err == q.err && At(r.server.vms, key) == At(q.server.vms, key)
  }

  lemma CreateIsLocal(s: Server, t: Server, o: CreateOpts, f: Fate)
    requires At(s.vms, (o.node, o.vmid)) == At(t.vms, (o.node, o.vmid))
    ensures OnlyVM(s, CreateVM(s, o, f).server, (o.node, o.vmid))
    ensures SameReply(CreateVM(s, o, f), CreateVM(t, o, f), (o.node, o.vmid))
  {
  }

  lemma AttachIsLocal(s: Server, t: Server, key: VMKey, port: Port, iso: string, f: Fate)
    requires At(s.vms, key) == At(t.vms, key)
    ensures OnlyVM(s, AttachISO(s, key, port, iso, f).server, key)
    ensures SameReply(AttachISO(s, key, port, iso, f), AttachISO(t, key, port, iso, f), key)
  {
  }

  lemma BootIsLocal(s: Server, t: Server, key: VMKey, boot: string, f: Fate)
    requires At(s.vms, key) == At(t.vms, key)
    ensures OnlyVM(s, SetBootOrder(s, key, boot, f).server, key)
    ensures SameReply(SetBootOrder(s, key, boot, f), SetBootOrder(t, key, boot, f), key)
  {
  }

  lemma StartIsLocal(s: Server, t: Server, key: VMKey, f: Fate)
    requires At(s.vms, key) == At(t.vms, key)
    ensures OnlyVM(s, StartVM(s, key, f).server, key)
    ensures SameReply(StartVM(s, key, f), StartVM(t, key, f), key)
  {
  }
}
