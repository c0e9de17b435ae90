/** Choosing ports: FreePort of internal/config/config.go, validateForwards of
    internal/core/forward.go and validateSSHPort of internal/core/update.go. */
module Ports {

  datatype Forward = Forward(host: int, guest: int)

  /** A VM directory that has a vm.toml. One that does not parse may still show
      its ssh port. */
  datatype Record = Good(sshPort: int, forwards: seq<Forward>) | BrokenAt(sshPort: int) | Broken

  type Root = map<string, Record>

  predicate HoldsPort(r: Record, p: int) { !r.Broken? && r.sshPort == p }

  predicate Claims(r: Record, p: int) {
    HoldsPort(r, p) || (r.Good? && exists i | 0 <= i < |r.forwards| :: r.forwards[i].host == p)
  }

  /** What List and ListBroken returned, each at its own time: the records that
      parsed, and those that did not. */
  datatype Listed = Listed(vms: Root, broken: Root)

  /** A listing of a root that nobody touches meanwhile. The code takes a listing
      that fails for an empty one. */
  function Seen(root: Root, vms: bool, broken: bool): Listed {
    Listed(if vms then map n | n in root && root[n].Good? :: root[n] else map[],
           if broken then map n | n in root && !root[n].Good? :: root[n] else map[])
  }

  // ---- FreePort -----------------------------------------------------------------

  const FIRST: int := 2200
  const END: int := 2300

  ghost predicate PortFree(root: Root, p: int) {
    FIRST <= p < END && forall n | n in root :: !HoldsPort(root[n], p)
  }

  ghost predicate FreeIn(l: Listed, p: int) { PortFree(l.vms, p) && PortFree(l.broken, p) }

  datatype Port = NoPort | Port(number: int)

  /** FreePort: the first port of the range that no listed record holds and that can
      be bound right now. */
  method FreePort(l: Listed, bindable: set<int>) returns (r: Port)
    ensures r.Port? ==> FreeIn(l, r.number) && r.number in bindable
    ensures forall p | FreeIn(l, p) && p in bindable :: r.Port? && r.number <= p
    ensures r.Port? ==>
      && 2200 <= r.number < 2300
      && (forall n | n in l.vms && !l.vms[n].Broken? :: l.vms[n].sshPort != r.number)
      && (forall n | n in l.broken && !l.broken[n].Broken? :: l.broken[n].sshPort != r.number)
    ensures r.NoPort? ==> forall p | 2200 <= p < 2300 ::
      || p !in bindable
      || (exists n :: n in l.vms && !l.vms[n].Broken? && l.vms[n].sshPort == p)
      || (exists n :: n in l.broken && !l.broken[n].Broken? && l.broken[n].sshPort == p)
  {
    var vms := HeldPorts(l.vms);
    var broken := HeldPorts(l.broken);
    var claimed := vms + broken;
    for p := FIRST to END
      invariant forall q | FIRST <= q < p :: q in claimed || q !in bindable
    {
      if p in claimed { continue; }
      if p !in bindable { continue; }
      return Port(p);
    }
    return NoPort;
  }

  /** The loop over one listing, in any order. */
  method HeldPorts(listed: Root) returns (claimed: set<int>)
    ensures forall p :: p in claimed <==> exists n :: n in listed && HoldsPort(listed[n], p)
  {
    claimed := {};
    var left := listed.Keys;
    while left != {}
      invariant left <= listed.Keys
      invariant forall p :: p in claimed <==> exists n :: n in listed && n !in left && HoldsPort(listed[n], p)
      decreases left
    {
      var n :| n in left;
      left := left - {n};
      if !listed[n].Broken? { claimed := claimed + {listed[n].sshPort}; }
    }
  }

  /** What a listing shows as free is free exactly when every port of the range that
      an unlisted record holds is also held by a listed one. */
  lemma SeenFreeExact(root: Root, vms: bool, broken: bool)
    ensures
      var l := Seen(root, vms, broken);
      (forall p | FreeIn(l, p) :: PortFree(root, p)) <==> HiddenPortsTaken(root, l)
  {
    var l := Seen(root, vms, broken);
    if HiddenPortsTaken(root, l) {
      forall p | FreeIn(l, p) ensures PortFree(root, p) {
        forall n | n in root ensures !HoldsPort(root[n], p) {
          if n in l.vms { assert !HoldsPort(l.vms[n], p); }
          if n in l.broken { assert !HoldsPort(l.broken[n], p); }
        }
      }
    } else {
      var n :| n in root && n !in l.vms && n !in l.broken && HoldsInRange(root[n]) && FreeIn(l, root[n].sshPort);
      assert !PortFree(root, root[n].sshPort) by { assert HoldsPort(root[n], root[n].sshPort); }
    }
  }

  ghost predicate HiddenPortsTaken(root: Root, l: Listed) {
    forall n | n in root && n !in l.vms && n !in l.broken && HoldsInRange(root[n]) :: !FreeIn(l, root[n].sshPort)
  }

  predicate HoldsInRange(r: Record) { !r.Broken? && FIRST <= r.sshPort < END }

  // ---- validateForwards -------------------------------------------------------------

  predicate Distinct(fwds: seq<Forward>) {
    forall i, j | 0 <= i < j < |fwds| :: fwds[i].host != fwds[j].host
  }

  predicate Usable(f: Forward, sshPort: int) {
    1024 <= f.host <= 65535 && 1 <= f.guest <= 65535 && f.host != sshPort
  }

  predicate ClaimedByOther(root: Root, self: string, p: int) {
    exists n | n in root && n != self :: Claims(root[n], p)
  }

  /** What validateForwards lets through. */
  predicate ForwardsAllowed(root: Root, self: string, sshPort: int, fwds: seq<Forward>) {
    && (forall i | 0 <= i < |fwds| :: Usable(fwds[i], sshPort) && !ClaimedByOther(root, self, fwds[i].host))
    && Distinct(fwds)
  }

  predicate AllowedIn(l: Listed, self: string, sshPort: int, fwds: seq<Forward>) {
    ForwardsAllowed(l.vms, self, sshPort, fwds) && ForwardsAllowed(l.broken, self, sshPort, fwds)
  }

  /** The other VMs of one listing have no port of the list, be it for ssh or forwarded. */
  ghost predicate Unclaimed(root: Root, self: string, fwds: seq<Forward>) {
    && (forall i, n | 0 <= i < |fwds| && n in root && n != self && !root[n].Broken? :: root[n].sshPort != fwds[i].host)
    && (forall i, n, j | 0 <= i < |fwds| && n in root && n != self && root[n].Good? && 0 <= j < |root[n].forwards| ::
          root[n].forwards[j].host != fwds[i].host)
  }

  /** What is allowed, port by port. */
  lemma AllowedExact(root: Root, self: string, sshPort: int, fwds: seq<Forward>)
    ensures ForwardsAllowed(root, self, sshPort, fwds) <==>
      && (forall i | 0 <= i < |fwds| ::
            1024 <= fwds[i].host <= 65535 && 1 <= fwds[i].guest <= 65535 && fwds[i].host != sshPort)
      && (forall i, j | 0 <= i < j < |fwds| :: fwds[i].host != fwds[j].host)
      && Unclaimed(root, self, fwds)
  {
    if Unclaimed(root, self, fwds) {
      forall i | 0 <= i < |fwds| ensures !ClaimedByOther(root, self, fwds[i].host) {}
    } else if ForwardsAllowed(root, self, sshPort, fwds) {
      forall i, n | 0 <= i < |fwds| && n in root && n != self ensures !Claims(root[n], fwds[i].host) {
        assert !ClaimedByOther(root, self, fwds[i].host);
      }
    }
  }

  method ValidateForwards(l: Listed, self: string, sshPort: int, fwds: seq<Forward>) returns (ok: bool)
    ensures ok <==> AllowedIn(l, self, sshPort, fwds)
    ensures ok <==>
      && (forall i | 0 <= i < |fwds| ::
            1024 <= fwds[i].host <= 65535 && 1 <= fwds[i].guest <= 65535 && fwds[i].host != sshPort)
      && (forall i, j | 0 <= i < j < |fwds| :: fwds[i].host != fwds[j].host)
      && Unclaimed(l.vms, self, fwds) && Unclaimed(l.broken, self, fwds)
  {
    AllowedExact(l.vms, self, sshPort, fwds);
    AllowedExact(l.broken, self, sshPort, fwds);
    hide ForwardsAllowed, Unclaimed;
    ok := CheckForwards(l, self, sshPort, fwds);
  }

  method CheckForwards(l: Listed, self: string, sshPort: int, fwds: seq<Forward>) returns (ok: bool)
    ensures ok <==> AllowedIn(l, self, sshPort, fwds)
  {
    var seen: set<int> := {};
    for i := 0 to |fwds|
      invariant forall p :: p in seen <==> exists j :: 0 <= j < i && fwds[j].host == p
      invariant forall j | 0 <= j < i :: Usable(fwds[j], sshPort)
      invariant forall j, k | 0 <= j < k < i :: fwds[j].host != fwds[k].host
    {
      var f := fwds[i];
      if f.host < 1 || f.host > 65535 { return false; }
      if f.guest < 1 || f.guest > 65535 { return false; }
      if f.host < 1024 { return false; }
      if f.host in seen {
        var j :| 0 <= j < i && fwds[j].host == f.host;
        assert !Distinct(fwds);
        return false;
      }
      seen := seen + {f.host};
      if f.host == sshPort { return false; }
    }
    var vms := ClaimedPorts(l.vms, self);
    var broken := ClaimedPorts(l.broken, self);
    var claimed := vms + broken;
    for i := 0 to |fwds|
      invariant forall j | 0 <= j < i :: fwds[j].host !in claimed
    {
      if fwds[i].host in claimed { return false; }
    }
    return true;
  }

  /** The map of claimants from one listing, without the names its message uses. */
  method ClaimedPorts(root: Root, self: string) returns (claimed: set<int>)
    ensures forall p :: p in claimed <==> ClaimedByOther(root, self, p)
    ensures forall n | n in root && n != self && !root[n].Broken? :: root[n].sshPort in claimed
    ensures forall n, j | n in root && n != self && root[n].Good? && 0 <= j < |root[n].forwards| ::
      root[n].forwards[j].host in claimed
  {
    claimed := {};
    var left := root.Keys;
    while left != {}
      invariant left <= root.Keys
      invariant forall p :: p in claimed <==> exists n :: n in root && n !in left && n != self && Claims(root[n], p)
      decreases left
    {
      var n :| n in left;
      left := left - {n};
      if n == self { continue; }
      var r := root[n];
      ghost var before := claimed;
      if !r.Broken? { claimed := claimed + {r.sshPort}; }
      if r.Good? {
        for i := 0 to |r.forwards|
          invariant forall p ::
            p in claimed <==> p in before || HoldsPort(r, p) || exists j :: 0 <= j < i && r.forwards[j].host == p
        {
          claimed := claimed + {r.forwards[i].host};
        }
      }
      assert forall p :: p in claimed <==> p in before || Claims(r, p);
    }
  }

  /** What validateSSHPort lets through: the new port, put as a forward to guest
      port 22, beside the forwards the VM has. */
  predicate SshPortAllowed(l: Listed, self: string, r: Record, candidate: int)
    requires r.Good?
  {
    && (forall i | 0 <= i < |r.forwards| :: r.forwards[i].host != candidate)
    && AllowedIn(l, self, r.sshPort, r.forwards + [Forward(candidate, 22)])
  }

  method ValidateSshPort(l: Listed, self: string, r: Record, candidate: int) returns (ok: bool)
    requires r.Good?
    ensures ok <==> SshPortAllowed(l, self, r, candidate)
    ensures ok ==> 1024 <= candidate <= 65535 && candidate != r.sshPort
    ensures ok ==>
      Unclaimed(l.vms, self, [Forward(candidate, 22)]) && Unclaimed(l.broken, self, [Forward(candidate, 22)])
    ensures ok ==> forall i | 0 <= i < |r.forwards| :: r.forwards[i].host != candidate
  {
    for i := 0 to |r.forwards|
      invariant forall j | 0 <= j < i :: r.forwards[j].host != candidate
    {
      if r.forwards[i].host == candidate { return false; }
    }
    var all := r.forwards + [Forward(candidate, 22)];
    ok := ValidateForwards(l, self, r.sshPort, all);
    assert all[|r.forwards|] == Forward(candidate, 22);
  }

  // ---- what is to be kept -----------------------------------------------------------

  /** Two records that hold the same port. A vm.toml without one says 0. */
  predicate Clash(a: Record, b: Record) { !a.Broken? && !b.Broken? && a.sshPort == b.sshPort != 0 }

  ghost predicate UniquePorts(root: Root) {
    forall m, n | m in root && n in root && m != n :: !Clash(root[m], root[n])
  }

  /** A VM's forwards are distinct and none is its own ssh port. */
  predicate SelfConsistent(r: Record) {
    r.Good? ==> Distinct(r.forwards) && forall i | 0 <= i < |r.forwards| :: r.forwards[i].host != r.sshPort
  }

  /** No two VMs bind the same host port, for ssh or as a forward. */
  ghost predicate DisjointHosts(root: Root) {
    forall m, n | m in root && n in root && m != n :: DisjointPair(root[m], root[n])
  }

  ghost predicate DisjointPair(a: Record, b: Record) {
    && (!a.Broken? && !b.Broken? && a.sshPort != 0 ==> a.sshPort != b.sshPort)
    && (!a.Broken? && b.Good? ==> forall j | 0 <= j < |b.forwards| :: b.forwards[j].host != a.sshPort)
    && (a.Good? && !b.Broken? ==> forall i | 0 <= i < |a.forwards| :: a.forwards[i].host != b.sshPort)
    && (a.Good? && b.Good? ==>
          forall i, j | 0 <= i < |a.forwards| && 0 <= j < |b.forwards| :: a.forwards[i].host != b.forwards[j].host)
  }

  /** Storing forwards that were accepted, and a port that was accepted, keeps the host
      ports of all VMs apart. */
  lemma AcceptedStaysDisjoint(root: Root, self: string, fwds: seq<Forward>)
    requires DisjointHosts(root) && self in root && root[self].Good?
    requires AllowedIn(Seen(root, true, true), self, root[self].sshPort, fwds)
    ensures DisjointHosts(root[self := root[self].(forwards := fwds)])
  {
    var l, now := Seen(root, true, true), root[self].(forwards := fwds);
    AllowedExact(l.vms, self, now.sshPort, fwds);
    AllowedExact(l.broken, self, now.sshPort, fwds);
    forall n | n in root && n != self ensures DisjointPair(root[n], now) && DisjointPair(now, root[n]) {
      assert DisjointPair(root[n], root[self]) && DisjointPair(root[self], root[n]);
      if root[n].Good? { assert l.vms[n] == root[n]; } else { assert l.broken[n] == root[n]; }
    }
  }

  lemma AcceptedPortStaysDisjoint(root: Root, self: string, port: int)
    requires DisjointHosts(root) && self in root && root[self].Good?
    requires SshPortAllowed(Seen(root, true, true), self, root[self], port)
    ensures DisjointHosts(root[self := root[self].(sshPort := port)])
  {
    var l, was := Seen(root, true, true), root[self];
    var now, all := was.(sshPort := port), was.forwards + [Forward(port, 22)];
    AllowedExact(l.vms, self, was.sshPort, all);
    AllowedExact(l.broken, self, was.sshPort, all);
    assert all[|was.forwards|].host == port;
    forall n | n in root && n != self ensures DisjointPair(root[n], now) && DisjointPair(now, root[n]) {
      assert DisjointPair(root[n], was) && DisjointPair(was, root[n]);
      if root[n].Good? { assert l.vms[n] == root[n]; } else { assert l.broken[n] == root[n]; }
    }
  }

  /** Some listed record of another VM holds the port. */
  ghost predicate ShownIn(l: Listed, self: string, p: int) {
    || (exists n | n in l.vms && n != self :: HoldsPort(l.vms[n], p))
    || (exists n | n in l.broken && n != self :: HoldsPort(l.broken[n], p))
  }

  lemma AllowedPortIsNew(l: Listed, self: string, r: Record, candidate: int)
    requires r.Good? && SshPortAllowed(l, self, r, candidate)
    ensures !ShownIn(l, self, candidate) && candidate != 0
    ensures SelfConsistent(r) ==> SelfConsistent(r.(sshPort := candidate))
  {
    var all := r.forwards + [Forward(candidate, 22)];
    assert all[|r.forwards|].host == candidate;
    assert !ClaimedByOther(l.vms, self, candidate) && !ClaimedByOther(l.broken, self, candidate);
    forall n | n in l.vms && n != self ensures !HoldsPort(l.vms[n], candidate) { assert !Claims(l.vms[n], candidate); }
    forall n | n in l.broken && n != self ensures !HoldsPort(l.broken[n], candidate) {
      assert !Claims(l.broken[n], candidate);
    }
  }
}
