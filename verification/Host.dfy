/**
 The control plane of one host: RunAdd with its rollback, RunRemove, and what they call (cmd/add.go,
 cmd/remove.go, cmd/utils.go, bpf/decap/decap.go, bpf/encap/encap.go, bpf/xdp.go). Any operation may fail. The
 operations done are logged; what packets do in between is any run of the machine with that log.
 */
module Host {
  import opened Bytes
  import opened Names
  import opened Programs
  import opened Machine
  import opened Counters
  import opened Books
  import opened Uplink

  /**
   A device of the root namespace: the outer end of an endpoint's veth pair, whose inner end has moved `home` or
   is still here; the uplink, whose name is no endpoint's; or another, whatever its name.
   */
  datatype Device = Veth(id: Id, home: Option<string>, mtu: nat) | Uplink | Other(name: string)

  /** The device, or the inner end of its pair, is what this name finds. */
  predicate Bears(d: Device, name: string) {
    match d
    case Veth(id, home, _) =>
      name == FormatInterfaceName(id, false) || (home.None? && name == FormatInterfaceName(id, true))
    case Uplink => false
    case Other(n) => n == name
  }

  type Devices = map<nat, Device>

  predicate Taken(devices: Devices, name: string) {
    exists i :: i in devices && Bears(devices[i], name)
  }

  predicate NamesFree(devices: Devices, id: Id) {
    !Taken(devices, FormatInterfaceName(id, false)) && !Taken(devices, FormatInterfaceName(id, true))
  }

  /** The operations that can fail, in the order they are first attempted. */
  datatype Op =
    | StatScript | FindUplink | LookupEndpoint
    | SaveNetns | NewNetns | RestoreNetns | DeleteNewNetns | NetlinkHandle
    | AddLink | FindOuter | FindOuterAgain | DeleteUnfound | FindPeer | MovePeer | FindInner
    | SetOuterUp | SetInnerUp | SetARPOff | InnerOffloads | OuterOffloads | DefaultRoutes | RunScript
    | FindInnerAgain | FindOuterByIndex | InsertEndpoint | LoadProgram | ClearPin
    | AttachDriver | PinDriver | AttachGeneric | PinGeneric | CloseProgram
    | DropEndpoint | FindLeftover | LoadLink | UnpinLink | CloseLink | FindForDelete | DeleteLink
    | LoadFlow | DeleteFlow | LoadFrag | DeleteFrag | LoadRows | DeleteRows | DeleteNetns

  /**
   What one invocation finds: what fails, the ifindex the kernel will pick, the MACs and the uplink's MTU, and
   whether the environment asks for generic mode only.
   */
  datatype World = World(
    faults: set<Op>, ifindex: nat, innerMAC: Option<Mac>, outerMAC: Mac, uplinkMTU: int, generic: bool)

  predicate Works(w: World, op: Op) {
    op !in w.faults
  }

  /** The veths are those of the books. */
  ghost predicate DevicesOk(uplink: nat, veths: map<nat, nat>, devices: Devices) {
    && 0 !in devices && uplink in devices && devices[uplink].Uplink?
    && (forall i :: i in veths <==> i in devices && devices[i].Veth?)
    && forall i :: i in veths ==> devices[i].id == veths[i]
  }

  /** A veth by an endpoint's outer name is its own. */
  lemma BearerOfName(d: Device, id: Id)
    requires d.Veth? && Bears(d, FormatInterfaceName(id, false))
    ensures d.id == id
  {
    NamesDistinct(d.id, id, FormatInterfaceName(d.id, false) != FormatInterfaceName(id, false), false);
  }

  function NewInfo(w: World): Info {
    Info(w.ifindex, w.innerMAC.GetOr(Zeros(6)), w.outerMAC)
  }

  class Kernel {
    const cfg: Config
    var endpoints: map<nat, Info>
    var devices: Devices
    var netns: set<string>
    var pins: set<nat> // link_encap_<ifindex>
    ghost var log: seq<Event>
    ghost var books: Books

    ghost predicate Valid()
      reads this
    {
      && books == Posted(BLANK, cfg.uplink, log) && AllPossible(BLANK, cfg, log)
      && books.endpoints == endpoints
      && DevicesOk(cfg.uplink, books.veths, devices)
      && forall v :: v in endpoints ==> endpoints[v].ifindex != 0 && endpoints[v].ifindex != cfg.uplink
    }

    /** Nothing is left over: every veth is a provisioned endpoint's own, and nothing is left to sweep. */
    ghost predicate Settled()
      reads this
    {
      SettledBooks(books)
    }

    ghost function Now(): Snapshot
      reads this
    {
      Snapshot(endpoints, devices, netns, pins, books)
    }

    /** A host on which setup has run, and nothing of ours is left from before. */
    constructor (cfg: Config, devices: Devices, netns: set<string>, pins: set<nat>)
      requires DevicesOk(cfg.uplink, map[], devices)
      ensures Valid() && Settled() && this.cfg == cfg && log == []
      ensures Now() == Snapshot(map[], devices, netns, pins, BLANK)
    {
      this.cfg, this.devices, this.netns, this.pins := cfg, devices, netns, pins;
      endpoints, log, books := map[], [], BLANK;
    }

    ghost method Enter(e: Event)
      requires books == Posted(BLANK, cfg.uplink, log) && AllPossible(BLANK, cfg, log) && Possible(books, cfg, e)
      modifies this`log, this`books
      ensures books == Posted(BLANK, cfg.uplink, log) && AllPossible(BLANK, cfg, log)
      ensures log == old(log) + [e] && books == Entered(old(books), cfg.uplink, e)
    {
      PostedOnce(BLANK, cfg.uplink, log, e);
      PossibleOnce(BLANK, cfg, log, e);
      log, books := log + [e], Entered(books, cfg.uplink, e);
    }

    // ---- Devices ----

    method FindByName(name: string, op: Op, w: World) returns (i: Option<nat>)
      ensures i.Some? <==> Works(w, op) && Taken(devices, name)
      ensures i.Some? ==> i.value in devices && Bears(devices[i.value], name)
    {
      i := None;
      if Works(w, op) && Taken(devices, name) {
        var found :| found in devices && Bears(devices[found], name);
        i := Some(found);
      }
    }

    /** netlink.LinkAdd for a veth pair. */
    method AddVeth(id: Id, mtu: nat, w: World) returns (ok: bool)
      requires Valid() && w.ifindex !in devices && w.ifindex != 0
      modifies this`log, this`books, this`devices
      ensures Valid() && old(log) <= log
      ensures ok <==> Works(w, AddLink) && NamesFree(old(devices), id)
      ensures devices == if ok then old(devices)[w.ifindex := Veth(id, None, mtu)] else old(devices)
      ensures books == if ok then Entered(old(books), cfg.uplink, CreateVeth(w.ifindex, id)) else old(books)
    {
      ok := Works(w, AddLink) && NamesFree(devices, id);
      if ok {
        devices := devices[w.ifindex := Veth(id, None, mtu)];
        Enter(CreateVeth(w.ifindex, id));
      }
    }

    /** netlink.LinkDel; the peer goes with the outer end. */
    method DeleteDevice(i: nat)
      requires Valid() && i in devices && i != cfg.uplink
      modifies this`log, this`books, this`devices
      ensures Valid() && old(log) <= log && devices == old(devices) - {i}
      ensures books == if old(devices)[i].Veth? then Entered(old(books), cfg.uplink, DeleteVeth(i)) else old(books)
    {
      if devices[i].Veth? {
        Enter(DeleteVeth(i));
      }
      devices := devices - {i};
    }

    /** Looking a device up by index and deleting it, as add's rollback and remove do: a missing one is no error. */
    method DeleteByIndex(i: nat, w: World) returns (ok: bool)
      requires Valid() && i != cfg.uplink
      modifies this`log, this`books, this`devices
      ensures Valid() && old(log) <= log
      ensures ok <==> i !in old(devices) || !Works(w, FindForDelete) || Works(w, DeleteLink)
      ensures devices == if Deletes(w) then old(devices) - {i} else old(devices)
      ensures books == if Deletes(w) && i in old(devices) && old(devices)[i].Veth?
                       then Entered(old(books), cfg.uplink, DeleteVeth(i)) else old(books)
    {
      if i !in devices || !Works(w, FindForDelete) {
        return true;
      }
      if !Works(w, DeleteLink) {
        return false;
      }
      DeleteDevice(i);
      ok := true;
    }

    // ---- vpce_to_ifindex ----

    /** decap.AddEndpoint: fails if the endpoint exists or the map is full. */
    method AddEndpoint(id: Id, info: Info, w: World) returns (ok: bool)
      requires Valid() && info.ifindex != 0 && info.ifindex != cfg.uplink
      modifies this`log, this`books, this`endpoints
      ensures Valid() && old(log) <= log
      ensures ok <==> Works(w, InsertEndpoint) && id !in old(endpoints) && |old(endpoints)| < cfg.maxEndpoints
      ensures endpoints == if ok then old(endpoints)[id := info] else old(endpoints)
      ensures books == if ok then Entered(old(books), cfg.uplink, Insert(id, info)) else old(books)
    {
      ok := Works(w, InsertEndpoint) && id !in endpoints && |endpoints| < cfg.maxEndpoints;
      if ok {
        endpoints := endpoints[id := info];
        Enter(Insert(id, info));
      }
    }

    /** decap.RemoveEndpoint: the entry, gone from the map, unless it is missing or the map cannot be opened. */
    method RemoveEndpoint(id: nat, w: World) returns (info: Option<Info>)
      requires Valid()
      modifies this`log, this`books, this`endpoints
      ensures Valid() && old(log) <= log
      ensures info == if Works(w, DropEndpoint) && id in old(endpoints) then Some(old(endpoints)[id]) else None
      ensures endpoints == if info.Some? then old(endpoints) - {id} else old(endpoints)
      ensures books == if info.Some? then Entered(old(books), cfg.uplink, Delete(id)) else old(books)
    {
      info := None;
      if Works(w, DropEndpoint) && id in endpoints {
        info := Some(endpoints[id]);
        endpoints := endpoints - {id};
        Enter(Delete(id));
      }
    }

    // ---- encap ----

    /** bpf.DetachXDP: nothing pinned is its own kind of error. */
    method DetachXDP(i: nat, load: Op, unpin: Op, close: Op, w: World) returns (ok: bool)
      requires Valid()
      modifies this`log, this`books, this`pins
      ensures Valid() && old(log) <= log && books == old(books)
      ensures ok <==> i in old(pins) && Works(w, load) && Works(w, unpin) && Works(w, close)
      ensures pins == if Works(w, load) && Works(w, unpin) then old(pins) - {i} else old(pins)
    {
      ok := i in pins && Works(w, load) && Works(w, unpin);
      if ok {
        pins := pins - {i};
        Enter(Detach(i));
        ok := Works(w, close);
      }
    }

    /** Attaching in one mode, and pinning: without its pin the link does not outlive its being closed. */
    method AttachMode(i: nat, attach: Op, pin: Op, w: World) returns (ok: bool)
      requires Valid() && i in devices && devices[i].Veth?
      modifies this`log, this`books, this`pins
      ensures Valid() && old(log) <= log && (ok <==> Works(w, attach) && Works(w, pin))
      ensures pins == if ok then old(pins) + {i} else old(pins)
      ensures books == if Works(w, attach) then Entered(old(books), cfg.uplink, Attach(i)) else old(books)
    {
      if !Works(w, attach) {
        return false;
      }
      Enter(Attach(i));
      ok := Works(w, pin);
      if ok {
        pins := pins + {i};
      } else {
        Enter(Detach(i));
      }
    }

    /** bpf.AttachXDP: in driver mode, or else in generic mode. What fails only at its pin was attached for a moment. */
    method AttachXDP(i: nat, w: World) returns (ok: bool)
      requires Valid() && i in devices && devices[i].Veth?
      modifies this`log, this`books, this`pins
      ensures Valid() && old(log) <= log && (ok <==> Pins(w))
      ensures pins == if ok then old(pins) + {i} else old(pins)
      ensures books == if Hooks(w) then Entered(old(books), cfg.uplink, Attach(i)) else old(books)
    {
      ok := false;
      if !w.generic {
        ok := AttachMode(i, AttachDriver, PinDriver, w);
      }
      if !ok {
        ok := AttachMode(i, AttachGeneric, PinGeneric, w);
        AttachedTwice(old(books), cfg.uplink, i);
      }
    }

    /** encap.Attach. A stale pin goes first; an error closing the program comes with encap attached. */
    method AttachEncap(i: nat, w: World) returns (ok: bool)
      requires Valid() && i in devices && devices[i].Veth?
      modifies this`log, this`books, this`pins
      ensures Valid() && old(log) <= log
      ensures ok <==> Attaches(w, i in old(pins)) && Works(w, CloseProgram)
      ensures pins == if Attaches(w, i in old(pins)) then old(pins) + {i}
                      else if Works(w, LoadProgram) && Works(w, ClearPin) then old(pins) - {i} else old(pins)
      ensures books == if Reaches(w, i in old(pins)) then Entered(old(books), cfg.uplink, Attach(i)) else old(books)
    {
      if !Works(w, LoadProgram) {
        return false;
      }
      if i in pins {
        ok := DetachXDP(i, ClearPin, ClearPin, ClearPin, w);
        if !ok {
          return;
        }
      }
      ok := AttachXDP(i, w);
      ok := ok && Works(w, CloseProgram);
    }

    // ---- Sweeping ----

    /** One map's sweep, whole or failed; a map that does not open counts as swept. */
    method FlowStateRemove(i: nat, w: World) returns (ok: bool)
      requires Valid()
      modifies this`log, this`books
      ensures Valid() && old(log) <= log && (ok <==> !Works(w, LoadFlow) || Works(w, DeleteFlow))
      ensures books == SweptOne(old(books), cfg.uplink, SweepFlow(i), LoadFlow, DeleteFlow, w)
    {
      if Works(w, LoadFlow) && Works(w, DeleteFlow) {
        Enter(SweepFlow(i));
      }
      ok := !Works(w, LoadFlow) || Works(w, DeleteFlow);
    }

    /** The same for frag_state. */
    method FragStateRemove(i: nat, w: World) returns (ok: bool)
      requires Valid()
      modifies this`log, this`books
      ensures Valid() && old(log) <= log && (ok <==> !Works(w, LoadFrag) || Works(w, DeleteFrag))
      ensures books == SweptOne(old(books), cfg.uplink, SweepFrag(i), LoadFrag, DeleteFrag, w)
    {
      if Works(w, LoadFrag) && Works(w, DeleteFrag) {
        Enter(SweepFrag(i));
      }
      ok := !Works(w, LoadFrag) || Works(w, DeleteFrag);
    }

    /** The same for metrics. */
    method MetricsRemove(i: nat, w: World) returns (ok: bool)
      requires Valid()
      modifies this`log, this`books
      ensures Valid() && old(log) <= log && (ok <==> !Works(w, LoadRows) || Works(w, DeleteRows))
      ensures books == SweptOne(old(books), cfg.uplink, SweepRows(i), LoadRows, DeleteRows, w)
    {
      if Works(w, LoadRows) && Works(w, DeleteRows) {
        Enter(SweepRows(i));
      }
      ok := !Works(w, LoadRows) || Works(w, DeleteRows);
    }

    /** decap.SweepEndpoint: all three are tried, whichever fails. */
    method SweepEndpoint(i: nat, w: World) returns (ok: bool)
      requires Valid()
      modifies this`log, this`books
      ensures Valid() && old(log) <= log && (ok <==> SweepWorks(w)) && books == SweptBooks(old(books), cfg.uplink, i, w)
    {
      var flow := FlowStateRemove(i, w);
      var frag := FragStateRemove(i, w);
      var rows := MetricsRemove(i, w);
      ok := flow && frag && rows;
    }

    // ---- Named network namespaces ----

    /**
     CreateNamedNetns. Its handle is zero until a namespace is made, which counts as open: when the calling
     thread's own namespace cannot be saved, the cleanup deletes by name whatever was there.
     */
    method CreateNamedNetns(name: string, w: World) returns (ok: bool)
      modifies this`netns
      ensures ok <==> CreatesNetns(old(netns), name, w)
      ensures netns == NetnsAfter(old(netns), name, w)
    {
      var newns := 0;
      ok := Works(w, SaveNetns);
      if ok {
        ok := Works(w, NewNetns) && name !in netns;
        if ok {
          newns, netns := 3, netns + {name};
        } else {
          newns := -1;
        }
        ok := ok && Works(w, RestoreNetns);
      }
      if !ok && newns != -1 && Works(w, DeleteNewNetns) {
        netns := netns - {name};
      }
    }

    /** netns.DeleteNamed, a missing namespace being no error. */
    method DropNetns(name: string, w: World) returns (ok: bool)
      modifies this`netns
      ensures ok <==> Works(w, DeleteNetns)
      ensures netns == if ok then old(netns) - {name} else old(netns)
    {
      ok := Works(w, DeleteNetns);
      if ok {
        netns := netns - {name};
      }
    }

    // ---- add ----

    /** The veth pair and its outer end's ifindex, or zero; without the ifindex it is deleted by name. */
    method AddPair(id: Id, mtu: nat, w: World) returns (outerIfindex: nat)
      requires Valid() && w.ifindex !in devices && w.ifindex != 0
      modifies this`log, this`books, this`devices
      ensures Valid() && old(log) <= log && outerIfindex == if Pairs(w, old(devices), id) then w.ifindex else 0
      ensures devices == if outerIfindex != 0 || Leaks(w, old(devices), id)
                         then old(devices)[w.ifindex := Veth(id, None, mtu)] else old(devices)
      ensures outerIfindex != 0 ==> books == Entered(old(books), cfg.uplink, CreateVeth(w.ifindex, id))
      ensures outerIfindex == 0 && !Leaks(w, old(devices), id) ==>
                books == old(books) || books == CameAndWent(old(books), cfg.uplink, w.ifindex, id)
    {
      var added := AddVeth(id, mtu, w);
      if !added {
        return 0;
      }
      if Works(w, FindOuter) {
        return w.ifindex;
      }
      assert Bears(devices[w.ifindex], FormatInterfaceName(id, false));
      var found := FindByName(FormatInterfaceName(id, false), FindOuterAgain, w);
      if found.Some? && Works(w, DeleteUnfound) {
        assert found.value == w.ifindex;
        DeleteDevice(found.value);
        assert devices == old(devices);
      }
      outerIfindex := 0;
    }

    /** What add does to the new pair before anything can reach it. */
    method Configure(i: nat, isolated: bool, name: string, script: bool, w: World) returns (ok: bool)
      requires Valid() && i in devices && devices[i].Veth?
      modifies this`devices
      ensures Valid() && (ok <==> Configures(isolated, script, w))
      ensures devices == if isolated && Works(w, FindPeer) && Works(w, MovePeer)
                         then old(devices)[i := old(devices)[i].(home := Some(name))] else old(devices)
    {
      if isolated {
        if !Works(w, FindPeer) || !Works(w, MovePeer) {
          return false;
        }
        devices := devices[i := devices[i].(home := Some(name))];
      }
      ok := && Works(w, FindInner) && Works(w, SetOuterUp) && Works(w, SetInnerUp) && Works(w, SetARPOff)
            && Works(w, InnerOffloads) && Works(w, OuterOffloads)
            && (isolated ==> Works(w, DefaultRoutes)) && (script ==> Works(w, RunScript))
            && Works(w, FindInnerAgain) && w.innerMAC.Some? && Works(w, FindOuterByIndex);
    }

    /** The veth pair, configured; then the endpoint, and last encap: from then on it is reachable. */
    method ProvisionPair(id: Id, name: string, script: bool, isolated: bool, mtu: nat, w: World)
      returns (ok: bool, outerIfindex: nat, insertedEndpoint: bool)
      requires Valid() && w.ifindex !in devices && w.ifindex != 0
      modifies this`log, this`books, this`endpoints, this`devices, this`pins
      ensures Valid() && old(log) <= log
      ensures outerIfindex == if Pairs(w, old(devices), id) then w.ifindex else 0
      ensures insertedEndpoint <==>
                outerIfindex != 0 && Inserts(isolated, script, w, old(endpoints), id, cfg.maxEndpoints)
      ensures ok <==> insertedEndpoint && Attaches(w, w.ifindex in old(pins)) && Works(w, CloseProgram)
      ensures endpoints == if insertedEndpoint then old(endpoints)[id := NewInfo(w)] else old(endpoints)
      ensures OnlyPin(old(pins), pins, w.ifindex) && (ok ==> w.ifindex in pins)
      ensures PairMade(old(devices), devices, outerIfindex, id, name, isolated, mtu, w)
      ensures outerIfindex != 0 ==>
                books == MadeBooks(old(books), cfg.uplink, id, insertedEndpoint, Reaches(w, w.ifindex in old(pins)), w)
      ensures outerIfindex == 0 && !Leaks(w, old(devices), id) ==>
                books == old(books) || books == CameAndWent(old(books), cfg.uplink, w.ifindex, id)
    {
      insertedEndpoint := false;
      outerIfindex := AddPair(id, mtu, w);
      if outerIfindex == 0 {
        return false, 0, false;
      }
      ok := Configure(outerIfindex, isolated, name, script, w);
      if ok {
        ok, insertedEndpoint := MakeReachable(id, outerIfindex, w);
        assert Valid() && PairMade(old(devices), devices, outerIfindex, id, name, isolated, mtu, w);
      }
    }

    /** The endpoint's entry, then encap. */
    method MakeReachable(id: Id, i: nat, w: World) returns (ok: bool, inserted: bool)
      requires Valid() && i in devices && devices[i].Veth? && i == w.ifindex
      modifies this`log, this`books, this`endpoints, this`pins
      ensures Valid() && old(log) <= log
      ensures inserted <==> Works(w, InsertEndpoint) && id !in old(endpoints) && |old(endpoints)| < cfg.maxEndpoints
      ensures ok <==> inserted && Attaches(w, i in old(pins)) && Works(w, CloseProgram)
      ensures endpoints == if inserted then old(endpoints)[id := NewInfo(w)] else old(endpoints)
      ensures OnlyPin(old(pins), pins, i) && (ok ==> i in pins)
      ensures books == Published(old(books), cfg.uplink, id, inserted, Reaches(w, i in old(pins)), w)
    {
      inserted := AddEndpoint(id, NewInfo(w), w);
      ok := inserted;
      if inserted {
        ok := AttachEncap(i, w);
      }
    }

    /** Everything add creates, and the flags its rollback reads. */
    method Provision(id: Id, name: string, script: bool, isolated: bool, mtu: nat, w: World)
      returns (ok: bool, made: Made)
      requires Valid() && w.ifindex !in devices && w.ifindex != 0
      modifies this
      ensures Valid() && old(log) <= log && OnlyPin(old(pins), pins, w.ifindex)
      ensures ok <==> Provisions(old(Now()), id, name, script, isolated, w, cfg.maxEndpoints)
      ensures Provisioned(old(Now()), Now(), cfg.uplink, id, name, isolated, mtu, w, made)
      ensures ok ==> made == Made(isolated, w.ifindex, true) && w.ifindex in pins && w.innerMAC.Some?
    {
      made := Made(false, 0, false);
      if isolated {
        var created := CreateNamedNetns(name, w);
        if !created {
          return false, made;
        }
        made := Made(true, 0, false);
      }
      if !Works(w, NetlinkHandle) {
        return false, made;
      }
      var outerIfindex, insertedEndpoint;
      ok, outerIfindex, insertedEndpoint := ProvisionPair(id, name, script, isolated, mtu, w);
      made := Made(made.netns, outerIfindex, insertedEndpoint);
    }

    /** The deferred rollback: only what this call created, in the order that lets nothing repopulate. */
    method RollBack(id: Id, name: string, made: Made, w: World) returns (ok: bool)
      requires Valid()
      requires made.outerIfindex != 0 ==> made.outerIfindex in books.veths
      requires made.endpoint ==> made.outerIfindex != 0 && id in endpoints
      modifies this`log, this`books, this`endpoints, this`devices, this`netns
      ensures Valid() && old(log) <= log && RolledBack(old(Now()), Now(), cfg.uplink, id, name, made, w)
      ensures CleansUp(w) ==> ok
    {
      ok := true;
      if made.endpoint {
        var info := RemoveEndpoint(id, w);
        ok := info.Some?;
      }
      if made.outerIfindex != 0 {
        var deleted := DeleteByIndex(made.outerIfindex, w);
        ok := ok && deleted;
      }
      if made.endpoint {
        var swept := SweepEndpoint(made.outerIfindex, w);
        ok := ok && swept;
      }
      if made.netns {
        var dropped := DropNetns(name, w);
        ok := ok && dropped;
      }
    }

    /** Provisioning past all checks, undone if it fails. */
    method AddOrRollBack(plan: Plan, script: bool, isolated: bool, w: World) returns (ok: bool)
      requires Valid() && w.ifindex !in devices && w.ifindex != 0 && plan.id !in endpoints
      modifies this
      ensures Valid() && old(log) <= log && OnlyPin(old(pins), pins, w.ifindex) && (ok ==> w.ifindex in pins)
      ensures AddEnds(old(Now()), Now(), Some(plan), isolated, w, ok)
      ensures ok <==> Provisions(old(Now()), plan.id, plan.name, script, isolated, w, cfg.maxEndpoints)
      ensures old(Settled()) && (ok || CleansUp(w)) ==> Settled()
    {
      var made;
      ok, made := Provision(plan.id, plan.name, script, isolated, plan.mtu, w);
      ghost var had, done := old(Now()), Now();
      if ok {
        ProvisionSettles(had, done, cfg.uplink, plan, isolated, w, made);
      } else {
        var _ := RollBack(plan.id, plan.name, made, w);
        RollBackRestores(had, done, Now(), cfg.uplink, plan, isolated, w, made);
        if CleansUp(w) && SettledBooks(had.books) {
          RollBackSettles(had, done, Now(), cfg.uplink, plan, isolated, w, made);
        }
      }
    }

    /**
     RunAdd: a transaction. Whatever fails, if the rollback's own operations work, nothing has changed, but for
     the one namespace CreateNamedNetns may delete; and whatever fails there too, no other endpoint or device has.
     */
    method RunAdd(vpceID: string, script: bool, isolated: bool, mtu: int, w: World) returns (ok: bool)
      requires Valid() && w.ifindex !in devices && w.ifindex != 0
      modifies this
      ensures Valid() && old(log) <= log && OnlyPin(old(pins), pins, w.ifindex) && (ok ==> w.ifindex in pins)
      ensures var plan := Admit(vpceID, script, mtu, w, old(endpoints));
              && AddEnds(old(Now()), Now(), plan, isolated, w, ok)
              && (ok <==> plan.Some? &&
                          Provisions(old(Now()), plan.value.id, plan.value.name, script, isolated, w, cfg.maxEndpoints))
      ensures old(Settled()) && (ok || CleansUp(w)) ==> Settled()
    {
      var plan := Admit(vpceID, script, mtu, w, endpoints);
      if plan.None? {
        return false;
      }
      ok := AddOrRollBack(plan.value, script, isolated, w);
    }

    // ---- remove ----

    /** remove, once it knows the interface: detach encap, delete the veth, and only then sweep. */
    method RemoveInterface(i: nat, fromMap: bool, w: World) returns (ok: bool)
      requires Valid() && i != cfg.uplink
      modifies this`log, this`books, this`devices, this`pins
      ensures Valid() && old(log) <= log
      ensures ok <==> RemovesInterface(w, i in old(pins), fromMap, i in old(devices))
      ensures pins == if Works(w, LoadLink) && Works(w, UnpinLink) then old(pins) - {i} else old(pins)
      ensures devices == if Deletes(w) then old(devices) - {i} else old(devices)
      ensures books == RemovedBooks(old(books), cfg.uplink, i in old(devices) && old(devices)[i].Veth?, i, w)
    {
      var pinned := i in pins;
      var detached := DetachXDP(i, LoadLink, UnpinLink, CloseLink, w);
      var deleted := DeleteByIndex(i, w);
      var swept := SweepEndpoint(i, w);
      ok := (detached || (!fromMap && !pinned)) && deleted && swept;
    }

    /** No entry to read an ifindex from: whatever bears the endpoint's outer name is removed, pinned or not. */
    method RemoveLeftover(id: Id, w: World)
      requires Valid()
      modifies this`log, this`books, this`devices, this`pins
      ensures Valid() && old(log) <= log
      ensures forall j :: j in old(devices) && !Bears(old(devices)[j], FormatInterfaceName(id, false)) ==>
                j in devices && devices[j] == old(devices)[j]
      ensures old(Settled()) && (id !in endpoints || !Works(w, FindLeftover)) ==> Settled()
    {
      var found := FindByName(FormatInterfaceName(id, false), FindLeftover, w);
      if found.Some? {
        if devices[found.value].Veth? {
          BearerOfName(devices[found.value], id);
        }
        if Settled() && id !in endpoints {
          AbsentSettles(books, cfg.uplink, found.value, id, w);
        }
        var _ := RemoveInterface(found.value, false, w);
      }
    }

    /** remove, for a parsed ID: the interface comes from the map, or else by the veth's name. */
    method RemoveById(id: Id, w: World) returns (ok: bool)
      requires Valid()
      modifies this`log, this`books, this`endpoints, this`devices, this`pins
      ensures Valid() && old(log) <= log && WithoutEndpoint(old(Now()), Now(), id, w, ok)
      ensures old(Settled()) && (Works(w, DropEndpoint) || id !in old(endpoints)) ==>
                (Settled() <==> id !in old(endpoints) || RemovesAll(w))
      ensures old(Settled()) && !Works(w, DropEndpoint) && !Works(w, FindLeftover) ==> Settled()
      ensures id in old(endpoints) && Works(w, DropEndpoint) && Deletes(w) ==>
                old(endpoints)[id].ifindex !in books.veths
    {
      var info := RemoveEndpoint(id, w);
      if info.Some? {
        if old(Settled()) {
          KnownSettles(old(books), cfg.uplink, id, w);
        }
        ok := RemoveInterface(info.value.ifindex, true, w);
        KnownGone(old(Now()), Now(), id, w, ok);
        return;
      }
      assert id !in endpoints ==> endpoints - {id} == endpoints;
      RemoveLeftover(id, w);
      ok := false;
      assert WithoutEndpoint(old(Now()), Now(), id, w, ok);
    }

    /**
     RunRemove. Success means the endpoint, its program and its namespace are gone; the veth and its entries
     are, too, unless looking the veth up or opening a map failed, which is not reported. Whatever it returns, a
     settled host whose entry is dropped or absent stays settled if and only if the endpoint was not there, or its
     veth was found and deleted and all three maps swept.
     */
    method RunRemove(vpceID: string, w: World) returns (ok: bool)
      requires Valid()
      modifies this
      ensures Valid() && old(log) <= log
      ensures RemoveEnds(old(Now()), Now(), ParseVPCEID(vpceID), w, ok)
      ensures ParseVPCEID(vpceID).Some? && old(Settled()) ==>
                var id := ParseVPCEID(vpceID).value;
                && (Works(w, DropEndpoint) || id !in old(endpoints) ==>
                      (Settled() <==> id !in old(endpoints) || RemovesAll(w)))
                && (!Works(w, DropEndpoint) && !Works(w, FindLeftover) ==> Settled())
      ensures ok && Works(w, FindForDelete) && MapsOpen(w) ==>
                && old(endpoints)[ParseVPCEID(vpceID).value].ifindex !in books.veths
                && (old(Settled()) ==> Settled())
    {
      var parsed := ParseVPCEID(vpceID);
      if parsed.None? {
        return false;
      }
      ok := RemoveById(parsed.value, w);
      var dropped := DropNetns(FormatVPCEID(parsed.value), w);
      ok := ok && dropped;
    }
  }

  // ---- What the operations come to ----

  predicate Deletes(w: World) {
    Works(w, FindForDelete) && Works(w, DeleteLink)
  }

  /** In some mode that is tried encap is attached. */
  predicate Hooks(w: World) {
    (!w.generic && Works(w, AttachDriver)) || Works(w, AttachGeneric)
  }

  /** In some mode that is tried encap is attached and its link pinned. */
  predicate Pins(w: World) {
    (!w.generic && Works(w, AttachDriver) && Works(w, PinDriver)) || (Works(w, AttachGeneric) && Works(w, PinGeneric))
  }

  /** encap's attachment is tried with success, though its link may not stay. */
  predicate Reaches(w: World, stale: bool) {
    Works(w, LoadProgram) && (stale ==> Works(w, ClearPin)) && Hooks(w)
  }

  predicate Attaches(w: World, stale: bool) {
    Works(w, LoadProgram) && (stale ==> Works(w, ClearPin)) && Pins(w)
  }

  lemma AttachedTwice(b: Books, uplink: nat, i: nat)
    ensures var once := Entered(b, uplink, Attach(i)); Entered(once, uplink, Attach(i)) == once
  {
    assert b.used + {i} + {i} == b.used + {i};
  }

  predicate SweepWorks(w: World) {
    && (!Works(w, LoadFlow) || Works(w, DeleteFlow))
    && (!Works(w, LoadFrag) || Works(w, DeleteFrag))
    && (!Works(w, LoadRows) || Works(w, DeleteRows))
  }

  predicate MapsOpen(w: World) {
    Works(w, LoadFlow) && Works(w, LoadFrag) && Works(w, LoadRows)
  }

  function SweptOne(b: Books, uplink: nat, e: Event, load: Op, delete: Op, w: World): Books {
    if Works(w, load) && Works(w, delete) then Entered(b, uplink, e) else b
  }

  function SweptBooks(b: Books, uplink: nat, i: nat, w: World): Books {
    var flow := SweptOne(b, uplink, SweepFlow(i), LoadFlow, DeleteFlow, w);
    var frag := SweptOne(flow, uplink, SweepFrag(i), LoadFrag, DeleteFrag, w);
    SweptOne(frag, uplink, SweepRows(i), LoadRows, DeleteRows, w)
  }

  /** `veth`: there is a veth to delete. */
  function RemovedBooks(b: Books, uplink: nat, veth: bool, i: nat, w: World): Books {
    SweptBooks(if veth && Deletes(w) then Entered(b, uplink, DeleteVeth(i)) else b, uplink, i, w)
  }

  function CameAndWent(b: Books, uplink: nat, i: nat, id: nat): Books {
    Entered(Entered(b, uplink, CreateVeth(i, id)), uplink, DeleteVeth(i))
  }

  /** With the endpoint's entry, if it was inserted, and encap's attachment, if it was then reached. */
  function Published(b: Books, uplink: nat, id: nat, inserted: bool, attached: bool, w: World): Books {
    if !inserted then b
    else
      var published := Entered(b, uplink, Insert(id, NewInfo(w)));
      if attached then Entered(published, uplink, Attach(w.ifindex)) else published
  }

  function MadeBooks(b: Books, uplink: nat, id: nat, inserted: bool, attached: bool, w: World): Books {
    Published(Entered(b, uplink, CreateVeth(w.ifindex, id)), uplink, id, inserted, attached, w)
  }

  predicate OnlyPin(was: set<nat>, now: set<nat>, i: nat) {
    now == was - {i} || now == was + {i} || now == was
  }

  predicate CreatesNetns(was: set<string>, name: string, w: World) {
    Works(w, SaveNetns) && Works(w, NewNetns) && name !in was && Works(w, RestoreNetns)
  }

  /** The netns after a creation, by what failed. */
  function NetnsAfter(was: set<string>, name: string, w: World): set<string> {
    if !Works(w, SaveNetns) then if Works(w, DeleteNewNetns) then was - {name} else was
    else if !Works(w, NewNetns) || name in was then was
    else if Works(w, RestoreNetns) || !Works(w, DeleteNewNetns) then was + {name}
    else was
  }

  /** The pair can be made and its outer end found. */
  predicate Pairs(w: World, devices: Devices, id: Id) {
    Works(w, AddLink) && NamesFree(devices, id) && Works(w, FindOuter)
  }

  /** The pair is made, but cannot be found by its name even to delete it. */
  predicate Leaks(w: World, devices: Devices, id: Id) {
    && Works(w, AddLink) && NamesFree(devices, id)
    && !Works(w, FindOuter) && (!Works(w, FindOuterAgain) || !Works(w, DeleteUnfound))
  }

  predicate Configures(isolated: bool, script: bool, w: World) {
    && (isolated ==> Works(w, FindPeer) && Works(w, MovePeer) && Works(w, DefaultRoutes))
    && Works(w, FindInner) && Works(w, SetOuterUp) && Works(w, SetInnerUp) && Works(w, SetARPOff)
    && Works(w, InnerOffloads) && Works(w, OuterOffloads) && (script ==> Works(w, RunScript))
    && Works(w, FindInnerAgain) && w.innerMAC.Some? && Works(w, FindOuterByIndex)
  }

  predicate Inserts(isolated: bool, script: bool, w: World, endpoints: map<nat, Info>, id: nat, room: nat) {
    Configures(isolated, script, w) && Works(w, InsertEndpoint) && id !in endpoints && |endpoints| < room
  }

  /** Every step of provisioning works, and nothing is in its way. */
  predicate Provisions(had: Snapshot, id: Id, name: string, script: bool, isolated: bool, w: World, room: nat) {
    && (isolated ==> CreatesNetns(had.netns, name, w)) && Works(w, NetlinkHandle)
    && Pairs(w, had.devices, id) && Inserts(isolated, script, w, had.endpoints, id, room)
    && Attaches(w, w.ifindex in had.pins) && Works(w, CloseProgram)
  }

  /** Every operation of the rollback works, and of the cleanups before it. */
  predicate CleansUp(w: World) {
    && Works(w, DropEndpoint) && Deletes(w) && MapsOpen(w) && SweepWorks(w)
    && Works(w, DeleteNetns) && Works(w, DeleteNewNetns) && Works(w, FindOuterAgain) && Works(w, DeleteUnfound)
  }

  /** Every step that removes an interface works, or fails unreported. */
  predicate RemovesInterface(w: World, pinned: bool, fromMap: bool, there: bool) {
    && (if pinned then Works(w, LoadLink) && Works(w, UnpinLink) && Works(w, CloseLink) else !fromMap)
    && (!there || !Works(w, FindForDelete) || Works(w, DeleteLink)) && SweepWorks(w)
  }

  /** The endpoint is there, and everything that removes it works, or fails unreported. */
  predicate RemovesEndpoint(had: Snapshot, id: nat, w: World) {
    Works(w, DropEndpoint) && id in had.endpoints &&
    var i := had.endpoints[id].ifindex; RemovesInterface(w, i in had.pins, true, i in had.devices)
  }

  /** What a call has made so far: createdNetns, outerIfindex and insertedEndpoint. */
  datatype Made = Made(netns: bool, outerIfindex: nat, endpoint: bool)

  /** All that add and remove change. */
  datatype Snapshot = Snapshot(
    endpoints: map<nat, Info>, devices: Devices, netns: set<string>, pins: set<nat>, books: Books)

  /** The devices with the new pair, its inner end moved or not, or without it. */
  predicate PairMade(had: Devices, now: Devices, outerIfindex: nat, id: Id, name: string, isolated: bool, mtu: nat,
                     w: World) {
    var moved := isolated && Works(w, FindPeer) && Works(w, MovePeer);
    if outerIfindex != 0 then now == had[w.ifindex := Veth(id, if moved then Some(name) else None, mtu)]
    else now == if Leaks(w, had, id) then had[w.ifindex := Veth(id, None, mtu)] else had
  }

  predicate Provisioned(had: Snapshot, now: Snapshot, uplink: nat, id: Id, name: string, isolated: bool, mtu: nat,
                        w: World, made: Made) {
    && (made.outerIfindex == 0 || made.outerIfindex == w.ifindex)
    && (made.netns <==> isolated && CreatesNetns(had.netns, name, w))
    && now.netns == (if isolated then NetnsAfter(had.netns, name, w) else had.netns)
    && (made.endpoint ==> made.outerIfindex != 0 && (isolated ==> Works(w, FindPeer) && Works(w, MovePeer)))
    && now.endpoints == (if made.endpoint then had.endpoints[id := NewInfo(w)] else had.endpoints)
    && (PairMade(had.devices, now.devices, made.outerIfindex, id, name, isolated, mtu, w) || now.devices == had.devices)
    && (if made.outerIfindex != 0 then
          && PairMade(had.devices, now.devices, made.outerIfindex, id, name, isolated, mtu, w)
          && now.books == MadeBooks(had.books, uplink, id, made.endpoint, Reaches(w, w.ifindex in had.pins), w)
        else
          || Leaks(w, had.devices, id) || now.books == had.books
          || now.books == CameAndWent(had.books, uplink, w.ifindex, id))
  }

  predicate RolledBack(was: Snapshot, now: Snapshot, uplink: nat, id: Id, name: string, made: Made, w: World) {
    && now.endpoints == (if made.endpoint && Works(w, DropEndpoint) then was.endpoints - {id} else was.endpoints)
    && now.devices == (if made.outerIfindex != 0 && Deletes(w) then was.devices - {made.outerIfindex} else was.devices)
    && now.netns == (if made.netns && Works(w, DeleteNetns) then was.netns - {name} else was.netns)
    && now.books == UndoneBooks(was.books, uplink, id, made, w)
  }

  function UndoneBooks(b: Books, uplink: nat, id: nat, made: Made, w: World): Books {
    if made.endpoint then
      var removed := if Works(w, DropEndpoint) then Entered(b, uplink, Delete(id)) else b;
      RemovedBooks(removed, uplink, true, made.outerIfindex, w)
    else if made.outerIfindex != 0 && Deletes(w) then Entered(b, uplink, DeleteVeth(made.outerIfindex))
    else b
  }

  /** The endpoint is provisioned, and nothing else changed. */
  predicate Added(had: Snapshot, now: Snapshot, id: Id, name: string, isolated: bool, mtu: nat, w: World) {
    && now.endpoints == had.endpoints[id := NewInfo(w)] && w.innerMAC.Some?
    && now.devices == had.devices[w.ifindex := Veth(id, if isolated then Some(name) else None, mtu)]
    && now.netns == had.netns + (if isolated then {name} else {}) && (isolated ==> name !in had.netns)
  }

  /** Nothing changed, but for a namespace of the same name that CreateNamedNetns deletes on its way out. */
  predicate Restored(had: Snapshot, now: Snapshot, name: string, isolated: bool, w: World) {
    && now.endpoints == had.endpoints && now.devices == had.devices
    && now.netns == if isolated && !Works(w, SaveNetns) then had.netns - {name} else had.netns
  }

  /** Whatever fails, other endpoints and devices are left alone. */
  predicate LeftAlone(had: Snapshot, now: Snapshot, id: nat, i: nat) {
    now.endpoints - {id} == had.endpoints && now.devices - {i} == had.devices
  }

  /** What add is about to do, once every check before its first change has passed. */
  datatype Plan = Plan(id: Id, name: string, mtu: nat)

  function Admit(vpceID: string, script: bool, mtu: int, w: World, endpoints: map<nat, Info>): (p: Option<Plan>)
    ensures p.Some? ==>
              && p.value.id !in endpoints && ParseVPCEID(vpceID) == Some(p.value.id)
              && p.value.name == FormatVPCEID(p.value.id)
  {
    if script && !Works(w, StatScript) then None
    else
      match ParseVPCEID(vpceID)
      case None => None
      case Some(id) =>
        if !Works(w, FindUplink) then None
        else
          match MaxInnerLen(w.uplinkMTU)
          case None => None
          case Some(maxMTU) =>
            match VethMTU(mtu, maxMTU)
            case None => None
            case Some(vethMTU) =>
              if !Works(w, LookupEndpoint) || id in endpoints then None else Some(Plan(id, FormatVPCEID(id), vethMTU))
  }

  /** How add can end: refused before anything is touched, done, or undone. */
  predicate AddEnds(had: Snapshot, now: Snapshot, plan: Option<Plan>, isolated: bool, w: World, ok: bool) {
    match plan
    case None => !ok && now == had
    case Some(Plan(id, name, mtu)) =>
      if ok then Added(had, now, id, name, isolated, mtu, w)
      else LeftAlone(had, now, id, w.ifindex) && (CleansUp(w) ==> Restored(had, now, name, isolated, w))
  }

  /** The order was kept, nothing is left to sweep, and every veth is the one its endpoint is delivered to. */
  predicate SettledBooks(b: Books) {
    && b.quiet && b.left == NOTHING && b.veths.Keys == Ifindexes(b.endpoints) && b.veths.Keys <= b.used
    && forall v :: v in b.endpoints ==> b.endpoints[v].ifindex in b.veths && b.veths[b.endpoints[v].ifindex] == v
  }

  lemma IfindexesGrow(endpoints: map<nat, Info>, id: nat, info: Info)
    requires id !in endpoints
    ensures Ifindexes(endpoints[id := info]) == Ifindexes(endpoints) + {info.ifindex}
  {
    var more := endpoints[id := info];
    assert forall v :: v in endpoints ==> more[v] == endpoints[v];
    assert more[id] == info;
  }

  lemma ProvisionSettles(had: Snapshot, now: Snapshot, uplink: nat, plan: Plan, isolated: bool, w: World, made: Made)
    requires Provisioned(had, now, uplink, plan.id, plan.name, isolated, plan.mtu, w, made)
    requires made == Made(isolated, w.ifindex, true) && w.ifindex != 0 && Attaches(w, w.ifindex in had.pins)
    requires (isolated ==> CreatesNetns(had.netns, plan.name, w)) && w.innerMAC.Some?
    requires had.endpoints == had.books.endpoints && plan.id !in had.endpoints && w.ifindex !in had.books.veths
    ensures AddEnds(had, now, Some(plan), isolated, w, true)
    ensures SettledBooks(had.books) ==> SettledBooks(now.books)
  {
    MadeInOrder(had.books, uplink, plan.id, true, w);
  }

  /** The books of an add so far: in order, and one veth more, whose the endpoint is if it is inserted. */
  lemma MadeInOrder(b: Books, uplink: nat, id: nat, attached: bool, w: World)
    requires id !in b.endpoints && w.ifindex !in b.veths
    ensures var c := MadeBooks(b, uplink, id, true, attached, w);
            && c.veths == b.veths[w.ifindex := id] && c.endpoints == b.endpoints[id := NewInfo(w)]
            && (SettledBooks(b) ==> SettledBooks(c))
  {
    IfindexesGrow(b.endpoints, id, NewInfo(w));
  }

  lemma RollBackRestores(had: Snapshot, done: Snapshot, now: Snapshot, uplink: nat, plan: Plan, isolated: bool,
                         w: World, made: Made)
    requires w.ifindex !in had.devices && w.ifindex != 0 && w.ifindex != uplink && w.ifindex !in had.books.veths
    requires plan.id !in had.endpoints && had.endpoints == had.books.endpoints
    requires Provisioned(had, done, uplink, plan.id, plan.name, isolated, plan.mtu, w, made)
    requires RolledBack(done, now, uplink, plan.id, plan.name, made, w)
    ensures AddEnds(had, now, Some(plan), isolated, w, false)
  {
    assert had.endpoints[plan.id := NewInfo(w)] - {plan.id} == had.endpoints;
    assert had.endpoints - {plan.id} == had.endpoints;
    DeviceBack(had.devices, done.devices, w.ifindex);
    assert LeftAlone(had, now, plan.id, w.ifindex);
    if CleansUp(w) {
      NetnsBack(had.netns, done.netns, now.netns, plan.name, isolated, w, made.netns);
    }
  }

  lemma NetnsBack(had: set<string>, done: set<string>, now: set<string>, name: string, isolated: bool, w: World,
                  made: bool)
    requires CleansUp(w) && (made <==> isolated && CreatesNetns(had, name, w))
    requires done == if isolated then NetnsAfter(had, name, w) else had
    requires now == if made then done - {name} else done
    ensures now == if isolated && !Works(w, SaveNetns) then had - {name} else had
  {
  }

  lemma RollBackSettles(had: Snapshot, done: Snapshot, now: Snapshot, uplink: nat, plan: Plan, isolated: bool, w: World,
                        made: Made)
    requires w.ifindex !in had.devices && w.ifindex != 0 && w.ifindex != uplink && w.ifindex !in had.books.veths
    requires plan.id !in had.endpoints && had.endpoints == had.books.endpoints
    requires Provisioned(had, done, uplink, plan.id, plan.name, isolated, plan.mtu, w, made)
    requires RolledBack(done, now, uplink, plan.id, plan.name, made, w) && CleansUp(w) && SettledBooks(had.books)
    ensures SettledBooks(now.books)
  {
    if made.endpoint {
      UndoSettles(had.books, uplink, plan.id, Reaches(w, w.ifindex in had.pins), w);
    } else {
      UnusedUndone(had.books, uplink, w.ifindex, plan.id);
    }
  }

  lemma DeviceBack(had: Devices, now: Devices, i: nat)
    requires i !in had && (now == had || (i in now && now == had[i := now[i]]))
    ensures now - {i} == had && now - {i} - {i} == had
  {
  }

  /** A veth that came and went unused leaves the books as they were. */
  lemma UnusedUndone(b: Books, uplink: nat, i: nat, id: nat)
    requires SettledBooks(b) && i !in b.veths
    ensures SettledBooks(CameAndWent(b, uplink, i, id))
  {
    assert b.veths[i := id] - {i} == b.veths;
  }

  /** What a failed add put in the books for its endpoint, the rollback takes out again, as a removal would. */
  lemma UndoSettles(b: Books, uplink: nat, id: nat, attached: bool, w: World)
    requires SettledBooks(b) && CleansUp(w) && id !in b.endpoints && w.ifindex !in b.veths && w.ifindex != uplink
    requires w.ifindex != 0
    ensures var made := MadeBooks(b, uplink, id, true, attached, w);
            SettledBooks(UndoneBooks(made, uplink, id, Made(false, w.ifindex, true), w))
  {
    MadeInOrder(b, uplink, id, attached, w);
    KnownSettles(MadeBooks(b, uplink, id, true, attached, w), uplink, id, w);
  }

  /** How remove can end. */
  predicate RemoveEnds(had: Snapshot, now: Snapshot, parsed: Option<nat>, w: World, ok: bool)
    requires parsed.Some? ==> parsed.value < ID_LIMIT
  {
    match parsed
    case None => !ok && now == had
    case Some(id) =>
      && WithoutEndpoint(had, now, id, w, RemovesEndpoint(had, id, w))
      && now.netns == (if Works(w, DeleteNetns) then had.netns - {FormatVPCEID(id)} else had.netns)
      && (ok <==> RemovesEndpoint(had, id, w) && Works(w, DeleteNetns))
  }

  /** The namespace aside. Only a device of the endpoint's own, or of its name, can have gone with it. */
  predicate WithoutEndpoint(had: Snapshot, now: Snapshot, id: Id, w: World, ok: bool) {
    && now.endpoints == (if Works(w, DropEndpoint) then had.endpoints - {id} else had.endpoints)
    && (forall j :: j in had.devices ==>
          || (j in now.devices && now.devices[j] == had.devices[j])
          || (id in had.endpoints && had.endpoints[id].ifindex == j)
          || Bears(had.devices[j], FormatInterfaceName(id, false)))
    && (ok <==> RemovesEndpoint(had, id, w))
    && (ok ==>
          var i := had.endpoints[id].ifindex;
          && now.pins == had.pins - {i}
          && now.devices == if Works(w, FindForDelete) then had.devices - {i} else had.devices)
  }

  lemma KnownGone(had: Snapshot, now: Snapshot, id: Id, w: World, ok: bool)
    requires id in had.endpoints && Works(w, DropEndpoint) && now.endpoints == had.endpoints - {id}
    requires var i := had.endpoints[id].ifindex;
             && now.devices == (if Deletes(w) then had.devices - {i} else had.devices)
             && now.pins == (if Works(w, LoadLink) && Works(w, UnpinLink) then had.pins - {i} else had.pins)
             && (ok <==> RemovesInterface(w, i in had.pins, true, i in had.devices))
    ensures WithoutEndpoint(had, now, id, w, ok)
  {
  }

  /** The veth is found and deleted, and all three maps opened and swept. */
  predicate RemovesAll(w: World) {
    Deletes(w) && MapsOpen(w) && SweepWorks(w)
  }

  lemma IfindexesShrink(b: Books, id: nat)
    requires SettledBooks(b) && id in b.endpoints
    ensures Ifindexes(b.endpoints - {id}) == Ifindexes(b.endpoints) - {b.endpoints[id].ifindex}
  {
    var rest, i := b.endpoints - {id}, b.endpoints[id].ifindex;
    forall j | j in Ifindexes(b.endpoints) && j != i
      ensures j in Ifindexes(rest)
    {
      var v :| v in b.endpoints && b.endpoints[v].ifindex == j;
      assert v in rest;
    }
  }

  /** Removing an endpoint that is there. */
  lemma KnownSettles(b: Books, uplink: nat, id: nat, w: World)
    requires SettledBooks(b) && id in b.endpoints && b.endpoints[id].ifindex != uplink
    ensures var gone := Entered(b, uplink, Delete(id));
            SettledBooks(RemovedBooks(gone, uplink, true, b.endpoints[id].ifindex, w)) <==> RemovesAll(w)
  {
    IfindexesShrink(b, id);
  }

  /** Removing one that is not, though a device may have its name. */
  lemma AbsentSettles(b: Books, uplink: nat, i: nat, id: nat, w: World)
    requires SettledBooks(b) && id !in b.endpoints && i != uplink && (i in b.veths ==> b.veths[i] == id)
    ensures i !in b.veths && SettledBooks(RemovedBooks(b, uplink, false, i, w))
  {
  }

  // ---- Calls, one after another ----

  /**
   An endpoint added and then removed: endpoints and devices are as before and nothing is left over. The
   namespaces are as before if and only if none of the endpoint's name was there: remove deletes one even where
   add made none.
   */
  method AddThenRemove(h: Kernel, vpceID: string, script: bool, isolated: bool, mtu: int, w: World, w': World)
    returns (added: bool, removed: bool)
    requires h.Valid() && h.Settled() && w.ifindex !in h.devices && w.ifindex != 0
    modifies h
    ensures h.Valid() && (added ==> ParseVPCEID(vpceID).Some?)
    ensures added && removed && Works(w', FindForDelete) && MapsOpen(w') ==>
              && h.Settled() && w.ifindex !in h.books.veths
              && h.endpoints == old(h.endpoints) && h.devices == old(h.devices) && h.pins == old(h.pins) - {w.ifindex}
              && (h.netns == old(h.netns) <==> FormatVPCEID(ParseVPCEID(vpceID).value) !in old(h.netns))
  {
    added := h.RunAdd(vpceID, script, isolated, mtu, w);
    removed := false;
    if added {
      ghost var plan := Admit(vpceID, script, mtu, w, old(h.endpoints)).value;
      ghost var between := h.Now();
      removed := h.RunRemove(vpceID, w');
      if removed && Works(w', FindForDelete) {
        AddUndone(old(h.Now()), between, h.Now(), plan, isolated, w, w');
      }
    }
  }

  lemma AddUndone(had: Snapshot, between: Snapshot, now: Snapshot, plan: Plan, isolated: bool, w: World, w': World)
    requires plan.id !in had.endpoints && w.ifindex !in had.devices && plan.name == FormatVPCEID(plan.id)
    requires Added(had, between, plan.id, plan.name, isolated, plan.mtu, w)
    requires OnlyPin(had.pins, between.pins, w.ifindex)
    requires RemoveEnds(between, now, Some(plan.id), w', true) && Works(w', FindForDelete)
    ensures now.endpoints == had.endpoints && now.devices == had.devices && now.pins == had.pins - {w.ifindex}
    ensures now.netns == had.netns <==> plan.name !in had.netns
  {
    assert had.endpoints[plan.id := NewInfo(w)] - {plan.id} == had.endpoints;
    DeviceBack(had.devices, between.devices, w.ifindex);
    assert now.netns == had.netns - {plan.name};
  }

  /** One invocation of the command line. */
  datatype Call =
    | Add(vpceID: string, script: bool, isolated: bool, mtu: int, w: World)
    | Remove(vpceID: string, w: World)

  /** If it fails, it cleans up; anything else may fail. */
  predicate Tidy(c: Call) {
    match c
    case Add(_, _, _, _, w) => CleansUp(w)
    case Remove(_, w) => Works(w, DropEndpoint) && RemovesAll(w)
  }

  method ServeOne(h: Kernel, c: Call)
    requires h.Valid() && h.Settled() && Tidy(c)
    modifies h
    ensures h.Valid() && h.Settled() && old(h.log) <= h.log
  {
    match c {
      case Add(vpceID, script, isolated, mtu, w) =>
        ghost var top := Above(h.devices.Keys);
        assert top !in h.devices;
        var i: nat :| i !in h.devices && i != 0;
        var _ := h.RunAdd(vpceID, script, isolated, mtu, w.(ifindex := i));
      case Remove(vpceID, w) =>
        var _ := h.RunRemove(vpceID, w);
    }
  }

  /**
   Adds, failed and rolled-back adds and removes, any number in any order, on ifindexes the kernel picks and
   reuses as it likes: the host stays settled, and whatever packets, evictions and interleavings went with them,
   every frame sent is isolated, no count is lost, and the maps hold nothing of an interface without a veth.
   */
  method Serve(h: Kernel, calls: seq<Call>)
    requires h.Valid() && h.Settled() && forall n :: 0 <= n < |calls| ==> Tidy(calls[n])
    modifies h
    ensures h.Valid() && h.Settled() && old(h.log) <= h.log
    ensures AlwaysGuaranteed(h.cfg, h.log) && forall policy :: IsOfARun(h.cfg, policy, h.log)
  {
    for n := 0 to |calls|
      invariant h.Valid() && h.Settled() && old(h.log) <= h.log
    {
      ServeOne(h, calls[n]);
    }
    SettledGuarantees(h.cfg, h.log);
    LogIsOfARun(h.cfg, h.log);
  }

  /** Every run of the machine with this log keeps the guarantees, and leaves nothing of an interface without a veth. */
  ghost predicate AlwaysGuaranteed(cfg: Config, log: seq<Event>) {
    forall policy, evs ::
      Exec(Init(cfg, policy), evs).Some? && Controls(evs) == log ==>
        var s := Exec(Init(cfg, policy), evs).value;
        Guaranteed(s) && forall i :: i !in s.veths && i != cfg.uplink ==> Clean(s, i)
  }

  /** Some run of the machine has this log. */
  ghost predicate IsOfARun(cfg: Config, policy: Policy, log: seq<Event>) {
    exists evs :: Controls(evs) == log && Exec(Init(cfg, policy), evs).Some?
  }

  lemma LogIsOfARun(cfg: Config, log: seq<Event>)
    requires AllPossible(BLANK, cfg, log)
    ensures forall policy :: IsOfARun(cfg, policy, log)
  {
    forall policy
      ensures IsOfARun(cfg, policy, log)
    {
      var evs := LogHappens(Init(cfg, policy), BLANK, log);
    }
  }

  lemma SettledGuarantees(cfg: Config, log: seq<Event>)
    requires SettledBooks(Posted(BLANK, cfg.uplink, log))
    ensures AlwaysGuaranteed(cfg, log)
  {
    forall policy, evs | Exec(Init(cfg, policy), evs).Some? && Controls(evs) == log
      ensures var s := Exec(Init(cfg, policy), evs).value;
              Guaranteed(s) && forall i :: i !in s.veths && i != cfg.uplink ==> Clean(s, i)
    {
      OrderGuarantees(cfg, policy, evs);
    }
  }

  /** There is always an ifindex to give: one above all that are taken. */
  lemma {:induction false} Above(taken: set<nat>) returns (top: nat)
    ensures top > 0 && forall i :: i in taken ==> i < top
  {
    top := 1;
    if taken != {} {
      var i :| i in taken;
      var rest := Above(taken - {i});
      assert forall j :: j in taken ==> j == i || j in taken - {i};
      top := if rest > i then rest else i + 1;
    }
  }
}
