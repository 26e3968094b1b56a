/** The steps of util/topgen/merge.py as they run: on a configuration object
    whose lists are updated in place. Each step is proved to leave the
    object as the matching function of top_spec.dfy describes. A step that
    stops with an error leaves the object in a state the contracts do not
    describe, as the source leaves it half-amended when it raises. */
module TopMerge {
  import opened Common
  import opened Text
  import opened TopTypes
  import opened TopSpec

  // ---------------------------------------------------------------------------
  // Loops over plain lists

  /** The loop of `amend_ip` over one signal list of the IP: each entry loses
      its description, gets the list's type and an integer width. */
  method ConvertSignals(sigs: seq<IpSignal>, kind: SignalKind, async: Option<int>)
    returns (r: Result<seq<Signal>, MergeError>)
    ensures r == ConvertedSignals(sigs, kind, async)
  {
    var out: seq<Signal> := [];
    var i := 0;
    while i < |sigs|
      invariant 0 <= i <= |sigs| && |out| == i
      invariant forall k :: 0 <= k < i ==> ToInt(sigs[k].width).Some? && out[k] == Converted(sigs[k], kind, async)
    {
      var w := ToInt(sigs[i].width);
      if w.None? {
        ConvertedSignalsFail(sigs, kind, async, i);
        return Err(BadWidth(sigs[i].width));
      }
      out := out + [Signal(sigs[i].name, w.value, KindText(kind), async, None)];
      i := i + 1;
    }
    ConvertedSignalsList(sigs, out, kind, async);
    return Ok(out);
  }

  /** A list the IP may lack: absent means empty. */
  method ConvertList(o: Option<seq<IpSignal>>, kind: SignalKind, async: Option<int>)
    returns (r: Result<seq<Signal>, MergeError>)
    ensures r == SignalsOrEmpty(o, kind, async)
  {
    if o.None? {
      return Ok([]);
    }
    r := ConvertSignals(o.value, kind, async);
  }

  /** The pads a `dio_modules` entry lists, each pad specification expanded
      by `get_pad_list`, in order. */
  method CollectPads(specs: seq<string>, lib: TopLib) returns (pads: seq<string>)
    ensures pads == PadsOf(specs, lib)
  {
    pads := [];
    var i := 0;
    while i < |specs|
      invariant 0 <= i <= |specs|
      invariant pads == PadsOf(specs[..i], lib)
    {
      assert specs[..i + 1][..i] == specs[..i];
      pads := pads + lib.padList(specs[i]);
      i := i + 1;
    }
    assert specs[..i] == specs;
  }

  /** The module names in order, for the default mio_modules: those with at
      least one IO. */
  method CollectMio(ms: seq<ModuleCfg>) returns (r: Result<seq<string>, MergeError>)
    ensures r == DefaultMio(ms)
  {
    var names: seq<string> := [];
    var i := 0;
    while i < |ms|
      invariant 0 <= i <= |ms|
      invariant DefaultMio(ms[..i]) == Ok(names)
    {
      assert ms[..i + 1][..i] == ms[..i];
      var n := IoCount(ms[i]);
      if n.Err? {
        DefaultMioStops(ms, i + 1);
        return Err(n.error);
      }
      if n.value != 0 {
        names := names + [ms[i].name];
      }
      i := i + 1;
    }
    assert ms[..i] == ms;
    return Ok(names);
  }

  /** Step 1 of `xbar_cross`: reading the range of every device port that
      leads to no crossbar. */
  method CheckLeafRanges(ns: seq<XbarNode>) returns (ok: bool)
    ensures ok <==> LeafRangesPresent(ns)
  {
    var i := 0;
    while i < |ns|
      invariant 0 <= i <= |ns|
      invariant forall k :: 0 <= k < i && LeafDevice(ns[k]) ==> ns[k].addrRange.Some?
    {
      if LeafDevice(ns[i]) && ns[i].addrRange.None? {
        assert ns[i] in ns;
        return false;
      }
      i := i + 1;
    }
    assert LeafRangesPresent(ns) by {
      forall n | n in ns && LeafDevice(n) ensures n.addrRange.Some? {
        var k :| 0 <= k < |ns| && ns[k] == n;
      }
    }
    return true;
  }

  /** The body of the loop of `amend_interrupt` (`amend_alert`) for one
      listed name: nothing when no module has the name, else the module's
      list prefixed with the lower-cased name. */
  method ModulePart(ms: seq<ModuleCfg>, name: string, t: SignalTable, lib: TopLib)
    returns (r: Result<seq<Signal>, MergeError>)
    ensures r == ModuleSignals(ms, name, t, lib)
  {
    var found := FindModule(ms, name);
    if found.None? {
      return Ok([]);
    }
    var list := TableList(found.value, t);
    if list.None? {
      return Err(MissingKey(TableKey(t)));
    }
    return Ok(Prefixed(list.value, Lower(name), lib));
  }

  /** The loop of `amend_interrupt` (`amend_alert`): what the listed names
      add to the table, in order, the first module without the list
      stopping it. */
  method CollectTable(ms: seq<ModuleCfg>, names: seq<string>, t: SignalTable, lib: TopLib)
    returns (r: Result<seq<Signal>, MergeError>)
    ensures r == TableSignals(ms, names, t, lib)
  {
    var entries: seq<Signal> := [];
    var i := 0;
    while i < |names|
      invariant 0 <= i <= |names|
      invariant TableSignals(ms, names[..i], t, lib) == Ok(entries)
    {
      TableSignalsNext(ms, names, i, t, lib);
      var part := ModulePart(ms, names[i], t, lib);
      if part.Err? {
        return Err(part.error);
      }
      entries := entries + part.value;
      i := i + 1;
    }
    assert names[..i] == names;
    return Ok(entries);
  }

  /** The loop of one dio_modules entry: each signal takes its `width` pads
      from the front of the remaining pads. */
  method PadSignals(sigs: seq<Signal>, pads: seq<string>) returns (r: seq<Signal>)
    ensures r == AssignPads(sigs, pads).0
  {
    r := [];
    var rest := pads;
    var k := 0;
    while k < |sigs|
      invariant 0 <= k <= |sigs|
      invariant AssignPads(sigs, pads).0 == r + AssignPads(sigs[k..], rest).0
    {
      var s := sigs[k].(pad := Some(Take(rest, sigs[k].width)));
      AssignPadsStep(r, sigs, k, rest);
      rest := Drop(rest, sigs[k].width);
      r := r + [s];
      k := k + 1;
    }
  }

  /** The `visited` list of `xbar_cross_node`, shared by nested calls. The
      source pushes and pops it but never reads it. */
  class Trail {
    var names: seq<string>

    constructor ()
      ensures names == []
    {
      names := [];
    }
  }

  // ---------------------------------------------------------------------------
  // The configuration being merged

  class TopConfig {
    var name: string
    var modules: seq<ModuleCfg>
    var memory: seq<MemoryCfg>
    var xbars: seq<Xbar>
    var interruptModule: Option<seq<string>>
    var interrupt: Option<seq<Signal>>
    var alertModule: Option<seq<string>>
    var alert: Option<seq<Signal>>
    var pinmux: Pinmux
    var debugMemBaseAddr: Option<Scalar>

    /** The configuration as a value. */
    function Value(): TopValue
      reads this
    {
      TopValue(name, modules, memory, xbars, interruptModule, interrupt, alertModule, alert, pinmux, debugMemBaseAddr)
    }

    /** A configuration holding its own copy of the top. */
    constructor (v: TopValue)
      ensures Value() == v
    {
      name := v.name;
      modules := v.modules;
      memory := v.memory;
      xbars := v.xbars;
      interruptModule := v.interruptModule;
      interrupt := v.interrupt;
      alertModule := v.alertModule;
      alert := v.alert;
      pinmux := v.pinmux;
      debugMemBaseAddr := v.debugMemBaseAddr;
    }

    // -------------------------------------------------------------------------
    // amend_ip

    /** `amend_ip`: merges an IP description into the module of the same
        name, compared case-insensitively. An IP no module uses is skipped;
        otherwise alert_handler must exist, and the module becomes
        `AmendedModule` of itself. */
    method AmendIp(ip: Ip) returns (r: Outcome<MergeError>)
      modifies this
      ensures Lower(ip.name) !in LowerModuleNames(old(modules)) ==> r == Pass && Value() == old(Value())
      ensures Lower(ip.name) in LowerModuleNames(old(modules)) && "alert_handler" !in LowerModuleNames(old(modules)) ==>
        r == Fail(NoAlertHandler) && Value() == old(Value())
      ensures Lower(ip.name) in LowerModuleNames(old(modules)) && "alert_handler" in LowerModuleNames(old(modules)) ==>
        var names := LowerModuleNames(old(modules));
        var i := IndexOf(names, Lower(ip.name));
        var a := AmendedModule(old(modules)[i], ip, old(modules)[IndexOf(names, "alert_handler")]);
        && (a.Err? ==> r == Fail(a.error))
        && (a.Ok? ==> r == Pass && Value() == old(Value()).(modules := old(modules)[i := a.value]))
    {
      var names := LowerModuleNames(modules);
      var ipName := Lower(ip.name);
      if ipName !in names {
        return Pass;
      }
      var idx := IndexOf(names, ipName);
      if "alert_handler" !in names {
        return Fail(NoAlertHandler);
      }
      var handler := modules[IndexOf(names, "alert_handler")];
      var m := modules[idx];
      var size := m.size;
      if size.None? {
        size := Some(DefaultSize(ip.gensize));
      } else if size.value.Str? {
        return Fail(SizeNotComparable(m.name));
      }
      var inputs := ConvertList(ip.inputs, InputSignal, None);
      if inputs.Err? {
        return Fail(inputs.error);
      }
      var outputs := ConvertList(ip.outputs, OutputSignal, None);
      if outputs.Err? {
        return Fail(outputs.error);
      }
      var inouts := ConvertList(ip.inouts, InoutSignal, None);
      if inouts.Err? {
        return Fail(inouts.error);
      }
      var interrupts := ConvertList(ip.interrupts, InterruptSignal, None);
      if interrupts.Err? {
        return Fail(interrupts.error);
      }
      var async := if m.clkI == handler.clkI then 0 else 1;
      var alerts := ConvertList(ip.alerts, AlertSignal, Some(async));
      if alerts.Err? {
        return Fail(alerts.error);
      }
      var scan := if ip.scan.Some? then ip.scan.value else "false";
      m := m.(size := size, busDevice := Some(ip.busDevice), busHost := Some(BusHost(ip)),
              inputs := Some(inputs.value), outputs := Some(outputs.value), inouts := Some(inouts.value),
              interrupts := Some(interrupts.value), alerts := Some(alerts.value), scan := Some(scan));
      modules := modules[idx := m];
      return Pass;
    }

    // -------------------------------------------------------------------------
    // amend_xbar

    /** The loop of `merge_top` over the IP descriptions: `amend_ip` for
        each in turn. Only the modules change, and they keep their names. */
    method AmendIps(ips: seq<Ip>) returns (r: Outcome<MergeError>)
      modifies this
      ensures r.Pass? ==> Value() == old(Value()).(modules := modules)
      ensures r.Pass? ==> ModuleNames(modules) == ModuleNames(old(modules))
    {
      var i := 0;
      while i < |ips|
        invariant 0 <= i <= |ips|
        invariant Value() == old(Value()).(modules := modules)
        invariant ModuleNames(modules) == ModuleNames(old(modules))
      {
        ghost var ms := modules;
        r := AmendIp(ips[i]);
        if r.Fail? {
          return;
        }
        ghost var names := LowerModuleNames(ms);
        if Lower(ips[i].name) in names && "alert_handler" in names {
          ghost var k := IndexOf(names, Lower(ips[i].name));
          AmendedModuleKeeps(ms[k], ips[i], ms[IndexOf(names, "alert_handler")]);
          ModuleNamesUpdate(ms, k, modules[k]);
        }
        i := i + 1;
      }
      return Pass;
    }

    /** `xbar_addhost` on crossbar `xi`, whose clock, reset and node list are
        set. */
    method AddHost(xi: nat, host: string) returns (r: Outcome<MergeError>)
      requires xi < |xbars| && xbars[xi].nodes.Some? && xbars[xi].clock.Some? && xbars[xi].reset.Some?
      modifies this
      ensures var x := old(xbars[xi]);
        var a := AddedHost(old(xbars), x.nodes.value, x.clock.value, x.reset.value, host);
        && (a.Err? ==> r == Fail(a.error) && Value() == old(Value()))
        && (a.Ok? ==> r == Pass && Value() == old(Value()).(xbars := old(xbars)[xi := x.(nodes := Some(a.value))]))
    {
      var x := xbars[xi];
      var ns := x.nodes.value;
      var k := NodeIndex(ns, host);
      if k < 0 {
        return Fail(UndefinedName("topxbar"));
      }
      var found := IsXbar(xbars, host);
      if found.Err? {
        return Fail(found.error);
      }
      var n := ns[k].(xbar := Some(found.value.Some?));
      if n.clock.None? {
        n := n.(clock := x.clock);
      }
      if n.reset.None? {
        n := n.(reset := x.reset);
      }
      var predefined := Predefined(host);
      n := n.(instType := Some(if predefined.Some? then predefined.value else ""));
      if n.pipeline.None? {
        n := n.(pipeline := Some("true"));
      }
      if n.pipeline.value == "true" {
        if n.pipelineByp.None? {
          n := n.(pipelineByp := Some("true"));
        }
      } else {
        n := n.(pipelineByp := Some("true"));
      }
      xbars := xbars[xi := x.(nodes := Some(ns[k := n]))];
      return Pass;
    }

    /** `xbar_adddevice` on crossbar `xi`, whose clock, reset and node list
        are set. */
    method AddDevice(xi: nat, device: string) returns (r: Outcome<MergeError>)
      requires xi < |xbars| && xbars[xi].nodes.Some? && xbars[xi].clock.Some? && xbars[xi].reset.Some?
      modifies this
      ensures var x := old(xbars[xi]);
        var a := AddedDevice(old(Value()), x.name, x.clock.value, x.reset.value, x.nodes.value, device);
        && (a.Err? ==> r == Fail(a.error) && Value() == old(Value()))
        && (a.Ok? ==> r == Pass && Value() == old(Value()).(xbars := old(xbars)[xi := x.(nodes := Some(a.value))]))
    {
      var x := xbars[xi];
      var ns := x.nodes.value;
      var found := FindDevice(Devices(modules, memory), device);
      var k := NodeIndex(ns, device);
      var toXbar := device in OtherXbars(XbarNames(xbars), x.name);
      var result := ns;
      if toXbar && k < 0 {
        // only logged: a crossbar port that has no node
      } else if found.None? {
        if toXbar {
          if CountOf(NodeNames(ns), device) != 1 {
            return Fail(NodeNotUnique(device));
          }
          result := ns[k := PipelineDefaults(ns[k].(xbar := Some(true)))];
        } else if device == "debug_mem" {
          if debugMemBaseAddr.None? {
            return Fail(MissingKey("debug_mem_base_addr"));
          }
          var range := DebugMemRange(debugMemBaseAddr.value);
          if k < 0 {
            result := ns + [XbarNode("debug_mem", "device", x.clock, x.reset, Some("rv_dm"),
                                     Some(false), Some("true"), Some("true"), Some(range))];
          } else {
            result := ns[k := PipelineDefaults(ns[k].(instType := Some("rv_dm"), addrRange := Some(range), xbar := Some(false)))];
          }
        }
        // otherwise only logged: a device that is neither module nor memory
      } else {
        var d := found.value;
        if d.size.None? {
          return Fail(MissingKey("size"));
        }
        var range := [AddrRange(d.baseAddr, d.size.value)];
        if k < 0 {
          result := ns + [XbarNode(device, "device", Some(d.clock), Some(d.reset), Some(d.dtype),
                                   Some(toXbar), Some("true"), Some("true"), Some(range))];
        } else {
          result := ns[k := PipelineDefaults(ns[k].(instType := Some(d.dtype), addrRange := Some(range), xbar := Some(toXbar)))];
        }
      }
      xbars := xbars[xi := x.(nodes := Some(result))];
      return Pass;
    }

    /** `xbar_addhost` for each host in turn. */
    method AddHosts(xi: nat, hosts: seq<string>) returns (r: Outcome<MergeError>)
      requires xi < |xbars| && xbars[xi].nodes.Some? && xbars[xi].clock.Some? && xbars[xi].reset.Some?
      modifies this
      ensures var x := old(xbars[xi]);
        var a := HostsAdded(old(xbars), x.nodes.value, x.clock.value, x.reset.value, hosts);
        && (a.Err? ==> r == Fail(a.error))
        && (a.Ok? ==> r == Pass && Value() == old(Value()).(xbars := old(xbars)[xi := x.(nodes := Some(a.value))]))
    {
      ghost var v0 := Value();
      ghost var x := xbars[xi];
      var i := 0;
      while i < |hosts|
        invariant 0 <= i <= |hosts|
        invariant HostsAdded(v0.xbars, x.nodes.value, x.clock.value, x.reset.value, hosts[..i]).Ok?
        invariant Value() == v0.(xbars := v0.xbars[xi := x.(nodes :=
                    Some(HostsAdded(v0.xbars, x.nodes.value, x.clock.value, x.reset.value, hosts[..i]).value))])
      {
        assert hosts[..i + 1][..i] == hosts[..i];
        AddedHostByNames(xbars, v0.xbars, xbars[xi].nodes.value, x.clock.value, x.reset.value, hosts[i]);
        var step := AddHost(xi, hosts[i]);
        if step.Fail? {
          HostsAddedStops(v0.xbars, x.nodes.value, x.clock.value, x.reset.value, hosts, i + 1);
          return step;
        }
        i := i + 1;
      }
      assert hosts[..i] == hosts;
      return Pass;
    }

    /** `xbar_adddevice` for each device in turn. */
    method AddDevices(xi: nat, devices: seq<string>) returns (r: Outcome<MergeError>)
      requires xi < |xbars| && xbars[xi].nodes.Some? && xbars[xi].clock.Some? && xbars[xi].reset.Some?
      modifies this
      ensures var x := old(xbars[xi]);
        var a := DevicesAdded(old(Value()), x.name, x.clock.value, x.reset.value, x.nodes.value, devices);
        && (a.Err? ==> r == Fail(a.error))
        && (a.Ok? ==> r == Pass && Value() == old(Value()).(xbars := old(xbars)[xi := x.(nodes := Some(a.value))]))
    {
      ghost var v0 := Value();
      ghost var x := xbars[xi];
      var i := 0;
      while i < |devices|
        invariant 0 <= i <= |devices|
        invariant DevicesAdded(v0, x.name, x.clock.value, x.reset.value, x.nodes.value, devices[..i]).Ok?
        invariant Value() == v0.(xbars := v0.xbars[xi := x.(nodes :=
                    Some(DevicesAdded(v0, x.name, x.clock.value, x.reset.value, x.nodes.value, devices[..i]).value))])
      {
        assert devices[..i + 1][..i] == devices[..i];
        AddedDeviceByNames(Value(), v0, x.name, x.clock.value, x.reset.value, xbars[xi].nodes.value, devices[i]);
        var step := AddDevice(xi, devices[i]);
        if step.Fail? {
          DevicesAddedStops(v0, x.name, x.clock.value, x.reset.value, x.nodes.value, devices, i + 1);
          return step;
        }
        i := i + 1;
      }
      assert devices[..i] == devices;
      return Pass;
    }

    /** `amend_xbar`: copies a crossbar description into the top's crossbar of
        the same name, then adds each host and each connected device, the
        latter in `order`, an enumeration of the set the source builds. A
        description no top crossbar names is skipped. */
    method AmendXbar(desc: XbarDesc, order: seq<string>) returns (r: Outcome<MergeError>)
      requires IsEnumeration(order, ConnectedDevices(desc.connections))
      modifies this
      ensures desc.name !in XbarNames(old(xbars)) ==> r == Pass && Value() == old(Value())
      ensures desc.name in XbarNames(old(xbars)) ==>
        var xi := IndexOf(XbarNames(old(xbars)), desc.name);
        var built := XbarNodesBuilt(old(Value()), desc, order);
        && (built.Err? ==> r == Fail(built.error))
        && (built.Ok? ==>
              (r == Pass && Value() == old(Value()).(xbars := old(xbars)[xi := AmendedXbar(old(xbars)[xi], desc, built.value)])))
    {
      var names := XbarNames(xbars);
      if desc.name !in names {
        return Pass;
      }
      ghost var v0 := Value();
      var xi := IndexOf(names, desc.name);
      xbars := xbars[xi := AmendedXbar(xbars[xi], desc, OrEmpty(desc.nodes))];
      AddedHostsByNames(xbars, v0.xbars, OrEmpty(desc.nodes), desc.clockPrimary, desc.resetPrimary, Hosts(desc.connections));
      r := AddHosts(xi, Hosts(desc.connections));
      if r.Fail? {
        return;
      }
      ghost var v1 := Value();
      assert XbarNames(v1.xbars) == XbarNames(v0.xbars);
      DevicesAddedByNames(v1, v0, desc.name, desc.clockPrimary, desc.resetPrimary, xbars[xi].nodes.value, order);
      r := AddDevices(xi, order);
    }
  
    /** The loop of `merge_top` over the crossbar descriptions: `amend_xbar`
        for each in turn, with the order in which its devices are added.
        Only the crossbars change, and they keep their names. */
    method AmendXbars(descs: seq<XbarDesc>, orders: seq<seq<string>>) returns (r: Outcome<MergeError>)
      requires |orders| == |descs|
      requires forall i :: 0 <= i < |descs| ==> IsEnumeration(orders[i], ConnectedDevices(descs[i].connections))
      modifies this
      ensures r.Pass? ==> Value() == old(Value()).(xbars := xbars)
      ensures r.Pass? ==> XbarNames(xbars) == XbarNames(old(xbars))
    {
      var i := 0;
      while i < |descs|
        invariant 0 <= i <= |descs|
        invariant Value() == old(Value()).(xbars := xbars)
        invariant XbarNames(xbars) == XbarNames(old(xbars))
      {
        ghost var xs := xbars;
        r := AmendXbar(descs[i], orders[i]);
        if r.Fail? {
          return;
        }
        assert XbarNames(xbars) == XbarNames(xs);
        i := i + 1;
      }
      return Pass;
    }

    // -------------------------------------------------------------------------
    // xbar_cross and xbar_cross_node

    /** `xbar_cross_node(node_name, device_xbar, xbars, visited)`: the address
        ranges that crossbar `nodeName` serves for its host `deviceXbar`, in
        node order. A crossbar port on the way without a range gets one first,
        by a nested call; `depth` is how many nested calls the interpreter
        still allows. Under an acyclic ranking, crossbars ranked above
        `nodeName` are left alone. */
    method CrossNode(nodeName: string, deviceXbar: string, visited: Trail, depth: nat, ghost rank: map<string, nat>)
      returns (r: Result<seq<AddrRange>, MergeError>)
      modifies this, visited
      decreases depth, 3
      ensures SameShape(old(xbars), xbars) && SameButXbars(old(Value()), Value())
      ensures r.Ok? ==> visited.names == old(visited.names)
      ensures depth == 0 ==> r == Err(RecursionLimit)
      ensures depth > 0 && CountOf(XbarNames(old(xbars)), nodeName) != 1 ==> r == Err(HostXbarNotUnique(nodeName))
      ensures depth > 0 && CountOf(XbarNames(old(xbars)), nodeName) == 1 && !Serves(old(xbars), nodeName, deviceXbar) ==>
        r.Err? && r.error.MissingKey?
      ensures r.Ok? ==> Serves(xbars, nodeName, deviceXbar)
      ensures r.Ok? && Ranked(old(xbars), rank) ==>
        var h := xbars[IndexOf(XbarNames(xbars), nodeName)];
        var devices := Lookup(h.connections.value, deviceXbar).value;
        RangesPresent(h.nodes.value, devices) && r.value == CollectedRanges(h.nodes.value, devices)
      ensures r.Ok? && Ranked(old(xbars), rank) ==>
        var h := IndexOf(XbarNames(xbars), nodeName);
        var devices := Lookup(xbars[h].connections.value, deviceXbar).value;
        old(xbars)[h].nodes.Some? && GatheredNodes(xbars, nodeName, devices, old(xbars)[h].nodes.value, xbars[h].nodes.value)
      ensures Ranked(old(xbars), rank) && nodeName in rank ==> Untouched(old(xbars), xbars, rank, rank[nodeName])
      ensures Ranked(old(xbars), rank) ==> Filled(old(xbars), xbars)
    {
      if depth == 0 {
        return Err(RecursionLimit);
      }
      var names := XbarNames(xbars);
      if CountOf(names, nodeName) != 1 {
        return Err(HostXbarNotUnique(nodeName));
      }
      var h := IndexOf(names, nodeName);
      var host := xbars[h];
      visited.names := visited.names + [host.name];
      if host.connections.None? {
        return Err(MissingKey("connections"));
      }
      var devices := Lookup(host.connections.value, deviceXbar);
      if devices.None? {
        return Err(MissingKey(deviceXbar));
      }
      if host.nodes.None? {
        return Err(MissingKey("nodes"));
      }
      LookupConnected(host.connections.value, deviceXbar);
      r := GatherAll(h, devices.value, visited, depth, rank);
      if r.Err? {
        return;
      }
      SameShapeNames(old(xbars), xbars);
      visited.names := visited.names[..|visited.names| - 1];
    }

    /** The loop of `xbar_cross_node` over the nodes of crossbar `h`. */
    method GatherAll(h: nat, devs: seq<string>, visited: Trail, depth: nat, ghost rank: map<string, nat>)
      returns (r: Result<seq<AddrRange>, MergeError>)
      requires depth > 0 && h < |xbars| && xbars[h].nodes.Some?
      requires xbars[h].connections.Some? && forall d :: d in devs ==> d in ConnectedDevices(xbars[h].connections.value)
      modifies this, visited
      decreases depth, 2
      ensures SameShape(old(xbars), xbars) && SameButXbars(old(Value()), Value())
      ensures r.Ok? ==> visited.names == old(visited.names)
      ensures xbars[h].connections == old(xbars[h]).connections && xbars[h].nodes.Some?
      ensures Ranked(old(xbars), rank) ==>
        && Untouched(old(xbars), xbars, rank, rank[old(xbars[h]).name])
        && Filled(old(xbars), xbars)
        && (r.Ok? ==> RangesPresent(xbars[h].nodes.value, devs) && r.value == CollectedRanges(xbars[h].nodes.value, devs))
        && (r.Ok? ==> GatheredNodes(xbars, old(xbars[h]).name, devs, old(xbars[h]).nodes.value, xbars[h].nodes.value))
    {
      ghost var ranked := Ranked(xbars, rank);
      ghost var x0 := xbars[h];
      if ranked {
        GatherStart(xbars, h, devs, rank);
      }
      var count := |xbars[h].nodes.value|;
      var result: seq<AddrRange> := [];
      var j := 0;
      while j < count
        invariant 0 <= j <= count
        invariant SameShape(old(xbars), xbars) && SameButXbars(old(Value()), Value())
        invariant visited.names == old(visited.names)
        invariant h < |xbars| && xbars[h].nodes.Some? && |xbars[h].nodes.value| == count
        invariant xbars[h].connections == x0.connections && xbars[h].name == x0.name
        invariant ranked ==> GatherSoFar(old(xbars), xbars, h, x0, devs, rank, j, result)
      {
        ghost var before := xbars;
        var part := GatherStep(h, j, devs, visited, depth, rank);
        if part.Err? {
          if ranked {
            GatherLoopFail(old(xbars), before, xbars, h, x0, devs, rank, j, result);
          }
          return part;
        }
        ShapeNodes(before[h], xbars[h], j);
        if ranked {
          GatherLoopStep(old(xbars), before, xbars, h, x0, devs, rank, j, result, part.value);
        }
        result := result + part.value;
        j := j + 1;
      }
      if ranked {
        GatherDone(old(xbars), xbars, h, x0, devs, rank, result);
      }
      return Ok(result);
    }

    /** One pass of the loop of `xbar_cross_node`: what node `j` of crossbar
        `h` adds to the result when `devs` names it, after a nested call has
        given a crossbar port without a range its range. */
    method GatherStep(h: nat, j: nat, devs: seq<string>, visited: Trail, depth: nat, ghost rank: map<string, nat>)
      returns (r: Result<seq<AddrRange>, MergeError>)
      requires depth > 0 && h < |xbars| && xbars[h].nodes.Some? && j < |xbars[h].nodes.value|
      requires xbars[h].connections.Some? && forall d :: d in devs ==> d in ConnectedDevices(xbars[h].connections.value)
      modifies this, visited
      decreases depth, 1
      ensures SameShape(old(xbars), xbars) && SameButXbars(old(Value()), Value())
      ensures r.Ok? ==> visited.names == old(visited.names)
      ensures Ranked(old(xbars), rank) ==>
        && Untouched(old(xbars), xbars, rank, rank[old(xbars[h]).name])
        && xbars[h].nodes.Some? && |xbars[h].nodes.value| == |old(xbars[h]).nodes.value|
        && xbars[h].nodes.value[..j] == old(xbars[h]).nodes.value[..j]
        && (forall k :: 0 <= k < |xbars[h].nodes.value| && k != j ==> xbars[h].nodes.value[k] == old(xbars[h]).nodes.value[k])
        && Filled(old(xbars), xbars)
        && (r.Ok? ==> GatheredNode(xbars, xbars[h].name, devs, old(xbars[h]).nodes.value[j], xbars[h].nodes.value[j]))
      ensures r.Ok? ==> (xbars[h].nodes.Some? && j < |xbars[h].nodes.value| &&
        var n := xbars[h].nodes.value[j];
        (n.name in devs ==> n.addrRange.Some? && r.value == n.addrRange.value) && (n.name !in devs ==> r.value == []))
      ensures !Lacking(old(xbars[h]).nodes.value[j], devs) ==> Value() == old(Value()) && visited.names == old(visited.names)
    {
      ghost var ranked := Ranked(xbars, rank);
      if ranked {
        assert RankedXbar(xbars[h], rank);
      }
      var node := xbars[h].nodes.value[j];
      if node.name !in devs {
        return Ok([]);
      }
      if node.xbar == Some(true) && node.addrRange.None? {
        var sub := Descend(h, j, devs, visited, depth, rank);
        if sub.Err? {
          return sub;
        }
      }
      ShapeNodes(old(xbars[h]), xbars[h], j);
      var cur := xbars[h].nodes.value[j];
      if cur.addrRange.None? {
        return Err(MissingKey("addr_range"));
      }
      return Ok(cur.addrRange.value);
    }
  
    /** The nested call of `xbar_cross_node` for crossbar port `j` of
        crossbar `h`, which has no range yet: it gets the ranges the
        crossbar behind it serves for `h`. */
    method Descend(h: nat, j: nat, devs: seq<string>, visited: Trail, depth: nat, ghost rank: map<string, nat>)
      returns (r: Result<seq<AddrRange>, MergeError>)
      requires depth > 0 && h < |xbars| && xbars[h].nodes.Some? && j < |xbars[h].nodes.value|
      requires Lacking(xbars[h].nodes.value[j], devs)
      requires xbars[h].connections.Some? && forall d :: d in devs ==> d in ConnectedDevices(xbars[h].connections.value)
      modifies this, visited
      decreases depth, 0
      ensures SameShape(old(xbars), xbars) && SameButXbars(old(Value()), Value())
      ensures r.Ok? ==> visited.names == old(visited.names)
      ensures xbars[h].nodes.Some? && |xbars[h].nodes.value| == |old(xbars[h]).nodes.value|
      ensures xbars[h].nodes.value[j].name == old(xbars[h]).nodes.value[j].name
      ensures r.Ok? ==> xbars[h].nodes.value[j].addrRange == Some(r.value)
      ensures Ranked(old(xbars), rank) ==>
        && Untouched(old(xbars), xbars, rank, rank[old(xbars[h]).name])
        && Filled(old(xbars), xbars)
        && xbars[h].nodes.value[..j] == old(xbars[h]).nodes.value[..j]
        && (forall k :: 0 <= k < |xbars[h].nodes.value| && k != j ==> xbars[h].nodes.value[k] == old(xbars[h]).nodes.value[k])
        && (r.Ok? ==>
              && xbars[h].nodes.value[j] == old(xbars[h]).nodes.value[j].(addrRange := Some(r.value))
              && CarriesServed(xbars, xbars[h].name, xbars[h].nodes.value[j]))
    {
      ghost var ranked := Ranked(xbars, rank);
      var node := xbars[h].nodes.value[j];
      ghost var before := xbars;
      if ranked {
        RankedBelow(xbars, h, j, devs, rank);
      }
      var sub := CrossNode(node.name, xbars[h].name, visited, depth - 1, rank);
      ShapeNodes(before[h], xbars[h], j);
      if sub.Err? {
        return sub;
      }
      if ranked {
        UntouchedAbove(before, xbars, rank, rank[node.name], h);
        assert CarriesServed(xbars, before[h].name, node.(addrRange := Some(sub.value)));
        DescendFacts(before, xbars, h, j, sub.value, rank);
      }
      WithRangeFacts(xbars, h, j, sub.value, rank);
      SetRange(h, j, sub.value);
      return sub;
    }

    /** `xbar_cross(xbar, xbars)` for crossbar `xi`: every device port leading
        to no crossbar must carry its range already (step 1); then each
        crossbar device port, in node order, gets the ranges the crossbar
        behind it serves (step 2). */
    method Cross(xi: nat, depth: nat, ghost rank: map<string, nat>) returns (r: Outcome<MergeError>)
      requires xi < |xbars|
      modifies this
      ensures SameShape(old(xbars), xbars) && SameButXbars(old(Value()), Value())
      ensures old(xbars[xi]).nodes.None? ==> r == Fail(MissingKey("nodes"))
      ensures old(xbars[xi]).nodes.Some? && !LeafRangesPresent(old(xbars[xi]).nodes.value) ==>
        r == Fail(MissingKey("addr_range"))
      ensures r.Pass? ==> xbars[xi].nodes.Some? && LeafRangesPresent(xbars[xi].nodes.value)
      ensures r.Pass? && Ranked(old(xbars), rank) ==>
        && PortRangesPresent(xbars[xi].nodes.value)
        && |xbars[xi].nodes.value| == |old(xbars[xi]).nodes.value|
        && (forall k :: 0 <= k < |xbars[xi].nodes.value| ==>
              CrossedNode(xbars, xbars[xi].name, old(xbars[xi]).nodes.value[k], xbars[xi].nodes.value[k]))
        && (forall i :: 0 <= i < |xbars| && i != xi ==> XbarFilled(old(xbars)[i], xbars[i]))
    {
      var x := xbars[xi];
      if x.nodes.None? {
        return Fail(MissingKey("nodes"));
      }
      var ok := CheckLeafRanges(x.nodes.value);
      if !ok {
        return Fail(MissingKey("addr_range"));
      }
      r := FillPorts(xi, depth, rank);
      if r.Pass? {
        LeafRangesShape(x, xbars[xi]);
      }
    }

    /** The second loop of `merge_top`: `xbar_cross` for every crossbar in
        list order. Every crossbar ends with its nodes and every device port
        leading to no crossbar with its range; only address ranges of
        crossbar ports change. */
    method CrossAll(depth: nat, ghost rank: map<string, nat>) returns (r: Outcome<MergeError>)
      modifies this
      ensures SameShape(old(xbars), xbars) && SameButXbars(old(Value()), Value())
      ensures r.Pass? ==> AllLeafRangesPresent(xbars)
      ensures r.Pass? && Ranked(old(xbars), rank) ==> AllPortRangesPresent(xbars)
    {
      ghost var ranked := Ranked(xbars, rank);
      var i := 0;
      while i < |xbars|
        invariant 0 <= i <= |xbars|
        invariant SameShape(old(xbars), xbars) && SameButXbars(old(Value()), Value())
        invariant forall k :: 0 <= k < i ==> xbars[k].nodes.Some? && LeafRangesPresent(xbars[k].nodes.value)
        invariant ranked ==> Ranked(xbars, rank)
        invariant ranked ==> forall k :: 0 <= k < i ==> xbars[k].nodes.Some? && PortRangesPresent(xbars[k].nodes.value)
      {
        ghost var before := xbars;
        r := Cross(i, depth, rank);
        if r.Fail? {
          return;
        }
        forall k | 0 <= k < i
          ensures xbars[k].nodes.Some? && LeafRangesPresent(xbars[k].nodes.value)
          ensures ranked ==> PortRangesPresent(xbars[k].nodes.value)
        {
          LeafRangesShape(before[k], xbars[k]);
          if ranked {
            PortRangesFilled(before[k], xbars[k]);
          }
        }
        if ranked {
          RankedShape(before, xbars, rank);
        }
        i := i + 1;
      }
      return Pass;
    }

    /** Step 2 of `xbar_cross`: the crossbar device ports of crossbar `xi`,
        in node order, each get the ranges a fresh `xbar_cross_node` call
        gathers. */
    method FillPorts(xi: nat, depth: nat, ghost rank: map<string, nat>) returns (r: Outcome<MergeError>)
      requires xi < |xbars| && xbars[xi].nodes.Some?
      modifies this
      ensures SameShape(old(xbars), xbars) && SameButXbars(old(Value()), Value())
      ensures r.Pass? && Ranked(old(xbars), rank) ==>
        && xbars[xi].nodes.Some? && |xbars[xi].nodes.value| == |old(xbars[xi]).nodes.value|
        && (forall k :: 0 <= k < |xbars[xi].nodes.value| ==>
              CrossedNode(xbars, xbars[xi].name, old(xbars[xi]).nodes.value[k], xbars[xi].nodes.value[k]))
        && (forall i :: 0 <= i < |xbars| && i != xi ==> XbarFilled(old(xbars)[i], xbars[i]))
    {
      var x := xbars[xi];
      var ns := x.nodes.value;
      ghost var ranked := Ranked(xbars, rank);
      var j := 0;
      while j < |ns|
        invariant 0 <= j <= |ns|
        invariant SameShape(old(xbars), xbars) && SameButXbars(old(Value()), Value())
        invariant xbars[xi].nodes.Some? && |xbars[xi].nodes.value| == |ns| && xbars[xi].name == x.name
        invariant ranked ==> Ranked(xbars, rank)
        invariant ranked ==> forall k :: 0 <= k < |ns| ==>
          && (k < j ==> CrossedNode(xbars, x.name, ns[k], xbars[xi].nodes.value[k]))
          && (j <= k ==> xbars[xi].nodes.value[k] == ns[k])
        invariant ranked ==> forall i :: 0 <= i < |xbars| && i != xi ==> XbarFilled(old(xbars)[i], xbars[i])
      {
        if XbarPort(ns[j]) {
          ShapeNodes(x, xbars[xi], j);
          ghost var before := xbars;
          r := FillPort(xi, j, depth, rank);
          if r.Fail? {
            return;
          }
          if ranked {
            forall k | 0 <= k < j
              ensures CrossedNode(xbars, x.name, ns[k], xbars[xi].nodes.value[k])
            {
              CrossedKept(before, xbars, xi, k, ns[k], rank);
            }
            forall i | 0 <= i < |xbars| && i != xi
              ensures XbarFilled(old(xbars)[i], xbars[i])
            {
              XbarFilledTrans(old(xbars)[i], before[i], xbars[i]);
            }
          }
        }
        j := j + 1;
      }
      return Pass;
    }

    /** Gives port `j` of crossbar `xi` the ranges behind it. */
    method SetRange(xi: nat, j: nat, range: seq<AddrRange>)
      requires xi < |xbars| && xbars[xi].nodes.Some? && j < |xbars[xi].nodes.value|
      modifies this
      ensures Value() == old(Value()).(xbars := WithRange(old(xbars), xi, j, range))
    {
      xbars := WithRange(xbars, xi, j, range);
    }

    /** One crossbar device port of crossbar `xi`: a fresh `xbar_cross_node`
        call gathers the ranges behind it, which become its `addr_range`. */
    method FillPort(xi: nat, j: nat, depth: nat, ghost rank: map<string, nat>) returns (r: Outcome<MergeError>)
      requires xi < |xbars| && xbars[xi].nodes.Some? && j < |xbars[xi].nodes.value|
      requires XbarPort(xbars[xi].nodes.value[j])
      modifies this
      ensures SameShape(old(xbars), xbars) && SameButXbars(old(Value()), Value())
      ensures xbars[xi].nodes.Some? && |xbars[xi].nodes.value| == |old(xbars[xi].nodes.value)|
      ensures r.Pass? && Ranked(old(xbars), rank) ==>
        && Ranked(xbars, rank)
        && CrossedNode(xbars, xbars[xi].name, old(xbars[xi].nodes.value[j]), xbars[xi].nodes.value[j])
        && (forall k :: 0 <= k < |xbars[xi].nodes.value| && k != j ==>
              xbars[xi].nodes.value[k] == old(xbars[xi].nodes.value[k]))
        && (forall i :: 0 <= i < |xbars| && i != xi ==> XbarFilled(old(xbars)[i], xbars[i]))
    {
      var x := xbars[xi];
      var port := x.nodes.value[j].name;
      ghost var before := xbars;
      ghost var ranked := Ranked(xbars, rank);
      if ranked {
        PortRankedBelow(xbars, xi, j, rank);
      }
      var trail := new Trail();
      var sub := CrossNode(port, x.name, trail, depth, rank);
      ShapeNodes(before[xi], xbars[xi], j);
      if sub.Err? {
        return Fail(sub.error);
      }
      if ranked {
        UntouchedAbove(before, xbars, rank, rank[port], xi);
        assert CarriesServed(xbars, x.name, x.nodes.value[j].(addrRange := Some(sub.value)));
        FillPortFacts(before, xbars, xi, j, sub.value, rank);
      }
      WithRangeFacts(xbars, xi, j, sub.value, rank);
      SetRange(xi, j, sub.value);
      return Pass;
    }

    // -------------------------------------------------------------------------
    // amend_interrupt and amend_alert

    /** Sets a table and the module list it was built from. */
    method SetTable(t: SignalTable, names: seq<string>, entries: seq<Signal>)
      modifies this
      ensures Value() == WithTable(old(Value()), t, names, entries)
      ensures modules == old(modules)
    {
      match t
      case InterruptTable =>
        interruptModule := Some(names);
        interrupt := Some(entries);
      case AlertTable =>
        alertModule := Some(names);
        alert := Some(entries);
    }

    /** `amend_interrupt` and `amend_alert`: the module list defaults to every
        module's name and the table to empty; then each listed name that a
        module has adds that module's list, prefixed with the lower-cased
        name. A module lacking the list stops the merge. */
    method AmendSignalTable(t: SignalTable, lib: TopLib) returns (r: Outcome<MergeError>)
      modifies this
      ensures var names := TableModuleNames(old(Value()), t);
        var g := TableSignals(old(modules), names, t, lib);
        && (g.Err? ==> r == Fail(g.error))
        && (g.Ok? ==>
              (r == Pass && Value() == WithTable(old(Value()), t, names, OrEmpty(TableEntries(old(Value()), t)) + g.value)))
    {
      var names := TableModuleNames(Value(), t);
      var base := OrEmpty(TableEntries(Value(), t));
      SetTable(t, names, base);
      var g := CollectTable(modules, names, t, lib);
      if g.Err? {
        return Fail(g.error);
      }
      SetTable(t, names, base + g.value);
      return Pass;
    }

    // -------------------------------------------------------------------------
    // amend_pinmux_io

    /** One dio_modules entry: its signals, prefixed with the module name and
        given the entry's pads in order, are appended to the dedicated IOs. */
    method AddDio(e: DioModule, lib: TopLib) returns (r: Outcome<MergeError>)
      requires pinmux.dio.Some?
      modifies this
      ensures var d := DioEntry(old(modules), e, lib);
        && (d.Err? ==> r == Fail(d.error))
        && (d.Ok? ==>
              (r == Pass && Value() == old(Value()).(pinmux := old(pinmux).(dio := Some(old(pinmux.dio.value) + d.value)))))
    {
      var (mname, sname) := lib.msName(e.name);
      var m := lib.moduleByName(modules, mname);
      if m.None? {
        return Fail(UnknownModule(mname));
      }
      var signals := DioSignals(m.value, sname, lib);
      if signals.Err? {
        return Fail(signals.error);
      }
      var width := SumWidths(signals.value);
      var sigs := Prefixed(signals.value, mname, lib);
      if e.pad.None? {
        return Fail(MissingPad(e.name));
      }
      var pads := CollectPads(e.pad.value, lib);
      if |pads| != width {
        return Fail(PadCountMismatch(mname, width));
      }
      var padded := PadSignals(sigs, pads);
      SetPinmux(pinmux.(dio := Some(pinmux.dio.value + padded)));
      return Pass;
    }

    /** Replaces the pin multiplexer record. */
    method SetPinmux(p: Pinmux)
      modifies this
      ensures Value() == old(Value()).(pinmux := p)
    {
      pinmux := p;
    }

    /** `amend_pinmux_io`: the dedicated IOs from dio_modules, then
        mio_modules (by default every module with an IO) adding their IOs,
        except the dedicated ones, to the multiplexed inputs, outputs and
        inouts. */
    method AmendPinmuxIo(lib: TopLib) returns (r: Outcome<MergeError>)
      modifies this
      ensures var p := PinmuxAmended(old(Value()), lib);
        && (p.Err? ==> r == Fail(p.error))
        && (p.Ok? ==> r == Pass && Value() == old(Value()).(pinmux := p.value))
    {
      if pinmux.dioModules.None? {
        SetPinmux(pinmux.(dioModules := Some([])));
      }
      SetPinmux(pinmux.(dio := Some([])));
      r := AddDios(lib);
      if r.Fail? {
        return;
      }
      var mio: seq<string>;
      if pinmux.mioModules.Some? {
        mio := pinmux.mioModules.value;
      } else {
        var d := CollectMio(modules);
        if d.Err? {
          return Fail(d.error);
        }
        mio := d.value;
        SetPinmux(pinmux.(mioModules := Some(mio)));
      }
      SetPinmux(pinmux.(inputs := Some(OrEmpty(pinmux.inputs)),
                        outputs := Some(OrEmpty(pinmux.outputs)),
                        inouts := Some(OrEmpty(pinmux.inouts))));
      r := AddMios(lib);
    }

    /** The loop of `amend_pinmux_io` over dio_modules. */
    method AddDios(lib: TopLib) returns (r: Outcome<MergeError>)
      requires pinmux.dioModules.Some? && pinmux.dio == Some([])
      modifies this
      ensures var d := DioList(old(modules), old(pinmux.dioModules.value), lib);
        && (d.Err? ==> r == Fail(d.error))
        && (d.Ok? ==> r == Pass && Value() == old(Value()).(pinmux := old(pinmux).(dio := Some(d.value))))
    {
      ghost var v0 := Value();
      var es := pinmux.dioModules.value;
      var i := 0;
      while i < |es|
        invariant 0 <= i <= |es|
        invariant DioList(v0.modules, es[..i], lib).Ok?
        invariant Value() == v0.(pinmux := v0.pinmux.(dio := Some(DioList(v0.modules, es[..i], lib).value)))
      {
        assert es[..i + 1][..i] == es[..i];
        r := AddDio(es[i], lib);
        if r.Fail? {
          GatherStops(DioStep(v0.modules, lib), es, i + 1);
          return;
        }
        i := i + 1;
      }
      assert es[..i] == es;
      return Pass;
    }

    /** Appends one entry's signals to the multiplexed inputs, outputs and
        inouts. */
    method AppendIos(cur: Ios)
      requires pinmux.inputs.Some? && pinmux.outputs.Some? && pinmux.inouts.Some?
      modifies this
      ensures Value() == old(Value()).(pinmux := old(pinmux).(
              inputs := Some(old(pinmux.inputs.value) + cur.inputs),
              outputs := Some(old(pinmux.outputs.value) + cur.outputs),
              inouts := Some(old(pinmux.inouts.value) + cur.inouts)))
    {
      pinmux := pinmux.(inputs := Some(pinmux.inputs.value + cur.inputs),
                        outputs := Some(pinmux.outputs.value + cur.outputs),
                        inouts := Some(pinmux.inouts.value + cur.inouts));
    }

    /** The loop of `amend_pinmux_io` over mio_modules. */
    method AddMios(lib: TopLib) returns (r: Outcome<MergeError>)
      requires pinmux.dio.Some? && pinmux.mioModules.Some?
      requires pinmux.inputs.Some? && pinmux.outputs.Some? && pinmux.inouts.Some?
      modifies this
      ensures var m := MioList(old(modules), old(pinmux.mioModules.value), SignalNames(old(pinmux.dio.value)), lib);
        && (m.Err? ==> r == Fail(m.error))
        && (m.Ok? ==> r == Pass && Value() == old(Value()).(pinmux := old(pinmux).(
              inputs := Some(old(pinmux.inputs.value) + m.value.inputs),
              outputs := Some(old(pinmux.outputs.value) + m.value.outputs),
              inouts := Some(old(pinmux.inouts.value) + m.value.inouts))))
    {
      ghost var v0 := Value();
      ghost var p1 := pinmux;
      var mio := pinmux.mioModules.value;
      var dioNames := SignalNames(pinmux.dio.value);
      ghost var acc := Ios([], [], []);
      assert p1.inputs.value + [] == p1.inputs.value;
      assert p1.outputs.value + [] == p1.outputs.value;
      assert p1.inouts.value + [] == p1.inouts.value;
      var k := 0;
      while k < |mio|
        invariant 0 <= k <= |mio|
        invariant MioList(v0.modules, mio[..k], dioNames, lib) == Ok(acc)
        invariant Value() == v0.(pinmux := pinmux)
        invariant pinmux == p1.(inputs := Some(p1.inputs.value + acc.inputs),
                                outputs := Some(p1.outputs.value + acc.outputs),
                                inouts := Some(p1.inouts.value + acc.inouts))
      {
        var ios := MioEntry(modules, mio[k], dioNames, lib);
        MioListNext(v0.modules, mio, k, dioNames, lib);
        if ios.Err? {
          MioListStops(v0.modules, mio, dioNames, lib, k + 1);
          return Fail(ios.error);
        }
        var cur := ios.value;
        AppendIos(cur);
        IosAppendAssoc(p1, acc, cur);
        acc := Ios(acc.inputs + cur.inputs, acc.outputs + cur.outputs, acc.inouts + cur.inouts);
        k := k + 1;
      }
      assert mio[..k] == mio;
      return Pass;
    }
  }

  // ---------------------------------------------------------------------------
  // merge_top

  /** `merge_top(topcfg, ipobjs, xbarobjs)`: on a copy of the top, amend the
      modules from the IPs, build the interrupt and alert tables, the pin
      multiplexer IOs and the crossbars, gather the crossbar address ranges,
      and drop `debug_mem_base_addr`. `orders[i]` is the order in which the
      devices of `descs[i]` are added; `depth` bounds the nesting of
      `xbar_cross_node`. Where `rank` ranks the merged crossbars, every
      device port of every crossbar ends with a range. */
  method MergeTop(top: TopValue, ips: seq<Ip>, descs: seq<XbarDesc>, orders: seq<seq<string>>, lib: TopLib, depth: nat,
                  ghost rank: map<string, nat>)
    returns (r: Result<TopValue, MergeError>)
    requires |orders| == |descs|
    requires forall i :: 0 <= i < |descs| ==> IsEnumeration(orders[i], ConnectedDevices(descs[i].connections))
    ensures r.Ok? ==>
      && r.value.name == top.name && r.value.memory == top.memory
      && ModuleNames(r.value.modules) == ModuleNames(top.modules)
      && XbarNames(r.value.xbars) == XbarNames(top.xbars)
      && r.value.interruptModule.Some? && r.value.interrupt.Some?
      && r.value.alertModule.Some? && r.value.alert.Some?
      && PinmuxFilled(r.value.pinmux)
      && r.value.debugMemBaseAddr.None?
      && AllLeafRangesPresent(r.value.xbars)
    ensures r.Ok? && Ranked(r.value.xbars, rank) ==> AllPortRangesPresent(r.value.xbars)
  {
    var cfg := new TopConfig(top);
    var step := cfg.AmendIps(ips);
    if step.Fail? {
      return Err(step.error);
    }
    step := cfg.AmendSignalTable(InterruptTable, lib);
    if step.Fail? {
      return Err(step.error);
    }
    step := cfg.AmendSignalTable(AlertTable, lib);
    if step.Fail? {
      return Err(step.error);
    }
    step := cfg.AmendPinmuxIo(lib);
    if step.Fail? {
      return Err(step.error);
    }
    assert PinmuxFilled(cfg.pinmux);
    assert cfg.interruptModule.Some? && cfg.interrupt.Some? && cfg.alertModule.Some? && cfg.alert.Some?;
    step := cfg.AmendXbars(descs, orders);
    if step.Fail? {
      return Err(step.error);
    }
    ghost var xs := cfg.xbars;
    step := cfg.CrossAll(depth, rank);
    if step.Fail? {
      return Err(step.error);
    }
    SameShapeNames(xs, cfg.xbars);
    if Ranked(cfg.xbars, rank) {
      RankedShape(cfg.xbars, xs, rank);
    }
    cfg.debugMemBaseAddr := None;
    return Ok(cfg.Value());
  }
}
