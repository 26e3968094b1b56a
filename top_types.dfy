/** The records util/topgen/merge.py reads and writes: the top-level
    configuration, the IP descriptions produced by reggen, the crossbar
    descriptions, and the helpers it imports from topgen.lib. HJSON
    dictionaries become records; a key the code looks up with `in` (or that
    only some steps create) is an `Option`, a key it reads with a subscript
    is a plain field. */
module TopTypes {
  import opened Common
  import opened Text

  // ---------------------------------------------------------------------------
  // Signals

  /** A signal as an IP description lists it; `width` is still raw HJSON. */
  datatype IpSignal = IpSignal(name: string, width: Scalar, desc: Option<string>)

  /** The five signal lists `amend_ip` copies into a module. */
  datatype SignalKind = InputSignal | OutputSignal | InoutSignal | InterruptSignal | AlertSignal

  /** The `type` tag each list gives its entries. */
  function KindText(k: SignalKind): string {
    match k
    case InputSignal => "input"
    case OutputSignal => "output"
    case InoutSignal => "inout"
    case InterruptSignal => "interrupt"
    case AlertSignal => "alert"
  }

  /** A signal of the merged configuration: no `desc`, a `type` tag, an
      integer `width`; alerts carry `async`, dedicated IOs their `pad`s. */
  datatype Signal = Signal(
    name: string,
    width: int,
    sigType: string,
    async: Option<int>,
    pad: Option<seq<string>>)

  // ---------------------------------------------------------------------------
  // Modules, memories and IP descriptions

  /** The register description of one IP, as far as merging reads it. */
  datatype Ip = Ip(
    name: string,
    gensize: int,
    busDevice: string,
    busHost: Option<string>,
    inputs: Option<seq<IpSignal>>,
    outputs: Option<seq<IpSignal>>,
    inouts: Option<seq<IpSignal>>,
    interrupts: Option<seq<IpSignal>>,
    alerts: Option<seq<IpSignal>>,
    scan: Option<string>)

  /** An entry of the top's "module" list. `clkI` is
      `clock_connections["clk_i"]`; the optional fields are those `amend_ip`
      fills in. */
  datatype ModuleCfg = ModuleCfg(
    name: string,
    mtype: string,
    clock: string,
    reset: string,
    clkI: string,
    baseAddr: Scalar,
    size: Option<Scalar>,
    busDevice: Option<string>,
    busHost: Option<string>,
    inputs: Option<seq<Signal>>,
    outputs: Option<seq<Signal>>,
    inouts: Option<seq<Signal>>,
    interrupts: Option<seq<Signal>>,
    alerts: Option<seq<Signal>>,
    scan: Option<string>)

  /** An entry of the top's "memory" list. */
  datatype MemoryCfg = MemoryCfg(
    name: string,
    mtype: string,
    clock: string,
    reset: string,
    baseAddr: Scalar,
    size: Scalar)

  // ---------------------------------------------------------------------------
  // Crossbars

  datatype AddrRange = AddrRange(baseAddr: Scalar, sizeByte: Scalar)

  /** A host or device port of a crossbar. */
  datatype XbarNode = XbarNode(
    name: string,
    nodeType: string,
    clock: Option<string>,
    reset: Option<string>,
    instType: Option<string>,
    xbar: Option<bool>,
    pipeline: Option<string>,
    pipelineByp: Option<string>,
    addrRange: Option<seq<AddrRange>>)

  /** `connections`: host name to the device names it reaches, in file order. */
  type Connections = seq<(string, seq<string>)>

  /** An entry of the top's "xbar" list; everything but the name is filled in
      by `amend_xbar`. */
  datatype Xbar = Xbar(
    name: string,
    clock: Option<string>,
    reset: Option<string>,
    connections: Option<Connections>,
    nodes: Option<seq<XbarNode>>)

  /** A crossbar description file. */
  datatype XbarDesc = XbarDesc(
    name: string,
    clockPrimary: string,
    resetPrimary: string,
    connections: Connections,
    nodes: Option<seq<XbarNode>>)

  // ---------------------------------------------------------------------------
  // Pin multiplexer

  /** An entry of `dio_modules`: a module or `module.signal` name and its pads. */
  datatype DioModule = DioModule(name: string, pad: Option<seq<string>>)

  datatype Pinmux = Pinmux(
    dioModules: Option<seq<DioModule>>,
    dio: Option<seq<Signal>>,
    mioModules: Option<seq<string>>,
    inputs: Option<seq<Signal>>,
    outputs: Option<seq<Signal>>,
    inouts: Option<seq<Signal>>)

  // ---------------------------------------------------------------------------
  // The whole configuration

  /** The top-level configuration. `interrupt` and `alert` are None when the
      key is absent or holds the empty string; the code treats both alike. */
  datatype TopValue = TopValue(
    name: string,
    modules: seq<ModuleCfg>,
    memory: seq<MemoryCfg>,
    xbars: seq<Xbar>,
    interruptModule: Option<seq<string>>,
    interrupt: Option<seq<Signal>>,
    alertModule: Option<seq<string>>,
    alert: Option<seq<Signal>>,
    pinmux: Pinmux,
    debugMemBaseAddr: Option<Scalar>)

  /** The helpers merging imports from topgen.lib, whose definitions are not
      part of this model: `add_prefix_to_signal`, `get_pad_list`,
      `get_ms_name`, `get_module_by_name` (over the module list) and
      `get_signal_by_name`. */
  datatype TopLib = TopLib(
    addPrefix: (Signal, string) -> Signal,
    padList: string -> seq<string>,
    msName: string -> (string, Option<string>),
    moduleByName: (seq<ModuleCfg>, string) -> Option<ModuleCfg>,
    signalByName: (ModuleCfg, string) -> Option<Signal>)

  // ---------------------------------------------------------------------------
  // Errors that stop the merge

  datatype MergeError =
    | NoAlertHandler                         // list.index("alert_handler") finds nothing
    | SizeNotComparable(moduleName: string)  // a textual 'size' compared with an integer
    | BadWidth(width: Scalar)                // int() of a width that is no numeral
    | DuplicateXbar(xbar: string)            // is_xbar: several crossbars share the name
    | UndefinedName(ident: string)           // NameError in xbar_addhost's default branch
    | NodeNotUnique(device: string)          // assert len(nodeobj) == 1
    | HostXbarNotUnique(host: string)        // assert len(host_xbars) == 1
    | MissingKey(key: string)                // KeyError
    | RecursionLimit                         // xbar_cross_node recursing too deep
    | UnknownModule(moduleName: string)      // get_module_by_name gives None
    | UnknownSignal(signal: string)          // get_signal_by_name gives None
    | MissingPad(entry: string)              // a dio_modules entry without "pad"
    | PadCountMismatch(moduleName: string, bits: int)// pads and signal bits differ
    | BadMioEntry(entry: string)             // more than one '.' in an mio_modules entry
    | SignalInMio(entry: string)             // a module.signal entry in mio_modules
}
