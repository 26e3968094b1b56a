# OpenTitan SVD generation and top-level merge, in Dafny

This project models two code generators of the OpenTitan hardware tree.

**The SVD generator** (`util/svdgen/lib.py`) compiles a validated
top-level configuration, together with the register description of every
IP block it instantiates, into a CMSIS-SVD `<device>` element tree. It
covers the following steps:

- `sw_access_modes` maps each software access label to SVD's
  access / readAction / modifiedWriteValues triple.
- Each field becomes a `<field>` with a `[msb:lsb]` bit range.
- Each register becomes a `<register>`. A register whose only field
  carries its own name, starting at bit 0, is flattened into a `<size>`.
- Each memory window becomes a `dim` register with a `%s` name
  placeholder.
- Each multireg becomes a `<cluster>` at the minimum offset of its
  members.
- Reserved and skipto entries emit nothing, and sameaddr groups are
  inlined.
- Peripherals, the fixed `<cpu>` and the device are assembled in module
  order.
- `indent_tree` pretty-prints the result by rewriting each element's
  `text` and `tail`.

**The top-level merge** (`util/topgen/merge.py`) amends a copy of the
top-level configuration, in place:

- it merges each IP description into its module (size, bus, signal
  lists, scan);
- it builds the interrupt and alert tables;
- it allocates the pads of the dedicated IOs and lists the multiplexed
  IOs of the pin multiplexer;
- it builds each crossbar's node list from its connections;
- it gathers, recursively, the address ranges that a crossbar device
  port reaches through downstream crossbars.

The files are:

- `common.dfy`: `Option`, `Result` and `Outcome`.
- `text.dfy`: Python's `hex()`, `str()`/`'%d'`, `int()`, `str.strip()`,
  ASCII case folding, `str.find()` and `str.split()`. Each comes with its
  round trip or its characterising lemma.
- `svd_model.dfy`: the register-description input, the element tree
  `Node`, and the child lookups the properties are stated with.
- `svd_gen.dfy`: every `generate_*` builder, each as a function. Lemmas
  state the children each builder produces.
- `svd_indent.dfy`: `indent_tree`, written as a method with a loop and
  proved against the reference function `Indented`, and
  `convert_top_to_svd`.
- `top_types.dfy`: the records of the top-level configuration, the IP
  descriptions and the crossbar descriptions. It also holds the
  `topgen.lib` helpers, gathered as function-valued fields of `TopLib`,
  and the merge errors.
- `top_spec.dfy`: reference functions for each amending step, with their
  lemmas.
- `top_merge.dfy`: the class `TopConfig`, whose fields are the
  configuration's keys. Its methods perform the steps in place with
  loops, and each method is proved against the reference functions.

Every `SystemExit`, failed `assert`, `NameError` and failed comparison
that the Python can raise is an `Err`/`Fail` result. A key that the
configuration may lack where the code reads it is an `Option` field, and
reading it while absent is the error `MissingKey`. A key that validated
input always carries (for example a crossbar description's `clock` or a
register's `genoffset`) is a plain field: the model assumes it is present
and does not model its `KeyError`. Steps that the source only logs leave
the configuration unchanged.

## Model

| member | source | states |
|---|---|---|
| Text.CaseEqualPointwise | util/svdgen/lib.py:24-27 | two names compare equal ignoring case exactly when they have the same length and agree letter by letter after lower-casing |
| Text.LowerAt | util/svdgen/lib.py:27 | lower-casing works on each character on its own |
| Text.LowerIdempotent | util/svdgen/lib.py:27 | folding an already folded name changes nothing |
| Text.Hex | util/svdgen/lib.py:38 | `hex()` text starts with "0x", or with "-0x" for a negative number |
| Text.HexRoundTrip | util/svdgen/lib.py:38 | every `hex()` text reads back as the number it was written from, negative numbers included |
| Text.HexOfZero | util/svdgen/lib.py:38 | `hex(0)` is "0x0" |
| Text.DigitsRoundTrip | util/svdgen/lib.py:38 | the digit string of a natural number, in base 10 or 16, parses back to that number |
| Text.NoLeadingZero | util/svdgen/lib.py:38 | a positive number's digits do not start with 0 |
| SvdGen.HexOrNone | util/svdgen/lib.py:30-38 | the result is absent exactly when the number is absent |
| SvdGen.HexOrNoneRoundTrip | util/svdgen/lib.py:30-38 | a present number comes back from its rendered text |
| SvdGen.ExtendNode | util/svdgen/lib.py:41-45 | the element keeps its tag and attributes, and its children are the old children followed by the given elements |
| SvdGen.Texts | util/svdgen/lib.py:72-78 | `svd_node` makes at most one element per keyword, and each is a text element |
| SvdGen.TextsOrder | util/svdgen/lib.py:72-78 | one text element per keyword whose value is not None; keyword i's element holds its tag and value and sits at the position counting the keywords with a value ahead of it |
| SvdGen.TextsInKeywordOrder | util/svdgen/lib.py:72-78 | an earlier keyword with a value is placed before any later one, so the elements come in keyword order |
| SvdGen.TextsAllPresent | util/svdgen/lib.py:72-78 | when no value is None, there is one element per keyword, in keyword order, holding the keyword's value |
| SvdGen.TextOfTexts | util/svdgen/lib.py:72-78 | the child named by keyword i holds that keyword's value, and is missing exactly when the value is None |
| SvdGen.FindPastTexts | util/svdgen/lib.py:56-61 | elements appended after the keywords are found as if the keywords were not there |
| SvdGen.TextsThenFields | util/svdgen/lib.py:56-61 | text children come first, and a `<fields>` element can only be the last child |
| SvdGen.SwAccessModes | util/svdgen/lib.py:163-175 | the lookup succeeds exactly for the nine table labels, absent included; any other label fails with that label |
| SvdGen.AccessModeColumns | util/svdgen/lib.py:163-175 | each column of the table, as an if-and-only-if per value: read-only for ro/rc, write-only for r0w1c/wo, read-write for the four rw labels, clear-on-read only for rc, oneToClear for r0w1c/rw1c, oneToSet for rw1s, zeroToClear for rw0c, all absent for an absent label |
| SvdGen.BitRangeRoundTrip | util/svdgen/lib.py:178-184 | the bit-range text reads back as (lsb + width - 1, lsb) |
| SvdGen.BitRangeExample | util/svdgen/lib.py:178-184 | width 4 at lsb 8 gives "[11:8]" |
| SvdGen.GenerateField | util/svdgen/lib.py:187-197 | a field converts exactly when its access label is known, fails with that label otherwise, and gives a `<field>` element |
| SvdGen.FieldContents | util/svdgen/lib.py:187-197 | the field's name, description, bit range and the three access-mode children carry the field's values, the optional ones only when present |
| SvdGen.GenerateFields | util/svdgen/lib.py:233 | all fields convert exactly when every access label is known; the result then has one element per field, converted in input order |
| SvdGen.FlatSize | util/svdgen/lib.py:219-228 | a size is given exactly when there is one field, named like the register up to case and starting at bit 0 |
| SvdGen.GenerateAllFields | util/svdgen/lib.py:230-233 | a flattened register, or one whose `fields` key is absent, gets no `<fields>`; otherwise there is exactly one, holding the converted fields (empty when the list is empty) |
| SvdGen.GenerateRegister | util/svdgen/lib.py:200-248 | a register converts exactly when its access label and (unless it is flattened) every field's label are known; an unknown register label is the error; the result is a `<register>` with no attributes |
| SvdGen.RegisterKwsShape | util/svdgen/lib.py:236-246 | the ten keywords of a register are distinct, start with the name, and put `addressOffset` = hex(genoffset - base) third |
| SvdGen.RegisterTexts | util/svdgen/lib.py:235-248 | name, description, `addressOffset` = hex(genoffset - base), the decimal flattened `size`, and `mask`/`resetValue`/`resetMask`/`access`/`readAction`/`modifiedWriteValues` appear with the register's values, and only when present; the text elements come first, in keyword order |
| SvdGen.RegisterFields | util/svdgen/lib.py:219-248 | there is a `<fields>` child exactly when the register is not flattened and its `fields` key is present, even with an empty list; it is then the last child and holds the converted fields; every other child is a text element |
| SvdGen.AddPlaceholder | util/svdgen/lib.py:263-265 | the name afterwards contains "%s"; a name that already has it is unchanged; otherwise "%s" is appended once |
| SvdGen.PlaceholderAfterName | util/svdgen/lib.py:263-265 | patching the `<name>` child is the same as building the register with the patched name |
| SvdGen.GenerateDimRegister | util/svdgen/lib.py:251-258 | a window converts exactly when its register does, with the same error, and gives a `<register>` |
| SvdGen.DimChildren | util/svdgen/lib.py:256-258 | the window's children are the register's, followed by `dim` and `dimIncrement` |
| SvdGen.DimRegisterContents | util/svdgen/lib.py:251-267 | name with placeholder, `addressOffset` = hex(genoffset - base), `dim` = items, `dimIncrement` = hex(genvalidbits div 8) |
| SvdGen.ReadGenoffset | util/svdgen/lib.py:270-284 | an entry's own genoffset wins, then the inner window's genoffset; failure exactly when neither exists |
| SvdGen.MinOffset | util/svdgen/lib.py:311 | the minimum exists exactly when the list is non-empty and every offset reads; it is at most every member's offset and equals one of them |
| SvdGen.GenerateCluster | util/svdgen/lib.py:287-318 | a non-zero base always fails as nested; success gives a `<cluster>` |
| SvdGen.ClusterContents | util/svdgen/lib.py:303-318 | on success the base was 0; the cluster is named and described by the multireg, sits at hex(minimum offset), and its members follow, converted relative to that minimum |
| SvdGen.ClusterRegisterAt | util/svdgen/lib.py:311-318 | the i-th plain member appears at its position in input order, as the register converted relative to the minimum |
| SvdGen.ClusterDimRegisterAt | util/svdgen/lib.py:311-318 | the i-th window member appears at its position in input order, converted relative to the minimum |
| SvdGen.ClusterRegisterAbove | util/svdgen/lib.py:305-311 | every plain member's relative offset is at least 0 |
| SvdGen.ClusterDimRegisterAbove | util/svdgen/lib.py:309-311 | every window member without an outer offset has a relative offset of at least 0 |
| SvdGen.NestedClusterAtZero | util/svdgen/lib.py:296-301 | a cluster that succeeds with a nested multireg has minimum offset 0, the only base at which the nested cluster is accepted |
| SvdGen.GenerateAllRegisters | util/svdgen/lib.py:321-340 | everything emitted is a register or a cluster |
| SvdGen.GenerateEntry | util/svdgen/lib.py:330-340 | one entry emits only registers and clusters |
| SvdGen.AllRegistersAppend | util/svdgen/lib.py:330-340 | converting a concatenation is converting both parts in order: the first error wins, and otherwise the outputs concatenate |
| SvdGen.AllRegistersOk | util/svdgen/lib.py:330-340 | the list converts exactly when every entry does |
| SvdGen.AllRegistersFirstError | util/svdgen/lib.py:330-340 | a failing list fails with the error of its first failing entry |
| SvdGen.AllRegistersCount | util/svdgen/lib.py:326-328 | the output length is the count of emitted elements: reserved, skipto and each empty group contribute none, a sameaddr group its members' count |
| SvdGen.EntryOutputSlice | util/svdgen/lib.py:330-340 | entry i's output sits in the list's output right after the output of the entries before it, so input order is kept |
| SvdGen.ReservedSkipped | util/svdgen/lib.py:331-332 | removing a reserved or skipto entry changes nothing |
| SvdGen.SameAddrInlined | util/svdgen/lib.py:335-336 | a sameaddr group converts as its members spliced in place, at the same base |
| SvdGen.EnumerateInterrupts | util/svdgen/lib.py:126-129 | one `<interrupt>` per name, the i-th numbered start + i |
| SvdGen.GenerateAllInterrupts | util/svdgen/lib.py:119-129 | no list yields nothing; otherwise the i-th interrupt is named by the i-th entry and has value i |
| SvdGen.InterruptContents | util/svdgen/lib.py:127-129 | an interrupt's name and value children hold the name and the decimal number, which reads back as the number |
| SvdGen.GeneratePeripheral | util/svdgen/lib.py:343-355 | a peripheral converts exactly when its registers do, with their error, and gives a `<peripheral>` |
| SvdGen.PeripheralChildren | util/svdgen/lib.py:352-355 | the children are the name and base address, the interrupts, `<registers>`, then the closing comment |
| SvdGen.PeripheralContents | util/svdgen/lib.py:343-355 | the name and base address come from the module; `<registers>` holds the converted registers; there is one `<interrupt>` per listed interrupt; the last child is "end of" the module name |
| SvdGen.PeripheralList | util/svdgen/lib.py:362-363 | the list converts exactly when every module's type names an IP whose peripheral converts; it then has one peripheral per module, in module order |
| SvdGen.PeripheralListFirstError | util/svdgen/lib.py:362-363 | a failing list fails with the error of its first failing module: a missing IP type, or that module's conversion error |
| SvdGen.GeneratePeripherals | util/svdgen/lib.py:358-363 | the `<peripherals>` element exists exactly when the list converts, with its error |
| SvdGen.PeripheralsInModuleOrder | util/svdgen/lib.py:362-363 | the i-th peripheral is the i-th module's, carrying that module's name and base address |
| SvdGen.GenerateCpu | util/svdgen/lib.py:366-380 | a `<cpu>` without attributes |
| SvdGen.CpuContents | util/svdgen/lib.py:373-380 | seven children in keyword order; revision and nvicPrioBits are 0, and mpuPresent and fpuPresent are "false" |
| SvdGen.GenerateDevice | util/svdgen/lib.py:383-407 | the device exists exactly when the peripherals convert, with their error, and has the three schema attributes |
| SvdGen.DeviceContents | util/svdgen/lib.py:392-407 | vendor lowRISC, the top's name, the given version and description, `width` = `size` = datawidth, `addressUnitBits` 8, then the cpu, then the peripherals: nine children |
| SvdIndent.FromNode | util/svdgen/lib.py:99-100 | a generated element has either text or children, and no tail |
| Text.StripLeft | util/svdgen/lib.py:107 | the result is a suffix of the input that starts with a non-space; only white space was removed |
| Text.StripRight | util/svdgen/lib.py:107 | the result is a prefix of the input that ends with a non-space; only white space was removed |
| Text.Strip | util/svdgen/lib.py:107 | a stripped text neither starts nor ends with white space |
| Text.StripKeepsInfix | util/svdgen/lib.py:107 | the stripped text occurs in the original with only white space on either side |
| Text.StripUnchanged | util/svdgen/lib.py:107 | text without surrounding white space is unchanged |
| Text.StripIdempotent | util/svdgen/lib.py:107 | stripping twice is stripping once |
| SvdIndent.IndentTree | util/svdgen/lib.py:83-116 | the loop over the children, tracking the last child, yields exactly the indented tree `Indented` |
| SvdIndent.IndentShape | util/svdgen/lib.py:102-116 | a parent's text is indent + two spaces; a leaf's text is its stripped text; the element's tail is the indent; every child but the last has tail indent + two spaces, and the last has the indent |
| SvdIndent.IndentKeepsSkeleton | util/svdgen/lib.py:84-86 | indentation only changes white space: tags, attributes, comments, structure and stripped leaf texts are kept |
| SvdIndent.IndentIgnoresTail | util/svdgen/lib.py:109 | whatever tail an element had is overwritten |
| SvdIndent.IndentIdempotent | util/svdgen/lib.py:102-116 | indenting an indented tree at the same level changes nothing |
| SvdIndent.ConvertTopToSvd | util/svdgen/lib.py:424-430 | the conversion fails exactly when the device does, with its error; the result is the device indented from a newline |
| TopSpec.FindModule | util/topgen/merge.py:429 | the first module with the name, absent exactly when no module has it |
| Text.ToInt | util/topgen/merge.py:68 | `int()` of a number is that number |
| Text.IntOfDecimal | util/topgen/merge.py:68 | `int(str(n))` is n |
| TopMerge.ConvertSignals | util/topgen/merge.py:64-68 | the loop over a signal list computes `ConvertedSignals` |
| TopMerge.ConvertList | util/topgen/merge.py:63-70 | a present list is converted; an absent one becomes empty |
| TopSpec.ConvertedSignalsOk | util/topgen/merge.py:64-68 | when every width is a numeral, conversion succeeds: each entry keeps its name, loses `desc`, gets the kind's `type` tag, the integer width and the given `async` |
| TopSpec.ConvertedSignalsFail | util/topgen/merge.py:68 | the first width that is not a numeral is the error |
| TopSpec.ConvertedSignalsWidths | util/topgen/merge.py:68 | if conversion succeeds, every width was a numeral |
| TopSpec.ListConvertedOf | util/topgen/merge.py:63-112 | each of the five lists is converted entry by entry, and an absent one becomes empty |
| TopSpec.AmendedModuleOk | util/topgen/merge.py:46-112 | amending a module succeeds exactly when its size is not textual and every width of every list is a numeral |
| TopSpec.AmendedModuleKeeps | util/topgen/merge.py:18-31 | only size, bus_device, bus_host, the five lists and scan change; name, type, clocks and address stay |
| TopSpec.AmendedSizeRule | util/topgen/merge.py:46-51 | an existing size is never overwritten, even a too-small one; an absent size becomes a hex text of max(gensize, 0x1000) |
| TopSpec.AmendedBusAndScan | util/topgen/merge.py:53-118 | bus_device is the IP's; bus_host is the IP's when present and non-empty, else "none"; scan is the IP's, else "false" |
| TopSpec.AmendedSignalLists | util/topgen/merge.py:62-112 | all five lists are present afterwards, empty when the IP has none and converted otherwise; an alert's async is 0 exactly when the module's clk_i is alert_handler's, and 1 exactly when it differs |
| TopMerge.TopConfig.constructor | util/topgen/merge.py:583 | the configuration object holds the given top value |
| TopMerge.TopConfig.AmendIp | util/topgen/merge.py:18-118 | an IP no module uses (lower-cased) changes nothing; a missing alert_handler fails and changes nothing; otherwise the module found first is replaced by its amended form, or the amendment's error is returned |
| TopMerge.TopConfig.AmendIps | util/topgen/merge.py:586-587 | amending with every IP changes only the modules and keeps their names |
| TopSpec.IsXbar | util/topgen/merge.py:130-141 | "not a crossbar" exactly when no crossbar has the name; failure exactly when several do; otherwise the crossbar found has that name |
| TopSpec.IsXbarUnique | util/topgen/merge.py:133-141 | the crossbar found is the only one with the name |
| TopSpec.PipelineDefaults | util/topgen/merge.py:188-195 | only the two pipeline flags change; existing values are kept and missing ones become "true" |
| TopSpec.PipelineDefaultsIdempotent | util/topgen/merge.py:188-195 | applying the defaults twice is applying them once |
| TopSpec.NodeIndex | util/topgen/merge.py:150 | the first node with the name, or -1 exactly when there is none |
| TopSpec.HostNodeRules | util/topgen/merge.py:169-185 | a host node keeps its name, type and range; it is marked as a crossbar as given; clock and reset are only filled in; pipeline defaults to "true"; pipeline_byp survives only when pipeline is "true", and is "true" otherwise |
| TopSpec.AddedHostRules | util/topgen/merge.py:144-185 | adding a host fails exactly when it has no node (the branch that names an undefined variable) or its name is shared by several crossbars; otherwise only the host's first node changes, names are kept, and it is marked as a crossbar exactly when a crossbar has its name |
| TopSpec.HostsAddedKeepNames | util/topgen/merge.py:338-340 | adding all hosts keeps the node names, and every host had a node |
| TopSpec.FindDevice | util/topgen/merge.py:208-210 | the first module or memory with the name, absent exactly when there is none |
| TopSpec.OtherXbars | util/topgen/merge.py:213 | exactly the names of the other crossbars |
| TopSpec.AddedDeviceAppends | util/topgen/merge.py:279-292 | a module or memory without a node gets exactly one new node at the end, carrying its address range, type, clock and reset, both pipeline flags "true", and not marked as a crossbar; a module without size fails |
| TopSpec.AddedDeviceInPlace | util/topgen/merge.py:294-303 | an existing node is updated in place, the count and names are unchanged, other nodes are untouched, existing pipeline flags are kept, and a found device's range and type are copied |
| TopSpec.AddedDeviceGrows | util/topgen/merge.py:198-303 | nodes are only added at the end; a module or memory that is not another crossbar always ends up with a node |
| TopSpec.DevicesAddedCover | util/topgen/merge.py:346-347 | after all devices are added, every connected module or memory that is not another crossbar has a node, and the old nodes keep their places |
| TopMerge.TopConfig.AddHost | util/topgen/merge.py:144-185 | the crossbar's node list becomes `AddedHost` of it; on failure nothing changes |
| TopMerge.TopConfig.AddDevice | util/topgen/merge.py:198-303 | the crossbar's node list becomes `AddedDevice` of it; on failure nothing changes (see "Left out") |
| TopMerge.TopConfig.AddHosts | util/topgen/merge.py:338-340 | the loop over the hosts of the connections leaves `HostsAdded` in the crossbar |
| TopMerge.TopConfig.AddDevices | util/topgen/merge.py:346-347 | the loop over the devices leaves `DevicesAdded` in the crossbar |
| TopMerge.TopConfig.AmendXbar | util/topgen/merge.py:306-347 | a description of no crossbar of the top changes nothing; otherwise the first crossbar with the name gets the connections, the clock and reset and the node list built from hosts then devices, or the build's error is returned |
| TopMerge.TopConfig.AmendXbars | util/topgen/merge.py:600-601 | amending with every description changes only the crossbars and keeps their names |
| TopMerge.Trail.constructor | util/topgen/merge.py:384 | a fresh, empty `visited` list |
| TopMerge.TopConfig.CrossNode | util/topgen/merge.py:388-416 | depth 0 fails; a host name not shared by exactly one crossbar fails the assert; a host without a connection to the device crossbar fails the lookup; on success `visited` is as on entry. Under an acyclic ranking: the result is the concatenation of the ranges of the host's nodes named in the connection, in node order, and all of those nodes carry ranges; every connected crossbar port of the host that had no range now carries what the crossbar behind it serves the host (`GatheredNodes`, `CarriesServed`) and every other node of the host is as it was; crossbars ranked above the host are unchanged, and elsewhere ranges are only given to nodes that had none (`Filled`) |
| TopMerge.TopConfig.GatherAll | util/topgen/merge.py:402-412 | the loop over the host's nodes; under a ranking, the result is `CollectedRanges` of the final nodes for the connected devices, all of which carry ranges, crossbars ranked above the host are unchanged, ranges are only given to nodes that had none, and the host's nodes end as `GatheredNodes` of the nodes it started with |
| TopMerge.TopConfig.GatherStep | util/topgen/merge.py:403-412 | one node: a node that is not a connected crossbar port without a range changes nothing at all; on success a node not connected adds nothing and a connected node adds the range it carries afterwards. Under a ranking only this node of the host changes, ranges are only given to nodes that had none, and the node ends as `GatheredNode` of what it was |
| TopMerge.TopConfig.Descend | util/topgen/merge.py:405-410 | the crossbar port without a range is given the result as its range; under a ranking the result is the ranges of the deeper crossbar's nodes that its connection for this crossbar names (`CarriesServed`), the other nodes of this crossbar are unchanged, and elsewhere ranges are only given to nodes that had none |
| TopMerge.CheckLeafRanges | util/topgen/merge.py:363-368 | true exactly when every device port that leads to no crossbar carries a range |
| TopMerge.TopConfig.Cross | util/topgen/merge.py:350-385 | a crossbar without nodes, or a leaf device port without range, fails the lookup; on success every leaf device port has a range. Under an acyclic ranking every crossbar device port, whether or not it had a range, carries what the crossbar behind it serves this crossbar (`CrossedNode`), every other node is unchanged, and the other crossbars only gain ranges where they had none |
| TopMerge.TopConfig.FillPorts | util/topgen/merge.py:371-385 | under an acyclic ranking every crossbar device port carries what the crossbar behind it serves this crossbar (`CrossedNode`), no other node changes, and the other crossbars only gain ranges where they had none |
| TopMerge.TopConfig.FillPort | util/topgen/merge.py:384-385 | under a ranking the port's range becomes what the crossbar behind it serves this crossbar (`CrossedNode`); the other nodes and the ranking are unchanged, and the other crossbars only gain ranges where they had none |
| TopMerge.TopConfig.SetRange | util/topgen/merge.py:385 | the node's `addr_range` is replaced and nothing else changes |
| TopMerge.TopConfig.CrossAll | util/topgen/merge.py:604-605 | only ranges change; on success every crossbar has nodes whose leaf device ports carry ranges, and under an acyclic ranking every device port of every crossbar carries one (`AllPortRangesPresent`) |
| TopSpec.CollectedRangesFilled | util/topgen/merge.py:403-412 | giving ranges only to nodes that had none leaves the ranges collected from nodes that all had one unchanged |
| TopSpec.CarriesServedKept | util/topgen/merge.py:403-412 | a port keeps carrying what the crossbar behind it serves while that crossbar only gains ranges where it had none |
| TopSpec.Prefixed | util/topgen/merge.py:436-438 | each signal mapped through `add_prefix_to_signal`, in order |
| TopSpec.ModuleSignalsRules | util/topgen/merge.py:428-438 | an unknown name contributes nothing; a module's name contributes its list, each entry prefixed with the lower-cased name; a module without the list fails the lookup |
| TopSpec.GatherNext | util/topgen/merge.py:428-438 | one more name: its error stops the table, and its signals are appended |
| TopSpec.GatherAppend | util/topgen/merge.py:428-438 | gathering over a concatenation is gathering both parts in order; the first error wins |
| TopSpec.TableSignalsNext | util/topgen/merge.py:436-438 | the table for one more module name is the previous table plus that module's signals |
| TopMerge.ModulePart | util/topgen/merge.py:429-438 | computes what one listed name contributes (`ModuleSignals`) |
| TopMerge.CollectTable | util/topgen/merge.py:428-438 | the loop over the listed names gathers `TableSignals` |
| TopMerge.TopConfig.SetTable | util/topgen/merge.py:422-426 | stores the name list and the table, and the modules stay |
| TopMerge.TopConfig.AmendSignalTable | util/topgen/merge.py:419-460 | the module list defaults to every module name; the table defaults to empty and is then extended by the gathered signals; a gathering error fails |
| TopMerge.CollectPads | util/topgen/merge.py:500-502 | the pads are all pad specs expanded by `get_pad_list`, concatenated in order |
| TopSpec.Take | util/topgen/merge.py:511 | a width within the list takes its first `width` pads |
| TopSpec.Drop | util/topgen/merge.py:512 | a width within the list drops its first `width` pads |
| TopSpec.TakeDrop | util/topgen/merge.py:511-512 | what is taken and what is left make up the pad list again, for any width, as Python slicing does |
| TopSpec.AssignPads | util/topgen/merge.py:510-514 | each signal is kept except for its new `pad` list, in order |
| TopSpec.AssignPadsConcat | util/topgen/merge.py:510-514 | the assigned pads followed by the remainder are the pad list, in order |
| TopSpec.AssignPadsExact | util/topgen/merge.py:504-514 | when the pad count equals the summed non-negative widths, the slices use every pad, in order, and signal k gets exactly `width` pads |
| TopMerge.PadSignals | util/topgen/merge.py:510-514 | the slicing loop computes `AssignPads` |
| TopSpec.DioEntryPads | util/topgen/merge.py:473-514 | an entry fails exactly when its pad count differs from the summed signal widths; otherwise it yields one dedicated IO per signal, and (widths kept by prefixing, not negative) the pads are handed out in order and all used |
| TopMerge.TopConfig.AddDio | util/topgen/merge.py:473-514 | the dedicated IOs of one entry are appended to `dio`, or its error is returned |
| TopMerge.TopConfig.AddDios | util/topgen/merge.py:472-514 | the loop over dio_modules fills `dio` with `DioList` |
| TopSpec.DefaultMioNames | util/topgen/merge.py:519-529 | the default mio_modules names exactly the modules with at least one IO |
| TopMerge.CollectMio | util/topgen/merge.py:521-529 | the loop over the modules computes `DefaultMio` |
| TopSpec.NotIn | util/topgen/merge.py:554 | exactly the signals whose name is not a dedicated IO |
| TopSpec.MioEntryTokens | util/topgen/merge.py:541-579 | an entry with two or more dots fails to parse; one dot fails with `UnknownModule` when the part before the dot names no module, and with `SignalInMio` otherwise; an accepted entry has no dot |
| TopSpec.MioListAvoidsDio | util/topgen/merge.py:551-572 | no dedicated IO is also listed as input, output or inout |
| TopMerge.TopConfig.AppendIos | util/topgen/merge.py:552-572 | appends one entry's IOs to inputs, outputs and inouts |
| TopMerge.TopConfig.AddMios | util/topgen/merge.py:541-579 | the loop over mio_modules appends `MioList` to inputs, outputs and inouts, or returns its error |
| TopSpec.PinmuxAmended | util/topgen/merge.py:463-579 | on success every pin multiplexer list is present |
| TopMerge.TopConfig.AmendPinmuxIo | util/topgen/merge.py:463-579 | the pin multiplexer becomes `PinmuxAmended`, or its error is returned |
| Text.Split | util/topgen/merge.py:542 | at least one token, none containing the separator |
| Text.SplitJoin | util/topgen/merge.py:542 | joining the tokens with the separator gives the entry back |
| Text.SplitCount | util/topgen/merge.py:542-543 | the token count is the separator count plus one |
| TopMerge.MergeTop | util/topgen/merge.py:582-610 | a successful merge keeps the name, memories, module names and crossbar names; it leaves the interrupt and alert tables and every pin multiplexer list present, every crossbar with its nodes and leaf device ranges, and no debug_mem_base_addr; when `rank` ranks the merged crossbars, every device port of every crossbar carries a range |

## Left out

- TopMerge.TopConfig.AmendSignalTable: an interrupt or alert table that is the empty string `""` in the configuration is represented as absent (`None`). `amend_interrupt` and `amend_alert` (util/topgen/merge.py:425 and 446) treat both alike, as an empty table.
- XML serialisation: `write_svd` (util/svdgen/lib.py:440-452) is not modelled. It writes files and escapes XML. The file header is kept only as the constant `SvdGen.GenHeader`.
- The pysvd schema check in `convert_top_to_svd` is not modelled. It is a foreign library. The pysvd enumerations are written as their SVD tokens. `generate_cpu`'s name and endianness are the tokens "other" and "little".
- Text.Lower: `str.casefold` is modelled as ASCII lower-casing, and `str.strip` strips only the ASCII characters for which `str.isspace()` holds. Non-ASCII letters and spaces are out of scope.
- SvdGen.DimRegisterContents: `int(genvalidbits/8)` uses float division; it is modelled as `div 8` on naturals. The two agree for every non-negative integer below 2^53.
- SvdIndent.IndentTree: the tree is rebuilt as a new value rather than updated in place. The model therefore has no sharing of elements, and no partially indented tree is visible to anyone else.
- The error messages, `hjson.dumps` in the missing-offset message, and every `log.*` call are left out. Each error is only its `SvdError`/`MergeError` case.
- `load_completecfg_and_ips` (util/topgen/merge.py:613-683): file reading, HJSON parsing, the IP directory search, `validate` and `validate_top`. The validated inputs are parameters.
- hw/dv/tools/gen_ral_pkg.py is not part of this model. It is command-line and file orchestration.
- The `topgen.lib` helpers (`add_prefix_to_signal`, `get_pad_list`, `get_ms_name`, `get_module_by_name`, `get_signal_by_name`) are not part of this model. They are arbitrary functions in `TopTypes.TopLib`. `get_module_by_name` giving None is the error `UnknownModule`, which is also where Python would fail on `None[...]`.
- `deepcopy` is value semantics. Aliasing between the top, the IP and crossbar descriptions and the copies placed in the configuration is not modelled. On a failure the model returns an error; what the configuration holds after a failure is stated only where a contract says so. `TopMerge.TopConfig.AddDevice` claims more than Python does there (below).
- Text.ToInt: `int()` of a string accepts an optionally signed decimal numeral between white space. Underscores, and HJSON `Decimal` values with a fractional part, are not modelled: every number is an integer.
- TopMerge.TopConfig.AmendXbar: the devices of `amend_xbar` come from a Python `set`, whose iteration order is unspecified. The order is a parameter (`order`, an enumeration of the set), and no property depends on a particular order.
- TopMerge.TopConfig.CrossNode: the recursion of `xbar_cross_node` is bounded by a `depth` parameter, and running out is the error `RecursionLimit`, standing for Python's recursion limit. The range contracts hold under an acyclic ranking of the crossbars (`Ranked`). The source promises cycle detection in a comment but never reads `visited`, so no cycle is detected; `visited` is pushed and popped and is restored on success.
- TopMerge.TopConfig.GatherAll: a node read through a connection is filled first and then read. `addr_range` missing on a connected leaf node is the error `MissingKey("addr_range")`.
- TopMerge.TopConfig.Cross: what a crossbar port carries is stated only under the ranking hypothesis. Without one (a cycle in the crossbar graph) only the shape and the leaf ranges are stated.
- TopMerge.TopConfig.CrossAll: under a ranking it states that every device port ends with a range, not which ranges. Each `Cross` states the ranges it writes at the time it writes them. A later `xbar_cross` then rewrites the ports of its own crossbar, which an earlier crossbar's ports may already have read, so the final values are not given by any function the model states. The same holds for `TopMerge.MergeTop`.
- TopMerge.TopConfig.AddDevice: on the two `KeyError` paths that update an existing node (util/topgen/merge.py:256-261 and 294-300), Python has already set the node's `inst_type` when it raises. The model leaves the crossbar unchanged. The error ends `merge_top`, whose working copy is then dropped, so a caller cannot see the difference.
- TopMerge.MergeTop: the contract states the shape of the merged configuration (names kept, lists present, leaf ranges present, debug base removed), not its full contents. The contents of modules and crossbars are stated only step by step, by `TopMerge.TopConfig.AmendIp` and `TopMerge.TopConfig.AmendXbar` for one IP or one crossbar description. No contract of `TopMerge.TopConfig.AmendIps`, `TopMerge.TopConfig.AmendXbars` or `TopMerge.MergeTop` states them for the whole list.
- TopMerge.TopConfig.AmendIps: states that only the modules change and their names are kept. The content of each module is given per IP by TopConfig.AmendIp.
- TopMerge.TopConfig.AmendXbars: states that only the crossbars change and their names are kept. The content of each crossbar is given per description by TopConfig.AmendXbar.
- TopSpec.PinmuxAmended: the pin multiplexer lists are built in local variables and stored once by `TopConfig.AmendPinmuxIo`; the interrupt and alert tables are likewise gathered and then stored. Python appends to the configuration's lists as it goes. The result is the same value, but the intermediate states are not modelled.
- A size given as text compared with an integer `gensize` (util/topgen/merge.py:48) is the error `SizeNotComparable`, as Python 3 raises `TypeError` there.
- HJSON keys that the code never reads are not represented.
