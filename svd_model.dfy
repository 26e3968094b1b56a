/** The data the SVD generator of util/svdgen/lib.py reads (a validated
    top-level configuration and the register description of each IP) and the
    element tree it builds. */
module SvdModel {
  import opened Common
  import opened Text

  // ---------------------------------------------------------------------------
  // Input: register descriptions as the upstream validator leaves them

  /** A bit field: `bitinfo` holds (mask, width, lsb); only width and lsb are read. */
  datatype Field = Field(name: string, desc: string, width: nat, lsb: nat, swaccess: Option<string>)

  /** A register; `genoffset` is its offset within the peripheral. `fields`
      is absent when the description has no "fields" key at all. */
  datatype Register = Register(
    name: string,
    desc: string,
    genoffset: int,
    swaccess: Option<string>,
    genbitsused: Option<int>,
    genresval: Option<int>,
    genresmask: Option<int>,
    fields: Option<seq<Field>>)

  /** A memory window: the window description is itself read as a register
      (`reg`), plus its item count and the valid bits of one item. */
  datatype Window = Window(reg: Register, items: Scalar, genvalidbits: nat)

  /** One entry of a register list, classified by the key that marks it. Every
      form other than a plain register is a wrapping dictionary, which may
      carry a "genoffset" key of its own (`outerOffset`): `read_genoffset`
      looks at that key first, whatever the entry is. */
  datatype Entry =
    | Reserved(outerOffset: Option<int>)
    | Skipto(outerOffset: Option<int>)
    | WindowEntry(outerOffset: Option<int>, window: Window)
    | SameAddr(outerOffset: Option<int>, members: seq<Entry>)
    | MultiregEntry(outerOffset: Option<int>, multi: Multireg)
    | Plain(reg: Register)

  /** A multi-register with its expanded registers `genregs`. */
  datatype Multireg = Multireg(name: string, desc: string, genregs: seq<Entry>)

  /** The register description of one IP block. */
  datatype Ip = Ip(interruptList: Option<seq<string>>, registers: seq<Entry>)

  /** A module instance of the top-level configuration. */
  datatype Module = Module(name: string, mtype: string, baseAddr: Scalar)

  /** The top-level configuration. */
  datatype Top = Top(name: string, datawidth: Scalar, modules: seq<Module>)

  // ---------------------------------------------------------------------------
  // Access modes (the pysvd enumerations, written as their SVD tokens)

  datatype Access = ReadOnly | ReadWrite | WriteOnly
  datatype ReadAction = ClearOnRead
  datatype ModifiedWriteValues = OneToClear | OneToSet | ZeroToClear

  datatype AccessModes = AccessModes(
    access: Option<Access>,
    readAction: Option<ReadAction>,
    modifiedWriteValues: Option<ModifiedWriteValues>)

  function AccessText(a: Access): string {
    match a
    case ReadOnly => "read-only"
    case ReadWrite => "read-write"
    case WriteOnly => "write-only"
  }

  function ReadActionText(r: ReadAction): string {
    "clear"
  }

  function ModifiedWriteValuesText(m: ModifiedWriteValues): string {
    match m
    case OneToClear => "oneToClear"
    case OneToSet => "oneToSet"
    case ZeroToClear => "zeroToClear"
  }

  // ---------------------------------------------------------------------------
  // Errors that stop the conversion

  datatype SvdError =
    | UnrecognizedAccessMode(mode: string)    // a swaccess outside the table
    | MissingOffset                           // read_genoffset finds no genoffset
    | NestedMultireg                          // a cluster asked for at a non-zero base
    | EmptyMultireg                           // min() of no genregs
    | UnresolvedModuleType(moduleType: string)  // ips[module['type']] is missing

  // ---------------------------------------------------------------------------
  // Output: the element tree. A node either carries text or children, never both.

  datatype Node =
    | Leaf(tag: string, text: string)
    | Parent(tag: string, attrs: seq<(string, string)>, children: seq<Node>)
    | Comment(text: string)

  predicate HasTag(n: Node, t: string) {
    !n.Comment? && n.tag == t
  }

  /** The tags of the elements among `ns`, in order (comments have none). */
  function Tags(ns: seq<Node>): (r: seq<string>)
    ensures |r| <= |ns|
  {
    if |ns| == 0 then []
    else (if ns[0].Comment? then [] else [ns[0].tag]) + Tags(ns[1..])
  }

  /** How many of `ns` carry tag `t`. */
  function Count(ns: seq<Node>, t: string): nat {
    if |ns| == 0 then 0
    else (if HasTag(ns[0], t) then 1 else 0) + Count(ns[1..], t)
  }

  /** The first node of `ns` with tag `t`, like ElementTree's `find('./t')`. */
  function FindChild(ns: seq<Node>, t: string): (r: Option<Node>)
    ensures r.Some? ==> r.value in ns && HasTag(r.value, t)
    ensures r.None? <==> Count(ns, t) == 0
  {
    if |ns| == 0 then None
    else if HasTag(ns[0], t) then Some(ns[0])
    else FindChild(ns[1..], t)
  }

  /** The text of the first node with tag `t`, when that node is a leaf. */
  function TextOf(ns: seq<Node>, t: string): Option<string> {
    match FindChild(ns, t)
    case Some(Leaf(_, text)) => Some(text)
    case _ => None
  }

  lemma {:induction false} TagsAppend(a: seq<Node>, b: seq<Node>)
    ensures Tags(a + b) == Tags(a) + Tags(b)
  {
    if |a| > 0 {
      assert (a + b)[1..] == a[1..] + b;
      TagsAppend(a[1..], b);
    } else {
      assert a + b == b;
    }
  }

  lemma {:induction false} CountAppend(a: seq<Node>, b: seq<Node>, t: string)
    ensures Count(a + b, t) == Count(a, t) + Count(b, t)
  {
    if |a| > 0 {
      assert (a + b)[1..] == a[1..] + b;
      CountAppend(a[1..], b, t);
    } else {
      assert a + b == b;
    }
  }

  lemma {:induction false} FindChildAppend(a: seq<Node>, b: seq<Node>, t: string)
    ensures FindChild(a + b, t) == if Count(a, t) > 0 then FindChild(a, t) else FindChild(b, t)
  {
    if |a| > 0 {
      assert (a + b)[1..] == a[1..] + b;
      FindChildAppend(a[1..], b, t);
    } else {
      assert a + b == b;
    }
  }

  /** When `o` is the only node of `ns` that carries tag `t` (or `o` is None
      and no node does), `FindChild` finds exactly `o`. */
  lemma {:induction false} FindUnique(ns: seq<Node>, t: string, o: Option<Node>)
    requires forall n :: n in ns && HasTag(n, t) ==> o == Some(n)
    requires o.Some? ==> o.value in ns && HasTag(o.value, t)
    ensures FindChild(ns, t) == o
  {
    if |ns| > 0 && !HasTag(ns[0], t) {
      assert ns == [ns[0]] + ns[1..];
      FindUnique(ns[1..], t, o);
    }
  }

  /** A tag no node carries is not found. */
  lemma {:induction false} FindAbsent(ns: seq<Node>, t: string)
    requires forall n :: n in ns ==> !HasTag(n, t)
    ensures FindChild(ns, t) == None
  {
    if |ns| > 0 {
      assert ns[0] in ns;
      assert forall n :: n in ns[1..] ==> n in ns;
      FindAbsent(ns[1..], t);
    }
  }

  /** When every node carries tag `t`, all of them count. */
  lemma {:induction false} AllTagged(ns: seq<Node>, t: string)
    requires forall n :: n in ns ==> HasTag(n, t)
    ensures Count(ns, t) == |ns|
  {
    if |ns| > 0 {
      assert ns[0] in ns;
      assert forall n :: n in ns[1..] ==> n in ns;
      AllTagged(ns[1..], t);
    }
  }

  /** The number of occurrences of a tag is read off the tag list. */
  lemma {:induction false} CountFromTags(ns: seq<Node>, t: string)
    ensures Count(ns, t) == Occurrences(Tags(ns), t)
  {
    if |ns| > 0 {
      CountFromTags(ns[1..], t);
      assert Tags(ns) == (if ns[0].Comment? then [] else [ns[0].tag]) + Tags(ns[1..]);
      OccurrencesAppend(if ns[0].Comment? then [] else [ns[0].tag], Tags(ns[1..]), t);
    }
  }

  function Occurrences(s: seq<string>, t: string): nat {
    if |s| == 0 then 0 else (if s[0] == t then 1 else 0) + Occurrences(s[1..], t)
  }

  lemma {:induction false} OccurrencesAppend(a: seq<string>, b: seq<string>, t: string)
    ensures Occurrences(a + b, t) == Occurrences(a, t) + Occurrences(b, t)
  {
    if |a| > 0 {
      assert (a + b)[1..] == a[1..] + b;
      OccurrencesAppend(a[1..], b, t);
    } else {
      assert a + b == b;
    }
  }
}
