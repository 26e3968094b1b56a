/** The conversion of util/svdgen/lib.py from a validated top-level
    configuration and the IP register descriptions to the SVD `<device>`
    element tree. Each Python generator becomes a function returning the
    sequence of elements it yields; every exception it can raise becomes an
    `Err`. */
module SvdGen {
  import opened Common
  import opened Text
  import opened SvdModel

  /** The comment written ahead of the document. */
  const GenHeader: string :=
    "\n  Copyright lowRISC contributors.\n"
    + "  Licensed under the Apache License, Version 2.0, see LICENSE for details.\n"
    + "  SPDX-License-Identifier: Apache-2.0\n\n"
    + "  This file generated from HJSON source by \"svdgen.py\", do not edit.\n"

  // ---------------------------------------------------------------------------
  // Small helpers

  /** `hex_or_none`: None stays None, a number becomes its `hex()` text. */
  function HexOrNone(num: Option<int>): (r: Option<string>)
    ensures r.Some? <==> num.Some?
  {
    match num
    case None => None
    case Some(v) => Some(Hex(v))
  }

  /** Every number written by `hex_or_none` reads back as itself. */
  lemma HexOrNoneRoundTrip(num: Option<int>)
    requires num.Some?
    ensures ParseHex(HexOrNone(num).value) == num
  {
    HexRoundTrip(num.value);
  }

  /** The keyword arguments of `svd_node`, in order: a text element per
      value that is not None. Keywords of one call are distinct. */
  function Texts(kws: seq<(string, Option<string>)>): (r: seq<Node>)
    ensures |r| <= |kws|
    ensures forall n :: n in r ==> n.Leaf?
  {
    if |kws| == 0 then []
    else Kw(kws[0].0, kws[0].1) + Texts(kws[1..])
  }

  function Kw(tag: string, value: Option<string>): seq<Node> {
    if value.Some? then [Leaf(tag, value.value)] else []
  }

  predicate DistinctTags(kws: seq<(string, Option<string>)>) {
    forall i, j :: 0 <= i < j < |kws| ==> kws[i].0 != kws[j].0
  }

  predicate NoTag(kws: seq<(string, Option<string>)>, t: string) {
    forall j :: 0 <= j < |kws| ==> kws[j].0 != t
  }

  /** `svd_node`: an element named `tag` whose children are the text
      elements of its keywords. */
  function SvdNode(tag: string, kws: seq<(string, Option<string>)>): Node {
    Parent(tag, [], Texts(kws))
  }

  /** `extend_node`: appends elements to an element. */
  function ExtendNode(element: Node, elements: seq<Node>): (r: Node)
    requires element.Parent?
    ensures r.Parent? && r.tag == element.tag && r.attrs == element.attrs
    ensures r.children == element.children + elements
  {
    element.(children := element.children + elements)
  }

  function MapOption<A, B>(o: Option<A>, f: A -> B): (r: Option<B>)
    ensures r.Some? <==> o.Some?
  {
    if o.Some? then Some(f(o.value)) else None
  }

  lemma FindChildKw(tag: string, value: Option<string>, rest: seq<Node>, t: string)
    ensures FindChild(Kw(tag, value) + rest, t) ==
      if tag == t && value.Some? then Some(Leaf(tag, value.value)) else FindChild(rest, t)
  {
    if value.None? {
      assert Kw(tag, value) + rest == rest;
    } else {
      assert (Kw(tag, value) + rest)[1..] == rest;
    }
  }

  /** A tag no keyword carries is looked up past the text elements. */
  lemma {:induction false} FindPastTexts(kws: seq<(string, Option<string>)>, rest: seq<Node>, t: string)
    requires NoTag(kws, t)
    ensures FindChild(Texts(kws) + rest, t) == FindChild(rest, t)
  {
    if |kws| == 0 {
      assert Texts(kws) + rest == rest;
    } else {
      assert Texts(kws) + rest == Kw(kws[0].0, kws[0].1) + (Texts(kws[1..]) + rest);
      FindChildKw(kws[0].0, kws[0].1, Texts(kws[1..]) + rest, t);
      FindPastTexts(kws[1..], rest, t);
    }
  }

  /** Reading a keyword's element back yields the keyword's value: its text,
      or nothing when the value was None (and nothing later carries the tag). */
  lemma {:induction false} TextOfTexts(kws: seq<(string, Option<string>)>, rest: seq<Node>, i: nat)
    requires i < |kws| && DistinctTags(kws)
    requires FindChild(rest, kws[i].0) == None
    ensures TextOf(Texts(kws) + rest, kws[i].0) == kws[i].1
  {
    var t := kws[i].0;
    assert Texts(kws) + rest == Kw(kws[0].0, kws[0].1) + (Texts(kws[1..]) + rest);
    FindChildKw(kws[0].0, kws[0].1, Texts(kws[1..]) + rest, t);
    if i == 0 {
      FindPastTexts(kws[1..], rest, t);
    } else {
      TextOfTexts(kws[1..], rest, i - 1);
    }
  }

  /** When every keyword has a value there is one text element per keyword. */
  lemma {:induction false} TextsAllPresent(kws: seq<(string, Option<string>)>)
    requires forall j :: 0 <= j < |kws| ==> kws[j].1.Some?
    ensures |Texts(kws)| == |kws|
    ensures forall j :: 0 <= j < |kws| ==> Texts(kws)[j] == Leaf(kws[j].0, kws[j].1.value)
  {
    if |kws| > 0 {
      TextsAllPresent(kws[1..]);
    }
  }

  /** How many keywords carry a value. */
  function CountPresent(kws: seq<(string, Option<string>)>): nat {
    if |kws| == 0 then 0 else (if kws[0].1.Some? then 1 else 0) + CountPresent(kws[1..])
  }

  /** `svd_node` writes one text element per keyword whose value is not
      None: keyword `i` gives the element at the position that counts the
      keywords with a value ahead of it, holding its tag and value. */
  lemma {:induction false} TextsOrder(kws: seq<(string, Option<string>)>)
    ensures |Texts(kws)| == CountPresent(kws)
    ensures forall i :: 0 <= i < |kws| && kws[i].1.Some? ==>
      CountPresent(kws[..i]) < |Texts(kws)| && Texts(kws)[CountPresent(kws[..i])] == Leaf(kws[i].0, kws[i].1.value)
  {
    if |kws| > 0 {
      var rest := kws[1..];
      TextsOrder(rest);
      assert Texts(kws) == Kw(kws[0].0, kws[0].1) + Texts(rest);
      forall i | 0 <= i < |kws| && kws[i].1.Some?
        ensures CountPresent(kws[..i]) < |Texts(kws)|
        ensures Texts(kws)[CountPresent(kws[..i])] == Leaf(kws[i].0, kws[i].1.value)
      {
        if i > 0 {
          assert kws[..i][1..] == rest[..i - 1];
          assert kws[i] == rest[i - 1];
        }
      }
    }
  }

  /** The elements come in keyword order: an earlier keyword with a value
      lands before a later one. */
  lemma {:induction false} TextsInKeywordOrder(kws: seq<(string, Option<string>)>, i: nat, j: nat)
    requires i < j <= |kws| && kws[i].1.Some?
    ensures CountPresent(kws[..i]) < CountPresent(kws[..j])
  {
    if i == 0 {
      assert kws[..j][0] == kws[0];
    } else {
      assert kws[..i][1..] == kws[1..][..i - 1];
      assert kws[..j][1..] == kws[1..][..j - 1];
      TextsInKeywordOrder(kws[1..], i - 1, j - 1);
    }
  }

  // ---------------------------------------------------------------------------
  // Access modes

  const KnownAccessModes: set<Option<string>> :=
    {None, Some("ro"), Some("rc"), Some("rw"), Some("r0w1c"), Some("rw1s"), Some("rw1c"), Some("rw0c"), Some("wo")}

  /** `sw_access_modes`: the SVD (access, readAction, modifiedWriteValues) of
      an OpenTitan `swaccess`. Each column of the table is characterised on
      its own below; any label outside the table is a lookup error. */
  function SwAccessModes(swaccess: Option<string>): (r: Result<AccessModes, SvdError>)
    ensures r.Ok? <==> swaccess in KnownAccessModes
    ensures r.Err? ==> swaccess.Some? && r.error == UnrecognizedAccessMode(swaccess.value)
  {
    match swaccess
    case None => Ok(AccessModes(None, None, None))
    case Some(mode) =>
      if mode == "ro" then Ok(AccessModes(Some(ReadOnly), None, None))
      else if mode == "rc" then Ok(AccessModes(Some(ReadOnly), Some(ClearOnRead), None))
      else if mode == "rw" then Ok(AccessModes(Some(ReadWrite), None, None))
      else if mode == "r0w1c" then Ok(AccessModes(Some(WriteOnly), None, Some(OneToClear)))
      else if mode == "rw1s" then Ok(AccessModes(Some(ReadWrite), None, Some(OneToSet)))
      else if mode == "rw1c" then Ok(AccessModes(Some(ReadWrite), None, Some(OneToClear)))
      else if mode == "rw0c" then Ok(AccessModes(Some(ReadWrite), None, Some(ZeroToClear)))
      else if mode == "wo" then Ok(AccessModes(Some(WriteOnly), None, None))
      else Err(UnrecognizedAccessMode(mode))
  }

  /** The access table column by column: which labels are read-only,
      write-only or read-write, which clear on read, and which modify written
      values in which way. */
  lemma AccessModeColumns(swaccess: Option<string>)
    requires swaccess in KnownAccessModes
    ensures var m := SwAccessModes(swaccess).value;
      && (m.access.None? <==> swaccess.None?)
      && (m.access == Some(ReadOnly) <==> swaccess in {Some("ro"), Some("rc")})
      && (m.access == Some(WriteOnly) <==> swaccess in {Some("r0w1c"), Some("wo")})
      && (m.access == Some(ReadWrite) <==> swaccess in {Some("rw"), Some("rw1s"), Some("rw1c"), Some("rw0c")})
      && (m.readAction.Some? <==> swaccess == Some("rc"))
      && (m.modifiedWriteValues == Some(OneToClear) <==> swaccess in {Some("r0w1c"), Some("rw1c")})
      && (m.modifiedWriteValues == Some(OneToSet) <==> swaccess == Some("rw1s"))
      && (m.modifiedWriteValues == Some(ZeroToClear) <==> swaccess == Some("rw0c"))
  {
  }

  // ---------------------------------------------------------------------------
  // Bit ranges

  /** `generate_bitrange`: "[msb:lsb]" with msb = lsb + width - 1. */
  function BitRange(width: nat, lsb: nat): string {
    "[" + (Decimal(lsb + width - 1) + ":" + Decimal(lsb)) + "]"
  }

  /** The two sides of the first colon of a "[...]" text. */
  function Halves(s: string): Option<(string, string)> {
    if |s| < 2 || s[0] != '[' || s[|s| - 1] != ']' then None
    else
      var inner := s[1..|s| - 1];
      if ':' !in inner then None
      else
        var colon := CharIndex(inner, ':');
        Some((inner[..colon], inner[colon + 1..]))
  }

  /** Reads a "[msb:lsb]" text back. */
  function ParseBitRange(s: string): Option<(int, int)> {
    match Halves(s)
    case None => None
    case Some((hi, lo)) =>
      match (ToInt(Str(hi)), ToInt(Str(lo)))
      case (Some(msb), Some(lsb)) => Some((msb, lsb))
      case _ => None
  }

  lemma DecimalHasNoColon(n: int, k: nat)
    requires k < |Decimal(n)|
    ensures Decimal(n)[k] != ':'
  {
    var m: nat := if n < 0 then -n else n;
    if n < 0 {
      assert Decimal(n) == "-" + NatDigits(m, 10);
      if k > 0 {
        NatDigitsAreDigits(m, 10, k - 1);
      }
    } else {
      NatDigitsAreDigits(m, 10, k);
    }
  }

  /** Inside the brackets of "[x]" is x. */
  lemma Unbracket(x: string)
    ensures var s := "[" + x + "]"; |s| == |x| + 2 && s[0] == '[' && s[|s| - 1] == ']' && s[1..|s| - 1] == x
  {
    var s := "[" + x + "]";
    forall k | 0 <= k < |x|
      ensures s[1..|s| - 1][k] == x[k]
    {
      assert s[1 + k] == x[k];
    }
  }

  /** A "[hi:lo]" text splits at its first colon when `hi` has none. */
  lemma HalvesOf(hi: string, lo: string)
    requires forall k :: 0 <= k < |hi| ==> hi[k] != ':'
    ensures Halves("[" + (hi + ":" + lo) + "]") == Some((hi, lo))
  {
    var inner := hi + ":" + lo;
    Unbracket(inner);
    assert inner[|hi|] == ':';
    assert inner[..|hi|] == hi;
    assert inner[|hi| + 1..] == lo;
  }

  /** A text whose halves read as numbers reads as that bit range. */
  lemma ParseBitRangeOfHalves(s: string, hi: string, lo: string, msb: int, lsb: int)
    requires Halves(s) == Some((hi, lo))
    requires ToInt(Str(hi)) == Some(msb) && ToInt(Str(lo)) == Some(lsb)
    ensures ParseBitRange(s) == Some((msb, lsb))
  {
  }

  /** The bit range text determines the field's msb and lsb, hence its width. */
  lemma BitRangeRoundTrip(width: nat, lsb: nat)
    ensures ParseBitRange(BitRange(width, lsb)) == Some((lsb + width - 1, lsb))
  {
    var msb := lsb + width - 1;
    var hi, lo := Decimal(msb), Decimal(lsb);
    forall k | 0 <= k < |hi|
      ensures hi[k] != ':'
    {
      DecimalHasNoColon(msb, k);
    }
    var text := "[" + (hi + ":" + lo) + "]";
    HalvesOf(hi, lo);
    IntOfDecimal(msb);
    IntOfDecimal(lsb);
    ParseBitRangeOfHalves(text, hi, lo, msb, lsb);
    assert BitRange(width, lsb) == text;
  }

  lemma BitRangeExample()
    ensures BitRange(4, 8) == "[11:8]"
  {
    assert NatDigits(11, 10) == NatDigits(1, 10) + [DigitChar(1)];
  }

  // ---------------------------------------------------------------------------
  // Fields and registers

  function FieldKws(bits: Field, modes: AccessModes): seq<(string, Option<string>)> {
    [("name", Some(bits.name)),
     ("description", Some(bits.desc)),
     ("bitRange", Some(BitRange(bits.width, bits.lsb))),
     ("access", MapOption(modes.access, AccessText)),
     ("readAction", MapOption(modes.readAction, ReadActionText)),
     ("modifiedWriteValues", MapOption(modes.modifiedWriteValues, ModifiedWriteValuesText))]
  }

  /** `generate_field`: a `<field>` element for one register field. */
  function GenerateField(bits: Field): (r: Result<Node, SvdError>)
    ensures r.Ok? <==> bits.swaccess in KnownAccessModes
    ensures r.Err? ==> r.error == UnrecognizedAccessMode(bits.swaccess.value)
    ensures r.Ok? ==> HasTag(r.value, "field")
  {
    var modes :- SwAccessModes(bits.swaccess);
    Ok(SvdNode("field", FieldKws(bits, modes)))
  }

  /** The field element names the field, marks its bit range and states its
      access exactly as the access table does. */
  lemma FieldContents(bits: Field)
    requires GenerateField(bits).Ok?
    ensures var ch := GenerateField(bits).value.children;
      var modes := SwAccessModes(bits.swaccess).value;
      && TextOf(ch, "name") == Some(bits.name)
      && TextOf(ch, "description") == Some(bits.desc)
      && TextOf(ch, "bitRange") == Some(BitRange(bits.width, bits.lsb))
      && TextOf(ch, "access") == MapOption(modes.access, AccessText)
      && TextOf(ch, "readAction") == MapOption(modes.readAction, ReadActionText)
      && TextOf(ch, "modifiedWriteValues") == MapOption(modes.modifiedWriteValues, ModifiedWriteValuesText)
  {
    var kws := FieldKws(bits, SwAccessModes(bits.swaccess).value);
    var ch := GenerateField(bits).value.children;
    assert DistinctTags(kws);
    assert ch == Texts(kws) + [];
    TextOfTexts(kws, [], 0);
    TextOfTexts(kws, [], 1);
    TextOfTexts(kws, [], 2);
    TextOfTexts(kws, [], 3);
    TextOfTexts(kws, [], 4);
    TextOfTexts(kws, [], 5);
  }

  /** `map(generate_field, fields)`: one element per field, in order; the
      first field with an unknown access stops the conversion. */
  function GenerateFields(fields: seq<Field>): (r: Result<seq<Node>, SvdError>)
    ensures r.Ok? <==> forall i :: 0 <= i < |fields| ==> fields[i].swaccess in KnownAccessModes
    ensures r.Ok? ==> |r.value| == |fields|
    ensures r.Ok? ==> forall i :: 0 <= i < |fields| ==> r.value[i] == GenerateField(fields[i]).value
  {
    if |fields| == 0 then Ok([])
    else
      var first :- GenerateField(fields[0]);
      var rest :- GenerateFields(fields[1..]);
      Ok([first] + rest)
  }

  /** The flattening rule: exactly one field, named as the register up to
      case, starting at bit 0. */
  predicate Flattens(reg: Register) {
    && reg.fields.Some?
    && |reg.fields.value| == 1
    && CaseEqual(reg.fields.value[0].name, reg.name)
    && reg.fields.value[0].lsb == 0
  }

  /** The `size` of a flattened register: its one field's width. */
  function FlatSize(reg: Register): (r: Option<nat>)
    ensures r.Some? <==> Flattens(reg)
  {
    if Flattens(reg) then Some(reg.fields.value[0].width) else None
  }

  /** `generate_all_fields`: one `<fields>` element unless flattened or fieldless. */
  function GenerateAllFields(flatten: bool, fields: Option<seq<Field>>): (r: Result<seq<Node>, SvdError>)
    ensures r.Ok? <==> flatten || fields.None? || GenerateFields(fields.value).Ok?
    ensures r.Ok? ==> |r.value| == (if !flatten && fields.Some? then 1 else 0)
    ensures r.Ok? && |r.value| == 1 ==>
      fields.Some? && GenerateFields(fields.value).Ok? &&
      r.value[0] == Parent("fields", [], GenerateFields(fields.value).value)
    ensures r.Ok? ==> forall n :: n in r.value ==> HasTag(n, "fields")
  {
    if !flatten && fields.Some? then
      var fs :- GenerateFields(fields.value);
      Ok([ExtendNode(SvdNode("fields", []), fs)])
    else Ok([])
  }

  function RegisterKws(reg: Register, base: int, modes: AccessModes): seq<(string, Option<string>)> {
    [("name", Some(reg.name)),
     ("description", Some(reg.desc)),
     ("addressOffset", HexOrNone(Some(reg.genoffset - base))),
     ("size", MapOption(FlatSize(reg), Decimal)),
     ("mask", HexOrNone(reg.genbitsused)),
     ("resetValue", HexOrNone(reg.genresval)),
     ("resetMask", HexOrNone(reg.genresmask)),
     ("access", MapOption(modes.access, AccessText)),
     ("readAction", MapOption(modes.readAction, ReadActionText)),
     ("modifiedWriteValues", MapOption(modes.modifiedWriteValues, ModifiedWriteValuesText))]
  }

  /** `generate_register`: the register's access is looked up first, then its
      fields are converted in order. A flattened register's one field is
      never converted, so its access is never looked up. */
  function GenerateRegister(reg: Register, base: int): (r: Result<Node, SvdError>)
    ensures r.Ok? <==>
      && reg.swaccess in KnownAccessModes
      && (Flattens(reg) || reg.fields.None?
          || forall i :: 0 <= i < |reg.fields.value| ==> reg.fields.value[i].swaccess in KnownAccessModes)
    ensures reg.swaccess !in KnownAccessModes ==> r == Err(UnrecognizedAccessMode(reg.swaccess.value))
    ensures r.Ok? ==> HasTag(r.value, "register") && r.value.Parent? && r.value.attrs == []
  {
    var modes :- SwAccessModes(reg.swaccess);
    var fields :- GenerateAllFields(Flattens(reg), reg.fields);
    Ok(ExtendNode(SvdNode("register", RegisterKws(reg, base, modes)), fields))
  }

  lemma RegisterKwsDistinct(reg: Register, base: int, modes: AccessModes)
    ensures DistinctTags(RegisterKws(reg, base, modes))
  {
  }

  lemma RegisterKwsShape(reg: Register, base: int, modes: AccessModes)
    ensures var kws := RegisterKws(reg, base, modes);
      && DistinctTags(kws) && |kws| == 10
      && kws[0] == ("name", Some(reg.name))
      && kws[2] == ("addressOffset", Some(Hex(reg.genoffset - base)))
      && NoTag(kws, "dim") && NoTag(kws, "dimIncrement") && NoTag(kws, "fields")
  {
    RegisterKwsDistinct(reg, base, modes);
  }

  /** A keyword's text read back past the register's `<fields>` element. */
  lemma TextBeforeFields(kws: seq<(string, Option<string>)>, fields: seq<Node>, i: nat)
    requires i < |kws| && DistinctTags(kws) && kws[i].0 != "fields"
    requires forall n :: n in fields ==> HasTag(n, "fields")
    ensures TextOf(Texts(kws) + fields, kws[i].0) == kws[i].1
  {
    FindAbsent(fields, kws[i].0);
    TextOfTexts(kws, fields, i);
  }

  lemma RegisterKwsTexts(reg: Register, base: int, modes: AccessModes, fields: seq<Node>)
    requires forall n :: n in fields ==> HasTag(n, "fields")
    ensures var ch := Texts(RegisterKws(reg, base, modes)) + fields;
      && TextOf(ch, "name") == Some(reg.name)
      && TextOf(ch, "description") == Some(reg.desc)
      && TextOf(ch, "addressOffset") == Some(Hex(reg.genoffset - base))
      && TextOf(ch, "size") == MapOption(FlatSize(reg), Decimal)
  {
    var kws := RegisterKws(reg, base, modes);
    RegisterKwsDistinct(reg, base, modes);
    TextBeforeFields(kws, fields, 0);
    TextBeforeFields(kws, fields, 1);
    var offset := reg.genoffset - base;
    assert kws[2] == ("addressOffset", HexOrNone(Some(offset)));
    assert HexOrNone(Some(offset)) == Some(Hex(offset));
    TextBeforeFields(kws, fields, 2);
    TextBeforeFields(kws, fields, 3);
    var ch := Texts(kws) + fields;
    assert TextOf(ch, "name") == Some(reg.name);
    assert TextOf(ch, "description") == Some(reg.desc);
    assert TextOf(ch, "addressOffset") == Some(Hex(reg.genoffset - base));
    assert TextOf(ch, "size") == MapOption(FlatSize(reg), Decimal);
  }

  lemma RegisterKwsOptionalTexts(reg: Register, base: int, modes: AccessModes, fields: seq<Node>)
    requires forall n :: n in fields ==> HasTag(n, "fields")
    ensures var ch := Texts(RegisterKws(reg, base, modes)) + fields;
      && TextOf(ch, "mask") == HexOrNone(reg.genbitsused)
      && TextOf(ch, "resetValue") == HexOrNone(reg.genresval)
      && TextOf(ch, "resetMask") == HexOrNone(reg.genresmask)
      && TextOf(ch, "access") == MapOption(modes.access, AccessText)
      && TextOf(ch, "readAction") == MapOption(modes.readAction, ReadActionText)
      && TextOf(ch, "modifiedWriteValues") == MapOption(modes.modifiedWriteValues, ModifiedWriteValuesText)
  {
    var kws := RegisterKws(reg, base, modes);
    RegisterKwsDistinct(reg, base, modes);
    TextBeforeFields(kws, fields, 8);
    TextBeforeFields(kws, fields, 9);
    TextBeforeFields(kws, fields, 4);
    TextBeforeFields(kws, fields, 5);
    TextBeforeFields(kws, fields, 6);
    TextBeforeFields(kws, fields, 7);
    var ch := Texts(kws) + fields;
    assert TextOf(ch, "mask") == HexOrNone(reg.genbitsused);
    assert TextOf(ch, "resetValue") == HexOrNone(reg.genresval);
    assert TextOf(ch, "resetMask") == HexOrNone(reg.genresmask);
    assert TextOf(ch, "access") == MapOption(modes.access, AccessText);
    assert TextOf(ch, "readAction") == MapOption(modes.readAction, ReadActionText);
    assert TextOf(ch, "modifiedWriteValues") == MapOption(modes.modifiedWriteValues, ModifiedWriteValuesText);
  }

  /** A register element names the register, gives its offset relative to
      `base`, carries its size exactly when it is flattened, each optional
      mask exactly when the description gives it, and its access, read
      action and modified-write values as the access table states them. The
      text elements come first, in the keyword order of `RegisterKws` (see
      `TextsOrder`). */
  lemma RegisterTexts(reg: Register, base: int)
    requires GenerateRegister(reg, base).Ok?
    ensures var ch := GenerateRegister(reg, base).value.children;
      var modes := SwAccessModes(reg.swaccess).value;
      && TextOf(ch, "name") == Some(reg.name)
      && TextOf(ch, "description") == Some(reg.desc)
      && TextOf(ch, "addressOffset") == Some(Hex(reg.genoffset - base))
      && TextOf(ch, "size") == MapOption(FlatSize(reg), Decimal)
      && TextOf(ch, "mask") == HexOrNone(reg.genbitsused)
      && TextOf(ch, "resetValue") == HexOrNone(reg.genresval)
      && TextOf(ch, "resetMask") == HexOrNone(reg.genresmask)
      && TextOf(ch, "access") == MapOption(modes.access, AccessText)
      && TextOf(ch, "readAction") == MapOption(modes.readAction, ReadActionText)
      && TextOf(ch, "modifiedWriteValues") == MapOption(modes.modifiedWriteValues, ModifiedWriteValuesText)
      && ch[..|Texts(RegisterKws(reg, base, modes))|] == Texts(RegisterKws(reg, base, modes))
  {
    var modes := SwAccessModes(reg.swaccess).value;
    var fs := GenerateAllFields(Flattens(reg), reg.fields).value;
    RegisterKwsTexts(reg, base, modes, fs);
    RegisterKwsOptionalTexts(reg, base, modes, fs);
  }

  /** Text elements followed by at most one `<fields>` element. */
  lemma TextsThenFields(kws: seq<(string, Option<string>)>, fs: seq<Node>)
    requires NoTag(kws, "fields")
    requires |fs| <= 1 && forall n :: n in fs ==> HasTag(n, "fields")
    ensures var ch := Texts(kws) + fs;
      && FindChild(ch, "fields") == (if |fs| == 1 then Some(ch[|ch| - 1]) else None)
      && (forall k :: 0 <= k < |ch| ==> ch[k].Leaf? || (k == |ch| - 1 && HasTag(ch[k], "fields")))
  {
    var ch := Texts(kws) + fs;
    FindPastTexts(kws, fs, "fields");
    forall k | 0 <= k < |ch|
      ensures ch[k].Leaf? || (k == |ch| - 1 && HasTag(ch[k], "fields"))
    {
      if k < |Texts(kws)| {
        assert ch[k] == Texts(kws)[k];
        assert Texts(kws)[k] in Texts(kws);
      } else {
        assert ch[k] == fs[k - |Texts(kws)|];
        assert ch[k] in fs;
      }
    }
  }

  /** A register element holds a `<fields>` element exactly when it is neither
      flattened nor fieldless; that element comes last, after every text
      element, and holds one field element per field, in order. */
  lemma RegisterFields(reg: Register, base: int)
    requires GenerateRegister(reg, base).Ok?
    ensures var ch := GenerateRegister(reg, base).value.children;
      && (FindChild(ch, "fields").Some? <==> !Flattens(reg) && reg.fields.Some?)
      && (FindChild(ch, "fields").Some? ==>
            && FindChild(ch, "fields") == Some(ch[|ch| - 1])
            && ch[|ch| - 1] == Parent("fields", [], GenerateFields(reg.fields.value).value))
      && (forall k :: 0 <= k < |ch| ==> ch[k].Leaf? || (k == |ch| - 1 && HasTag(ch[k], "fields")))
  {
    var kws := RegisterKws(reg, base, SwAccessModes(reg.swaccess).value);
    var fs := GenerateAllFields(Flattens(reg), reg.fields).value;
    assert GenerateRegister(reg, base).value.children == Texts(kws) + fs;
    RegisterKwsShape(reg, base, SwAccessModes(reg.swaccess).value);
    TextsThenFields(kws, fs);
  }

  // ---------------------------------------------------------------------------
  // Windows

  /** The `.text += '%s'` step: the placeholder is appended unless the name
      already holds one. */
  function AddPlaceholder(name: string): (r: string)
    ensures Text.Find(r, "%s") >= 0
    ensures Text.Find(name, "%s") >= 0 ==> r == name
    ensures r == name || r == name + "%s"
  {
    if Text.Find(name, "%s") < 0 then
      var r := name + "%s";
      assert r[|name|..|name| + 2] == "%s";
      assert OccursAt(r, "%s", |name|);
      r
    else name
  }

  /** Applies `AddPlaceholder` to the first `<name>` element of `ns`. */
  function PlaceholderName(ns: seq<Node>): (r: seq<Node>)
    ensures |r| == |ns|
  {
    if |ns| == 0 then []
    else if HasTag(ns[0], "name") then
      (if ns[0].Leaf? then [Leaf("name", AddPlaceholder(ns[0].text))] else [ns[0]]) + ns[1..]
    else [ns[0]] + PlaceholderName(ns[1..])
  }

  function DimKws(window: Window): seq<(string, Option<string>)> {
    [("dim", Some(ToStr(window.items))),
     ("dimIncrement", HexOrNone(Some(window.genvalidbits / 8)))]
  }

  /** `generate_dim_register`: the window read as a register, followed by its
      item count and the byte stride of one item, and named with the "%s"
      placeholder. The register's name element always exists, so the
      placeholder step always finds it. */
  function GenerateDimRegister(window: Window, base: int): (r: Result<Node, SvdError>)
    ensures r.Ok? <==> GenerateRegister(window.reg, base).Ok?
    ensures r.Err? ==> r == GenerateRegister(window.reg, base)
    ensures r.Ok? ==> r.value.Parent? && HasTag(r.value, "register")
  {
    var reg :- GenerateRegister(window.reg, base);
    var dimmed := ExtendNode(reg, Texts(DimKws(window)));
    Ok(dimmed.(children := PlaceholderName(dimmed.children)))
  }

  /** The placeholder step on an element whose first child is its name:
      the name keyword's value gains the placeholder. */
  lemma PlaceholderAfterName(name: string, kws: seq<(string, Option<string>)>, rest: seq<Node>)
    requires |kws| > 0 && kws[0] == ("name", Some(name))
    ensures PlaceholderName(Texts(kws) + rest) ==
      Texts(kws[0 := ("name", Some(AddPlaceholder(name)))]) + rest
  {
    var named := kws[0 := ("name", Some(AddPlaceholder(name)))];
    var tail := Texts(kws[1..]) + rest;
    assert named[1..] == kws[1..];
    assert Texts(kws) == [Leaf("name", name)] + Texts(kws[1..]);
    assert Texts(named) == [Leaf("name", AddPlaceholder(name))] + Texts(kws[1..]);
    assert Texts(kws) + rest == [Leaf("name", name)] + tail;
    assert Texts(named) + rest == [Leaf("name", AddPlaceholder(name))] + tail;
    PlaceholderNameFirst(name, tail);
  }

  /** A leading `<name>` element is the one that gains the placeholder. */
  lemma PlaceholderNameFirst(name: string, ns: seq<Node>)
    ensures PlaceholderName([Leaf("name", name)] + ns) == [Leaf("name", AddPlaceholder(name))] + ns
  {
    var all := [Leaf("name", name)] + ns;
    assert all[0] == Leaf("name", name) && all[1..] == ns;
  }

  /** The keywords of a window register: those of the plain register, with
      the placeholder in the name. */
  function DimRegisterKws(window: Window, base: int): seq<(string, Option<string>)>
    requires SwAccessModes(window.reg.swaccess).Ok?
  {
    var kws := RegisterKws(window.reg, base, SwAccessModes(window.reg.swaccess).value);
    kws[0 := ("name", Some(AddPlaceholder(window.reg.name)))]
  }

  /** The children of a window register, piece by piece. */
  lemma DimChildren(window: Window, base: int)
    requires GenerateDimRegister(window, base).Ok?
    ensures var reg := window.reg;
      var fs := GenerateAllFields(Flattens(reg), reg.fields).value;
      GenerateDimRegister(window, base).value.children ==
        Texts(DimRegisterKws(window, base)) + (fs + Texts(DimKws(window)))
  {
    var reg := window.reg;
    var kws := RegisterKws(reg, base, SwAccessModes(reg.swaccess).value);
    var fs := GenerateAllFields(Flattens(reg), reg.fields).value;
    var dims := Texts(DimKws(window));
    assert GenerateDimRegister(window, base).value.children == PlaceholderName(Texts(kws) + fs + dims);
    assert Texts(kws) + fs + dims == Texts(kws) + (fs + dims);
    PlaceholderAfterName(reg.name, kws, fs + dims);
  }

  lemma DimRegisterKwsShape(window: Window, base: int)
    requires SwAccessModes(window.reg.swaccess).Ok?
    ensures var kws := DimRegisterKws(window, base);
      && DistinctTags(kws) && |kws| == 10
      && kws[0] == ("name", Some(AddPlaceholder(window.reg.name)))
      && kws[2] == ("addressOffset", Some(Hex(window.reg.genoffset - base)))
      && NoTag(kws, "dim") && NoTag(kws, "dimIncrement")
  {
    var kws := RegisterKws(window.reg, base, SwAccessModes(window.reg.swaccess).value);
    RegisterKwsShape(window.reg, base, SwAccessModes(window.reg.swaccess).value);
    var named := DimRegisterKws(window, base);
    assert forall j :: 0 <= j < |named| ==> named[j].0 == kws[j].0;
  }

  /** What follows the text elements of a window register: its fields
      element, then the item count and stride. */
  lemma DimTail(fs: seq<Node>, window: Window, t: string)
    requires forall n :: n in fs ==> HasTag(n, "fields")
    requires t != "fields"
    ensures FindChild(fs + Texts(DimKws(window)), t) ==
      if t == "dim" then Some(Leaf("dim", ToStr(window.items)))
      else if t == "dimIncrement" then Some(Leaf("dimIncrement", Hex(window.genvalidbits / 8)))
      else None
  {
    var dims := Texts(DimKws(window));
    TextsAllPresent(DimKws(window));
    assert dims == [Leaf("dim", ToStr(window.items)), Leaf("dimIncrement", Hex(window.genvalidbits / 8))];
    assert dims[1..] == [Leaf("dimIncrement", Hex(window.genvalidbits / 8))];
    FindChildAppend(fs, dims, t);
  }

  /** Lookups in the children of a window register, over any keywords. */
  lemma DimLookups(kws: seq<(string, Option<string>)>, fs: seq<Node>, window: Window)
    requires DistinctTags(kws) && |kws| > 2
    requires kws[0].0 == "name" && kws[2].0 == "addressOffset"
    requires NoTag(kws, "dim") && NoTag(kws, "dimIncrement")
    requires forall n :: n in fs ==> HasTag(n, "fields")
    ensures var ch := Texts(kws) + (fs + Texts(DimKws(window)));
      && TextOf(ch, "name") == kws[0].1
      && TextOf(ch, "addressOffset") == kws[2].1
      && TextOf(ch, "dim") == Some(ToStr(window.items))
      && TextOf(ch, "dimIncrement") == Some(Hex(window.genvalidbits / 8))
  {
    var rest := fs + Texts(DimKws(window));
    DimTail(fs, window, "name");
    TextOfTexts(kws, rest, 0);
    DimTail(fs, window, "addressOffset");
    TextOfTexts(kws, rest, 2);
    DimTail(fs, window, "dim");
    FindPastTexts(kws, rest, "dim");
    DimTail(fs, window, "dimIncrement");
    FindPastTexts(kws, rest, "dimIncrement");
  }

  /** The window register is the plain register with the placeholder in its
      name and the item count and stride appended after everything else. */
  lemma DimRegisterContents(window: Window, base: int)
    requires GenerateDimRegister(window, base).Ok?
    ensures var ch := GenerateDimRegister(window, base).value.children;
      && TextOf(ch, "name") == Some(AddPlaceholder(window.reg.name))
      && TextOf(ch, "addressOffset") == Some(Hex(window.reg.genoffset - base))
      && TextOf(ch, "dim") == Some(ToStr(window.items))
      && TextOf(ch, "dimIncrement") == Some(Hex(window.genvalidbits / 8))
  {
    var reg := window.reg;
    DimChildren(window, base);
    DimRegisterKwsShape(window, base);
    DimLookups(DimRegisterKws(window, base), GenerateAllFields(Flattens(reg), reg.fields).value, window);
  }

  // ---------------------------------------------------------------------------
  // Register lists and clusters

  /** The entry's own "genoffset" key: a plain register always has one, a
      wrapping dictionary only when it carries the key itself. */
  function OwnOffset(e: Entry): Option<int> {
    if e.Plain? then Some(e.reg.genoffset) else e.outerOffset
  }

  /** `read_genoffset`: the entry's own offset, else a window's inner
      offset; any other entry without one stops the conversion. */
  function ReadGenoffset(e: Entry): (r: Result<int, SvdError>)
    ensures r.Err? <==> OwnOffset(e).None? && !e.WindowEntry?
    ensures r.Err? ==> r.error == MissingOffset
    ensures OwnOffset(e).Some? ==> r == Ok(OwnOffset(e).value)
    ensures OwnOffset(e).None? && e.WindowEntry? ==> r == Ok(e.window.reg.genoffset)
  {
    if OwnOffset(e).Some? then Ok(OwnOffset(e).value)
    else if e.WindowEntry? then Ok(e.window.reg.genoffset)
    else Err(MissingOffset)
  }

  /** `min(map(read_genoffset, genregs))`: the offsets are read in order, so
      the first entry without one stops the conversion; `min` of nothing is
      an error too. */
  function MinOffset(es: seq<Entry>): (r: Result<int, SvdError>)
    ensures r.Ok? <==> |es| > 0 && forall i :: 0 <= i < |es| ==> ReadGenoffset(es[i]).Ok?
    ensures |es| == 0 ==> r == Err(EmptyMultireg)
    ensures |es| > 0 && r.Err? ==> r.error == MissingOffset
    ensures r.Ok? ==> forall i :: 0 <= i < |es| ==> r.value <= ReadGenoffset(es[i]).value
    ensures r.Ok? ==> exists i :: 0 <= i < |es| && r.value == ReadGenoffset(es[i]).value
  {
    if |es| == 0 then Err(EmptyMultireg)
    else
      var first :- ReadGenoffset(es[0]);
      if |es| == 1 then Ok(first)
      else
        var rest :- MinOffset(es[1..]);
        var m := if first <= rest then first else rest;
        assert forall i :: 1 <= i < |es| ==> es[i] == es[1..][i - 1];
        Ok(m)
  }

  /** An element emitted for a register entry: a register or a cluster. */
  predicate IsRegisterLike(n: Node) {
    n.Parent? && (n.tag == "register" || n.tag == "cluster")
  }

  /** `generate_all_registers`: the entries' elements, in entry order. The
      Python generator is consumed by `extend_node`, so the first entry that
      fails stops the whole conversion. */
  function GenerateAllRegisters(regs: seq<Entry>, base: int): (r: Result<seq<Node>, SvdError>)
    ensures r.Ok? ==> forall n :: n in r.value ==> IsRegisterLike(n)
    decreases regs
  {
    if |regs| == 0 then Ok([])
    else
      var first :- GenerateEntry(regs[0], base);
      var rest :- GenerateAllRegisters(regs[1..], base);
      Ok(first + rest)
  }

  /** The dispatch of one entry, by the key that marks it, in the order the
      keys are tested. */
  function GenerateEntry(e: Entry, base: int): (r: Result<seq<Node>, SvdError>)
    ensures r.Ok? ==> forall n :: n in r.value ==> IsRegisterLike(n)
    decreases e
  {
    match e
    case Reserved(_) => Ok([])
    case Skipto(_) => Ok([])
    case WindowEntry(_, window) =>
      var reg :- GenerateDimRegister(window, base);
      Ok([reg])
    case SameAddr(_, members) => GenerateAllRegisters(members, base)
    case MultiregEntry(_, multi) =>
      var cluster :- GenerateCluster(multi, base);
      Ok([cluster])
    case Plain(reg) =>
      var node :- GenerateRegister(reg, base);
      Ok([node])
  }

  function ClusterKws(multi: Multireg, low: int): seq<(string, Option<string>)> {
    [("name", Some(multi.name)),
     ("description", Some(multi.desc)),
     ("addressOffset", HexOrNone(Some(low)))]
  }

  /** `generate_cluster`: only allowed at base 0; the cluster sits at the
      lowest offset of its registers, which are generated relative to it. */
  function GenerateCluster(multi: Multireg, base: int): (r: Result<Node, SvdError>)
    ensures base != 0 ==> r == Err(NestedMultireg)
    ensures r.Ok? ==> r.value.Parent? && HasTag(r.value, "cluster")
    decreases multi
  {
    if base != 0 then Err(NestedMultireg)
    else
      var low :- MinOffset(multi.genregs);
      var regs :- GenerateAllRegisters(multi.genregs, low);
      Ok(ExtendNode(SvdNode("cluster", ClusterKws(multi, low)), regs))
  }

  /** Converting two lists one after the other is converting their
      concatenation: the outputs concatenate, and an error in the first list
      comes before any error in the second. */
  lemma {:induction false} AllRegistersAppend(a: seq<Entry>, b: seq<Entry>, base: int)
    ensures var ra := GenerateAllRegisters(a, base);
      var rb := GenerateAllRegisters(b, base);
      GenerateAllRegisters(a + b, base) ==
        if ra.Err? then ra else if rb.Err? then rb else Ok(ra.value + rb.value)
  {
    if |a| == 0 {
      assert a + b == b;
      var rb := GenerateAllRegisters(b, base);
      if rb.Ok? {
        assert [] + rb.value == rb.value;
      }
    } else {
      assert (a + b)[0] == a[0];
      assert (a + b)[1..] == a[1..] + b;
      AllRegistersAppend(a[1..], b, base);
      var ra := GenerateAllRegisters(a[1..], base);
      var rb := GenerateAllRegisters(b, base);
      var re := GenerateEntry(a[0], base);
      if re.Ok? && ra.Ok? && rb.Ok? {
        assert re.value + (ra.value + rb.value) == (re.value + ra.value) + rb.value;
      }
    }
  }

  /** The list converts exactly when every entry does. */
  lemma {:induction false} AllRegistersOk(regs: seq<Entry>, base: int)
    ensures GenerateAllRegisters(regs, base).Ok? <==>
      forall i :: 0 <= i < |regs| ==> GenerateEntry(regs[i], base).Ok?
  {
    if |regs| > 0 {
      AllRegistersOk(regs[1..], base);
      assert forall i :: 1 <= i < |regs| ==> regs[i] == regs[1..][i - 1];
    }
  }

  /** When the list fails, it fails with the error of its first failing entry. */
  lemma {:induction false} AllRegistersFirstError(regs: seq<Entry>, base: int)
    requires GenerateAllRegisters(regs, base).Err?
    ensures exists i :: (0 <= i < |regs|
      && (forall k :: 0 <= k < i ==> GenerateEntry(regs[k], base).Ok?)
      && GenerateEntry(regs[i], base).Err?
      && GenerateAllRegisters(regs, base).error == GenerateEntry(regs[i], base).error)
  {
    if GenerateEntry(regs[0], base).Ok? {
      AllRegistersFirstError(regs[1..], base);
      var i :| 0 <= i < |regs[1..]|
        && (forall k :: 0 <= k < i ==> GenerateEntry(regs[1..][k], base).Ok?)
        && GenerateEntry(regs[1..][i], base).Err?
        && GenerateAllRegisters(regs[1..], base).error == GenerateEntry(regs[1..][i], base).error;
      assert forall k :: 1 <= k < i + 1 ==> regs[k] == regs[1..][k - 1];
      assert regs[i + 1] == regs[1..][i];
    } else {
      assert GenerateAllRegisters(regs, base).error == GenerateEntry(regs[0], base).error;
    }
  }

  /** How many elements a list of entries yields: nothing for reserved and
      skipped space, one element per window, multireg and plain register,
      and a `sameaddr` group's own count. */
  function EmittedCount(regs: seq<Entry>): nat
    decreases regs
  {
    if |regs| == 0 then 0 else EntryCount(regs[0]) + EmittedCount(regs[1..])
  }

  function EntryCount(e: Entry): nat
    decreases e
  {
    match e
    case Reserved(_) => 0
    case Skipto(_) => 0
    case SameAddr(_, members) => EmittedCount(members)
    case _ => 1
  }

  lemma {:induction false} EmittedCountAppend(a: seq<Entry>, b: seq<Entry>)
    ensures EmittedCount(a + b) == EmittedCount(a) + EmittedCount(b)
  {
    if |a| == 0 {
      assert a + b == b;
    } else {
      assert (a + b)[0] == a[0];
      assert (a + b)[1..] == a[1..] + b;
      EmittedCountAppend(a[1..], b);
    }
  }

  /** A converted list holds exactly `EmittedCount` elements. */
  lemma {:induction false} AllRegistersCount(regs: seq<Entry>, base: int)
    requires GenerateAllRegisters(regs, base).Ok?
    ensures |GenerateAllRegisters(regs, base).value| == EmittedCount(regs)
    decreases regs
  {
    if |regs| > 0 {
      EntryOutputCount(regs[0], base);
      AllRegistersCount(regs[1..], base);
    }
  }

  lemma {:induction false} EntryOutputCount(e: Entry, base: int)
    requires GenerateEntry(e, base).Ok?
    ensures |GenerateEntry(e, base).value| == EntryCount(e)
    decreases e
  {
    if e.SameAddr? {
      AllRegistersCount(e.members, base);
    }
  }

  /** The output of a list, split around entry `i`. */
  lemma EntryOutputSplit(regs: seq<Entry>, base: int, i: nat)
    requires i < |regs| && GenerateAllRegisters(regs, base).Ok?
    ensures GenerateAllRegisters(regs[..i], base).Ok?
    ensures GenerateEntry(regs[i], base).Ok?
    ensures GenerateAllRegisters(regs[i + 1..], base).Ok?
    ensures GenerateAllRegisters(regs, base).value ==
      GenerateAllRegisters(regs[..i], base).value
      + (GenerateEntry(regs[i], base).value + GenerateAllRegisters(regs[i + 1..], base).value)
  {
    var post := regs[i + 1..];
    assert regs == regs[..i] + ([regs[i]] + post);
    AllRegistersAppend(regs[..i], [regs[i]] + post, base);
    assert ([regs[i]] + post)[0] == regs[i];
    assert ([regs[i]] + post)[1..] == post;
  }

  /** Order is preserved: the elements of entry `i` sit in the output right
      after those of the entries before it. */
  lemma EntryOutputSlice(regs: seq<Entry>, base: int, i: nat)
    requires i < |regs| && GenerateAllRegisters(regs, base).Ok?
    ensures var out := GenerateAllRegisters(regs, base).value;
      var start := EmittedCount(regs[..i]);
      && GenerateEntry(regs[i], base).Ok?
      && start + EntryCount(regs[i]) <= |out|
      && out[start..start + EntryCount(regs[i])] == GenerateEntry(regs[i], base).value
  {
    EntryOutputSplit(regs, base, i);
    var rp := GenerateAllRegisters(regs[..i], base).value;
    var re := GenerateEntry(regs[i], base).value;
    var rq := GenerateAllRegisters(regs[i + 1..], base).value;
    AllRegistersCount(regs[..i], base);
    EntryOutputCount(regs[i], base);
    assert (rp + (re + rq))[|rp|..|rp| + |re|] == re;
  }

  /** Reserved and skipped space yields nothing: dropping such an entry does
      not change the conversion. */
  lemma ReservedSkipped(regs: seq<Entry>, base: int, i: nat)
    requires i < |regs| && (regs[i].Reserved? || regs[i].Skipto?)
    ensures GenerateAllRegisters(regs, base) == GenerateAllRegisters(regs[..i] + regs[i + 1..], base)
  {
    var pre := regs[..i];
    var post := regs[i + 1..];
    assert regs == pre + ([regs[i]] + post);
    AllRegistersAppend(pre, [regs[i]] + post, base);
    AllRegistersAppend(pre, post, base);
    assert ([regs[i]] + post)[1..] == post;
    var rq := GenerateAllRegisters(post, base);
    if rq.Ok? {
      assert [] + rq.value == rq.value;
    }
  }

  /** A `sameaddr` group is converted in place, at the same base, as if its
      members were listed where the group is. */
  lemma SameAddrInlined(regs: seq<Entry>, base: int, i: nat)
    requires i < |regs| && regs[i].SameAddr?
    ensures GenerateAllRegisters(regs, base) ==
      GenerateAllRegisters(regs[..i] + regs[i].members + regs[i + 1..], base)
  {
    var pre := regs[..i];
    var post := regs[i + 1..];
    var ms := regs[i].members;
    assert regs == pre + ([regs[i]] + post);
    assert pre + ms + post == pre + (ms + post);
    AllRegistersAppend(pre, [regs[i]] + post, base);
    AllRegistersAppend(pre, ms + post, base);
    AllRegistersAppend(ms, post, base);
    assert ([regs[i]] + post)[1..] == post;
    var rm := GenerateAllRegisters(ms, base);
    var rq := GenerateAllRegisters(post, base);
    if rm.Ok? && rq.Ok? {
      assert rm.value + rq.value == rm.value + rq.value;
    }
  }

  /** Lookups in a cluster's children, over any register elements. */
  lemma ClusterLookups(multi: Multireg, low: int, regs: seq<Node>)
    requires forall n :: n in regs ==> IsRegisterLike(n)
    ensures var ch := Texts(ClusterKws(multi, low)) + regs;
      && |Texts(ClusterKws(multi, low))| == 3
      && TextOf(ch, "name") == Some(multi.name)
      && TextOf(ch, "description") == Some(multi.desc)
      && TextOf(ch, "addressOffset") == Some(Hex(low))
  {
    var kws := ClusterKws(multi, low);
    TextsAllPresent(kws);
    FindAbsent(regs, "name");
    FindAbsent(regs, "description");
    FindAbsent(regs, "addressOffset");
    TextOfTexts(kws, regs, 0);
    TextOfTexts(kws, regs, 1);
    TextOfTexts(kws, regs, 2);
  }

  /** A cluster only exists at base 0. It sits at the lowest offset of its
      members, and after its three text elements come its members' elements,
      generated relative to that offset. */
  lemma ClusterContents(multi: Multireg, base: int)
    requires GenerateCluster(multi, base).Ok?
    ensures base == 0 && MinOffset(multi.genregs).Ok?
    ensures var low := MinOffset(multi.genregs).value;
      var ch := GenerateCluster(multi, base).value.children;
      && GenerateAllRegisters(multi.genregs, low).Ok?
      && |ch| >= 3
      && ch[3..] == GenerateAllRegisters(multi.genregs, low).value
      && TextOf(ch, "name") == Some(multi.name)
      && TextOf(ch, "description") == Some(multi.desc)
      && TextOf(ch, "addressOffset") == Some(Hex(low))
  {
    var low := MinOffset(multi.genregs).value;
    var regs := GenerateAllRegisters(multi.genregs, low).value;
    ClusterLookups(multi, low, regs);
    var ch := Texts(ClusterKws(multi, low)) + regs;
    assert ch[3..] == regs;
  }

  /** An entry that yields one element finds it at the position counted by
      the entries before it. */
  lemma EntryElementAt(regs: seq<Entry>, base: int, i: nat)
    requires i < |regs| && GenerateAllRegisters(regs, base).Ok?
    requires EntryCount(regs[i]) == 1
    ensures var out := GenerateAllRegisters(regs, base).value;
      var k := EmittedCount(regs[..i]);
      && GenerateEntry(regs[i], base).Ok? && |GenerateEntry(regs[i], base).value| == 1
      && k < |out| && out[k] == GenerateEntry(regs[i], base).value[0]
  {
    EntryOutputSlice(regs, base, i);
    var out := GenerateAllRegisters(regs, base).value;
    var k := EmittedCount(regs[..i]);
    assert out[k] == out[k..k + 1][0];
  }

  /** A cluster member that yields one element: that element, at its
      position among the cluster's registers. */
  lemma ClusterMemberAt(multi: Multireg, i: nat)
    requires GenerateCluster(multi, 0).Ok?
    requires i < |multi.genregs| && EntryCount(multi.genregs[i]) == 1
    ensures var low := MinOffset(multi.genregs).value;
      var out := GenerateAllRegisters(multi.genregs, low).value;
      var k := EmittedCount(multi.genregs[..i]);
      && GenerateEntry(multi.genregs[i], low).Ok?
      && |GenerateEntry(multi.genregs[i], low).value| == 1
      && k < |out| && out[k] == GenerateEntry(multi.genregs[i], low).value[0]
  {
    ClusterContents(multi, 0);
    EntryElementAt(multi.genregs, MinOffset(multi.genregs).value, i);
  }

  /** A plain member of a cluster becomes the register generated at the
      cluster's offset (so its `addressOffset` is its offset minus the
      cluster's, by `RegisterTexts`), in member order: it is element `k` of
      the cluster's registers, `k` counting the elements of the members
      before it. */
  lemma ClusterRegisterAt(multi: Multireg, i: nat)
    requires GenerateCluster(multi, 0).Ok?
    requires i < |multi.genregs| && multi.genregs[i].Plain?
    ensures var low := MinOffset(multi.genregs).value;
      var out := GenerateAllRegisters(multi.genregs, low).value;
      var k := EmittedCount(multi.genregs[..i]);
      k < |out| && GenerateRegister(multi.genregs[i].reg, low) == Ok(out[k])
  {
    ClusterMemberAt(multi, i);
  }

  /** Likewise a window member becomes the window register generated at the
      cluster's offset, in member order. */
  lemma ClusterDimRegisterAt(multi: Multireg, i: nat)
    requires GenerateCluster(multi, 0).Ok?
    requires i < |multi.genregs| && multi.genregs[i].WindowEntry?
    ensures var low := MinOffset(multi.genregs).value;
      var out := GenerateAllRegisters(multi.genregs, low).value;
      var k := EmittedCount(multi.genregs[..i]);
      k < |out| && GenerateDimRegister(multi.genregs[i].window, low) == Ok(out[k])
  {
    ClusterMemberAt(multi, i);
  }

  /** Members of a cluster lie at or above the cluster's offset, so their
      relative offsets are never negative: a plain member by its own offset,
      a window without an offset of its own by its inner one. */
  lemma ClusterRegisterAbove(multi: Multireg, i: nat)
    requires GenerateCluster(multi, 0).Ok?
    requires i < |multi.genregs| && multi.genregs[i].Plain?
    ensures 0 <= multi.genregs[i].reg.genoffset - MinOffset(multi.genregs).value
  {
    assert ReadGenoffset(multi.genregs[i]) == Ok(multi.genregs[i].reg.genoffset);
  }

  lemma ClusterDimRegisterAbove(multi: Multireg, i: nat)
    requires GenerateCluster(multi, 0).Ok?
    requires i < |multi.genregs| && multi.genregs[i].WindowEntry?
    requires multi.genregs[i].outerOffset.None?
    ensures 0 <= multi.genregs[i].window.reg.genoffset - MinOffset(multi.genregs).value
  {
    assert ReadGenoffset(multi.genregs[i]) == Ok(multi.genregs[i].window.reg.genoffset);
  }

  /** A multireg nested in a multireg converts only when the outer cluster's
      lowest offset is 0, because the inner cluster is asked for at that
      base. Nested multiregs are therefore not rejected as such. */
  lemma NestedClusterAtZero(multi: Multireg, i: nat)
    requires GenerateCluster(multi, 0).Ok?
    requires i < |multi.genregs| && multi.genregs[i].MultiregEntry?
    ensures MinOffset(multi.genregs) == Ok(0)
  {
    var low := MinOffset(multi.genregs).value;
    assert GenerateAllRegisters(multi.genregs, low).Ok?;
    AllRegistersOk(multi.genregs, low);
    var inner := multi.genregs[i].multi;
    assert GenerateEntry(multi.genregs[i], low).Ok?;
    assert GenerateCluster(inner, low).Ok?;
  }

  // ---------------------------------------------------------------------------
  // Interrupts, peripherals and the device

  /** One `<interrupt>`: its name and its number, in decimal. */
  function InterruptNode(name: string, num: nat): Node {
    SvdNode("interrupt", [("name", Some(name)), ("value", Some(Decimal(num)))])
  }

  /** `enumerate(irqs)` from `start`: the interrupt at position i is numbered
      start + i. */
  function EnumerateInterrupts(names: seq<string>, start: nat): (r: seq<Node>)
    ensures |r| == |names|
    ensures forall i :: 0 <= i < |names| ==> r[i] == InterruptNode(names[i], start + i)
  {
    if |names| == 0 then []
    else [InterruptNode(names[0], start)] + EnumerateInterrupts(names[1..], start + 1)
  }

  /** `generate_all_interrupts`: nothing for an absent list, else the i-th
      interrupt with number i. */
  function GenerateAllInterrupts(irqs: Option<seq<string>>): (r: seq<Node>)
    ensures irqs.None? ==> r == []
    ensures irqs.Some? ==> |r| == |irqs.value|
    ensures irqs.Some? ==> forall i :: 0 <= i < |r| ==> r[i] == InterruptNode(irqs.value[i], i)
  {
    if irqs.None? then [] else EnumerateInterrupts(irqs.value, 0)
  }

  /** An interrupt element names the interrupt and carries its number, which
      reads back as that number. */
  lemma InterruptContents(name: string, num: nat)
    ensures var ch := InterruptNode(name, num).children;
      && HasTag(InterruptNode(name, num), "interrupt")
      && TextOf(ch, "name") == Some(name)
      && TextOf(ch, "value") == Some(Decimal(num))
      && ToInt(Str(TextOf(ch, "value").value)) == Some(num)
  {
    var kws := [("name", Some(name)), ("value", Some(Decimal(num)))];
    assert InterruptNode(name, num).children == Texts(kws) + [];
    TextOfTexts(kws, [], 0);
    TextOfTexts(kws, [], 1);
    IntOfDecimal(num);
  }

  function PeripheralKws(m: Module): seq<(string, Option<string>)> {
    [("name", Some(m.name)), ("baseAddress", Some(ToStr(m.baseAddr)))]
  }

  /** `generate_peripheral`: the module's name and base address, the IP's
      interrupts, its registers (always at base 0) in one `<registers>`
      element, and a closing comment. */
  function GeneratePeripheral(m: Module, ip: Ip): (r: Result<Node, SvdError>)
    ensures r.Ok? <==> GenerateAllRegisters(ip.registers, 0).Ok?
    ensures r.Err? ==> r.error == GenerateAllRegisters(ip.registers, 0).error
    ensures r.Ok? ==> r.value.Parent? && HasTag(r.value, "peripheral") && r.value.attrs == []
  {
    var regs :- GenerateAllRegisters(ip.registers, 0);
    Ok(ExtendNode(SvdNode("peripheral", PeripheralKws(m)),
      GenerateAllInterrupts(ip.interruptList)
      + [ExtendNode(SvdNode("registers", []), regs), Comment("end of " + m.name)]))
  }

  /** The peripheral's children in order: name, base address, one element
      per interrupt, the registers element holding every register of the IP,
      and the closing comment naming the module. */
  lemma PeripheralChildren(m: Module, ip: Ip)
    requires GeneratePeripheral(m, ip).Ok?
    ensures GeneratePeripheral(m, ip).value.children ==
      PeripheralLayout(m, GenerateAllInterrupts(ip.interruptList), GenerateAllRegisters(ip.registers, 0).value)
  {
    LayoutOfPeripheral(m, GenerateAllInterrupts(ip.interruptList), GenerateAllRegisters(ip.registers, 0).value);
  }

  lemma LayoutOfPeripheral(m: Module, irqs: seq<Node>, regs: seq<Node>)
    ensures ExtendNode(SvdNode("peripheral", PeripheralKws(m)),
      irqs + [ExtendNode(SvdNode("registers", []), regs), Comment("end of " + m.name)]).children
      == PeripheralLayout(m, irqs, regs)
  {
    var kws := PeripheralKws(m);
    TextsAllPresent(kws);
    assert Texts(kws) == [Leaf("name", m.name), Leaf("baseAddress", ToStr(m.baseAddr))];
    assert Texts([]) == [];
    assert ExtendNode(SvdNode("registers", []), regs) == Parent("registers", [], regs);
  }

  /** The layout of a peripheral's children. */
  function PeripheralLayout(m: Module, irqs: seq<Node>, regs: seq<Node>): seq<Node> {
    [Leaf("name", m.name), Leaf("baseAddress", ToStr(m.baseAddr))]
    + (irqs + [Parent("registers", [], regs), Comment("end of " + m.name)])
  }

  lemma LayoutRegisters(m: Module, irqs: seq<Node>, regs: seq<Node>)
    requires forall n :: n in irqs ==> HasTag(n, "interrupt")
    ensures FindChild(PeripheralLayout(m, irqs, regs), "registers") == Some(Parent("registers", [], regs))
  {
    var head := [Leaf("name", m.name), Leaf("baseAddress", ToStr(m.baseAddr))];
    var tail := [Parent("registers", [], regs), Comment("end of " + m.name)];
    FindChildAppend(head, irqs + tail, "registers");
    FindAbsent(irqs, "registers");
    FindChildAppend(irqs, tail, "registers");
  }

  lemma LayoutInterrupts(m: Module, irqs: seq<Node>, regs: seq<Node>)
    requires forall n :: n in irqs ==> HasTag(n, "interrupt")
    ensures Count(PeripheralLayout(m, irqs, regs), "interrupt") == |irqs|
  {
    var head := [Leaf("name", m.name), Leaf("baseAddress", ToStr(m.baseAddr))];
    var tail := [Parent("registers", [], regs), Comment("end of " + m.name)];
    CountAppend(head, irqs + tail, "interrupt");
    CountAppend(irqs, tail, "interrupt");
    AllTagged(irqs, "interrupt");
    FindAbsent(head, "interrupt");
    FindAbsent(tail, "interrupt");
  }

  lemma InterruptsTagged(irqs: Option<seq<string>>)
    ensures forall n :: n in GenerateAllInterrupts(irqs) ==> HasTag(n, "interrupt")
  {
    var r := GenerateAllInterrupts(irqs);
    forall n | n in r
      ensures HasTag(n, "interrupt")
    {
      var i :| 0 <= i < |r| && r[i] == n;
    }
  }

  lemma LayoutContents(m: Module, irqs: seq<Node>, regs: seq<Node>)
    requires forall n :: n in irqs ==> HasTag(n, "interrupt")
    ensures var ch := PeripheralLayout(m, irqs, regs);
      && TextOf(ch, "name") == Some(m.name)
      && TextOf(ch, "baseAddress") == Some(ToStr(m.baseAddr))
      && FindChild(ch, "registers") == Some(Parent("registers", [], regs))
      && Count(ch, "interrupt") == |irqs|
      && ch[|ch| - 1] == Comment("end of " + m.name)
  {
    LayoutRegisters(m, irqs, regs);
    LayoutInterrupts(m, irqs, regs);
  }

  /** Lookups in a peripheral: its name and base address, its registers and
      its interrupts, and the closing comment last. */
  lemma PeripheralContents(m: Module, ip: Ip)
    requires GeneratePeripheral(m, ip).Ok?
    ensures var ch := GeneratePeripheral(m, ip).value.children;
      && TextOf(ch, "name") == Some(m.name)
      && TextOf(ch, "baseAddress") == Some(ToStr(m.baseAddr))
      && FindChild(ch, "registers") == Some(Parent("registers", [], GenerateAllRegisters(ip.registers, 0).value))
      && Count(ch, "interrupt") == (if ip.interruptList.Some? then |ip.interruptList.value| else 0)
      && ch[|ch| - 1] == Comment("end of " + m.name)
  {
    PeripheralChildren(m, ip);
    InterruptsTagged(ip.interruptList);
    LayoutContents(m, GenerateAllInterrupts(ip.interruptList), GenerateAllRegisters(ip.registers, 0).value);
  }

  /** The peripherals of the modules, in module order. The IP of each module
      is looked up by the module's type just before its peripheral is
      generated, so the first module that fails stops the conversion. */
  function PeripheralList(modules: seq<Module>, ips: map<string, Ip>): (r: Result<seq<Node>, SvdError>)
    ensures r.Ok? <==> forall i :: 0 <= i < |modules| ==>
      modules[i].mtype in ips && GeneratePeripheral(modules[i], ips[modules[i].mtype]).Ok?
    ensures r.Ok? ==> |r.value| == |modules|
    ensures r.Ok? ==> forall i :: 0 <= i < |modules| ==>
      r.value[i] == GeneratePeripheral(modules[i], ips[modules[i].mtype]).value
  {
    if |modules| == 0 then Ok([])
    else if modules[0].mtype !in ips then Err(UnresolvedModuleType(modules[0].mtype))
    else
      var first :- GeneratePeripheral(modules[0], ips[modules[0].mtype]);
      var rest :- PeripheralList(modules[1..], ips);
      assert forall i :: 1 <= i < |modules| ==> modules[i] == modules[1..][i - 1];
      Ok([first] + rest)
  }

  /** The error of a failing module: its type is not among the IPs, or its
      registers do not convert. */
  function ModuleError(m: Module, ips: map<string, Ip>): Option<SvdError> {
    if m.mtype !in ips then Some(UnresolvedModuleType(m.mtype))
    else
      var p := GeneratePeripheral(m, ips[m.mtype]);
      if p.Err? then Some(p.error) else None
  }

  /** When the list fails, it fails with the error of its first failing module. */
  lemma {:induction false} PeripheralListFirstError(modules: seq<Module>, ips: map<string, Ip>)
    requires PeripheralList(modules, ips).Err?
    ensures exists i :: (0 <= i < |modules|
      && (forall k :: 0 <= k < i ==> ModuleError(modules[k], ips).None?)
      && ModuleError(modules[i], ips) == Some(PeripheralList(modules, ips).error))
  {
    PeripheralListHead(modules, ips);
    if ModuleError(modules[0], ips).None? {
      var rest := modules[1..];
      PeripheralListFirstError(rest, ips);
      var i :| 0 <= i < |rest|
        && (forall k :: 0 <= k < i ==> ModuleError(rest[k], ips).None?)
        && ModuleError(rest[i], ips) == Some(PeripheralList(rest, ips).error);
      assert forall k :: 1 <= k < i + 1 ==> modules[k] == rest[k - 1];
      assert modules[i + 1] == rest[i];
    }
  }

  /** The list stops at its first module when that one fails, and goes on
      with the rest otherwise. */
  lemma PeripheralListHead(modules: seq<Module>, ips: map<string, Ip>)
    requires |modules| > 0
    ensures ModuleError(modules[0], ips).Some? ==>
      PeripheralList(modules, ips) == Err(ModuleError(modules[0], ips).value)
    ensures ModuleError(modules[0], ips).None? && PeripheralList(modules, ips).Err? ==>
      PeripheralList(modules[1..], ips) == PeripheralList(modules, ips)
  {
  }

  /** `generate_peripherals`: one `<peripherals>` element holding the
      peripheral of every module, in module order. */
  function GeneratePeripherals(modules: seq<Module>, ips: map<string, Ip>): (r: Result<Node, SvdError>)
    ensures r.Ok? <==> PeripheralList(modules, ips).Ok?
    ensures r.Err? ==> r.error == PeripheralList(modules, ips).error
    ensures r.Ok? ==> r.value.Parent? && HasTag(r.value, "peripherals") && r.value.attrs == []
  {
    var ps :- PeripheralList(modules, ips);
    Ok(ExtendNode(SvdNode("peripherals", []), ps))
  }

  /** The i-th peripheral is that of the i-th module: named after it, at its
      base address. */
  lemma PeripheralsInModuleOrder(modules: seq<Module>, ips: map<string, Ip>, i: nat)
    requires GeneratePeripherals(modules, ips).Ok? && i < |modules|
    ensures var ch := GeneratePeripherals(modules, ips).value.children;
      && |ch| == |modules|
      && modules[i].mtype in ips
      && Ok(ch[i]) == GeneratePeripheral(modules[i], ips[modules[i].mtype])
      && TextOf(ch[i].children, "name") == Some(modules[i].name)
      && TextOf(ch[i].children, "baseAddress") == Some(ToStr(modules[i].baseAddr))
  {
    var ps := PeripheralList(modules, ips).value;
    assert Texts([]) == [];
    assert GeneratePeripherals(modules, ips).value.children == ps;
    PeripheralContents(modules[i], ips[modules[i].mtype]);
  }

  // pysvd's `cpuName.other` and `endian.little`, written as their SVD tokens.
  const CpuNameOther := "other"
  const EndianLittle := "little"

  function CpuKws(): seq<(string, Option<string>)> {
    [("name", Some(CpuNameOther)),
     ("endian", Some(EndianLittle)),
     ("revision", Some(Decimal(0))),
     ("mpuPresent", Some("false")),
     ("fpuPresent", Some("false")),
     ("nvicPrioBits", Some(Decimal(0))),
     ("vendorSystickConfig", Some("false"))]
  }

  /** `generate_cpu`: fixed values, none of them absent. */
  function GenerateCpu(): (r: Node)
    ensures r.Parent? && HasTag(r, "cpu") && r.attrs == []
  {
    SvdNode("cpu", CpuKws())
  }

  /** Every cpu keyword becomes one element, in keyword order; revision and
      priority bits are 0 and no MPU or FPU is present. */
  lemma CpuContents()
    ensures var ch := GenerateCpu().children;
      && |ch| == 7
      && (forall j :: 0 <= j < 7 ==> ch[j] == Leaf(CpuKws()[j].0, CpuKws()[j].1.value))
      && ch[2] == Leaf("revision", "0") && ch[5] == Leaf("nvicPrioBits", "0")
      && ch[3] == Leaf("mpuPresent", "false") && ch[4] == Leaf("fpuPresent", "false")
  {
    TextsAllPresent(CpuKws());
    assert Decimal(0) == "0";
  }

  const DeviceAttrs: seq<(string, string)> :=
    [("schemaVersion", "1.1"),
     ("xmlns:xs", "http://www.w3.org/2001/XMLSchema-instance"),
     ("xs:noNamespaceSchemaLocation", "CMSIS-SVD.xsd")]

  function DeviceKws(top: Top, version: string, description: string): seq<(string, Option<string>)> {
    [("vendor", Some("lowRISC")),
     ("name", Some(top.name)),
     ("version", Some(version)),
     ("description", Some(description)),
     ("width", Some(ToStr(top.datawidth))),
     ("size", Some(ToStr(top.datawidth))),
     ("addressUnitBits", Some(Decimal(8)))]
  }

  /** `generate_device`: the schema attributes, the device's text elements,
      then the cpu and the peripherals. Only the peripherals can fail. */
  function GenerateDevice(top: Top, ips: map<string, Ip>, version: string, description: string): (r: Result<Node, SvdError>)
    ensures r.Ok? <==> PeripheralList(top.modules, ips).Ok?
    ensures r.Err? ==> r.error == PeripheralList(top.modules, ips).error
    ensures r.Ok? ==> r.value.Parent? && HasTag(r.value, "device") && r.value.attrs == DeviceAttrs
  {
    var peripherals :- GeneratePeripherals(top.modules, ips);
    Ok(ExtendNode(Parent("device", DeviceAttrs, Texts(DeviceKws(top, version, description))),
      [GenerateCpu(), peripherals]))
  }

  lemma DeviceShape(top: Top, version: string, description: string, ps: Node)
    ensures var ch := Texts(DeviceKws(top, version, description)) + [GenerateCpu(), ps];
      |ch| == 9 && ch[7] == GenerateCpu() && ch[8] == ps
  {
    TextsAllPresent(DeviceKws(top, version, description));
  }

  lemma DeviceLookup(top: Top, version: string, description: string, ps: Node, j: nat)
    requires HasTag(ps, "peripherals") && j < 7
    ensures var kws := DeviceKws(top, version, description);
      TextOf(Texts(kws) + [GenerateCpu(), ps], kws[j].0) == kws[j].1
  {
    var kws := DeviceKws(top, version, description);
    var rest := [GenerateCpu(), ps];
    FindAbsent(rest, kws[j].0);
    TextOfTexts(kws, rest, j);
  }

  lemma DeviceLookups(top: Top, version: string, description: string, ps: Node)
    requires HasTag(ps, "peripherals")
    ensures var ch := Texts(DeviceKws(top, version, description)) + [GenerateCpu(), ps];
      && |ch| == 9 && ch[7] == GenerateCpu() && ch[8] == ps
      && TextOf(ch, "vendor") == Some("lowRISC")
      && TextOf(ch, "name") == Some(top.name)
      && TextOf(ch, "version") == Some(version)
      && TextOf(ch, "description") == Some(description)
      && TextOf(ch, "width") == Some(ToStr(top.datawidth))
      && TextOf(ch, "size") == Some(ToStr(top.datawidth))
      && TextOf(ch, "addressUnitBits") == Some("8")
  {
    DeviceShape(top, version, description, ps);
    DeviceLookup(top, version, description, ps, 0);
    DeviceLookup(top, version, description, ps, 1);
    DeviceLookup(top, version, description, ps, 2);
    DeviceLookup(top, version, description, ps, 3);
    DeviceLookup(top, version, description, ps, 4);
    DeviceLookup(top, version, description, ps, 5);
    DeviceLookup(top, version, description, ps, 6);
    assert Decimal(8) == "8";
  }

  /** The device names its vendor, the top, the given version and
      description; its width and size are both the top's data width, its
      address unit is the byte, and its cpu and peripherals come last, in that
      order. */
  lemma DeviceContents(top: Top, ips: map<string, Ip>, version: string, description: string)
    requires GenerateDevice(top, ips, version, description).Ok?
    ensures var ch := GenerateDevice(top, ips, version, description).value.children;
      && |ch| == 9
      && ch[7] == GenerateCpu()
      && Ok(ch[8]) == GeneratePeripherals(top.modules, ips)
      && TextOf(ch, "vendor") == Some("lowRISC")
      && TextOf(ch, "name") == Some(top.name)
      && TextOf(ch, "version") == Some(version)
      && TextOf(ch, "description") == Some(description)
      && TextOf(ch, "width") == Some(ToStr(top.datawidth))
      && TextOf(ch, "size") == TextOf(ch, "width")
      && TextOf(ch, "addressUnitBits") == Some("8")
  {
    DeviceLookups(top, version, description, GeneratePeripherals(top.modules, ips).value);
  }
}
