/** The pretty-printing step of util/svdgen/lib.py (`indent_tree`) and the
    conversion entry point built on it (`convert_top_to_svd`). ElementTree
    writes whitespace verbatim, so the tree is re-annotated: `text` follows an
    element's opening tag and `tail` its closing tag. */
module SvdIndent {
  import opened Common
  import opened Text
  import opened SvdModel
  import opened SvdGen

  /** An ElementTree element as `indent_tree` sees it. A comment is an
      element without children whose text is the comment. */
  datatype Element = Element(
    tag: string,
    isComment: bool,
    attrs: seq<(string, string)>,
    text: Option<string>,
    tail: Option<string>,
    children: seq<Element>)

  /** The elements built by the generator: text lives only on leaves and
      comments, and no tail is set yet. */
  function FromNode(n: Node): (e: Element)
    ensures e.tail.None?
    ensures n.Parent? ==> e.text.None? && |e.children| == |n.children|
    ensures !n.Parent? ==> e.text.Some? && e.children == []
    decreases n
  {
    match n
    case Leaf(tag, text) => Element(tag, false, [], Some(text), None, [])
    case Comment(text) => Element("", true, [], Some(text), None, [])
    case Parent(tag, attrs, children) =>
      Element(tag, false, attrs, None, None,
        seq(|children|, k requires 0 <= k < |children| => FromNode(children[k])))
  }

  // ---------------------------------------------------------------------------
  // What indentation yields

  /** The child at position k of an element indented at `indent`: indented one
      level deeper, and, when it is the last child, followed by the parent's
      own indentation instead. */
  function IndentedChild(cs: seq<Element>, k: nat, indent: string): Element
    requires k < |cs|
    decreases cs, 0
  {
    var c := Indented(cs[k], indent + "  ");
    if k == |cs| - 1 then c.(tail := Some(indent)) else c
  }

  /** `indent_tree(e, indent)` as a value: a parent's text opens the next
      level, a leaf's text is stripped, the tail closes at `indent`. */
  function Indented(e: Element, indent: string): Element
    decreases e.children, 1
  {
    var text :=
      if |e.children| != 0 then Some(indent + "  ")
      else if e.text.Some? then Some(Strip(e.text.value))
      else None;
    e.(text := text, tail := Some(indent),
       children := seq(|e.children|, k requires 0 <= k < |e.children| => IndentedChild(e.children, k, indent)))
  }

  /** `indent_tree`: sets the element's text and tail, indents the children
      in order while remembering the last one, then lets the last child's
      tail close the parent. The tree is rebuilt rather than updated in place. */
  method IndentTree(e: Element, indent: string) returns (r: Element)
    ensures r == Indented(e, indent)
    decreases e.children
  {
    var isParent := |e.children| != 0;
    var text := e.text;
    if isParent {
      text := Some(indent + "  ");
    } else if text.Some? {
      text := Some(Strip(text.value));
    }
    var children: seq<Element> := [];
    var last: Element := e;
    var i := 0;
    while i < |e.children|
      invariant 0 <= i <= |e.children|
      invariant |children| == i
      invariant forall k :: 0 <= k < i ==> children[k] == Indented(e.children[k], indent + "  ")
      invariant i > 0 ==> last == children[i - 1]
    {
      var child := IndentTree(e.children[i], indent + "  ");
      children := children + [child];
      last := child;
      i := i + 1;
    }
    if isParent {
      children := children[..i - 1] + [last.(tail := Some(indent))];
    }
    r := e.(text := text, tail := Some(indent), children := children);
  }

  // ---------------------------------------------------------------------------
  // Properties of indentation

  /** The rules `indent_tree` promises, one level deep. */
  lemma IndentShape(e: Element, indent: string)
    ensures var r := Indented(e, indent);
      && r.tag == e.tag && r.isComment == e.isComment && r.attrs == e.attrs
      && |r.children| == |e.children|
      && (|e.children| != 0 ==> r.text == Some(indent + "  "))
      && (|e.children| == 0 ==> r.text == (if e.text.Some? then Some(Strip(e.text.value)) else None))
      && r.tail == Some(indent)
      && (forall k :: 0 <= k < |e.children| - 1 ==> r.children[k].tail == Some(indent + "  "))
      && (|e.children| != 0 ==> r.children[|e.children| - 1].tail == Some(indent))
  {
    var r := Indented(e, indent);
    forall k | 0 <= k < |e.children| - 1
      ensures r.children[k].tail == Some(indent + "  ")
    {
      assert r.children[k] == Indented(e.children[k], indent + "  ");
    }
  }

  /** What indentation may not touch: everything but whitespace. Parents lose
      their text, leaves keep their stripped text, tails are dropped. */
  function Skeleton(e: Element): Element
    decreases e.children
  {
    e.(text := if |e.children| != 0 then None else if e.text.Some? then Some(Strip(e.text.value)) else None,
       tail := None,
       children := seq(|e.children|, k requires 0 <= k < |e.children| => Skeleton(e.children[k])))
  }

  /** Indentation only changes whitespace. */
  lemma {:induction false} IndentKeepsSkeleton(e: Element, indent: string)
    ensures Skeleton(Indented(e, indent)) == Skeleton(e)
    decreases e.children
  {
    var r := Indented(e, indent);
    if |e.children| == 0 && e.text.Some? {
      StripIdempotent(e.text.value);
    }
    forall k | 0 <= k < |e.children|
      ensures Skeleton(r.children[k]) == Skeleton(e.children[k])
    {
      var c := Indented(e.children[k], indent + "  ");
      assert r.children[k] == IndentedChild(e.children, k, indent);
      assert Skeleton(c.(tail := Some(indent))) == Skeleton(c);
      IndentKeepsSkeleton(e.children[k], indent + "  ");
    }
    assert Skeleton(r).children == Skeleton(e).children;
  }

  /** Indentation overwrites whatever tail was there. */
  lemma IndentIgnoresTail(e: Element, tail: Option<string>, indent: string)
    ensures Indented(e.(tail := tail), indent) == Indented(e, indent)
  {
    var f := e.(tail := tail);
    assert f.children == e.children;
    assert Indented(f, indent).children == Indented(e, indent).children;
  }

  /** Indenting twice at the same level is indenting once. */
  lemma {:induction false} IndentIdempotent(e: Element, indent: string)
    ensures Indented(Indented(e, indent), indent) == Indented(e, indent)
    decreases e.children
  {
    var r := Indented(e, indent);
    if |e.children| == 0 && e.text.Some? {
      StripIdempotent(e.text.value);
    }
    forall k | 0 <= k < |e.children|
      ensures IndentedChild(r.children, k, indent) == r.children[k]
    {
      var c := Indented(e.children[k], indent + "  ");
      assert r.children[k] == IndentedChild(e.children, k, indent);
      IndentIgnoresTail(c, Some(indent), indent + "  ");
      IndentIdempotent(e.children[k], indent + "  ");
    }
    assert Indented(r, indent).children == r.children;
  }

  // ---------------------------------------------------------------------------
  // Conversion

  /** `convert_top_to_svd`: generate the device, then indent it from a
      newline. */
  method ConvertTopToSvd(top: Top, ips: map<string, Ip>, version: string, description: string)
    returns (r: Result<Element, SvdError>)
    ensures r.Ok? <==> GenerateDevice(top, ips, version, description).Ok?
    ensures r.Err? ==> r.error == GenerateDevice(top, ips, version, description).error
    ensures r.Ok? ==> r.value == Indented(FromNode(GenerateDevice(top, ips, version, description).value), "\n")
  {
    var device := GenerateDevice(top, ips, version, description);
    if device.Err? {
      return Err(device.error);
    }
    var root := IndentTree(FromNode(device.value), "\n");
    return Ok(root);
  }
}
