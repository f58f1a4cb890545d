/*
 * The serializer (src/lib.rs, `BmlNode::serialize` and `Display`): writes a
 * tree back out as canonical BML text, by kind. A root writes its children
 * at its own indent with a blank line between consecutive ones; an element
 * writes its header with its leading attributes, its data inline or as a
 * block, then its other children one level deeper; an attribute writes
 * ` name`, then `="value"`, `=value` or nothing.
 */
module BmlSerializer {
  import opened BmlTree
  import opened BmlBuilder

  // ---------------------------------------------------------------------------
  // Specification
  // ---------------------------------------------------------------------------

  /** The number of leading children that are attributes. */
  function AttrPrefixLen(cs: seq<(string, Node)>): (k: nat)
    ensures k <= |cs|
    ensures forall j :: 0 <= j < k ==> cs[j].1.kind.Attr?
    ensures k < |cs| ==> !cs[k].1.kind.Attr?
  {
    if cs == [] || !cs[0].1.kind.Attr? then 0 else 1 + AttrPrefixLen(cs[1..])
  }

  /** The text of `n` written under `name` at `indent`. */
  function Render(n: Node, name: string, indent: Indent): string
    decreases n, 1, 0
  {
    match n.kind
    case Root(own) => RenderRoot(n, |n.children|, own)
    case Elem =>
      var inner := Next(indent);
      var attrs := AttrPrefixLen(n.children);
      var ls := Lines(n.data);
      IndentText(indent) + name
      + RenderRange(n, 0, attrs, inner)
      + (if attrs == 0 && |ls| == 1 then ": " + ls[0] + "\n" else "\n" + RenderBlock(ls, inner))
      + RenderRange(n, attrs, |n.children|, inner)
    case Attr(quote) =>
      var ls := Lines(n.data);
      " " + name
      + (if ls == [] then "" else if quote then "=\"" + ls[0] + "\"" else "=" + ls[0])
  }

  /** The children `from` up to `to` of `n`, each written at `indent`. */
  function RenderRange(n: Node, from: nat, to: nat, indent: Indent): string
    requires from <= to <= |n.children|
    decreases n, 0, to
  {
    if from == to then ""
    else RenderRange(n, from, to - 1, indent) + Render(n.children[to - 1].1, n.children[to - 1].0, indent)
  }

  /** The first `k` children of a root at `indent`, with one "\n" between consecutive ones. */
  function RenderRoot(n: Node, k: nat, indent: Indent): string
    requires k <= |n.children|
    decreases n, 0, k
  {
    if k == 0 then ""
    else RenderRoot(n, k - 1, indent) + (if k > 1 then "\n" else "")
         + Render(n.children[k - 1].1, n.children[k - 1].0, indent)
  }

  /** Data lines in block form: each on its own line as `indent:line`. */
  function RenderBlock(ls: seq<string>, indent: Indent): string
  {
    if ls == [] then ""
    else RenderBlock(ls[..|ls| - 1], indent) + IndentText(indent) + ":" + ls[|ls| - 1] + "\n"
  }

  /** `Display`: the whole tree, under no name, at the default indent. */
  function Display(n: Node): string
  {
    Render(n, "", DefaultIndent())
  }

  // ---------------------------------------------------------------------------
  // The serializer
  // ---------------------------------------------------------------------------

  /** `serialize`: writes `n` under `name` at `indent`, by kind. */
  method Serialize(n: Node, name: string, indent: Indent) returns (out: string)
    ensures out == Render(n, name, indent)
    decreases n, 2
  {
    match n.kind {
      case Root(own) =>
        out := SerializeRoot(n, own);
      case Elem =>
        out := SerializeElem(n, name, indent);
      case Attr(quote) =>
        out := " " + name;
        var ls := Lines(n.data);
        if ls != [] {
          if quote {
            out := out + "=\"" + ls[0] + "\"";
          } else {
            out := out + "=" + ls[0];
          }
        }
    }
  }

  /** `Display` for a node: the whole tree under no name at the default indent. */
  method Fmt(n: Node) returns (out: string)
    ensures out == Display(n)
  {
    out := Serialize(n, "", DefaultIndent());
  }

  /** The root arm: every child at the root's own indent, a "\n" between two. */
  method SerializeRoot(n: Node, own: Indent) returns (out: string)
    requires n.kind == Root(own)
    ensures out == Render(n, "", own)
    decreases n, 1
  {
    out := "";
    var i := 0;
    while i < |n.children|
      invariant i <= |n.children|
      invariant out == RenderRoot(n, i, own) + (if 0 < i < |n.children| then "\n" else "")
    {
      var s := Serialize(n.children[i].1, n.children[i].0, own);
      out := out + s;
      if i + 1 < |n.children| {
        out := out + "\n";
      }
      i := i + 1;
    }
  }

  /** The element arm: header and attributes, the data, then the other children. */
  method SerializeElem(n: Node, name: string, indent: Indent) returns (out: string)
    requires n.kind == Elem
    ensures out == Render(n, name, indent)
    decreases n, 1
  {
    var inner := Next(indent);
    var attrs, head := SerializeAttrs(n, inner);
    var ls := Lines(n.data);
    var data: string;
    if attrs == 0 && |ls| == 1 {
      data := ": " + ls[0] + "\n";
    } else {
      var block := SerializeBlock(ls, inner);
      data := "\n" + block;
    }
    var rest := SerializeRange(n, attrs, |n.children|, inner);
    out := IndentText(indent) + name + head + data + rest;
  }

  /** The leading attributes of an element, each written at `indent`, and how many there are. */
  method SerializeAttrs(n: Node, indent: Indent) returns (attrs: nat, out: string)
    ensures attrs == AttrPrefixLen(n.children)
    ensures out == RenderRange(n, 0, attrs, indent)
    decreases n, 0
  {
    out := "";
    attrs := 0;
    while attrs < |n.children| && n.children[attrs].1.kind.Attr?
      invariant attrs <= AttrPrefixLen(n.children)
      invariant out == RenderRange(n, 0, attrs, indent)
    {
      var s := Serialize(n.children[attrs].1, n.children[attrs].0, indent);
      out := out + s;
      attrs := attrs + 1;
    }
  }

  /** Children `from` up to `to`, each at `indent`. */
  method SerializeRange(n: Node, from: nat, to: nat, indent: Indent) returns (out: string)
    requires from <= to <= |n.children|
    ensures out == RenderRange(n, from, to, indent)
    decreases n, 0
  {
    out := "";
    var j := from;
    while j < to
      invariant from <= j <= to
      invariant out == RenderRange(n, from, j, indent)
    {
      var s := Serialize(n.children[j].1, n.children[j].0, indent);
      out := out + s;
      j := j + 1;
    }
  }

  /** Data lines in block form. */
  method SerializeBlock(ls: seq<string>, indent: Indent) returns (out: string)
    ensures out == RenderBlock(ls, indent)
  {
    out := "";
    var k := 0;
    while k < |ls|
      invariant k <= |ls|
      invariant out == RenderBlock(ls[..k], indent)
    {
      assert ls[..k + 1][..k] == ls[..k];
      out := out + IndentText(indent) + ":" + ls[k] + "\n";
      k := k + 1;
    }
    assert ls[..k] == ls;
  }

  // ---------------------------------------------------------------------------
  // What the written text is
  // ---------------------------------------------------------------------------

  /** Texts joined with one "\n" between consecutive ones and none after the last. */
  function Separated(ss: seq<string>): string
  {
    if ss == [] then ""
    else if |ss| == 1 then ss[0]
    else ss[0] + "\n" + Separated(ss[1..])
  }

  /** The texts of the first `k` children of `n`, each written at `indent`. */
  function ChildTexts(n: Node, k: nat, indent: Indent): (ts: seq<string>)
    requires k <= |n.children|
    ensures |ts| == k
  {
    seq(k, i requires 0 <= i < k => Render(n.children[i].1, n.children[i].0, indent))
  }

  /** Each line as `indent:line`. */
  function Prefixed(ls: seq<string>, indent: Indent): (ps: seq<string>)
    ensures |ps| == |ls|
  {
    seq(|ls|, i requires 0 <= i < |ls| => IndentText(indent) + ":" + ls[i])
  }

  lemma {:induction false} SeparatedSnoc(ss: seq<string>, t: string)
    ensures Separated(ss + [t]) == Separated(ss) + (if ss == [] then "" else "\n") + t
  {
    if ss == [] {
      assert ss + [t] == [t];
    } else if |ss| == 1 {
      assert ss + [t] == [ss[0], t];
      assert [ss[0], t][1..] == [t];
    } else {
      assert (ss + [t])[1..] == ss[1..] + [t];
      SeparatedSnoc(ss[1..], t);
    }
  }

  lemma {:induction false} RenderRootSeparated(n: Node, k: nat, indent: Indent)
    requires k <= |n.children|
    ensures RenderRoot(n, k, indent) == Separated(ChildTexts(n, k, indent))
  {
    if k > 0 {
      RenderRootSeparated(n, k - 1, indent);
      assert ChildTexts(n, k, indent) == ChildTexts(n, k - 1, indent) + [ChildTexts(n, k, indent)[k - 1]];
      SeparatedSnoc(ChildTexts(n, k - 1, indent), ChildTexts(n, k, indent)[k - 1]);
    }
  }

  /**
   * A root writes its children at its own indent, whatever name and indent it
   * is written under, with one "\n" between consecutive children and none
   * after the last.
   */
  lemma RootSeparated(n: Node, name: string, indent: Indent)
    requires n.kind.Root?
    ensures Render(n, name, indent) == Separated(ChildTexts(n, |n.children|, n.kind.indent))
  {
    RenderRootSeparated(n, |n.children|, n.kind.indent);
  }

  /** A block writes one `indent:line` line per data line, in order. */
  lemma {:induction false} BlockLines(ls: seq<string>, indent: Indent)
    ensures RenderBlock(ls, indent) == JoinLines(Prefixed(ls, indent))
  {
    if ls != [] {
      var init := ls[..|ls| - 1];
      BlockLines(init, indent);
      var last := IndentText(indent) + ":" + ls[|ls| - 1];
      assert Prefixed(ls, indent) == Prefixed(init, indent) + [last];
      JoinLinesConcat(Prefixed(init, indent), [last]);
      assert JoinLines([last]) == last + "\n" + JoinLines([]);
    }
  }

  /**
   * An attribute holding the lines `ls` writes ` name`, then its first line
   * quoted when `quote` holds and bare otherwise, or nothing more when it has
   * no data; its text has no '\n' when its name has none.
   */
  lemma AttrText(quote: bool, ls: seq<string>, cs: seq<(string, Node)>, name: string, indent: Indent)
    requires NoNewlines(ls)
    ensures var r := Render(Node(Attr(quote), JoinLines(ls), cs), name, indent);
      (ls == [] ==> r == " " + name) &&
      (ls != [] && quote ==> r == " " + name + "=\"" + ls[0] + "\"") &&
      (ls != [] && !quote ==> r == " " + name + "=" + ls[0]) &&
      ('\n' !in name ==> '\n' !in r)
  {
    LinesOfJoin(ls);
    AttrParts(Node(Attr(quote), JoinLines(ls), cs), name, indent);
    if ls != [] {
      assert '\n' !in ls[0];
      NoNewlineConcat(" " + name, if quote then "=\"" + ls[0] + "\"" else "=" + ls[0]);
    }
  }

  /** How an attribute's text falls into name and value. */
  lemma AttrParts(n: Node, name: string, indent: Indent)
    requires n.kind.Attr?
    ensures var ls := Lines(n.data);
      Render(n, name, indent)
      == " " + name + (if ls == [] then "" else if n.kind.quote then "=\"" + ls[0] + "\"" else "=" + ls[0])
  {
  }

  lemma NoNewlineConcat(a: string, b: string)
    ensures '\n' !in a && '\n' !in b ==> '\n' !in a + b
  {
  }

  /** How an element's text falls into header, data and other children. */
  lemma ElemParts(n: Node, name: string, indent: Indent)
    requires n.kind == Elem
    ensures var inner := Next(indent);
      var a := AttrPrefixLen(n.children);
      var ls := Lines(n.data);
      Render(n, name, indent)
      == IndentText(indent) + name + RenderRange(n, 0, a, inner)
         + (if a == 0 && |ls| == 1 then ": " + ls[0] + "\n" else "\n" + RenderBlock(ls, inner))
         + RenderRange(n, a, |n.children|, inner)
  {
  }

  /**
   * An element holding the lines `ls` writes `indent name`, its leading
   * attributes one level deeper, then `: line` on the same line exactly when
   * it has no leading attribute and one line, else a line break and one
   * `indent':line` line per data line, then its other children one level
   * deeper.
   */
  lemma ElemText(n: Node, ls: seq<string>, name: string, indent: Indent)
    requires n.kind == Elem && n.data == JoinLines(ls) && NoNewlines(ls)
    ensures var inner := Next(indent);
      var a := AttrPrefixLen(n.children);
      var head := IndentText(indent) + name + RenderRange(n, 0, a, inner);
      var tail := RenderRange(n, a, |n.children|, inner);
      (a == 0 && |ls| == 1 ==> Render(n, name, indent) == head + (": " + ls[0] + "\n") + tail) &&
      (!(a == 0 && |ls| == 1) ==> Render(n, name, indent) == head + ("\n" + JoinLines(Prefixed(ls, inner))) + tail)
  {
    LinesOfJoin(ls);
    BlockLines(ls, Next(indent));
    ElemParts(n, name, indent);
  }

  /**
   * Trees as the builder makes them: elements whose attribute children are
   * childless and come before all other children, which are such elements.
   */
  predicate Shaped(n: Node)
  {
    n.kind == Elem && AttrsFirst(n.children) &&
    forall i :: 0 <= i < |n.children| ==>
      (n.children[i].1.kind.Attr? && n.children[i].1.children == []) || Shaped(n.children[i].1)
  }

  /** No attribute comes after a child that is not one. */
  predicate AttrsFirst(cs: seq<(string, Node)>)
  {
    forall i, j :: 0 <= i < j < |cs| && cs[j].1.kind.Attr? ==> cs[i].1.kind.Attr?
  }

  /** Each child is a childless attribute or a shaped element. */
  predicate ChildrenShaped(cs: seq<(string, Node)>)
  {
    forall i :: 0 <= i < |cs| ==> (cs[i].1.kind.Attr? && cs[i].1.children == []) || Shaped(cs[i].1)
  }

  predicate NoAttrs(cs: seq<(string, Node)>)
  {
    forall i :: 0 <= i < |cs| ==> !cs[i].1.kind.Attr?
  }

  lemma {:induction false} RenderBlockEnd(ls: seq<string>, indent: Indent)
    ensures ls != [] ==> |RenderBlock(ls, indent)| > 0 && RenderBlock(ls, indent)[|RenderBlock(ls, indent)| - 1] == '\n'
  {
  }

  lemma {:induction false} RenderRangeEnd(n: Node, from: nat, to: nat, indent: Indent)
    requires from < to <= |n.children|
    requires Shaped(n) && AttrPrefixLen(n.children) <= from
    ensures var r := RenderRange(n, from, to, indent); |r| > 0 && r[|r| - 1] == '\n'
    decreases n, 0
  {
    var a := AttrPrefixLen(n.children);
    var c := n.children[to - 1];
    assert !n.children[a].1.kind.Attr?;
    assert !c.1.kind.Attr?;
    assert c.1 < n;
    ShapedEndsInNewline(c.1, c.0, indent);
  }

  /** Every element of such a tree writes text that ends in '\n'. */
  lemma {:induction false} ShapedEndsInNewline(n: Node, name: string, indent: Indent)
    requires Shaped(n)
    ensures var r := Render(n, name, indent); |r| > 0 && r[|r| - 1] == '\n'
    decreases n, 1
  {
    var inner := Next(indent);
    var a := AttrPrefixLen(n.children);
    var ls := Lines(n.data);
    if a < |n.children| {
      RenderRangeEnd(n, a, |n.children|, inner);
    } else {
      RenderBlockEnd(ls, inner);
    }
  }

  /**
   * The children built from the productions from the `i`-th on: childless
   * attributes or shaped elements, the attributes first, and no attribute at
   * all when no `attr` production is left.
   */
  lemma {:induction false} EntriesShaped(e: Event, i: nat)
    requires i <= |e.inner| && GrammarOrdered(e) && BuildEntries(e.inner[i..]).Ok?
    ensures var cs := BuildEntries(e.inner[i..]).value;
      ChildrenShaped(cs) && AttrsFirst(cs) &&
      ((forall k :: i <= k < |e.inner| ==> e.inner[k].rule != AttrRule) ==> NoAttrs(cs))
    decreases e, |e.inner| - i
  {
    if i < |e.inner| {
      var p := e.inner[i];
      SuffixStep(e.inner, i);
      var h := BuildEntry(p).value;
      EntriesShaped(e, i + 1);
      var t := BuildEntries(e.inner[i + 1..]).value;
      assert BuildEntries(e.inner[i..]).value == h + t;
      if p.rule == AttrRule {
        BuiltAttr(p);
        ShapedCons(BuildAttr(p).value, t);
      } else if p.rule == NodeRule {
        assert p < e;
        BuiltShaped(p);
        assert forall k :: i + 1 <= k < |e.inner| ==> e.inner[k].rule != AttrRule;
        ShapedCons(BuildNode(p).value, t);
      } else {
        assert h + t == t;
      }
    }
  }

  /** One more child in front keeps the children shaped. */
  lemma ShapedCons(c: (string, Node), t: seq<(string, Node)>)
    requires (c.1.kind.Attr? && c.1.children == []) || Shaped(c.1)
    requires ChildrenShaped(t) && AttrsFirst(t)
    requires !c.1.kind.Attr? ==> NoAttrs(t)
    ensures ChildrenShaped([c] + t) && AttrsFirst([c] + t)
    ensures NoAttrs(t) && !c.1.kind.Attr? ==> NoAttrs([c] + t)
  {
    var cs := [c] + t;
    assert forall k :: 1 <= k < |cs| ==> cs[k] == t[k - 1];
  }

  /** An element built from productions in the grammar's order is shaped. */
  lemma {:induction false} BuiltShaped(e: Event)
    requires GrammarOrdered(e) && BuildNode(e).Ok?
    ensures Shaped(BuildNode(e).value.1)
    decreases e, |e.inner| + 1
  {
    BuiltElemChildren(e);
    BuiltElemData(e);
    assert e.inner[0..] == e.inner;
    EntriesShaped(e, 0);
  }

  /** Every top-level node of a document in the grammar's order is shaped. */
  lemma DocumentShaped(evs: seq<Event>)
    requires forall k :: 0 <= k < |evs| && evs[k].rule == NodeRule ==> GrammarOrdered(evs[k])
    requires BuildRoot(Some(evs)).Ok?
    ensures var root := BuildRoot(Some(evs)).value;
      root.kind == Root(DefaultIndent()) &&
      forall k :: 0 <= k < |root.children| ==> Shaped(root.children[k].1)
  {
    BuildRootMeetsSpec(Some(evs));
    var e := Event(OtherRule(0), "", evs);
    TopNoAttr(evs);
    assert GrammarOrdered(e);
    assert evs[0..] == evs;
    EntriesShaped(e, 0);
  }

  /**
   * A document whose nodes come in the grammar's order is written as its
   * children's texts, each ending in '\n', with one '\n' between two: a
   * blank line separates consecutive top-level nodes.
   */
  lemma DocumentSeparated(evs: seq<Event>)
    requires forall k :: 0 <= k < |evs| && evs[k].rule == NodeRule ==> GrammarOrdered(evs[k])
    requires BuildRoot(Some(evs)).Ok?
    ensures var root := BuildRoot(Some(evs)).value;
      var ts := ChildTexts(root, |root.children|, DefaultIndent());
      Display(root) == Separated(ts) &&
      forall k :: 0 <= k < |ts| ==> |ts[k]| > 0 && ts[k][|ts[k]| - 1] == '\n'
  {
    DocumentShaped(evs);
    var root := BuildRoot(Some(evs)).value;
    RootSeparated(root, "", DefaultIndent());
    ChildTextsEndInNewline(root, DefaultIndent());
  }

  /** Shaped children each write text ending in '\n'. */
  lemma ChildTextsEndInNewline(n: Node, indent: Indent)
    requires forall k :: 0 <= k < |n.children| ==> Shaped(n.children[k].1)
    ensures var ts := ChildTexts(n, |n.children|, indent);
      forall k :: 0 <= k < |ts| ==> |ts[k]| > 0 && ts[k][|ts[k]| - 1] == '\n'
  {
    var ts := ChildTexts(n, |n.children|, indent);
    forall k | 0 <= k < |ts|
      ensures |ts[k]| > 0 && ts[k][|ts[k]| - 1] == '\n'
    {
      ShapedEndsInNewline(n.children[k].1, n.children[k].0, indent);
    }
  }

  /** A top-level production is never an attribute. */
  lemma {:induction false} TopNoAttr(evs: seq<Event>)
    requires AllTopParts(evs)
    ensures forall k :: 0 <= k < |evs| ==> evs[k].rule != AttrRule
  {
    if evs != [] {
      TopNoAttr(evs[1..]);
      assert forall k :: 1 <= k < |evs| ==> evs[k] == evs[1..][k - 1];
    }
  }

  // ---------------------------------------------------------------------------
  // Examples
  // ---------------------------------------------------------------------------

  /** The lines `name: value` of a document, each ended by '\n'. */
  function InlineLines(ps: seq<(string, string)>): (ts: seq<string>)
    ensures |ts| == |ps|
  {
    seq(|ps|, i requires 0 <= i < |ps| => ps[i].0 + ": " + ps[i].1 + "\n")
  }

  /** An element holding one line and no children is written as `name: line`. */
  lemma InlineElemText(name: string, v: string)
    requires '\n' !in v
    ensures Render(Node(Elem, v + "\n", []), name, DefaultIndent()) == name + ": " + v + "\n"
  {
    var c := Node(Elem, v + "\n", []);
    assert c.data == JoinLines([v]) by {
      assert JoinLines([v]) == v + "\n" + JoinLines([]);
    }
    ElemText(c, [v], name, DefaultIndent());
    assert IndentText(DefaultIndent()) == "";
  }

  /** Each element built from a `name: value` line is written back as `name: value`. */
  lemma InlineDocumentChildren(ps: seq<(string, string)>)
    requires forall i :: 0 <= i < |ps| ==> '\n' !in ps[i].1
    ensures var r := BuildRoot(Some(InlineDocument(ps)));
      r.Ok? && r.value.kind == Root(DefaultIndent()) &&
      ChildTexts(r.value, |r.value.children|, DefaultIndent()) == InlineLines(ps)
  {
    InlineDocumentEntries(ps);
    BuildRootMeetsSpec(Some(InlineDocument(ps)));
    var root := BuildRoot(Some(InlineDocument(ps))).value;
    var ts := ChildTexts(root, |root.children|, DefaultIndent());
    forall i | 0 <= i < |ps|
      ensures ts[i] == InlineLines(ps)[i]
    {
      assert root.children[i] == (ps[i].0, Node(Elem, ps[i].1 + "\n", []));
      InlineElemText(ps[i].0, ps[i].1);
    }
  }

  /**
   * A document of `name: value` lines, once built, is written back as the
   * same lines with ": " after each name, a blank line between two.
   */
  lemma InlineDocumentText(ps: seq<(string, string)>)
    requires forall i :: 0 <= i < |ps| ==> '\n' !in ps[i].1
    ensures var r := BuildRoot(Some(InlineDocument(ps)));
      r.Ok? && Display(r.value) == Separated(InlineLines(ps))
  {
    InlineDocumentChildren(ps);
    var root := BuildRoot(Some(InlineDocument(ps))).value;
    RootSeparated(root, "", DefaultIndent());
  }

  lemma OrderedIterationLines()
    ensures Separated(InlineLines([("0", "a"), ("1", "b"), ("2", "c"), ("1", "d"), ("3", "e")]))
      == "0: a\n\n1: b\n\n2: c\n\n1: d\n\n3: e\n"
  {
    OrderedIterationLineTexts();
    SeparatedFive(["0: a\n", "1: b\n", "2: c\n", "1: d\n", "3: e\n"]);
  }

  lemma OrderedIterationLineTexts()
    ensures InlineLines([("0", "a"), ("1", "b"), ("2", "c"), ("1", "d"), ("3", "e")])
      == ["0: a\n", "1: b\n", "2: c\n", "1: d\n", "3: e\n"]
  {
    var ts := InlineLines([("0", "a"), ("1", "b"), ("2", "c"), ("1", "d"), ("3", "e")]);
    assert ts[0] == "0: a\n" && ts[1] == "1: b\n" && ts[2] == "2: c\n" && ts[3] == "1: d\n" && ts[4] == "3: e\n";
  }

  lemma SeparatedFive(ts: seq<string>)
    requires |ts| == 5
    ensures Separated(ts) == ts[0] + "\n" + (ts[1] + "\n" + (ts[2] + "\n" + (ts[3] + "\n" + ts[4])))
  {
    assert ts[1..][1..] == ts[2..] && ts[2..][1..] == ts[3..] && ts[3..][1..] == ts[4..];
    assert Separated(ts[4..]) == ts[4];
    assert Separated(ts[3..]) == ts[3] + "\n" + ts[4];
    assert Separated(ts[2..]) == ts[2] + "\n" + Separated(ts[3..]);
    assert Separated(ts[1..]) == ts[1] + "\n" + Separated(ts[2..]);
  }

  /** The document `0:a 1:b 2:c 1:d 3:e` (one per line) is written back with a blank line between its lines. */
  lemma OrderedIterationText()
    ensures var r := BuildRoot(Some(InlineDocument([("0", "a"), ("1", "b"), ("2", "c"), ("1", "d"), ("3", "e")])));
      r.Ok? && Display(r.value) == "0: a\n\n1: b\n\n2: c\n\n1: d\n\n3: e\n"
  {
    InlineDocumentText([("0", "a"), ("1", "b"), ("2", "c"), ("1", "d"), ("3", "e")]);
    OrderedIterationLines();
  }

  /**
   * Equal nodes can be written differently: equality ignores the quote flag,
   * which decides how an attribute's value is written.
   */
  lemma EqualButWrittenDifferently(v: string, name: string, indent: Indent)
    requires '\n' !in v
    ensures var q := Node(Attr(true), v + "\n", []);
      var u := Node(Attr(false), v + "\n", []);
      NodeEq(q, u) && Render(q, name, indent) == " " + name + "=\"" + v + "\""
      && Render(u, name, indent) == " " + name + "=" + v
      && Render(q, name, indent) != Render(u, name, indent)
  {
    var q := Node(Attr(true), v + "\n", []);
    assert v + "\n" == JoinLines([v]) by {
      assert JoinLines([v]) == v + "\n" + JoinLines([]);
    }
    AttrText(true, [v], [], name, indent);
    AttrText(false, [v], [], name, indent);
    NodeEqIgnoresKind(q, Attr(false));
    assert q.(kind := Attr(false)) == Node(Attr(false), v + "\n", []);
    QuotedLonger(name, v);
  }

  lemma QuotedLonger(name: string, v: string)
    ensures |" " + name + "=\"" + v + "\""| == |" " + name + "=" + v| + 2
  {
  }

  /**
   * After `set_indent`, a root writes its children at the new indent, and the
   * node is still equal to what it was.
   */
  lemma SetIndentText(n: Node, unit: string, repeat: nat)
    requires n.kind.Root?
    ensures SetIndent(n, unit, repeat).Ok?
    ensures var m := SetIndent(n, unit, repeat).value;
      NodeEq(m, n) &&
      Display(m) == Separated(ChildTexts(n, |n.children|, Indent(unit, repeat)))
  {
    var m := SetIndent(n, unit, repeat).value;
    RootSeparated(m, "", DefaultIndent());
    assert ChildTexts(m, |m.children|, Indent(unit, repeat)) == ChildTexts(n, |n.children|, Indent(unit, repeat));
  }
}
