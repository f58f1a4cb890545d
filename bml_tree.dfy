/*
 * The in-memory BML tree: the kind of a node, the indent policy of the root,
 * nodes with their data lines and their insertion-ordered multimap of children,
 * and the queries and updates over them (src/lib.rs, BmlKind, BmlIndent, BmlNode).
 */
module BmlTree {

  datatype Option<T> = None | Some(value: T)

  datatype Result<T, E> = Ok(value: T) | Err(error: E)

  // ---------------------------------------------------------------------------
  // Indent policy
  // ---------------------------------------------------------------------------

  /** How nesting is rendered: `unit` written `repeat` times. */
  datatype Indent = Indent(unit: string, repeat: nat)

  /** Two spaces per level and no indentation of the top level. */
  function DefaultIndent(): (d: Indent)
    ensures d.unit == "  " && d.repeat == 0 && IndentText(d) == []
  {
    Indent("  ", 0)
  }

  /** The policy one nesting level deeper. */
  function Next(i: Indent): (r: Indent)
    ensures r.unit == i.unit && r.repeat == i.repeat + 1
    ensures |IndentText(r)| == |IndentText(i)| + |i.unit|
  {
    i.(repeat := i.repeat + 1)
  }

  /** The text of an indent: `unit` repeated `repeat` times. */
  function IndentText(i: Indent): (s: string)
    ensures |s| == |i.unit| * i.repeat
    decreases i.repeat
  {
    if i.repeat == 0 then [] else i.unit + IndentText(i.(repeat := i.repeat - 1))
  }

  /** Going one level deeper adds exactly one `unit` to the rendered indent. */
  lemma {:induction false} NextIndentText(i: Indent)
    ensures Next(i).unit == i.unit && Next(i).repeat == i.repeat + 1
    ensures IndentText(Next(i)) == IndentText(i) + i.unit
    decreases i.repeat
  {
    if i.repeat > 0 {
      var j := i.(repeat := i.repeat - 1);
      NextIndentText(j);
      assert Next(j) == i;
      assert IndentText(Next(i)) == i.unit + IndentText(i);
      calc {
        IndentText(Next(i));
        i.unit + IndentText(Next(j));
        i.unit + (IndentText(j) + i.unit);
        (i.unit + IndentText(j)) + i.unit;
        IndentText(i) + i.unit;
      }
    }
  }

  // ---------------------------------------------------------------------------
  // Node kind
  // ---------------------------------------------------------------------------

  /** Root carries the indent policy, an attribute whether its value is quoted. */
  datatype Kind = Root(indent: Indent) | Elem | Attr(quote: bool)

  /** Kind equality as the node model defines it: only the variant counts. */
  predicate SameKind(a: Kind, b: Kind): (r: bool)
    ensures r <==> Erased(a) == Erased(b)
  {
    match a
    case Root(_) => b.Root?
    case Elem => b.Elem?
    case Attr(_) => b.Attr?
  }

  /** A kind with its payload reset to a fixed value. */
  function Erased(k: Kind): Kind
  {
    match k
    case Root(_) => Root(DefaultIndent())
    case Elem => Elem
    case Attr(_) => Attr(true)
  }

  /** Kind equality is an equivalence. */
  lemma SameKindEquivalence(a: Kind, b: Kind, c: Kind)
    ensures SameKind(a, a)
    ensures SameKind(a, b) ==> SameKind(b, a)
    ensures SameKind(a, b) && SameKind(b, c) ==> SameKind(a, c)
  {
  }

  // ---------------------------------------------------------------------------
  // Nodes
  // ---------------------------------------------------------------------------

  /**
   * A node: its kind, its data (lines each ended by '\n') and its children,
   * an insertion-ordered multimap kept as a sequence of (name, node) pairs.
   */
  datatype Node = Node(kind: Kind, data: string, children: seq<(string, Node)>)

  /** An empty root with the default indent. */
  function RootNode(): (r: Node)
    ensures r.kind == Root(DefaultIndent()) && NodeLines(r) == [] && Nodes(r) == []
  {
    Node(Root(DefaultIndent()), [], [])
  }

  /** An empty element. */
  function ElemNode(): (r: Node)
    ensures r.kind == Elem && NodeLines(r) == [] && Nodes(r) == []
  {
    Node(Elem, [], [])
  }

  /** An empty attribute, quoted until the builder learns otherwise. */
  function AttrNode(): (r: Node)
    ensures r.kind == Attr(true) && NodeLines(r) == [] && Nodes(r) == []
  {
    Node(Attr(true), [], [])
  }

  /** Adds a child under `name` after all existing children. */
  function Append(n: Node, name: string, child: Node): (r: Node)
    ensures |r.children| == |n.children| + 1
    ensures r.children[..|n.children|] == n.children && r.children[|n.children|] == (name, child)
    ensures r.kind == n.kind && r.data == n.data
  {
    n.(children := n.children + [(name, child)])
  }

  /** All children as (name, node) pairs, in append order. */
  function Nodes(n: Node): (r: seq<(string, Node)>)
    ensures r == n.children
  {
    n.children
  }

  /** Every child is found again among the children of its own name. */
  lemma NodesGrouped(n: Node)
    ensures forall i :: 0 <= i < |n.children| ==> n.children[i].1 in Named(n, n.children[i].0)
  {
    forall i | 0 <= i < |n.children|
      ensures n.children[i].1 in Named(n, n.children[i].0)
    {
      var key := n.children[i].0;
      var ix := KeyIndices(n.children, key);
      assert i in ix;
      var j :| 0 <= j < |ix| && ix[j] == i;
      assert Named(n, key)[j] == n.children[i].1;
    }
  }

  /** The children appended under `name`, in their relative order. */
  function Named(n: Node, name: string): (r: seq<Node>)
    ensures var ix := KeyIndices(n.children, name);
      |r| == |ix| && forall j :: 0 <= j < |ix| ==> r[j] == n.children[ix[j]].1
  {
    NamedInExactly(n.children, name);
    NamedIn(n.children, name)
  }

  function NamedIn(cs: seq<(string, Node)>, name: string): (r: seq<Node>)
    ensures |r| <= |cs|
  {
    if cs == [] then []
    else NamedIn(cs[..|cs| - 1], name) + (if cs[|cs| - 1].0 == name then [cs[|cs| - 1].1] else [])
  }

  /** The positions of the children whose key is `name`, ascending. */
  function KeyIndices(cs: seq<(string, Node)>, name: string): (ix: seq<nat>)
    ensures forall j :: 0 <= j < |ix| ==> ix[j] < |cs| && cs[ix[j]].0 == name
    ensures forall j, k :: 0 <= j < k < |ix| ==> ix[j] < ix[k]
    ensures forall i :: 0 <= i < |cs| && cs[i].0 == name ==> i in ix
  {
    if cs == [] then []
    else KeyIndices(cs[..|cs| - 1], name) + (if cs[|cs| - 1].0 == name then [|cs| - 1] else [])
  }

  lemma {:induction false} NamedInExactly(cs: seq<(string, Node)>, name: string)
    ensures var r, ix := NamedIn(cs, name), KeyIndices(cs, name);
      |r| == |ix| && forall j :: 0 <= j < |ix| ==> r[j] == cs[ix[j]].1
  {
    if cs != [] {
      var front := cs[..|cs| - 1];
      NamedInExactly(front, name);
      var ix0 := KeyIndices(front, name);
      forall j | 0 <= j < |ix0|
        ensures front[ix0[j]] == cs[ix0[j]]
      {
      }
    }
  }

  /**
   * Appending keeps every earlier child where it was and adds the new one
   * last, both in the whole sequence and in the group of its name; groups
   * are never merged or reordered.
   */
  lemma AppendOrdered(n: Node, name: string, child: Node, key: string)
    ensures Nodes(Append(n, name, child)) == Nodes(n) + [(name, child)]
    ensures Named(Append(n, name, child), key)
         == Named(n, key) + (if key == name then [child] else [])
    ensures Append(n, name, child).kind == n.kind && Append(n, name, child).data == n.data
  {
    var cs := n.children + [(name, child)];
    assert cs[..|cs| - 1] == n.children;
  }

  // ---------------------------------------------------------------------------
  // Data lines and the value
  // ---------------------------------------------------------------------------

  /** The position of the first '\n' in `s`, or `|s|` when there is none. */
  function NewlineIndex(s: string): (k: nat)
    ensures k <= |s|
    ensures forall j :: 0 <= j < k ==> s[j] != '\n'
    ensures k < |s| ==> s[k] == '\n'
  {
    if s == [] || s[0] == '\n' then 0 else 1 + NewlineIndex(s[1..])
  }

  /**
   * The lines of `s` as `str::lines` gives them for '\n' endings: split at
   * every '\n', without a trailing empty line after a final '\n'.
   */
  function Lines(s: string): (ls: seq<string>)
    ensures forall j :: 0 <= j < |ls| ==> '\n' !in ls[j]
    ensures ls == [] <==> s == []
    decreases |s|
  {
    if s == [] then []
    else
      var k := NewlineIndex(s);
      if k == |s| then [s] else [s[..k]] + Lines(s[k + 1..])
  }

  /** Lines each written with its '\n', as the builder stores them. */
  function JoinLines(ls: seq<string>): (s: string)
  {
    if ls == [] then [] else ls[0] + "\n" + JoinLines(ls[1..])
  }

  /** Lines separated by '\n', without a final one. */
  function Interleave(ls: seq<string>): string
    requires ls != []
  {
    if |ls| == 1 then ls[0] else ls[0] + "\n" + Interleave(ls[1..])
  }

  predicate NoNewlines(ls: seq<string>)
  {
    forall j :: 0 <= j < |ls| ==> '\n' !in ls[j]
  }

  lemma {:induction false} JoinLinesConcat(a: seq<string>, b: seq<string>)
    ensures JoinLines(a + b) == JoinLines(a) + JoinLines(b)
  {
    if a == [] {
      assert a + b == b;
    } else {
      assert (a + b)[0] == a[0] && (a + b)[1..] == a[1..] + b;
      JoinLinesConcat(a[1..], b);
    }
  }

  /** Stored data is non-empty exactly when it has a line, and then ends in '\n'. */
  lemma {:induction false} JoinLinesEnd(ls: seq<string>)
    ensures JoinLines(ls) == [] <==> ls == []
    ensures ls != [] ==> JoinLines(ls)[|JoinLines(ls)| - 1] == '\n'
  {
    if ls != [] && ls[1..] != [] {
      JoinLinesEnd(ls[1..]);
    }
  }

  lemma {:induction false} NewlineIndexAfter(x: string, rest: string)
    requires '\n' !in x
    ensures NewlineIndex(x + "\n" + rest) == |x|
  {
    var s := x + "\n" + rest;
    if x == [] {
      assert s[0] == '\n';
    } else {
      assert s[0] == x[0] && s[1..] == x[1..] + "\n" + rest;
      NewlineIndexAfter(x[1..], rest);
    }
  }

  /** Splitting stored data into lines gives back exactly the lines stored. */
  lemma {:induction false} LinesOfJoin(ls: seq<string>)
    requires NoNewlines(ls)
    ensures Lines(JoinLines(ls)) == ls
  {
    if ls != [] {
      var rest := JoinLines(ls[1..]);
      var s := ls[0] + "\n" + rest;
      assert '\n' !in ls[0];
      NewlineIndexAfter(ls[0], rest);
      assert s[..|ls[0]|] == ls[0];
      assert s[|ls[0]| + 1..] == rest;
      LinesOfJoin(ls[1..]);
    }
  }

  /** Data that is empty or ends in '\n' is rebuilt exactly from its lines. */
  lemma {:induction false} JoinLinesOfLines(s: string)
    requires s == [] || s[|s| - 1] == '\n'
    ensures JoinLines(Lines(s)) == s
    decreases |s|
  {
    if s != [] {
      var k := NewlineIndex(s);
      LinesStep(s);
      JoinLinesOfLines(s[k + 1..]);
      JoinLinesCons(s[..k], Lines(s[k + 1..]));
    }
  }

  /** Data ending in '\n' splits into its first line and the data after it. */
  lemma LinesStep(s: string)
    requires s != [] && s[|s| - 1] == '\n'
    ensures var k := NewlineIndex(s);
      k < |s| && Lines(s) == [s[..k]] + Lines(s[k + 1..]) && s == s[..k] + "\n" + s[k + 1..] &&
      (s[k + 1..] == [] || s[k + 1..][|s[k + 1..]| - 1] == '\n')
  {
    var k := NewlineIndex(s);
    assert s[|s| - 1] == '\n';
    assert k < |s|;
    assert s == s[..k] + [s[k]] + s[k + 1..];
  }

  lemma JoinLinesCons(line: string, ls: seq<string>)
    ensures JoinLines([line] + ls) == line + "\n" + JoinLines(ls)
  {
    assert ([line] + ls)[0] == line && ([line] + ls)[1..] == ls;
  }

  /** The value: the data with its last character (the final '\n') removed. */
  function Value(n: Node): (v: string)
    requires |n.data| > 0
    ensures n.data == v + [n.data[|n.data| - 1]]
  {
    n.data[..|n.data| - 1]
  }

  /** Its data lines, split at '\n'. */
  function NodeLines(n: Node): (ls: seq<string>)
    ensures ls == [] <==> n.data == []
  {
    Lines(n.data)
  }

  lemma {:induction false} JoinLinesInterleave(ls: seq<string>)
    requires ls != []
    ensures JoinLines(ls) == Interleave(ls) + "\n"
  {
    if |ls| > 1 {
      JoinLinesInterleave(ls[1..]);
    }
  }

  /**
   * For data stored as lines, the value is those lines joined by '\n';
   * for a single line it is that line.
   */
  lemma ValueOfLines(n: Node, ls: seq<string>)
    requires n.data == JoinLines(ls) && ls != []
    ensures |n.data| > 0 && Value(n) == Interleave(ls)
    ensures |ls| == 1 ==> Value(n) == ls[0]
  {
    JoinLinesInterleave(ls);
  }

  // ---------------------------------------------------------------------------
  // Root indent
  // ---------------------------------------------------------------------------

  datatype UsageError = NotRoot

  /**
   * Replaces the indent policy of a root; any other node refuses it (the
   * source panics there).
   */
  function SetIndent(n: Node, unit: string, repeat: nat): (r: Result<Node, UsageError>)
    ensures r.Ok? <==> n.kind.Root?
    ensures r.Err? ==> r.error == NotRoot
    ensures r.Ok? ==> (r.value.kind == Root(Indent(unit, repeat))
                       && r.value.data == n.data && r.value.children == n.children
                       && NodeEq(r.value, n))
  {
    match n.kind
    case Root(_) =>
      NodeEqIgnoresKind(n, Root(Indent(unit, repeat)));
      NodeEqEquivalence(n, n.(kind := Root(Indent(unit, repeat))), n);
      Ok(n.(kind := Root(Indent(unit, repeat))))
    case _ => Err(NotRoot)
  }

  // ---------------------------------------------------------------------------
  // Node equality
  // ---------------------------------------------------------------------------

  /** Node equality: same data and same children, kind not compared. */
  predicate NodeEq(a: Node, b: Node): (r: bool)
    ensures r ==> NodeLines(a) == NodeLines(b)
  {
    a.data == b.data && |a.children| == |b.children| &&
    forall i :: 0 <= i < |a.children| ==>
      a.children[i].0 == b.children[i].0 && NodeEq(a.children[i].1, b.children[i].1)
  }

  /** What equality looks at: a tree of data and named children, without kinds. */
  datatype Content = Content(data: string, children: seq<(string, Content)>)

  function ContentOf(n: Node): (c: Content)
    ensures c.data == n.data && |c.children| == |n.children|
  {
    Content(n.data, seq(|n.children|, i requires 0 <= i < |n.children| =>
      (n.children[i].0, ContentOf(n.children[i].1))))
  }

  /** Two nodes are equal exactly when their kind-free contents are identical. */
  lemma {:induction false} NodeEqIffSameContent(a: Node, b: Node)
    ensures NodeEq(a, b) <==> ContentOf(a) == ContentOf(b)
  {
    if NodeEq(a, b) {
      forall i | 0 <= i < |a.children|
        ensures ContentOf(a).children[i] == ContentOf(b).children[i]
      {
        NodeEqIffSameContent(a.children[i].1, b.children[i].1);
      }
      assert ContentOf(a).children == ContentOf(b).children;
    }
    if ContentOf(a) == ContentOf(b) {
      forall i | 0 <= i < |a.children|
        ensures a.children[i].0 == b.children[i].0 && NodeEq(a.children[i].1, b.children[i].1)
      {
        assert ContentOf(a).children[i] == ContentOf(b).children[i];
        NodeEqIffSameContent(a.children[i].1, b.children[i].1);
      }
    }
  }

  /** Node equality is an equivalence. */
  lemma NodeEqEquivalence(a: Node, b: Node, c: Node)
    ensures NodeEq(a, a)
    ensures NodeEq(a, b) ==> NodeEq(b, a)
    ensures NodeEq(a, b) && NodeEq(b, c) ==> NodeEq(a, c)
  {
    NodeEqIffSameContent(a, a);
    NodeEqIffSameContent(a, b);
    NodeEqIffSameContent(b, a);
    NodeEqIffSameContent(b, c);
    NodeEqIffSameContent(a, c);
  }

  /** Changing only the kind (indent, quote, variant) never changes equality. */
  lemma NodeEqIgnoresKind(n: Node, k: Kind)
    ensures NodeEq(n, n.(kind := k))
  {
    assert ContentOf(n) == ContentOf(n.(kind := k));
    NodeEqIffSameContent(n, n.(kind := k));
  }

  /** The three constructors give equal nodes that differ in kind only. */
  lemma ConstructorsEqual()
    ensures NodeEq(RootNode(), ElemNode()) && NodeEq(ElemNode(), AttrNode())
    ensures !SameKind(RootNode().kind, ElemNode().kind)
    ensures !SameKind(ElemNode().kind, AttrNode().kind)
    ensures !SameKind(RootNode().kind, AttrNode().kind)
  {
  }
}
