/*
 * The tree builder (src/lib.rs, `try_from` and its inner `parse_node`): it
 * walks the nested productions the grammar yields and turns them into a
 * tree, appending data lines, attributes and elements in the order it meets
 * them. The grammar itself is not part of this model: its output is given
 * as a tree of `Event`s, or as `None` when it rejects the text.
 */
module BmlBuilder {
  import opened BmlTree

  /** The productions the builder routes; every other production is an `OtherRule`. */
  datatype Rule = NodeRule | NameRule | DataRule | AttrRule | SpaceDataInner | Eoi | OtherRule(id: nat)

  /** One production: its rule, the text it spans and the productions nested in it. */
  datatype Event = Event(rule: Rule, text: string, inner: seq<Event>)

  /** A syntax error of the grammar, or a production the builder has no case for. */
  datatype BmlError = Syntax | Unreachable

  /** The text spanned by a run of productions: their texts one after another. */
  function Span(evs: seq<Event>): string
  {
    if evs == [] then [] else evs[0].text + Span(evs[1..])
  }

  // ---------------------------------------------------------------------------
  // Specification of the loops, one production at a time
  // ---------------------------------------------------------------------------

  /**
   * The tokens of one `data` production of an attribute, from the `j`-th on:
   * each becomes a line; an unquoted token clears the quote flag.
   */
  function AttrTokens(toks: seq<Event>, j: nat, a: Node): Node
    requires j <= |toks|
    decreases |toks| - j
  {
    if j == |toks| then a
    else
      var d := toks[j];
      var a' := if d.rule == SpaceDataInner then a.(kind := Attr(false)) else a;
      AttrTokens(toks, j + 1, a'.(data := a'.data + d.text + "\n"))
  }

  /** The productions of an attribute from the `i`-th on. */
  function AttrFold(e: Event, i: nat, name: string, a: Node): (r: Result<(string, Node), BmlError>)
    requires i <= |e.inner|
    ensures r.Err? ==> r.error == Unreachable
    decreases |e.inner| - i
  {
    if i == |e.inner| then Ok((name, a))
    else
      var p := e.inner[i];
      match p.rule
      case NameRule => AttrFold(e, i + 1, p.text, a)
      case DataRule => AttrFold(e, i + 1, name, AttrTokens(p.inner, 0, a))
      case _ => Err(Unreachable)
  }

  /** An `attr` production as a (name, attribute) pair. */
  function BuildAttr(e: Event): (r: Result<(string, Node), BmlError>)
    ensures r.Err? ==> r.error == Unreachable
  {
    AttrFold(e, 0, "", AttrNode())
  }

  /** A `node` production as a (name, element) pair. */
  function BuildNode(e: Event): (r: Result<(string, Node), BmlError>)
    ensures r.Err? ==> r.error == Unreachable
    decreases e, |e.inner| + 1
  {
    NodeFold(e, 0, "", ElemNode())
  }

  /** The productions of a node from the `i`-th on. */
  function NodeFold(e: Event, i: nat, name: string, n: Node): (r: Result<(string, Node), BmlError>)
    requires i <= |e.inner|
    ensures r.Err? ==> r.error == Unreachable
    decreases e, |e.inner| - i
  {
    if i == |e.inner| then Ok((name, n))
    else
      var p := e.inner[i];
      match p.rule
      case NameRule => NodeFold(e, i + 1, p.text, n)
      case DataRule => NodeFold(e, i + 1, name, n.(data := n.data + Span(p.inner) + "\n"))
      case AttrRule =>
        (match BuildAttr(p)
         case Err(x) => Err(x)
         case Ok(c) => NodeFold(e, i + 1, name, Append(n, c.0, c.1)))
      case NodeRule =>
        (match BuildNode(p)
         case Err(x) => Err(x)
         case Ok(c) => NodeFold(e, i + 1, name, Append(n, c.0, c.1)))
      case _ => Err(Unreachable)
  }

  /** The top-level productions from the `i`-th on. */
  function RootFold(evs: seq<Event>, i: nat, root: Node): (r: Result<Node, BmlError>)
    requires i <= |evs|
    ensures r.Err? ==> r.error == Unreachable
    decreases |evs| - i
  {
    if i == |evs| then Ok(root)
    else
      match evs[i].rule
      case NodeRule =>
        (match BuildNode(evs[i])
         case Err(x) => Err(x)
         case Ok(c) => RootFold(evs, i + 1, Append(root, c.0, c.1)))
      case Eoi => RootFold(evs, i + 1, root)
      case _ => Err(Unreachable)
  }

  /** The whole document: `None` is text the grammar rejected. */
  function BuildRoot(parsed: Option<seq<Event>>): Result<Node, BmlError>
  {
    match parsed
    case None => Err(Syntax)
    case Some(evs) => RootFold(evs, 0, RootNode())
  }

  // ---------------------------------------------------------------------------
  // The builder
  // ---------------------------------------------------------------------------

  /** The `attr` arm of `parse_node`. */
  method ParseAttr(e: Event) returns (r: Result<(string, Node), BmlError>)
    ensures r == BuildAttr(e) && r == AttrSpec(e)
  {
    BuildAttrMeetsSpec(e);
    var name := "";
    var attr := AttrNode();
    var i := 0;
    while i < |e.inner|
      invariant i <= |e.inner|
      invariant AttrFold(e, i, name, attr) == BuildAttr(e)
    {
      var p := e.inner[i];
      match p.rule {
        case NameRule =>
          name := p.text;
        case DataRule =>
          ghost var start := attr;
          var j := 0;
          while j < |p.inner|
            invariant j <= |p.inner|
            invariant AttrTokens(p.inner, j, attr) == AttrTokens(p.inner, 0, start)
          {
            var d := p.inner[j];
            if d.rule == SpaceDataInner {
              attr := attr.(kind := Attr(false));
            }
            attr := attr.(data := attr.data + d.text + "\n");
            j := j + 1;
          }
        case _ =>
          return Err(Unreachable);
      }
      i := i + 1;
    }
    return Ok((name, attr));
  }

  /** `parse_node`: one `node` production, its nested nodes built recursively. */
  method ParseNode(e: Event) returns (r: Result<(string, Node), BmlError>)
    ensures r == BuildNode(e) && r == NodeSpec(e)
    decreases e
  {
    BuildNodeMeetsSpec(e);
    var name := "";
    var node := ElemNode();
    var i := 0;
    while i < |e.inner|
      invariant i <= |e.inner|
      invariant NodeFold(e, i, name, node) == BuildNode(e)
    {
      var p := e.inner[i];
      match p.rule {
        case NameRule =>
          name := p.text;
        case DataRule =>
          node := node.(data := node.data + Span(p.inner) + "\n");
        case AttrRule =>
          var a := ParseAttr(p);
          if a.Err? {
            return Err(a.error);
          }
          node := Append(node, a.value.0, a.value.1);
        case NodeRule =>
          var c := ParseNode(p);
          if c.Err? {
            return Err(c.error);
          }
          node := Append(node, c.value.0, c.value.1);
        case _ =>
          return Err(Unreachable);
      }
      i := i + 1;
    }
    return Ok((name, node));
  }

  /** `try_from`: the top-level productions appended to a fresh root. */
  method TryFrom(parsed: Option<seq<Event>>) returns (r: Result<Node, BmlError>)
    ensures r == BuildRoot(parsed) && r == RootSpec(parsed)
  {
    BuildRootMeetsSpec(parsed);
    if parsed.None? {
      return Err(Syntax);
    }
    var evs := parsed.value;
    var root := RootNode();
    var i := 0;
    while i < |evs|
      invariant i <= |evs|
      invariant RootFold(evs, i, root) == BuildRoot(parsed)
    {
      match evs[i].rule {
        case NodeRule =>
          var c := ParseNode(evs[i]);
          if c.Err? {
            return Err(c.error);
          }
          root := Append(root, c.value.0, c.value.1);
        case Eoi =>
        case _ =>
          return Err(Unreachable);
      }
      i := i + 1;
    }
    return Ok(root);
  }

  // ---------------------------------------------------------------------------
  // What the builder produces, stated per production
  // ---------------------------------------------------------------------------

  /** Productions a `node` may contain. */
  predicate NodePart(p: Event)
  {
    p.rule == NameRule || p.rule == DataRule || p.rule == AttrRule || p.rule == NodeRule
  }

  /** Productions an `attr` may contain. */
  predicate AttrPart(p: Event)
  {
    p.rule == NameRule || p.rule == DataRule
  }

  /** Productions the document may contain at top level. */
  predicate TopPart(p: Event)
  {
    p.rule == NodeRule || p.rule == Eoi
  }

  predicate AllNodeParts(evs: seq<Event>)
  {
    evs == [] || (NodePart(evs[0]) && AllNodeParts(evs[1..]))
  }

  predicate AllAttrParts(evs: seq<Event>)
  {
    evs == [] || (AttrPart(evs[0]) && AllAttrParts(evs[1..]))
  }

  predicate AllTopParts(evs: seq<Event>)
  {
    evs == [] || (TopPart(evs[0]) && AllTopParts(evs[1..]))
  }

  /** No `attr` production comes after a `node` production. */
  predicate AttrsBeforeNodes(evs: seq<Event>)
  {
    forall i, j :: 0 <= i < j < |evs| && evs[i].rule == NodeRule ==> evs[j].rule != AttrRule
  }

  /**
   * The order the grammar gives a node's productions, at every depth: its
   * attributes are written on its header line, before any nested node.
   */
  predicate GrammarOrdered(e: Event)
  {
    AttrsBeforeNodes(e.inner) &&
    forall i :: 0 <= i < |e.inner| && e.inner[i].rule == NodeRule ==> GrammarOrdered(e.inner[i])
  }

  /** The text of the last `name` production, or `dflt` when there is none. */
  function LastName(evs: seq<Event>, dflt: string): string
  {
    if evs == [] then dflt
    else LastName(evs[1..], if evs[0].rule == NameRule then evs[0].text else dflt)
  }

  /** One line per `data` production of a node, in order. */
  function DataLines(evs: seq<Event>): seq<string>
  {
    if evs == [] then []
    else (if evs[0].rule == DataRule then [Span(evs[0].inner)] else []) + DataLines(evs[1..])
  }

  function TokenTexts(toks: seq<Event>): seq<string>
  {
    if toks == [] then [] else [toks[0].text] + TokenTexts(toks[1..])
  }

  /** One line per token of every `data` production of an attribute, in order. */
  function AttrLines(evs: seq<Event>): seq<string>
  {
    if evs == [] then []
    else (if evs[0].rule == DataRule then TokenTexts(evs[0].inner) else []) + AttrLines(evs[1..])
  }

  /** Some token was written in the unquoted, space-delimited form. */
  predicate HasSpaceToken(toks: seq<Event>)
  {
    toks != [] && (toks[0].rule == SpaceDataInner || HasSpaceToken(toks[1..]))
  }

  /** Some `data` production of an attribute holds an unquoted token. */
  predicate HasSpaceData(evs: seq<Event>)
  {
    evs != [] && ((evs[0].rule == DataRule && HasSpaceToken(evs[0].inner)) || HasSpaceData(evs[1..]))
  }

  /** The child an `attr` or `node` production becomes; other productions add none. */
  function BuildEntry(p: Event): (r: Result<seq<(string, Node)>, BmlError>)
    ensures r.Err? ==> r.error == Unreachable
  {
    match p.rule
    case AttrRule =>
      (match BuildAttr(p) case Err(x) => Err(x) case Ok(c) => Ok([c]))
    case NodeRule =>
      (match BuildNode(p) case Err(x) => Err(x) case Ok(c) => Ok([c]))
    case _ => Ok([])
  }

  /** The children a run of productions becomes, in the same order. */
  function BuildEntries(evs: seq<Event>): (r: Result<seq<(string, Node)>, BmlError>)
    ensures r.Err? ==> r.error == Unreachable
  {
    if evs == [] then Ok([])
    else
      match BuildEntry(evs[0])
      case Err(x) => Err(x)
      case Ok(h) =>
        (match BuildEntries(evs[1..]) case Err(x) => Err(x) case Ok(t) => Ok(h + t))
  }

  /**
   * An element as a whole: a foreign production is an internal error;
   * otherwise the last name, one data line per `data` production, and one
   * child per `attr` or `node` production in the order met.
   */
  function NodeSpec(e: Event): Result<(string, Node), BmlError>
  {
    if !AllNodeParts(e.inner) then Err(Unreachable)
    else
      match BuildEntries(e.inner)
      case Err(x) => Err(x)
      case Ok(cs) => Ok((LastName(e.inner, ""), Node(Elem, JoinLines(DataLines(e.inner)), cs)))
  }

  /**
   * An attribute as a whole: quoted unless some token was unquoted, one data
   * line per token, no children.
   */
  function AttrSpec(e: Event): Result<(string, Node), BmlError>
  {
    if !AllAttrParts(e.inner) then Err(Unreachable)
    else Ok((LastName(e.inner, ""), Node(Attr(!HasSpaceData(e.inner)), JoinLines(AttrLines(e.inner)), [])))
  }

  /** The document as a whole: a root with no data and one child per `node`. */
  function RootSpec(parsed: Option<seq<Event>>): Result<Node, BmlError>
  {
    match parsed
    case None => Err(Syntax)
    case Some(evs) =>
      if !AllTopParts(evs) then Err(Unreachable)
      else
        match BuildEntries(evs)
        case Err(x) => Err(x)
        case Ok(cs) => Ok(Node(Root(DefaultIndent()), [], cs))
  }

  // ---------------------------------------------------------------------------
  // The loops meet the specification
  // ---------------------------------------------------------------------------

  /** What the rest of an attribute's productions add to `a`. */
  function AttrSpecFrom(evs: seq<Event>, name: string, a: Node): Result<(string, Node), BmlError>
    requires a.kind.Attr?
  {
    if !AllAttrParts(evs) then Err(Unreachable)
    else Ok((LastName(evs, name), a.(kind := Attr(a.kind.quote && !HasSpaceData(evs)),
                                     data := a.data + JoinLines(AttrLines(evs)))))
  }

  /** What the rest of a node's productions add to `n`. */
  function NodeSpecFrom(evs: seq<Event>, name: string, n: Node): Result<(string, Node), BmlError>
  {
    if !AllNodeParts(evs) then Err(Unreachable)
    else
      match BuildEntries(evs)
      case Err(x) => Err(x)
      case Ok(cs) => Ok((LastName(evs, name), n.(data := n.data + JoinLines(DataLines(evs)),
                                                 children := n.children + cs)))
  }

  /** What the rest of the top-level productions add to `root`. */
  function RootSpecFrom(evs: seq<Event>, root: Node): Result<Node, BmlError>
  {
    if !AllTopParts(evs) then Err(Unreachable)
    else
      match BuildEntries(evs)
      case Err(x) => Err(x)
      case Ok(cs) => Ok(root.(children := root.children + cs))
  }

  lemma SuffixStep<T>(s: seq<T>, i: nat)
    requires i < |s|
    ensures s[i..] != [] && s[i..][0] == s[i] && s[i..][1..] == s[i + 1..]
  {
  }

  lemma {:induction false} AttrTokensMeetSpec(toks: seq<Event>, j: nat, a: Node)
    requires j <= |toks|
    ensures AttrTokens(toks, j, a)
         == a.(kind := if HasSpaceToken(toks[j..]) then Attr(false) else a.kind,
               data := a.data + JoinLines(TokenTexts(toks[j..])))
    decreases |toks| - j
  {
    if j == |toks| {
      assert toks[j..] == [];
      assert a.data + [] == a.data;
    } else {
      SuffixStep(toks, j);
      var d := toks[j];
      var a' := if d.rule == SpaceDataInner then a.(kind := Attr(false)) else a;
      var a'' := a'.(data := a'.data + d.text + "\n");
      AttrTokensMeetSpec(toks, j + 1, a'');
      assert TokenTexts(toks[j..]) == [d.text] + TokenTexts(toks[j + 1..]);
      JoinLinesConcat([d.text], TokenTexts(toks[j + 1..]));
      assert JoinLines([d.text]) == d.text + "\n";
    }
  }

  /** One attribute production, taken off the front, as the loop takes it. */
  lemma AttrSpecStep(evs: seq<Event>, name: string, a: Node)
    requires evs != [] && a.kind.Attr?
    ensures AttrSpecFrom(evs, name, a)
         == match evs[0].rule
            case NameRule => AttrSpecFrom(evs[1..], evs[0].text, a)
            case DataRule =>
              var a1 := AttrTokens(evs[0].inner, 0, a);
              if a1.kind.Attr? then AttrSpecFrom(evs[1..], name, a1) else Err(Unreachable)
            case _ => Err(Unreachable)
  {
    var p, rest := evs[0], evs[1..];
    AttrLinesStep(evs, a.data);
    assert AllAttrParts(evs) <==> AttrPart(p) && AllAttrParts(rest);
    assert LastName(evs, name) == LastName(rest, if p.rule == NameRule then p.text else name);
    assert HasSpaceData(evs) <==> (p.rule == DataRule && HasSpaceToken(p.inner)) || HasSpaceData(rest);
    if p.rule == DataRule {
      AttrTokensMeetSpec(p.inner, 0, a);
      assert p.inner[0..] == p.inner;
    }
  }

  /** The data lines of an attribute's productions, one production at a time. */
  lemma AttrLinesStep(evs: seq<Event>, d: string)
    requires evs != []
    ensures d + JoinLines(AttrLines(evs))
         == (if evs[0].rule == DataRule then d + JoinLines(TokenTexts(evs[0].inner)) else d)
            + JoinLines(AttrLines(evs[1..]))
  {
    var p, rest := evs[0], evs[1..];
    if p.rule == DataRule {
      assert AttrLines(evs) == TokenTexts(p.inner) + AttrLines(rest);
      JoinLinesConcat(TokenTexts(p.inner), AttrLines(rest));
    } else {
      assert AttrLines(evs) == [] + AttrLines(rest) == AttrLines(rest);
    }
  }

  lemma {:induction false} AttrFoldMeetsSpec(e: Event, i: nat, name: string, a: Node)
    requires i <= |e.inner| && a.kind.Attr?
    ensures AttrFold(e, i, name, a) == AttrSpecFrom(e.inner[i..], name, a)
    decreases |e.inner| - i
  {
    if i == |e.inner| {
      assert e.inner[i..] == [];
      assert a.data + [] == a.data;
      assert a.(kind := Attr(a.kind.quote)) == a;
    } else {
      SuffixStep(e.inner, i);
      var p := e.inner[i];
      AttrSpecStep(e.inner[i..], name, a);
      if p.rule == NameRule {
        AttrFoldMeetsSpec(e, i + 1, p.text, a);
      } else if p.rule == DataRule {
        var a1 := AttrTokens(p.inner, 0, a);
        AttrTokensMeetSpec(p.inner, 0, a);
        AttrFoldMeetsSpec(e, i + 1, name, a1);
      }
    }
  }

  /** The attribute loop of `parse_node` builds exactly the attribute `AttrSpec` describes. */
  lemma BuildAttrMeetsSpec(e: Event)
    ensures BuildAttr(e) == AttrSpec(e)
  {
    AttrFoldMeetsSpec(e, 0, "", AttrNode());
    assert e.inner[0..] == e.inner;
    assert [] + JoinLines(AttrLines(e.inner)) == JoinLines(AttrLines(e.inner));
  }

  /** One node production, taken off the front, as the loop takes it. */
  lemma NodeSpecStep(evs: seq<Event>, name: string, n: Node)
    requires evs != []
    ensures NodeSpecFrom(evs, name, n)
         == match evs[0].rule
            case NameRule => NodeSpecFrom(evs[1..], evs[0].text, n)
            case DataRule => NodeSpecFrom(evs[1..], name, n.(data := n.data + Span(evs[0].inner) + "\n"))
            case AttrRule =>
              (match BuildAttr(evs[0])
               case Err(x) => Err(x)
               case Ok(c) => NodeSpecFrom(evs[1..], name, Append(n, c.0, c.1)))
            case NodeRule =>
              (match BuildNode(evs[0])
               case Err(x) => Err(x)
               case Ok(c) => NodeSpecFrom(evs[1..], name, Append(n, c.0, c.1)))
            case _ => Err(Unreachable)
  {
    var p, rest := evs[0], evs[1..];
    DataLinesStep(evs, n.data);
    assert AllNodeParts(evs) <==> NodePart(p) && AllNodeParts(rest);
    assert LastName(evs, name) == LastName(rest, if p.rule == NameRule then p.text else name);
    if BuildEntry(p).Ok? && BuildEntries(rest).Ok? {
      EntriesStep(evs, n.children);
      if p.rule == AttrRule || p.rule == NodeRule {
        var c := if p.rule == AttrRule then BuildAttr(p).value else BuildNode(p).value;
        assert Append(n, c.0, c.1).children == n.children + BuildEntry(p).value;
      } else {
        assert n.children + BuildEntry(p).value == n.children;
      }
    }
  }

  /** The data lines of a run of productions, one production at a time. */
  lemma DataLinesStep(evs: seq<Event>, d: string)
    requires evs != []
    ensures d + JoinLines(DataLines(evs))
         == (if evs[0].rule == DataRule then d + Span(evs[0].inner) + "\n" else d) + JoinLines(DataLines(evs[1..]))
  {
    if evs[0].rule == DataRule {
      DataLinesCons(evs);
      ConcatLine(d, Span(evs[0].inner), JoinLines(DataLines(evs[1..])));
    } else {
      assert DataLines(evs) == [] + DataLines(evs[1..]) == DataLines(evs[1..]);
    }
  }

  lemma DataLinesCons(evs: seq<Event>)
    requires evs != [] && evs[0].rule == DataRule
    ensures JoinLines(DataLines(evs)) == Span(evs[0].inner) + "\n" + JoinLines(DataLines(evs[1..]))
  {
    var line := Span(evs[0].inner);
    assert DataLines(evs) == [line] + DataLines(evs[1..]);
    JoinLinesCons(line, DataLines(evs[1..]));
  }

  lemma ConcatLine(d: string, line: string, t: string)
    ensures d + (line + "\n" + t) == d + line + "\n" + t
  {
  }

  /** The children of a run of productions, one production at a time. */
  lemma EntriesStep(evs: seq<Event>, cs: seq<(string, Node)>)
    requires evs != [] && BuildEntry(evs[0]).Ok? && BuildEntries(evs[1..]).Ok?
    ensures BuildEntries(evs) == Ok(BuildEntry(evs[0]).value + BuildEntries(evs[1..]).value)
    ensures cs + BuildEntries(evs).value == (cs + BuildEntry(evs[0]).value) + BuildEntries(evs[1..]).value
  {
  }

  lemma {:induction false} NodeFoldMeetsSpec(e: Event, i: nat, name: string, n: Node)
    requires i <= |e.inner|
    ensures NodeFold(e, i, name, n) == NodeSpecFrom(e.inner[i..], name, n)
    decreases |e.inner| - i
  {
    if i == |e.inner| {
      assert e.inner[i..] == [];
      assert n.data + [] == n.data && n.children + [] == n.children;
    } else {
      SuffixStep(e.inner, i);
      var p := e.inner[i];
      NodeSpecStep(e.inner[i..], name, n);
      match p.rule
      case NameRule => NodeFoldMeetsSpec(e, i + 1, p.text, n);
      case DataRule => NodeFoldMeetsSpec(e, i + 1, name, n.(data := n.data + Span(p.inner) + "\n"));
      case AttrRule =>
        if BuildAttr(p).Ok? {
          NodeFoldMeetsSpec(e, i + 1, name, Append(n, BuildAttr(p).value.0, BuildAttr(p).value.1));
        }
      case NodeRule =>
        if BuildNode(p).Ok? {
          NodeFoldMeetsSpec(e, i + 1, name, Append(n, BuildNode(p).value.0, BuildNode(p).value.1));
        }
      case _ =>
    }
  }

  /** `parse_node` builds exactly the element `NodeSpec` describes. */
  lemma BuildNodeMeetsSpec(e: Event)
    ensures BuildNode(e) == NodeSpec(e)
  {
    NodeFoldMeetsSpec(e, 0, "", ElemNode());
    assert e.inner[0..] == e.inner;
    assert [] + JoinLines(DataLines(e.inner)) == JoinLines(DataLines(e.inner));
    if BuildEntries(e.inner).Ok? {
      assert [] + BuildEntries(e.inner).value == BuildEntries(e.inner).value;
    }
  }

  lemma {:induction false} RootFoldMeetsSpec(evs: seq<Event>, i: nat, root: Node)
    requires i <= |evs|
    ensures RootFold(evs, i, root) == RootSpecFrom(evs[i..], root)
    decreases |evs| - i
  {
    if i == |evs| {
      assert evs[i..] == [];
      assert root.children + [] == root.children;
    } else {
      SuffixStep(evs, i);
      var p, rest := evs[i], evs[i + 1..];
      if p.rule == Eoi {
        RootFoldMeetsSpec(evs, i + 1, root);
        if BuildEntries(rest).Ok? {
          assert [] + BuildEntries(rest).value == BuildEntries(rest).value;
        }
      } else if p.rule == NodeRule && BuildNode(p).Ok? {
        var c := BuildNode(p).value;
        RootFoldMeetsSpec(evs, i + 1, Append(root, c.0, c.1));
        if BuildEntries(rest).Ok? {
          var t := BuildEntries(rest).value;
          assert root.children + ([c] + t) == (root.children + [c]) + t;
        }
      }
    }
  }

  /** `try_from` builds exactly the root `RootSpec` describes. */
  lemma BuildRootMeetsSpec(parsed: Option<seq<Event>>)
    ensures BuildRoot(parsed) == RootSpec(parsed)
  {
    if parsed.Some? {
      RootFoldMeetsSpec(parsed.value, 0, RootNode());
      assert parsed.value[0..] == parsed.value;
      if BuildEntries(parsed.value).Ok? {
        assert [] + BuildEntries(parsed.value).value == BuildEntries(parsed.value).value;
      }
    }
  }

  // ---------------------------------------------------------------------------
  // Consequences
  // ---------------------------------------------------------------------------

  /**
   * Each `data` production of an element becomes one line ended by '\n', so
   * stored data is empty or ends in '\n'; when the grammar's lines hold no
   * '\n', `lines()` gives them back, and the value of a one-line element is
   * that line.
   */
  lemma BuiltElemData(e: Event)
    requires BuildNode(e).Ok?
    ensures var n := BuildNode(e).value.1;
      n.kind == Elem && n.data == JoinLines(DataLines(e.inner)) &&
      (n.data == [] || n.data[|n.data| - 1] == '\n') &&
      (NoNewlines(DataLines(e.inner)) ==> NodeLines(n) == DataLines(e.inner)) &&
      (|DataLines(e.inner)| == 1 ==> |n.data| > 0 && Value(n) == DataLines(e.inner)[0])
  {
    BuildNodeMeetsSpec(e);
    var ls := DataLines(e.inner);
    JoinLinesEnd(ls);
    if NoNewlines(ls) {
      LinesOfJoin(ls);
    }
    if |ls| == 1 {
      ValueOfLines(BuildNode(e).value.1, ls);
    }
  }

  /**
   * An attribute is quoted exactly when none of its tokens was written in the
   * unquoted form; it has no children, one line per token, and the name of
   * its `name` production.
   */
  lemma BuiltAttr(e: Event)
    ensures BuildAttr(e).Ok? <==> AllAttrParts(e.inner)
    ensures BuildAttr(e).Ok? ==>
      var (name, a) := BuildAttr(e).value;
      a.kind == Attr(!HasSpaceData(e.inner)) && a.children == [] &&
      a.data == JoinLines(AttrLines(e.inner)) && name == LastName(e.inner, "")
  {
    BuildAttrMeetsSpec(e);
  }

  /**
   * The children of a built element are the attributes and elements its
   * productions describe, one each, in the order the productions came.
   */
  lemma BuiltElemChildren(e: Event)
    ensures BuildNode(e).Ok? <==> AllNodeParts(e.inner) && BuildEntries(e.inner).Ok?
    ensures BuildNode(e).Ok? ==> BuildNode(e).value.1.children == BuildEntries(e.inner).value
  {
    BuildNodeMeetsSpec(e);
  }

  /** The grammar's `name: value` line, as the builder receives it. */
  function InlineNode(name: string, value: string): Event
  {
    Event(NodeRule, name + ":" + value,
          [Event(NameRule, name, []), Event(DataRule, ":" + value, [Event(OtherRule(0), value, [])])])
  }

  /** A production that adds no child leaves the children of the rest unchanged. */
  lemma SkipEntry(evs: seq<Event>, i: nat)
    requires i < |evs| && BuildEntry(evs[i]) == Ok([])
    ensures BuildEntries(evs[i..]) == BuildEntries(evs[i + 1..])
  {
    SuffixStep(evs, i);
    if BuildEntries(evs[i + 1..]).Ok? {
      assert [] + BuildEntries(evs[i + 1..]).value == BuildEntries(evs[i + 1..]).value;
    }
  }

  /** A `name: value` line becomes an element holding one line and no children. */
  lemma InlineNodeBuilds(name: string, value: string)
    ensures BuildNode(InlineNode(name, value)) == Ok((name, Node(Elem, value + "\n", [])))
  {
    var e := InlineNode(name, value);
    BuildNodeMeetsSpec(e);
    assert e.inner[1..][1..] == [];
    assert AllNodeParts(e.inner);
    assert Span(e.inner[1].inner) == value;
    assert DataLines(e.inner[1..]) == [value];
    assert DataLines(e.inner) == [value];
    var rest := e.inner[1..];
    assert rest[0] == e.inner[1] && rest[1..] == [];
    assert LastName(rest, name) == LastName([], name) == name;
    assert LastName(e.inner, "") == LastName(rest, name);
    assert BuildEntry(e.inner[0]) == Ok([]) && BuildEntry(rest[0]) == Ok([]);
    assert BuildEntries(rest) == Ok([] + []);
    SkipEntry(e.inner, 0);
    assert e.inner[0..] == e.inner;
    assert JoinLines([value]) == value + "\n" + JoinLines([]);
    assert NodeSpec(e) == Ok((LastName(e.inner, ""), Node(Elem, JoinLines(DataLines(e.inner)), [])));
    assert JoinLines(DataLines(e.inner)) == value + "\n";
  }

  /** A document of `name: value` lines, one per pair, closed by end of input. */
  function InlineDocument(ps: seq<(string, string)>): seq<Event>
  {
    if ps == [] then [Event(Eoi, "", [])]
    else [InlineNode(ps[0].0, ps[0].1)] + InlineDocument(ps[1..])
  }

  lemma {:induction false} InlineDocumentEntries(ps: seq<(string, string)>)
    ensures AllTopParts(InlineDocument(ps))
    ensures BuildEntries(InlineDocument(ps)).Ok?
    ensures var cs := BuildEntries(InlineDocument(ps)).value;
      |cs| == |ps| &&
      forall i :: 0 <= i < |ps| ==> cs[i] == (ps[i].0, Node(Elem, ps[i].1 + "\n", []))
  {
    var evs := InlineDocument(ps);
    if ps == [] {
      assert evs[1..] == [];
      assert BuildEntry(evs[0]) == Ok([]);
      assert BuildEntries(evs) == Ok([] + []);
    } else {
      InlineDocumentEntries(ps[1..]);
      InlineNodeBuilds(ps[0].0, ps[0].1);
      assert evs[0] == InlineNode(ps[0].0, ps[0].1) && evs[1..] == InlineDocument(ps[1..]);
      var t := BuildEntries(evs[1..]).value;
      assert BuildEntries(evs) == Ok([(ps[0].0, Node(Elem, ps[0].1 + "\n", []))] + t);
    }
  }

  /**
   * For any document of `name: value` lines, `nodes()` yields the names and
   * values in document order, repeated names included, and `named(k)` yields
   * the elements of the lines named `k`, in order.
   */
  lemma InlineDocumentOrdered(ps: seq<(string, string)>, k: string)
    ensures BuildRoot(Some(InlineDocument(ps))).Ok?
    ensures var root := BuildRoot(Some(InlineDocument(ps))).value;
      |Nodes(root)| == |ps| &&
      (forall i :: 0 <= i < |ps| ==>
        Nodes(root)[i].0 == ps[i].0 && |Nodes(root)[i].1.data| > 0 && Value(Nodes(root)[i].1) == ps[i].1) &&
      |Named(root, k)| == |KeyIndices(Nodes(root), k)| &&
      (forall j :: 0 <= j < |Named(root, k)| ==> Named(root, k)[j] == Nodes(root)[KeyIndices(Nodes(root), k)[j]].1)
  {
    InlineDocumentEntries(ps);
    BuildRootMeetsSpec(Some(InlineDocument(ps)));
    var root := BuildRoot(Some(InlineDocument(ps))).value;
    forall i | 0 <= i < |ps|
      ensures |Nodes(root)[i].1.data| > 0 && Value(Nodes(root)[i].1) == ps[i].1
    {
      ValueOfLines(Nodes(root)[i].1, [ps[i].1]);
    }
  }

  /**
   * The document `0:a 1:b 2:c 1:d 3:e` (one per line): its children come out
   * in that order with the repeated name kept twice, and the children named
   * "1" are the second and the fourth.
   */
  lemma OrderedIteration()
    ensures var ps := [("0", "a"), ("1", "b"), ("2", "c"), ("1", "d"), ("3", "e")];
      var r := BuildRoot(Some(InlineDocument(ps)));
      r.Ok? && |Nodes(r.value)| == 5 &&
      (forall i :: 0 <= i < 5 ==>
        Nodes(r.value)[i].0 == ps[i].0 && |Nodes(r.value)[i].1.data| > 0 && Value(Nodes(r.value)[i].1) == ps[i].1) &&
      Named(r.value, "1") == [Nodes(r.value)[1].1, Nodes(r.value)[3].1]
  {
    var ps := [("0", "a"), ("1", "b"), ("2", "c"), ("1", "d"), ("3", "e")];
    InlineDocumentOrdered(ps, "1");
    var root := BuildRoot(Some(InlineDocument(ps))).value;
    NamedOneOfFive(root.children);
  }

  /** Among children keyed `0 1 2 1 3`, those keyed "1" are the second and the fourth. */
  lemma NamedOneOfFive(cs: seq<(string, Node)>)
    requires |cs| == 5 && cs[0].0 == "0" && cs[1].0 == "1" && cs[2].0 == "2" && cs[3].0 == "1" && cs[4].0 == "3"
    ensures NamedIn(cs, "1") == [cs[1].1, cs[3].1]
  {
    assert cs[..1][..0] == [] && cs[..2][..1] == cs[..1] && cs[..3][..2] == cs[..2];
    assert cs[..4][..3] == cs[..3] && cs[..5][..4] == cs[..4] && cs[..5] == cs;
    assert NamedIn(cs[..1], "1") == [];
    assert NamedIn(cs[..2], "1") == [cs[1].1];
    assert NamedIn(cs[..3], "1") == [cs[1].1];
    assert NamedIn(cs[..4], "1") == [cs[1].1, cs[3].1];
  }
}
