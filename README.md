# BML tree, builder and serializer in Dafny

This project models the core of the `bml` crate (`src/lib.rs`). BML is an
indentation-sensitive, XML-like markup. The crate has three parts, and each
is one Dafny module here:

- `BmlTree` (`bml_tree.dfy`) is the in-memory tree.
  - A node has a kind: `Root` with its indent policy, `Elem`, or `Attr`
    with its quote flag.
  - A node has data: lines, each ended by `'\n'`.
  - A node has an insertion-ordered multimap of named children, kept as a
    sequence of `(name, node)` pairs.
  - The module also holds the accessors `value`, `lines`, `nodes` and
    `named`, the update `set_indent`, the constructors, `append`, and node
    and kind equality.
- `BmlBuilder` (`bml_builder.dfy`) is `try_from` with its inner
  `parse_node`.
  - The grammar's output comes in as a tree of `Event`s. An `Event` is a
    rule, the text it spans, and its nested productions. Text the grammar
    rejects comes in as `None`.
  - The loops of `parse_node`, of its attribute arm, and of `try_from` are
    the methods `ParseNode`, `ParseAttr` and `TryFrom`.
  - Each method is proved equal to a fold that takes one production at a
    time (`BuildNode`, `BuildAttr`, `BuildRoot`).
  - Each method is also proved equal to a declarative description of the
    whole result (`NodeSpec`, `AttrSpec`, `RootSpec`).
- `BmlSerializer` (`bml_serializer.dfy`) is `serialize` and `Display`.
  - The methods `Serialize`, `SerializeRoot`, `SerializeElem`,
    `SerializeAttrs`, `SerializeRange` and `SerializeBlock` follow the
    source's loops.
  - They are proved to write exactly `Render`, the text of a node as a
    function of node, name and indent.
  - Lemmas then say what that text is for each kind.

A node is an owned value that can be cloned in the source; there is no
sharing between nodes. It is therefore a Dafny `datatype`. `append` and
`set_indent` are functions that return the updated node.

## Model

| member | source | states |
|---|---|---|
| BmlTree.IndentText | src/lib.rs:136-140 | The text of an indent is `unit` written `repeat` times; its length is `|unit| * repeat`. |
| BmlTree.DefaultIndent | src/lib.rs:126-134 | The default indent is two spaces repeated zero times, so it writes nothing. |
| BmlTree.Next | src/lib.rs:118-124 | `next` keeps the unit and adds 1 to `repeat`; its text is one unit longer. |
| BmlTree.NextIndentText | src/lib.rs:118-124 | `next` keeps the unit and adds exactly 1 to `repeat`, so the text one level deeper is the old text plus one unit. |
| BmlTree.SameKind | src/lib.rs:94-101 | Kind equality holds exactly when the variants agree once indent and quote are forgotten. |
| BmlTree.SameKindEquivalence | src/lib.rs:94-101 | Kind equality is reflexive, symmetric and transitive. |
| BmlTree.RootNode | src/lib.rs:198-207 | `root()` is a root at the default indent with no lines and no children. |
| BmlTree.ElemNode | src/lib.rs:208-215 | `elem()` is an element with no lines and no children. |
| BmlTree.AttrNode | src/lib.rs:216-223 | `attr()` is a quoted attribute with no lines and no children. |
| BmlTree.ConstructorsEqual | src/lib.rs:198-223 | `root()`, `elem()` and `attr()` give nodes that are equal as nodes but have pairwise different kinds. |
| BmlTree.Append | src/lib.rs:224-227 | `append` adds exactly one child, `(name, node)`, after the existing ones, which are unchanged, as are kind and data. |
| BmlTree.AppendOrdered | src/lib.rs:224-227 | `append` puts the new child after all existing ones, so `nodes()` yields the old pairs and then the new one: children come out in insertion order. For every key, the children under that key are the old ones plus, if the key matches, the new one last. Nothing is merged or reordered, and kind and data are unchanged. |
| BmlTree.NodesGrouped | src/lib.rs:166-182 | Every child that `nodes()` yields is among the children `named(k)` yields for its own name `k`. |
| BmlTree.Named | src/lib.rs:172-182 | `named(k)` yields exactly the children stored under `k`, one per position whose key is `k`, in ascending position order, and nothing else. |
| BmlTree.KeyIndices | src/lib.rs:172-182 | The positions whose key is `k` are in range, strictly ascending and complete. |
| BmlTree.Lines | src/lib.rs:160-165 | `lines()` splits the data at `'\n'`, so no line contains `'\n'`. There are no lines exactly when the data is empty. |
| BmlTree.LinesOfJoin | src/lib.rs:160-165 | Lines stored one per `'\n'` come back unchanged from `lines()`. |
| BmlTree.JoinLinesOfLines | src/lib.rs:160-165 | Data that is empty or ends in `'\n'` is exactly its `lines()`, each written back with its `'\n'`. |
| BmlTree.JoinLinesEnd | src/lib.rs:297-300 | Data stored line by line is empty exactly when there are no lines, and otherwise ends in `'\n'`. |
| BmlTree.Value | src/lib.rs:154-159 | `value()` needs non-empty data. The data is the value followed by one last character. |
| BmlTree.ValueOfLines | src/lib.rs:154-159 | For data stored as lines, the value is the lines joined by `'\n'` without the final one. For one line it is that line. |
| BmlTree.NodeLines | src/lib.rs:160-165 | A node has no lines exactly when its data is empty. |
| BmlTree.SetIndent | src/lib.rs:183-197 | Succeeds exactly on a root and otherwise gives `NotRoot`. On a root it replaces only the indent; data and children are unchanged, and the node stays equal to the old one. |
| BmlTree.NodeEq | src/lib.rs:280-285 | Equal nodes have the same `lines()`. |
| BmlTree.NodeEqIffSameContent | src/lib.rs:280-285 | Two nodes are equal exactly when their kind-free contents, data and named children all the way down, are identical. |
| BmlTree.NodeEqEquivalence | src/lib.rs:280-285 | Node equality is reflexive, symmetric and transitive. |
| BmlTree.NodeEqIgnoresKind | src/lib.rs:280-285 | Changing a node's kind, indent or quote flag never changes equality. |
| BmlBuilder.BuildEntries | src/lib.rs:301-322 | Building the children of a run of productions fails only with the internal "unreachable" error. |
| BmlBuilder.ParseAttr | src/lib.rs:301-319 | The attribute loop returns exactly `AttrSpec`: the last name, one line per data token, quoted unless some token was unquoted, no children. Any production other than `name` or `data` is the internal error. |
| BmlBuilder.ParseNode | src/lib.rs:291-326 | `parse_node` returns exactly `NodeSpec`. That is the last name, one line per `data` production, and one child per `attr` or `node` production in the order met. Any other production is the internal error. |
| BmlBuilder.TryFrom | src/lib.rs:328-336 | `try_from` returns exactly `RootSpec`: a syntax error when the grammar rejects the text; else a default root with no data and one child per `node`, with `EOI` skipped and any other production the internal error. |
| BmlBuilder.BuildAttrMeetsSpec | src/lib.rs:301-319 | The production-by-production attribute fold equals the declarative `AttrSpec`. |
| BmlBuilder.BuildNodeMeetsSpec | src/lib.rs:291-326 | The production-by-production element fold equals the declarative `NodeSpec`. |
| BmlBuilder.BuildRootMeetsSpec | src/lib.rs:328-336 | The top-level fold equals the declarative `RootSpec`. |
| BmlBuilder.BuiltElemData | src/lib.rs:297-300 | A built element's data is its `data` lines, each ended by `'\n'`, so it is empty or ends in `'\n'`. `lines()` gives those lines back. For one line, `value()` is that line. |
| BmlBuilder.BuiltAttr | src/lib.rs:301-319 | Building an attribute succeeds exactly when it has only `name` and `data` parts. It is then quoted exactly when no token was unquoted; it has one line per token, no children, and its last name. |
| BmlBuilder.BuiltElemChildren | src/lib.rs:291-326 | A built element's children are the attributes and elements its productions describe, in production order. |
| BmlBuilder.InlineNodeBuilds | src/lib.rs:291-326 | A `name: value` line becomes an element named `name` with the single line `value` and no children. This holds for the event shape assumed for such a line: a `name` production, then a `data` production whose single token spans the value. |
| BmlBuilder.InlineDocumentEntries | src/lib.rs:328-336 | A document of `name: value` lines, in the assumed event shape, builds one child per line, in order. |
| BmlBuilder.InlineDocumentOrdered | src/lib.rs:352-360 | For any such document, in the assumed event shape, `nodes()` yields the names and values in document order, repeated names included. `named(k)` yields the children at the positions whose key is `k`. |
| BmlBuilder.OrderedIteration | src/lib.rs:352-360 | For `0:a 1:b 2:c 1:d 3:e` in the assumed event shape, `nodes()` yields `("0","a") ("1","b") ("2","c") ("1","d") ("3","e")`, and `named("1")` yields the 2nd and 4th children. |
| BmlSerializer.AttrPrefixLen | src/lib.rs:241-249 | The number of leading attribute children. All children before it are attributes, and the child at it, if any, is not. |
| BmlSerializer.Serialize | src/lib.rs:228-277 | `serialize` writes exactly `Render(n, name, indent)`. |
| BmlSerializer.SerializeRoot | src/lib.rs:230-238 | The root arm writes exactly the root's text. |
| BmlSerializer.SerializeElem | src/lib.rs:239-264 | The element arm writes exactly the element's text. |
| BmlSerializer.SerializeAttrs | src/lib.rs:241-249 | The attribute loop counts exactly the leading attributes and writes them in order, one level deeper. |
| BmlSerializer.SerializeRange | src/lib.rs:261-263 | The remaining children are written in order, one level deeper. |
| BmlSerializer.SerializeBlock | src/lib.rs:256-259 | The block loop writes exactly the block form of the lines. |
| BmlSerializer.Fmt | src/lib.rs:340-345 | `Display` writes the node under no name at the default indent. |
| BmlSerializer.RootSeparated | src/lib.rs:230-238 | Whatever name and indent a root is written under, it writes its children at its own indent, with one `"\n"` between consecutive children and none after the last. |
| BmlSerializer.BlockLines | src/lib.rs:256-259 | The block form is one `indent:line` line per data line, in order, each ended by `'\n'`. |
| BmlSerializer.AttrText | src/lib.rs:265-274 | An attribute writes ` name`, then `="first line"` when quoted, `=first line` when not, or nothing more without data. Its text holds no `'\n'` when its name holds none. |
| BmlSerializer.ElemText | src/lib.rs:239-264 | An element writes indent and name, then its leading attributes one level deeper. Next comes `: line` plus `'\n'` exactly when there are no leading attributes and exactly one line. Otherwise it is `'\n'` and one `indent':line` line per data line. The other children follow, one level deeper. |
| BmlSerializer.ShapedEndsInNewline | src/lib.rs:228-277 | The text of a shaped element ends in `'\n'`. A shaped element has childless attribute children, all before its other children, which are shaped elements. |
| BmlSerializer.EntriesShaped | src/lib.rs:291-326 | When no `attr` production follows a `node` production, at any depth, the built children are childless attributes or shaped elements, with the attributes first. With no `attr` production left, no child is an attribute. |
| BmlSerializer.BuiltShaped | src/lib.rs:291-326 | An element built from productions in that order is shaped. |
| BmlSerializer.DocumentShaped | src/lib.rs:328-336 | Every top-level node of a document built from productions in that order is shaped. |
| BmlSerializer.ChildTextsEndInNewline | src/lib.rs:230-238 | The text of each shaped child ends in `'\n'`. |
| BmlSerializer.DocumentSeparated | src/lib.rs:328-345 | A document built from productions in that order is displayed as its children's texts, each ending in `'\n'`, joined by one `'\n'`. So consecutive top-level nodes are separated by a blank line. |
| BmlSerializer.InlineElemText | src/lib.rs:239-264 | An element with one line and no children, at the default indent, is written `name: line` and `'\n'`. |
| BmlSerializer.InlineDocumentChildren | src/lib.rs:328-345 | Each child of a built document of `name: value` lines, in the assumed event shape, is written as `name: value` and `'\n'`. |
| BmlSerializer.InlineDocumentText | src/lib.rs:340-345 | A built document of `name: value` lines, in the assumed event shape, is displayed as `name: value` lines, with a blank line between two. |
| BmlSerializer.OrderedIterationText | src/lib.rs:352-360 | In the assumed event shape, the document `0:a 1:b 2:c 1:d 3:e` is displayed as `0: a`, `1: b`, `2: c`, `1: d`, `3: e` with a blank line between two. |
| BmlSerializer.EqualButWrittenDifferently | src/lib.rs:280-285 | A quoted and an unquoted attribute with the same data are equal, yet they are written differently (`k="v"` against `k=v`). |
| BmlSerializer.SetIndentText | src/lib.rs:183-197 | After `set_indent`, a root displays its children at the new indent and is still equal to what it was. |

## Left out

- The grammar (`BmlParser`, `Rule`, `bml.pest`) is not part of this model.
  - Its output is the input of the builder: an `Event` tree, or `None` for rejected text.
  - Round-tripping text through `Display` and back needs the grammar and is not stated.
- `Pairs::as_str` of a `data` production's inner pairs is modelled as their texts one after another. Text the grammar skips between those pairs is not modelled.
- The `name: value` examples (`InlineNode`, `InlineDocument`) assume the event shape the grammar gives such a line: a `name` production, then a `data` production whose single token spans the value. The results about them hold for that shape.
- `GrammarOrdered`: the shape results assume that no `attr` production follows a `node` production inside a node, at any depth. The grammar writes attributes on a node's header line, before its nested nodes.
- The pest error inside `BmlError` is an opaque `Syntax` value.
- `unreachable!()` arms are modelled as the `Unreachable` error rather than a panic.
- `set_indent` on a non-root returns `Err(NotRoot)` instead of panicking.
- `BmlTree.Value`: the source panics on empty data, so the function requires non-empty data. It slices by character, not by byte, so the case of a multi-byte last character is not modelled.
- In-place mutation of `append`, `set_indent` and the builder's `node`/`attr` variables is modelled as values being reassigned.
  - Nodes are owned and cloned, never shared, so there is no aliasing to lose.
  - The builder and serializer loops are still imperative methods.
- `ordered_multimap` and `smartstring` internals, and the O(1) cost of `named`, are not modelled. Children are a sequence of pairs, and `named` is a filter over it.
- `fmt::Formatter` and `fmt::Result` are not modelled. Output is a returned string, and write errors are not modelled.
- `str::lines` treatment of `"\r\n"` is left out; lines split at `'\n'` only.
- `BmlTree.Next` and `BmlTree.NextIndentText`: `repeat` is an unbounded `nat`, so the `usize` overflow of `next` is not modelled.
- The derived `Default` of `BmlNode` is the same as `root()` and is not modelled separately.
