/**
 * The DOT graph of a test run: nodes with a sanitised id, a type, a frame
 * colour and a caption; edges between node ids; and a tree holding both
 * lists, which the `+` operators extend in place and `ToString` writes as a
 * Graphviz `digraph`. Nodes are compared by id. Pictures are left out, so
 * every node takes the caption branch of `Node.ToString`. `Environment.NewLine`
 * is the Windows line break.
 */
module DotTrees {
  import opened Wrappers
  import opened Seqs

  /** `Environment.NewLine`. */
  const NewLine: string := "\r\n"

  /** The lines `DotTree.ToString` writes before the nodes. */
  const Header: string := "digraph graphname " + NewLine + "{" + NewLine + "size=\"1,1\";" + NewLine + "rankdir = LR;" + NewLine
    + "splines = line;" + NewLine

  /** `Node.NodeTypes`. */
  datatype NodeType = PageObject | PageTestClass | PageTest | PageTestIssue

  /** `Node.Color`. */
  datatype Color = White | Grey | Orange | Green | Red

  /** `GetDescription` of a node type: its `Description` attribute. */
  function TypeDescription(t: NodeType): string
  {
    match t
    case PageObject => "PAGE OBJECT"
    case PageTestClass => "PAGE TEST CLASS"
    case PageTest => "PAGE TEST"
    case PageTestIssue => "PAGE TEST ISSUE"
  }

  /** `GetDescription` of a colour: its lower-case name. */
  function ColorDescription(c: Color): string
  {
    match c
    case White => "white"
    case Grey => "grey"
    case Orange => "orange"
    case Green => "green"
    case Red => "red"
  }

  /** Different types and different colours are described differently, so the text shows which one a node has. */
  lemma DescriptionsDistinct(t1: NodeType, t2: NodeType, c1: Color, c2: Color)
    ensures TypeDescription(t1) == TypeDescription(t2) <==> t1 == t2
    ensures ColorDescription(c1) == ColorDescription(c2) <==> c1 == c2
  {
    if t1 != t2 {
      var d1, d2 := TypeDescription(t1), TypeDescription(t2);
      assert |d1| != |d2| || d1[5] != d2[5] || d1[|d1| - 1] != d2[|d2| - 1];
    }
    if c1 != c2 {
      var d1, d2 := ColorDescription(c1), ColorDescription(c2);
      assert |d1| != |d2| || d1[0] != d2[0];
    }
  }

  /** A node without a picture; `rawId` is the text assigned to `Id`. */
  datatype Node = Node(nodeType: NodeType, frameColor: Color, rawId: string, caption: string)

  /** An edge; `None` is C#'s `null`. */
  datatype Edge = Edge(child: Option<string>, edgeLabel: Option<string>, parent: Option<string>)

  /** The characters `[a-zA-Z]`. */
  predicate IsLetter(c: char)
  {
    'a' <= c <= 'z' || 'A' <= c <= 'Z'
  }

  /** The text after the leading run of non-letters. */
  function SkipNonLetters(s: string): (r: string)
    ensures |r| <= |s| && r == s[|s| - |r|..]
    ensures r != [] ==> IsLetter(r[0])
  {
    if s == [] || IsLetter(s[0]) then s else SkipNonLetters(s[1..])
  }

  /** `Regex.Replace(id, "[^a-zA-Z]+", "_")`: each maximal run of non-letters becomes one `_`. */
  function Sanitize(s: string): (r: string)
    ensures |r| <= |s|
    ensures r == [] <==> s == []
    decreases |s|
  {
    if s == [] then []
    else if IsLetter(s[0]) then [s[0]] + Sanitize(s[1..])
    else "_" + Sanitize(SkipNonLetters(s[1..]))
  }

  /** Only letters and `_`, and never two `_` in a row. */
  predicate Clean(r: string)
  {
    (forall i :: 0 <= i < |r| ==> IsLetter(r[i]) || r[i] == '_')
    && (forall i :: 0 <= i < |r| - 1 ==> !(r[i] == '_' && r[i + 1] == '_'))
  }

  /** `Id`: the sanitised id; `Trim` has nothing to remove, as the result holds no white space. */
  function Id(n: Node): (r: string)
    ensures |r| <= |n.rawId| && (r == [] <==> n.rawId == [])
  {
    Sanitize(n.rawId)
  }

  /** A node's id is clean, so it holds no white space for `Trim` to remove. */
  lemma IdClean(n: Node)
    ensures Clean(Id(n)) && ' ' !in Id(n)
  {
    SanitizeClean(n.rawId);
  }

  /** A sanitised text is clean, and it starts with the text's first letter or with the `_` for its first run. */
  lemma {:induction false} SanitizeClean(s: string)
    ensures Clean(Sanitize(s))
    ensures s != [] ==> Sanitize(s) != [] && Sanitize(s)[0] == if IsLetter(s[0]) then s[0] else '_'
    decreases |s|
  {
    if s != [] {
      var rest := if IsLetter(s[0]) then s[1..] else SkipNonLetters(s[1..]);
      SanitizeClean(rest);
      var t := Sanitize(rest);
      var c := if IsLetter(s[0]) then s[0] else '_';
      assert Sanitize(s) == [c] + t;
      CleanCons(c, t);
    }
  }

  /** A letter, or a `_` not followed by another, in front of a clean text keeps it clean. */
  lemma CleanCons(c: char, t: string)
    requires Clean(t) && (IsLetter(c) || c == '_')
    requires c == '_' && t != [] ==> t[0] != '_'
    ensures Clean([c] + t)
  {
    var r := [c] + t;
    forall i | 0 <= i < |r| - 1 ensures !(r[i] == '_' && r[i + 1] == '_') {
      if i > 0 {
        assert r[i] == t[i - 1] && r[i + 1] == t[i];
      }
    }
    forall i | 0 <= i < |r| ensures IsLetter(r[i]) || r[i] == '_' {
      if i > 0 {
        assert r[i] == t[i - 1];
      }
    }
  }

  /** The tail of a clean text is clean, and after a leading `_` comes a letter. */
  lemma CleanTail(r: string)
    requires Clean(r) && r != []
    ensures Clean(r[1..])
    ensures !IsLetter(r[0]) && |r| > 1 ==> IsLetter(r[1])
  {
    var t := r[1..];
    assert forall i :: 0 <= i < |t| ==> t[i] == r[i + 1];
    if !IsLetter(r[0]) && |r| > 1 {
      assert r[0] == '_' && r[1] != '_';
    }
  }

  /** A clean text is left as it is. */
  lemma {:induction false} SanitizeKeepsClean(r: string)
    requires Clean(r)
    ensures Sanitize(r) == r
    decreases |r|
  {
    if r != [] {
      var t := r[1..];
      CleanTail(r);
      SanitizeKeepsClean(t);
      if !IsLetter(r[0]) {
        assert r[0] == '_';
        assert SkipNonLetters(t) == t;
        assert Sanitize(r) == "_" + Sanitize(t);
      } else {
        assert Sanitize(r) == [r[0]] + Sanitize(t);
      }
      assert [r[0]] + t == r;
    }
  }

  /** Sanitising an id twice changes nothing more. */
  lemma SanitizeIdempotent(s: string)
    ensures Sanitize(Sanitize(s)) == Sanitize(s)
  {
    SanitizeClean(s);
    SanitizeKeepsClean(Sanitize(s));
  }

  /** The letters of a text, in order. */
  function Letters(s: string): string
  {
    if s == [] then [] else (if IsLetter(s[0]) then [s[0]] else []) + Letters(s[1..])
  }

  lemma {:induction false} LettersSkip(s: string)
    ensures Letters(SkipNonLetters(s)) == Letters(s)
    decreases |s|
  {
    if s != [] && !IsLetter(s[0]) {
      LettersSkip(s[1..]);
    }
  }

  /** Sanitising keeps every letter, in order: only the runs of other characters change. */
  lemma {:induction false} SanitizeKeepsLetters(s: string)
    ensures Letters(Sanitize(s)) == Letters(s)
    decreases |s|
  {
    if s != [] {
      var r := Sanitize(s);
      if IsLetter(s[0]) {
        SanitizeKeepsLetters(s[1..]);
        assert r[1..] == Sanitize(s[1..]);
      } else {
        SanitizeKeepsLetters(SkipNonLetters(s[1..]));
        LettersSkip(s[1..]);
        assert r[1..] == Sanitize(SkipNonLetters(s[1..]));
      }
    }
  }

  /** `Equals`: two nodes are equal when their ids are. */
  predicate SameNode(a: Node, b: Node)
  {
    Id(a) == Id(b)
  }

  /** `GetHashCode`: the hash of the id, for the string hash `stringHash`. */
  function Hash(n: Node, stringHash: string -> int): int
  {
    stringHash(Id(n))
  }

  /** Equal nodes hash alike. */
  lemma EqualNodesHashAlike(a: Node, b: Node, stringHash: string -> int)
    requires SameNode(a, b)
    ensures Hash(a, stringHash) == Hash(b, stringHash)
  {
  }

  /** `Caption.Replace(Environment.NewLine, "\\n")`: a left-to-right replacement of every line break. */
  function EscapeNewLines(s: string): string
  {
    if |s| >= 2 && s[0] == '\r' && s[1] == '\n' then "\\n" + EscapeNewLines(s[2..])
    else if s == [] then []
    else [s[0]] + EscapeNewLines(s[1..])
  }

  /** No line break is left, so the label stays on the node's line. */
  lemma {:induction false} EscapedCaptionOneLine(s: string)
    ensures var r := EscapeNewLines(s);
      forall i :: 0 <= i < |r| - 1 ==> !(r[i] == '\r' && r[i + 1] == '\n')
    ensures EscapeNewLines(s) != [] ==> EscapeNewLines(s)[0] == if |s| >= 2 && s[0] == '\r' && s[1] == '\n' then '\\' else s[0]
    decreases |s|
  {
    if s != [] {
      var broken := |s| >= 2 && s[0] == '\r' && s[1] == '\n';
      var rest := if broken then s[2..] else s[1..];
      var head := if broken then "\\n" else [s[0]];
      EscapedCaptionOneLine(rest);
      var r := EscapeNewLines(s);
      var t := EscapeNewLines(rest);
      assert r == head + t;
      forall i | 0 <= i < |r| - 1 ensures !(r[i] == '\r' && r[i + 1] == '\n') {
        if i >= |head| {
          assert r[i] == t[i - |head|] && r[i + 1] == t[i + 1 - |head|];
        } else if i == |head| - 1 && !broken && s[0] == '\r' {
          assert r[i + 1] == t[0];
        }
      }
    }
  }

  /** `Node.ToString()` without a picture. */
  function NodeText(n: Node): (r: string)
    ensures |Id(n)| + 4 <= |r| && r[..|Id(n)| + 2] == Id(n) + "[ " && r[|r| - 2..] == "];"
  {
    var text := "\"" + TypeDescription(n.nodeType) + "\n\n" + EscapeNewLines(n.caption) + "\"";
    var attributes := "color=black, margin=0 shape=box, style=filled, fillcolor=" + ColorDescription(n.frameColor)
      + ", fontsize=20, fontname=Arial" + " label = " + text;
    ConcatSlices(Id(n) + "[ ", attributes, "];");
    Id(n) + "[ " + attributes + "];"
  }

  /** C#'s concatenation of a string that may be `null`. */
  function Text(s: Option<string>): string
  {
    s.GetOr("")
  }

  /** `Edge.ToString()`: the arrow from the parent to the child, the label unescaped. */
  function EdgeText(e: Edge): (r: string)
    ensures |Text(e.parent)| + 7 <= |r| && r[..|Text(e.parent)| + 4] == Text(e.parent) + " -> "
    ensures r[|r| - 3..] == "\"];"
  {
    var middle := Text(e.child) + "[label=\"" + Text(e.edgeLabel);
    ConcatSlices(Text(e.parent) + " -> ", middle, "\"];");
    Text(e.parent) + " -> " + middle + "\"];"
  }

  /** The text up to the first occurrence of `stop`. */
  function Before(s: string, stop: char): string
  {
    if s == [] || s[0] == stop then [] else [s[0]] + Before(s[1..], stop)
  }

  lemma {:induction false} BeforeAppend(a: string, b: string, stop: char)
    requires stop !in a && b != [] && b[0] == stop
    ensures Before(a + b, stop) == a
    decreases |a|
  {
    if a == [] {
      assert a + b == b;
    } else {
      assert (a + b)[0] == a[0] && (a + b)[1..] == a[1..] + b;
      BeforeAppend(a[1..], b, stop);
    }
  }

  /** A text that starts with `a` and then `stop`, where `a` holds no `stop`, has `a` before its first `stop`. */
  lemma BeforePrefix(r: string, a: string, stop: char)
    requires stop !in a && |a| < |r| && r[..|a| + 1] == a + [stop]
    ensures Before(r, stop) == a
  {
    var rest := r[|a|..];
    assert r == r[..|a|] + rest;
    assert r[..|a|] == r[..|a| + 1][..|a|];
    assert rest[0] == r[..|a| + 1][|a|];
    BeforeAppend(a, rest, stop);
  }

  /** A node's text starts with its id, which a reader finds before the first `[`. */
  lemma NodeTextStartsWithId(n: Node)
    ensures Before(NodeText(n), '[') == Id(n)
  {
    var id := Id(n);
    var r := NodeText(n);
    SanitizeClean(n.rawId);
    assert '[' !in id by {
      forall i | 0 <= i < |id| ensures id[i] != '[' {
        assert IsLetter(id[i]) || id[i] == '_';
      }
    }
    assert r[..|id| + 1] == r[..|id| + 2][..|id| + 1];
    BeforePrefix(r, id, '[');
  }

  /** The arrow points from the parent: a parent without spaces is the text before the first space, and a null one is empty. */
  lemma EdgeTextStartsWithParent(e: Edge)
    requires ' ' !in Text(e.parent)
    ensures Before(EdgeText(e), ' ') == Text(e.parent)
    ensures e.parent.None? ==> EdgeText(e)[..4] == " -> "
  {
    var rest := " -> " + Text(e.child) + "[label=\"" + Text(e.edgeLabel) + "\"];";
    assert EdgeText(e) == Text(e.parent) + rest;
    BeforeAppend(Text(e.parent), rest, ' ');
  }

  /** `string.Join(sep, parts)`. */
  function Join(sep: string, parts: seq<string>): string
  {
    if parts == [] then ""
    else if |parts| == 1 then parts[0]
    else Join(sep, parts[..|parts| - 1]) + sep + parts[|parts| - 1]
  }

  /** Another part extends a non-empty join by the separator and the part. */
  lemma JoinAppend(sep: string, parts: seq<string>, p: string)
    requires parts != []
    ensures Join(sep, parts + [p]) == Join(sep, parts) + sep + p
  {
    assert (parts + [p])[..|parts|] == parts;
  }

  function NodeTexts(ns: seq<Node>): (r: seq<string>)
    ensures |r| == |ns| && forall i :: 0 <= i < |ns| ==> r[i] == NodeText(ns[i])
  {
    Map(ns, NodeText)
  }

  function EdgeTexts(es: seq<Edge>): (r: seq<string>)
    ensures |r| == |es| && forall i :: 0 <= i < |es| ==> r[i] == EdgeText(es[i])
  {
    Map(es, EdgeText)
  }

  /** The ids of the nodes of type `t`, in node order: a `rank=same` group. */
  function IdsOfType(ns: seq<Node>, t: NodeType): (r: seq<string>)
    ensures |r| <= |ns|
  {
    Choose(ns, (n: Node) => n.nodeType == t, Id)
  }

  /** A group holds exactly the ids of the nodes of its type. */
  lemma IdsOfTypeMembers(ns: seq<Node>, t: NodeType, x: string)
    ensures x in IdsOfType(ns, t) <==> exists i :: 0 <= i < |ns| && ns[i].nodeType == t && Id(ns[i]) == x
  {
    ChooseMember(ns, (n: Node) => n.nodeType == t, Id, x);
  }

  /** The nodes without a second one of the same id: LINQ `Union` under `Equals`. */
  function UnionById(a: seq<Node>, b: seq<Node>): seq<Node>
  {
    DistinctBy(a + b, Id)
  }

  /** Nodes of pairwise different ids. */
  predicate DistinctIds(ns: seq<Node>)
  {
    forall i, j :: 0 <= i < j < |ns| ==> Id(ns[i]) != Id(ns[j])
  }

  /** The union keeps its left operand in front when that is already free of duplicates, and it never holds two nodes of one id. */
  lemma {:induction false} UnionKeepsLeft(a: seq<Node>, b: seq<Node>)
    requires DistinctIds(a)
    ensures |a| <= |UnionById(a, b)| && UnionById(a, b)[..|a|] == a
    ensures DistinctIds(UnionById(a, b))
    decreases |b|
  {
    if b == [] {
      assert a + b == a;
      DistinctByKeepsDistinct(a);
    } else {
      var init, last := b[..|b| - 1], b[|b| - 1];
      UnionKeepsLeft(a, init);
      assert UnionById(a, b) == DistinctBy((a + init) + [last], Id) by {
        assert a + b == (a + init) + [last];
      }
      DistinctByExtends(a + init, last, Id, a);
    }
  }

  lemma DistinctByKeepsDistinct(a: seq<Node>)
    requires DistinctIds(a)
    ensures DistinctBy(a, Id) == a
  {
    DistinctByOfDistinct(a, Id);
  }

  class DotTree {
    var nodes: seq<Node>
    var edges: seq<Edge>
    /** `Root`, set once by the constructor. */
    const root: Node

    /** `new DotTree(root)`: a tree of its root alone. */
    constructor (root: Node)
      ensures nodes == [root] && edges == [] && this.root == root
    {
      nodes := [root];
      edges := [];
      this.root := root;
    }

    /** `NodeCount`. */
    function NodeCount(): nat
      reads this
    {
      |nodes|
    }

    /** `EdgeCount`. */
    function EdgeCount(): nat
      reads this
    {
      |edges|
    }

    /** `d1 + d2`: the id-distinct union of the nodes, and the edges of both; `d2` may be this tree itself. */
    method AddTree(d2: DotTree)
      modifies this
      ensures nodes == UnionById(old(nodes), old(d2.nodes)) && edges == old(edges) + old(d2.edges)
      ensures EdgeCount() == old(EdgeCount()) + old(d2.EdgeCount())
    {
      nodes := UnionById(nodes, d2.nodes);
      edges := edges + d2.edges;
    }

    /** `d1 + n`: the node appended, a duplicate included. */
    method AddNode(n: Node)
      modifies this
      ensures nodes == old(nodes) + [n] && edges == old(edges) && NodeCount() == old(NodeCount()) + 1
    {
      nodes := nodes + [n];
    }

    /** `d1 + e`: the edge appended. */
    method AddEdge(e: Edge)
      modifies this
      ensures edges == old(edges) + [e] && nodes == old(nodes) && EdgeCount() == old(EdgeCount()) + 1
    {
      edges := edges + [e];
    }

    /** The lines of `ToString` between the header and the `rank=same` groups. */
    function NodeSection(): string
      reads this
    {
      Join(NewLine, NodeTexts(nodes))
    }

    /** The lines of `ToString` after the nodes: the edges and the two `rank=same` groups, closed by `}`. */
    function Footer(): (r: string)
      reads this
      ensures r != [] && r[|r| - 1] == '}'
    {
      NewLine
        + Join(NewLine, EdgeTexts(edges)) + NewLine
        + "{rank=same; " + Join(" ", IdsOfType(nodes, PageTest)) + "}" + NewLine
        + "{rank=same; " + Join(" ", IdsOfType(nodes, PageTestClass)) + "}" + NewLine
        + "}"
    }

    /** `ToString()`: the header, the nodes, the edges, then the page tests and the test classes on one rank each. */
    function ToString(): (r: string)
      reads this
      ensures |Header| + |NodeSection()| < |r| && r[..|Header|] == Header
      ensures r[|Header|..|Header| + |NodeSection()|] == NodeSection() && r[|r| - 1] == '}'
    {
      ConcatSlices(Header, NodeSection(), Footer());
      Header + NodeSection() + Footer()
    }
  }

  /** An added node's text joins the node lines on a line of its own. */
  lemma AddedNodeLine(nodes: seq<Node>, n: Node)
    requires nodes != []
    ensures Join(NewLine, NodeTexts(nodes + [n])) == Join(NewLine, NodeTexts(nodes)) + NewLine + NodeText(n)
  {
    assert NodeTexts(nodes + [n]) == NodeTexts(nodes) + [NodeText(n)] by {
      assert (nodes + [n])[..|nodes|] == nodes;
    }
    JoinAppend(NewLine, NodeTexts(nodes), NodeText(n));
  }
}
