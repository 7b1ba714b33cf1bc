/**
 * The Graphviz writer of inspiderweb/dotgraph.py: a builder that collects
 * records and directed connections between them and serialises both as
 * the text of a DOT digraph.
 */
module DotGraphs {
  import opened Strings
  import opened Collections
  import opened Records

  const Header := "digraph g {\n"
  const Footer := "}"

  /** The node statement of one record: its id and its label. */
  function NodeLine(id: string, name: string): string {
    "\t \"" + id + "\" [label=\"" + name + "\"];\n"
  }

  /** The edge statement of one connection. */
  function EdgeLine(from: string, to: string): string {
    "\t\"" + from + "\" -> \"" + to + "\"; \n"
  }

  /** The list comprehension over the pieces of the style: the non-empty ones, tab-indented. */
  function StyleLines(pieces: seq<string>): seq<string> {
    if pieces == [] then []
    else
      var rest := StyleLines(pieces[1..]);
      if pieces[0] == [] then rest else ["\t" + pieces[0]] + rest
  }

  /**
   * Each style line is a tab followed by a non-empty piece, and there are
   * none exactly when every piece is empty.
   */
  lemma {:induction false} StyleLinesShape(pieces: seq<string>)
    ensures var lines := StyleLines(pieces);
      && (forall l :: l in lines ==> |l| >= 2 && l[0] == '\t' && l[1..] in pieces)
      && (lines == [] <==> AllEmpty(pieces))
  {
    if pieces != [] {
      StyleLinesShape(pieces[1..]);
      assert forall p :: p in pieces <==> p == pieces[0] || p in pieces[1..];
      if pieces[0] != [] {
        var l := "\t" + pieces[0];
        assert l[1..] == pieces[0];
      }
    }
  }

  /** The style block: `style` cut at every `;`, empty pieces dropped, the rest joined by `";\n"`. */
  function StyleBlock(style: string): string {
    Join(StyleLines(Split(style, ';')), ";\n")
  }

  /** The first piece of a join starts it. */
  lemma JoinStartsWithFirst(pieces: seq<string>, sep: string)
    requires pieces != []
    ensures StartsWith(Join(pieces, sep), pieces[0])
  {
  }

  /** The last piece of a join ends it. */
  lemma {:induction false} JoinEndsWithLast(pieces: seq<string>, sep: string)
    requires pieces != []
    ensures EndsWith(Join(pieces, sep), pieces[|pieces| - 1])
  {
    if |pieces| > 1 {
      JoinEndsWithLast(pieces[1..], sep);
      var j := Join(pieces[1..], sep);
      var last := pieces[|pieces| - 1];
      assert pieces[1..][|pieces[1..]| - 1] == last;
      var whole := pieces[0] + sep + j;
      assert whole[|whole| - |last|..] == j[|j| - |last|..];
    }
  }

  /** `s` holds nothing but the character `c`. */
  predicate OnlyChar(s: string, c: char) {
    forall i :: 0 <= i < |s| ==> s[i] == c
  }

  predicate AllEmpty(pieces: seq<string>) {
    forall p :: p in pieces ==> p == []
  }

  /** Every piece of a split is empty exactly when the string is separators only. */
  lemma {:induction false} SplitAllEmpty(s: string, sep: char)
    ensures AllEmpty(Split(s, sep)) <==> OnlyChar(s, sep)
  {
    if s != [] {
      SplitAllEmpty(s[1..], sep);
      var rest := Split(s[1..], sep);
      var ps := Split(s, sep);
      if s[0] == sep {
        assert ps == [[]] + rest;
        if forall p :: p in rest ==> p == [] {
          forall p | p in ps ensures p == [] {
            assert p == [] || p in rest;
          }
          forall i | 0 <= i < |s| ensures s[i] == sep {
            if i > 0 {
              assert s[i] == s[1..][i - 1];
            }
          }
        } else {
          var p :| p in rest && p != [];
          assert p in ps;
          var i :| 0 <= i < |s[1..]| && s[1..][i] != sep;
          assert s[i + 1] != sep;
        }
      } else {
        assert ps[0] != [] && ps[0] in ps;
      }
    }
  }

  /** The style block is empty exactly when the style holds nothing but semicolons. */
  lemma StyleBlockEmpty(style: string)
    ensures StyleBlock(style) == [] <==> OnlyChar(style, ';')
  {
    var lines := StyleLines(Split(style, ';'));
    StyleLinesShape(Split(style, ';'));
    SplitAllEmpty(style, ';');
    if lines != [] {
      JoinStartsWithFirst(lines, ";\n");
      assert lines[0] in lines;
      assert |StyleBlock(style)| >= 2;
    }
  }

  /**
   * A non-empty style block starts with a tab and has no separator after
   * its last line.
   */
  lemma StyleBlockShape(style: string)
    ensures var b := StyleBlock(style);
      b != [] ==> b[0] == '\t' && |b| >= 2 && b[|b| - 2] != ';'
  {
    var lines := StyleLines(Split(style, ';'));
    StyleLinesShape(Split(style, ';'));
    if lines != [] {
      JoinStartsWithFirst(lines, ";\n");
      JoinEndsWithLast(lines, ";\n");
      var last := lines[|lines| - 1];
      assert last in lines;
      var piece := last[1..];
      assert piece in Split(style, ';');
      EndsWithAt(StyleBlock(style), last, 2);
      if |last| > 2 {
        assert last[|last| - 2] == piece[|last| - 3];
      }
    }
  }

  /** A style without semicolons is one indented line. */
  lemma StyleBlockSingle(style: string)
    requires style != [] && ';' !in style
    ensures StyleBlock(style) == "\t" + style
  {
    SplitWithout(style, ';');
    assert [style][1..] == [];
    assert StyleLines([style]) == ["\t" + style];
  }

  /** The node statements, one per (id, label) pair, in order. */
  function NodeTexts(nodes: seq<(string, string)>): (r: seq<string>)
    ensures |r| == |nodes|
  {
    if nodes == [] then []
    else NodeTexts(nodes[..|nodes| - 1]) + [NodeLine(nodes[|nodes| - 1].0, nodes[|nodes| - 1].1)]
  }

  lemma {:induction false} NodeTextsAt(nodes: seq<(string, string)>, i: nat)
    requires i < |nodes|
    ensures NodeTexts(nodes)[i] == NodeLine(nodes[i].0, nodes[i].1)
  {
    var front := nodes[..|nodes| - 1];
    if i < |front| {
      NodeTextsAt(front, i);
    }
  }

  /** The edge statements, one per connection, in order. */
  function EdgeTexts(edges: seq<(string, string)>): (r: seq<string>)
    ensures |r| == |edges|
  {
    if edges == [] then []
    else EdgeTexts(edges[..|edges| - 1]) + [EdgeLine(edges[|edges| - 1].0, edges[|edges| - 1].1)]
  }

  lemma {:induction false} EdgeTextsAt(edges: seq<(string, string)>, i: nat)
    requires i < |edges|
    ensures EdgeTexts(edges)[i] == EdgeLine(edges[i].0, edges[i].1)
  {
    var front := edges[..|edges| - 1];
    if i < |front| {
      EdgeTextsAt(front, i);
    }
  }

  /**
   * The text `generate_dot_str` builds: header, style block, the node
   * statements, the edge statements, closing brace.
   */
  function DotText(style: string, nodes: seq<(string, string)>, edges: seq<(string, string)>): string {
    Header + StyleBlock(style) + Concat(NodeTexts(nodes)) + Concat(EdgeTexts(edges)) + Footer
  }

  lemma Regroup(pre: string, x: string, p: string, y: string, post: string)
    ensures pre + (x + p + y) + post == (pre + x) + p + (y + post)
  {
  }

  /** Every piece of a concatenation occurs in any text built around it. */
  lemma ConcatPieceOccurs(pre: string, pieces: seq<string>, post: string, i: nat)
    requires i < |pieces|
    ensures Contains(pre + Concat(pieces) + post, pieces[i])
  {
    ConcatAt(pieces, i);
    Regroup(pre, Concat(pieces[..i]), pieces[i], Concat(pieces[i + 1..]), post);
    OccursInMiddle(pre + Concat(pieces[..i]), pieces[i], Concat(pieces[i + 1..]) + post);
  }

  /** A text made of a header, a body and a footer starts and ends with them. */
  lemma Framed(head: string, body: string, rest: string, foot: string)
    ensures StartsWith(head + body + rest + foot, head)
    ensures StartsWith(head + body + rest + foot, head + body)
    ensures EndsWith(head + body + rest + foot, foot)
  {
    var t := head + body + rest + foot;
    assert t == (head + body) + (rest + foot);
    assert t[..|head|] == head;
    assert t[|t| - |foot|..] == foot;
  }

  /**
   * The DOT text opens the digraph and closes it, and its node statements
   * come before its edge statements.
   */
  lemma DotTextFrame(style: string, nodes: seq<(string, string)>, edges: seq<(string, string)>)
    ensures var t := DotText(style, nodes, edges);
      && StartsWith(t, Header) && EndsWith(t, Footer)
      && StartsWith(t, Header + StyleBlock(style) + Concat(NodeTexts(nodes)))
  {
    Framed(Header, StyleBlock(style) + Concat(NodeTexts(nodes)), Concat(EdgeTexts(edges)), Footer);
    assert Header + (StyleBlock(style) + Concat(NodeTexts(nodes))) == Header + StyleBlock(style) + Concat(NodeTexts(nodes));
  }

  /** The DOT text holds the node statement of every node. */
  lemma DotTextHasNodes(style: string, nodes: seq<(string, string)>, edges: seq<(string, string)>)
    ensures forall i :: 0 <= i < |nodes| ==> Contains(DotText(style, nodes, edges), NodeLine(nodes[i].0, nodes[i].1))
  {
    var back := Concat(EdgeTexts(edges)) + Footer;
    assert DotText(style, nodes, edges) == Header + StyleBlock(style) + Concat(NodeTexts(nodes)) + back;
    forall i | 0 <= i < |nodes|
      ensures Contains(DotText(style, nodes, edges), NodeLine(nodes[i].0, nodes[i].1))
    {
      ConcatPieceOccurs(Header + StyleBlock(style), NodeTexts(nodes), back, i);
      NodeTextsAt(nodes, i);
    }
  }

  /** The DOT text holds the edge statement of every edge. */
  lemma DotTextHasEdges(style: string, nodes: seq<(string, string)>, edges: seq<(string, string)>)
    ensures forall i :: 0 <= i < |edges| ==> Contains(DotText(style, nodes, edges), EdgeLine(edges[i].0, edges[i].1))
  {
    var front := Header + StyleBlock(style) + Concat(NodeTexts(nodes));
    forall i | 0 <= i < |edges|
      ensures Contains(DotText(style, nodes, edges), EdgeLine(edges[i].0, edges[i].1))
    {
      ConcatPieceOccurs(front, EdgeTexts(edges), Footer, i);
      EdgeTextsAt(edges, i);
    }
  }

  /**
   * A Python dict's key order after `d[k] = v`: a new key goes last, an
   * existing key keeps its place.
   */
  function Inserted(keys: seq<string>, k: string): (r: seq<string>)
    ensures NoDuplicates(keys) ==> NoDuplicates(r)
    ensures forall x :: x in r <==> x in keys || x == k
    ensures keys <= r && k in r
  {
    if k in keys then keys else keys + [k]
  }

  /** Storing the same key again leaves the order as it was. */
  lemma InsertedIdempotent(keys: seq<string>, k: string)
    ensures Inserted(Inserted(keys, k), k) == Inserted(keys, k)
  {
  }

  /** The (id, label) pair each stored record is drawn with, in key order. */
  function NodesOf(keys: seq<string>, records: map<string, Record>): (r: seq<(string, string)>)
    requires forall k :: k in keys ==> k in records
    reads records.Values
    ensures |r| == |keys|
  {
    if keys == [] then []
    else
      var k := keys[|keys| - 1];
      NodesOf(keys[..|keys| - 1], records) + [(records[k].recid, records[k].Label())]
  }

  /** The i-th node drawn is the record stored under the i-th key. */
  lemma {:induction false} NodesOfAt(keys: seq<string>, records: map<string, Record>, i: nat)
    requires forall k :: k in keys ==> k in records
    requires i < |keys|
    ensures NodesOf(keys, records)[i] == (records[keys[i]].recid, records[keys[i]].Label())
  {
    var front := keys[..|keys| - 1];
    if i < |front| {
      NodesOfAt(front, records, i);
    }
  }

  /**
   * `DotGraph`: the records to draw keyed by their id (`record.mid`, which
   * is the recid), the connections between ids, and the DOT text last
   * generated.
   */
  class DotGraph {
    var dotStr: string
    var records: map<string, Record>
    /** The keys of `records` in insertion order, the order a dict iterates in. */
    var keys: seq<string>
    var connections: set<(string, string)>
    /** Whether `generate_dot_str` has run, and what it drew then. */
    ghost var generated: bool
    ghost var shownStyle: string
    ghost var shownNodes: seq<(string, string)>
    ghost var shownEdges: seq<(string, string)>

    /** The key order lists every record once, and every connection joins two stored records. */
    ghost predicate Valid()
      reads this
    {
      && NoDuplicates(keys)
      && (forall k :: k in keys <==> k in records)
      && (forall c :: c in connections ==> c.0 in records && c.1 in records)
    }

    /** The text is empty before the first `generate_dot_str` and the last one generated after. */
    ghost predicate Rendered()
      reads this
    {
      if generated then dotStr == DotText(shownStyle, shownNodes, shownEdges) else dotStr == ""
    }

    /** `DotGraph()`: no text, no records, no connections. */
    constructor ()
      ensures Valid() && Rendered() && !generated
      ensures dotStr == "" && records == map[] && keys == [] && connections == {}
    {
      dotStr := "";
      records := map[];
      keys := [];
      connections := {};
      generated := false;
    }

    /**
     * `add_connection`: stores both records under their ids, replacing any
     * record stored there before, and records the directed connection.
     */
    method AddConnection(from: Record, to: Record)
      requires Valid()
      modifies this
      ensures Valid()
      ensures records == old(records)[from.recid := from][to.recid := to]
      ensures keys == Inserted(Inserted(old(keys), from.recid), to.recid)
      ensures connections == old(connections) + {(from.recid, to.recid)}
      ensures dotStr == old(dotStr) && generated == old(generated)
      ensures shownStyle == old(shownStyle) && shownNodes == old(shownNodes) && shownEdges == old(shownEdges)
    {
      var a, b := from.recid, to.recid;
      Store(a, from);
      Store(b, to);
      connections := connections + {(a, b)};
    }

    /** `self._records[id] = record`: a dict assignment, which keeps an existing key's place. */
    method Store(id: string, record: Record)
      requires Valid()
      modifies this
      ensures Valid()
      ensures records == old(records)[id := record] && keys == Inserted(old(keys), id)
      ensures connections == old(connections) && dotStr == old(dotStr) && generated == old(generated)
      ensures shownStyle == old(shownStyle) && shownNodes == old(shownNodes) && shownEdges == old(shownEdges)
    {
      keys := Inserted(keys, id);
      records := records[id := record];
    }

    /** `return_dot_str`: the text of the last `generate_dot_str`, or "" before the first. */
    function ReturnDotStr(): (s: string)
      requires Rendered()
      reads this
      ensures generated ==> s == DotText(shownStyle, shownNodes, shownEdges)
      ensures !generated ==> s == ""
    {
      dotStr
    }

    /**
     * `generate_dot_str`: rebuilds the text from scratch, with one node
     * statement per stored record in key order, drawn with the id and label
     * the record has at this moment, and one edge statement per connection
     * in the set's iteration order `edges`.
     */
    method GenerateDotStr(style: string) returns (s: string, edges: seq<(string, string)>)
      requires Valid()
      modifies this
      ensures Valid() && Rendered() && generated
      ensures records == old(records) && keys == old(keys) && connections == old(connections)
      ensures Enumerates(edges, connections)
      ensures s == dotStr && s == DotText(style, old(NodesOf(keys, records)), edges)
      ensures |shownNodes| == |keys| && |shownEdges| == |connections|
    {
      ghost var nodes := NodesOf(keys, records);
      s, edges := Render(style, keys, records, connections);
      Show(s, style, nodes, edges);
    }

    /** Stores a freshly generated text and what it was drawn from. */
    method Show(text: string, ghost style: string, ghost nodes: seq<(string, string)>, ghost edges: seq<(string, string)>)
      requires Valid() && text == DotText(style, nodes, edges)
      modifies this
      ensures Valid() && Rendered() && generated
      ensures dotStr == text && shownStyle == style && shownNodes == nodes && shownEdges == edges
      ensures records == old(records) && keys == old(keys) && connections == old(connections)
    {
      dotStr, generated, shownStyle, shownNodes, shownEdges := text, true, style, nodes, edges;
    }
  }

  /**
   * The text of `generate_dot_str`, built by repeated `+=` as the source
   * does: header, style block, the node statements of the records under
   * `keys`, the edge statements of `connections` in iteration order
   * `edges`, closing brace.
   */
  method Render(style: string, keys: seq<string>, records: map<string, Record>,
                connections: set<(string, string)>) returns (s: string, edges: seq<(string, string)>)
    requires forall k :: k in keys ==> k in records
    ensures Enumerates(edges, connections) && |edges| == |connections|
    ensures s == DotText(style, NodesOf(keys, records), edges)
  {
    s := "";
    s := s + Header;
    assert s == Header;
    var indented := StyleBlock(style);
    s := s + indented;
    var nodeText := NodeStatements(keys, records);
    s := s + nodeText;
    var edgeText;
    edgeText, edges := EdgeStatements(connections);
    s := s + edgeText;
    s := s + Footer;
    EnumerationLength(edges, connections);
  }

  /** A key order that lists every key of a dict once has one entry per key. */
  lemma KeyOrderLength(keys: seq<string>, records: map<string, Record>)
    requires NoDuplicates(keys) && forall k :: k in keys <==> k in records
    ensures |keys| == |records|
  {
    assert Enumerates(keys, records.Keys);
    EnumerationLength(keys, records.Keys);
  }

  lemma NodeTextsStep(nodes: seq<(string, string)>, i: nat)
    requires i < |nodes|
    ensures Concat(NodeTexts(nodes[..i + 1])) == Concat(NodeTexts(nodes[..i])) + NodeLine(nodes[i].0, nodes[i].1)
  {
    assert nodes[..i + 1][..i] == nodes[..i];
  }

  /** The first loop of `generate_dot_str`: one node statement per stored record, in key order. */
  method NodeStatements(keys: seq<string>, records: map<string, Record>) returns (text: string)
    requires forall k :: k in keys ==> k in records
    ensures text == Concat(NodeTexts(NodesOf(keys, records)))
  {
    ghost var nodes := NodesOf(keys, records);
    text := "";
    var i := 0;
    while i < |keys|
      invariant i <= |keys|
      invariant text == Concat(NodeTexts(nodes[..i]))
    {
      var record := records[keys[i]];
      NodesOfAt(keys, records, i);
      NodeTextsStep(nodes, i);
      text := text + NodeLine(record.recid, record.Label());
      i := i + 1;
    }
    assert nodes[..i] == nodes;
  }

  /** The second loop of `generate_dot_str`: one edge statement per connection, in iteration order. */
  method EdgeStatements(connections: set<(string, string)>) returns (text: string, order: seq<(string, string)>)
    ensures Enumerates(order, connections)
    ensures text == Concat(EdgeTexts(order))
  {
    var edges := Enumerate(connections);
    text := "";
    var j := 0;
    while j < |edges|
      invariant j <= |edges|
      invariant text == Concat(EdgeTexts(edges[..j]))
    {
      text := text + EdgeLine(edges[j].0, edges[j].1);
      assert edges[..j + 1][..j] == edges[..j];
      j := j + 1;
    }
    assert edges[..j] == edges;
    order := edges;
  }
}
