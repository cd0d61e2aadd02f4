/**
 * A reader for the DOT documents the snapshot handler writes: it splits
 * the document into lines, checks the `digraph {` ... `}` frame and reads
 * every line in between as a node statement `id [label="..."]` or an edge
 * statement `id -> id [label="..."]`. Reading a written document gives back
 * exactly the vertices' ids and labels and the kept edges, in order, so the
 * text handed to the graph renderer carries the vertices' ids and labels
 * and the kept edges without loss.
 */
module DotReader {
  import opened Options
  import Decimal
  import JsonQuote
  import Lines
  import opened SnapshotDot

  datatype Statement =
    | Node(id: nat, text: string)
    | Arrow(from: nat, to: nat, text: string)

  predicate StartsWith(s: string, prefix: string) {
    |prefix| <= |s| && s[..|prefix|] == prefix
  }

  /** Reads a numeral ended by a space: the number and the rest from that space on. */
  function ReadId(s: string): (r: Option<(nat, string)>)
    ensures r.Some? ==> |r.value.1| >= 1 && r.value.1[0] == ' '
  {
    if ' ' !in s then None
    else
      var i := Lines.IndexOf(s, ' ');
      match Decimal.ParseNat(s[..i])
      case Some(n) => Some((n, s[i..]))
      case None => None
  }

  /** Reads the closing attribute list ` [label="..."]`. */
  function ReadAttr(t: string): Option<string>
  {
    if StartsWith(t, " [label=") && |t| >= 9 && t[|t| - 1] == ']' then JsonQuote.Unquote(t[8..|t| - 1])
    else None
  }

  /** Reads one statement line; an edge is told from a node by the ` -> ` after the first id. */
  function ReadStatement(line: string): Option<Statement>
  {
    match ReadId(line)
    case None => None
    case Some((a, rest)) =>
      if StartsWith(rest, " -> ") then
        match ReadId(rest[4..])
        case None => None
        case Some((b, tail)) =>
          match ReadAttr(tail)
          case Some(t) => Some(Arrow(a, b, t))
          case None => None
      else
        match ReadAttr(rest)
        case Some(t) => Some(Node(a, t))
        case None => None
  }

  /** Reads every line with `read`, failing if any line fails. */
  function ReadEach<T>(lines: seq<string>, read: string -> Option<T>): (r: Option<seq<T>>)
    ensures r.Some? <==> forall k :: 0 <= k < |lines| ==> read(lines[k]).Some?
    ensures r.Some? ==> |r.value| == |lines|
    ensures r.Some? ==> forall k :: 0 <= k < |lines| ==> r.value[k] == read(lines[k]).value
  {
    if lines == [] then Some([])
    else
      var prefix := lines[..|lines| - 1];
      assert forall k :: 0 <= k < |prefix| ==> prefix[k] == lines[k];
      match (ReadEach(prefix, read), read(lines[|lines| - 1]))
      case (Some(ss), Some(s)) => Some(ss + [s])
      case _ => None
  }

  /** Reads a whole document: the frame, then the statements between. */
  function ReadDocument(doc: string): Option<seq<Statement>>
  {
    var lines := Lines.Split(doc, '\n');
    if |lines| >= 2 && lines[0] == Header && lines[|lines| - 1] == Footer then
      ReadEach(lines[1..|lines| - 1], ReadStatement)
    else None
  }

  /** A run of digits followed by a space-led rest is read as its value and that rest. */
  lemma ReadIdOfDigits(digits: string, rest: string)
    requires |digits| >= 1 && Decimal.AllDigits(digits)
    requires |rest| >= 1 && rest[0] == ' '
    ensures ReadId(digits + rest) == Some((Decimal.DigitsValue(digits), rest))
  {
    var s := digits + rest;
    Decimal.DigitsOnly(digits, ' ');
    Lines.IndexOfAfter(digits, rest, ' ');
    assert Lines.IndexOf(rest, ' ') == 0;
    assert s[..|digits|] == digits;
    assert s[|digits|..] == rest;
  }

  /** A numeral followed by a space-led rest is read back. */
  lemma ReadIdOf(n: nat, rest: string)
    requires |rest| >= 1 && rest[0] == ' '
    ensures ReadId(Decimal.NatToString(n) + rest) == Some((n, rest))
  {
    ReadIdOfDigits(Decimal.NatToString(n), rest);
    Decimal.ParseNatToString(n);
  }

  /** The attribute list around a quoted string is read as that string's decoding. */
  lemma ReadAttrOf(q: string)
    ensures ReadAttr(" [label=" + q + "]") == JsonQuote.Unquote(q)
  {
    var a := " [label=" + q + "]";
    assert a[..8] == " [label=";
    assert a[8..|a| - 1] == q;
  }

  /** The attribute list written for a label is read back as that label. */
  lemma ReadQuotedAttr(t: string)
    ensures ReadAttr(" [label=" + JsonQuote.Quote(t) + "]") == Some(t)
  {
    ReadAttrOf(JsonQuote.Quote(t));
    JsonQuote.UnquoteQuote(t);
  }

  /** An attribute list is never taken for the arrow of an edge. */
  lemma AttrIsNoArrow(q: string)
    ensures !StartsWith(" [label=" + q + "]", " -> ")
  {
    var rest := " [label=" + q + "]";
    assert rest[1] == '[';
  }

  /** How a node statement is read, in terms of its parts. */
  lemma ReadNodeFrom(line: string, rest: string, id: nat, t: string)
    requires ReadId(line) == Some((id, rest))
    requires !StartsWith(rest, " -> ")
    requires ReadAttr(rest) == Some(t)
    ensures ReadStatement(line) == Some(Node(id, t))
  {
  }

  /** How an edge statement is read, in terms of its parts. */
  lemma ReadArrowFrom(line: string, rest: string, tail: string, from: nat, to: nat, t: string)
    requires ReadId(line) == Some((from, rest))
    requires StartsWith(rest, " -> ")
    requires ReadId(rest[4..]) == Some((to, tail))
    requires ReadAttr(tail) == Some(t)
    ensures ReadStatement(line) == Some(Arrow(from, to, t))
  {
  }

  /** A node line reads back as its id and its vertex's label. */
  lemma ReadNodeLine(id: nat, v: Vertex)
    ensures ReadStatement(NodeLine(id, v)) == Some(Node(id, Label(v)))
  {
    var q := JsonQuote.Quote(Label(v));
    var rest := " [label=" + q + "]";
    assert NodeLine(id, v) == Decimal.NatToString(id) + rest;
    ReadIdOf(id, rest);
    ReadQuotedAttr(Label(v));
    AttrIsNoArrow(q);
    ReadNodeFrom(NodeLine(id, v), rest, id, Label(v));
  }

  /** The parts of an edge line: the first id, the arrow, the second id and the attributes. */
  lemma EdgeLineParts(from: nat, to: nat, text: string)
    ensures var attr := " [label=" + JsonQuote.Quote(text) + "]";
      var rest := " -> " + Decimal.NatToString(to) + attr;
      ReadId(EdgeLine(from, to, text)) == Some((from, rest)) &&
      StartsWith(rest, " -> ") &&
      ReadId(rest[4..]) == Some((to, attr)) &&
      ReadAttr(attr) == Some(text)
  {
    var attr := " [label=" + JsonQuote.Quote(text) + "]";
    var second := Decimal.NatToString(to) + attr;
    var rest := " -> " + second;
    assert " -> " + Decimal.NatToString(to) + attr == rest;
    assert EdgeLine(from, to, text) == Decimal.NatToString(from) + rest;
    ReadIdOf(from, rest);
    assert rest[..4] == " -> " && rest[4..] == second;
    ReadIdOf(to, attr);
    ReadQuotedAttr(text);
  }

  /** An edge line reads back as its two ids and its label. */
  lemma ReadEdgeLine(from: nat, to: nat, text: string)
    ensures ReadStatement(EdgeLine(from, to, text)) == Some(Arrow(from, to, text))
  {
    var attr := " [label=" + JsonQuote.Quote(text) + "]";
    var rest := " -> " + Decimal.NatToString(to) + attr;
    EdgeLineParts(from, to, text);
    ReadArrowFrom(EdgeLine(from, to, text), rest, attr, from, to, text);
  }

  predicate NoBreak(s: string) {
    '\n' !in s
  }

  predicate NoBreaks(lines: seq<string>) {
    forall k :: 0 <= k < |lines| ==> NoBreak(lines[k])
  }

  lemma DigitsNoBreak(digits: string)
    requires Decimal.AllDigits(digits)
    ensures NoBreak(digits)
  {
    Decimal.DigitsOnly(digits, '\n');
  }

  lemma PrintableNoBreak(q: string)
    requires JsonQuote.Printable(q)
    ensures NoBreak(q)
  {
    assert forall i :: 0 <= i < |q| ==> q[i] != '\n';
  }

  lemma NodeLineNoBreak(id: nat, v: Vertex)
    ensures NoBreak(NodeLine(id, v))
  {
    DigitsNoBreak(Decimal.NatToString(id));
    PrintableNoBreak(JsonQuote.Quote(Label(v)));
  }

  lemma EdgeLineNoBreak(from: nat, to: nat, text: string)
    ensures NoBreak(EdgeLine(from, to, text))
  {
    DigitsNoBreak(Decimal.NatToString(from));
    DigitsNoBreak(Decimal.NatToString(to));
    PrintableNoBreak(JsonQuote.Quote(text));
  }

  lemma FramedNoBreaks(a: seq<string>, b: seq<string>)
    requires NoBreaks(a) && NoBreaks(b)
    ensures NoBreaks([Header] + a + b + [Footer])
  {
    Framed(Header, a, b, Footer);
  }

  /** No line of the output holds a line break, so joining them loses nothing. */
  lemma DotLinesNoBreak(vs: seq<Vertex>, es: seq<Edge>)
    ensures NoBreaks(DotLines(vs, es))
  {
    var nodes, edgeLines := NodeLines(vs), EdgeLines(es, IdMap(vs));
    forall k | 0 <= k < |nodes| ensures NoBreak(nodes[k]) {
      NodeLineNoBreak(k + 1, vs[k]);
    }
    EdgeLinesOfKept(vs, es);
    forall k | 0 <= k < |edgeLines| ensures NoBreak(edgeLines[k]) {
      var e := KeptEdges(es, Refs(vs))[k];
      EdgeLineNoBreak(IdMap(vs)[e.from], IdMap(vs)[e.to], e.text);
    }
    FramedNoBreaks(nodes, edgeLines);
  }

  /** The lines between the first and the last of a framed sequence. */
  lemma FramedBody<T>(first: T, a: seq<T>, b: seq<T>, last: T)
    ensures var out := [first] + a + b + [last]; |out| >= 2 && out[1..|out| - 1] == a + b
  {
    var out := [first] + a + b + [last];
    assert out == [first] + (a + b) + [last];
  }

  /** Splitting the document at line breaks gives back the output lines. */
  lemma SplitDocument(vs: seq<Vertex>, es: seq<Edge>)
    ensures Lines.Split(Document(vs, es), '\n') == DotLines(vs, es)
  {
    DotLinesNoBreak(vs, es);
    Lines.SplitJoin(DotLines(vs, es), '\n');
  }

  /** A document whose lines are framed by the header and footer is read as its body. */
  lemma ReadFramed(doc: string, a: seq<string>, b: seq<string>)
    requires Lines.Split(doc, '\n') == [Header] + a + b + [Footer]
    ensures ReadDocument(doc) == ReadEach(a + b, ReadStatement)
  {
    FramedBody(Header, a, b, Footer);
  }

  /** The statement expected for each vertex: its number and its label. */
  function NodeStatements(vs: seq<Vertex>): (ss: seq<Statement>)
    ensures |ss| == |vs|
    ensures forall k :: 0 <= k < |vs| ==> ss[k] == Node(k + 1, Label(vs[k]))
  {
    if vs == [] then []
    else NodeStatements(vs[..|vs| - 1]) + [Node(|vs|, Label(vs[|vs| - 1]))]
  }

  /** The statement expected for each edge the handler's guard lets through. */
  function ArrowStatements(es: seq<Edge>, m: map<Ref, nat>): seq<Statement>
  {
    if es == [] then []
    else
      var e := es[|es| - 1];
      ArrowStatements(es[..|es| - 1], m)
        + (if Emitted(m, e) then [Arrow(m[e.from], m[e.to], e.text)] else [])
  }

  /** The expected edge statements are those of the kept edges, in input order. */
  lemma {:induction false} ArrowStatementsOfKept(vs: seq<Vertex>, es: seq<Edge>)
    ensures var kept, m := KeptEdges(es, Refs(vs)), IdMap(vs);
      |ArrowStatements(es, m)| == |kept| &&
      forall k :: 0 <= k < |kept| ==> ArrowStatements(es, m)[k] == Arrow(m[kept[k].from], m[kept[k].to], kept[k].text)
  {
    if es != [] {
      ArrowStatementsOfKept(vs, es[..|es| - 1]);
      EmittedIffMapped(vs, es[|es| - 1]);
    }
  }

  /** Reading lines one after another. */
  lemma ReadSnoc<T>(lines: seq<string>, line: string, read: string -> Option<T>)
    ensures ReadEach(lines + [line], read) ==
      match (ReadEach(lines, read), read(line))
      case (Some(ss), Some(s)) => Some(ss + [s])
      case _ => None
  {
    assert (lines + [line])[..|lines|] == lines;
  }

  /** Reading two runs of lines reads each run. */
  lemma {:induction false} ReadAppend<T>(a: seq<string>, b: seq<string>, read: string -> Option<T>, sa: seq<T>, sb: seq<T>)
    requires ReadEach(a, read) == Some(sa) && ReadEach(b, read) == Some(sb)
    ensures ReadEach(a + b, read) == Some(sa + sb)
  {
    if b == [] {
      assert a + b == a && sa + sb == sa;
    } else {
      var b0, x := b[..|b| - 1], b[|b| - 1];
      var r0 := ReadEach(b0, read);
      assert b == b0 + [x];
      ReadSnoc(b0, x, read);
      assert r0.Some? && read(x).Some?;
      assert sb == r0.value + [read(x).value];
      ReadAppend(a, b0, read, sa, r0.value);
      assert a + b == (a + b0) + [x];
      ReadSnoc(a + b0, x, read);
      assert sa + sb == (sa + r0.value) + [read(x).value];
    }
  }

  /** The node lines read back as the node statements. */
  lemma {:induction false} ReadNodeLines(vs: seq<Vertex>)
    ensures ReadEach(NodeLines(vs), ReadStatement) == Some(NodeStatements(vs))
  {
    if vs != [] {
      var prefix, last := vs[..|vs| - 1], vs[|vs| - 1];
      ReadNodeLines(prefix);
      ReadNodeLine(|vs|, last);
      ReadSnoc(NodeLines(prefix), NodeLine(|vs|, last), ReadStatement);
    }
  }

  /** The edge lines read back as the edge statements. */
  lemma {:induction false} ReadEdgeLines(es: seq<Edge>, m: map<Ref, nat>)
    ensures ReadEach(EdgeLines(es, m), ReadStatement) == Some(ArrowStatements(es, m))
  {
    if es != [] {
      var prefix, e := es[..|es| - 1], es[|es| - 1];
      ReadEdgeLines(prefix, m);
      if Emitted(m, e) {
        ReadEdgeLine(m[e.from], m[e.to], e.text);
        ReadSnoc(EdgeLines(prefix, m), EdgeLine(m[e.from], m[e.to], e.text), ReadStatement);
      } else {
        assert EdgeLines(es, m) == EdgeLines(prefix, m);
        assert ArrowStatements(es, m) == ArrowStatements(prefix, m);
      }
    }
  }

  /** The document written for a snapshot reads back as the node statements, then the edge statements. */
  lemma ReadDocumentStatements(vs: seq<Vertex>, es: seq<Edge>)
    ensures ReadDocument(Document(vs, es)) == Some(NodeStatements(vs) + ArrowStatements(es, IdMap(vs)))
  {
    var m := IdMap(vs);
    SplitDocument(vs, es);
    ReadFramed(Document(vs, es), NodeLines(vs), EdgeLines(es, m));
    ReadNodeLines(vs);
    ReadEdgeLines(es, m);
    ReadAppend(NodeLines(vs), EdgeLines(es, m), ReadStatement, NodeStatements(vs), ArrowStatements(es, m));
  }

  /** The node statements come first, one per vertex. */
  lemma NodePositions(vs: seq<Vertex>, arrows: seq<Statement>, ss: seq<Statement>)
    requires ss == NodeStatements(vs) + arrows
    ensures |ss| == |vs| + |arrows|
    ensures forall k :: 0 <= k < |vs| ==> ss[k] == Node(k + 1, Label(vs[k]))
  {
    Concat(NodeStatements(vs), arrows);
  }

  /** After the node statements come those of the kept edges. */
  lemma ArrowPositions(vs: seq<Vertex>, es: seq<Edge>, nodes: seq<Statement>, ss: seq<Statement>)
    requires |nodes| == |vs| && ss == nodes + ArrowStatements(es, IdMap(vs))
    ensures var kept, m := KeptEdges(es, Refs(vs)), IdMap(vs);
      |ss| == |vs| + |kept| &&
      forall k :: 0 <= k < |kept| ==> ss[|vs| + k] == Arrow(m[kept[k].from], m[kept[k].to], kept[k].text)
  {
    var kept, m := KeptEdges(es, Refs(vs)), IdMap(vs);
    var arrows := ArrowStatements(es, m);
    ArrowStatementsOfKept(vs, es);
    Concat(nodes, arrows);
    forall k | 0 <= k < |kept|
      ensures ss[|vs| + k] == Arrow(m[kept[k].from], m[kept[k].to], kept[k].text)
    {
      assert ss[|vs| + k] == arrows[k];
    }
  }

  /** Positions in the concatenation of two runs. */
  lemma Concat<T>(a: seq<T>, b: seq<T>)
    ensures |a + b| == |a| + |b|
    ensures forall k :: 0 <= k < |a| ==> (a + b)[k] == a[k]
    ensures forall k :: 0 <= k < |b| ==> (a + b)[|a| + k] == b[k]
  {
  }

  /**
   * Reading the document written for a snapshot gives one node statement
   * per vertex, the k-th with id k and the vertex's label, followed by one
   * edge statement per edge whose endpoints are both vertices, in input
   * order, between the endpoints' ids and with the edge's label.
   */
  lemma ReadDocumentOfSnapshot(vs: seq<Vertex>, es: seq<Edge>)
    ensures var r, kept, m := ReadDocument(Document(vs, es)), KeptEdges(es, Refs(vs)), IdMap(vs);
      r.Some? && |r.value| == |vs| + |kept| &&
      (forall k :: 0 <= k < |vs| ==> r.value[k] == Node(k + 1, Label(vs[k]))) &&
      (forall k :: 0 <= k < |kept| ==> r.value[|vs| + k] == Arrow(m[kept[k].from], m[kept[k].to], kept[k].text))
  {
    ReadDocumentStatements(vs, es);
    var ss := ReadDocument(Document(vs, es)).value;
    NodePositions(vs, ArrowStatements(es, IdMap(vs)), ss);
    ArrowPositions(vs, es, NodeStatements(vs), ss);
  }
}
