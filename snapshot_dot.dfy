/**
 * The object-graph view's snapshot handler: a snapshot `{vertices, edges}`
 * becomes a Graphviz DOT document. Vertices are numbered from 1 in
 * iteration order, each gets one node line carrying its label, each edge
 * whose two endpoints were numbered gets one edge line, and the whole is
 * wrapped in `digraph {` ... `}` and joined with line breaks.
 *
 * The handler itself is `SnapshotToDot`; the functions before it are the
 * specification it is proved against.
 */
module SnapshotDot {
  import opened Options
  import Decimal
  import JsonQuote
  import Lines

  /** The identity of a vertex object (the key of the handler's `Map`). */
  type Ref = nat

  /**
   * A vertex as the handler sees it: the truthiness of its `stack`,
   * `toparent` and `root` properties, and the results of its `classInfo()`
   * and `getName()` capabilities when it has them.
   */
  datatype Vertex = Vertex(
    ref: Ref,
    stack: bool,
    toparent: bool,
    root: bool,
    classInfo: Option<string>,
    name: Option<string>)

  /** An edge `[from, to, label]`; its endpoints are vertex identities and `text` is its label. */
  datatype Edge = Edge(from: Ref, to: Ref, text: string)

  const Header := "digraph {"
  const Footer := "}"

  /** The text a vertex is labelled with: the first of stack item, root,
    * class information and name that applies, else `???`. */
  function Label(v: Vertex): string
  {
    if v.stack || v.toparent then "Stack Item"
    else if v.root then "Root"
    else if v.classInfo.Some? then v.classInfo.value
    else if v.name.Some? then "name: " + v.name.value
    else "???"
  }

  /** The label candidates of a vertex, highest precedence first. */
  function LabelCandidates(v: Vertex): seq<Option<string>>
  {
    [ if v.stack || v.toparent then Some("Stack Item") else None,
      if v.root then Some("Root") else None,
      v.classInfo,
      if v.name.Some? then Some("name: " + v.name.value) else None ]
  }

  /** The first present candidate, or `fallback` when none is present. */
  function FirstPresent(cs: seq<Option<string>>, fallback: string): (r: string)
    ensures (forall k :: 0 <= k < |cs| ==> cs[k].None?) ==> r == fallback
    ensures forall k :: 0 <= k < |cs| && cs[k].Some? && (forall j :: 0 <= j < k ==> cs[j].None?) ==> r == cs[k].value
  {
    if cs == [] then fallback
    else if cs[0].Some? then cs[0].value
    else FirstPresent(cs[1..], fallback)
  }

  /** The nested conditional picks the first applicable candidate. */
  lemma LabelPrecedence(v: Vertex)
    ensures Label(v) == FirstPresent(LabelCandidates(v), "???")
  {
    var cs := LabelCandidates(v);
    if !(v.stack || v.toparent) && !v.root && v.classInfo.None? && v.name.None? {
      assert forall k :: 0 <= k < |cs| ==> cs[k].None?;
    } else if !(v.stack || v.toparent) && !v.root && v.classInfo.None? {
      assert cs[3].Some? && forall j :: 0 <= j < 3 ==> cs[j].None?;
    } else if !(v.stack || v.toparent) && !v.root {
      assert cs[2].Some? && forall j :: 0 <= j < 2 ==> cs[j].None?;
    } else if !(v.stack || v.toparent) {
      assert cs[1].Some? && forall j :: 0 <= j < 1 ==> cs[j].None?;
    } else {
      assert cs[0].Some?;
    }
  }

  /** The identities of the vertices. */
  function Refs(vs: seq<Vertex>): (rs: set<Ref>)
    ensures forall k :: 0 <= k < |vs| ==> vs[k].ref in rs
  {
    if vs == [] then {} else Refs(vs[..|vs| - 1]) + {vs[|vs| - 1].ref}
  }

  /** The identities are exactly those of some position. */
  lemma {:induction false} RefsAt(vs: seq<Vertex>, r: Ref)
    ensures r in Refs(vs) <==> exists k :: 0 <= k < |vs| && vs[k].ref == r
  {
    if vs != [] {
      var prefix := vs[..|vs| - 1];
      RefsAt(prefix, r);
      if r in Refs(prefix) {
        var k :| 0 <= k < |prefix| && prefix[k].ref == r;
        assert vs[k].ref == r;
      }
      if k :| 0 <= k < |vs| - 1 && vs[k].ref == r {
        assert prefix[k].ref == r;
      }
    }
  }

  /**
   * The handler's `mapping` after numbering `vs`: the k-th vertex (from 1)
   * is set to k, and a vertex met again is set to its later number, as
   * `Map.set` overwrites.
   */
  function IdMap(vs: seq<Vertex>): (m: map<Ref, nat>)
    ensures m.Keys == Refs(vs)
    ensures forall r :: r in m ==> 1 <= m[r] <= |vs|
  {
    if vs == [] then map[]
    else
      var prefix, last := vs[..|vs| - 1], vs[|vs| - 1];
      RefsSnoc(prefix, last);
      assert vs == prefix + [last];
      IdMap(prefix)[last.ref := |vs|]
  }

  lemma RefsSnoc(vs: seq<Vertex>, v: Vertex)
    ensures Refs(vs + [v]) == Refs(vs) + {v.ref}
  {
    assert (vs + [v])[..|vs|] == vs;
  }

  /** A vertex's id is one more than the position of its last occurrence. */
  lemma {:induction false} IdIsLastPosition(vs: seq<Vertex>, r: Ref)
    requires r in Refs(vs)
    ensures var id := IdMap(vs)[r];
      vs[id - 1].ref == r && forall j :: id <= j < |vs| ==> vs[j].ref != r
  {
    var prefix, last := vs[..|vs| - 1], vs[|vs| - 1];
    assert vs == prefix + [last];
    RefsSnoc(prefix, last);
    if last.ref != r {
      IdIsLastPosition(prefix, r);
    }
  }

  /** Every id is positive, distinct vertices get distinct ids, and when no
    * vertex repeats the k-th vertex gets id k. */
  lemma IdsFromOne(vs: seq<Vertex>)
    ensures forall r :: r in IdMap(vs) ==> IdMap(vs)[r] >= 1
    ensures forall r, s :: r in IdMap(vs) && s in IdMap(vs) && r != s ==> IdMap(vs)[r] != IdMap(vs)[s]
    ensures (forall i, j :: 0 <= i < j < |vs| ==> vs[i].ref != vs[j].ref) ==>
      forall k :: 0 <= k < |vs| ==> IdMap(vs)[vs[k].ref] == k + 1
  {
    var m := IdMap(vs);
    forall r, s | r in m && s in m && r != s ensures m[r] != m[s] {
      IdIsLastPosition(vs, r);
      IdIsLastPosition(vs, s);
    }
    if forall i, j :: 0 <= i < j < |vs| ==> vs[i].ref != vs[j].ref {
      forall k | 0 <= k < |vs| ensures m[vs[k].ref] == k + 1 {
        IdIsLastPosition(vs, vs[k].ref);
      }
    }
  }

  /** JavaScript's `!mapping.get(r)`: a missing key (undefined) and the number 0 are falsy. */
  predicate Falsy(o: Option<nat>)
  {
    o.None? || o.value == 0
  }

  function Get(m: map<Ref, nat>, r: Ref): (o: Option<nat>)
    ensures o.Some? <==> r in m
    ensures o.Some? ==> o.value == m[r]
  {
    if r in m then Some(m[r]) else None
  }

  /** The handler's test for emitting an edge, as written: neither endpoint lookup is falsy. */
  predicate Emitted(m: map<Ref, nat>, e: Edge)
  {
    !(Falsy(Get(m, e.from)) || Falsy(Get(m, e.to)))
  }

  /** Since ids start at 1 the falsy test never drops an edge between numbered
    * vertices: an edge is emitted exactly when both endpoints are among the vertices. */
  lemma EmittedIffMapped(vs: seq<Vertex>, e: Edge)
    ensures Emitted(IdMap(vs), e) <==> e.from in Refs(vs) && e.to in Refs(vs)
  {
  }

  function NodeLine(id: nat, v: Vertex): string
  {
    Decimal.NatToString(id) + " [label=" + JsonQuote.Quote(Label(v)) + "]"
  }

  function EdgeLine(from: nat, to: nat, text: string): string
  {
    Decimal.NatToString(from) + " -> " + Decimal.NatToString(to) + " [label=" + JsonQuote.Quote(text) + "]"
  }

  /** One node line per vertex, in order, the k-th numbered k. */
  function NodeLines(vs: seq<Vertex>): (lines: seq<string>)
    ensures |lines| == |vs|
    ensures forall k :: 0 <= k < |vs| ==> lines[k] == NodeLine(k + 1, vs[k])
  {
    if vs == [] then []
    else NodeLines(vs[..|vs| - 1]) + [NodeLine(|vs|, vs[|vs| - 1])]
  }

  /** The edge lines for `es`, in order, as the handler's guard selects them. */
  function EdgeLines(es: seq<Edge>, m: map<Ref, nat>): seq<string>
  {
    if es == [] then []
    else
      var e := es[|es| - 1];
      EdgeLines(es[..|es| - 1], m)
        + (if Emitted(m, e) then [EdgeLine(m[e.from], m[e.to], e.text)] else [])
  }

  /** The lines `output` holds when the handler joins it. */
  function DotLines(vs: seq<Vertex>, es: seq<Edge>): seq<string>
  {
    [Header] + NodeLines(vs) + EdgeLines(es, IdMap(vs)) + [Footer]
  }

  /** The document handed to the DOT reader: `output.join('\n')`. */
  function Document(vs: seq<Vertex>, es: seq<Edge>): string
  {
    Lines.Join(DotLines(vs, es), '\n')
  }

  /** The edges whose both endpoints are among `refs`, in their original order. */
  function KeptEdges(es: seq<Edge>, refs: set<Ref>): (kept: seq<Edge>)
    ensures |kept| <= |es|
    ensures forall k :: 0 <= k < |kept| ==> kept[k] in es && kept[k].from in refs && kept[k].to in refs
    ensures forall e :: e in es && e.from in refs && e.to in refs ==> e in kept
  {
    if es == [] then []
    else
      var e := es[|es| - 1];
      var prefix := es[..|es| - 1];
      assert es == prefix + [e];
      KeptEdges(prefix, refs) + (if e.from in refs && e.to in refs then [e] else [])
  }

  /** The edge line of a kept edge under the numbering of `vs`. */
  function KeptLine(vs: seq<Vertex>, e: Edge): string
    requires e.from in Refs(vs) && e.to in Refs(vs)
  {
    EdgeLine(IdMap(vs)[e.from], IdMap(vs)[e.to], e.text)
  }

  /** The edge lines are exactly the lines of the kept edges, one each, in input order. */
  lemma {:induction false} EdgeLinesOfKept(vs: seq<Vertex>, es: seq<Edge>)
    ensures var kept := KeptEdges(es, Refs(vs));
      |EdgeLines(es, IdMap(vs))| == |kept| &&
      forall k :: 0 <= k < |kept| ==> EdgeLines(es, IdMap(vs))[k] == KeptLine(vs, kept[k])
  {
    if es != [] {
      var e := es[|es| - 1];
      EdgeLinesOfKept(vs, es[..|es| - 1]);
      EmittedIffMapped(vs, e);
    }
  }

  /** The output is the header, one line per vertex and per kept edge, and the footer. */
  lemma DotFrame(vs: seq<Vertex>, es: seq<Edge>)
    ensures var out := DotLines(vs, es);
      |out| == 2 + |vs| + |KeptEdges(es, Refs(vs))| && out[0] == Header && out[|out| - 1] == Footer
  {
    EdgeLinesOfKept(vs, es);
    Framed(Header, NodeLines(vs), EdgeLines(es, IdMap(vs)), Footer);
  }

  /** After the header come the node lines, the k-th vertex's line numbered k, in input order. */
  lemma DotNodes(vs: seq<Vertex>, es: seq<Edge>)
    ensures |DotLines(vs, es)| >= 2 + |vs|
    ensures forall k :: 0 <= k < |vs| ==> DotLines(vs, es)[1 + k] == NodeLine(k + 1, vs[k])
  {
    Framed(Header, NodeLines(vs), EdgeLines(es, IdMap(vs)), Footer);
  }

  /** After every node line come the lines of the kept edges, in input order. */
  lemma DotEdges(vs: seq<Vertex>, es: seq<Edge>)
    ensures var out, kept := DotLines(vs, es), KeptEdges(es, Refs(vs));
      |out| == 2 + |vs| + |kept| &&
      forall k :: 0 <= k < |kept| ==> out[1 + |vs| + k] == KeptLine(vs, kept[k])
  {
    EdgeLinesOfKept(vs, es);
    Framed(Header, NodeLines(vs), EdgeLines(es, IdMap(vs)), Footer);
  }

  /** Positions in a sequence made of a first item, two runs and a last item. */
  lemma Framed<T>(first: T, a: seq<T>, b: seq<T>, last: T)
    ensures var out := [first] + a + b + [last];
      |out| == 2 + |a| + |b| && out[0] == first && out[|out| - 1] == last &&
      (forall k :: 0 <= k < |a| ==> out[1 + k] == a[k]) &&
      (forall k :: 0 <= k < |b| ==> out[1 + |a| + k] == b[k])
  {
  }

  lemma NumberingStep(vs: seq<Vertex>, i: nat, start: seq<string>)
    requires i < |vs|
    ensures IdMap(vs[..i + 1]) == IdMap(vs[..i])[vs[i].ref := i + 1]
    ensures start + NodeLines(vs[..i + 1]) == start + NodeLines(vs[..i]) + [NodeLine(i + 1, vs[i])]
  {
    assert vs[..i + 1][..i] == vs[..i];
  }

  lemma EdgeStep(es: seq<Edge>, j: nat, m: map<Ref, nat>, start: seq<string>)
    requires j < |es|
    ensures start + EdgeLines(es[..j + 1], m) == start + EdgeLines(es[..j], m)
      + (if Emitted(m, es[j]) then [EdgeLine(m[es[j].from], m[es[j].to], es[j].text)] else [])
  {
    assert es[..j + 1][..j] == es[..j];
  }

  /**
   * The handler's first loop: each vertex takes the next number of a
   * counter starting at 1, is recorded in `mapping`, and has its node line
   * pushed onto `output`.
   */
  method NumberVertices(vertices: seq<Vertex>, start: seq<string>) returns (output: seq<string>, mapping: map<Ref, nat>)
    ensures output == start + NodeLines(vertices)
    ensures mapping == IdMap(vertices)
  {
    output := start;
    mapping := map[];
    var id := 1;
    var i := 0;
    while i < |vertices|
      invariant 0 <= i <= |vertices|
      invariant id == i + 1
      invariant mapping == IdMap(vertices[..i])
      invariant output == start + NodeLines(vertices[..i])
    {
      var vertex := vertices[i];
      var vid := id;
      id := id + 1;
      mapping := mapping[vertex.ref := vid];
      NumberingStep(vertices, i, start);
      var line := NodeLine(vid, vertex);
      output := output + [line];
      i := i + 1;
    }
    assert vertices[..i] == vertices;
  }

  /**
   * The handler's second loop: an edge is skipped when the lookup of either
   * endpoint is falsy, and otherwise has its edge line pushed onto `output`.
   */
  method EmitEdges(edges: seq<Edge>, mapping: map<Ref, nat>, start: seq<string>) returns (output: seq<string>)
    ensures output == start + EdgeLines(edges, mapping)
  {
    output := start;
    var j := 0;
    while j < |edges|
      invariant 0 <= j <= |edges|
      invariant output == start + EdgeLines(edges[..j], mapping)
    {
      var edge := edges[j];
      var from := Get(mapping, edge.from);
      var to := Get(mapping, edge.to);
      EdgeStep(edges, j, mapping, start);
      if !(Falsy(from) || Falsy(to)) {
        var line := EdgeLine(from.value, to.value, edge.text);
        output := output + [line];
      }
      j := j + 1;
    }
    assert edges[..j] == edges;
  }

  /**
   * The snapshot handler: the header, the node lines, the edge lines whose
   * endpoints both have a truthy id, and the footer.
   */
  method SnapshotToDot(vertices: seq<Vertex>, edges: seq<Edge>) returns (output: seq<string>)
    ensures output == DotLines(vertices, edges)
  {
    output := [Header];
    var mapping;
    output, mapping := NumberVertices(vertices, output);
    output := EmitEdges(edges, mapping, output);
    output := output + [Footer];
  }
}
