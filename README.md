# essim object-graph snapshot to DOT

This project models the part of essim's browser front end that turns a
snapshot of the object graph into a Graphviz DOT document. The snapshot is
`{vertices, edges}`. The handler gives every vertex a number, counting from 1
in iteration order, and records the number in a `Map` keyed by the vertex.
It writes one node line per vertex, `id [label="..."]`. The label is picked
by a fixed precedence: stack item, then root, then class information, then
name, then `???`. It then writes one edge line, `id -> id [label="..."]`,
for each edge whose two endpoint lookups are truthy. The lines are wrapped in
`digraph {` ... `}` and joined with line breaks.

Modules:

- `SnapshotDot` (snapshot_dot.dfy) holds the vertex and edge values and the
  label choice. It also holds the specification of the output, as
  functions and lemmas, and the handler itself as the method
  `SnapshotToDot`. That method runs the source's two loops,
  `NumberVertices` and `EmitEdges`, and is proved equal to the
  specification.
- `Decimal` (decimal.dfy) models the number-to-text conversion of ids,
  together with a reader for it.
- `JsonQuote` (json_quote.dfy) models `JSON.stringify` on a string. This is
  the QuoteJSONString operation of ECMA-262. The module also has a
  JSON string-literal reader as its inverse.
- `Lines` (lines.dfy) models `join('\n')`. Its `Split` is not in the
  program; it is the inverse used to state that joining loses no line.
- `DotReader` (dot_reader.dfy) reads a written document back. It proves
  that the document carries exactly the vertices' numbers and labels and
  the kept edges, in order.
- `Options` (options.dfy) defines the optional value.

A vertex is identified by `ref`, a number standing for object identity. The
`Map` lookups and the edge endpoints use this identity. `stack`, `toparent`
and `root` are the truthiness of those properties. `classInfo` and `name`
are the results of `classInfo()` and `getName()` when the vertex has those
methods.

## Model

| member | source | states |
|---|---|---|
| SnapshotDot.SnapshotToDot | index.js:109-134 | the lines the handler builds are exactly `DotLines(vertices, edges)`: the header, then the node lines, then the edge lines, then `}` |
| SnapshotDot.NumberVertices | index.js:111-124 | the vertex loop leaves `mapping` equal to `IdMap(vertices)` and appends exactly `NodeLines(vertices)` to the output |
| SnapshotDot.EmitEdges | index.js:125-133 | the edge loop appends exactly the edge lines of the edges whose endpoint lookups are both truthy, in input order |
| SnapshotDot.Label | index.js:118-121 | the label conditional, in the source's order: "Stack Item" when stack or toparent, else "Root" when root, else the classInfo result, else "name: " + name, else "???" |
| SnapshotDot.NodeLine | index.js:114-123 | the node-line template: the id in decimal, then ` [label=`, the JSON-quoted label and `]` |
| SnapshotDot.EdgeLine | index.js:130-132 | the edge-line template: the two ids in decimal around ` -> `, then ` [label=`, the JSON-quoted edge label and `]` |
| SnapshotDot.Falsy | index.js:126 | JavaScript falsiness of a lookup result: a missing key (undefined) or the number 0 |
| SnapshotDot.Get | index.js:126 | `mapping.get(r)`: the recorded id when `r` is a key, nothing otherwise |
| SnapshotDot.Emitted | index.js:126-128 | the handler's guard as written: an edge is kept unless the lookup of either endpoint is falsy |
| SnapshotDot.EdgeLines | index.js:125-133 | the edge loop as a function: the edge line of each edge the guard keeps, in input order |
| SnapshotDot.DotLines | index.js:110-134 | the whole `output` array: the header, the node lines, the edge lines, then `}` |
| Lines.Join | index.js:135 | `join` with a one-character separator: the lines with one separator between neighbours |
| SnapshotDot.Document | index.js:135 | the text handed to the DOT reader: the output lines joined with line breaks |
| SnapshotDot.FirstPresent | index.js:118-121 | a precedence choice returns the first present candidate, or the fallback when none is present |
| SnapshotDot.LabelPrecedence | index.js:118-121 | the label is the first that applies of "Stack Item" (stack or toparent), "Root", the classInfo result, "name: " + name, and "???" otherwise |
| SnapshotDot.Refs | index.js:113-115 | every vertex's identity is among the identities recorded |
| SnapshotDot.IdMap | index.js:111-115 | the mapping's keys are exactly the vertices' identities, and every id lies between 1 and the number of vertices |
| SnapshotDot.IdIsLastPosition | index.js:113-115 | a vertex's id is one more than the position of its last occurrence, because `Map.set` overwrites |
| SnapshotDot.IdsFromOne | index.js:111-115 | ids are positive, distinct vertices get distinct ids, and without repeats the k-th vertex gets id k |
| SnapshotDot.EmittedIffMapped | index.js:125-128 | ids start at 1, so the falsy test emits an edge exactly when both endpoints are among the vertices |
| SnapshotDot.NodeLines | index.js:113-124 | one node line per vertex, in input order; the k-th is numbered k and carries the quoted label |
| SnapshotDot.KeptEdges | index.js:125-128 | the kept edges are input edges with both endpoints among the vertices, and every such input edge is kept |
| SnapshotDot.EdgeLinesOfKept | index.js:125-133 | the edge lines are, in order, exactly one line per kept edge, between the endpoints' ids and with the quoted label |
| SnapshotDot.DotFrame | index.js:110-134 | the first line is `digraph {`, the last is `}`, and there are 2 + vertices + kept edges lines |
| SnapshotDot.DotNodes | index.js:113-124 | the line after the header at offset k is the node line of the k-th vertex, numbered k+1 |
| SnapshotDot.DotEdges | index.js:125-134 | after all the node lines come the kept edges' lines, in input order |
| Decimal.NatToString | index.js:116 | an id is written as a non-empty run of digits with no leading zero |
| Decimal.ParseNatToString | index.js:116 | reading the written id gives the id back |
| Decimal.NatToStringInjective | index.js:130 | distinct ids are written differently |
| JsonQuote.Quote | index.js:117-122 | a quoted label starts and ends with a double quote and holds no control character, and so no line break |
| JsonQuote.UnescapeChar | index.js:117-122 | decoding the escape of one character gives that character back, followed by the text after it |
| JsonQuote.UnquoteQuote | index.js:117-122 | decoding the quoted form of a label gives the label back |
| JsonQuote.QuoteInjective | index.js:131 | distinct labels are quoted differently |
| Lines.SplitJoin | index.js:135 | splitting the joined lines at the separator gives the lines back, when no line holds the separator |
| DotReader.ReadNodeLine | index.js:116-123 | a node line reads back as its id and its vertex's label |
| DotReader.ReadEdgeLine | index.js:130-132 | an edge line reads back as its two ids and its label |
| DotReader.DotLinesNoBreak | index.js:110-134 | no output line holds a line break |
| DotReader.SplitDocument | index.js:135 | splitting the joined document at line breaks gives the output lines back |
| DotReader.NodeStatements | index.js:113-124 | the statement expected for the k-th vertex is a node with id k+1 and the vertex's label |
| DotReader.ArrowStatementsOfKept | index.js:125-133 | the expected edge statements are those of the kept edges, in input order |
| DotReader.ReadDocumentStatements | index.js:109-135 | reading the document gives exactly the node statements followed by the statements of the edges the guard lets through |
| DotReader.ReadDocumentOfSnapshot | index.js:109-135 | reading the document gives one node statement per vertex, the k-th with id k+1 and its label, then one edge statement per kept edge, in order, with the endpoints' ids and the edge's label |

## Left out

- DOM, d3 and dagre-d3 rendering are not modelled. This covers the SVG
  setup, zoom, the play/pause button and window resizing (index.js:8-50,
  81-107, 146). They are browser user-interface code.
- `graphlibDot.read` and the margin and transition defaults set on its
  result are not modelled (index.js:66-75, 135-144). They are calls into an
  external library. The model stops at the joined document handed to it.
  `DotReader` is this project's own reader, not that library.
- The editor stream wiring in `oncode` and the cancellation of a running
  stream with `stop()` are not modelled (index.js:52-79). They are
  asynchronous event plumbing.
- lib/analyzer.js `createCFG` is not modelled. It wraps a foreign parser
  and control-flow library and reschedules itself with `setImmediate`.
- lib/analyzer.js `createObjectGraph` is empty, so there is no snapshot
  producer to model. The object-graph tracker, the reachability collector
  and the snapshot stream have no source.
- lib/editor.js is not modelled. It is editor user-interface code.
- Ids are unbounded naturals. JavaScript numbers switch to exponent
  notation at 10^21 and lose precision beyond 2^53. No snapshot is that
  large.
- `classInfo()` and `getName()` are assumed to return strings. A non-string
  result would be serialised or coerced differently by `JSON.stringify` and
  by `+`.
- Edge labels are assumed to be strings for the same reason.
- `classInfo` and `getName` are assumed, when truthy, to be functions that
  return normally. A call that throws, or a truthy property that is not a
  function (a TypeError), aborts the handler with no output, and the model
  has no such path (index.js:120-121).
- Characters are Unicode scalar values, so the lone-surrogate escaping of
  `JSON.stringify` never arises.
- The snapshot's `builtins` and `root` fields are destructured by the
  handler but never used (index.js:109). They are not part of the model.
