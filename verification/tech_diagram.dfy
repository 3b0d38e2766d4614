/** `create_tech_diagram_graphviz` from tech_diagram.py: turns one technology
    record into a directed graph with one process node in the middle, a
    carrier node per listed input and output carrier, and an edge per carrier
    (carrier to process for inputs, process to carrier for outputs) labelled
    with the carrier's share and unit.

    The graph is the sequence of statements the builder issues, in order. A
    carrier listed twice issues two node statements with the same name, which
    the graph language merges into one node; `NodeNames` is that merged view
    and `Edges` the edge statements alone. The two printed warnings become a
    returned list of diagnostics. */
module TechDiagram {
  import opened Strings
  import TextWrap

  datatype Direction = Input | Output

  /** The raw columns of one direction of a record: `{io} Carriers`,
      `{io} Shares`, `{io} Units` (comma-separated, parallel) and
      `Main {io} Carrier`. */
  datatype FlowColumns = FlowColumns(carriers: string, shares: string, units: string, mainCarrier: string)

  /** The columns of one record the builder reads. */
  datatype TechRecord = TechRecord(techId: string, input: FlowColumns, output: FlowColumns)

  /** One direction after splitting on commas and trimming every token. */
  datatype Flow = Flow(carriers: seq<string>, shares: seq<string>, units: seq<string>, mainCarrier: string)

  /** The two node styles: the light-blue process box and the light-grey
      carrier box. */
  datatype NodeKind = ProcessNode | CarrierNode

  /** A node statement (name, label, style) or an edge statement. */
  datatype Stmt =
    | Node(name: string, labelText: string, kind: NodeKind)
    | Edge(tail: string, head: string, labelText: string)

  /** The graph description: its comment, the global layout attributes and
      the statements in the order they were issued. */
  datatype Graph = Graph(comment: string, rankdir: string, splines: string, stmts: seq<Stmt>)

  /** The diagnostics the builder prints instead of failing. */
  datatype Warning =
    | LengthMismatch(dir: Direction, lengths: seq<nat>)
    | MainCarrierMissing(dir: Direction, given: string, carriers: seq<string>)

  /** What one build produces: the graph and the warnings in the order they
      were printed. The effective main carrier of each direction is computed
      by the builder and then discarded (it never reaches the graph); it is
      kept here only so that the fallback can be stated. */
  datatype Diagram = Diagram(graph: Graph, warnings: seq<Warning>, mainInput: string, mainOutput: string)

  const Comma: char := ','

  /** A token as parsing leaves it: no comma inside, no whitespace at either
      end. */
  predicate Clean(token: string)
  {
    Comma !in token && (|token| > 0 ==> !IsSpace(token[0]) && !IsSpace(token[|token| - 1]))
  }

  /** `[x.strip() for x in field.split(',')]`: one token more than there are
      commas (so never empty), every one of them clean. */
  function Tokens(field: string): (r: seq<string>)
    ensures |r| == Count(field, Comma) + 1
    ensures forall i :: 0 <= i < |r| ==> Clean(r[i])
  {
    var parts := Split(field, Comma);
    var r := seq(|parts|, i requires 0 <= i < |parts| => Strip(parts[i]));
    assert forall i :: 0 <= i < |r| ==> Clean(r[i]) by {
      forall i | 0 <= i < |r| ensures Clean(r[i]) {
        StripClean(parts[i]);
      }
    }
    r
  }

  /** Stripping a comma-free piece gives a clean token. */
  lemma StripClean(piece: string)
    requires Comma !in piece
    ensures Clean(Strip(piece))
  {
    if Comma in Strip(piece) {
      StripKeepsCharactersOf(piece, Comma);
    }
  }

  /** Clean names joined with commas parse back to the same names. */
  lemma TokensJoin(names: seq<string>)
    requires |names| >= 1
    requires forall i :: 0 <= i < |names| ==> Clean(names[i])
    ensures Tokens(Join(names, [Comma])) == names
  {
    SplitJoin(names, Comma);
    var r := Tokens(Join(names, [Comma]));
    forall i | 0 <= i < |names| ensures r[i] == names[i] {
      StripUnchanged(names[i]);
    }
  }

  /** The usual spreadsheet spelling `a, b` of a two-item list parses to
      `[a, b]`. */
  lemma TokensOfPair(a: string, b: string)
    requires Clean(a) && Clean(b)
    ensures Tokens(a + ", " + b) == [a, b]
  {
    SplitOfPair(a, b);
    StripUnchanged(a);
    StripLeadingSpace(' ', b);
    StripUnchanged(b);
  }

  /** `a, b` splits on the comma into `a` and ` b`. */
  lemma SplitOfPair(a: string, b: string)
    requires Clean(a) && Clean(b)
    ensures Split(a + ", " + b, Comma) == [a, " " + b]
  {
    var spaced := " " + b;
    assert Comma !in spaced;
    assert a + ", " + b == a + [Comma] + spaced;
    SplitAfterPiece(a, spaced, Comma);
    SplitPiece(spaced, Comma);
  }

  /** Splits and trims the three parallel columns and trims the main carrier. */
  function ParseFlow(cols: FlowColumns): (fl: Flow)
    ensures |fl.carriers| >= 1
  {
    Flow(Tokens(cols.carriers), Tokens(cols.shares), Tokens(cols.units), Strip(cols.mainCarrier))
  }

  /** The edge loop reads `shares[i]` and `units[i]` for every carrier index
      `i`; with fewer shares or units than carriers it fails with an index
      error. */
  predicate IndexSafe(fl: Flow)
  {
    |fl.shares| >= |fl.carriers| && |fl.units| >= |fl.carriers|
  }

  /** The warnings for one direction: unequal list lengths, then a main
      carrier that is not among the carriers, and nothing else; a direction
      whose lists agree and whose main carrier is listed is silent. Neither
      warning stops the build. */
  function Checks(dir: Direction, fl: Flow): (ws: seq<Warning>)
    ensures |ws| == (if |fl.carriers| == |fl.shares| && |fl.shares| == |fl.units| then 0 else 1)
                  + (if fl.mainCarrier in fl.carriers then 0 else 1)
    ensures !(|fl.carriers| == |fl.shares| && |fl.shares| == |fl.units|)
        ==> ws[0] == LengthMismatch(dir, [|fl.carriers|, |fl.shares|, |fl.units|])
    ensures LengthMismatch(dir, [|fl.carriers|, |fl.shares|, |fl.units|]) in ws
        <==> !(|fl.carriers| == |fl.shares| && |fl.shares| == |fl.units|)
    ensures MainCarrierMissing(dir, fl.mainCarrier, fl.carriers) in ws <==> fl.mainCarrier !in fl.carriers
    ensures forall w :: w in ws ==> w.dir == dir
  {
    var lengths := [|fl.carriers|, |fl.shares|, |fl.units|];
    (if |fl.carriers| == |fl.shares| && |fl.shares| == |fl.units| then [] else [LengthMismatch(dir, lengths)])
    + (if fl.mainCarrier in fl.carriers then [] else [MainCarrierMissing(dir, fl.mainCarrier, fl.carriers)])
  }

  /** The main carrier after the fallback: always one of the carriers; the
      given one when it is listed, the first listed otherwise. */
  function EffectiveMain(fl: Flow): (m: string)
    requires |fl.carriers| >= 1
    ensures m in fl.carriers
    ensures fl.mainCarrier in fl.carriers ==> m == fl.mainCarrier
    ensures fl.mainCarrier !in fl.carriers ==> m == fl.carriers[0]
  {
    if fl.mainCarrier in fl.carriers then fl.mainCarrier else fl.carriers[0]
  }

  /** `f"{share} {unit}"`; `render` stands for Python's formatting of the
      share after `float()` has parsed it. */
  function EdgeLabel(render: string -> string, share: string, unit: string): string
  {
    render(share) + " " + unit
  }

  /** Inputs flow from the carrier into the process, outputs the other way. */
  function FlowEdge(dir: Direction, techId: string, carrier: string, labelText: string): Stmt
  {
    match dir
    case Input => Edge(carrier, techId, labelText)
    case Output => Edge(techId, carrier, labelText)
  }

  /** The inner loop for one direction: per carrier, a carrier node
      statement and then its edge (see `FlowStmtsAt`). */
  function FlowStmts(dir: Direction, techId: string, carriers: seq<string>, shares: seq<string>,
                     units: seq<string>, render: string -> string): (r: seq<Stmt>)
    requires |shares| >= |carriers| && |units| >= |carriers|
    ensures |r| == 2 * |carriers|
    decreases |carriers|
  {
    if |carriers| == 0 then []
    else
      var c := carriers[0];
      [Node(c, c, CarrierNode), FlowEdge(dir, techId, c, EdgeLabel(render, shares[0], units[0]))]
      + FlowStmts(dir, techId, carriers[1..], shares[1..], units[1..], render)
  }

  /** For carrier `i` the loop issues, at positions `2i` and `2i + 1`, the
      carrier's node statement and its edge labelled with share `i` and
      unit `i`. */
  lemma {:induction false} FlowStmtsAt(dir: Direction, techId: string, carriers: seq<string>, shares: seq<string>,
                                      units: seq<string>, render: string -> string, i: nat)
    requires |shares| >= |carriers| && |units| >= |carriers|
    requires i < |carriers|
    ensures FlowStmts(dir, techId, carriers, shares, units, render)[2 * i]
         == Node(carriers[i], carriers[i], CarrierNode)
    ensures FlowStmts(dir, techId, carriers, shares, units, render)[2 * i + 1]
         == FlowEdge(dir, techId, carriers[i], EdgeLabel(render, shares[i], units[i]))
    decreases i
  {
    if i > 0 {
      FlowStmtsAt(dir, techId, carriers[1..], shares[1..], units[1..], render, i - 1);
    }
  }

  /** The whole builder: parse both sides of the record, then assemble. The
      graph has the process node first, labelled with the wrapped identifier,
      two statements per listed carrier, exactly the process and the listed
      carriers as nodes, and one edge per listed carrier. Beside the graph,
      each side's effective main carrier (which the graph never uses) is
      among its carriers. */
  function Build(rec: TechRecord, render: string -> string): (d: Diagram)
    requires IndexSafe(ParseFlow(rec.input)) && IndexSafe(ParseFlow(rec.output))
    ensures var ins := Tokens(rec.input.carriers);
      var outs := Tokens(rec.output.carriers);
      && d.graph.comment == rec.techId
      && |d.graph.stmts| == 1 + 2 * (|ins| + |outs|)
      && d.graph.stmts[0] == Node(rec.techId, TextWrap.Wrap(rec.techId, TextWrap.DefaultWidth), ProcessNode)
      && NodeNames(d.graph.stmts) == {rec.techId} + (set c | c in ins) + (set c | c in outs)
      && |Edges(d.graph.stmts)| == |ins| + |outs|
      && d.mainInput in ins
      && d.mainOutput in outs
  {
    var ins := ParseFlow(rec.input);
    var outs := ParseFlow(rec.output);
    Statements(rec.techId, ins, outs, render);
    NodeSet(rec.techId, ins, outs, render);
    EdgeList(rec.techId, ins, outs, render);
    Assemble(rec.techId, ins, outs, render)
  }

  /** The diagram for parsed sides. The process node comes first, labelled
      with the wrapped identifier; then the input carriers and edges; then
      the output carriers and edges. */
  function Assemble(techId: string, ins: Flow, outs: Flow, render: string -> string): (d: Diagram)
    requires IndexSafe(ins) && IndexSafe(outs)
    requires |ins.carriers| >= 1 && |outs.carriers| >= 1
  {
    var stmts :=
      [ProcessStmt(techId)]
      + FlowStmts(Input, techId, ins.carriers, ins.shares, ins.units, render)
      + FlowStmts(Output, techId, outs.carriers, outs.shares, outs.units, render);
    Diagram(
      Graph(techId, "LR", "ortho", stmts),
      Checks(Input, ins) + Checks(Output, outs),
      EffectiveMain(ins),
      EffectiveMain(outs))
  }

  /** The process node: the identifier, labelled with its wrapped form, in
      the process style. */
  function ProcessStmt(techId: string): Stmt
  {
    Node(techId, TextWrap.Wrap(techId, TextWrap.DefaultWidth), ProcessNode)
  }

  /** The distinct node names of a statement list (the graph language merges
      node statements with the same name). */
  function NodeNames(stmts: seq<Stmt>): set<string>
    decreases |stmts|
  {
    if |stmts| == 0 then {}
    else (if stmts[0].Node? then {stmts[0].name} else {}) + NodeNames(stmts[1..])
  }

  /** The edge statements of a statement list, in order. */
  function Edges(stmts: seq<Stmt>): seq<Stmt>
    decreases |stmts|
  {
    if |stmts| == 0 then []
    else (if stmts[0].Edge? then [stmts[0]] else []) + Edges(stmts[1..])
  }

  /** Node names of a concatenation are the union of the parts' names. */
  lemma {:induction false} NodeNamesAppend(a: seq<Stmt>, b: seq<Stmt>)
    ensures NodeNames(a + b) == NodeNames(a) + NodeNames(b)
    decreases |a|
  {
    if |a| > 0 {
      assert (a + b)[1..] == a[1..] + b;
      NodeNamesAppend(a[1..], b);
    } else {
      assert a + b == b;
    }
  }

  /** Edges of a concatenation are the parts' edges in order. */
  lemma {:induction false} EdgesAppend(a: seq<Stmt>, b: seq<Stmt>)
    ensures Edges(a + b) == Edges(a) + Edges(b)
    decreases |a|
  {
    if |a| > 0 {
      assert (a + b)[1..] == a[1..] + b;
      EdgesAppend(a[1..], b);
    } else {
      assert a + b == b;
    }
  }

  /** The nodes one direction adds are exactly its carriers. */
  lemma {:induction false} FlowNodeNames(dir: Direction, techId: string, carriers: seq<string>,
                                        shares: seq<string>, units: seq<string>, render: string -> string)
    requires |shares| >= |carriers| && |units| >= |carriers|
    ensures NodeNames(FlowStmts(dir, techId, carriers, shares, units, render)) == set c | c in carriers
    decreases |carriers|
  {
    if |carriers| > 0 {
      var c := carriers[0];
      var pair := [Node(c, c, CarrierNode), FlowEdge(dir, techId, c, EdgeLabel(render, shares[0], units[0]))];
      var rest := FlowStmts(dir, techId, carriers[1..], shares[1..], units[1..], render);
      FlowNodeNames(dir, techId, carriers[1..], shares[1..], units[1..], render);
      NodeNamesAppend(pair, rest);
      assert NodeNames(pair) == {c} by {
        assert pair[1..] == [pair[1]];
        assert pair[1].Edge?;
        assert [pair[1]][1..] == [];
        assert NodeNames([pair[1]]) == {};
      }
      assert carriers == [c] + carriers[1..];
    }
  }

  /** The edges one direction adds: one per carrier, in carrier order, each
      carrying the share and unit at the carrier's position. */
  lemma {:induction false} FlowEdges(dir: Direction, techId: string, carriers: seq<string>,
                                    shares: seq<string>, units: seq<string>, render: string -> string)
    requires |shares| >= |carriers| && |units| >= |carriers|
    ensures |Edges(FlowStmts(dir, techId, carriers, shares, units, render))| == |carriers|
    ensures forall i :: 0 <= i < |carriers| ==>
      Edges(FlowStmts(dir, techId, carriers, shares, units, render))[i]
        == FlowEdge(dir, techId, carriers[i], EdgeLabel(render, shares[i], units[i]))
    decreases |carriers|
  {
    if |carriers| > 0 {
      var c := carriers[0];
      var pair := [Node(c, c, CarrierNode), FlowEdge(dir, techId, c, EdgeLabel(render, shares[0], units[0]))];
      var rest := FlowStmts(dir, techId, carriers[1..], shares[1..], units[1..], render);
      FlowEdges(dir, techId, carriers[1..], shares[1..], units[1..], render);
      EdgesAppend(pair, rest);
      assert Edges(pair) == [pair[1]] by {
        assert pair[1..] == [pair[1]];
        assert pair[1].Edge?;
      }
    }
  }

  /** Shares and units beyond the carrier count change nothing. */
  lemma {:induction false} ExtraValuesIgnored(dir: Direction, techId: string, carriers: seq<string>,
                                             shares: seq<string>, units: seq<string>, render: string -> string)
    requires |shares| >= |carriers| && |units| >= |carriers|
    ensures FlowStmts(dir, techId, carriers, shares, units, render)
         == FlowStmts(dir, techId, carriers, shares[..|carriers|], units[..|carriers|], render)
    decreases |carriers|
  {
    if |carriers| > 0 {
      ExtraValuesIgnored(dir, techId, carriers[1..], shares[1..], units[1..], render);
      assert shares[..|carriers|][1..] == shares[1..][..|carriers| - 1];
      assert units[..|carriers|][1..] == units[1..][..|carriers| - 1];
    }
  }

  /** The statement list in full: the process node labelled with the wrapped
      identifier, then for every input carrier its node and its edge into the
      process, then for every output carrier its node and its edge out of the
      process. */
  lemma Statements(techId: string, ins: Flow, outs: Flow, render: string -> string)
    requires IndexSafe(ins) && IndexSafe(outs)
    requires |ins.carriers| >= 1 && |outs.carriers| >= 1
    ensures var stmts := Assemble(techId, ins, outs, render).graph.stmts;
      var n := |ins.carriers|;
      && |stmts| == 1 + 2 * n + 2 * |outs.carriers|
      && stmts[0] == Node(techId, TextWrap.Wrap(techId, TextWrap.DefaultWidth), ProcessNode)
      && (forall i :: 0 <= i < n ==>
            stmts[1 + 2 * i] == Node(ins.carriers[i], ins.carriers[i], CarrierNode)
            && stmts[1 + 2 * i + 1] == Edge(ins.carriers[i], techId, EdgeLabel(render, ins.shares[i], ins.units[i])))
      && (forall j :: 0 <= j < |outs.carriers| ==>
            stmts[(1 + 2 * n) + 2 * j] == Node(outs.carriers[j], outs.carriers[j], CarrierNode)
            && stmts[(1 + 2 * n) + 2 * j + 1]
               == Edge(techId, outs.carriers[j], EdgeLabel(render, outs.shares[j], outs.units[j])))
  {
    InputStatements(techId, ins, outs, render);
    OutputStatements(techId, ins, outs, render);
  }

  /** The input half of `Statements`: right after the process node. */
  lemma InputStatements(techId: string, ins: Flow, outs: Flow, render: string -> string)
    requires IndexSafe(ins) && IndexSafe(outs)
    requires |ins.carriers| >= 1 && |outs.carriers| >= 1
    ensures var stmts := Assemble(techId, ins, outs, render).graph.stmts;
      && |stmts| == 1 + 2 * |ins.carriers| + 2 * |outs.carriers|
      && forall i :: 0 <= i < |ins.carriers| ==>
           stmts[1 + 2 * i] == Node(ins.carriers[i], ins.carriers[i], CarrierNode)
           && stmts[1 + 2 * i + 1] == FlowEdge(Input, techId, ins.carriers[i], EdgeLabel(render, ins.shares[i], ins.units[i]))
  {
    var head := [ProcessStmt(techId)];
    var outStmts := FlowStmts(Output, techId, outs.carriers, outs.shares, outs.units, render);
    AssembleStmts(techId, ins, outs, render);
    FlowStmtsWithin(Assemble(techId, ins, outs, render).graph.stmts, head, outStmts, 1,
                    Input, techId, ins.carriers, ins.shares, ins.units, render);
  }

  /** The output half of `Statements`: right after the process node and the
      `2n` input statements. */
  lemma OutputStatements(techId: string, ins: Flow, outs: Flow, render: string -> string)
    requires IndexSafe(ins) && IndexSafe(outs)
    requires |ins.carriers| >= 1 && |outs.carriers| >= 1
    ensures var stmts := Assemble(techId, ins, outs, render).graph.stmts;
      var n := |ins.carriers|;
      && |stmts| == 1 + 2 * n + 2 * |outs.carriers|
      && forall j :: 0 <= j < |outs.carriers| ==>
           stmts[(1 + 2 * n) + 2 * j] == Node(outs.carriers[j], outs.carriers[j], CarrierNode)
           && stmts[(1 + 2 * n) + 2 * j + 1]
              == FlowEdge(Output, techId, outs.carriers[j], EdgeLabel(render, outs.shares[j], outs.units[j]))
  {
    var front := [ProcessStmt(techId)] + FlowStmts(Input, techId, ins.carriers, ins.shares, ins.units, render);
    var outStmts := FlowStmts(Output, techId, outs.carriers, outs.shares, outs.units, render);
    var stmts := Assemble(techId, ins, outs, render).graph.stmts;
    AssembleStmts(techId, ins, outs, render);
    assert stmts == front + outStmts + [] by {
      assert front + outStmts + [] == front + outStmts;
    }
    FlowStmtsWithin(stmts, front, [], 1 + 2 * |ins.carriers|,
                    Output, techId, outs.carriers, outs.shares, outs.units, render);
  }

  /** The statements of an assembled graph are the process node, the input
      statements and the output statements, in that order. */
  lemma AssembleStmts(techId: string, ins: Flow, outs: Flow, render: string -> string)
    requires IndexSafe(ins) && IndexSafe(outs)
    requires |ins.carriers| >= 1 && |outs.carriers| >= 1
    ensures Assemble(techId, ins, outs, render).graph.stmts
         == [ProcessStmt(techId)] + FlowStmts(Input, techId, ins.carriers, ins.shares, ins.units, render)
            + FlowStmts(Output, techId, outs.carriers, outs.shares, outs.units, render)
  {
  }

  /** `FlowStmtsAt` for one direction's statements placed after `pre` inside
      a longer statement list. */
  lemma FlowStmtsWithin(stmts: seq<Stmt>, pre: seq<Stmt>, post: seq<Stmt>, offset: nat,
                        dir: Direction, techId: string, carriers: seq<string>,
                        shares: seq<string>, units: seq<string>, render: string -> string)
    requires |shares| >= |carriers| && |units| >= |carriers|
    requires |pre| == offset
    requires stmts == pre + FlowStmts(dir, techId, carriers, shares, units, render) + post
    ensures |stmts| == offset + 2 * |carriers| + |post|
    ensures forall i :: 0 <= i < |carriers| ==>
      stmts[offset + 2 * i] == Node(carriers[i], carriers[i], CarrierNode)
      && stmts[offset + 2 * i + 1] == FlowEdge(dir, techId, carriers[i], EdgeLabel(render, shares[i], units[i]))
  {
    var part := FlowStmts(dir, techId, carriers, shares, units, render);
    forall i | 0 <= i < |carriers|
      ensures stmts[offset + 2 * i] == Node(carriers[i], carriers[i], CarrierNode)
      ensures stmts[offset + 2 * i + 1] == FlowEdge(dir, techId, carriers[i], EdgeLabel(render, shares[i], units[i]))
    {
      FlowStmtsAt(dir, techId, carriers, shares, units, render, i);
      assert stmts[offset + 2 * i] == part[2 * i];
      assert stmts[offset + 2 * i + 1] == part[2 * i + 1];
    }
  }

  /** The graph's nodes are the process and every carrier named on either
      side, each once. */
  lemma NodeSet(techId: string, ins: Flow, outs: Flow, render: string -> string)
    requires IndexSafe(ins) && IndexSafe(outs)
    requires |ins.carriers| >= 1 && |outs.carriers| >= 1
    ensures NodeNames(Assemble(techId, ins, outs, render).graph.stmts)
         == {techId} + (set c | c in ins.carriers) + (set c | c in outs.carriers)
  {
    var head := [ProcessStmt(techId)];
    var inStmts := FlowStmts(Input, techId, ins.carriers, ins.shares, ins.units, render);
    var outStmts := FlowStmts(Output, techId, outs.carriers, outs.shares, outs.units, render);
    assert Assemble(techId, ins, outs, render).graph.stmts == head + inStmts + outStmts;
    NodeNamesAppend(head + inStmts, outStmts);
    NodeNamesAppend(head, inStmts);
    FlowNodeNames(Input, techId, ins.carriers, ins.shares, ins.units, render);
    FlowNodeNames(Output, techId, outs.carriers, outs.shares, outs.units, render);
  }

  /** The graph's edges: one per input carrier, from the carrier into the
      process, then one per output carrier, from the process to the carrier;
      edge `i` of a side is labelled with that side's share and unit `i`. */
  lemma EdgeList(techId: string, ins: Flow, outs: Flow, render: string -> string)
    requires IndexSafe(ins) && IndexSafe(outs)
    requires |ins.carriers| >= 1 && |outs.carriers| >= 1
    ensures var es := Edges(Assemble(techId, ins, outs, render).graph.stmts);
      && |es| == |ins.carriers| + |outs.carriers|
      && (forall i :: 0 <= i < |ins.carriers| ==>
            es[i] == Edge(ins.carriers[i], techId, EdgeLabel(render, ins.shares[i], ins.units[i])))
      && (forall j :: 0 <= j < |outs.carriers| ==>
            es[|ins.carriers| + j] == Edge(techId, outs.carriers[j], EdgeLabel(render, outs.shares[j], outs.units[j])))
  {
    var head := [ProcessStmt(techId)];
    var inStmts := FlowStmts(Input, techId, ins.carriers, ins.shares, ins.units, render);
    var outStmts := FlowStmts(Output, techId, outs.carriers, outs.shares, outs.units, render);
    assert Assemble(techId, ins, outs, render).graph.stmts == head + inStmts + outStmts;
    EdgesAppend(head + inStmts, outStmts);
    EdgesAppend(head, inStmts);
    assert Edges(head) == [] by {
      assert head[1..] == [];
    }
    FlowEdges(Input, techId, ins.carriers, ins.shares, ins.units, render);
    FlowEdges(Output, techId, outs.carriers, outs.shares, outs.units, render);
  }

  /** After the fallback each side's main carrier is one of its carriers: the
      given one when listed, the first listed otherwise. */
  lemma MainCarriers(techId: string, ins: Flow, outs: Flow, render: string -> string)
    requires IndexSafe(ins) && IndexSafe(outs)
    requires |ins.carriers| >= 1 && |outs.carriers| >= 1
    ensures var d := Assemble(techId, ins, outs, render);
      && d.mainInput in ins.carriers
      && (ins.mainCarrier in ins.carriers ==> d.mainInput == ins.mainCarrier)
      && (ins.mainCarrier !in ins.carriers ==> d.mainInput == ins.carriers[0])
      && d.mainOutput in outs.carriers
      && (outs.mainCarrier in outs.carriers ==> d.mainOutput == outs.mainCarrier)
      && (outs.mainCarrier !in outs.carriers ==> d.mainOutput == outs.carriers[0])
  {
  }

  /** The main carriers play no part in the graph: after the fallback the
      builder never reads them again, so naming any other main carrier on
      either side yields the same graph (only the warnings may differ). */
  lemma GraphIgnoresMainCarrier(techId: string, ins: Flow, outs: Flow, render: string -> string,
                                m1: string, m2: string)
    requires IndexSafe(ins) && IndexSafe(outs)
    requires |ins.carriers| >= 1 && |outs.carriers| >= 1
    ensures Assemble(techId, ins, outs, render).graph
         == Assemble(techId, ins.(mainCarrier := m1), outs.(mainCarrier := m2), render).graph
  {
  }

  /** The warnings: for each side, one when its three lists differ in length
      and one when its main carrier is not listed; nothing else, so a
      consistent record builds silently. The input side's warnings come
      before the output side's. The graph is built regardless. */
  lemma WarningsIssued(techId: string, ins: Flow, outs: Flow, render: string -> string)
    requires IndexSafe(ins) && IndexSafe(outs)
    requires |ins.carriers| >= 1 && |outs.carriers| >= 1
    ensures var ws := Assemble(techId, ins, outs, render).warnings;
      && |ws| == (if |ins.carriers| == |ins.shares| && |ins.shares| == |ins.units| then 0 else 1)
               + (if ins.mainCarrier in ins.carriers then 0 else 1)
               + (if |outs.carriers| == |outs.shares| && |outs.shares| == |outs.units| then 0 else 1)
               + (if outs.mainCarrier in outs.carriers then 0 else 1)
      && (forall i, j :: 0 <= i < j < |ws| && ws[i].dir == Output ==> ws[j].dir == Output)
      && (LengthMismatch(Input, [|ins.carriers|, |ins.shares|, |ins.units|]) in ws
          <==> !(|ins.carriers| == |ins.shares| && |ins.shares| == |ins.units|))
      && (LengthMismatch(Output, [|outs.carriers|, |outs.shares|, |outs.units|]) in ws
          <==> !(|outs.carriers| == |outs.shares| && |outs.shares| == |outs.units|))
      && (MainCarrierMissing(Input, ins.mainCarrier, ins.carriers) in ws <==> ins.mainCarrier !in ins.carriers)
      && (MainCarrierMissing(Output, outs.mainCarrier, outs.carriers) in ws <==> outs.mainCarrier !in outs.carriers)
  {
    var wi := Checks(Input, ins);
    var wo := Checks(Output, outs);
    var ws := Assemble(techId, ins, outs, render).warnings;
    assert ws == wi + wo;
    assert LengthMismatch(Input, [|ins.carriers|, |ins.shares|, |ins.units|]) !in wo;
    assert MainCarrierMissing(Input, ins.mainCarrier, ins.carriers) !in wo;
    assert LengthMismatch(Output, [|outs.carriers|, |outs.shares|, |outs.units|]) !in wi;
    assert MainCarrierMissing(Output, outs.mainCarrier, outs.carriers) !in wi;
  }

  /** A one-item column parses to that item. */
  lemma TokensOfSingle(a: string)
    requires Clean(a)
    ensures Tokens(a) == [a]
  {
    assert Join([a], [Comma]) == a;
    TokensJoin([a]);
  }

  /** A record with two inputs and one output, such as inputs
      `Electricity, Heat` with shares `0.5, 0.5` and units `kWh, kWh` and
      output `Hot Water` with share `1.0` and unit `kWh`, stated for any
      clean names: the nodes are the process and the three carriers, the edges are
      the two input edges and the output edge in that order with their
      labels, and nothing is warned about. */
  lemma TwoInputsOneOutput(render: string -> string, techId: string,
                           in1: string, in2: string, share1: string, share2: string, unit1: string, unit2: string,
                           out: string, share: string, unit: string)
    requires Clean(in1) && Clean(in2) && Clean(share1) && Clean(share2) && Clean(unit1) && Clean(unit2)
    requires Clean(out) && Clean(share) && Clean(unit)
    ensures var rec := TechRecord(techId,
        FlowColumns(in1 + ", " + in2, share1 + ", " + share2, unit1 + ", " + unit2, in1),
        FlowColumns(out, share, unit, out));
      && IndexSafe(ParseFlow(rec.input)) && IndexSafe(ParseFlow(rec.output))
      && var d := Build(rec, render);
      && NodeNames(d.graph.stmts) == {techId, in1, in2, out}
      && Edges(d.graph.stmts) == [
           Edge(in1, techId, render(share1) + " " + unit1),
           Edge(in2, techId, render(share2) + " " + unit2),
           Edge(techId, out, render(share) + " " + unit)]
      && d.warnings == []
      && d.mainInput == in1 && d.mainOutput == out
  {
    var ins := Flow([in1, in2], [share1, share2], [unit1, unit2], in1);
    var outs := Flow([out], [share], [unit], out);
    var rec := TechRecord(techId,
      FlowColumns(in1 + ", " + in2, share1 + ", " + share2, unit1 + ", " + unit2, in1),
      FlowColumns(out, share, unit, out));
    ParseTwo(in1, in2, share1, share2, unit1, unit2);
    ParseOne(out, share, unit);
    assert ParseFlow(rec.input) == ins;
    assert ParseFlow(rec.output) == outs;
    assert Build(rec, render) == Assemble(techId, ins, outs, render);
    AssembleTwoOne(render, techId, ins, outs);
  }

  /** The two-item columns of the example parse to their items. */
  lemma ParseTwo(in1: string, in2: string, share1: string, share2: string, unit1: string, unit2: string)
    requires Clean(in1) && Clean(in2) && Clean(share1) && Clean(share2) && Clean(unit1) && Clean(unit2)
    ensures ParseFlow(FlowColumns(in1 + ", " + in2, share1 + ", " + share2, unit1 + ", " + unit2, in1))
         == Flow([in1, in2], [share1, share2], [unit1, unit2], in1)
  {
    TokensOfPair(in1, in2);
    TokensOfPair(share1, share2);
    TokensOfPair(unit1, unit2);
    StripUnchanged(in1);
  }

  /** The one-item columns of the example parse to their items. */
  lemma ParseOne(out: string, share: string, unit: string)
    requires Clean(out) && Clean(share) && Clean(unit)
    ensures ParseFlow(FlowColumns(out, share, unit, out)) == Flow([out], [share], [unit], out)
  {
    TokensOfSingle(out);
    TokensOfSingle(share);
    TokensOfSingle(unit);
    StripUnchanged(out);
  }

  /** The example once both sides are parsed. */
  lemma AssembleTwoOne(render: string -> string, techId: string, ins: Flow, outs: Flow)
    requires |ins.carriers| == |ins.shares| == |ins.units| == 2 && ins.mainCarrier == ins.carriers[0]
    requires |outs.carriers| == |outs.shares| == |outs.units| == 1 && outs.mainCarrier == outs.carriers[0]
    ensures var d := Assemble(techId, ins, outs, render);
      && NodeNames(d.graph.stmts) == {techId, ins.carriers[0], ins.carriers[1], outs.carriers[0]}
      && Edges(d.graph.stmts) == [
           Edge(ins.carriers[0], techId, render(ins.shares[0]) + " " + ins.units[0]),
           Edge(ins.carriers[1], techId, render(ins.shares[1]) + " " + ins.units[1]),
           Edge(techId, outs.carriers[0], render(outs.shares[0]) + " " + outs.units[0])]
      && d.warnings == []
      && d.mainInput == ins.carriers[0] && d.mainOutput == outs.carriers[0]
  {
    TwoOneNodes(render, techId, ins, outs);
    TwoOneEdges(render, techId, ins, outs);
    WarningsIssued(techId, ins, outs, render);
  }

  /** The nodes of the two-input, one-output shape. */
  lemma TwoOneNodes(render: string -> string, techId: string, ins: Flow, outs: Flow)
    requires |ins.carriers| == |ins.shares| == |ins.units| == 2
    requires |outs.carriers| == |outs.shares| == |outs.units| == 1
    ensures NodeNames(Assemble(techId, ins, outs, render).graph.stmts)
         == {techId, ins.carriers[0], ins.carriers[1], outs.carriers[0]}
  {
    NodeSet(techId, ins, outs, render);
    assert (set c | c in ins.carriers) == {ins.carriers[0], ins.carriers[1]};
    assert (set c | c in outs.carriers) == {outs.carriers[0]};
  }

  /** The edges of the two-input, one-output shape. */
  lemma TwoOneEdges(render: string -> string, techId: string, ins: Flow, outs: Flow)
    requires |ins.carriers| == |ins.shares| == |ins.units| == 2
    requires |outs.carriers| == |outs.shares| == |outs.units| == 1
    ensures Edges(Assemble(techId, ins, outs, render).graph.stmts) == [
           Edge(ins.carriers[0], techId, render(ins.shares[0]) + " " + ins.units[0]),
           Edge(ins.carriers[1], techId, render(ins.shares[1]) + " " + ins.units[1]),
           Edge(techId, outs.carriers[0], render(outs.shares[0]) + " " + outs.units[0])]
  {
    EdgeList(techId, ins, outs, render);
    var es := Edges(Assemble(techId, ins, outs, render).graph.stmts);
    assert es == [es[0], es[1], es[2]];
  }
}
