# Technology diagram builder, modelled in Dafny

This project models the core of a small technology input/output dashboard.
The dashboard reads a table of energy-conversion technologies. Each row names
a technology (`ehubX Tech ID`). It lists the input and output energy carriers
in comma-separated columns, parallel with their shares and units. It also
names a main input and a main output carrier. For one row, the dashboard
draws a directed graph: the process in the middle, a node per carrier, an
edge from every input carrier into the process, and an edge from the process
to every output carrier. Each edge is labelled `share unit`.

The model has four modules:

- `Strings` (`strings.dfy`): the Python string operations the builder uses.
  These are `split(',')` with its inverse `join`, `strip()`, `rfind`, ASCII
  `lower()` and the substring test `in`.
- `TextWrap` (`textwrap.dfy`): `warptext`, which wraps the process identifier
  into lines of at most 20 characters for the process-node label. It is
  modelled as a recursive function (`Wrap`), a line view (`Lines`), the
  break positions (`CutPositions`) and the original `while` loop (`WarpText`).
- `TechDiagram` (`tech_diagram.dfy`): `create_tech_diagram_graphviz`.
  A record's columns are split and trimmed (`Tokens`, `ParseFlow`). The
  length and main-carrier checks become returned warnings (`Checks`), and
  the main-carrier fallback is `EffectiveMain`. The graph is the ordered
  list of node and edge statements the builder issues (`Assemble`, `Build`).
  `NodeNames` is the set of distinct node names; the graph language merges
  repeated node statements by name. `Edges` lists the edge statements.
- `KeywordFilter` (`keyword_filter.dfy`): the case-insensitive keyword filter
  applied to the list of technology identifiers.

Four behaviours of the code differ from what a reader of the dashboard
might expect, and the model follows the code in each:

- A hard cut in `warptext` is not a plain split. When the first `max_chars`
  characters hold no `_`, the code still emits the `_\n` marker. It then
  resumes one character past index `max_chars`, so the character at that
  index is lost. Removing the inserted newlines gives back the input only
  when every break fell on a `_` (`TextWrap.UnwrapRestoresIff`).
  `TextWrap.HardCutDropsCharacter` shows `"abcde"` at width 2 becoming
  `"ab_\nde"`.
- Unequal share, unit and carrier list lengths are not truncated to the
  shortest list. The edge loop runs over the carriers. Extra shares and units
  are parsed but never used in an edge label
  (`TechDiagram.ExtraValuesIgnored`). Fewer shares or units than carriers is
  an index error in the code. In the model it is the precondition
  `IndexSafe`.
- Node statements are not deduplicated. A carrier listed twice issues two
  node statements, one per listing. Deduplication comes only from the graph
  language merging nodes by name, which is what `NodeNames` models.
- The main-carrier fallback has no effect on the diagram. The code computes
  the effective main carrier, stores it in a local table and never reads it
  again: the graph uses only the carriers, shares and units, and the
  function returns only the graph. The model still exposes the effective
  main carriers in `Diagram` (`mainInput`, `mainOutput`), only so that the
  fallback can be stated. `TechDiagram.GraphIgnoresMainCarrier` proves that
  the graph is the same whatever main carriers are named.

The external pieces are parameters. The share's `float()` parsing and its
formatting in the label are represented by a function parameter
`render: string -> string`. The warnings are returned as a list instead of
being printed.

## Model

| member | source | states |
|---|---|---|
| Strings.Split | tech_diagram.py:46-48 | `split(',')` gives one piece more than there are commas (never an empty list), and no piece contains a comma |
| Strings.JoinSplit | tech_diagram.py:46-48 | joining the pieces of a split with the separator gives back the original string |
| Strings.SplitJoin | tech_diagram.py:46-48 | splitting comma-free pieces joined with commas gives the pieces back, so split and join are inverse |
| Strings.Strip | tech_diagram.py:46-54 | `strip()` returns the stretch of the input after its leading whitespace, followed only by whitespace, and neither starting nor ending with whitespace |
| Strings.StripIdempotent | tech_diagram.py:46-54 | stripping a stripped token changes nothing |
| Strings.RFind | tech_diagram.py:16 | `rfind` returns -1 or the index of an occurrence, and no occurrence lies after it |
| Strings.Lower | tech_diagram.py:116 | ASCII `lower()` keeps the length, maps each character, and leaves no upper-case letter |
| Strings.ContainsAt | tech_diagram.py:116 | `in` holds whenever the keyword occurs at some index |
| Strings.ContainsWitness | tech_diagram.py:116 | `in` holds only if the keyword occurs at some index |
| TextWrap.CutIndex | tech_diagram.py:16-19 | a break lands on the last `_` before `max_chars`, or at `max_chars` exactly when no `_` precedes it |
| TextWrap.Wrap | tech_diagram.py:9-26 | the output equals the input exactly when the input fits in `max_chars`; any break makes it strictly longer |
| TextWrap.Lines | tech_diagram.py:14-24 | every emitted line before a marker, and the final remainder, is at most `max_chars` long; there is a single line exactly when the input fits |
| TextWrap.CutPositions | tech_diagram.py:16-22 | there is one break position per marker, every one inside the input, in strictly increasing order |
| TextWrap.Shift | tech_diagram.py:22 | a position in the remainder `text_temp[last_underscore + 1:]` corresponds to the position `last_underscore + 1` further on in the text before the step; every position is kept and so is increasing order |
| TextWrap.WrapJoinsLines | tech_diagram.py:21-24 | the output is the lines joined with the `_\n` marker |
| TextWrap.WrapLength | tech_diagram.py:14-24 | each break adds exactly one character: output length is input length plus number of breaks |
| TextWrap.UnwrapAgreesOutsideCuts | tech_diagram.py:16-22 | with the inserted newlines removed, the output is as long as the input and equals it everywhere except at break positions, which read `_` |
| TextWrap.UnwrapRestoresIff | tech_diagram.py:16-22 | the input is recovered exactly if and only if every break position held a `_` |
| TextWrap.HardCutDropsCharacter | tech_diagram.py:18-22 | a hard cut loses the character at index `max_chars`: `"abcde"` at width 2 wraps to `"ab_\nde"` and cannot be restored |
| TextWrap.UnderscoreBreakKeepsText | tech_diagram.py:16-22 | a break on an underscore loses nothing: `"ab_cd"` at width 3 wraps to `"ab_\ncd"` |
| TextWrap.WarpText | tech_diagram.py:9-26 | the `while` loop computes the recursive definition, the lines joined with the marker, and returns short text unchanged |
| TechDiagram.Tokens | tech_diagram.py:46-48 | a column yields one token more than it has commas, and every token is free of commas and surrounding whitespace |
| TechDiagram.TokensJoin | tech_diagram.py:46-48 | clean names written comma-separated parse back to the same names |
| TechDiagram.TokensOfPair | tech_diagram.py:46-48 | the spelling `a, b` parses to `[a, b]` |
| TechDiagram.ParseFlow | tech_diagram.py:44-57 | the parsed carrier list is never empty, so `carriers[0]` always exists for the fallback |
| TechDiagram.Checks | tech_diagram.py:50-56 | a direction warns about lengths exactly when its three lists differ in length, and about the main carrier exactly when it is not listed; there are no other warnings (a consistent direction is silent), and the length warning comes first |
| TechDiagram.EffectiveMain | tech_diagram.py:54-57 | the effective main carrier is always listed: the given one if listed, else the first carrier |
| TechDiagram.FlowStmts | tech_diagram.py:61-71 | a direction issues exactly two statements per listed carrier, repeats included |
| TechDiagram.FlowStmtsAt | tech_diagram.py:61-71 | for carrier `i` the loop issues its node statement, then its edge labelled with share `i` and unit `i` |
| TechDiagram.FlowNodeNames | tech_diagram.py:61-65 | the nodes one direction adds are exactly its carriers |
| TechDiagram.FlowEdges | tech_diagram.py:61-71 | one edge per carrier in list order, in the direction's orientation, labelled with the share and unit at the same position |
| TechDiagram.ExtraValuesIgnored | tech_diagram.py:61-64 | shares and units beyond the carrier count never affect the statements |
| TechDiagram.Build | tech_diagram.py:29-73 | the built graph starts with the process node labelled `warptext(tech_id)`, has two statements per carrier, exactly the process and the carriers as nodes, and one edge per carrier; beside the graph, the effective main carriers the code computes and discards are listed ones |
| TechDiagram.Statements | tech_diagram.py:40-71 | the full statement order: process node, then per input carrier its node and its edge into the process, then per output carrier its node and its edge out of the process |
| TechDiagram.NodeSet | tech_diagram.py:40-65 | the distinct node names are the process identifier together with the input and output carriers |
| TechDiagram.EdgeList | tech_diagram.py:60-71 | the edge count is the input plus the output carrier count; inputs go carrier to process, then outputs go process to carrier, each labelled with its positional share and unit |
| TechDiagram.MainCarriers | tech_diagram.py:54-57 | after the fallback each main carrier is in its list, unchanged when already listed, the first carrier otherwise |
| TechDiagram.GraphIgnoresMainCarrier | tech_diagram.py:54-73 | the fallback's result is never read again: naming any other main carrier on either side gives the same graph |
| TechDiagram.WarningsIssued | tech_diagram.py:44-57 | each of the four warnings is present exactly when its condition holds and there are no others, so a consistent record builds silently; the input side's warnings come before the output side's; the graph is built regardless |
| TechDiagram.TwoInputsOneOutput | tech_diagram.py:29-73 | a record with two inputs (such as `Electricity, Heat`) and one output (such as `Hot Water`) gives the process and three carrier nodes, the three labelled edges in order, and no warnings |
| KeywordFilter.Select | tech_diagram.py:116 | the comprehension is an order-preserving subsequence keeping every occurrence of a matching identifier and no other |
| KeywordFilter.FilterIds | tech_diagram.py:115-116 | an empty keyword leaves the list unchanged; otherwise the result is an order-preserving subsequence of exactly the matching identifiers, with their multiplicities |
| KeywordFilter.EmptyKeywordSelectsAll | tech_diagram.py:115-116 | every identifier contains the empty keyword, so the `if keyword:` guard does not change the result |
| KeywordFilter.FilterIdempotent | tech_diagram.py:115-116 | filtering twice with the same keyword is filtering once |
| KeywordFilter.FilterIgnoresKeywordCase | tech_diagram.py:116 | a keyword and its lower-case form filter the list alike |

## Left out

- The Streamlit page (`st.*` calls, tech_diagram.py lines 95-134) and streamlit_app.py: user interface only. This includes the selection box and the "Plot all filtered technologies" loop, which calls the builder once per filtered identifier.
- CSV loading and pandas preprocessing (`read_csv`, `fillna`, `astype`, `unique`, the row lookup `iloc[0]`): file I/O and library calls. The model takes a record whose columns are already strings, and a list of identifiers.
- `float()` parsing of shares and Python's float formatting in the edge label: floating point. The `render` parameter stands for both, and a share that fails to parse (a `ValueError` in the code) is not modelled.
- Graphviz rendering and the visual attributes: only the node style (process or carrier box) and the `rankdir`/`splines` values are recorded, as plain tags.
- The text of the printed warnings: only their kind and data are returned.
- `tech_type_spec` (line 38): it is computed and never used.
- TextWrap.Wrap: the width is a natural number. With a negative `max_chars` the loop condition `len(text_temp) > max_chars` never becomes false, so the code never returns (for example `warptext("", -1)` appends `_\n` forever); the only call site uses the default 20.
- Strings.Lower: ASCII case mapping only; Python's `lower()` also maps non-ASCII letters.
- The index error raised when a direction has fewer shares or units than carriers is a precondition (`IndexSafe`), not a modelled error path.
- TechDiagram.TwoInputsOneOutput: states the two-input, one-output record for any clean names rather than for the literal strings "Electricity", "Heat" and "Hot Water".
- How the graph library writes names out. The model's graph is the list of node and edge statements the builder issues; `NodeSet` and `EdgeList` hold of those statements. In the graphviz library an edge endpoint containing `:` is read as `node:port`, while a node statement quotes the whole name, so for a carrier or identifier containing `:` the written edge attaches to a different node than the node statement. The library is not part of this model.
- Extra shares are still passed to `float()`, so a malformed share beyond the carrier count raises a `ValueError` in the code even though it never reaches a label; like every parse failure, this is not modelled.
