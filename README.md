# EZstruct core, modelled in Dafny

EZstruct turns a DXF drawing into a 2-D frame model for the anastruct
solver. This project models the part of it that turns noisy drawing points
into a clean structural graph, and proves properties of that model:

- **Vertex registry** (`registry.dfy`). `check_point` snaps each drawn point
  to the first registered point, in insertion order, that lies within
  `TOLERANCE` of it. When there is none, the point is registered itself.
- **Topology repair** (`topology.dfy`). `add_intermediate_point` splits the
  first segment that has a registered point in its interior. The loop in
  `load_data` runs it for every registered point over the elements and
  over the distributed-load spans.
- **Segments** (`geometry.dfy`). A `Segment` keeps its endpoints in
  ascending order, and `is_point_on_segment` is built from a cross product
  and a dot product.
- **Insertion-ordered dictionaries** (`pydict.dfy`). This is the class the
  in-place code above updates: assigning to a new key appends it, assigning
  to an existing key overwrites it in place, and `del` drops a key without
  reordering the rest.
- **Graph compilation** (`compile.dfy`). This is `compile_model` up to
  `solve`, with these steps:
  - node ids are handed out 1, 2, 3, … in order of first use;
  - an unknown colour gets a placeholder material;
  - `add_element`, support and load calls are emitted in order;
  - a support, point load or moment is skipped when its point has no node
    id;
  - a distributed load on a span that is not an element raises `KeyError`.

  The solver is not modelled. Its calls are returned as a list of `Command`
  records, and the ids `add_element` returns are a parameter.
- **Text parsing** (`text_parse.dfy`) covers `extract_value` (the pattern
  `^([\d\s,\.]+)(.*)$`, then `float`) and `extract_parameters` (the `E`,
  `A` and `I` lines of a DXF multi-line text).
- **Layer names** (`layer_name.dfy`) covers `valid_layer_name`.

`wrappers.dfy` holds `Option` and `Result`, and `entities.dfy` holds the
named tuples of main.py.

Coordinates and parsed numbers are exact reals. A distance compared with
a tolerance is written as a squared distance compared with the squared
tolerance, so no square root is needed. The imperative code of main.py
is modelled with its own structure:

- `check_point`, `add_intermediate_point`, the repair loop and
  `compile_model` are methods over `OrderedDict` objects.
- Each of those methods is proved against a function of the old state.
- The properties are proved as lemmas about those functions.

`extract_parameters` is likewise a method with its two loops, proved
equal to the function `ParametersOf`.

Take three points on a line where P1–P2 and P2–P3 are within tolerance
but P1–P3 is not. One might expect P3 to join P1 through P2. In
`check_point` (main.py:40-45) it does not, because P3 is compared only with
the registered points. P2 was merged into P1, so P2 is never registered
and cannot attract P3. P1 is too far from P3, so P3 becomes a
representative of its own. `Registry.FirstSeenWinsExample` proves this.

Several operations require that the points they look up are keys of the
registry: `EndpointsKnown` for element endpoints, and `SupportPointsKnown`
and `LoadPointsKnown` for supports and point loads. The source relies on
the same facts and would raise `KeyError` otherwise. They hold for the
dictionaries `load_data` builds:

- `load_data` obtains every endpoint, support point and load point from
  `check_point`, and `CheckPointResult` shows the result is registered.
- The repair loop keeps element endpoints registered:
  `AddIntermediateKeepsEndpoints` shows one split creates only segments
  between registered points, and `RepairAllInvariants` carries this over
  the whole loop.

## Model

| member | source | states |
|---|---|---|
| Geometry.LessIsStrictTotalOrder | helpers.py:9 | the point order a segment is built with is irreflexive, asymmetric, transitive and total |
| Geometry.NewSegment | helpers.py:8-12 | a segment holds exactly the two given endpoints, the smaller one first |
| Geometry.NewSegmentSymmetric | helpers.py:14-18 | `Segment(p, q) == Segment(q, p)`, so both also hash alike |
| Geometry.NewSegmentOfCanonical | helpers.py:8-12 | rebuilding a segment from its own endpoints gives the same segment |
| Geometry.Endpoints | helpers.py:23-25 | unpacking yields the smaller endpoint first, and the two rebuild the segment |
| Geometry.EndpointsOnSegment | helpers.py:27-36 | both endpoints pass the on-segment test for every tolerance that is not negative |
| Geometry.ZeroLengthSegmentAcceptsAll | helpers.py:29-36 | a zero-length segment accepts every point |
| Geometry.PointsBetweenAreOnSegment | helpers.py:27-36 | every point `a + t(b - a)` with `0 <= t <= 1` passes |
| Geometry.NegativeToleranceRejectsAll | helpers.py:36 | a negative tolerance accepts no point |
| Geometry.IsPointOnSegment | helpers.py:27-36 | a negative tolerance accepts nothing, and any other tolerance accepts both endpoints |
| PyDict.PutKey | main.py:44 | after `d[k] = v` the keys are the old ones plus `k`, still distinct, one more at most |
| PyDict.PutKeyExtends | main.py:62 | assigning never reorders or drops the keys already there |
| PyDict.RemoveKey | main.py:61 | after `del d[k]` the keys are every other key in its old order, one fewer |
| PyDict.RemoveKeyAt | main.py:61 | deleting the key at position `m` leaves the keys before it and the keys after it, in their old order |
| PyDict.OrderedDict.constructor | main.py:24-28 | a new dictionary is empty |
| PyDict.OrderedDict.Put | main.py:44 | `d[k] = v` appends a new key or keeps the key's place, and maps it to `v` |
| PyDict.OrderedDict.Delete | main.py:61 | `del d[k]` removes the key and its value and keeps the order of the rest |
| Registry.Close | main.py:30-38 | closeness means the squared length of `w - v` is at most `TOLERANCE²`, the exact squared form of `(w - v).magnitude <= TOLERANCE`, and every point is close to itself |
| Registry.CloseSymmetric | main.py:30-38 | closeness does not depend on the order of the two points |
| Registry.CloseToSelf | main.py:30-38 | every point is within tolerance of itself |
| Registry.FirstClose | main.py:41-43 | the index found is the first close registered point; no index means no registered point is close |
| Registry.Representative | main.py:40-45 | `check_point` returns the first registered point, in insertion order, that is close to the argument, or the argument itself when no registered point is close |
| Registry.Registered | main.py:40-45 | the registry keeps its old keys in order and grows by one exactly when no registered point is close |
| Registry.CheckPoint | main.py:40-45 | returns the first close registered point, or the point itself; only in the latter case is it appended with value `None` |
| Registry.CheckPointResult | main.py:40-45 | the result is registered and close to the argument; the registry grows at its end by at most one, and only when nothing was close |
| Registry.RegisterKeepsSeparated | main.py:41-45 | no registered point is close to one registered before it, before and after a call |
| Registry.SeparatedIsDistinct | main.py:41-45 | a registry built this way holds no point twice |
| Registry.CheckPointIdempotent | main.py:41-45 | a registered point is its own representative and adds nothing |
| Registry.MergedPointNotRegistered | main.py:41-45 | a point merged into another representative is not registered |
| Registry.RegisterAllGrows | main.py:40-45 | over a stream of calls the registry only grows at its end and stays separated |
| Registry.RegisterAll | main.py:69-129 | the registry after the `check_point` calls of `load_data`, in order: it keeps its old keys as a prefix and gains at most one key per call |
| Registry.MergedPointNeverRegistered | main.py:41-45 | a merged point is never registered later, so it never attracts a later point |
| Registry.MergedStaysOut | main.py:41-45 | one more call after a point was merged does not register that point |
| Registry.RepresentativeStaysRegistered | main.py:40-45 | the representative a point was given stays registered through every later call |
| Registry.CloseKeepsOut | main.py:41-45 | a point close to a registered point is not appended, so an absent one stays absent |
| Registry.ChainDistances | main.py:30-38 | on the three-point chain, P1–P2 and P2–P3 are close, P1–P3 are not |
| Registry.FirstSeenWinsExample | main.py:40-45 | on that chain P2 joins P1, and P3 becomes a representative of its own |
| Topology.SplitsAt | main.py:49-51 | a zero-length segment is split by every point other than its endpoint |
| Topology.FirstSplit | main.py:48-53 | the index found is the first segment holding the point strictly inside; none means no segment does |
| Topology.AddIntermediate | main.py:47-62 | the dictionary stays consistent: distinct keys, each with a value |
| Topology.AddIntermediatePoint | main.py:47-62 | the method changes the dictionary exactly as `AddIntermediate` describes |
| Topology.HalvesAreNew | main.py:55-60 | neither half equals the split segment, and both are ordered segments |
| Topology.AddIntermediateShape | main.py:48-55 | unchanged exactly when no segment has the point inside; keys stay ordered, no value is invented, size changes by at most one |
| Topology.AddIntermediateEffect | main.py:55-62 | the first such segment alone is removed; both halves get its value; other keys keep their values and places; new halves are appended |
| Topology.AddIntermediateKeepsEndpoints | main.py:55-60 | splitting at a registered point creates only segments between registered points |
| Topology.RepairAll | main.py:141-143 | repair over a sequence of points keeps the dictionary consistent |
| Topology.RepairAllInvariants | main.py:141-143 | after repair, keys are ordered and between registered points, no value is invented, at most one key is added per point |
| Topology.RepairTopology | main.py:141-143 | the loop changes elements and distributed-load spans exactly as `RepairAll` over the registered points |
| Compile.Flatten | main.py:154-157 | the endpoints the element loop visits, two per element, include both endpoints of each |
| Compile.FlattenOnlyEndpoints | main.py:170-174 | every visited point is a registered point when every endpoint is |
| Compile.FirstAppearance | main.py:169-175 | the distinct points, each once, where it first appears |
| Compile.FirstAppearancePrefix | main.py:169-175 | the distinct points of a prefix come first, in the same order, so points are listed in order of first appearance |
| Compile.AssignId | main.py:170-175 | one id step leaves the registered points unchanged |
| Compile.NumberPoints | main.py:169-175 | numbering leaves the registered points unchanged |
| Compile.NumberPointsSpec | main.py:169-175 | the k-th new point gets id `c0 + k`; the counter ends past the last id; other points keep their values |
| Compile.NumberingExtends | main.py:171-175 | a new point continues the numbering with the next id |
| Compile.NodeIdsOfPoints | main.py:152-175 | from no ids, each visited point gets a distinct id in 1..counter-1, and no other point gets one |
| Compile.NodeIdsAfterElementLoop | main.py:152-175 | after the element loop both endpoints of every element have ids, and distinct endpoints have distinct ids |
| Compile.Colors | main.py:161 | one colour per element, in element order |
| Compile.WithPlaceholdersSpec | main.py:161-163 | every colour in use gets a material; existing ones are kept; a missing one gets `Material(None, None)` once, appended |
| Compile.WithPlaceholders | main.py:161-163 | adding placeholder materials keeps the materials dictionary consistent: distinct colours, each with a material |
| Compile.ElementCommands | main.py:164-167 | the k-th `add_element` call is for the k-th element, with its colour's material |
| Compile.ElementIdMap | main.py:167-169 | the element-id map has exactly the element segments as keys |
| Compile.ElementIdMapAt | main.py:167-169 | the k-th element is mapped to the k-th id the solver returned |
| Compile.NumberNode | main.py:170-175 | a point without a truthy id gets the counter as id and the counter advances; otherwise nothing changes |
| Compile.EnsureMaterial | main.py:161-163 | an unknown colour gets the placeholder material, appended; a known colour changes nothing |
| Compile.CoverPrefixStep | main.py:161-165 | once a colour has a material, one more element is covered |
| Compile.PlaceholdersPrefixStep | main.py:161-163 | one more element adds its colour's placeholder exactly when that colour has no material yet |
| Compile.CallsPrefixStep | main.py:164-169 | one more element appends its call and records its id |
| Compile.NumberEnds | main.py:169-175 | the start and then the end point of the element are numbered |
| Compile.AddElementCall | main.py:156-169 | one pass of the material and `add_element` half of the element loop keeps its invariant |
| Compile.CreateElements | main.py:152-175 | the element loop leaves ids, materials, calls and the element-id map as the reference functions describe |
| Compile.ElementLoopDone | main.py:152-175 | the loop invariants at the end describe the whole element list |
| Compile.NumberPointsPair | main.py:170-175 | numbering two more points continues from the numbering before |
| Compile.ElementCommandsStable | main.py:164-167 | adding materials for other colours does not change the `add_element` calls |
| Compile.NodeCalls | main.py:179-200 | at most one call per entry |
| Compile.NodeCallsSpec | main.py:179-200 | a call is made exactly for the entries whose point has a truthy id, with that id; none is skipped exactly when all have one |
| Compile.GroupSupportCommands | main.py:178-186 | the calls for one block name only place supports |
| Compile.SupportCommands | main.py:177-186 | the support loops only place supports |
| Compile.SupportCommandsSpec | main.py:177-186 | every support call comes from a support whose point has an id, and every such support gets its call of its kind |
| Compile.ApplySupports | main.py:177-186 | the support loops emit exactly `SupportCommands` |
| Compile.PointLoadCommandsSpec | main.py:192-194 | a point load is made exactly for the forces whose point has a node id, at that node, with the force's value and rotation |
| Compile.MomentLoadCommandsSpec | main.py:198-200 | a moment load is made exactly for the moments whose point has a node id, at that node, with the moment's value |
| Compile.PointLoadCommands | main.py:192-194 | the calls for forces are point loads only |
| Compile.MomentLoadCommands | main.py:198-200 | the calls for moments are moment loads only |
| Compile.QLoadCommands | main.py:195-197 | at most one distributed-load call per span, each a `q_load`; a `KeyError` names a span that is not an element |
| Compile.GroupLoadCommands | main.py:190-200 | only distributed loads can fail, with a `KeyError` naming a span that is not an element; each load type emits only its own kind of call |
| Compile.LoadCommands | main.py:188-200 | the load loops emit only load calls, and a `KeyError` names a span that is not an element |
| Compile.QLoadCommandsSpec | main.py:195-197 | `KeyError` exactly when some span is not an element, naming the first one; otherwise each span with a truthy element id gets its load, and only those |
| Compile.LoadCommandsFails | main.py:188-200 | the load loop fails exactly when some distributed load lies on a span that is not an element |
| Compile.QLoadErrorSticks | main.py:195-197 | once a prefix of the spans fails, the loop fails with the same error |
| Compile.LoadErrorSticks | main.py:188-200 | once a prefix of the load types fails, the loop fails with the same error |
| Compile.GroupErrorSticks | main.py:190-200 | once a prefix of one load type fails, that load type fails with the same error |
| Compile.TruncateKnown | main.py:190-200 | a prefix of a load type acts only at registered points |
| Compile.LoadEntry | main.py:191-200 | one entry of the load loop extends the calls for the prefix by one entry |
| Compile.ApplyLoadGroup | main.py:190-200 | the inner load loop emits exactly `GroupLoadCommands` |
| Compile.ApplyLoads | main.py:188-200 | the load loops emit exactly `LoadCommands`, stopping at the first `KeyError` |
| Compile.SupportsAtElementEnds | main.py:169-186 | a support reaches the solver exactly when its point is an element endpoint, at that endpoint's node |
| Compile.LoadsFailOffElements | main.py:169-197 | with the ids of the element loop, loading fails exactly when a distributed load lies off the elements |
| Compile.CompileModel | main.py:148-200 | node ids, materials and the emitted calls are as the reference functions describe; a `KeyError` replaces the calls |
| TextParse.Remove | helpers.py:64 | `replace(c, '')` leaves no `c` and does not lengthen the string |
| TextParse.RemoveAppend | helpers.py:64 | removing a character commutes with concatenation |
| TextParse.RemoveAbsent | helpers.py:64 | removing an absent character changes nothing |
| TextParse.RemoveOnce | helpers.py:64 | removing the only occurrence of a character joins its two sides |
| TextParse.StripStart | helpers.py:85 | `lstrip` drops exactly the leading whitespace |
| TextParse.StripEnd | helpers.py:85 | `rstrip` drops exactly the trailing whitespace |
| TextParse.Strip | helpers.py:85 | `strip` is empty exactly for all-whitespace text, and otherwise starts and ends without whitespace |
| TextParse.StripUnchanged | helpers.py:85 | text without whitespace at either end is its own strip |
| TextParse.ParseFloat | helpers.py:67-68 | `float` of digits, dots and whitespace is never negative |
| TextParse.ParseFloatSpec | helpers.py:67-68 | `float` succeeds exactly when the stripped text is digits with at most one dot and at least one digit |
| TextParse.NumeralParts | helpers.py:67-68 | digits before the first dot and digits after it, with a digit somewhere, are exactly a numeral |
| TextParse.PartsMakeNumeral | helpers.py:67-68 | digit parts around one dot form a numeral |
| TextParse.TwoDotsRejected | helpers.py:67-68 | digits with two dots are a `ValueError` |
| TextParse.InnerSpaceRejected | helpers.py:67-68 | digits with a space between them are a `ValueError` |
| TextParse.ParseFloatDecimal | helpers.py:67-68 | `float("whole.frac")` is the decimal value, when at least one side has digits |
| TextParse.ParseFloatNeedsDigit | helpers.py:67-68 | text without a digit is a `ValueError` |
| TextParse.LoneDotIsNotANumber | helpers.py:67-68 | `float(".")` is a `ValueError` |
| TextParse.RunFrom | helpers.py:54 | the run of number characters ends at the first character outside the class |
| TextParse.Match | helpers.py:54-57 | a match is a split the pattern accepts: number characters, then newline-free units up to `$` |
| TextParse.MatchIsGreedy | helpers.py:54-57 | the split found is the accepted split with the longest number part, then the longest units; no split means the pattern fails |
| TextParse.ExtractValue | helpers.py:52-74 | no match gives `None`; a match gives a non-negative value and units that start outside the number class and hold no newline |
| TextParse.ExtractValueSplits | helpers.py:52-71 | number characters followed by units give back those units, and `float` of the number without spaces and commas, or 0.0 when nothing is left; `ValueError` exactly when what is left is not a numeral |
| TextParse.ExtractValueDecimal | helpers.py:52-71 | `whole.frac` followed by units reads as that exact decimal and those units |
| TextParse.NatDigitsValue | helpers.py:68 | reading back the digits of `n` gives `n` |
| TextParse.ParseFloatNat | helpers.py:68 | `float` reads the digits of `n` as `n` |
| TextParse.ExtractValueRoundTrip | helpers.py:52-74 | digits of `n` followed by units that start outside the number class split back into `n` and those units |
| TextParse.RunPrefix | helpers.py:54 | the run stops where the number characters stop |
| TextParse.MatchNumberThenUnits | helpers.py:54-61 | the pattern splits a run of number characters from newline-free units |
| TextParse.ExtractValueNoNumber | helpers.py:73-74 | `"abc"` has no match |
| TextParse.ExtractValueLoneDot | helpers.py:64-68 | `"."` raises `ValueError` |
| TextParse.ExtractValueOnlySeparators | helpers.py:64-70 | `", kN"` reads as 0.0 with units `"kN"` |
| TextParse.ExtractValueThousands | helpers.py:60-71 | `"12,345.5mm"` reads as 12345.5 with units `"mm"` |
| TextParse.Split | helpers.py:79 | `split('\P')` gives at least one piece; the first is a prefix, and no piece holds the separator |
| TextParse.JoinSplit | helpers.py:79 | joining the pieces of a split gives back the text |
| TextParse.SplitAfterPiece | helpers.py:79 | a separator-free first piece is split off first |
| TextParse.SplitWhole | helpers.py:79 | text without the separator is one piece |
| TextParse.SplitJoin | helpers.py:79 | splitting a join of separator-free pieces gives back the pieces |
| TextParse.Lines | helpers.py:79 | there is always at least one line |
| TextParse.ReadLine | helpers.py:85-91 | one line either fails or fills a slot of the same dictionary with a non-negative value or `None` |
| TextParse.ReadLines | helpers.py:84-91 | reading all lines keeps exactly the keys `E`, `A` and `I`, with non-negative values |
| TextParse.ParametersOf | helpers.py:77-97 | on success `E`, `A` and `I` are all positive |
| TextParse.ReadErrorSticks | helpers.py:84-91 | once a line fails, the whole read fails with that exception |
| TextParse.ReadOne | helpers.py:85-91 | one pass of the line loop computes `ReadLine` |
| TextParse.AllTruthy | helpers.py:93-95 | the check loop succeeds exactly when `E`, `A` and `I` are all truthy |
| TextParse.ReadAll | helpers.py:84-91 | the line loop computes `ReadLines` and stops at the first exception |
| TextParse.ExtractParameters | helpers.py:77-97 | the method computes `ParametersOf` |
| TextParse.ReadLinesLastWins | helpers.py:84-89 | each slot holds what the last line for its letter wrote, so a repeated letter overwrites |
| TextParse.NoLineNoValue | helpers.py:82-89 | a letter that starts no line has no value |
| TextParse.MissingLetterEmpty | helpers.py:82-89 | a letter that starts no line keeps its empty slot |
| TextParse.RejectedSlots | helpers.py:93-95 | a slot that is `None` or `0.0` (falsy) makes the text a `ValueError` |
| TextParse.MissingLetterFails | helpers.py:82-95 | a text with no line for `E`, `A` or `I` is rejected |
| TextParse.BadLineFails | helpers.py:85-91 | an empty line, or one that starts with another letter, makes the read fail |
| TextParse.FirstBadLineRaises | helpers.py:85-91 | after good lines, a blank line raises `IndexError` and a line starting with another letter raises `ValueError` |
| TextParse.RemoveJoin | helpers.py:79 | removing a character outside the separator commutes with joining |
| TextParse.RemoveEquals | helpers.py:79 | a written line `X=digits` loses its equals sign |
| TextParse.ReadParameterLine | helpers.py:85-89 | a line `X<digits of n>` fills slot `X` with `n` |
| TextParse.PunctuationRemoved | helpers.py:79 | the written text without `:` and `=` is the joined lines |
| TextParse.LinesOfLetters | helpers.py:79 | the written text splits into the three lines |
| TextParse.JoinThree | helpers.py:79 | joining three pieces puts the separator between each pair |
| TextParse.ReadLinesSnoc | helpers.py:84-91 | reading one more line continues from the slots read so far |
| TextParse.ReadThreeLines | helpers.py:84-91 | three lines are read one after the other |
| TextParse.ReadParameterText | helpers.py:79-91 | the three written lines fill `E`, `A` and `I` with the three numbers |
| TextParse.ParametersRoundTrip | helpers.py:77-97 | positive whole numbers written as `E=…\PA=…\PI=…` are read back exactly |
| TextParse.ZeroParameterRejected | helpers.py:93-95 | a parameter written as zero reads as `0.0`, which is falsy, so the text is a `ValueError` |
| TextParse.AcceptedSlots | helpers.py:93-97 | slots that are all truthy give the parameters |
| LayerName.MatchesPatternSpec | helpers.py:104 | the pattern test holds exactly when some end of the repetition is accepted under `re.match` semantics |
| LayerName.ValidLayerName | helpers.py:100-110 | empty, then bad characters, then too long, each exactly when it applies; an accepted name is returned unchanged |
| LayerName.TrailingNewlineAccepted | helpers.py:104 | `"beams\n"` is accepted, newline included |
| LayerName.ValidLayerNameFull | helpers.py:100-110 | accepted exactly when non-empty, at most 255 long, and made only of name characters |
| LayerName.FullCheckDiffersOnlyOnNewline | helpers.py:104 | the two checks differ only on names that end in a newline, which the full check rejects |

## Left out

- Reading the DXF file and dispatching its entities (`load_data` apart from
  `check_point`, `add_intermediate_point` and the repair loop) is file I/O
  through ezdxf. The model starts from the points passed to `check_point`
  and from the dictionaries `load_data` builds.
- The anastruct solver is foreign code, so these are not modelled:
  `SystemElements`, the effect of `add_element`, `add_support_*`,
  `point_load`, `q_load`, `moment_load`, `solve` and `FEMException`. The
  calls are returned as `Command` records, and the ids `add_element`
  returns are the parameter `elementIds`.
- Warnings printed by `compile_model` are output only. This includes the
  warning for a non-zero z coordinate and the one for a missing material.
- `draw_displacements`, `main`, the CLI argument parsing and the file-path
  validators are I/O.
- Floating point is not modelled: coordinates and parsed numbers are exact
  reals. `Vec3.magnitude` is replaced by squared comparisons, which give
  the same answer on reals.
- `Vec3`'s `<` belongs to ezdxf and is not part of this model. It is taken
  to be the strict lexicographic order on (x, y, z).
- `Segment.length`, `midpoint`, `is_parallel_to` and `is_perpendicular_to`
  are not used by the pipeline and are not modelled.
- `Segment.__hash__` is not modelled separately: equal segments are equal
  values, so they hash alike.
- The `E*A` and `E*I` products that build a `Material` in `load_data` are
  plain arithmetic and are not modelled.
- TextParse.ParseFloat: Python's `float` also accepts signs, exponents,
  underscores, `inf` and `nan`. None of these can reach it, because the
  number group admits only digits, whitespace, commas and dots.
- TextParse.IsSpace, TextParse.IsDigit: `\s`, `\d` and `str.strip` are
  modelled on ASCII only. Unicode digits and spaces are not modelled.
- TextParse.ExtractValue: the `(None, None)` of the source is `None`. A
  `ValueError` from `float` is the `Err` case.
- TextParse.ParametersOf: the result is a `Parameters` record, not the
  dictionary. On success that dictionary has exactly the keys `E`, `A`
  and `I`, which the record's three fields stand for.
- LayerName.ValidLayerName: `ArgumentTypeError` is modelled as an `Err`
  naming the failed check. The message text is not modelled.
- Compile.CompileModel: the caller must guarantee that every support and
  load point is a key of `vectors_map`. `load_data` ensures this, because
  it obtains each of those points from `check_point`. A missing key would
  raise `KeyError` in the source.
- Compile.CompileModel: the iteration order of the `supports` and `loads`
  defaultdicts is given as a sequence of groups, in the order `load_data`
  first created each group.
- PyDict.OrderedDict.Delete requires the key to be present. Its one caller
  deletes a key it has just found, so the `KeyError` case cannot arise.

## Findings

| source | as written | input that shows it | evidently intended | confidence | as-written member | corrected member |
|---|---|---|---|---|---|---|
| helpers.py:104 | `re.match(r'^[a-zA-Z0-9_-]+$', name)` also accepts a name that ends in one newline, because `$` matches before a final newline | `"beams\n"` is returned as a valid layer name | every character of the name is a letter, a digit, `_` or `-` (a full match) | not executed | LayerName.TrailingNewlineAccepted | LayerName.ValidLayerNameFull |
