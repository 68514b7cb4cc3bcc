# A verified model of the LunCo simulator's hard core

LunCo is a lunar mission simulator written in Rust. This project models six of its parts in Dafny and
proves what each is for:

1. **Behaviour-tree codec** (`KindTable`, `TagNames`, `XmlText`, `Decimals`, `Numerals`, `BehaviorXmlWriter`,
   `BehaviorXmlReader`, `BehaviorXmlRoundTrip`, `BehaviorXmlElements`, `BehaviorXmlReExport`, `BehaviorXmlDocuments`,
   `BehaviorXmlVocabulary`, `SubTrees`). A recursive printer turns a JSON behaviour tree into
   BehaviorTree.CPP elements, an event parser with an explicit stack turns them back, and an expander substitutes
   `<SubTree>` references. The round trip holds with its exact depth limits; for documents that were not written
   by this codec, what comes back of them is characterised element by element; and expansion fails exactly when the
   unfolding meets a dangling reference, a cycle or too much depth.
2. **Route compiler** (`RouteCurve`, `RouteExpansion`, `RouteBaking`, `RouteCompiler`, `RouteFrame`, `RouteAppend`).
   Reached legs are stripped,
   dwell and smooth flags become real legs along a Catmull-Rom path, targets become positions, and a per-frame
   state machine decides whether the running tree is kept, resumed, rebuilt or braked.
3. **Terrain bake** (`VoidFill`, `TerrainBake`, `TerrainSampling`, `TerrainReach`, `Arithmetic`). Valid-data box, centred crop,
   renormalised bilinear resampling and iterative void filling, with the exact condition under which each succeeds.
4. **API core** (`EntityRegistry`, `EntityIds`, `EntityIdWalk`, `EntityIdLaws`, `EntityIdMeaning`, `ApiProtocol`, `ApiProtocolRuns`,
   `ApiProtocolDispatch`, `TelemetryRates`). The two-way id index against the live world, the schema-driven id rewriter, the
   request/reply protocol with deferred answers and a watchdog, and the telemetry rate limiter.
5. **Dataset downloads** (`Datasets`, `DatasetRuns`, `DatasetShadows`). A registry, a fetch task, a stall watchdog, user actions and
   a drain share one handle per attempt; the invariants hold in every interleaving.
6. **Asset identity** (`AssetPaths`, `AssetPathMeaning`, `FileClosure`, `TwinRoots`, `Text`). Path normal form, reference resolution,
   the dependency closure, and the naming of opened folders.

`Json` holds the JSON values all of them share, `Wrappers` the usual option and result types.

Where the source mutates, the model does: classes with the source's fields, loops where it loops, each method
proved equal to a function, and the theorems are about that function. Where the source's claims turned out not to
hold for every input, the model keeps the code as it is, gives an input, and states the exact condition.

Run `dafny verify dfyconfig.toml` to check everything.

## Model

| member | source | states |
|---|---|---|
| BehaviorXmlRoundTrip.RoundTrip | crates/lunco-autopilot/src/btcpp_xml.rs:227-691 | every canonical tree is written exactly when it has at most 65 levels of nodes, and what was written is read back as the very same tree exactly when its nested elements are at most 62 deep, else the import fails |
| BehaviorXmlRoundTrip.WritableButNotReadable | crates/lunco-autopilot/src/btcpp_xml.rs:246-261 | a tree the writer accepts and the reader refuses: writer and reader count depth differently |
| BehaviorXmlRoundTrip.PrintsIff | crates/lunco-autopilot/src/btcpp_xml.rs:246-399 | printing a canonical node at a depth succeeds exactly when its height fits under the writer's limit |
| BehaviorXmlRoundTrip.ReadsBack | crates/lunco-autopilot/src/btcpp_xml.rs:496-593 | the stack machine, fed what was printed for a node, attaches that node to the frame it was in, or fails if the stack has no room; the induction the round trip rests on |
| BehaviorXmlRoundTrip.TaggedComesBack | crates/lunco-autopilot/src/btcpp_xml.rs:264-354 | for every row of the mapping table, renamed fields and the element shared by `repeat` and `forever` included, the attributes written for a node read back as that node |
| BehaviorXmlRoundTrip.LeafComesBack | crates/lunco-autopilot/src/btcpp_xml.rs:595-709 | a leaf named by its `ID` comes back with every port |
| BehaviorXmlRoundTrip.ForeignComesBack | crates/lunco-autopilot/src/btcpp_xml.rs:360-399 | a foreign control node in snake case whose element name is neither known nor structural comes back with every port |
| BehaviorXmlRoundTrip.ReadAttrsInvertsEscaped | crates/lunco-autopilot/src/btcpp_xml.rs:774-790 | attributes that were escaped are read as they were, whatever they hold |
| BehaviorXmlRoundTrip.CanonicalExpandsToItself | crates/lunco-autopilot/src/btcpp_xml.rs:730-768 | the expansion that ends an import leaves a canonical tree alone at every depth it may start from |
| BehaviorXmlWriter.XmlWriter.WriteNode | crates/lunco-autopilot/src/btcpp_xml.rs:246-261 | the writer appends exactly the events of the printed node, or fails with the printed error |
| BehaviorXmlWriter.XmlWriter.WriteKnown | crates/lunco-autopilot/src/btcpp_xml.rs:264-354 | the same for a kind of the table |
| BehaviorXmlWriter.XmlWriter.WriteForeign | crates/lunco-autopilot/src/btcpp_xml.rs:360-399 | the same for a kind the table does not hold |
| BehaviorXmlWriter.XmlWriter.ValueToXml | crates/lunco-autopilot/src/btcpp_xml.rs:227-242 | a whole document around the printed tree |
| BehaviorXmlReader.Importer.CloseFrame | crates/lunco-autopilot/src/btcpp_xml.rs:558-593 | closing a frame attaches its value to the frame below, to the list of trees, or to nothing, as the pure parser does |
| BehaviorXmlReader.Importer.Consume | crates/lunco-autopilot/src/btcpp_xml.rs:506-533 | one event moves stack and trees as the pure parser does, error for error |
| BehaviorXmlReader.Importer.XmlToValue | crates/lunco-autopilot/src/btcpp_xml.rs:496-554 | a whole event stream is imported as the pure parser does |
| KindTable.ByKindFindsRow | crates/lunco-autopilot/src/btcpp_xml.rs:132-216 | looking a row up by its kind finds that row: no two rows share a kind |
| KindTable.ByTagFindsRow | crates/lunco-autopilot/src/btcpp_xml.rs:218-222 | looking a row up by its element finds that row, except that `forever` finds `repeat` |
| BehaviorXmlVocabulary.ByKindIff | crates/lunco-autopilot/src/btcpp_xml.rs:132-216 | the table holds exactly the thirty kinds, each with its slot; eleven are actions, four conditions, seven go by another name of the standard, and the element of the other eight is their own name in camel case |
| BehaviorXmlVocabulary.WrittenUnder | crates/lunco-autopilot/src/btcpp_xml.rs:227-399 | every document that is exported, whatever the node holds: the two containers with their names, and inside the element of the node's kind, named literally, which is open exactly when the node holds something |
| BehaviorXmlVocabulary.FieldWritten | crates/lunco-autopilot/src/btcpp_xml.rs:272-314 | six kinds carry one field as the first attribute: a count of successes or repetitions, milliseconds that read as a thousand times the seconds, or seconds |
| BehaviorXmlVocabulary.ReadUnder | crates/lunco-autopilot/src/btcpp_xml.rs:595-691 | every document of one tree that is imported under the element of a kind is a node of that kind, with the field its attributes give or the default, and with the element's children in the kind's slot; a repetition with a negative count is an endless one |
| TagNames.SnakeLoop | crates/lunco-autopilot/src/btcpp_xml.rs:793-806 | the loop computes the snake-case name |
| TagNames.SnakeInvertsCamelIff | crates/lunco-autopilot/src/btcpp_xml.rs:793-819 | of the two spellings alone: `snake` gives back what `camel` was given exactly when that is snake case: no upper-case letter, no leading, trailing or double underscore, every later word starting with a letter |
| TagNames.CamelInvertsSnakeIff | crates/lunco-autopilot/src/btcpp_xml.rs:793-819 | of the two spellings alone: `camel` gives back what `snake` was given exactly when that holds no underscore and does not start with a lower-case letter |
| BehaviorXmlReExport.ForeignKindReadsBackIff | crates/lunco-autopilot/src/btcpp_xml.rs:360-637 | a kind the table has no row for, written with its children and read again, comes back as itself exactly when it is snake case and its element name is neither known nor structural |
| BehaviorXmlReExport.ForeignElementKeepsNameIff | crates/lunco-autopilot/src/btcpp_xml.rs:27-30 | an element the table has no row for is written back under its own name exactly when the name holds no underscore, does not start with a lower-case letter, and its snake-case form is no kind of the table: the claim that it always is holds inside that condition |
| BehaviorXmlReExport.ElementSurvivesIff | crates/lunco-autopilot/src/btcpp_xml.rs:264-399 | one element that was read, of any sort: it is written back with its name and, if it has no row, every attribute and value, exactly when an action's kind has no other element, a condition's kind is a condition of the table, and a foreign element has a name that survives and no `ID` |
| BehaviorXmlReExport.WrittenIff | crates/lunco-autopilot/src/btcpp_xml.rs:246-399 | what was read from an element can be written exactly when no level is too deep and each element in it can be, which its name and attributes tell; what is written are the rewritten elements |
| BehaviorXmlReExport.NotEverythingComesBack | crates/lunco-autopilot/src/btcpp_xml.rs:257-260 | `<delay>` and `<Selector>` come back under other names, `<Wait>` is imported and cannot be exported |
| BehaviorXmlElements.ElementParses | crates/lunco-autopilot/src/btcpp_xml.rs:496-593 | the stack machine computes the recursion over elements: the same node or the same error, and a failure when there is no room |
| BehaviorXmlElements.DocumentParses | crates/lunco-autopilot/src/btcpp_xml.rs:496-593 | the same for whole documents of any number of trees |
| BehaviorXmlDocuments.ImportReadsEntire | crates/lunco-autopilot/src/btcpp_xml.rs:496-768 | an import is the reading of the entry tree with every reference replaced by the element it names, and is never too deep to be exported |
| BehaviorXmlDocuments.LastTreeWins | crates/lunco-autopilot/src/btcpp_xml.rs:534-554 | of two trees with one ID the later one counts |
| BehaviorXmlDocuments.ReExport | crates/lunco-autopilot/src/btcpp_xml.rs:227-768 | for every document and import: it can be exported exactly when each element can be; the export is the rewritten elements; and these are the elements that were read exactly when each one survives |
| XmlText.XmlEscape | crates/lunco-autopilot/src/btcpp_xml.rs:458-474 | the loop writes the escaped text |
| XmlText.EscapeTextIs | crates/lunco-autopilot/src/btcpp_xml.rs:458-474 | escaping works character by character: five predefined entities, three character references, and every other character as it is |
| XmlText.NormalisedEntity | crates/lunco-autopilot/src/btcpp_xml.rs:774-790 | the five entities and every decimal character reference read as their character, in front of any text |
| XmlText.NormalisedChar | crates/lunco-autopilot/src/btcpp_xml.rs:774-790 | any other character reads as itself, but white space as a space |
| XmlText.NormalisedEscapeText | crates/lunco-autopilot/src/btcpp_xml.rs:458-474 | escaping survives attribute-value normalisation (section 3.3.3 of XML 1.0, Fifth Edition): line breaks, tabs, quotes and markup come back |
| XmlText.NormalisedIsIdentityIff | crates/lunco-autopilot/src/btcpp_xml.rs:458-474 | why escaping is needed: of the texts free of references, exactly those without a tab or line break survive normalisation unescaped |
| XmlText.AttributeRoundTrip | crates/lunco-autopilot/src/btcpp_xml.rs:404-474 | the same through escaping and normalisation |
| XmlText.AttrTextIs | crates/lunco-autopilot/src/btcpp_xml.rs:404-414 | a string that is not JSON text is written bare, anything else as JSON text; text that is not JSON is read as itself |
| Decimals.MsecRoundTrip | crates/lunco-autopilot/src/btcpp_xml.rs:714-720 | seconds written as milliseconds are read as the same seconds |
| Decimals.NumTextRoundTrip | crates/lunco-autopilot/src/btcpp_xml.rs:441-447 | a number reads back as itself from the text written for it, whether that is integer text or not |
| Decimals.WholeIsInteger | crates/lunco-autopilot/src/btcpp_xml.rs:441-447 | whole numbers below nine quadrillion are written as integers |
| Numerals.ShowNatDigits | crates/lunco-autopilot/src/btcpp_xml.rs:424-447 | integer text is positional: the digit for each power of ten stands in its place |
| Numerals.ShowNatShortest | crates/lunco-autopilot/src/btcpp_xml.rs:424-447 | and as short as it can be |
| Numerals.ParseI64Iff | crates/lunco-autopilot/src/btcpp_xml.rs:641-668 | a signed count is read from exactly the decimal texts of it, leading zeros and one sign allowed, that fit in 64 bits |
| Numerals.ParseU64Iff | crates/lunco-api/src/executor.rs:529-532 | so is an unsigned id |
| SubTrees.Expander.Run | crates/lunco-autopilot/src/btcpp_xml.rs:730-768 | the expander computes the expansion and leaves `visiting` as it found it |
| SubTrees.ExpandFailsIff | crates/lunco-autopilot/src/btcpp_xml.rs:730-768 | expansion fails exactly when some path of the unfolding ends in a dangling reference, a reference to a tree being visited, or below level 64 |
| SubTrees.ReachableCycleFails | crates/lunco-autopilot/src/btcpp_xml.rs:730-768 | every cycle that can be reached makes the expansion fail |
| SubTrees.ExpandSucceeds | crates/lunco-autopilot/src/btcpp_xml.rs:730-768 | on success the result is the full substitution and holds no reference at any depth |
| SubTrees.ExpandLeavesNoMarker | crates/lunco-autopilot/src/btcpp_xml.rs:730-768 | the same at every depth and under every set of visited trees |
| RouteCurve.CatmullRomPathLoop | crates/lunco-autopilot/src/usd_tree.rs:476-505 | the loop computes the path, open or closed |
| RouteCurve.CurveIsHermite | crates/lunco-autopilot/src/usd_tree.rs:458-467 | a segment is the cubic that leaves and enters its control points with half the step between their neighbours: segments meet without a corner |
| RouteCurve.PathMeetsControlPoint | crates/lunco-autopilot/src/usd_tree.rs:460-505 | the path passes through every control point, at the first sample of that point's segment |
| RouteCurve.StartsIncrease | crates/lunco-autopilot/src/usd_tree.rs:476-505 | and through them in order |
| RouteCurve.StepsIff | crates/lunco-autopilot/src/usd_tree.rs:476-505 | a segment is cut into pieces no longer than the spacing, and no fewer would do |
| RouteCurve.PathSampleIs | crates/lunco-autopilot/src/usd_tree.rs:460-505 | every point of the path, open or closed: segment by segment, at equal steps of the parameter, the point of the curve between a control point and the next with their neighbours on either side |
| RouteExpansion.ExpandEditorRoute | crates/lunco-autopilot/src/usd_tree.rs:535-645 | the pass rewrites a top-level or directly nested sequence of coordinate legs and leaves every other tree alone |
| RouteExpansion.SmoothRouteIsThePath | crates/lunco-autopilot/src/usd_tree.rs:594-632 | a smooth route of three or more legs is the Catmull-Rom path of its control points woven with one hold list, open and closed |
| RouteExpansion.SmoothTargets | crates/lunco-autopilot/src/usd_tree.rs:594-632 | its drive targets are, in order, exactly the path that is drawn |
| RouteExpansion.SmoothWaits | crates/lunco-autopilot/src/usd_tree.rs:594-632 | every positive dwell gives exactly one wait, in order |
| RouteExpansion.ExpandedAsAsked | crates/lunco-autopilot/src/usd_tree.rs:535-645 | on the legs as they are written, for every route of coordinate legs: each positive `dwell` is one wait of that many seconds, in order; a smooth route of three or more legs drives the path at spacing two with arrival radius one and a half, any other one the points it names |
| RouteExpansion.CoordTargetIff | crates/lunco-autopilot/src/usd_tree.rs:508-521 | a target spells a point exactly if it is three texts with a semicolon between them that read as its coordinates |
| RouteExpansion.HoldsSitAtControlPoints | crates/lunco-autopilot/src/usd_tree.rs:594-632 | each hold stands at the sample that is its own control point, and nowhere else |
| RouteExpansion.StraightTakenApart | crates/lunco-autopilot/src/usd_tree.rs:633-640 | a route that is not smooth drives to its control points in order and holds as told |
| RouteBaking.BakeTargets | crates/lunco-autopilot/src/usd_tree.rs:657-708 | the walk computes the baked tree and reports something missing exactly when some path dangles at some depth |
| RouteBaking.BakedTargets | crates/lunco-autopilot/src/usd_tree.rs:657-708 | at every depth a target that stands for a position, a bound prim's or the one it spells, becomes that position as an array of three numbers; everything else stays |
| RouteBaking.NamesPrimIff | crates/lunco-autopilot/src/usd_tree.rs:657-708 | a baked tree still names a prim exactly when a path dangled: no tree that is let through drives to a name |
| RouteBaking.BakeTwice | crates/lunco-autopilot/src/usd_tree.rs:657-708 | baking is idempotent |
| RouteBaking.SmoothRouteDrivesThePath | crates/lunco-autopilot/src/usd_tree.rs:535-708 | expansion and baking together: the legs of a smooth route drive to the points of its path |
| RouteFrame.CompileVessel | crates/lunco-autopilot/src/usd_tree.rs:788-921 | one frame of one vessel: strip, expand, bake, read and install, in that order and with the source's ways out |
| RouteFrame.DerivedFromPositions | crates/lunco-autopilot/src/usd_tree.rs:797-848 | what a frame derives is read from a tree that names no prim, made from one without reached legs |
| RouteFrame.FrameDrivesTheUnreachedPath | crates/lunco-autopilot/src/usd_tree.rs:797-848 | the whole way for a smooth route, open or patrolled: the positions driven to are the Catmull-Rom path through the control points not yet reached |
| RouteCompiler.StripIdleIff | crates/lunco-autopilot/src/usd_tree.rs:424-448 | a tree is left alone exactly when no node at any depth has a reached leg; stripping is idempotent |
| RouteCompiler.StripLeavesNoneReached | crates/lunco-autopilot/src/usd_tree.rs:424-448 | no reached leg is left at any depth |
| RouteCompiler.StripKeepsTheRest | crates/lunco-autopilot/src/usd_tree.rs:424-448 | the children that stay are exactly those whose target is not reached, in their order, stripped in turn; every other field, item and scalar stays |
| RouteCompiler.VesselState.Compile | crates/lunco-autopilot/src/usd_tree.rs:788-921 | one frame moves the memory of the last derivation, the published spec and the pilot together |
| RouteCompiler.StoppedByDangling | crates/lunco-autopilot/src/usd_tree.rs:821-842 | a dangling target puts every engaged pilot that had not failed already on the brake, failed, and leaves a failed one as it was |
| RouteCompiler.NoLegUntilDerived | crates/lunco-autopilot/src/usd_tree.rs:821-921 | and over every run after that, until the next good derivation or a command, the vessel drives no leg of any route |
| RouteCompiler.ChangeStartsOver | crates/lunco-autopilot/src/usd_tree.rs:881-918 | a changed derivation that adds no legs at the end, and an engagement without a tree, start a running tree of the derivation at its first leg |
| RouteCompiler.PublishedIsDerived | crates/lunco-autopilot/src/usd_tree.rs:861-870 | over every run, what is published is what was derived last |
| RouteCompiler.AppendResumes | crates/lunco-autopilot/src/usd_tree.rs:714-742 | if the tree came from the last derivation, an append keeps the leg it was on; after completion it goes on with the first new leg |
| RouteCompiler.AppendKeepsLegIff | crates/lunco-autopilot/src/usd_tree.rs:886-912 | for any running tree, whoever installed it: an append keeps the leg being driven exactly when the new route has that very leg under that number; after completion it goes on with the first new leg |
| RouteCompiler.FollowsDerivationStays | crates/lunco-autopilot/src/usd_tree.rs:788-921 | over every run of frames of any kind, ticks and engagements without commands, the tree is of the derivation that is remembered |
| RouteCompiler.EveryAppendResumes | crates/lunco-autopilot/src/usd_tree.rs:881-912 | so every append in such a run resumes on the leg being driven, or after completion goes on with the first new leg |
| RouteCompiler.RecoversAfterDangling | crates/lunco-autopilot/src/usd_tree.rs:821-921 | whatever happens in between, the first good derivation after a dangling one puts the pilot back on a running tree |
| RouteCompiler.UnchangedFramesAreInvisible | crates/lunco-autopilot/src/usd_tree.rs:850-921 | as long as the derivation stays the same, a run with frames in it ends as the run without them, whatever trees commands install in between: a tree is replaced only when the derived spec changed, a target dangled or there was none |
| RouteAppend.WaypointKeepsLegsIff | crates/lunco-autopilot/src/usd_tree.rs:535-645 | a waypoint appended to an editor route is an append to its legs exactly when the route stays straight, or is smooth and the segments next to the new waypoint stay; turning smooth never is |
| RouteAppend.OpenAppendIff | crates/lunco-autopilot/src/usd_tree.rs:594-632 | an open smooth route: exactly when the last segment has a single sample or the new waypoint stands on the last one |
| RouteAppend.PatrolAppendIff | crates/lunco-autopilot/src/usd_tree.rs:594-632 | a smooth patrol: the first and the last but one segment too, and the way back to the start, which stays if it has a single sample |
| RouteAppend.WaypointResumesIff | crates/lunco-autopilot/src/usd_tree.rs:881-912 | the compiler then keeps the vessel on its leg, and otherwise rebuilds the tree from the start |
| VoidFill.FillDemVoids | crates/lunco-assets/src/process.rs:777-827 | in place: success exactly when every void can be filled, the filled heights are those of 64 passes, the count is the number of voids, and on failure the voids left are counted |
| VoidFill.FillPass | crates/lunco-assets/src/process.rs:782-814 | one pass over the holes, reading a snapshot, is the pure pass |
| VoidFill.FilledIsTheMean | crates/lunco-assets/src/process.rs:788-812 | a void that is filled holds the mean of the measured cells of its three-by-three block: the height times the number of those cells is their total, and a void whose block holds none stays one |
| VoidFill.FilledIffNear | crates/lunco-assets/src/process.rs:777-827 | after `k` passes a cell has a height exactly when a measured cell is within Chebyshev distance `k` |
| VoidFill.PassFillsRing | crates/lunco-assets/src/process.rs:777-827 | pass `k` fills exactly the cells at distance `k` |
| VoidFill.FullAfterIffFillable | crates/lunco-assets/src/process.rs:777-827 | filling succeeds exactly when every cell is within distance 64 of a measured one |
| VoidFill.HeightsStay | crates/lunco-assets/src/process.rs:777-827 | a height once there never changes |
| VoidFill.PassesBounded | crates/lunco-assets/src/process.rs:777-827 | filled heights stay between the smallest and largest measured one |
| TerrainBake.BoundsAreTight | crates/lunco-assets/src/process.rs:712-727 | a box is returned exactly when something was measured; it holds every measurement and is inside every box that does |
| TerrainBake.CropIsCentredIff | crates/lunco-assets/src/process.rs:946-984 | a centre inside the box gives the largest centred square inside it not above the request, and only such a centre is sure to |
| TerrainBake.RejectedIff | crates/lunco-assets/src/process.rs:841-858 | a crop is rejected exactly when more than one in twenty of its samples is void |
| TerrainBake.CollectRoiSamples | crates/lunco-assets/src/process.rs:736-750 | the two loops collect the rows of the crop |
| TerrainBake.RoiSampleAt | crates/lunco-assets/src/process.rs:736-750 | the samples collected are those of the crop that the raster holds, row by row, each once |
| TerrainBake.ResampleRoi | crates/lunco-assets/src/process.rs:992-1046 | the loops fill the output with the renormalised bilinear samples |
| TerrainBake.BilinearBounded | crates/lunco-assets/src/process.rs:992-1046 | every sample lies between the bounds of the crop whenever none of its four pixels is read from outside it: voids carry no weight and the rest is renormalised |
| TerrainBake.BilinearIdentity | crates/lunco-assets/src/process.rs:992-1046 | with equal input and output size the resample is the crop itself |
| TerrainSampling.SurfaceReproduced | crates/lunco-assets/src/process.rs:988-1046 | wherever the pixels around a position lie on a surface a + bx + cy + dxy, the sample is that surface's height there; some such surface goes through any four heights, so this settles every sample whose pixels are measured |
| TerrainSampling.VoidsHoldTheResult | crates/lunco-assets/src/process.rs:1009-1043 | voids are left out, not taken for heights: they count as if they held the result itself, which settles every sample that has a height |
| TerrainSampling.SampleIsVoidIff | crates/lunco-assets/src/process.rs:1009-1043 | a sample is void exactly when the measured pixels around it weigh no more than 1e-12 together |
| TerrainBake.ProcessDem | crates/lunco-assets/src/process.rs:542-618 | the composition succeeds exactly when there is data, enough of it, and the voids can be filled, and returns the filled resample |
| TerrainReach.KeepsRangeIff | crates/lunco-assets/src/process.rs:777-1046 | for every window, resolution and raster size: resampling and void filling keep the range of the crop, whatever the raster holds, exactly when no output sample is read from outside the crop |
| TerrainReach.CentreKeepsRangeIff | crates/lunco-assets/src/process.rs:946-1046 | in terms of centre, raster size and resolution, for every centre on or off the raster: near the raster exactly when the centre is at least one pixel away from the east edge, or there is a single output sample, or no row below the window's first; further off only with at most three samples, none of which may wrap into the buffer |
| TerrainReach.OwnColumnsKeep | crates/lunco-assets/src/process.rs:992-1046 | a window with only columns of the raster keeps the range, however far it reaches below the raster |
| TerrainReach.OverhangEscapes | crates/lunco-assets/src/process.rs:992-1046 | a window that overhangs the east edge, with a row below its first, does not: its last column is read from the start of the next row |
| TerrainReach.CropInRasterIff | crates/lunco-assets/src/process.rs:946-984 | the window lies in the raster exactly when the raster is three pixels wide and high and the centre at least one pixel away from its east and south edges |
| TerrainReach.OwnColumnsIff | crates/lunco-assets/src/process.rs:946-984 | it has only columns of the raster, and starts at one of its rows, exactly when the raster is three pixels wide, the centre one pixel away from its east edge and not below its south edge |
| TerrainReach.BakedElevationsWithinCrop | crates/lunco-assets/src/process.rs:542-618 | under that guard every elevation written is finite and lies between the smallest and largest measurement inside the crop |
| TerrainReach.AcceptedBakesKeepRangeIff | crates/lunco-assets/src/process.rs:542-618 | end to end, for every centre up to one pixel beyond the east and south edges and every resolution: accepted bakes stay within the bounds of their crop exactly under that condition; otherwise a raster flat inside the crop is accepted and baked with elevations from outside it |
| EntityRegistry.ApiEntityRegistry.Assign | crates/lunco-api/src/registry.rs:15-25 | assigning an id moves it to the entity and drops the old reverse entry |
| EntityRegistry.ApiEntityRegistry.Remove | crates/lunco-api/src/registry.rs:27-39 | removing an entity drops its id only if the id still points at it |
| EntityRegistry.ApiEntityRegistry.Sync | crates/lunco-api/src/registry.rs:58-73 | removals first, additions second, in the order the events list them |
| EntityRegistry.ReachedIsSound | crates/lunco-api/src/registry.rs:15-39 | in every registry that can be reached, the id of an entity leads back to it |
| EntityRegistry.LateRemoveKeepsReplacement | crates/lunco-api/src/registry.rs:27-39 | the late removal of the entity a reload replaced does not disturb its replacement |
| EntityRegistry.AssignKeepsInverseIff | crates/lunco-api/src/registry.rs:15-25 | one assignment to an index that mirrors the world keeps its two maps inverse exactly when the entity had no other id |
| EntityRegistry.SyncMirrorsIff | crates/lunco-api/src/registry.rs:58-73 | one sync carries the mirror over, in whatever order additions are listed, exactly when ids changed only by being lost and gained |
| EntityRegistry.EverySyncMirrorsIff | crates/lunco-api/src/registry.rs:58-73 | over every history of spawns, despawns, reloads and overwrites: an id resolves to an entity exactly when it is live under it, after every sync, if and only if ids changed only by being lost and gained |
| EntityIdWalk.ConvertNode | crates/lunco-api/src/executor.rs:389-519 | the walk over struct, tuple, list, map and enum schemas is the map over the entity positions |
| EntityIdWalk.ConvertFields | crates/lunco-api/src/executor.rs:414-425 | the loop over a struct's fields rewrites each named child once |
| EntityIdWalk.ConvertEnum | crates/lunco-api/src/executor.rs:474-516 | only the payload under an enum object's first key is rewritten |
| EntityIdLaws.TouchesExactlyTheLeaves | crates/lunco-api/src/executor.rs:389-519 | every entity position is rewritten; every position outside one keeps its scalar, its keys or its length |
| EntityIdMeaning.LeafAtIff | crates/lunco-api/src/executor.rs:389-519 | where the entities are, read off the type declarations alone: struct and variant fields, tuple positions, list items, map values as object or pairs, one-field payloads, wrappers as what they wrap |
| EntityIdMeaning.GlobalizedAt | crates/lunco-api/src/executor.rs:540-553 | at every entity position of a command, in terms of the index's map: the bits of a known entity become its id, a local field the placeholder, anything else stays |
| EntityIdMeaning.ResolvedAt | crates/lunco-api/src/executor.rs:528-539 | a known wire id, as a number or as decimal text with or without leading zeros, becomes the bits of its entity, anything else stays |
| EntityIdMeaning.HeldOnce | crates/lunco-api/src/executor.rs:529-532 | a value stands for one wire id at most |
| EntityIdLaws.UnchangedIff | crates/lunco-api/src/executor.rs:389-556 | a command comes through a rewriting unchanged exactly when each entity in it does |
| EntityIdLaws.TwoPasses | crates/lunco-api/src/executor.rs:389-556 | two rewritings are one: the first moves no entity position |
| EntityIdLaws.RoundTripIff | crates/lunco-api/src/executor.rs:330-350 | globalize then resolve restores a command exactly when every entity in it is registered, or resolves to itself, and none that is local is overwritten |
| EntityIdLaws.RegisteredCommandRestored | crates/lunco-api/src/executor.rs:330-350 | on every registry that can be reached, a command whose entities are all registered and not local is restored |
| EntityIdLaws.LocalFieldsStayHomeIff | crates/lunco-api/src/executor.rs:389-547 | an entity leaves as the placeholder, whatever it held, exactly when the path to it enters a field tagged local and from there leads through one-field enum payloads only; any other one, also inside a tagged field, leaves as if there were no tag |
| EntityIdLaws.TaggedWrapperLeaks | crates/lunco-api/src/executor.rs:426-449 | so a tagged wrapper or list of entities leaves with its local bits |
| EntityIdLaws.WrapperAgreesIff | crates/lunco-api/src/executor.rs:426-449 | a wrapper is walked like what it wraps, for any inner type, registered or not, the entity included, and any value and rule, exactly when the value is no array or its elements are treated alike under both |
| EntityIdLaws.EntityWrapperIff | crates/lunco-api/src/executor.rs:426-449 | around the entity itself: under every rule exactly for values that are no array, under the source's own rules exactly if a first element is left alone |
| EntityIdLaws.EntityListWrapperIff | crates/lunco-api/src/executor.rs:426-457 | around a list or array of entities, under every rule: exactly for values that are no array or an empty one |
| EntityIdLaws.EntityTupleWrapperIff | crates/lunco-api/src/executor.rs:426-434 | around a tuple struct that starts with an entity: the same |
| EntityIdLaws.EntityMapWrapperIff | crates/lunco-api/src/executor.rs:458-473 | around a map of entities no value is rewritten: they agree under a rule that fixes every value, and under every rule for the empty map |
| EntityIdLaws.ListWrapperFixedIff | crates/lunco-api/src/executor.rs:426-457 | around a list, for a given rule: exactly when the rule fixes every item |
| ApiProtocol.Bridged.Route | crates/lunco-api/src/lib.rs:326-341 | every waiting message gets the next id, a pending entry and a queued request |
| ApiProtocol.Bridged.OnResponse | crates/lunco-api/src/lib.rs:345-356 | a response resolves the pending entry of its id, once, and settles its debt |
| ApiProtocol.Bridged.ExpireDeferred | crates/lunco-api/src/executor.rs:839-871 | exactly the debts whose deadline has passed are removed and answered with an error |
| ApiProtocol.Bridged.ApplyFirst | crates/lunco-api/src/executor.rs:70-115 | applying the first queued command, children first |
| ApiProtocol.AbsentIsEmpty | crates/lunco-api/src/executor.rs:163-168 | a command without parameters is validated and dispatched as one with an empty object |
| ApiProtocol.ToldIff | crates/lunco-api/src/executor.rs:576-676 | what a request that does not answer later is told at once, case by case: unknown or hidden, a query, invalid, or accepted and triggered |
| ApiProtocol.ObservedInAnyOrder | crates/lunco-api/src/executor.rs:227-297 | any number of other observers' acts may come ahead of the dispatcher |
| ApiProtocol.TelemetryId | crates/lunco-api/src/subscription.rs:207-211 | telemetry ids have the top bit set |
| ApiProtocolRuns.RepliedAtMostOnce | crates/lunco-api/src/lib.rs:326-356 | over every run, each bridged request is waiting or was answered exactly once |
| ApiProtocolRuns.TelemetryNeverReplies | crates/lunco-api/src/subscription.rs:17 | no telemetry packet resolves a request, as long as the router has not counted into the telemetry ids |
| ApiProtocolRuns.PacketRepliesBeyond | crates/lunco-api/src/subscription.rs:207-211 | that bound is sharp: a run from the start in which the router counts to the first telemetry id and a packet is the reply |
| ApiProtocolRuns.QuietPendingIsOwed | crates/lunco-api/src/executor.rs:588-641 | whenever the queue has run dry, every request still waiting has a deadline |
| ApiProtocolRuns.AnsweredByTick | crates/lunco-api/src/executor.rs:829-871 | a waiting request whose deadline has passed is answered, once, by the next tick, whatever its handler did or failed to do |
| ApiProtocolRuns.AnsweredWithinTimeout | crates/lunco-api/src/executor.rs:588-610 | over every run: what waits when the queue has run dry is answered once the timeout has elapsed, a tick later |
| ApiProtocolRuns.OrdinaryAnsweredWhenQuiet | crates/lunco-api/src/executor.rs:561-736 | every request but a deferred one has its answer by the time the queue has run dry |
| ApiProtocolRuns.TriggerFindsOwnId | crates/lunco-api/src/executor.rs:588-610 | in every interleaving a deferred command is triggered with its own request's id pending |
| ApiProtocolDispatch.HandlerReadsOwnIdIff | crates/lunco-api/src/executor.rs:191-297 | whatever order observers run in: its handler finds that id, unless the handler of another command, triggered by an observer ahead of the dispatcher, has run meanwhile; then it finds none |
| ApiProtocolDispatch.OvertakenHandlerReadsNone | crates/lunco-api/src/executor.rs:286-295 | and it can come to that |
| ApiProtocolDispatch.PendingIdClearedIff | crates/lunco-api/src/executor.rs:191-297 | for every deferred request, queue and interleaving: when nothing is left of what it led to, the pending id is gone exactly when some handler ran, the request's own did if its command could be built, and without other commands only then |
| ApiProtocolDispatch.SilentDispatchSettles | crates/lunco-api/src/executor.rs:588-610 | such a moment comes |
| ApiProtocolDispatch.LeftIdIsInherited | crates/lunco-api/src/executor.rs:286-295 | a command triggered in-process then answers the request whose id was left behind |
| ApiProtocolDispatch.AcceptedIffRuns | crates/lunco-api/src/executor.rs:155-297 | gate and dispatcher validate at three moments; whatever runs in between, observers ahead of the dispatcher included, a command that does not answer later is acknowledged exactly when its handler is going to run, on the parameters that were validated |
| TelemetryRates.TelemetrySubscriptions.ShouldSendSample | crates/lunco-api/src/subscription.rs:146-181 | the loop sends a sample exactly when it is due, and marks it |
| TelemetryRates.TelemetrySubscriptions.Unsubscribe | crates/lunco-api/src/subscription.rs:100-103 | the subscription goes, and with the last one all marks |
| TelemetryRates.TelemetrySubscriptions.ReleaseSession | crates/lunco-api/src/subscription.rs:116-125 | exactly the session's subscriptions go; the local session is never released |
| TelemetryRates.TelemetrySubscriptions.NextCorrelationId | crates/lunco-api/src/subscription.rs:207-211 | packet ids are apart from request ids |
| TelemetryRates.Fastest | crates/lunco-api/src/subscription.rs:151-165 | the rate that counts is the largest one a matching, limited subscription asked for |
| TelemetryRates.SentOnlyIfAsked | crates/lunco-api/src/subscription.rs:146-194 | a sample nobody named is never sent, and the first one on a channel is sent exactly when somebody named it or listens to everything |
| TelemetryRates.DroppedIff | crates/lunco-api/src/subscription.rs:146-175 | a sample somebody asked for is dropped exactly when its channel spoke before and that is too recent for every single one who asked: whoever asks for no rate, or for a senseless one, makes it go out |
| TelemetryRates.DeliveriesAreSpaced | crates/lunco-api/src/subscription.rs:146-181 | delivered samples of a limited channel are at least one period of the fastest rate apart |
| TelemetryRates.DropsAreCloseIff | crates/lunco-api/src/subscription.rs:146-181 | a sample is dropped exactly when all listeners are limited and one of its own channel went out less than a period before |
| TelemetryRates.ChannelsAreIndependent | crates/lunco-api/src/subscription.rs:146-181 | traffic on other channels never changes what a channel delivers |
| TelemetryRates.SentAsIfAlone | crates/lunco-api/src/subscription.rs:146-181 | sample by sample: each one is sent exactly when it would be if its channel had spoken alone |
| TelemetryRates.NewcomerDroppedIff | crates/lunco-api/src/subscription.rs:129-181 | the first sample a new subscriber listens for is dropped exactly when somebody else stayed, it asks for a limit, nobody with it takes everything, and the channel's mark, whoever left it, is recent |
| TelemetryRates.ThrottledByTheDeparted | crates/lunco-api/src/subscription.rs:129-181 | in particular by the mark of a subscriber that has left |
| TelemetryRates.FirstSampleAfterUnsubscribe | crates/lunco-api/src/subscription.rs:100-181 | so the registry behaves when a subscriber leaves |
| TelemetryRates.FirstSampleAfterRelease | crates/lunco-api/src/subscription.rs:116-181 | and when a session is released |
| Datasets.DatasetRegistry.RegisterScoped | crates/lunco-assets/src/datasets.rs:328-395 | a manifest adds a row and a fresh handle per key the scope does not declare yet, reports the others, and reports a manifest that does not parse |
| Datasets.ManifestIsDeclared | crates/lunco-assets/src/datasets.rs:328-395 | whatever other scopes declare, the scope ends with a row for each key of its manifest; what was there stays, and each row of the manifest is a new entry or is reported |
| Datasets.DatasetRegistry.ForgetScope | crates/lunco-assets/src/datasets.rs:427-437 | deleting in place keeps exactly the rows of other scopes, with their handles |
| Datasets.DatasetRegistry.Request | crates/lunco-assets/src/datasets.rs:503-530 | a missing or failed dataset starts an attempt on a fresh handle; otherwise nothing changes |
| Datasets.DatasetRegistry.Cancel | crates/lunco-assets/src/datasets.rs:541-555 | the running attempt is flagged and its handle replaced, the row is failed at once |
| Datasets.DatasetRegistry.RefreshInstalledState | crates/lunco-assets/src/datasets.rs:441-454 | rows take over what is on disk, except while downloading; a failure is remembered |
| Datasets.RefreshShowsDisk | crates/lunco-assets/src/datasets.rs:441-454 | afterwards a row is shown as installed exactly when its artifact is there and it is not being downloaded, and as missing exactly when it is not there and was neither downloading nor failed |
| Datasets.DatasetRegistry.Drain | crates/lunco-assets/src/datasets.rs:759-800 | while anything downloads, every row takes what its handle reports, and every failure is published |
| Datasets.ForgottenIsAligned | crates/lunco-assets/src/datasets.rs:427-437 | rows and handles stay paired |
| DatasetRuns.DownloadingIsOwed | crates/lunco-assets/src/datasets.rs:586-710 | in every interleaving, a row shown as downloading has a live task on its own handle or a verdict waiting there |
| DatasetRuns.NextStaysHealthy | crates/lunco-assets/src/datasets.rs:277-710 | every step of every task, of the user and of the drain keeps that, and keeps handles unique |
| DatasetRuns.AbandonedForGood | crates/lunco-assets/src/datasets.rs:277-288 | a handle that was replaced or forgotten is never taken up again |
| DatasetRuns.AbandonedTasksNeverShow | crates/lunco-assets/src/datasets.rs:268-288 | whatever abandoned tasks write, every run looks like one in which they wrote nothing |
| DatasetRuns.DrainSettles | crates/lunco-assets/src/datasets.rs:759-800 | once the fetch is gone, the next drain shows its verdict: downloading is not sticky |
| DatasetRuns.DrainTakesReports | crates/lunco-assets/src/datasets.rs:759-800 | a drain takes every report off the registry's handles and nothing else: a second one changes nothing and publishes no failure again |
| DatasetRuns.OverruledIff | crates/lunco-assets/src/datasets.rs:615-660 | a concluded verdict can be overwritten exactly when the watchdog had made up its mind and not yet said so |
| DatasetRuns.InstalledReportedStalled | crates/lunco-assets/src/datasets.rs:615-709 | a run in which an installed dataset is about to be reported as stalled |
| DatasetRuns.KeysStayUnique | crates/lunco-assets/src/datasets.rs:349-365 | no scope ever declares a key twice |
| DatasetShadows.DownloadableIff | crates/lunco-assets/src/datasets.rs:503-555 | two scopes may share a key, but over all runs that keep the scopes in front of it open, a dataset can come to be downloaded exactly when no earlier row has its key |
| DatasetShadows.ShadowedNeverDownloads | crates/lunco-assets/src/datasets.rs:503-555 | while the scope that declared the key first stays open, the other one's dataset is never downloaded, whatever runs and however often it is declared again |
| DatasetShadows.DeclaredSecondIsShadowed | crates/lunco-assets/src/datasets.rs:328-395 | that is so from the moment the second declares it |
| AssetPaths.NormalizeLoop | crates/lunco-assets/src/asset_path.rs:46-62 | the loop that pushes and pops computes the normal form |
| AssetPaths.NormalIff | crates/lunco-assets/src/asset_path.rs:46-62 | a path is its own normal form exactly when every `..` is an unmatched prefix; normalising is idempotent |
| AssetPaths.NormalWalksAlike | crates/lunco-assets/src/asset_path.rs:46-62 | the normal form leads to the directory the path leads to, from every directory of every tree without links |
| AssetPaths.SameFormIff | crates/lunco-assets/src/asset_path.rs:46-62 | two spellings have one normal form exactly when they lead to the same place in every tree |
| AssetPathMeaning.SameSpellingIff | crates/lunco-assets/src/asset_path.rs:46-71 | two written paths have one normal spelling exactly when both or neither start at the root and their raw pieces lead to the same place in every tree |
| AssetPaths.ParseRender | crates/lunco-assets/src/asset_path.rs:46-71 | writing a path and reading it again changes nothing |
| AssetPaths.AnchoredIgnoresAnchor | crates/lunco-assets/src/asset_path.rs:169-173 | an anchored reference means the same in every document |
| AssetPathMeaning.RelativeWalksFromDocument | crates/lunco-assets/src/asset_path.rs:169-189 | on the texts as they are written: a relative reference keeps its document's scheme and, in normal spelling, leads in every tree where its own pieces lead from the document's directory |
| AssetPathMeaning.RootLeadsAlike | crates/lunco-assets/src/asset_path.rs:199-206 | a bare root reference keeps leading where its own pieces lead, in normal spelling: no piece is empty or `.`, and `..` stands only in front |
| AssetPathMeaning.SplitSchemeIff | crates/lunco-assets/src/asset_path.rs:208-221 | a scheme is split off exactly at the first mark |
| AssetPaths.SchemedIsCanonicalIff | crates/lunco-assets/src/asset_path.rs:169-189 | what was resolved under a scheme resolves to itself in any document, exactly when the scheme holds no backslash |
| AssetPaths.RootIsCanonicalIff | crates/lunco-assets/src/asset_path.rs:199-206 | naming a root is idempotent exactly when the reference does not start with two slashes or has a scheme |
| AssetPaths.SplitIsFirst | crates/lunco-assets/src/asset_path.rs:214-221 | a scheme that was split off can be put in front of anything and is split off again |
| AssetPaths.RelativePathLoop | crates/lunco-assets/src/asset_path.rs:80-104 | the loop over the segments accepts and rejects as specified |
| AssetPaths.AcceptedIsSafe | crates/lunco-assets/src/asset_path.rs:80-132 | every accepted relative path is safe to join to a root as written, and in normal form |
| AssetPaths.AcceptedIff | crates/lunco-assets/src/asset_path.rs:80-104 | a reference is accepted exactly when it does not start with a slash, no segment is `..` or holds a colon or a NUL, and some segment names something |
| AssetPathMeaning.AcceptedLeadsAlike | crates/lunco-assets/src/asset_path.rs:80-104 | on the raw pieces: which references are accepted, and that what one is accepted as leads where the reference leads |
| AssetPathMeaning.SafeIff | crates/lunco-assets/src/asset_path.rs:113-133 | a path is safe exactly when it holds no backslash, no piece is empty, `.` or `..`, and it starts with no drive letter |
| AssetPaths.NamesItselfIff | crates/lunco-assets/src/asset_path.rs:80-132 | a spelling is accepted and names itself exactly when it is safe and holds neither colon nor NUL |
| FileClosure.TransitiveFileClosure | crates/lunco-assets/src/closure.rs:35-69 | the worklist ends, over any disk with finitely many documents, with the least set that holds the roots and is closed under references |
| FileClosure.AnyOrderClosure | crates/lunco-assets/src/closure.rs:35-69 | so does taking any queued path next |
| FileClosure.ClosureIsUnique | crates/lunco-assets/src/closure.rs:35-69 | hence the order does not matter |
| FileClosure.ClosureIsNormal | crates/lunco-assets/src/closure.rs:35-69 | every file is listed under its normal form |
| FileClosure.ClosureIsNamed | crates/lunco-assets/src/closure.rs:35-69 | the closure holds the roots and a file for every declared reference, relative ones led to from the directory of the file that declares them, and no file but the roots and what its files name |
| FileClosure.ReadTargets | crates/lunco-assets/src/closure.rs:47-66 | what one file leads to: nothing unless it is a document that can be read |
| TwinRoots.Roots.Register | crates/lunco-assets/src/twin_source.rs:123-156 | the loop gives out the first candidate name that is free or already stands for the folder |
| TwinRoots.AssignedNameIs | crates/lunco-assets/src/twin_source.rs:123-156 | the requested name unless it stands for another folder, else the first of `name-2`, `name-3` and so on that does not |
| TwinRoots.SomeNameIsOpen | crates/lunco-assets/src/twin_source.rs:133-146 | the suffix search ends: more candidates than open Twins cannot all be taken |
| TwinRoots.NamesStay | crates/lunco-assets/src/twin_source.rs:104-156 | over every run, a name once given out never stands for a different folder |
| TwinRoots.ReopenedUnderItsName | crates/lunco-assets/src/twin_source.rs:104-156 | over every run, the same name and folder get the same assigned name again |
| TwinRoots.TwinUriRoundTripIff | crates/lunco-assets/src/twin_source.rs:52-73 | an address is taken apart into what it was built from exactly when the name holds no separator |
| TwinRoots.TwinUriIs | crates/lunco-assets/src/twin_source.rs:52-60 | an address is scheme, name and path; separators in front of the path make no difference, and without them it is the path as it was but for backslashes |

## Left out

- XML tokenising, end-tag matching and text printing: XML is a sequence of start, empty and end events with attribute strings; line ends outside attributes and character data are not modelled.
- JSON text: printing and parsing are parameters that invert each other, and the order in which an object is iterated is a parameter that lists every key once. Every theorem holds for all such parameters.
- Floating point: numbers are exact decimals whose text reads back, heights and coordinates exact reals with missing values as a case of their own; segment lengths are a non-negative function; counts above 2^53 are outside the canonical trees.
- Decimals.MsecRoundTrip: the source scales and rounds doubles; the model scales exact decimals.
- A port named `__subtree`: a leaf that carries one is read as a reference; such leaves are not canonical.
- BehaviorXmlRoundTrip.RoundTrip: attributes that an element of the table does not name are dropped by an import, so a tree that carries them is not canonical and its round trip is not claimed; nor is it asked that kinds and port names be XML names, so for other names the events round-trip but the written text would not be well formed.
- RouteExpansion.SmoothTargets: speed and radius that a coordinate leg carried are dropped by the rebuild, so only targets and holds are stated.
- RouteAppend.WaypointResumesIff: how a leg is baked and read is one function that tells legs apart, and the coordinates of the segments compared read back as written.
- TerrainReach.CentreKeepsRangeIff: rasters narrower than three pixels, where even the smallest window wraps more than once, are covered by TerrainReach.KeepsRangeIff only.
- BehaviorXmlDocuments.ReExport: documents are a `<root>` around `<BehaviorTree>`s of one element each, with no container inside; of elements with a row, which attributes survive is not claimed.
- RouteFrame.CompileVessel: the imported tree and how a tree is read as a spec are parameters; how a running tree ticks is left open, and an install is known by the spec and the leg it starts on.
- RouteCompiler.StripIdleIff: whether a reached path matches a target is a parameter.
- RouteFrame.FrameDrivesTheUnreachedPath: like RouteBaking.SmoothRouteDrivesThePath it assumes of each point of the path that its coordinates read back as written.
- Leg editors of the route, the target listing and the waypoint helpers: single edits of one field.
- The centre pixel of a terrain crop is given; the geographic lookup, its error messages, the percentile stretch, normal maps, gamma and every raster codec are left out.
- PDS3 labels and sample decoding: field parsing and a bounds check, no property across operations.
- Bake keys, stamps, output paths, symbolic links, HTTP, retries, hashing and the browser build: plumbing.
- EntityIdWalk.ConvertNode: the source rewrites the JSON value in place; the model returns the rewritten value.
- EntityRegistry.EverySyncMirrorsIff: what the engine reports of id components is taken as: an overwrite in place is neither an addition nor a removal.
- EntityIds.Reflection: reflection is a type schema; sets, plain tuples and opaque types hold no entity, as in the source.
- ApiProtocol.Bridged.ApplyFirst: the engine's scheduler is reduced to one queue, applied children first, with systems that queue at its back; the response text is a label, and the telemetry event that mirrors each dispatched command is part of what foreign code may emit.
- ApiProtocolRuns.AnsweredWithinTimeout: says nothing of a queue that never runs dry.
- ApiProtocolDispatch.AcceptedIffRuns: whether parameters deserialize and whether a type can be built from them are functions of name and resolved parameters; the type registry itself does not change, and the entity registry's system does not run while the queue is being applied.
- ApiProtocolRuns.TelemetryNeverReplies: the router's counter is unbounded in the model; the source's wraps at 2^64.
- Authorisation targets, schema discovery and entity listings: one-branch projections.
- TelemetryRates.DeliveriesAreSpaced: holds while the subscriptions stay the same; samples are taken in time order; severities matter only to events, not to samples.
- Datasets.DatasetRegistry.RegisterScoped: a manifest is its rows in key order or a parse error; whether an artifact is on disk is a parameter.
- DatasetRuns.AbandonedTasksNeverShow: a task's bytes still land on disk; only what the registry shows is claimed.
- AssetPathMeaning.RelativeWalksFromDocument: paths are read as a Unix host reads them; trees have no links.
- TwinRoots.Roots.Register: the filesystem's resolution of a folder is a fixed function; overlays and the reader's own path checks are left out.
