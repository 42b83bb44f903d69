# A verified model of the connectivity analyser's core

The analyser decides every question about a cluster's connectivity (are two configurations equivalent, does one
contain the other, which firewall rules describe it) with set algebra on n-dimensional sets of connections. This
project models that algebra and the algorithms built on it in Dafny, and proves what the code promises about them.

## What is modelled

**Interval sets** (`Intervals`). A canonical interval set is a sorted list of intervals that neither overlap nor touch.
The class `CanonicalIntervalSet` updates the list in place with the two binary searches of the source.
`IpAddresses` is the same code over IP addresses, whose plus and minus saturate, and shows that it does on addresses
what it does on integer indices. `PeerIndices` is the translation between sets of peers and index sets.

**Hyper-cube sets** (`CubeTrees`, `NormalForm`, `CubeCells`, `CubeMerge`, `CubeOps`, `CubeDims`, `CubeReduce`,
`CubeContain`, `CubePrefix`, `CubeList`, `HyperCube`). A set of points is a tree of layers: every node maps disjoint
interval sets of one active dimension to sub-trees over the remaining ones. `Holds` is the meaning of a tree, `Canon`
its canonical form at every depth, `Reduced` the minimality of its active dimensions. The recursive operators are
methods over trees with the nested loops and shrinking remainders of the source; the class `HyperCubeSet` has the
fields `layers` and `active` and the in-place operators. The main theorem is `EqualIffSamePoints`: the representation
is unique, even for sets that different operations made, so that structural equality decides equality of the points.
`ConnProps` adds the operations on connectivity properties: reordering the dimensions, minimizing and projecting.

**Firewall rules** (`Peers`, `FWRules`, `LabelGrouping`, `PairGrouping`, `MinimizeCs`, `MinimizeCsFwRules`,
`MinimizeFWRules`). The minimizer groups pairs of peers by namespace, IP block and label. Its fields are those of the
source; every stage states exactly which pairs it takes from those that wait. The end result is that the rules of a
set of connections differ from it in nothing but connections of a pod to itself, which is what the debug check asks,
and that they are compact: whole namespaces are said as such wherever the connections of all their pods allow it, any
other pair by the first stage that can say it, and what is left by the fewest cubes.

**Policy layers** (`NetworkLayer`). Policies are folded with first-match priority and the two directions are combined.

**Selectors** (`SelectorText`, `Selector`, `SelectorMeaning`, `SelectorErrors`). Evaluating the text of a Calico
selector, by counting brackets and splitting, gives the boolean meaning of the expression, whatever redundant brackets
and spaces it has; a text that is not the text of an expression is an error. In namespace selectors this holds for
global peers with one exception, which is part of the meaning: a negation selects them only if it mentions `global()`.

**Drawing and paths** (`ConnectivityGraph`, `PathSplitter`). The greedy biclique loop and the joining of opposite edges;
the longest-match splitting of Ingress paths.

## Where the code does not do what it promises

Each of these is stated as an exact condition:

* `-=` and `add_hole` on an empty set with few active dimensions can leave an object that looks non-empty
  (`HyperCubeSet.ISub`, `HyperCubeSet.AddHole`, `EmptyMinusExample`).
* Reordering the dimensions of the entire space ends in an index error (`ReorderByDimList`), so switching source and
  destination and minimizing do too.
* Projecting an empty set on an inactive dimension gives the whole domain (`ProjectOnOneDimension`).
* An index behind the last registered peer is read as the last peer, and is an error if there is none
  (`IndicesRoundTrip`).
* Joining opposite edges loses self-loops (`ThereAndBack`).
* A Prefix path written with two slashes at its end can overlap an Exact path, and repeated Exact paths overlap each
  other (`DisjointIffNoOverlap`, `LongestMatch`, `ClashNeedsTwoSlashes`).
* Prefix paths that are equal up to a final slash, such as `/a` and `/a/`, become equal entries (`ParsedEqual`), and
  equal Prefix entries take everything from each other (`DuplicatesLost`, `TrailingSlashExample`). All requests are kept
  exactly if each repeated Prefix path does not end with a slash and has the same path with a slash beside it
  (`UnionKept`).
* In namespace selectors De Morgan's law fails for global peers (`DeMorgan`).

In `_contained_in_aux` the test whether all remaining dimensions are the left set's own
(nca/CoreDS/CanonicalHyperCubeSet.py:497) never succeeds: in that branch the right set is not empty, so a dimension of
it remains. The model keeps the branch.

## Model

| member | source | states |
|---|---|---|
| Intervals.Interval.And | nca/CoreDS/CanonicalIntervalSet.py:158-163 | at most one interval, holding exactly the common values |
| Intervals.Interval.Sub | nca/CoreDS/CanonicalIntervalSet.py:176-186 | at most two intervals, canonical as a list, holding exactly the values of the first that are not in the second |
| Intervals.Unique | nca/CoreDS/CanonicalIntervalSet.py:21-24 | canonical lists with the same values are the same list, so list equality decides set equality |
| Intervals.CanonicalIntervalSet.FindIntervalLeft | nca/CoreDS/CanonicalIntervalSet.py:229-253 | the search ends and returns the last interval that is lower without touching; every interval behind it is not |
| Intervals.CanonicalIntervalSet.FindIntervalRight | nca/CoreDS/CanonicalIntervalSet.py:255-279 | the search returns the first interval that is higher without touching, and -1 only if there is none |
| Intervals.AddAt | nca/CoreDS/CanonicalIntervalSet.py:293-323 | the list update of add_interval keeps the list canonical and adds exactly the new values, in each of its four branches |
| Intervals.CanonicalIntervalSet.AddInterval | nca/CoreDS/CanonicalIntervalSet.py:281-323 | the list stays canonical and gains exactly the values of the interval |
| Intervals.CanonicalIntervalSet.AddHole | nca/CoreDS/CanonicalIntervalSet.py:325-334 | the list stays canonical and loses exactly the values of the hole |
| Intervals.CanonicalIntervalSet.IAnd | nca/CoreDS/CanonicalIntervalSet.py:70-76 | pairwise intersections in order form the canonical list of the intersection |
| Intervals.CanonicalIntervalSet.IOr | nca/CoreDS/CanonicalIntervalSet.py:78-81 | the canonical list of the union |
| Intervals.CanonicalIntervalSet.ISub | nca/CoreDS/CanonicalIntervalSet.py:83-86 | the canonical list of the difference |
| Intervals.CoveredByOne | nca/CoreDS/CanonicalIntervalSet.py:106-112 | an interval inside a canonical set lies inside one of its intervals, which is why one candidate is enough |
| Intervals.CanonicalIntervalSet.ContainedIn | nca/CoreDS/CanonicalIntervalSet.py:98-113 | true exactly if every value is in the other set, though only one candidate interval is looked at |
| IpAddresses.OrderIsIndexOrder | nca/CoreDS/Peer.py:207-236 | the order of addresses, with all of IPv4 below all of IPv6, is the order of their indices |
| IpAddresses.SaturationHarmless | nca/CoreDS/Peer.py:238-254 | an addition or subtraction that stays in place at the end of a version never changes the outcome of a comparison the interval code makes |
| IpAddresses.NeverAcrossVersions | nca/CoreDS/Peer.py:193-254 | ranges of different versions neither overlap nor touch, so they never merge |
| IpAddresses.SameSub | nca/CoreDS/CanonicalIntervalSet.py:176-186 | subtracting address ranges is subtracting their index intervals, and every piece stays within one version |
| IpAddresses.SameAddAt | nca/CoreDS/CanonicalIntervalSet.py:293-323 | the list update of add_interval over addresses is the one over indices |
| IpAddresses.IpBlock.FindIntervalLeft | nca/CoreDS/CanonicalIntervalSet.py:229-253 | the same search over addresses, with saturating minus one |
| IpAddresses.IpBlock.FindIntervalRight | nca/CoreDS/CanonicalIntervalSet.py:255-279 | the same search over addresses, with saturating plus one |
| IpAddresses.IpBlock.AddInterval | nca/CoreDS/CanonicalIntervalSet.py:281-323 | over addresses: the list stays canonical, each range keeps to one version, and exactly the new addresses are added |
| IpAddresses.IpBlock.AddHole | nca/CoreDS/CanonicalIntervalSet.py:325-334 | over addresses: exactly the addresses of the hole are removed |
| PeerIndices.OneRegion | nca/CoreDS/Peer.py:706-715 | thanks to the gaps no interval of indices spans two of the regions IPv4, IPv6 and pods |
| PeerIndices.BasePeerSet.AddPeer | nca/CoreDS/Peer.py:721-729 | registers a peer once, unless it is an IP block; map and list stay inverse to each other and no index changes |
| PeerIndices.BasePeerSet.GetPeerIntervalOf | nca/CoreDS/Peer.py:731-754 | the interval set holds exactly the indices of the addresses and of the registered peers |
| PeerIndices.BasePeerSet.GetPeerSetByIndices | nca/CoreDS/Peer.py:756-787 | blocks in canonical form (none empty, each of one version, no two of the same), exactly the addresses of the indices, and the peers the pod indices are clamped to; an error exactly if there is a pod index but no peer |
| PeerIndices.BasePeerSet.PeersRoundTrip | nca/CoreDS/Peer.py:731-787 | peers to indices and back gives the same peers and the same addresses, with the blocks in canonical form; a set whose blocks are in that form comes back as it is |
| PeerIndices.BlocksUnique | nca/CoreDS/Peer.py:731-787 | blocks in canonical form are determined by their addresses |
| PeerIndices.BasePeerSet.IndicesRoundTrip | nca/CoreDS/Peer.py:731-787 | indices to peers and back is the identity exactly if every pod index is registered; any other comes back as the last peer, or is an error if there is none |
| CubeTrees.UniqueTree | nca/CoreDS/CanonicalHyperCubeSet.py:25-31 | two canonical trees over the same active dimensions with the same points are the same tree |
| CubeTrees.Witness | nca/CoreDS/CanonicalHyperCubeSet.py:31-36 | a canonical tree that is not empty has a point |
| NormalForm.FullIsFree | nca/CoreDS/CanonicalHyperCubeSet.py:826-842 | if every layer of a dimension allows the whole domain, membership does not depend on that dimension |
| NormalForm.FreeIsFull | nca/CoreDS/CanonicalHyperCubeSet.py:826-842 | and the other way round, in a canonical tree |
| NormalForm.ActiveIffNeeded | nca/CoreDS/CanonicalHyperCubeSet.py:33-35 | in a reduced set a dimension is active exactly if the set of points depends on it |
| NormalForm.EqualIffSamePoints | nca/CoreDS/CanonicalHyperCubeSet.py:58-66 | two reduced canonical sets have the same active dimensions and the same layers exactly if they have the same points |
| CubeMerge.MergeEqual | nca/CoreDS/CanonicalHyperCubeSet.py:844-861 | merges exactly the layers with equal sub-cubes |
| CubeMerge.MergedCanon | nca/CoreDS/CanonicalHyperCubeSet.py:844-861 | merging re-establishes the canonical form and keeps the points |
| CubeOps.AndAux | nca/CoreDS/CanonicalHyperCubeSet.py:274-302 | canonical, with exactly the common points |
| CubeOps.OrAux | nca/CoreDS/CanonicalHyperCubeSet.py:325-359 | canonical, with exactly the points of either |
| CubeOps.SubAux | nca/CoreDS/CanonicalHyperCubeSet.py:378-408 | canonical, with exactly the points of the left set that are not in the right one; also for the stump that widening an empty set leaves |
| CubeDims.CubeTreeHolds | nca/CoreDS/CanonicalHyperCubeSet.py:92-108 | the tree made from a cube holds exactly the points of the cube |
| CubeDims.Widen | nca/CoreDS/CanonicalHyperCubeSet.py:708-741 | more active dimensions: canonical over them, with the same points; an empty set becomes a stump over the dimensions before its first |
| CubeDims.Narrow | nca/CoreDS/CanonicalHyperCubeSet.py:757-793 | removing dimensions that allow everything keeps the canonical form and the points |
| CubeReduce.FullIffKeys | nca/CoreDS/CanonicalHyperCubeSet.py:808-824 | the keys collected for a dimension are just its domain exactly if every layer there allows everything |
| CubeReduce.LevelValues | nca/CoreDS/CanonicalHyperCubeSet.py:808-824 | collects exactly the keys of each active dimension |
| CubeReduce.Reduce | nca/CoreDS/CanonicalHyperCubeSet.py:826-842 | same points, canonical, and no active dimension left that allows everything everywhere |
| CubePrefix.PrepareCommon | nca/CoreDS/CanonicalHyperCubeSet.py:410-427 | both sets over the union of their active dimensions, with unchanged points |
| CubePrefix.SetActiveDimensions | nca/CoreDS/CanonicalHyperCubeSet.py:681-706 | the three cases of making dimensions active keep the points |
| CubeContain.IsEntire | nca/CoreDS/CanonicalHyperCubeSet.py:469-480 | true exactly if the sub-cube allows everything |
| CubeContain.ContainedInAux | nca/CoreDS/CanonicalHyperCubeSet.py:482-565 | decides inclusion of the points for dimensions active in the left set only, in the right set only, or in both |
| CubeContain.LayerCovered | nca/CoreDS/CanonicalHyperCubeSet.py:540-564 | the inner loop of the common dimension: one layer is counted exactly if it lies in the other set |
| CubeContain.InsideAllSubs | nca/CoreDS/CanonicalHyperCubeSet.py:515-529 | a dimension active in the right set only: all its sub-cubes contain the left set and its layers cover the domain |
| CubeList.PathsCover | nca/CoreDS/CanonicalHyperCubeSet.py:137-149 | a point is in the set exactly if it is in one of the cubes |
| CubeList.PathsApart | nca/CoreDS/CanonicalHyperCubeSet.py:137-149 | no point is in two cubes |
| CubeList.CubesFromLayers | nca/CoreDS/CanonicalHyperCubeSet.py:137-149 | lists every cube once |
| CubeList.ReduceCube | nca/CoreDS/CanonicalHyperCubeSet.py:110-135 | drops exactly the dimensions that allow the whole domain, and reports a cube with an empty value set as empty |
| HyperCube.HyperCubeSet.constructor | nca/CoreDS/CanonicalHyperCubeSet.py:41-50 | the empty set or the entire space, in normal form; the empty set has all dimensions active |
| HyperCube.HyperCubeSet.Equals | nca/CoreDS/CanonicalHyperCubeSet.py:58-66 | true exactly if the dimensions are the same and the points are the same |
| HyperCube.HyperCubeSet.ContainedIn | nca/CoreDS/CanonicalHyperCubeSet.py:443-458 | true exactly if every point is in the other set |
| HyperCube.HyperCubeSet.ContainsItem | nca/CoreDS/CanonicalHyperCubeSet.py:220-251 | true exactly for the points of the set; an error for a list of coordinates that is too short |
| HyperCube.HyperCubeSet.IAnd | nca/CoreDS/CanonicalHyperCubeSet.py:258-272 | exactly the common points, again in normal form; an empty result keeps the active dimensions of both sets |
| HyperCube.HyperCubeSet.IOr | nca/CoreDS/CanonicalHyperCubeSet.py:309-323 | exactly the points of either set, again in normal form; an empty result keeps the active dimensions of both sets |
| HyperCube.HyperCubeSet.ISub | nca/CoreDS/CanonicalHyperCubeSet.py:366-376 | exactly the points not in the other set; in normal form exactly if the set was not empty, the other is empty, or the other reaches every combination of the dimensions before the first active one; so an empty set whose first dimension is active, such as a new one, stays valid and empty whatever is subtracted |
| HyperCube.AlwaysCompletes | nca/CoreDS/CanonicalHyperCubeSet.py:366-376 | the condition for the normal form holds for every other set as soon as the first dimension is active |
| HyperCube.StumpIsNotNormal | nca/CoreDS/CanonicalHyperCubeSet.py:52-56 | the object left otherwise looks non-empty but is not in normal form |
| HyperCube.EmptyMinusExample | nca/CoreDS/CanonicalHyperCubeSet.py:366-376 | an empty set and a set for which `-=` leaves such an object |
| HyperCube.HyperCubeSet.ReduceActiveDimensions | nca/CoreDS/CanonicalHyperCubeSet.py:826-842 | the points stay and the result is in normal form; from what widening an empty set leaves exactly the dimensions that allow everything are dropped |
| HyperCube.HyperCubeSet.WidenAndReduce | nca/CoreDS/CanonicalHyperCubeSet.py:681-741 | making dimensions active and reducing again gives back an equal set in normal form: the very same active dimensions and layers for a set that is not empty; an empty set stays empty, over the old and new dimensions from its first one on |
| HyperCube.HyperCubeSet.SetAll | nca/CoreDS/CanonicalHyperCubeSet.py:435-440 | the entire space |
| HyperCube.HyperCubeSet.Clear | nca/CoreDS/CanonicalHyperCubeSet.py:587-592 | the empty set with all dimensions active |
| HyperCube.HyperCubeSet.FromCube | nca/CoreDS/CanonicalHyperCubeSet.py:69-108 | exactly the points of the cube, in normal form; empty exactly if one of the value sets is empty, and then with all dimensions active |
| HyperCube.HyperCubeSet.AddCube | nca/CoreDS/CanonicalHyperCubeSet.py:622-638 | exactly the points of the cube are added; an empty list is ignored |
| HyperCube.HyperCubeSet.AddHole | nca/CoreDS/CanonicalHyperCubeSet.py:640-656 | exactly the points of the cube are removed, with the same condition for the normal form as `-=`; a new empty set stays valid and empty |
| HyperCube.HyperCubeSet.Cubes | nca/CoreDS/CanonicalHyperCubeSet.py:179-200 | a disjoint exact cover by as many cubes as __len__ says |
| ConnProps.ReorderByDimList | nca/CoreDS/ConnectivityProperties.py:433-453 | the same points with permuted coordinates, in normal form over the permuted dimensions; an index error exactly for the entire space |
| ConnProps.SwitchSrcDst | nca/CoreDS/ConnectivityProperties.py:421-431 | the same points with source and destination exchanged |
| ConnProps.SwitchTwice | nca/CoreDS/ConnectivityProperties.py:421-431 | switching twice gives an equal set with the very same layers |
| ConnProps.Minimize | nca/CoreDS/ConnectivityProperties.py:414-419 | the set itself or the one with source and destination exchanged, whichever has fewer cubes: no valid set of either kind has fewer, and the set itself comes back exactly if exchanging saves no cube |
| ConnProps.ExchangedCount | nca/CoreDS/ConnectivityProperties.py:414-431 | all sets in normal form with the exchanged points have the same number of cubes, so the comparison does not depend on how the exchange was made |
| ConnProps.ProjectOnOneDimension | nca/CoreDS/ConnectivityProperties.py:227-254 | exactly the coordinates of the points, except for an empty set on an inactive dimension, where the whole domain is returned |
| SelectorText.StripSelector | nca/Parsers/CalicoPolicyYamlParser.py:114-139 | removes outer spaces and enclosing brackets; an error exactly for unequal numbers of brackets |
| SelectorText.CountBrackets | nca/Parsers/CalicoPolicyYamlParser.py:126-134 | finds whether the first bracket is closed before the end |
| SelectorText.SplitSelector | nca/Parsers/CalicoPolicyYamlParser.py:141-160 | splits by the operator and joins the pieces again until their brackets are balanced |
| SelectorText.SplitSealed | nca/Parsers/CalicoPolicyYamlParser.py:141-160 | text whose operators are all inside brackets is split off in one piece |
| SelectorText.PartsShorter | nca/Parsers/CalicoPolicyYamlParser.py:181-194 | a split into several parts makes every part shorter, so the recursion ends |
| Selector.Evaluate | nca/Parsers/CalicoPolicyYamlParser.py:162-206 | for selectors of pods and of namespaces: union over the parts of a disjunction, intersection over those of a conjunction, complement for a negation, each from the right peers, with the errors |
| Selector.EvaluateAny | nca/Parsers/CalicoPolicyYamlParser.py:181-186 | the union over the parts |
| Selector.EvaluateAll | nca/Parsers/CalicoPolicyYamlParser.py:189-194 | the intersection over the parts |
| SelectorMeaning.SplitOr | nca/Parsers/CalicoPolicyYamlParser.py:141-160 | the text of a disjunction is split into the texts of its operands |
| SelectorMeaning.SplitAnd | nca/Parsers/CalicoPolicyYamlParser.py:141-160 | the text of a conjunction is split into the texts of its operands |
| SelectorMeaning.UnwrapCore | nca/Parsers/CalicoPolicyYamlParser.py:114-139 | stripping the text of an expression leaves the text of the expression inside all its outer brackets |
| SelectorMeaning.CoreMeaning | nca/Parsers/CalicoPolicyYamlParser.py:114-139 | which means the same and is not bracketed as a whole |
| SelectorMeaning.EvalIsMeaning | nca/Parsers/CalicoPolicyYamlParser.py:162-206 | the text of any expression, whatever redundant brackets and spaces it has, evaluates to the peers for which the expression is true; negation binds tighter than conjunction, and conjunction tighter than disjunction; a negation holds for global peers only if it mentions them |
| SelectorMeaning.GlobalShownOr | nca/Parsers/CalicoPolicyYamlParser.py:173 | the text mentions global() exactly if one of the expressions without operators in it does; brackets and spaces make no difference |
| SelectorMeaning.DeMorgan | nca/Parsers/CalicoPolicyYamlParser.py:173-200 | the negation of a conjunction and the disjunction of the negations select the same peers, except a global peer that is selected by the only operand that mentions global() |
| SelectorErrors.UnequalBrackets | nca/Parsers/CalicoPolicyYamlParser.py:122-123 | a text with different numbers of opening and closing brackets is an error |
| SelectorErrors.SplitJoins | nca/Parsers/CalicoPolicyYamlParser.py:141-160 | the parts of a text with balanced brackets, joined by the operator, are the text |
| SelectorErrors.ErrorOrExpression | nca/Parsers/CalicoPolicyYamlParser.py:114-206 | a text evaluates exactly if it is the text of an expression, with any redundant brackets and spaces; any other text is an error |
| FWRules.RulesOf | nca/FWRules/MinimizeCsFWRules.py:340-355 | one rule for each pair of elements, and no other; together they allow exactly the product |
| LabelGrouping.MakeNsDict | nca/FWRules/ClusterInfo.py:32-41 | every peer that is not an IP block is found under its own namespace and no other |
| LabelGrouping.CoveredValues | nca/FWRules/MinimizeCsFWRules.py:434-448 | a value is used exactly if all its pods are available and one of them has to be grouped; the grouping stands for exactly its pods |
| LabelGrouping.ValueUsable | nca/FWRules/MinimizeCsFWRules.py:434-448 | which values of a label can be used, in terms of the pods that carry them |
| LabelGrouping.QualifiesMeans | nca/FWRules/MinimizeCsFWRules.py:449-457 | a label qualifies exactly if it is allowed and its usable values stand for a pod, or for two different ones where single pods are ignored |
| LabelGrouping.RepOptions | nca/FWRules/MinimizeCsFWRules.py:431-457 | exactly one option for each allowed label that has a usable value and enough pods; its pods are available, at least one of them to be grouped |
| LabelGrouping.SortedBySize | nca/FWRules/MinimizeCsFWRules.py:461-463 | the same options, larger groupings first |
| LabelGrouping.Choose | nca/FWRules/MinimizeCsFWRules.py:459-475 | chosen groupings share no pod, they and the remaining pods split the set, and an option is left out only if an earlier one was chosen that shares a pod with it |
| LabelGrouping.GroupInNamespace | nca/FWRules/MinimizeCsFWRules.py:413-475 | a label that qualifies is used, unless one is used that shares a pod with it and stands for as many pods; only labels that qualify are used |
| LabelGrouping.GroupByLabels | nca/FWRules/MinimizeCsFWRules.py:391-411 | namespace by namespace, the groupings and the remaining pods split the set, and the labels used are those that GroupInNamespace promises |
| LabelGrouping.ElementsByLabels | nca/FWRules/MinimizeCsFWRules.py:279-294 | the elements stand for exactly the pods: labels as GroupByLabels promises, and one element for the rest |
| LabelGrouping.ElementsOf | nca/FWRules/MinimizeCsFWRules.py:357-389 | the elements of a set of peers or of namespaces stand for exactly those peers: one element for namespaces, for addresses and for each DNS entry, and for pods the labels that can be used; the loop over the pods ends |
| PairGrouping.CubesBySource | nca/FWRules/MinimizeCsFWRules.py:190-195 | a cube list in which each source is in one cube, with all its destinations; as many cubes as there are different sets of destinations |
| PairGrouping.CubesByTarget | nca/FWRules/MinimizeCsFWRules.py:187-195 | a cube list in which each destination is in one cube, with all its sources; as many cubes as there are different sets of sources |
| PairGrouping.MinimizedCubes | nca/FWRules/MinimizeCsFWRules.py:324-325 | a disjoint exact cover, by the order of source and destination that needs fewer cubes: as many as there are different rows or different columns, whichever is less |
| PairGrouping.KeysByValue | nca/FWRules/MinimizeCsFWRules.py:162-165 | under each value exactly the keys that have it |
| MinimizeCs.PairNsSets | nca/FWRules/MinimizeCsFWRules.py:159-171 | both ways of pairing sets of namespaces stand for the relation that was found, and the one with fewer pairs is taken |
| MinimizeCs.Emit | nca/FWRules/MinimizeCsFWRules.py:257-262 | emitting a product inside the covered pairs keeps all pairs either emitted or waiting |
| MinimizeCs.NsSetsDenote | nca/FWRules/FWRule.py:201-214 | the pairs of namespace sets stand for exactly the pairs of the namespaces found |
| MinimizeCsFwRules.MinimizeCsFwRules.ComputeCovered | nca/FWRules/MinimizeCsFWRules.py:119-134 | the pairs, those of containing connections, and each pod with itself if there are fewer than 500 peers |
| MinimizeCsFwRules.MinimizeCsFwRules.ScanNsPair | nca/FWRules/MinimizeCsFWRules.py:147-158 | one pair of namespaces: grouped if wholly covered, otherwise its pairs wait |
| MinimizeCsFwRules.MinimizeCsFwRules.FullNsGrouping | nca/FWRules/MinimizeCsFWRules.py:136-171 | two namespaces are grouped exactly if all their pairs are covered and one of them is at hand |
| MinimizeCsFwRules.MinimizeCsFwRules.NamespaceStage | nca/FWRules/MinimizeCsFWRules.py:96-108 | two namespaces are paired exactly if all their pairs are covered and one is at hand; their pairs are emitted and no longer covered, all others wait |
| MinimizeCsFwRules.MinimizeCsFwRules.NamespacesIn | nca/FWRules/MinimizeCsFWRules.py:196-203 | exactly the namespaces inside the cube that help with a waiting pair |
| MinimizeCsFwRules.MinimizeCsFwRules.EmitIfNeeded | nca/FWRules/MinimizeCsFWRules.py:219-223 | the product is emitted exactly if a waiting pair is in it, and its pairs stop waiting |
| MinimizeCsFwRules.MinimizeCsFwRules.PartialNsGrouping | nca/FWRules/MinimizeCsFWRules.py:178-228 | exactly the pairs of a peer covered with a whole namespace stop waiting, each of them said with that namespace; each new pair of elements helped |
| MinimizeCsFwRules.MinimizeCsFwRules.FullIpBlockAndDnsGrouping | nca/FWRules/MinimizeCsFWRules.py:230-277 | exactly the pairs with a DNS entry, and those of a peer covered with a full IP block, stop waiting, each of them said with that entry or block |
| MinimizeCsFwRules.MinimizeCsFwRules.BasicGrouping | nca/FWRules/MinimizeCsFWRules.py:88-117 | through all stages every pair is emitted or waits, never both, and nothing outside the covered pairs is emitted; two namespaces are paired exactly if all their pairs are covered; any other pair is said by the first stage that can say it, and exactly the pairs that none can say are left |
| MinimizeCsFwRules.MinimizeCsFwRules.RulesFromPairs | nca/FWRules/MinimizeCsFWRules.py:296-307 | the rules allow exactly the emitted pairs and say the elements of each |
| MinimizeCsFwRules.MinimizeCsFwRules.RulesFromPeerProps | nca/FWRules/MinimizeCsFWRules.py:309-338 | the rules allow exactly the waiting pairs, and say those with addresses row by row and the rest by the fewest cubes |
| MinimizeCsFwRules.MinimizeCsFwRules.Compute | nca/FWRules/MinimizeCsFWRules.py:38-86 | the rules allow every pair at hand and nothing but those, pairs of containing connections, and a pod with itself; and they are compact: namespaces all of whose pairs are covered are said by one rule with both, any other pair by the first way that can say it, and what is left by the fewest cubes |
| MinimizeCsFwRules.IsCompact | nca/FWRules/MinimizeCsFWRules.py:38-86 | what the stages leave and the rules made of it are together compact |
| MinimizeFWRules.PeersToProps | nca/FWRules/MinimizeFWRules.py:141-148 | under each set of pairs exactly the connections of the cubes with these pairs; together the same connections |
| MinimizeFWRules.PropsToPeers | nca/FWRules/MinimizeFWRules.py:149-152 | under each set of connections exactly the pairs that have it; together the same connections |
| MinimizeFWRules.ContainingPairs | nca/FWRules/MinimizeFWRules.py:194-206 | exactly the pairs of strictly larger properties |
| MinimizeFWRules.MinimizeFirewallRules | nca/FWRules/MinimizeFWRules.py:157-183 | rules for every non-empty set of connections: they allow what the minimizer promises, and two namespaces all of whose pairs have at least these connections, one of them just these, are said as a whole by one rule; a namespace all of whose pods have them with a single peer is said as a namespace, a full IP block as a block, and a DNS entry by itself, each unless the other side is said as a whole |
| MinimizeFWRules.CompactSaysNamespaces | nca/FWRules/MinimizeCsFWRules.py:136-171 | compact rules say two namespaces as a whole as soon as all their pairs have the connections at least |
| MinimizeFWRules.CompactSays | nca/FWRules/MinimizeCsFWRules.py:178-277 | compact rules say a namespace as such beside a single peer wherever the connections of the peer allow it, likewise a full IP block, and a DNS entry by itself |
| MinimizeFWRules.MinimizedFirewallRules | nca/FWRules/MinimizeFWRules.py:131-155 | end to end: the rules allow every given connection and nothing else except connections of a pod to itself; for each set of connections they are compact with regard to its own pairs and those of larger sets |
| MinimizeFWRules.FwRulesToConnProps | nca/FWRules/MinimizeFWRules.py:208-239 | exactly the connections the rules allow |
| MinimizeFWRules.AreAutoConns | nca/CoreDS/ConnectivityProperties.py:376-394 | true exactly if both peer dimensions are active and all connections of the cubes are from a peer to itself |
| MinimizeFWRules.AutoIsActive | nca/CoreDS/ConnectivityProperties.py:381-382 | with more than one peer in all, a non-empty set of self-connections depends on both peer dimensions; with a single one on neither |
| MinimizeFWRules.CompareConnProps | nca/NetworkConfig/NetworkConfigQuery.py:149-159 | the three outcomes of the check: equal, different in connections of peers to themselves only, or different |
| MinimizeFWRules.CompareFwRulesToConnProps | nca/NetworkConfig/NetworkConfigQuery.py:161-165 | for any rules and connections: equivalent exactly if the rules allow just these connections, different exactly if they disagree on a connection between two different peers |
| MinimizeFWRules.RulesPassCheck | nca/FWRules/MinimizeFWRules.py:131-155 | rules made from a set of connections never differ from it in more than connections of a pod to itself, so the check of the debug mode passes |
| NetworkLayer.FirstMatch | nca/NetworkConfig/NetworkLayer.py:184-186 | the first policy that mentions a connection; none before it does |
| NetworkLayer.CollectPoliciesConns | nca/NetworkConfig/NetworkLayer.py:173-199 | a connection is allowed, denied or passed exactly as the first policy that mentions it says, for any policies |
| NetworkLayer.FoldDisjoint | nca/NetworkConfig/NetworkLayer.py:189-197 | with policies that do not contradict themselves the three sets are disjoint |
| NetworkLayer.AllowedXgressConns | nca/NetworkConfig/NetworkLayer.py:204-245 | one direction: allowed by first match or passed to the default of a captured pod; all allowed also for uncaptured pods |
| NetworkLayer.AllowedConnections | nca/NetworkConfig/NetworkLayer.py:133-164 | both directions combined: all allowed exactly if both permit it, which the following rows say connection by connection |
| NetworkLayer.PermitsInside | nca/NetworkConfig/NetworkLayer.py:204-245 | a pod or DNS entry: its direction permits a connection exactly if no policy captures the peer, or the first policy that mentions the connection allows or passes it; a host endpoint has no default, so only an allowing policy counts |
| NetworkLayer.PermitsOutside | nca/NetworkConfig/NetworkLayer.py:145-157 | an address: its direction permits every connection with a peer of the cluster, and otherwise only what a policy allows |
| NetworkLayer.ToAddress | nca/NetworkConfig/NetworkLayer.py:133-164 | egress to an address is all-allowed exactly if the egress of the pod is not captured, or the first policy that mentions the connection allows or passes it |
| NetworkLayer.FromAddress | nca/NetworkConfig/NetworkLayer.py:133-164 | ingress from an address, likewise by the ingress policies of the pod |
| NetworkLayer.AllowedInside | nca/NetworkConfig/NetworkLayer.py:204-245 | allowed by policies, as opposed to by default: the first policy that mentions the connection allows it, or passes it and the peer is captured |
| NetworkLayer.WithoutPolicies | nca/NetworkConfig/NetworkLayer.py:133-164 | without policies everything is all-allowed between pods, DNS entries and addresses, except from address to address and between addresses and DNS entries; host endpoints get nothing |
| NetworkLayer.DeniedNotPermitted | nca/NetworkConfig/NetworkLayer.py:204-245 | what a direction denies it does not permit |
| NetworkLayer.LayerIsConsistent | nca/NetworkConfig/NetworkLayer.py:133-164 | no connection is both denied and all-allowed, and allowed ones are among the all-allowed |
| ConnectivityGraph.JoiningShows | nca/FWRules/ConnectivityGraph.py:115-118 | joining opposite edges loses the self-loops and nothing else |
| ConnectivityGraph.JoiningJoins | nca/FWRules/ConnectivityGraph.py:115-118 | afterwards no two opposite edges are left |
| ConnectivityGraph.ThereAndBack | nca/FWRules/ConnectivityGraph.py:105-122 | to undirected edges and back: the identity exactly for graphs without self-loops |
| ConnectivityGraph.JoinedComesBack | nca/FWRules/ConnectivityGraph.py:105-122 | a graph with joined edges comes back from its directed form |
| ConnectivityGraph.BestBiclique | nca/FWRules/ConnectivityGraph.py:214-228 | complete in the graph, and drawing it through a node saves at least as many edges as drawing any sources with all the destinations of one of them that they share |
| ConnectivityGraph.SharedSaves | nca/FWRules/ConnectivityGraph.py:214-228 | any sources that share all destinations of a source save no more edges than the biclique the loop makes for that source |
| ConnectivityGraph.NamesDiffer | nca/FWRules/ConnectivityGraph.py:232-233 | the numbered names of biclique nodes are different |
| ConnectivityGraph.DrawnMore | nca/FWRules/ConnectivityGraph.py:230-236 | one biclique: the edges stand for the same graph and at least one edge less is drawn |
| ConnectivityGraph.CreateBicliquedGraph | nca/FWRules/ConnectivityGraph.py:192-237 | the loop ends; what is left and the bicliques stand for the original edges, with one edge less for each biclique; each biclique saves the most edges at its time; and in what is left, for each source with destinations D and any sources S that share all of them, the product of the sizes of S and D is at most their sum |
| PathSplitter.SegregateLongestPaths | nca/Parsers/IngressPolicyYamlParser.py:148-183 | a Prefix entry loses the languages of all other entries whose path extends its own |
| PathSplitter.UnionKept | nca/Parsers/IngressPolicyYamlParser.py:148-183 | every matched request is kept, if and only if no repeated Prefix entry ends with a slash and each has the same path with a slash beside it |
| PathSplitter.SlashedOnce | nca/Parsers/IngressPolicyYamlParser.py:148-183 | under that condition the entry beside it is not repeated itself |
| PathSplitter.WinnerExists | nca/Parsers/IngressPolicyYamlParser.py:148-183 | a matched request has a longest match, Exact before Prefix; it wins exactly if it is not repeated |
| PathSplitter.DisjointIffNoOverlap | nca/Parsers/IngressPolicyYamlParser.py:148-183 | the languages are disjoint if and only if no Exact entry is repeated and no Prefix entry that occurs once still ends with a slash beside an Exact entry for the path without it |
| PathSplitter.LongestMatch | nca/Parsers/IngressPolicyYamlParser.py:148-183 | each entry keeps exactly the requests for which it is the longest match, Exact before Prefix, if and only if there is no such pair of a Prefix and an Exact entry and no repeated Exact entry |
| PathSplitter.ParsedEqual | nca/Parsers/IngressPolicyYamlParser.py:142-146 | two paths as written become the same entry exactly if they are equal, or both are Prefix paths and one is the other with one more slash, the shorter being the root or without a slash at its end |
| PathSplitter.TrailingSlashExample | nca/Parsers/IngressPolicyYamlParser.py:142-146 | Prefix `/a` and Prefix `/a/`: the request `/a` is matched by both and kept by neither |
| PathSplitter.ClashNeedsTwoSlashes | nca/Parsers/IngressPolicyYamlParser.py:142-146 | a clash needs a Prefix path written with two slashes at its end |
| PathSplitter.DoubleSlashExample | nca/Parsers/IngressPolicyYamlParser.py:142-146 | Prefix `/a//` and Exact `/a` both keep the request `/a` |
| PathSplitter.DuplicatesLost | nca/Parsers/IngressPolicyYamlParser.py:173-180 | two equal Prefix entries take everything from each other |
| PathSplitter.ElementsPrefix | nca/Parsers/GenericGatewayYamlParser.py:95-107 | cut at the slashes, one path begins with the elements of another exactly if it is that path or goes on behind it with a slash |
| PathSplitter.PrefixByElements | nca/Parsers/GenericGatewayYamlParser.py:95-107 | a Prefix path accepts exactly the valid paths that begin with its elements, whatever follows |

## Left out

- Dimensions of automaton type: only interval-set dimensions are modelled; path languages appear as sets of strings in `PathSplitter`.
- HyperCubeSet: sub-cubes are values, so that sharing one sub-cube object between layers and changing it in place is not captured; the active dimensions of a sub-cube follow from its depth.
- HyperCubeSet.Equals: objects of the subclass and of the base class are never equal in the source, even with the same contents; the model has one class.
- HyperCubeSet.FromCube: the default for missing cube dimensions (the first dimensions of the list) is resolved by the caller.
- HyperCubeSet.ISub: hash values, printing, `get_first_item` and the debug check of active dimensions are not part of the model.
- Dimension domains and the registered peers are parameters instead of singletons; every domain is non-empty.
- PeerIndices: `reset` and the domain of all peers are not part of the model.
- Selector.Evaluate: the peers of an expression without operators are given, since regular expressions and label look-up are not part of this model.
- SelectorMeaning.EvalIsMeaning: an expression without operators contains no `&` or `|` and begins with neither `!` nor an opening bracket; its own brackets are balanced, and it selects global peers only if it mentions `global()`.
- MinimizeCsFwRules: sets of pairs are finite sets of values, so the object that `-=` can leave behind for an empty set is not seen there, nor the index error for reordering a set of pairs that covers everything.
- MinimizeCsFwRules.MinimizeCsFwRules.ComputeCovered: the number of peer objects is a parameter, because it depends on how IP blocks are split into objects.
- MinimizeFWRules.MinimizedFirewallRules: restriction to TCP or non-TCP, removal of duplicates by deployment name, and the order of the rules are not modelled; dictionaries and sets are visited in any order.
- MinimizeFWRules.AreAutoConns: whether the peer dimensions are active is given; the caller derives it from what the set depends on, which is when `NormalForm.ActiveIffNeeded` says that they are.
- MinimizeFWRules.CompareFwRulesToConnProps: when there is just one peer in all, which the source excludes because the domain of the peers holds all addresses, it is not said which verdict a difference gets.
- MinimizeFWRules.RulesPassCheck: there is more than one peer in all, for the same reason.
- MinimizeFWRules.CubesOfConns: stands for any list of cubes of the set; the theorems hold for every such list.
- MinimizeCsFwRules.MinimizeCsFwRules.Compute: the cluster information knows every pod under its own namespace, as its constructor makes sure (`LabelGrouping.MakeNsDict`).
- FWRules: printing rules and the key and value text of label expressions are not part of the model.
- NetworkLayer: policies are given by their effects, in their sorted order; the explanation tracker is left out. Sets of connections are finite sets of values: where two sets are subtracted in a row (nca/NetworkConfig/NetworkLayer.py:189-194) the first `-=` can leave an empty set with few active dimensions, and the second then an object that looks non-empty, which is not seen there; the points are the same.
- NetworkLayer.LayerIsConsistent: a policy does not contradict itself and speaks only of connections of peers that it captures, and it captures peers of the cluster only.
- The Istio layer: it adds all non-TCP connections without removing denied ones, so the consistency shown for the K8s and Calico layer is not claimed for it.
- ConnectivityGraph.CreateBicliquedGraph: no node of the graph may carry one of the numbered biclique names.
- ConnectivityGraph: replacing cliques (the enumeration is in a library), grouping equal peers, and drawing.
- PathSplitter.UnionKept: the paths are valid, as path validation ensures.
- PathSplitter: characters with a meaning in regular expressions stand for themselves; hosts and default backends are left out.
- Parsing, scanners, runners, queries other than the debug check, and output.
