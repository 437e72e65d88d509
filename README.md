# dsgrn_net_query: the query layer around DSGRN, modelled in Dafny

dsgrn_net_query runs queries over a list of gene-regulatory networks. For each
network it walks the DSGRN parameter graph and asks, for every parameter, one of
several questions:

- does a fixed point lie inside the given bounds?
- do the logic nodes carry the allowed hex codes?
- does the parameter have a stable full cycle?
- does a time-series pattern match along a path or cycle of the domain graph, or
  inside a stable Morse set?

The answers are folded into counts, booleans and per-dataset sets of parameter
indices. The layer also does some bookkeeping:

- it checks each query's configuration;
- it builds and filters the poset tables;
- it interns Morse graphs when a signature database is made;
- it reads network lists and lays out result files.

This project models that layer and proves what it computes. Every call into
DSGRN is an oracle (module `Dsgrn`):

- A parameter is a record holding:
  - its Morse nodes, each with the first annotation label, a child count and
    per-poset path/cycle match answers;
  - its logic nodes as (inputs, outputs, hex code);
  - its domain-graph path and cycle answers, keyed by poset;
  - its stringified Morse graph.
- A network is its specification, its ordered variable names and its parameters.
  The whole of DSGRN is then a function from a specification to such a network.

Python exceptions become `Wrappers.Result` values with an error kind
(`ValueError`, `KeyError`, `IndexError`, `NameError`, `OracleError`). Five
members carry a `requires` that excludes an input on which the code raises:
`PatternDbCount.Sweep`, `PatternDbCount.PathMatchesWithCount`,
`PatternDbCount.PathMatchesStableFCOnly`, `PatternDbSearch.SearchOverNetworks`
and `ResultFiles.RecordParamIndices`. Each heads a line under "## Left out" that
says why callers never pass such an input. Every other `requires` states only
well-formedness: that of the model's own values (a `Dicts.Dict` whose key list
and map agree, lists of equal length), or the state a loop body continues from.

The modules follow the program:

- `FixedPoints`, `Multistability`, `FixedPointSweep`, `FixedPointCount` model the
  fixed-point predicates of `CountFPMatch.py`, which are repeated in
  `MultistabilityExists.py`, and both sweeps.
- `HexConstraints` models `satisfies_hex_constraints`. It is written once for its
  three identical copies (`utilities/dsgrn_utilities.py`,
  `utilities/query_utilities.py`, `query_utilities.py`). `MultistabilityExists.py`
  calls the copy in the outside package `NetworkPerturbations`, which the model
  takes to be the same function (see "## Left out").
- `Sweeps` holds the count-versus-existence reductions shared by every sweep.
- `StableFullCycles` models `CountStableFC.py` and `CountStableFC_large_networks.py`.
- `PatternChecks`, `PatternMatch` and `PatternMatchQuery` model the four matching
  functions, `extract_queries`, `search_over_networks` and the regrouping in
  `record_results` of `patternmatch.py`.
- `PatternDbQuery`, `PatternDbCount`, `PatternDbExists` and `PatternDbSearch`
  model `CountPatternMatch_DB.py`: `sanity_check`, `get_posets`, the counting
  sweep with its cross-dataset "all" sets, the latching existence sweep, the
  stable-full-cycle shortcuts and the dispatch between them. The `sanity_check`
  and `get_posets` of the two large-network queries are the same code and are
  modelled by the same members. The parameter-indices variant adds sorting of the
  literal posets and filling in of `epsilons`, which a flag selects.
- `LargePathMatch` models `PathMatch` of `CountPatternMatch_large_networks.py`.
- `IndexSets` and `ParamIndices` model `PathMatch`, `reformat_output` and the
  query body of `CountPatternMatch_large_networks_parameter_indices.py`.
- `ResultFiles` models the regrouping into result files in the `record_results`
  of the three queries over poset tables.
- `Posets`, `PosetTables` and `PosetMerge` model `calculate_poset`,
  `calculate_posets_from_multiple_time_series` and `check_posets`
  (`utilities/poset_utilities.py`). The copies in `query_utilities.py` and
  `utilities/make_posets_from_time_series.py` have the same logic.
- `Signatures` models the interning generator and `make_db` of
  `utilities/signatures_no_mpi.py`.
- `FileUtilities` models `read_networks`, the extension dispatch of `extractdata`,
  the duplicate-name checks of `readrow`/`readcol` and the path composition of
  `create_results_folder`. The `read_networks` copies in `query_utilities.py`,
  `utilities/query_utilities.py` and `CountStableFC_large_networks.py` are the
  same function. `MultistabilityExists.py` and `queries/CountStableFC.py` import
  `read_networks` from `NetworkPerturbations`, which the model takes to be that
  function too.
- `Wrappers`, `Strings` and `Dicts` are support modules. `Dicts.Dict` is an
  insertion-ordered dictionary, used wherever the program's iteration order shows
  in its results.

Several behaviours of the code are modelled as written because they are what the
program does. Lemmas state them:

- With both bound lists empty, every parameter matches
  (`FixedPoints.EmptyBoundsMatchEveryParameter`). This holds even though the
  docstring of `CountFPMatch.py` speaks of parameters with a fixed point.
- In existence mode a success reports the size of the parameter graph, while the
  other results report the number of evaluated parameters. With neighbours these
  differ (`FixedPointCount.NeighborTotalExample`).
- A network file holding only newlines makes `read_networks` raise an
  `IndexError`. An input that is neither a list nor a string raises a `NameError`
  for the unbound `networks`.
- Two pairs of one dataset at the same noise level share a counter, so a
  parameter matching both is counted twice
  (`PatternDbCount.DuplicateEpsCountsTwice`). In the large-network `PathMatch`,
  the later pair replaces the earlier one.
- Dataset names that agree up to their first '.' give the same result file
  (`PatternMatchQuery.DatasetsCanShareAFile`).

## Model

| member | source | states |
|---|---|---|
| Sweeps.CountOk | src/dsgrn_net_query/queries/CountFPMatch.py:106-118 | count mode tries every parameter: the count is at most the number tried, is positive iff some parameter matched, and any error is raised |
| Sweeps.FirstOk | src/dsgrn_net_query/queries/CountFPMatch.py:106-114 | existence mode answers true iff some parameter matches and every earlier one was a clean miss; false iff every parameter misses |
| Sweeps.ExistenceIsPositiveCount | src/dsgrn_net_query/queries/CountFPMatch.py:106-120 | whenever count mode succeeds, existence mode answers `count > 0` |
| Sweeps.CountOkKeepsFirstError | src/dsgrn_net_query/queries/CountFPMatch.py:107-110 | an error in a prefix is the error of the whole count |
| Sweeps.CountAllTrue | src/dsgrn_net_query/queries/CountFPMatch.py:107-118 | when every parameter matches, the count is the number of parameters tried |
| Sweeps.CountTrue | src/dsgrn_net_query/queries/CountStableFC.py:45-53 | the tally of per-parameter flags is at most their number and positive iff some flag is set |
| Sweeps.CountTrueIsCardinality | src/dsgrn_net_query/queries/CountStableFC.py:45-53 | the tally is the number of positions holding true |
| Sweeps.CountTrueMonotone | src/dsgrn_net_query/queries/patternmatch.py:199-217 | a tally over flags that imply other flags is at most the tally of those (numparams ≤ numFC) |
| Sweeps.CollectAll | src/dsgrn_net_query/MultistabilityExists.py:48 | gathering the mapped results in order succeeds iff each one does, and then holds each value at its position |
| Sweeps.CollectAllKeepsFirstError | src/dsgrn_net_query/MultistabilityExists.py:48 | once a prefix fails, the whole gathering fails with that error |
| Sweeps.Indices | src/dsgrn_net_query/queries/CountFPMatch.py:105 | `range(n)`: n entries, entry i is i |
| Dsgrn.StableFCPathMatchHasFC | src/dsgrn_net_query/queries/CountPatternMatch_DB.py:366-374 | a path match in a stable full cycle implies the parameter has a stable full cycle |
| PatternChecks.StableFCCheck | src/dsgrn_net_query/queries/CountPatternMatch_DB.py:356-374 | the scan's `ismatch` is true iff some stable "FC" Morse set path-matches, `FC` is true iff a stable "FC" Morse set exists, and `ismatch` implies `FC`; the same method with the decomposition poset models src/dsgrn_net_query/queries/CountPatternMatch_large_networks.py:227-246 |
| HexConstraints.SatisfiesHexConstraints | src/dsgrn_net_query/utilities/dsgrn_utilities.py:17-21 | the early-return scan accepts iff every logic node whose (in, out) type is constrained has one of that type's allowed codes; the copies at src/dsgrn_net_query/utilities/query_utilities.py:21-25 and src/dsgrn_net_query/query_utilities.py:23-27 are the same |
| HexConstraints.OrderIndependent | src/dsgrn_net_query/utilities/dsgrn_utilities.py:18-20 | the answer does not depend on the order of the logic nodes |
| HexConstraints.Unconstrained | src/dsgrn_net_query/utilities/dsgrn_utilities.py:12 | an empty table, or a parameter without logic nodes, is accepted |
| HexConstraints.WeakerAccepts | src/dsgrn_net_query/utilities/dsgrn_utilities.py:19 | a table constraining fewer node types and allowing more codes accepts whatever a stronger one accepts |
| HexConstraints.RemovingTypeAccepts | src/dsgrn_net_query/utilities/dsgrn_utilities.py:19 | deleting a node type from the table never turns acceptance into rejection |
| HexConstraints.AllowingCodesAccepts | src/dsgrn_net_query/utilities/dsgrn_utilities.py:19 | allowing extra codes for a node type never turns acceptance into rejection |
| HexConstraints.Loaded | src/dsgrn_net_query/MultistabilityExists.py:36-41 | `dict(params["hex_constraints"])` of a JSON object holds the object's entries, all under string keys |
| HexConstraints.TupleKeyed | src/dsgrn_net_query/utilities/dsgrn_utilities.py:4-6 | a table keyed by (in, out) tuples, as the comment describes it, holds the same entries under tuple keys |
| HexConstraints.SatisfiesLoaded | src/dsgrn_net_query/utilities/dsgrn_utilities.py:17-21 | the scan as written accepts iff every logic node whose (in, out) tuple is a key of the dictionary has one of that key's codes |
| HexConstraints.LoadedFromJsonAcceptsAll | src/dsgrn_net_query/MultistabilityExists.py:36-41 | as written, a table read from a JSON object accepts every parameter, since no tuple is a string key |
| HexConstraints.JsonTableLetsViolationThrough | src/dsgrn_net_query/MultistabilityExists.py:22-27 | the table {"(1,2)": ["C"]} read from JSON accepts a (1,2) node with code "8" |
| HexConstraints.TupleTableRejectsViolation | src/dsgrn_net_query/MultistabilityExists.py:22-27 | keyed by node types, the table {(1,2): ["C"]} rejects a (1,2) node with code "8" |
| HexConstraints.TupleKeyedIsIntended | src/dsgrn_net_query/utilities/dsgrn_utilities.py:17-21 | with node types as tuple keys, the scan as written gives the answer of `SatisfiesHexConstraints` |
| FixedPoints.StableLabels | src/dsgrn_net_query/queries/CountFPMatch.py:151-160 | the labels kept are exactly those starting with the prefix on childless Morse nodes, no more of them than nodes |
| FixedPoints.DigitTokens | src/dsgrn_net_query/queries/CountFPMatch.py:179 | at most one coordinate per token; when every token is all digits, one per token |
| FixedPoints.DigitTokensSnoc | src/dsgrn_net_query/queries/CountFPMatch.py:179 | the filter read from the end: the last token's number is appended iff the token is all digits, so the coordinates are the all-digit tokens in order |
| FixedPoints.DigitTokensAllDigits | src/dsgrn_net_query/queries/CountFPMatch.py:179 | when every token is all digits, coordinate i is `int` of token i |
| FixedPoints.DigitTokensMembers | src/dsgrn_net_query/queries/CountFPMatch.py:179 | a number is a coordinate iff some all-digit token reads as it |
| FixedPoints.IsFPMatch | src/dsgrn_net_query/queries/CountFPMatch.py:172-181 | a fixed point matches iff every bounded coordinate lies in its range; a bound on a coordinate past the annotation's digits raises IndexError |
| FixedPoints.IndexOf | src/dsgrn_net_query/queries/CountFPMatch.py:192 | `network.index(name)` finds a position holding the name iff the name is a variable |
| FixedPoints.TranslateBound | src/dsgrn_net_query/queries/CountFPMatch.py:192 | the translation succeeds iff every bound name is a network variable, and keeps each range with the index of its name |
| FixedPoints.AnyMatch | src/dsgrn_net_query/queries/CountFPMatch.py:193 | the list of matches is built in full (an error anywhere is raised); the answer is true iff some annotation matches |
| FixedPoints.IsMultistableMatch | src/dsgrn_net_query/queries/CountFPMatch.py:184-193 | true iff the names translate and some stable fixed point satisfies the bound; false on an empty annotation list |
| FixedPoints.AllIncluded | src/dsgrn_net_query/queries/CountFPMatch.py:196-207 | true iff every included bound is matched by some fixed point; true on an empty list |
| FixedPoints.AllExcluded | src/dsgrn_net_query/queries/CountFPMatch.py:210-221 | true iff no excluded bound is matched; true on an empty list |
| FixedPoints.HaveMatch | src/dsgrn_net_query/queries/CountFPMatch.py:134-148 | true iff both halves hold; both halves are evaluated, so an error in either is raised |
| FixedPoints.EmptyBoundsMatchEveryParameter | src/dsgrn_net_query/queries/CountFPMatch.py:134-148 | with both bound lists empty every parameter matches |
| FixedPoints.NoFixedPointStillMatches | src/dsgrn_net_query/queries/CountFPMatch.py:25-26 | a parameter with no fixed point at all still matches empty bounds, against the docstring's claim |
| FixedPoints.UnnamedCoordinatesAreWildcards | src/dsgrn_net_query/queries/CountFPMatch.py:180-181 | coordinates no bound names do not affect the answer |
| FixedPoints.DigitsOfFPAnnotation | src/dsgrn_net_query/queries/CountFPMatch.py:179 | reading the coordinates back from DSGRN's "FP { d0, ..., dn }" text gives d0..dn |
| FixedPoints.WildcardExample | src/dsgrn_net_query/queries/CountFPMatch.py:20-23 | the docstring's example: FP (2,1,0,*) matches the first bound for any value of * |
| FixedPoints.WildcardAnnotationExample | src/dsgrn_net_query/queries/CountFPMatch.py:20-23 | the same for the annotation text DSGRN prints |
| FixedPointSweep.Outcomes | src/dsgrn_net_query/queries/CountFPMatch.py:107-108 | one outcome per listed parameter index, in order; an index outside the parameter graph gives `OracleError` |
| FixedPointSweep.EmptyGateIsNoGate | src/dsgrn_net_query/MultistabilityExists.py:40-44 | an empty hex table gives the same outcomes as no table |
| FixedPointSweep.GateOnlyRemovesMatches | src/dsgrn_net_query/MultistabilityExists.py:76-78 | a gated parameter matches iff it meets the table and matches ungated |
| FixedPointSweep.FindMatch | src/dsgrn_net_query/MultistabilityExists.py:60-84 | the early-exit loop returns what existence mode promises over the outcomes |
| FixedPointCount.SanityCheck | src/dsgrn_net_query/queries/CountFPMatch.py:63-70 | no error iff "included_bounds", "excluded_bounds" and "count" are all present; otherwise a ValueError with the source's message |
| FixedPointCount.SearchOverNetworks | src/dsgrn_net_query/queries/CountFPMatch.py:91-120 | the loop over the parameter list returns the specification paired with the tally of its outcomes, with the neighbour list used only when "neighbors" is True; a listed index outside the parameter graph is the `OracleError` of its outcome |
| FixedPointCount.TallyParameters | src/dsgrn_net_query/queries/CountFPMatch.py:106-120 | the loop's answer is `(numparams, len(paramlist))` in count mode, `(True, size)` after a success and `(False, len(paramlist))` otherwise |
| FixedPointCount.CountAtMostTotal | src/dsgrn_net_query/queries/CountFPMatch.py:117-118 | the count is at most the number of parameters tried |
| FixedPointCount.ExistenceIsCountPositive | src/dsgrn_net_query/queries/CountFPMatch.py:106-120 | existence mode finds a match iff the count mode count is positive |
| FixedPointCount.ExistenceTotal | src/dsgrn_net_query/queries/CountFPMatch.py:114-120 | existence mode reports the parameter graph's size after a success and the parameter list's length otherwise; without neighbours both are the graph's size |
| FixedPointCount.EmptyBoundsCountEverything | src/dsgrn_net_query/queries/CountFPMatch.py:25-26 | with both bound lists empty the search succeeds iff every listed index is in the parameter graph, and then the count is the number of parameters tried |
| FixedPointCount.CountFailsIff | src/dsgrn_net_query/queries/CountFPMatch.py:106-110 | a count-mode sweep raises iff the outcome of some listed index raises; an index outside the parameter graph always makes it raise |
| FixedPointCount.CountModeOutOfRangeRaises | src/dsgrn_net_query/queries/CountFPMatch.py:99-110 | a count-mode search whose parameter list, from `get_neighbors` or the whole graph, leaves the graph raises |
| FixedPointCount.NeighborTotalExample | src/dsgrn_net_query/queries/CountFPMatch.py:114 | with a neighbour list shorter than the graph, a success and a failure report different totals |
| Multistability.ChooseGate | src/dsgrn_net_query/MultistabilityExists.py:40-44 | the constrained sweep is used iff "hex_constraints" is present and non-empty |
| Multistability.ChooseGateKeepsAnswers | src/dsgrn_net_query/MultistabilityExists.py:40-44 | choosing no gate for an empty table does not change any outcome |
| Multistability.ReportedNetworkHasMatch | src/dsgrn_net_query/MultistabilityExists.py:73-84 | a reported network has a parameter that meets the table and matches the bounds |
| Multistability.UnmatchedNetworkNotReported | src/dsgrn_net_query/MultistabilityExists.py:60-84 | a network without a matching parameter yields None |
| Multistability.GateOnlyRemovesMatchesAt | src/dsgrn_net_query/MultistabilityExists.py:78 | a gated match is an ungated match of a parameter meeting the table |
| Multistability.ComputeWithoutConstraints | src/dsgrn_net_query/MultistabilityExists.py:60-70 | the loop returns the specification iff some parameter matches, else None |
| Multistability.ComputeWithConstraints | src/dsgrn_net_query/MultistabilityExists.py:73-84 | the loop returns the specification iff some parameter meets the table and matches, else None |
| Multistability.KeepTruthy | src/dsgrn_net_query/MultistabilityExists.py:49 | `filter(None, ...)` keeps exactly the present non-empty outputs |
| Multistability.KeepTruthyAppend | src/dsgrn_net_query/MultistabilityExists.py:49 | the filter keeps input order: filtering a concatenation concatenates the filtered parts |
| Multistability.Answers | src/dsgrn_net_query/MultistabilityExists.py:48 | one answer per network, in network order |
| Multistability.QueryResultMeaning | src/dsgrn_net_query/MultistabilityExists.py:35-49 | the networks reported are exactly the non-empty specifications that have a matching parameter |
| Multistability.AnswerPresent | src/dsgrn_net_query/MultistabilityExists.py:48-49 | a specification appears among the gathered answers iff some network's answer names it |
| Multistability.NetworkResultNames | src/dsgrn_net_query/MultistabilityExists.py:67-81 | a network's answer, when present, is its own specification |
| StableFullCycles.StableFCAnnotationsNonEmpty | src/dsgrn_net_query/queries/CountStableFC.py:50-52 | the list of stable "FC" annotations is non-empty iff some childless Morse set's first annotation starts with "FC" |
| StableFullCycles.FCFlags | src/dsgrn_net_query/queries/CountStableFC.py:45-52 | one flag per parameter, set iff that parameter has a stable full cycle |
| StableFullCycles.FlagsCountIndices | src/dsgrn_net_query/queries/CountStableFC.py:45-53 | the tally of the flags is the number of parameter indices with a stable full cycle |
| StableFullCycles.CheckFC | src/dsgrn_net_query/queries/CountStableFC.py:40-56 | the loop returns `(netspec, (count, size))` with count the number of parameters having a stable full cycle, so `count <= size` |
| StableFullCycles.SanityCheck | src/dsgrn_net_query/queries/CountStableFC_large_networks.py:52-60 | succeeds iff both "num_proc" and "count" are present, returning their values; otherwise a ValueError with the source's message |
| StableFullCycles.LargeQuery | src/dsgrn_net_query/queries/CountStableFC_large_networks.py:22-49 | an empty network list raises the source's ValueError before the parameter file is checked; otherwise the result exists iff the sanity check passes, is keyed by exactly the listed specifications, and holds each network's entry |
| StableFullCycles.FoundIsCountPositive | src/dsgrn_net_query/queries/CountStableFC_large_networks.py:40-44 | a network's entry is `(matches > 0, N)` without count and `(matches, N)` with it |
| PatternMatch.CountIsNumberOfMatches | src/dsgrn_net_query/queries/patternmatch.py:131-217 | count mode counts exactly the matching parameter indices, each once; only `PathMatchInStableFullCycle` returns a pair, whose `numFC` is the number of parameters with a stable full cycle |
| PatternMatch.FoundIsCountPositive | src/dsgrn_net_query/queries/patternmatch.py:147-217 | existence mode answers whether some parameter matches, which is whether the count is positive |
| PatternMatch.CountsBounded | src/dsgrn_net_query/queries/patternmatch.py:199-217 | no count exceeds the parameter graph's size, and `numparams <= numFC <= size` |
| PatternMatch.ScanStableCycles | src/dsgrn_net_query/queries/patternmatch.py:142-149 | the inner scan finds a match iff some childless "FC"/"XC" Morse set cycle-matches |
| PatternMatch.CycleMatchInStableMorseSet | src/dsgrn_net_query/queries/patternmatch.py:131-152 | the loop returns the count, or the first-success boolean, the specification function promises |
| PatternMatch.CycleMatchInDomainGraph | src/dsgrn_net_query/queries/patternmatch.py:155-171 | the loop returns the number of parameters whose domain graph cycle-matches, or whether one does |
| PatternMatch.PathMatchInDomainGraph | src/dsgrn_net_query/queries/patternmatch.py:174-189 | the loop returns the number of parameters whose domain graph path-matches, or whether one does |
| PatternMatch.PathMatchInStableFullCycle | src/dsgrn_net_query/queries/patternmatch.py:192-217 | the loop returns `(numparams, numFC)` in count mode, with the FC flag counted once per parameter, or whether some parameter matches |
| PatternMatch.Run | src/dsgrn_net_query/queries/patternmatch.py:111-112 | calling a matching function through the mapping gives that function's answer |
| PatternMatchQuery.KeepRequested | src/dsgrn_net_query/queries/patternmatch.py:99 | the kept functions are exactly the module functions that were requested |
| PatternMatchQuery.ExtractQueriesAsWritten | src/dsgrn_net_query/queries/patternmatch.py:91-99 | as written: succeeds iff every requested name is some function of the module, with the source's ValueError otherwise, and keeps exactly the requested functions |
| PatternMatchQuery.HelperNamesAccepted | src/dsgrn_net_query/queries/patternmatch.py:94-99 | the name of a helper such as "read_networks", which is no matching function, passes the check and is kept |
| PatternMatchQuery.KeepMatchers | src/dsgrn_net_query/queries/patternmatch.py:99 | the kept matching functions are exactly the requested ones |
| PatternMatchQuery.KeepMatchersInOrder | src/dsgrn_net_query/queries/patternmatch.py:94-99 | keeping the requested ones preserves `getmembers` order |
| PatternMatchQuery.ExtractQueries | src/dsgrn_net_query/queries/patternmatch.py:91-99 | as intended: succeeds iff every requested name is one of the four matching functions, keeps exactly those, in `getmembers` order |
| PatternMatchQuery.LowerCaseIsNoMatcher | src/dsgrn_net_query/queries/patternmatch.py:94 | a name starting with a lower-case letter is no matching function's |
| PatternMatchQuery.HelpersAreNoMatchers | src/dsgrn_net_query/queries/patternmatch.py:94 | none of the module's other functions is a matching function |
| PatternMatchQuery.KeepRequestedNames | src/dsgrn_net_query/queries/patternmatch.py:99 | keeping requested names commutes with naming the matching functions |
| PatternMatchQuery.IntendedAgreesOnMatcherNames | src/dsgrn_net_query/queries/patternmatch.py:91-99 | whenever only matching functions are requested, the check as written and the intended one give the same mapping |
| PatternMatchQuery.EntryFor | src/dsgrn_net_query/queries/patternmatch.py:112-116 | an element carries its epsilon and the graph's size; it is a 4-tuple `(eps, numparams, numFC, size)` with `numparams <= numFC <= size` iff the search is `PathMatchInStableFullCycle` in count mode, otherwise `(eps, R, size)` with R the function's answer |
| PatternMatchQuery.Entries | src/dsgrn_net_query/queries/patternmatch.py:109-116 | one element per (epsilon, poset) pair of a dataset, in order |
| PatternMatchQuery.InitialResults | src/dsgrn_net_query/queries/patternmatch.py:107 | `ER` starts with an empty list for exactly every (matching function, dataset) pair |
| PatternMatchQuery.AppendAnswers | src/dsgrn_net_query/queries/patternmatch.py:111-116 | one pass over the matching functions appends one element to each of their lists for this dataset and changes no other list |
| PatternMatchQuery.SearchDataset | src/dsgrn_net_query/queries/patternmatch.py:109-116 | the loop over a dataset's posets appends that dataset's elements, in order, to each matching function's list and changes no other list |
| PatternMatchQuery.ExtendDone | src/dsgrn_net_query/queries/patternmatch.py:108-116 | after one more dataset, every list of a finished dataset holds its elements and every other list is still empty |
| PatternMatchQuery.SearchDatasets | src/dsgrn_net_query/queries/patternmatch.py:107-116 | after the loop over the datasets every (function, dataset) list holds exactly that dataset's elements for that function |
| PatternMatchQuery.SearchOverNetworks | src/dsgrn_net_query/queries/patternmatch.py:102-118 | a network whose sorted name tuple has no posets raises KeyError; otherwise the result is the specification with the completed `ER` |
| PatternMatchQuery.Regroup | src/dsgrn_net_query/queries/patternmatch.py:72-74 | `reparse` for one key holds every network's list under that key, in network order, and is a KeyError iff some network lacks the key |
| PatternMatchQuery.RegroupLoop | src/dsgrn_net_query/queries/patternmatch.py:72-74 | the loop that fills `reparse` computes the regrouping |
| PatternMatchQuery.EmptyRow | src/dsgrn_net_query/queries/patternmatch.py:84-88 | with no results, one file per time-series file for a search, each holding the empty results |
| PatternMatchQuery.EmptyWrites | src/dsgrn_net_query/queries/patternmatch.py:83-88 | with no results, exactly one file per requested search and time-series file |
| PatternMatchQuery.RecordSearched | src/dsgrn_net_query/queries/patternmatch.py:70-78 | with results, one file per key of the first network's `ER`, in order, each holding the regrouping for its key |
| PatternMatchQuery.RecordNothing | src/dsgrn_net_query/queries/patternmatch.py:79-88 | the loops without results write the files the empty case promises |
| PatternMatchQuery.RecordResults | src/dsgrn_net_query/queries/patternmatch.py:69-88 | with results, one file per key of the first network's `ER`; with none, an empty file per requested search and time-series file, or KeyError when `timeseriesfname` is absent |
| PatternMatchQuery.SharedKeysRecordAll | src/dsgrn_net_query/queries/patternmatch.py:71-78 | when every network has every key of the first one, a file is written for every key and nothing is raised |
| PatternMatchQuery.MissingKeyRaises | src/dsgrn_net_query/queries/patternmatch.py:74 | a key the first network has and a later one lacks raises KeyError before its file is written |
| PatternMatchQuery.DatasetsCanShareAFile | src/dsgrn_net_query/queries/patternmatch.py:75 | two dataset names equal up to their first '.' give the same file name, so the later file replaces the earlier one |
| PosetTables.EpsKeys | src/dsgrn_net_query/queries/CountPatternMatch_DB.py:232-233 | the noise levels of a poset list, each once, are the keys of the per-epsilon results |
| Posets.CoveredNetworks | src/dsgrn_net_query/utilities/poset_utilities.py:25-37 | the networks kept are at most those given |
| Posets.CoveredNetworksMeaning | src/dsgrn_net_query/utilities/poset_utilities.py:28-37 | a network is kept iff it is listed and all its names have series |
| Posets.CoveredIsSubsequence | src/dsgrn_net_query/utilities/poset_utilities.py:23-37 | the kept networks keep the order of the input list |
| Posets.CoveredTwice | src/dsgrn_net_query/utilities/poset_utilities.py:81-96 | filtering the kept networks again by the names of a larger table removes nothing |
| Posets.MissingNames | src/dsgrn_net_query/utilities/poset_utilities.py:28 | no missing name has a series |
| Posets.MissingNamesMeaning | src/dsgrn_net_query/utilities/poset_utilities.py:28 | a name is missing iff it belongs to some listed network and has no series |
| Posets.CoveredKeysMeaning | src/dsgrn_net_query/utilities/poset_utilities.py:27-36 | the keys computed are exactly the sorted names of the covered networks |
| Posets.DroppedIffUncovered | src/dsgrn_net_query/utilities/poset_utilities.py:28-30 | testing the network's names against all names missing so far drops it exactly when one of its own names has no series |
| Posets.AllComputedMeaning | src/dsgrn_net_query/utilities/poset_utilities.py:33-35 | no covered network's posets are `None` |
| Posets.Computations | src/dsgrn_net_query/utilities/poset_utilities.py:31-36 | every stored key is a covered network's and holds the posets computed for it |
| Posets.ComputationsKeys | src/dsgrn_net_query/utilities/poset_utilities.py:31-36 | when no computation fails, exactly the covered networks' keys are stored |
| Posets.VisitNetwork | src/dsgrn_net_query/utilities/poset_utilities.py:26-37 | one iteration adds the network's absent names to the missing ones, raises iff it is covered and its posets are `None`, and otherwise stores its posets under its key when covered |
| Posets.CalculatePoset | src/dsgrn_net_query/utilities/poset_utilities.py:7-38 | raises ValueError("poset is None!") iff some covered network's posets are `None`; otherwise returns the posets of exactly the covered keys, the covered networks in order and the missing names |
| Posets.PosetNames | src/dsgrn_net_query/utilities/poset_utilities.py:87 | a name is collected iff it occurs in some key of the table |
| Posets.CheckPosets | src/dsgrn_net_query/utilities/poset_utilities.py:81-96 | the loop keeps, in order, exactly the networks all of whose names occur in the table |
| PosetMerge.TimeSeriesFiles | src/dsgrn_net_query/utilities/poset_utilities.py:54-59 | a single name becomes a one-element list, a list is used as given, anything else is a ValueError |
| PosetMerge.MergeOn | src/dsgrn_net_query/utilities/poset_utilities.py:69-73 | merging a file's posets keeps every key already present and adds the file's keys |
| PosetMerge.MergeKeepsOthers | src/dsgrn_net_query/utilities/poset_utilities.py:69-73 | merging one file's posets leaves every other file's dataset untouched |
| PosetMerge.MergedOnIs | src/dsgrn_net_query/utilities/poset_utilities.py:69-73 | a table that agrees key by key with the merge is the merge |
| PosetMerge.MergeFile | src/dsgrn_net_query/utilities/poset_utilities.py:69-73 | the loop over a file's keys computes the merge |
| PosetMerge.CalculateFromMultiple | src/dsgrn_net_query/utilities/poset_utilities.py:41-78 | the loop over the files computes the merged table and the networks kept for some file |
| PosetMerge.MergeAllErrFinal | src/dsgrn_net_query/utilities/poset_utilities.py:64-66 | once a file raises, later files do not change the outcome |
| PosetMerge.MergeAllErr | src/dsgrn_net_query/utilities/poset_utilities.py:64-66 | the merge raises iff some file has a covered network whose posets are `None`, with ValueError("poset is None!") |
| PosetMerge.MergeAllNetworks | src/dsgrn_net_query/utilities/poset_utilities.py:61-67 | a network is returned iff it is listed and some file has series for all its names |
| PosetMerge.MergeAllEntries | src/dsgrn_net_query/utilities/poset_utilities.py:62-73 | a key holds a dataset for a file iff some network with those names is covered by that file; that dataset is the file's posets, and each key's datasets form a dictionary |
| PatternDbQuery.SanityCheck | src/dsgrn_net_query/queries/CountPatternMatch_DB.py:83-96 | the configuration is accepted iff the posets come from exactly one source (literal `posets`, or all three time-series keys) and the three mode keys are present; every rejection is a ValueError |
| PatternDbQuery.BothSourcesRejectedFirst | src/dsgrn_net_query/queries/CountPatternMatch_DB.py:89-90 | giving both `posets` and `epsilons` reports the one-source message before any other |
| PatternDbQuery.InsertByEpsPerm | src/dsgrn_net_query/queries/CountPatternMatch_large_networks_parameter_indices.py:123 | inserting a pair keeps every pair |
| PatternDbQuery.InsertByEpsSorted | src/dsgrn_net_query/queries/CountPatternMatch_large_networks_parameter_indices.py:123 | inserting into a list ordered by noise level keeps it ordered |
| PatternDbQuery.SortByEpsSorts | src/dsgrn_net_query/queries/CountPatternMatch_large_networks_parameter_indices.py:123 | `sorted(pos)` orders the pairs by noise level and is a permutation of them |
| PatternDbQuery.SortRealsSorts | src/dsgrn_net_query/queries/CountPatternMatch_large_networks_parameter_indices.py:127 | `sorted` on noise levels orders them and is a permutation |
| PatternDbQuery.EpsOf | src/dsgrn_net_query/queries/CountPatternMatch_large_networks_parameter_indices.py:127 | one noise level per pair, the pair's own |
| PatternDbQuery.EpsOfSorted | src/dsgrn_net_query/queries/CountPatternMatch_large_networks_parameter_indices.py:123-127 | the noise levels of the sorted pairs are the sorted noise levels |
| PatternDbQuery.Single | src/dsgrn_net_query/queries/CountPatternMatch_DB.py:109 | a literal poset list is stored as a dictionary with the single dataset "no_time_series_file" |
| PatternDbQuery.LiteralTableKeys | src/dsgrn_net_query/queries/CountPatternMatch_DB.py:105-109 | the table's keys are exactly the sorted names of the literal entries |
| PatternDbQuery.LiteralTableLastWins | src/dsgrn_net_query/queries/CountPatternMatch_DB.py:105-109 | a key holds the list of the last entry with those names |
| PatternDbQuery.FirstNamesCovered | src/dsgrn_net_query/queries/CountPatternMatch_DB.py:105-110 | once stored, the first entry's names are among the table's names |
| PatternDbQuery.StoreEntry | src/dsgrn_net_query/queries/CountPatternMatch_large_networks_parameter_indices.py:119-127 | one entry stores its (sorted, in the parameter-indices query) list under its sorted names, sets `timeseriesfname`, and fills a missing `epsilons` with its sorted noise levels |
| PatternDbQuery.LiteralPosetsAsWritten | src/dsgrn_net_query/queries/CountPatternMatch_DB.py:103-111 | as written, with `check_posets` inside the loop: the table holds every entry, but only networks the first entry covers are kept |
| PatternDbQuery.KeptAfterCheck | src/dsgrn_net_query/queries/CountPatternMatch_DB.py:110 | every check after the first keeps exactly the networks the first entry covers |
| PatternDbQuery.LiteralCheckInsideLoopDropsNetworks | src/dsgrn_net_query/queries/CountPatternMatch_DB.py:105-110 | with entries over "A" and over "B" and a network over each, the as-written loop keeps only the first network; checking after the loop keeps both |
| PatternDbQuery.LiteralPosets | src/dsgrn_net_query/queries/CountPatternMatch_DB.py:103-111 | as intended: the same table and parameter updates, with the networks checked once against all entries |
| PatternDbQuery.LiteralKeepsCoveredNetworks | src/dsgrn_net_query/queries/CountPatternMatch_DB.py:103-111 | with the check after the loop, a network is kept iff every one of its names occurs in some literal entry |
| PatternDbQuery.LiteralKeepsSubsequence | src/dsgrn_net_query/utilities/poset_utilities.py:81-96 | either way the kept networks are an order-preserving selection of those given |
| PatternDbQuery.GetPosetsAsWritten | src/dsgrn_net_query/queries/CountPatternMatch_DB.py:99-111 | as written: without `posets` the table and networks of the time-series merge, or its error; with `posets` the literal table, the networks the first entry covers (all of them for `{}`), in order, `timeseriesfname` set iff there is an entry, and the filled `epsilons` |
| PatternDbQuery.EmptyLiteralKeepsAllAsWritten | src/dsgrn_net_query/queries/CountPatternMatch_DB.py:103-111 | with `{}` as literal posets every network is kept as written, while the check after the loop would keep only networks without variables |
| PatternDbQuery.GetPosets | src/dsgrn_net_query/queries/CountPatternMatch_DB.py:99-111 | as intended (see "## Findings"): the same, except that with `posets` the networks kept are those every one of whose names occurs in some entry, in order |
| PatternDbCount.FCCount | src/dsgrn_net_query/queries/CountPatternMatch_DB.py:234-246 | `numFC` never exceeds the number of evaluated parameters |
| PatternDbCount.SpecCounts | src/dsgrn_net_query/queries/CountPatternMatch_DB.py:232-264 | a counter per dataset and noise level of that dataset, holding the hits of the parameters so far |
| PatternDbCount.SpecAll | src/dsgrn_net_query/queries/CountPatternMatch_DB.py:229-266 | with several datasets, an "all" set per noise level of the first dataset holding the indices that matched some dataset there; none with one dataset |
| PatternDbCount.SpecTallies | src/dsgrn_net_query/queries/CountPatternMatch_DB.py:229-266 | the specified counters and sets satisfy `Holds` |
| PatternDbCount.InitialTallies | src/dsgrn_net_query/queries/CountPatternMatch_DB.py:229-233 | before any parameter every counter is 0 and every "all" set empty |
| PatternDbCount.HitsSnoc | src/dsgrn_net_query/queries/CountPatternMatch_DB.py:240-264 | one more pair adds one hit at its noise level when its poset is matched |
| PatternDbCount.CountsStep | src/dsgrn_net_query/queries/CountPatternMatch_DB.py:247-264 | raising a counter for one more pair keeps the counters equal to the specified ones |
| PatternDbCount.AllStep | src/dsgrn_net_query/queries/CountPatternMatch_DB.py:249-266 | adding the index to an "all" set for one more pair keeps the sets equal to the specified ones |
| PatternDbCount.TestPoset | src/dsgrn_net_query/queries/CountPatternMatch_DB.py:241-266 | the innermost body raises the domain counter iff the domain search counts the pair, the stable full-cycle counter iff that search does, and reports a new stable full cycle iff the search is on and the parameter has one |
| PatternDbCount.ScanList | src/dsgrn_net_query/queries/CountPatternMatch_DB.py:240-266 | the loop over one dataset's pairs adds the parameter's hits to both searches' tallies and sets `FC`, raising `numFC` once, when a stable full cycle is seen |
| PatternDbCount.ScanParam | src/dsgrn_net_query/queries/CountPatternMatch_DB.py:237-266 | the loop over the datasets adds the parameter's hits to every counter and "all" set and raises `numFC` by one iff the search is on, the parameter has a stable full cycle and some dataset has a pair |
| PatternDbCount.TallySnoc | src/dsgrn_net_query/queries/CountPatternMatch_DB.py:236-266 | one more parameter adds its hits to a counter |
| PatternDbCount.UnionSnoc | src/dsgrn_net_query/queries/CountPatternMatch_DB.py:249-266 | one more parameter joins an "all" set iff it matches some dataset at that noise level |
| PatternDbCount.HoldsStep | src/dsgrn_net_query/queries/CountPatternMatch_DB.py:236-266 | the datasets loop for one more parameter extends the tallies of the parameters before it |
| PatternDbCount.Sweep | src/dsgrn_net_query/queries/CountPatternMatch_DB.py:236-266 | the loop nest leaves the specified counters, "all" sets and `numFC` |
| PatternDbCount.HoldsUnique | src/dsgrn_net_query/queries/CountPatternMatch_DB.py:229-266 | tallies that satisfy the invariant are the specified ones |
| PatternDbCount.RowsFor | src/dsgrn_net_query/queries/CountPatternMatch_DB.py:267-268 | one row per noise level, in order, holding that level's counter |
| PatternDbCount.Sizes | src/dsgrn_net_query/queries/CountPatternMatch_DB.py:270-271 | each "all" row counts the indices in its set |
| PatternDbCount.MakeTable | src/dsgrn_net_query/queries/CountPatternMatch_DB.py:267-271 | one row list per dataset, and with several datasets an "all" list built from the set sizes over the first dataset's noise levels (replacing a dataset named "all") |
| PatternDbCount.Indexed | src/dsgrn_net_query/queries/CountPatternMatch_DB.py:236 | the parameters with their indices, each index once |
| PatternDbCount.PathMatchesWithCount | src/dsgrn_net_query/queries/CountPatternMatch_DB.py:220-272 | both tables are built from the specified tallies over every parameter, the stable full-cycle one with `numFC` |
| PatternDbCount.Selected | src/dsgrn_net_query/queries/CountPatternMatch_DB.py:204-205 | the parameters at the reported indices, in that order |
| PatternDbCount.PathMatchesStableFCOnly | src/dsgrn_net_query/queries/CountPatternMatch_DB.py:184-217 | no domain results; the stable full-cycle table of the reported parameters with `numFC` the number reported |
| PatternDbCount.HitsMatches | src/dsgrn_net_query/queries/CountPatternMatch_DB.py:247-264 | a parameter raises a counter iff it matches some pair at that noise level, and at most once when each noise level occurs once |
| PatternDbCount.DuplicateEpsCountsTwice | src/dsgrn_net_query/queries/CountPatternMatch_DB.py:232-248 | two pairs at one noise level share a counter, so a parameter matching both is counted twice |
| PatternDbCount.TallyCountsMatches | src/dsgrn_net_query/queries/CountPatternMatch_DB.py:236-266 | with distinct indices and distinct noise levels, a counter is the number of parameters that match at that level |
| PatternDbCount.TallyAtMostEvaluated | src/dsgrn_net_query/queries/CountPatternMatch_DB.py:236-266 | no counter exceeds the number of evaluated parameters |
| PatternDbCount.FCAtMostDomain | src/dsgrn_net_query/queries/CountPatternMatch_DB.py:247-254 | with both searches on, no stable full-cycle counter exceeds its domain counter |
| PatternDbCount.FCMatchesAtMostNumFC | src/dsgrn_net_query/queries/CountPatternMatch_DB.py:243-248 | no stable full-cycle counter exceeds `numFC` |
| PatternDbCount.UnionBounds | src/dsgrn_net_query/queries/CountPatternMatch_DB.py:249-271 | an "all" count lies between any one dataset's counter and both the number of evaluated parameters and the sum of the datasets' counters at that level |
| PatternDbCount.MatchSetAtMostTally | src/dsgrn_net_query/queries/CountPatternMatch_DB.py:236-266 | a counter is at least the number of distinct parameter indices that match at its level, whatever the indices or levels repeat |
| PatternDbCount.MatchUnionAtMostSum | src/dsgrn_net_query/queries/CountPatternMatch_DB.py:229-271 | the indices matching some of the given datasets are no more than those datasets' counters added up |
| PatternDbCount.MatchUnionMeaning | src/dsgrn_net_query/queries/CountPatternMatch_DB.py:249-266 | an index is in the union over the given datasets iff it matches one of them |
| PatternDbCount.UnionAtMostSum | src/dsgrn_net_query/queries/CountPatternMatch_DB.py:229-271 | an "all" set is no larger than the sum over the datasets of their counters at that level |
| PatternDbExists.FoundAtIff | src/dsgrn_net_query/queries/CountPatternMatch_DB.py:299-308 | a parameter raises the flag at a noise level iff it matches some pair at that level |
| PatternDbExists.FoundByIff | src/dsgrn_net_query/queries/CountPatternMatch_DB.py:296-308 | a flag ends raised iff some parameter matches some pair at its noise level |
| PatternDbExists.FoundByPrefix | src/dsgrn_net_query/queries/CountPatternMatch_DB.py:301-308 | a raised flag stays raised |
| PatternDbExists.SpecFlags | src/dsgrn_net_query/queries/CountPatternMatch_DB.py:293-308 | the specified flags satisfy `FlagsHold` |
| PatternDbExists.FlagsUnique | src/dsgrn_net_query/queries/CountPatternMatch_DB.py:293-308 | flags that satisfy the invariant are the specified ones |
| PatternDbExists.InitialFlags | src/dsgrn_net_query/queries/CountPatternMatch_DB.py:293-294 | before any parameter every flag is down |
| PatternDbExists.FlagsStep | src/dsgrn_net_query/queries/CountPatternMatch_DB.py:301-308 | testing one more pair changes only its own flag, raising it when the pair matches |
| PatternDbExists.ScanFlags | src/dsgrn_net_query/queries/CountPatternMatch_DB.py:299-308 | the loop over one dataset's pairs raises exactly the flags the parameter matches, testing no raised flag again |
| PatternDbExists.FlagsAddedAllStep | src/dsgrn_net_query/queries/CountPatternMatch_DB.py:298-308 | testing one more dataset adds that dataset's flags |
| PatternDbExists.ScanParamFlags | src/dsgrn_net_query/queries/CountPatternMatch_DB.py:298-308 | the loop over the datasets adds the parameter's matches to every flag |
| PatternDbExists.FlagsHoldStep | src/dsgrn_net_query/queries/CountPatternMatch_DB.py:296-308 | one more parameter extends the flags of those before it |
| PatternDbExists.AllFound | src/dsgrn_net_query/queries/CountPatternMatch_DB.py:309-312 | the early-exit test is true iff every flag of both searches is raised |
| PatternDbExists.CompleteFinal | src/dsgrn_net_query/queries/CountPatternMatch_DB.py:313-314 | once every flag is raised, stopping early gives the flags of the whole sweep |
| PatternDbExists.FormatFlags | src/dsgrn_net_query/queries/CountPatternMatch_DB.py:285-290 | per dataset, in order, a row `(eps, found, size)` per noise level in order of first appearance |
| PatternDbExists.PathMatchesWithoutCount | src/dsgrn_net_query/queries/CountPatternMatch_DB.py:275-315 | the early-exit sweep returns the formatted flags of a sweep over every parameter, for both searches |
| PatternDbExists.ExistsAgreesWithCount | src/dsgrn_net_query/queries/CountPatternMatch_DB.py:236-308 | a flag is raised iff the count mode's counter is positive; for the domain search with both searches on this needs every stable full-cycle match to be a domain-graph match |
| PatternDbSearch.Requested | src/dsgrn_net_query/queries/CountPatternMatch_DB.py:131-141 | `ER` holds "domain" iff the domain search was requested and "stablefc" iff the stable full-cycle search was, each with its answer, and nothing else |
| PatternDbSearch.SearchOverNetworks | src/dsgrn_net_query/queries/CountPatternMatch_DB.py:115-144 | a network whose sorted names key no posets raises KeyError; otherwise the sweep chosen by the mode runs and its requested answers are returned with the specification |
| PatternDbSearch.FCIndices | src/dsgrn_net_query/queries/CountPatternMatch_DB.py:201 | the reported indices are parameter indices |
| PatternDbSearch.NoFCNoHits | src/dsgrn_net_query/queries/CountPatternMatch_DB.py:356-374 | a parameter without a stable full cycle raises no stable full-cycle counter |
| PatternDbSearch.HitsIgnoreDomain | src/dsgrn_net_query/queries/CountPatternMatch_DB.py:242-250 | the stable full-cycle counter does not depend on the domain search |
| PatternDbSearch.FCOnlyTally | src/dsgrn_net_query/queries/CountPatternMatch_DB.py:204-250 | leaving out the parameters without a stable full cycle keeps every stable full-cycle counter |
| PatternDbSearch.SelectedFCIndices | src/dsgrn_net_query/queries/CountPatternMatch_DB.py:201-205 | the parameters at the reported indices are those with a stable full cycle, in order |
| PatternDbSearch.StableFCOnlyAgrees | src/dsgrn_net_query/queries/CountPatternMatch_DB.py:184-272 | when the database reports exactly the parameters with a stable full cycle, the shortcut's counters equal the full sweep's |
| LargePathMatch.MarksSnoc | src/dsgrn_net_query/queries/CountPatternMatch_large_networks.py:197-202 | one more pair sets the answer at its noise level and keeps the others, so a later pair with the same level replaces an earlier answer |
| LargePathMatch.ScanDataset | src/dsgrn_net_query/queries/CountPatternMatch_large_networks.py:197-202 | the loop over a dataset's pairs leaves the specified domain and stable full-cycle answers and leaves `FC` that of the last pair |
| LargePathMatch.Expected | src/dsgrn_net_query/queries/CountPatternMatch_large_networks.py:203-209 | "domain" is present iff the domain search is on, "stablefc" and "match" iff the stable full-cycle search is |
| LargePathMatch.VisitDataset | src/dsgrn_net_query/queries/CountPatternMatch_large_networks.py:196-202 | scanning one more dataset extends the answers of the datasets before it |
| LargePathMatch.PathMatch | src/dsgrn_net_query/queries/CountPatternMatch_large_networks.py:181-209 | the loop nest returns the specified answers, with "stablefc" true iff the parameter has a stable full cycle and some dataset has a pair |
| LargePathMatch.ScannedAll | src/dsgrn_net_query/queries/CountPatternMatch_large_networks.py:192-202 | after every dataset, the answers are each dataset's answers |
| LargePathMatch.MatchImpliesFlag | src/dsgrn_net_query/queries/CountPatternMatch_large_networks.py:202-246 | a true stable full-cycle answer comes with a true "stablefc" flag |
| ParamIndices.Pick | src/dsgrn_net_query/queries/CountPatternMatch_large_networks_parameter_indices.py:205-207 | the next key of a dictionary iteration is one of its keys |
| ParamIndices.AddAtStep | src/dsgrn_net_query/queries/CountPatternMatch_large_networks_parameter_indices.py:207-211 | visiting one more answer adds the index where the answer is true |
| ParamIndices.ScanMarks | src/dsgrn_net_query/queries/CountPatternMatch_large_networks_parameter_indices.py:207-218 | the loop over one answer dictionary raises KeyError iff a true answer sits at a level outside the epsilons; otherwise it adds the index to the dataset's set, and with several datasets to the "all" set, at every true level |
| ParamIndices.Zero | src/dsgrn_net_query/queries/CountPatternMatch_large_networks_parameter_indices.py:195-204 | an empty set at every epsilon |
| ParamIndices.AddAtIs | src/dsgrn_net_query/queries/CountPatternMatch_large_networks_parameter_indices.py:207-211 | adding the index exactly at the true levels is the specified update |
| ParamIndices.AmongStep | src/dsgrn_net_query/queries/CountPatternMatch_large_networks_parameter_indices.py:207-209 | once visited, an index is among the matching indices at a level iff its answer there is true |
| ParamIndices.MatchSetsStep | src/dsgrn_net_query/queries/CountPatternMatch_large_networks_parameter_indices.py:205-209 | visiting one more index extends the per-dataset sets |
| ParamIndices.SoFarStep | src/dsgrn_net_query/queries/CountPatternMatch_large_networks_parameter_indices.py:210-211 | visiting one more index extends the "all" sets |
| ParamIndices.CollectStep | src/dsgrn_net_query/queries/CountPatternMatch_large_networks_parameter_indices.py:205-218 | visiting index `i` adds it at exactly the levels where its answer is true |
| ParamIndices.FCFlagsStep | src/dsgrn_net_query/queries/CountPatternMatch_large_networks_parameter_indices.py:213 | one more flag adds one to the stable full-cycle total iff it is true |
| ParamIndices.VisitParam | src/dsgrn_net_query/queries/CountPatternMatch_large_networks_parameter_indices.py:205-218 | the body for one parameter raises iff its result cannot be read for the dataset, and otherwise extends every set and the total |
| ParamIndices.CollectedStart | src/dsgrn_net_query/queries/CountPatternMatch_large_networks_parameter_indices.py:202-204 | before any index the per-dataset sets are empty and the "all" sets are those of the earlier datasets |
| ParamIndices.SoFarDone | src/dsgrn_net_query/queries/CountPatternMatch_large_networks_parameter_indices.py:205-218 | after every index the "all" sets take in the dataset |
| ParamIndices.ScanOutput | src/dsgrn_net_query/queries/CountPatternMatch_large_networks_parameter_indices.py:202-218 | the loop over `output` for one dataset raises iff some result cannot be read, and otherwise leaves the specified sets and total |
| ParamIndices.LevelsMeaning | src/dsgrn_net_query/queries/CountPatternMatch_large_networks_parameter_indices.py:220-231 | the rows list each epsilon once, in increasing order |
| ParamIndices.CountOne | src/dsgrn_net_query/queries/CountPatternMatch_large_networks_parameter_indices.py:220 | without repeats every level occurs once in the rows |
| ParamIndices.FinalSets | src/dsgrn_net_query/queries/CountPatternMatch_large_networks_parameter_indices.py:219-231 | the sets behind the rows of a dataset key have a member per epsilon |
| ParamIndices.InitTable | src/dsgrn_net_query/queries/CountPatternMatch_large_networks_parameter_indices.py:183-197 | a placeholder under each dataset key, "all" last with several datasets |
| ParamIndices.ListsFor | src/dsgrn_net_query/queries/CountPatternMatch_large_networks_parameter_indices.py:221-231 | the index lists: per level in increasing order, the matching indices in increasing order |
| ParamIndices.IndexListsAt | src/dsgrn_net_query/queries/CountPatternMatch_large_networks_parameter_indices.py:221 | a list with the level and the sorted indices at every position is the index list |
| ParamIndices.HoldsStep | src/dsgrn_net_query/queries/CountPatternMatch_large_networks_parameter_indices.py:219-224 | storing under a placeholder key keeps the key order |
| ParamIndices.HoldsGrow | src/dsgrn_net_query/queries/CountPatternMatch_large_networks_parameter_indices.py:221-224 | storing under a new key appends it |
| ParamIndices.HoldsDone | src/dsgrn_net_query/queries/CountPatternMatch_large_networks_parameter_indices.py:225-231 | with the "all" entry stored last the dictionary holds the intended entry under every dataset key |
| ParamIndices.StoreRows | src/dsgrn_net_query/queries/CountPatternMatch_large_networks_parameter_indices.py:220-223 | one dataset's count rows stored under its name |
| ParamIndices.StoreLists | src/dsgrn_net_query/queries/CountPatternMatch_large_networks_parameter_indices.py:221-224 | one dataset's index lists stored under its name |
| ParamIndices.StoreAll | src/dsgrn_net_query/queries/CountPatternMatch_large_networks_parameter_indices.py:210-218 | the "all" sets take in one more dataset |
| ParamIndices.StoreDataset | src/dsgrn_net_query/queries/CountPatternMatch_large_networks_parameter_indices.py:219-224 | storing one dataset's rows and lists keeps the state of the datasets loop |
| ParamIndices.UnionNone | src/dsgrn_net_query/queries/CountPatternMatch_large_networks_parameter_indices.py:195-200 | before any dataset the "all" sets are empty |
| ParamIndices.FinishTable | src/dsgrn_net_query/queries/CountPatternMatch_large_networks_parameter_indices.py:225-230 | after the "all" rows one search's table is the specified one |
| ParamIndices.FinishLists | src/dsgrn_net_query/queries/CountPatternMatch_large_networks_parameter_indices.py:225-231 | after the "all" lists one search's index lists are the specified ones |
| ParamIndices.FailsAt | src/dsgrn_net_query/queries/CountPatternMatch_large_networks_parameter_indices.py:207-214 | a result unreadable for one dataset makes `reformat_output` raise |
| ParamIndices.ReformatStep | src/dsgrn_net_query/queries/CountPatternMatch_large_networks_parameter_indices.py:201-224 | one pass of the datasets loop extends the state, or raises because some result cannot be read |
| ParamIndices.FinishSearch | src/dsgrn_net_query/queries/CountPatternMatch_large_networks_parameter_indices.py:225-231 | with several datasets the "all" rows and lists, counted over the union, complete the specified table and lists |
| ParamIndices.ProgressStart | src/dsgrn_net_query/queries/CountPatternMatch_large_networks_parameter_indices.py:183-200 | before the first dataset: placeholders under every key, no lists, empty "all" sets |
| ParamIndices.Reformat | src/dsgrn_net_query/queries/CountPatternMatch_large_networks_parameter_indices.py:182-232 | `reformat_output` raises KeyError iff some result cannot be read for some dataset, and otherwise returns the specified tables and index lists |
| ParamIndices.RowsMeaning | src/dsgrn_net_query/queries/CountPatternMatch_large_networks_parameter_indices.py:219-231 | every row list and index list has one entry per distinct epsilon, in increasing order, and the count of a row is the length of the index list beside it |
| ParamIndices.AllIsUnion | src/dsgrn_net_query/queries/CountPatternMatch_large_networks_parameter_indices.py:210-231 | every per-dataset set lies inside the "all" set, which is the union of the per-dataset sets; its size is between any one dataset's count and both the number of evaluated parameters and the sum of the per-dataset counts |
| ParamIndices.AcrossAtMostSum | src/dsgrn_net_query/queries/CountPatternMatch_large_networks_parameter_indices.py:210-231 | the indices matching some dataset are no more than the per-dataset counts added up |
| ParamIndices.TableAt | src/dsgrn_net_query/queries/CountPatternMatch_large_networks_parameter_indices.py:220-230 | the rows under a key are the count rows of its final sets |
| ParamIndices.CountRowsShape | src/dsgrn_net_query/queries/CountPatternMatch_large_networks_parameter_indices.py:220-230 | each row carries `numFC` when it is present, and the graph's size |
| ParamIndices.RowShapes | src/dsgrn_net_query/queries/CountPatternMatch_large_networks_parameter_indices.py:213-230 | every stable full-cycle row carries the total of true "stablefc" flags; domain rows carry only the size |
| ParamIndices.Evaluated | src/dsgrn_net_query/queries/CountPatternMatch_large_networks_parameter_indices.py:82-85 | `parameter_list` when given, else every index of the parameter graph in order |
| ParamIndices.OutputKeys | src/dsgrn_net_query/queries/CountPatternMatch_large_networks_parameter_indices.py:87-88 | the output holds one result per distinct evaluated index, each with exactly the answers of the requested searches |
| ParamIndices.HitHasFlag | src/dsgrn_net_query/queries/CountPatternMatch_large_networks_parameter_indices.py:255-299 | a true stable full-cycle answer comes with a true "stablefc" flag |
| ParamIndices.MatchesWithinFC | src/dsgrn_net_query/queries/CountPatternMatch_large_networks_parameter_indices.py:212-223 | no stable full-cycle count exceeds the "stablefc" total beside it |
| ParamIndices.CoveredReadable | src/dsgrn_net_query/queries/CountPatternMatch_large_networks_parameter_indices.py:189-218 | when the epsilons take in every noise level of every dataset, `reformat_output` does not raise |
| ParamIndices.CollectOutput | src/dsgrn_net_query/queries/CountPatternMatch_large_networks_parameter_indices.py:87-88 | the results of `PathMatch` per index, a later result for a repeated index replacing the earlier |
| ParamIndices.Query | src/dsgrn_net_query/queries/CountPatternMatch_large_networks_parameter_indices.py:71-94 | no networks give no result; without `count` a ValueError; otherwise the first specification's results are reformatted, with KeyError when its names have no posets |
| ResultFiles.ItemKeys | src/dsgrn_net_query/queries/CountPatternMatch_DB.py:172 | one key per item, the item's own |
| ResultFiles.FilterMeaning | src/dsgrn_net_query/queries/CountPatternMatch_DB.py:172-176 | the pairs gathered under a key are exactly those of the items met with that key |
| ResultFiles.FilterAbsent | src/dsgrn_net_query/queries/CountPatternMatch_DB.py:172-176 | a key never met gathers nothing |
| ResultFiles.Grouped | src/dsgrn_net_query/queries/CountPatternMatch_DB.py:167-176 | `reparse` is a well-formed dictionary |
| ResultFiles.GroupedMeaning | src/dsgrn_net_query/queries/CountPatternMatch_DB.py:167-176 | `reparse` has a group for exactly the keys met |
| ResultFiles.GroupedSnoc | src/dsgrn_net_query/queries/CountPatternMatch_DB.py:173-176 | one more item appends to its key's group, or opens a group for a new key at the end |
| ResultFiles.Reparse | src/dsgrn_net_query/queries/CountPatternMatch_DB.py:167-176 | the loop that fills `reparse` groups the items in the order they are met |
| ResultFiles.DatasetItems | src/dsgrn_net_query/queries/CountPatternMatch_DB.py:171-176 | one item per dataset of a search, in order, keyed by (search, dataset) |
| ResultFiles.DatasetItemsMeaning | src/dsgrn_net_query/queries/CountPatternMatch_DB.py:171-176 | an item is met for a search iff it is one of the search's datasets with its list |
| ResultFiles.SearchItemsMeaning | src/dsgrn_net_query/queries/CountPatternMatch_DB.py:169-176 | the loop over the first searches raises iff one of them is not a parameter key; otherwise it meets exactly the lists of the searches whose parameter is true |
| ResultFiles.SearchItemsAll | src/dsgrn_net_query/queries/CountPatternMatch_DB.py:169-176 | the same for all of a network's searches |
| ResultFiles.NetItemsMeaning | src/dsgrn_net_query/queries/CountPatternMatch_DB.py:168-176 | the loops over the first networks raise iff one has a search that is not a parameter key, and otherwise meet exactly the lists under the kept searches |
| ResultFiles.NetItemsAll | src/dsgrn_net_query/queries/CountPatternMatch_DB.py:168-176 | the loops over all networks raise iff some network has an unknown search, and otherwise meet exactly the kept lists |
| ResultFiles.DropExtension | src/dsgrn_net_query/queries/CountPatternMatch_large_networks_parameter_indices.py:171 | a base name without a dot is its own stem |
| ResultFiles.SavedFiles | src/dsgrn_net_query/queries/CountPatternMatch_DB.py:177-180 | one file per group, in the order of the keys, each named and filled from its group |
| ResultFiles.SaveAll | src/dsgrn_net_query/queries/CountPatternMatch_DB.py:177-180 | the loop over `reparse` saves the files in order |
| ResultFiles.GroupBody | src/dsgrn_net_query/queries/CountPatternMatch_DB.py:174-180 | a group's dictionary holds, under each network, the list of the last item of that network with the group's key |
| ResultFiles.BodyListed | src/dsgrn_net_query/queries/CountPatternMatch_DB.py:168-180 | when the items are exactly the kept lists, every entry of a file is a network's list for that file's search and dataset |
| ResultFiles.SavedMeaning | src/dsgrn_net_query/queries/CountPatternMatch_DB.py:167-180 | a file holds, under each network that has a list for its search and dataset, that list |
| ResultFiles.RecordDb | src/dsgrn_net_query/queries/CountPatternMatch_DB.py:147-181 | the files saved, in order, or KeyError when a search is not a parameter key |
| ResultFiles.NetItemsError | src/dsgrn_net_query/queries/CountPatternMatch_DB.py:170 | the only error the loops raise is KeyError |
| ResultFiles.Tables | src/dsgrn_net_query/queries/CountPatternMatch_large_networks_parameter_indices.py:154-161 | the searches of one result besides "param_list" are "domain" and "stablefc", each a well-formed table |
| ResultFiles.Lists | src/dsgrn_net_query/queries/CountPatternMatch_large_networks_parameter_indices.py:162-169 | the searches of "param_list" are "domain" and "stablefc", each well formed |
| ResultFiles.TablesNested | src/dsgrn_net_query/queries/CountPatternMatch_large_networks_parameter_indices.py:153-161 | the count tables by network are well formed and hold only known searches |
| ResultFiles.ListsNested | src/dsgrn_net_query/queries/CountPatternMatch_large_networks_parameter_indices.py:162-169 | the index lists by network are well formed and hold only known searches |
| ResultFiles.NoUnknownSearch | src/dsgrn_net_query/queries/CountPatternMatch_large_networks_parameter_indices.py:153-169 | with "domain" and "stablefc" among the parameters the variant's loops never raise |
| ResultFiles.RecordParamIndices | src/dsgrn_net_query/queries/CountPatternMatch_large_networks_parameter_indices.py:131-179 | first the count files named by the base name without its last extension, then the index-list files ending in "_param_list" |
| ResultFiles.TokensDiffer | src/dsgrn_net_query/queries/CountPatternMatch_DB.py:178 | for `dir/a.b.ext` the token is `a` while the stem is `a.b` |
| ResultFiles.StemOf | src/dsgrn_net_query/queries/CountPatternMatch_large_networks_parameter_indices.py:171 | the stem of `stem.ext` is `stem` |
| ResultFiles.TokensAgreeWithoutDot | src/dsgrn_net_query/queries/CountPatternMatch_large_networks.py:175 | a base name without a dot gives itself as token both ways |
| Signatures.Graphs | src/dsgrn_net_query/utilities/signatures_no_mpi.py:21 | the Morse graph strings of the pairs, in order |
| Signatures.IndexOf | src/dsgrn_net_query/utilities/signatures_no_mpi.py:22-23 | the position of a registered string holds that string |
| Signatures.IndexOfUnique | src/dsgrn_net_query/utilities/signatures_no_mpi.py:22-27 | in a list without repeats the position is the only one holding the string |
| Signatures.Interned | src/dsgrn_net_query/utilities/signatures_no_mpi.py:19-28 | one (parameter index, Morse graph index) pair per input pair |
| Signatures.DistinctSnoc | src/dsgrn_net_query/utilities/signatures_no_mpi.py:22-27 | one more string joins the distinct strings iff it is new |
| Signatures.DistinctPrefix | src/dsgrn_net_query/utilities/signatures_no_mpi.py:22-27 | the distinct strings of a prefix come first among those of the whole list |
| Signatures.InternNext | src/dsgrn_net_query/utilities/signatures_no_mpi.py:21-28 | one pass: a string already met keeps its index, a new one gets the number of strings met so far and is appended to `morsegraphs` |
| Signatures.RegisterNew | src/dsgrn_net_query/utilities/signatures_no_mpi.py:25-27 | registering a new string at the next index keeps the index map and `morsegraphs` in step |
| Signatures.TabledGrow | src/dsgrn_net_query/utilities/signatures_no_mpi.py:28 | the yielded pair extends the table |
| Signatures.SignaturesTable | src/dsgrn_net_query/utilities/signatures_no_mpi.py:18-28 | the loop yields the interned pairs and leaves the distinct strings, in order of first appearance, in `morsegraphs` |
| Signatures.SameIndexIffSameGraph | src/dsgrn_net_query/utilities/signatures_no_mpi.py:22-26 | two pairs get the same Morse graph index iff their strings are equal |
| Signatures.InternedDense | src/dsgrn_net_query/utilities/signatures_no_mpi.py:25 | every index below the number of distinct strings is used |
| Signatures.InternedNames | src/dsgrn_net_query/utilities/signatures_no_mpi.py:28-31 | each pair keeps its parameter index, and its Morse graph index names its own string in `morsegraphs` |
| Signatures.NewGraphIndex | src/dsgrn_net_query/utilities/signatures_no_mpi.py:25 | a string not met before gets the number of distinct strings met before it |
| Signatures.DbNameRoundTrip | src/dsgrn_net_query/utilities/signatures_no_mpi.py:33-35 | a trailing ".db" is removed once and putting it back gives the file name; other names are kept |
| Signatures.SaveDatabase | src/dsgrn_net_query/utilities/signatures_no_mpi.py:5-41 | the stored name, Signatures table and Morse graph strings are the file name without ".db", the interned pairs and the distinct strings |
| Signatures.MakeResults | src/dsgrn_net_query/utilities/signatures_no_mpi.py:75-78 | one pair per parameter index, in order, with that parameter's Morse graph string |
| Signatures.MakeDb | src/dsgrn_net_query/utilities/signatures_no_mpi.py:73-79 | one signature per parameter, whose Morse graph index names that parameter's string; the strings are listed once each and are exactly those of some parameter |
| FileUtilities.StripNewlines | src/dsgrn_net_query/utilities/file_utilities.py:68-69 | the result is a prefix that does not end in '\n', and only newlines were removed |
| FileUtilities.StripAppended | src/dsgrn_net_query/utilities/file_utilities.py:68-69 | newlines appended to a text not ending in one are exactly what is stripped |
| FileUtilities.ReadNetworks | src/dsgrn_net_query/utilities/file_utilities.py:50-71 | the trimming loop computes what `read_networks` specifies: a list as given, NameError for another object, `[]` for an empty file, the literal list for a file starting with '[', IndexError for a file of newlines, else the one stripped specification |
| FileUtilities.ReadsSingleSpec | src/dsgrn_net_query/utilities/file_utilities.py:58-71 | a single specification followed by newlines reads back as itself |
| FileUtilities.SingleSpecShape | src/dsgrn_net_query/utilities/file_utilities.py:66-71 | a non-empty file not starting with '[' raises iff it holds only newlines, and otherwise gives one non-empty specification not ending in '\n' |
| FileUtilities.NoDotExtension | src/dsgrn_net_query/utilities/file_utilities.py:11 | a name without a dot is its own extension |
| FileUtilities.DotSuffixShape | src/dsgrn_net_query/utilities/file_utilities.py:11 | the extension is the whole name or follows a dot |
| FileUtilities.ExtensionShape | src/dsgrn_net_query/utilities/file_utilities.py:11 | the extension read off a name is the whole name or follows its last dot |
| FileUtilities.ExtensionOfSuffix | src/dsgrn_net_query/utilities/file_utilities.py:11 | a name ending in '.' and a dot-free `ext` has extension `ext` |
| FileUtilities.ExtensionIs | src/dsgrn_net_query/utilities/file_utilities.py:11 | the extension is a dot-free `ext` iff the name is `ext` or ends in '.' and `ext` |
| FileUtilities.ReaderForExtension | src/dsgrn_net_query/utilities/file_utilities.py:11-17 | the reader is chosen by the extension alone; any other extension is a ValueError with the source's message |
| FileUtilities.ReaderForMeaning | src/dsgrn_net_query/utilities/file_utilities.py:4-18 | the tab reader iff the name is "tsv" or ends in ".tsv", the comma reader iff it is "csv" or ends in ".csv", else the ValueError |
| FileUtilities.Zip | src/dsgrn_net_query/utilities/file_utilities.py:33-47 | `zip(names, series)` pairs each name with its series, in order |
| FileUtilities.SeriesByNameMeaning | src/dsgrn_net_query/utilities/file_utilities.py:21-47 | `readrow`/`readcol` raise ValueError iff a name is repeated; otherwise the dictionary lists the names in order, each with its own series |
| FileUtilities.JoinAddsSlash | src/dsgrn_net_query/utilities/file_utilities.py:85-89 | joining onto a directory not ending in '/' puts one '/' between |
| FileUtilities.NoTrailingSlash | src/dsgrn_net_query/utilities/file_utilities.py:85-89 | a folder name ending in a date-time free of '/' does not end in '/' |
| FileUtilities.ResultsFolderPaths | src/dsgrn_net_query/utilities/file_utilities.py:74-95 | the queries and inputs folders sit in `dsgrn_net_query_results<datetime>` under the expanded results directory, named `queries<datetime>` and `inputs<datetime>` |
| FileUtilities.ResultsFolderInputs | src/dsgrn_net_query/utilities/file_utilities.py:83-95 | a given date-time is used whatever the clock says; the network file is always copied, the parameter file iff its name is non-empty, and nothing else |
| Strings.RemoveMultiset | src/dsgrn_net_query/queries/CountFPMatch.py:179 | `replace(",", "")` deletes exactly the commas |
| Strings.SplitAroundSpace | src/dsgrn_net_query/queries/CountFPMatch.py:179 | one white-space character separates the words on its left from those on its right |
| Strings.SplitJoin | src/dsgrn_net_query/queries/CountFPMatch.py:179 | words joined by blanks split back into the same words |
| Strings.ParseNatToString | src/dsgrn_net_query/queries/CountFPMatch.py:179 | `int(str(n)) == n` |
| Strings.AfterLastRest | src/dsgrn_net_query/utilities/file_utilities.py:11 | the text after the last `c` of `stem + c + rest` is `rest` when `rest` has no `c` |
| Strings.BeforeFirstStem | src/dsgrn_net_query/queries/CountPatternMatch_DB.py:178 | the text before the first `c` of `stem + c + rest` is `stem` when `stem` has no `c` |
| Strings.PathJoin | src/dsgrn_net_query/utilities/file_utilities.py:85-89 | the directory is a prefix and the name a suffix of the joined path, which is the name alone for an empty directory |
| Dicts.SetSizeNoDuplicates | src/dsgrn_net_query/utilities/file_utilities.py:31-44 | `len(set(names)) < len(names)` iff some name is repeated |
| Dicts.FromPairsLastWins | src/dsgrn_net_query/queries/CountPatternMatch_DB.py:180 | in `dict(pairs)` a key holds the value of its last pair |
| Dicts.FromPairsOrder | src/dsgrn_net_query/utilities/file_utilities.py:33-47 | with no repeated key, `dict(pairs)` lists the keys in the order of the pairs |
| Dicts.Lookup | src/dsgrn_net_query/queries/CountPatternMatch_DB.py:130 | `d[k]` raises KeyError iff `k` is missing, and otherwise gives its value |
| Dicts.Put | src/dsgrn_net_query/utilities/poset_utilities.py:71-73 | `d[k] = v` keeps a present key's place, puts a new key last, and stores `v` |
| IndexSets.MinExists | src/dsgrn_net_query/queries/CountPatternMatch_large_networks_parameter_indices.py:221 | a non-empty set of indices has a least member |
| IndexSets.SortedOf | src/dsgrn_net_query/queries/CountPatternMatch_large_networks_parameter_indices.py:221 | `sorted(list(s))` is increasing and holds exactly the members of `s`, each once |
| IndexSets.IncreasingUnique | src/dsgrn_net_query/queries/CountPatternMatch_large_networks_parameter_indices.py:221 | an increasing list is fixed by its members |
| IndexSets.SortIndices | src/dsgrn_net_query/queries/CountPatternMatch_large_networks_parameter_indices.py:221 | taking the least remaining member each time gives the sorted list of the set |
| PatternMatch.MatchFlags | src/dsgrn_net_query/queries/patternmatch.py:138-217 | one answer per parameter, entry i being the matching function's answer for parameter i |
| PatternMatchQuery.MatcherNamesCapitalised | src/dsgrn_net_query/queries/patternmatch.py:131-192 | every matching function's name starts with a capital letter |
| PatternMatchQuery.EntriesSnoc | src/dsgrn_net_query/queries/patternmatch.py:109-116 | one more (epsilon, poset) pair appends its element |
| PatternMatchQuery.InitialPairs | src/dsgrn_net_query/queries/patternmatch.py:107 | one key per (matching function, dataset), each with an empty list |
| PatternMatchQuery.SearchNext | src/dsgrn_net_query/queries/patternmatch.py:108-116 | one pass of the datasets loop fills that dataset's lists and keeps the others |
| PatternMatchQuery.RegroupComplete | src/dsgrn_net_query/queries/patternmatch.py:72-74 | a regrouping holding every network's list under the key is the one computed |
| Sweeps.CountTrueSnoc | src/dsgrn_net_query/queries/CountFPMatch.py:107-110 | one more answer adds one to the count iff it is true |

## Left out

- All DSGRN computation (`Network`, `ParameterGraph`, `DomainGraph`, `MorseGraph`, `MorseDecomposition`, `SearchGraph`, `PatternGraph`, `MatchingGraph`, `PathMatch`, `CycleMatch`, `StableFCQuery`, `Database`): these are foreign code, so their answers are oracle fields of `Dsgrn.Parameter` and `Dsgrn.Network`. A network specification reaches them through a function from specification text to network.
- MPI (`MPICommExecutor`, `executor.map`): concurrency is not modelled. The map runs as a sequential loop whose outputs keep their network keys.
- File, database and process I/O (`json.dump`/`json.load`, `open`, `.old` renames of existing result files, `os.makedirs`, `shutil.copy`, `subprocess` calls to `date`, `Signatures` and `rm`, the sqlite database of `SaveDatabase`): these are I/O. Only the path strings and the contents written are modelled. The write of `.query_results.log` is left out for the same reason.
- `os.path.expanduser`, the clock and file contents are parameters of the members that use them.
- Time-series input and poset construction (pandas parsing, `min_interval_posets`, float epsilons): these are foreign code and floating point. The names a file holds and the posets computed from it are inputs, and noise levels are `real` keys.
- `str(eps)` is modelled as the noise level itself, taken as an injective key. The large-network query and its parameter-indices variant differ only in this key form.
- `ast.literal_eval` of network lists and poset dictionaries: this is a foreign parser. Its result is an input, given as a list of specifications or a `Dicts.Dict` of entries.
- Parsing the interned Morse graph strings back into Morse graphs, and the sqlite tables built from them (`signatures_no_mpi.py`): these are foreign code and I/O.
- `NetworkPerturbations` is an outside package whose text is not part of this model. `MultistabilityExists.py` calls its `queries.query_utilities.satisfies_hex_constraints` and `read_networks`, and `queries/CountStableFC.py` its `read_networks`. The model takes these to be the repository's own copies, `HexConstraints.SatisfiesHexConstraints` (after `utilities/dsgrn_utilities.py`) and `FileUtilities.ReadNetworks` (after `utilities/file_utilities.py`).
- FixedPoints.DigitTokens: a token counts as digits only when every character is one of '0'..'9', since DSGRN writes its annotations in ASCII. Python's `str.isdigit` also accepts other Unicode digits, such as "٣", which `int` reads, and superscripts such as "²", on which `int` raises a ValueError; neither case is modelled.
- `get_neighbors` (`utilities/parameter_utilities.py`) relies on an outside package, so its result, a specification and an index list, is an input.
- `OracleError` is a model-only error kind. `ParamIndices.Query` and `FixedPointSweep.Outcome` return it for a parameter index outside the parameter graph, where DSGRN would throw.
- PatternMatchQuery.ExtractQueries: the source's ValueError message also shows the set of unknown names; Python prints a set in hash order, so the modelled message leaves the names out. The same holds for `PatternMatchQuery.ExtractQueriesAsWritten`.
- Dictionary and set iteration order: a dictionary the code iterates and whose order shows in a result is a `Dicts.Dict` in insertion order. Sets of networks and of parameter indices are unordered, and so is the dictionary `reformat_output` iterates, whose order does not change its result.
- PatternDbQuery.SortByEps: `sorted(pos)` of the parameter-indices query breaks ties between equal noise levels by comparing the posets. The model keeps equal noise levels in input order, and proves only that the levels come out sorted and that the pairs are those given.
- The `epsilons` list of the parameter-indices query is an input of `ParamIndices.Query`. With time-series files `sanity_check` demands it. For literal posets `get_posets` fills it in when it is absent (`PatternDbQuery.FilledEpsilons`).
- HexConstraints.SatisfiesHexConstraints: is the intended check over a table keyed by node types, and the multistability sweeps use it. As written, the table read from JSON has string keys and constrains nothing (see "## Findings"); `HexConstraints.SatisfiesLoaded` models that. The TypeError that `dict` raises for a JSON list of pairs is not modelled.
- PatternDbCount.Sweep: requires `SharedEps`, that every dataset's noise levels are among the first dataset's. `PathMatches_with_count` makes the "all" sets only for the first dataset's levels, and raises a `KeyError` when a later dataset matches at another level. That error path is not modelled. The callers meet the requirement: a literal poset entry holds one dataset, and every time-series file is processed at the same `params["epsilons"]`. The second point also assumes that `eps_posets` returns one pair per requested level, and the `epsPosets` oracle of `Posets` does not promise that.
- PatternDbCount.PathMatchesWithCount: requires `SharedEps`, for the reason given for `PatternDbCount.Sweep`. The `KeyError` on a later dataset's extra noise level is not modelled.
- PatternDbCount.PathMatchesStableFCOnly: requires `SharedEps`, for the reason given for `PatternDbCount.Sweep`. The `KeyError` on a later dataset's extra noise level is not modelled. It also requires the stable-FC parameter indices to lie in the network's parameter graph: they come from the database of that network (`StableFCQuery(...).matches()`), and the throw on a foreign index is not modelled.
- PatternDbSearch.SearchOverNetworks: requires `WellFormedTable`, which includes `SharedEps` for every entry, for the reason given for `PatternDbCount.Sweep`. The `KeyError` on a later dataset's extra noise level is not modelled. The range requirement on the database's stable-FC indices is the one given for `PatternDbCount.PathMatchesStableFCOnly`.
- PatternDbQuery.GetPosets: is the intended `get_posets`, with the networks checked once after every literal entry is stored. As written, `check_posets` runs inside the loop (see "## Findings"), and an empty literal `{}` keeps every network because the check never runs. `PatternDbQuery.GetPosetsAsWritten` models that.
- ResultFiles.RecordParamIndices requires "domain" and "stablefc" among the parameters, which `sanity_check` guarantees before it runs.
- The nested loops of `record_results` are modelled as the list of (network, search, dataset, result list) items they visit, followed by the regrouping loop over that list.
- The query loop of `CountPatternMatch_large_networks.query` is not modelled as working, because its `partial` binds arguments in a different order from `PathMatch`'s signature and it enumerates dataset names as counts. Its `sanity_check`, `get_posets`, `PathMatch`, `stableFC_check` and `record_results` are modelled.
- `make_posets_from_time_series.py` never imports DSGRN, `readrow` or `readcol`, so it raises a `NameError` as written. Its functions are the same as those of `poset_utilities.py`, which are modelled.
- The commented-out `stableFC_check_buggy` is dead code and is not modelled.
- `tests/test_mpi.py` expects result-file names that `patternmatch.py` does not produce. The model follows the code.
- Progress printing, the `__main__` argument handling and the launcher and packaging scripts (`install_requirements.py`, `call_job.py`, `setup.py`) carry no query logic.

## Findings

| source | as written | input that shows it | evidently intended | confidence | as-written member | corrected member |
|---|---|---|---|---|---|---|
| src/dsgrn_net_query/queries/patternmatch.py:91-99 | the requested names are checked against every function of the module, so a helper's name passes and is "run" as a matching function | `matchingfunction` = "read_networks" | only the four matching functions may be requested; any other name raises a ValueError | not executed | PatternMatchQuery.ExtractQueriesAsWritten (lemma PatternMatchQuery.HelperNamesAccepted) | PatternMatchQuery.ExtractQueries (lemma PatternMatchQuery.IntendedAgreesOnMatcherNames) |
| src/dsgrn_net_query/queries/CountPatternMatch_DB.py:105-110 | `check_posets` runs inside the loop over the literal posets, so after the first entry only networks that it covers survive. The later entries never re-admit one. The same loop is at src/dsgrn_net_query/queries/CountPatternMatch_large_networks.py:135-140 and src/dsgrn_net_query/queries/CountPatternMatch_large_networks_parameter_indices.py:119-124 | literal posets with entries over ("A",) and ("B",), and networks "A : A" and "B : B": only "A : A" is kept | networks are checked once, after every entry is stored, so a network is kept iff each of its names occurs in some entry | not executed | PatternDbQuery.LiteralPosetsAsWritten, used by PatternDbQuery.GetPosetsAsWritten (lemma PatternDbQuery.LiteralCheckInsideLoopDropsNetworks) | PatternDbQuery.LiteralPosets, used by PatternDbQuery.GetPosets (lemma PatternDbQuery.LiteralKeepsCoveredNetworks) |
| src/dsgrn_net_query/MultistabilityExists.py:36-41 | the hex table is `dict(params["hex_constraints"])` of a `json.load`ed object, so its keys are strings, and `n in hex_constraints` with the tuple `n` at src/dsgrn_net_query/utilities/dsgrn_utilities.py:19 is never true. The program calls the copy of this predicate in the outside package `NetworkPerturbations` (src/dsgrn_net_query/MultistabilityExists.py:4, 78), which is taken to be the same as the cited one. The constrained sweep then rejects no parameter. A JSON list of `[[in, out], codes]` pairs instead makes `dict` raise a TypeError (unhashable list key) | `"hex_constraints": {"(1,2)": ["C"]}` with a parameter whose (1,2) node has code "8": the parameter is accepted | node types are keyed as (in, out) tuples, so a (1,2) node must carry code "C", as the docstring at src/dsgrn_net_query/MultistabilityExists.py:22-27 says | not executed | HexConstraints.SatisfiesLoaded (lemmas HexConstraints.LoadedFromJsonAcceptsAll, HexConstraints.JsonTableLetsViolationThrough) | HexConstraints.SatisfiesHexConstraints (lemmas HexConstraints.TupleKeyedIsIntended, HexConstraints.TupleTableRejectsViolation) |
