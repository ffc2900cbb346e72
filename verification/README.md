# A model of the CoreScope front end's data handling and of its accessibility gate

The project models the parts of the repository in which state, arithmetic and text handling interact, and proves
what they promise for all inputs, all runs and all reachable states.

| file | what it models |
|---|---|
| `AllowlistEntry`, `AllowlistYaml`, `AllowlistLine`, `AllowlistPrint` | the YAML-subset loader of the accessibility allowlist, what it makes of lines and files in any layout, and a printer that it inverts |
| `AllowlistGate`, `AllowlistSweep`, `AllowlistMain` | validation, the first-match matcher with its mutable counters and caps, the sweep over viewport x theme x route, the verdict and the exit code |
| `CssBlocks`, `CssLookup` | the brace-balanced block scanner, and the two ways of looking up a custom property in a list of blocks |
| `VarChase`, `CssTokens` | `var()` resolution with and without a cycle check (sections 2.3 and 3 of CSS Custom Properties for Cascading Variables Module Level 1) |
| `NodePaging` | paging through a node list that moves while it is read |
| `ChannelFeed` | the open channel's message list under selections, live packets, REST replies and cache hits |
| `Utf8`, `GroupText` | group text packets: frame, padding, ECB (section 6.1 of NIST SP 800-38A), truncated HMAC (section 2 of RFC 2104), key lookup, parsing |
| `UserChannels` | merging stored key names into the channel list |
| `Customizer`, `CustomizerStore` | the sparse override store with debounced writes, its override markers and its startup cleanup |
| `WarmupBanner` | concurrent API calls that retry on 503 (sections 10.2.3 and 15.6.4 of RFC 9110) and the banner they share |
| `Common`, `JsText` | shared result types, facts about sequences, and JavaScript's trimming and number texts |

Code that changes variables or objects step by step is a method or a class, proved equal to a function on values; the
promises are then proved about that function. Pure code is a function.

## Where the code differs from what is said about it

- The loader's header comment allows document-wide keys after the list; the loader reads such a key into the last
  item (`AllowlistPrint.TrailingKeyIsSwallowed`).
- A repeated name without a definition is reported as a cycle, although following the fallbacks may end
  (`CssTokens.FalseCycle`; exactly when: `VarChase.FalseCycleIff`).
- Scanning blocks and building a dictionary also differ, without any double declaration, on a name whose last
  declaration is empty and another is not (`CssLookup.LookupsAgree`, `CssLookup.EmptyRedeclaration`; in general
  `CssLookup.LookupsAgreeIff`).
- The cache callback of the decrypting path does not look at which channel is open, so a late one shows another
  channel's messages (`ChannelFeed.StaleCacheHitLeaks`; exactly when: `ChannelFeed.CacheHitCleanIff`,
  and for whole runs `ChannelFeed.RunClean`).
- A refresh that returns as many messages as are shown, with the same last id, is dropped even if they differ
  (`ChannelFeed.RefreshShowsRestIff`, `ChannelFeed.RefreshIgnored`).
- The packet parser yields a signed 32-bit timestamp, and the live decoder treats zero as missing, so a timestamp
  comes back exactly if it lies strictly between 0 and 2^31 (`GroupText.RoundTripIff`).
- A field is marked as overridden although nothing differs, exactly when the server sends no home section and the
  stored value repeats the built-in one (`Customizer.MarkedIff`, `Customizer.BuiltInRepeatMarked`).
- Startup cleanup is not idempotent on every stored text: validation can turn a stored value into the server's own,
  which only the next cleanup removes (`CustomizerStore.IdempotentIff`, `CustomizerStore.NumberTextNeedsTwo`). Nor does
  it always leave the effective configuration alone: when it removes anything, stored values that validation alters
  change with it (`CustomizerStore.ServerSectionKeptIff`, `CustomizerStore.BadColorLost`). It also brings back a built-in
  home list that the user emptied (`CustomizerStore.EmptiedListComesBack`).
- The retry comment speaks of about 63 seconds; without a usable Retry-After the waits add up to exactly 61
  (`WarmupBanner.TotalWait`).

## Model

| member | source | states |
|---|---|---|
| `AllowlistYaml.Assemble` | test-a11y-axe-1668.js:163-190 | the loop that updates `current`, `entries` and `topLevel` computes the recursive parse, for every way of reading one line, error cases included |
| `AllowlistYaml.ParseOkIff` | test-a11y-axe-1668.js:166-190 | a list of lines is accepted if and only if each is a row and none is an indented key before the first item; else the first bad line is reported, as unparsable or with its key |
| `AllowlistYaml.ParseAllowlistYaml` | test-a11y-axe-1668.js:144-200 | the loader computes `Parse`: BOM, comment stripping, blank lines, the lone `[]`, rows, coercion, or the first error |
| `AllowlistLine.MatchLineOf` | test-a11y-axe-1668.js:167-171 | every layout of indentation, dash, blanks, key, colon and one line of text is matched and taken apart as written |
| `AllowlistLine.LineForm` | test-a11y-axe-1668.js:167-171 | conversely, nothing else is matched |
| `AllowlistLine.IdentIff` | test-a11y-axe-1668.js:167 | keys are letters, digits and underscores without a digit in front |
| `AllowlistLine.ReadShown` | test-a11y-axe-1668.js:147-185 | a written line in any layout, with or without a comment, is read as the row it writes |
| `AllowlistLine.RemarkVanishes` | test-a11y-axe-1668.js:147-148 | blank lines and lines with only a comment are dropped |
| `AllowlistLine.PlainIff` | test-a11y-axe-1668.js:193-200 | an unquoted text is read as itself if and only if it is one line, trimmed, not empty, without a comment mark, and no word, numeral or quoted text |
| `AllowlistLine.QuotedIff` | test-a11y-axe-1668.js:198 | a one-line string in single or double quotes is read as itself if and only if no `#` follows white space |
| `AllowlistLine.DigitsRead` | test-a11y-axe-1668.js:197 | a run of digits is read as its value, leading zeros included |
| `AllowlistLine.NegativeRead` | test-a11y-axe-1668.js:197 | the same after a minus sign |
| `AllowlistLine.EmptyRead` | test-a11y-axe-1668.js:193-194 | no text is null |
| `AllowlistLine.TildeRead` | test-a11y-axe-1668.js:193-194 | so is a tilde |
| `AllowlistPrint.ParseFile` | test-a11y-axe-1668.js:144-190 | whatever a file's layout, byte order mark, line ends, blank and comment lines, it parses to what its rows describe or to the error they deserve |
| `AllowlistPrint.EmptyList` | test-a11y-axe-1668.js:156-161 | a file with nothing but `[]` is the empty list |
| `AllowlistPrint.ParsePrinted` | test-a11y-axe-1668.js:144-200 | parsing any arrangement of printed rows yields the document the rows describe or the error they deserve |
| `AllowlistPrint.RoundTrip` | test-a11y-axe-1668.js:144-200 | print-then-parse is the identity on every document with leading settings and non-empty items, for null, booleans, integers and strings written plainly or in either kind of quotes |
| `AllowlistPrint.RoundTripExact` | test-a11y-axe-1668.js:144-200 | a document with identifier keys that do not repeat, whatever its values, survives printing and parsing if and only if every value is printable in the style in which it is written |
| `AllowlistPrint.EntryOfDistinct` | test-a11y-axe-1668.js:166-187 | with distinct keys an entry holds exactly the printed pairs |
| `AllowlistPrint.TrailingKeyIsSwallowed` | test-a11y-axe-1668.js:135-187 | a key after the list becomes a key of the last item, for every document that has one |
| `AllowlistPrint.ParsedOneLine` | test-a11y-axe-1668.js:144-200 | no value that any text parses to, in settings or entries, contains a line break |
| `AllowlistGate.Refuse` | test-a11y-axe-1668.js:246-274 | the checks in source order refuse an entry if and only if it violates the policy, stated without order |
| `AllowlistGate.RefuseFirst` | test-a11y-axe-1668.js:244-281 | the loop accepts all entries or reports the first refused one |
| `AllowlistGate.FilterAllowlist` | test-a11y-axe-1668.js:239-281 | validation succeeds if and only if the date is well-formed and every entry meets the policy; a refusal names the first bad entry and its reason |
| `AllowlistGate.ExpiryIsChronological` | test-a11y-axe-1668.js:272-274 | on dates the string test for expiry compares year, month and day as numbers, the day itself being too late |
| `AllowlistGate.NumberExpiryAlike` | test-a11y-axe-1668.js:272 | an expiry written as a number is judged like its digits written as text |
| `AllowlistGate.AcceptedCovers` | test-a11y-axe-1668.js:287-298 | an accepted entry covers a violation if and only if its route and rule are the violation's and some string target equals its selector or is matched by its pattern |
| `AllowlistGate.ChargedIff` | test-a11y-axe-1668.js:287-305 | the entry charged is the first parsed entry that covers the violation |
| `AllowlistGate.FirstMatch` | test-a11y-axe-1668.js:287-305 | the entry charged covers the violation and no earlier entry does; none means that no entry does |
| `AllowlistGate.Cap` | test-a11y-axe-1668.js:299 | the overflow test is the comparison with a cap: none for an absent, zero or unreadable `count_max`, zero for a negative one |
| `AllowlistGate.NetStep` | test-a11y-axe-1668.js:462-488 | one more violation adds a failure exactly if it is uncovered or puts its entry over the cap |
| `AllowlistGate.NetClosedForm` | test-a11y-axe-1668.js:287-305 | for every allowlist and every run of violations, failures = uncovered violations + sum over entries of max(0, charged - cap), and each counter is the number charged to its entry |
| `AllowlistGate.NetPermutation` | test-a11y-axe-1668.js:287-305 | failures and counters are the same for every permutation of the violations |
| `AllowlistSweep.Gate.MatchViolation` | test-a11y-axe-1668.js:287-305 | bumps the counter of the first covering entry and no other, and reports overflow of that entry |
| `AllowlistSweep.Gate.ScanCell` | test-a11y-axe-1668.js:457-494 | one cell's tally and counter updates are those of its violations in order; rules the viewport does not run are skipped; a failed probe is one failure |
| `AllowlistSweep.Gate.VisitCell` | test-a11y-axe-1668.js:456-501 | one visit updates summary, total and the viewport's totals together |
| `AllowlistSweep.Gate.Sweep` | test-a11y-axe-1668.js:435-516 | the triple loop is the fold of the cells in grid order over one shared state |
| `AllowlistSweep.GridIff` | test-a11y-axe-1668.js:442-456 | the grid holds exactly each combination of viewport, theme and route with its probe |
| `AllowlistSweep.GridSize` | test-a11y-axe-1668.js:442-456 | and each of them once |
| `AllowlistSweep.ReportedIff` | test-a11y-axe-1668.js:461-470 | the violations counted are exactly the nodes reported for rules that the viewport runs |
| `AllowlistSweep.RawIsNodes` | test-a11y-axe-1668.js:461-465 | and as many as there are such nodes |
| `AllowlistSweep.Gate.Decide` | test-a11y-axe-1668.js:316-328 | violations fail first; a stale entry fails only under `strict_unused` |
| `AllowlistSweep.SweepIsOneRun` | test-a11y-axe-1668.js:435-505 | a sweep is one run over all violations plus one failure per failed probe |
| `AllowlistSweep.SweepClosedForm` | test-a11y-axe-1668.js:435-519 | the sweep's total is failed probes + the closed form, without reference to order |
| `AllowlistSweep.SweepOrderIrrelevant` | test-a11y-axe-1668.js:435-519 | any permutation of the cells gives the same total and the same counters |
| `AllowlistSweep.CellsConserve` | test-a11y-axe-1668.js:455-500 | every scanned cell has raw = suppressed + net = its violations; a failed probe contributes exactly net 1 |
| `AllowlistSweep.ViewportsAddUp` | test-a11y-axe-1668.js:435-519 | per-viewport totals add up to the totals of all cells and to the global failure count |
| `AllowlistSweep.NetZero` | test-a11y-axe-1668.js:462-488 | no failure if and only if every violation is covered and no cap is exceeded over the whole run |
| `AllowlistSweep.CleanIff` | test-a11y-axe-1668.js:535-543 | the final state passes if and only if no probe failed, all is covered, no cap is exceeded and, if strict, every entry was first match of something |
| `AllowlistSweep.PassesIff` | test-a11y-axe-1668.js:535-543 | clean in terms of accepted rules if and only if it passes in terms of the parsed entries and the reported nodes |
| `AllowlistMain.LoadAllowlist` | test-a11y-axe-1668.js:207-228 | loading succeeds if and only if the file is missing, or parses and every entry meets the policy |
| `AllowlistMain.FileRead` | test-a11y-axe-1668.js:207-220 | the gate reads a file in any layout as its rows, and no file as an empty list |
| `AllowlistMain.StrictIff` | test-a11y-axe-1668.js:224-228 | stale entries are fatal if and only if the environment says so or the file has a truthy setting |
| `AllowlistMain.Judge` | test-a11y-axe-1668.js:418-543 | one sweep with fresh counters passes if and only if it is clean |
| `AllowlistMain.RunGate` | test-a11y-axe-1668.js:418-545 | from file text to exit code: 2 if and only if the allowlist does not load, else 0 if and only if no probe failed, every reported node is covered by a parsed entry, no entry's cap is exceeded and, if strict, each is first for some node |
| `CssBlocks.FindClose` | test-a11y-1705-subpath-hop-prefix-e2e.js:139-146 | the inner loop returns the brace that closes the body, or none if no brace does |
| `CssBlocks.ExtractBlocks` | test-a11y-1705-subpath-hop-prefix-e2e.js:133-150 | the bodies of the closed matches, in order; unclosed matches yield none |
| `CssBlocks.ClosedIff` | test-a11y-1705-subpath-hop-prefix-e2e.js:133-150 | a span is extracted if and only if a match opens it and a brace closes it |
| `CssBlocks.ScanExact` | test-a11y-1705-subpath-hop-prefix-e2e.js:139-147 | the scan returns a position if and only if the body before it is balanced with no negative prefix and a closing brace stands there |
| `CssBlocks.ClosesUnique` | test-a11y-1719-contrast-root-causes-e2e.js:92-93 | a body ends at one brace only |
| `CssBlocks.NestedCloses` | test-a11y-1705-subpath-hop-prefix-e2e.js:130-131 | an opening inside a body is closed inside that body |
| `CssBlocks.Laminar` | test-a11y-1705-subpath-hop-prefix-e2e.js:133-150 | two bodies of any text are disjoint, or the later one lies strictly inside the other |
| `CssBlocks.ExtractionIsLaminar` | test-a11y-1705-subpath-hop-prefix-e2e.js:133-150 | the same for any two blocks of one extraction |
| `CssBlocks.GroupsFound` | test-a11y-1705-subpath-hop-prefix-e2e.js:137-148 | for every tree of brace groups, in any surroundings, scanning from any group's brace returns exactly its printed children |
| `CssBlocks.BalancedIsPrinted` | test-a11y-1705-subpath-hop-prefix-e2e.js:137-148 | every balanced text, so every returned body, is a printed tree |
| `VarChase.MoreFuel` | test-a11y-1719-contrast-root-causes-e2e.js:100-113 | the unchecked resolver has at most one result |
| `VarChase.LenientDecides` | test-a11y-1719-contrast-root-causes-e2e.js:100-113 | a check on defined names alone decides whether the unchecked resolver returns, and what |
| `VarChase.CheckedVsLenient` | test-a11y-1716-rf-range-btn-active.js:83-98 | the cycle check on all names agrees with it until an undefined name repeats |
| `VarChase.CheckedRefines` | test-a11y-1716-rf-range-btn-active.js:83-98 | what the checked resolver returns the unchecked one returns; a cycle on a defined name means that the unchecked one never does |
| `VarChase.CycleIff` | test-a11y-1716-rf-range-btn-active.js:83-98 | the check reports a cycle if and only if some name, defined or not, occurs twice on the chain of references |
| `VarChase.FalseCycleIff` | test-a11y-1716-rf-range-btn-active.js:83-98 | the check reports a cycle exactly when the unchecked resolver never returns, except exactly when names occur twice on the chain and all of them are undefined |
| `VarChase.ReturnsIff` | test-a11y-1719-contrast-root-causes-e2e.js:100-113 | the unchecked resolver returns if and only if every name that occurs twice on the chain is undefined |
| `VarChase.UndefinedRepeat` | test-a11y-1716-rf-range-btn-active.js:90-95 | an undefined name that occurs twice, however far apart, is reported as a cycle; the unchecked resolver returns if and only if no defined name occurs twice |
| `CssTokens.MatchVar` | test-a11y-1716-rf-range-btn-active.js:87-89 | a matched fallback is strictly shorter than the reference, which is what makes the fallback branch end |
| `CssTokens.MatchInside` | test-a11y-1716-rf-range-btn-active.js:87-89 | every way of writing the inside of a reference, white space included, is read as its name and its fallback |
| `CssTokens.InsideForm` | test-a11y-1716-rf-range-btn-active.js:87-89 | conversely, what is read has a name after two dashes and then nothing or a comma |
| `CssTokens.ReadWritten` | test-a11y-1716-rf-range-btn-active.js:86-89 | the same for whole references in any case of letters |
| `CssTokens.NormalizeImportant` | test-a11y-1716-rf-range-btn-active.js:86 | one `!important` at the end goes with the white space around it |
| `CssTokens.NormalizePlain` | test-a11y-1716-rf-range-btn-active.js:86 | else only white space around the text goes |
| `CssTokens.SystemLawful` | test-a11y-1705-subpath-hop-prefix-e2e.js:178-191 | reference texts form a system in which a step through a definition depends on the name only and a step to a fallback shortens the text |
| `CssTokens.Resolver.Rec` | test-a11y-1716-rf-range-btn-active.js:85-96 | the recursion with its mutated set of seen names ends on every pair of maps, by (unseen defined names, size of the text), and computes `Checked` |
| `CssTokens.ResolveVar` | test-a11y-1716-rf-range-btn-active.js:83-98 | the resolver starts from an empty set of seen names |
| `CssTokens.FirstStep` | test-a11y-1716-rf-range-btn-active.js:90-97 | the resolver goes from every valid name to its definition in force, and reports the name if there is none |
| `CssTokens.PlainDefinition` | test-a11y-1716-rf-range-btn-active.js:92-93 | a definition that is no reference is the answer, the theme's before the root's, an empty one not counting |
| `CssTokens.NoDefinition` | test-a11y-1716-rf-range-btn-active.js:95 | a name with no text in theme or root is unresolved |
| `CssTokens.FallbackUsed` | test-a11y-1716-rf-range-btn-active.js:92-94 | a fallback counts if and only if the name has no definition |
| `CssTokens.ReadReference` | test-a11y-1716-rf-range-btn-active.js:86-89 | every written reference with a one-line fallback is read back as written |
| `CssTokens.FalseCycle` | test-a11y-1716-rf-range-btn-active.js:90-96 | for every undefined name and plain fallback, the nested reference is called a cycle while the unchecked resolver returns the fallback |
| `CssLookup.LookupVar` | test-a11y-1705-subpath-hop-prefix-e2e.js:159-166 | the scan yields the last block's non-empty first declaration |
| `CssLookup.InBlockIff` | test-a11y-1705-subpath-hop-prefix-e2e.js:152-156 | a block gives a name the text of its first declaration of it |
| `CssLookup.LastWriterIff` | test-a11y-1705-subpath-hop-prefix-e2e.js:159-166 | the scan finds a text if and only if some block gives it and no later block gives any |
| `CssLookup.ExtractVarDecls` | test-a11y-1716-rf-range-btn-active.js:74-82 | the double loop builds the dictionary of all declarations, later ones overwriting |
| `CssLookup.MapGet` | test-a11y-1716-rf-range-btn-active.js:74-82 | the dictionary holds the last declaration in the last block that declares the name |
| `CssLookup.LookupsAgreeIff` | test-a11y-1719-contrast-root-causes-e2e.js:97-98 | for every block list, double declarations included, exactly when scan and dictionary agree, by the last declaring block's first and last declaration |
| `CssLookup.LookupsAgree` | test-a11y-1719-contrast-root-causes-e2e.js:97-98 | if no block declares the name twice, both ways agree if and only if not (the last declaration is empty and another is not) |
| `CssLookup.EmptyRedeclaration` | test-a11y-1705-subpath-hop-prefix-e2e.js:159-166 | a later block that declares the name with no text: the scan keeps the earlier text, the dictionary forgets it |
| `CssLookup.DoubleDeclaration` | test-a11y-1705-subpath-hop-prefix-e2e.js:152-156 | in one block the scan keeps the first declaration and the dictionary the last |
| `CssLookup.StylesheetRefines` | test-a11y-1719-contrast-root-causes-e2e.js:100-113 | wherever blocks and dictionaries agree on the names met on the chain, the unchecked resolver over blocks behaves as over the dictionaries and is refined by the checked one |
| `NodePaging.Dedup` | public/app.js:244-248 | the map loop keeps keys in order of first appearance and rows of the last |
| `NodePaging.OrderOfFirst` | public/app.js:244-251 | keys stand in the order in which they were first met, even if their rows come again |
| `NodePaging.FetchAllNodes` | public/app.js:226-254 | pages until a short page or the ceiling, deduplicates, cuts at the ceiling; a failed request fails the whole fetch |
| `NodePaging.FetchFailsIff` | public/app.js:229-230 | for every server, the whole fetch fails if and only if some request that is actually made fails |
| `NodePaging.NoDuplicateKeys` | public/app.js:241-248 | whatever the pages were, no two returned rows share a key |
| `NodePaging.KeylessRowsSurvive` | public/app.js:241-248 | a row without a key is what its synthetic key is filed with, except exactly when a later row has that text as its real key |
| `NodePaging.PositionGrows` | test-fetch-all-nodes-pagination.js:3-17 | when rows only move to or appear at the front, a node that does not move never comes closer to it |
| `NodePaging.CollectFinds` | public/app.js:229-240 | a node still ahead of the reading position is read by some later page |
| `NodePaging.UnmovedNodesReturnedOnce` | public/app.js:226-254 | paging over such a moving list returns every unmoved node of the first list exactly once, if the server's cap is at least the page size and the list fits under the ceiling |
| `NodePaging.StaticFetch` | test-fetch-all-nodes-pagination.js:78-133 | what a list that stands still yields, for every cap, page size and ceiling |
| `NodePaging.CompleteIff` | test-fetch-all-nodes-pagination.js:114-133 | complete if and only if the list fits under the ceiling, and the page size respects the cap or one response holds everything |
| `NodePaging.CollectedIff` | public/app.js:229-240 | whatever the list does between requests, a row is collected if and only if, at some request actually made, its position lies in that request's window |
| `NodePaging.MovedNodeMissed` | public/app.js:241-243 | a node that moves itself can be missed |
| `NodePaging.DeletionHidesNode` | public/app.js:241-243 | so can a node behind a deleted row |
| `ChannelFeed.MergeWsAppendedIntoRest` | public/channels.js:33-57 | the loops compute the REST result in its order followed by the survivors in theirs |
| `ChannelFeed.MergeIff` | public/channels.js:33-57 | a merged list holds the REST result and each current message stamped at most five minutes ago, or without a time, whose hash the result lacks |
| `ChannelFeed.MergeOrder` | public/channels.js:33-57 | the REST result comes first and unchanged, survivors in their order, none twice |
| `ChannelFeed.ChannelView.SelectChannel` | public/channels.js:2029-2037 | the view is emptied and a new request is current |
| `ChannelFeed.ChannelView.RefreshMessages` | public/channels.js:2182-2196 | a refresh starts a request for the open channel, if there is one |
| `ChannelFeed.ChannelView.ProcessWsBatch` | public/channels.js:1368-1481 | each accepted packet for the open channel is appended, or bumps the message with its hash |
| `ChannelFeed.ReceiveAppendsIff` | public/channels.js:1438-1478 | a packet for the open channel with a new hash or none is appended with its own text and id, seen once; no other packet appends |
| `ChannelFeed.RunSeen` | public/channels.js:1440-1452 | over any run of live packets `repeats` counts every accepted packet with the message's hash |
| `ChannelFeed.ReceiveObserver` | public/channels.js:1443-1446 | a packet adds the observer it names if that is new; no observer is lost, moved or listed twice |
| `ChannelFeed.RequestsCounted` | public/channels.js:120-122 | each selection, and each refresh while a channel is open, has a request number of its own |
| `ChannelFeed.StaleIff` | public/channels.js:120-131 | a reply is stale if and only if a selection, a deselection or a refresh came after its request or the region is another one by now |
| `ChannelFeed.ChannelView.CompleteSelect` | public/channels.js:2163-2169 | a reply is merged unless it is stale |
| `ChannelFeed.ChannelView.CompleteRefresh` | public/channels.js:2196-2215 | the same for a refresh, with the emptied region and the unchanged-looking list |
| `ChannelFeed.ChannelView.OnCacheHit` | public/channels.js:2056-2070 | a cache result is merged whatever channel is open |
| `ChannelFeed.MergeKeepsLiveIff` | public/channels.js:41-53 | a merge keeps a live message if and only if it is stamped, young enough and not in the REST result |
| `ChannelFeed.RunInv` | test-channels-ws-batch-e2e.js:126-160 | in every reachable state of every run no two messages share a hash, live messages stand in arrival order, and all of them arrived on the open channel |
| `ChannelFeed.RunClean` | test-channels-ws-race-1498-e2e.js:346-399 | for every run from a clean state, no message of another channel is visible at any point if and only if every cache result is empty or for the channel open when it arrives |
| `ChannelFeed.CacheHitCleanIff` | public/channels.js:2056-2064 | a cache result keeps the view clean if and only if it is empty or for the open channel |
| `ChannelFeed.StaleCacheHitLeaks` | public/channels.js:2056-2064 | select, select another, late cache result: the first channel's message shows in the second |
| `ChannelFeed.RunVisible` | test-channels-ws-race-1498-e2e.js:83-154 | a live message stays stamped and visible through every run without switch, clearing, emptied region, or merge of a result that has its hash or comes after the survivor limit; stale and ignored replies do no harm |
| `ChannelFeed.NextKeepsIff` | public/channels.js:33-57 | in every reachable state, a single event takes a live message out of the list if and only if it is a switch, a clearing, an emptied region, or a merge that is neither stale nor ignored and has its hash or comes too late |
| `ChannelFeed.RunStaysIff` | test-channels-ws-race-1498-e2e.js:83-154 | in every run a live message is in the list at the end if and only if no event on the way took it out; nothing comes back |
| `ChannelFeed.AppendedStaysVisible` | test-channels-merge-1498-unit.js:89-181 | the same from the arrival of a packet on |
| `ChannelFeed.RefreshShowsRestIff` | public/channels.js:2205-2215 | after a refresh the list starts with the REST result, except exactly when it differs from it at the same length and the same last id |
| `ChannelFeed.RefreshIgnored` | public/channels.js:2205-2215 | a reachable run in which a refresh brings new contents under the same id and the list does not change |
| `Utf8.RoundTrip` | public/channel-decrypt.js:160-166 | decoding inverts encoding on every string of scalar values |
| `Utf8.EncodeTable` | public/channel-decrypt.js:160-166 | the encoder follows the table of section 3 of RFC 3629 |
| `Utf8.StrayReplaced` | public/channel-decrypt.js:166 | a byte that can start no character is replaced on its own |
| `Utf8.CutReplaced` | public/channel-decrypt.js:166 | a character cut short is replaced as a whole |
| `Utf8.NoZeroByte` | public/channel-decrypt.js:160-166 | a zero byte comes from a NUL character only, so the cut at the first zero byte is safe |
| `GroupText.HexRoundTrip` | test-channel-live-decrypt.js:77-83 | hex text decodes to the bytes it was made of |
| `GroupText.HexBytes` | public/channel-decrypt.js:31-37 | each pair of characters gives one byte, an odd last character none |
| `GroupText.Plaintext` | test-channel-live-decrypt.js:61-68 | the padded frame is a non-empty multiple of the block size |
| `GroupText.FrameBytes` | test-channel-live-decrypt.js:61-68 | the frame byte by byte: timestamp from its lowest byte, zero flags, the text, and zeros up to the next multiple of sixteen, one at least |
| `GroupText.WriteFrame` | test-channel-live-decrypt.js:63-68 | writing into the zeroed buffer gives header, text, terminator and padding |
| `GroupText.KeyBytes` | test-channel-live-decrypt.js:58-59 | the key is the first half of the digest of the name, the hash byte the first of the digest of the key |
| `GroupText.SealedBytes` | test-channel-live-decrypt.js:69-85 | the packet byte by byte: each block enciphered on its own, and the first two bytes of the HMAC under the key and sixteen zeros |
| `GroupText.BuildEncryptedGrpTxt` | test-channel-live-decrypt.js:57-85 | frame, encrypt, sign: the sealed packet and the key's hex text |
| `GroupText.EcbInverts` | test-channel-decrypt-ecb.js:84-98 | ECB decryption inverts ECB encryption for every per-block bijection and every whole number of blocks |
| `GroupText.EcbBlock` | test-channel-decrypt-ecb.js:84-98 | each whole block goes through the cipher on its own and stays in its place |
| `GroupText.TimestampWraps` | public/channel-decrypt.js:157 | the little-endian header comes back as a signed 32-bit number |
| `GroupText.DecryptSealed` | public/channel-decrypt.js:197-208 | the MAC of a sealed packet verifies, and the parser sees the text up to its first NUL without a leading byte order mark |
| `GroupText.ParseTextIff` | public/channel-decrypt.js:168-185 | a text is rejected if and only if it has more than two control characters; sender and message are found if and only if the text is made of them, else all of it is the message |
| `GroupText.NonPrintableIs` | public/channel-decrypt.js:169-173 | what counts are the codes below 32 other than tab and line ends |
| `GroupText.DeliveredIs` | public/channel-decrypt.js:160-166 | a text is cut at its first NUL and loses one leading byte order mark |
| `GroupText.BuildKeyMap` | public/channel-decrypt.js:231-255 | the loop builds the index by hash byte from the usable keys, the first stored one winning |
| `GroupText.KeyMapFirst` | public/channel-decrypt.js:231-255 | a usable key that no earlier one shadows is found under its hash byte |
| `GroupText.ReadableComesBack` | public/channel-decrypt.js:154-186 | readable sender and text are recovered from the delivered text |
| `GroupText.OnlyReadableComesBack` | public/channel-decrypt.js:154-186 | nothing else is |
| `GroupText.UnknownNeverMatches` | public/channel-decrypt.js:280-288 | a text shown under the stock sender name is never the text that was sent |
| `GroupText.RoundTripIff` | public/channel-decrypt.js:263-290 | encode-then-decrypt, for any stored keys in which this key is the first of its hash byte: sender and text come back if and only if readable, the timestamp if and only if 0 < ts < 2^31 |
| `GroupText.FirstKeyDecides` | public/channel-decrypt.js:231-290 | with several stored keys of one hash byte only the first is tried: the packet is shown if and only if its two MAC bytes verify under that key too and what it deciphers parses, and then as that key's channel |
| `GroupText.UnknownHashHidden` | public/channel-decrypt.js:263-275 | a packet whose hash byte no usable stored key has is not shown |
| `GroupText.ShownIsVerified` | public/channel-decrypt.js:127-145 | whatever packet is shown, sealed with a known key or not, had whole blocks and a MAC that verifies under the key its hash byte names |
| `GroupText.UnknownSender` | public/channel-decrypt.js:280-288 | a text without a readable sender is shown whole under the name Unknown |
| `UserChannels.MergeName` | public/channels.js:504-516 | one name marks the first matching channel or brings in a new one |
| `UserChannels.MergeUserChannels` | public/channels.js:500-531 | the loops compute the merge of all names in order |
| `UserChannels.LabelGiven` | public/channels.js:506-512 | a name with a label gives it to the channel it finds; one without leaves the label alone |
| `UserChannels.MergeClosedForm` | test-channel-psk-ux.js:126-142 | every channel of the result is its seed marked by exactly the names that find it in the result |
| `UserChannels.ExistingChannelsKept` | public/channels.js:508-516 | listed channels keep their place and everything but the mark; the label is the last non-empty one among the names that find them |
| `UserChannels.EveryNameRepresented` | public/channels.js:496-499 | every stored name matches a channel marked as the user's |
| `UserChannels.MergeIdempotent` | test-channel-psk-ux.js:126-142 | merging twice is merging once, however many names share a channel |
| `UserChannels.GrowsByUnmatched` | public/channels.js:517-529 | the list grows by exactly the names that neither a listed channel nor an earlier newcomer matches |
| `UserChannels.NewChannelIs` | public/channels.js:517-529 | each unmatched name brings in, in the order of the names, one encrypted empty channel of the user's with its hash, name and last non-empty label |
| `UserChannels.OrderMatters` | public/channels.js:510 | the names x and user:x share a channel in one order and not in the other |
| `Customizer.StandardLawful` | public/customize-v2.js:469-555 | validating a field or a scalar settles in one pass, normalized numbers included, and leaves sections without a validator alone |
| `Customizer.ColorSectionsKeep` | public/customize-v2.js:476-491 | in the colour sections exactly colours are kept, and any text for the two fonts of a theme |
| `Customizer.MarkerKeeps` | public/customize-v2.js:499-525 | the marker stroke keeps a colour, a width and an opacity, and nothing else |
| `Customizer.TimestampsKeep` | public/customize-v2.js:526-543 | the timestamp settings keep exactly the listed values, and unknown settings |
| `Customizer.OpacityIff` | public/customize-v2.js:401-403 | an opacity is kept if and only if it is a number from 0 to 1 or a text that reads as one, which becomes the number |
| `Customizer.WidthIff` | public/customize-v2.js:508-515 | a width is kept if and only if it counts as a number from 0 to 10 and is not null |
| `Customizer.OverlayField` | public/customize-v2.js:592-624 | an effective field is the override if there is one, else the default |
| `Customizer.ValidateField` | public/customize-v2.js:469-555 | validation keeps or normalizes each field on its own |
| `Customizer.PruneField` | public/customize-v2.js:880-902 | exactly the fields just written that equal the server's value are not stored |
| `Customizer.WriteStoresIff` | public/customize-v2.js:864-903 | a write stores a pending field, validated, unless it repeats the server's; and every other stored field, validated, even if it does |
| `Customizer.ClearDropsEmpty` | public/customize-v2.js:841-856 | clearing leaves no empty section behind |
| `Customizer.OpField` | public/customize-v2.js:831-911 | how each operation moves the stored and the pending value of every field |
| `Customizer.SettledField` | public/customize-v2.js:864-903 | the effective value after a write, from the stored, pending, server and built-in values alone |
| `Customizer.SparseEqualsFull` | test-customizer-v2.js:371-406 | for every initial store and every sequence of sets, clears and writes, server defaults overlaid with the pruned delta equal a full-copy store that received the same operations |
| `Customizer.MarkedIff` | public/customize-v2.js:1089-1110 | a field is marked if and only if its effective value differs from the default, except exactly when the stored value repeats the built-in home section |
| `Customizer.TopMarkedIff` | public/customize-v2.js:1103-1110 | the same for top-level scalars, without exception |
| `Customizer.BuiltInRepeatMarked` | public/customize-v2.js:594-597 | setting the built-in text again and writing it leaves the field marked although nothing differs |
| `CustomizerStore.Store.SetOverride` | public/customize-v2.js:831-839 | a set goes to the pending values only |
| `CustomizerStore.Store.ClearOverride` | public/customize-v2.js:841-862 | a clear removes the stored and the pending value and writes at once |
| `CustomizerStore.Store.Flush` | public/customize-v2.js:864-911 | the write stores the pruned, validated overlay and empties the pending values |
| `CustomizerStore.Store.CleanPhantomOverrides` | public/customize-v2.js:2159-2209 | cleanup computes `CleanedUp`: nothing is written unless something was removed |
| `CustomizerStore.DeleteMatching` | public/customize-v2.js:889-896 | the deleting loop leaves exactly the fields that differ from the server's |
| `CustomizerStore.PruneSections` | public/customize-v2.js:885-898 | the loop over the sections just written prunes them and drops the emptied ones |
| `CustomizerStore.SweepSections` | public/customize-v2.js:2166-2198 | the loop over the listed sections deletes their phantoms and drops the emptied ones |
| `CustomizerStore.ChangedIff` | public/customize-v2.js:2159-2208 | cleanup writes if and only if there is a phantom or an empty listed section |
| `CustomizerStore.CleanupStoresIff` | public/customize-v2.js:2166-2198 | exactly which stored fields are left: not those that repeat the server's, nor empty ones where it has no section; the others, validated if anything was removed |
| `CustomizerStore.ServerSectionKeptIff` | test-customizer-v2.js:410-436 | in a section the server defines, cleanup keeps an effective value if and only if nothing is removed, the field itself is a phantom, or validation does not alter it |
| `CustomizerStore.BadColorLost` | public/customize-v2.js:2186-2208 | a stored text that is no colour is effective before cleanup and replaced by the server's colour after it, when another field is a phantom |
| `CustomizerStore.ScalarKeptIff` | public/customize-v2.js:2200-2206 | the same for scalars |
| `CustomizerStore.UndefinedSectionLoses` | test-customizer-v2.js:464-490 | elsewhere, for every store, empty arrays and objects go and other fields are kept or validated; exactly when the effective value changes; a validated store loses exactly the empty ones |
| `CustomizerStore.ValidateTwice` | public/customize-v2.js:557-590 | every write leaves a validated store |
| `CustomizerStore.IdempotentIff` | public/customize-v2.js:2159-2209 | a second cleanup changes nothing if and only if the first wrote nothing or its validation turned no value into a phantom |
| `CustomizerStore.NumberTextNeedsTwo` | public/customize-v2.js:2201-2208 | the text of the server's opacity, stored beside a plain phantom, takes two cleanups to go |
| `CustomizerStore.IdempotentOnceWritten` | test-customizer-v2.js:410-436 | cleanup is idempotent on every validated store |
| `CustomizerStore.EmptiedListComesBack` | public/customize-v2.js:2172-2184 | with no home section on the server, a list the user emptied is the built-in one again after cleanup |
| `WarmupBanner.Page.SetWarmup` | public/app.js:188-205 | counter with its clamp, visibility and the hook's events move together |
| `WarmupBanner.Page.CallApi` | public/app.js:128-129 | a path in flight is not requested again |
| `WarmupBanner.Page.OnResponse` | public/app.js:150-160 | retry, failure or success, with the notice given once and taken back on the way out |
| `WarmupBanner.Page.OnTimer` | public/app.js:155-158 | the next attempt with the doubled delay |
| `WarmupBanner.Page.OnBody` | public/app.js:161-175 | the end of a call, parsed or not, takes the notice back |
| `WarmupBanner.StepKeeps` | public/app.js:144-179 | every step keeps the counter equal to the calls that hold a notice, so the clamp never acts |
| `WarmupBanner.BannerVisibleIff` | test-1659-analytics-warmup.js:124-213 | in every interleaving the banner is visible if and only if some call is between its first 503 and its end, and that is what the hook heard last |
| `WarmupBanner.EventsGrow` | public/app.js:188-194 | a step adds at most one state to what the hook heard, the one that the banner then shows |
| `WarmupBanner.QuietWhenAllDone` | test-1659-analytics-warmup.js:144-194 | once all calls have returned or thrown the counter is zero and the banner hidden |
| `WarmupBanner.OneCallPerPath` | public/app.js:128-129 | calls in progress are for different paths |
| `WarmupBanner.RetriesOnlyOn503` | test-1659-analytics-warmup.js:88-122 | each call fetches at most seven times, goes on only after a 503, and ends on the first other answer or the seventh 503 |
| `WarmupBanner.OutcomeIff` | public/app.js:150-171 | a call has had exactly the responses sent to it; it succeeds if and only if its body was parsed, and fails if and only if it was not or the last response is no success and not retried |
| `WarmupBanner.BeginStartsIff` | public/app.js:128-129 | an API call starts a request if and only if none for the path is in flight |
| `WarmupBanner.WaitsAre` | public/app.js:152-156 | each retried 503 is waited for as many seconds as it asks for, else one second doubled with each retry, at most thirty |
| `WarmupBanner.TotalWait` | public/app.js:131-157 | a call waits at most 180 s in all, at most 61 s without a hint, and exactly 61 s if the server never recovers |
| `WarmupBanner.RunBounded` | test-1659-analytics-warmup.js:88-106 | a run takes at most sixteen steps for each API call |
| `WarmupBanner.StuckMeansQuiet` | test-1659-analytics-warmup.js:168-194 | where nothing but a new call can happen, all calls are finished and the banner is hidden |

## Left out

- Browsers, DOM, layout, rendering and the page drivers: the sweep takes what a probe returned as a function of viewport, theme and route.
- Regular expressions given as data: whether a `selector_pattern` compiles and matches is a parameter, and so is where a selector expression matches in a stylesheet; the fixed expressions are written out.
- Property names that collide with JavaScript's own or with the loader's bookkeeping (`__proto__`, `_patternRe`, `_matchCount`), integers beyond 2^53, and lone surrogates in strings.
- Violation nodes without a target list, and target lists nested more than once.
- The per-type counts that a node fetch passes through from its first page.
- The flat-expression block splitter of test-a11y-1716-rf-range-btn-active.js:62-73, and the splitting of a block into declarations: lookups start from lists of declarations.
- WCAG luminance and contrast: floating-point powers with easy bounds only.
- AES, HMAC and SHA-256: parameters, assumed to have the right sizes and, for AES, to invert block by block; how likely two keys are to agree on hash and MAC bytes is not modelled.
- Hash bytes given as hex text in a live payload, and the cache of the key index.
- The sidebar entries that a live batch updates, message fields that no step reads, and the fetching and caching inside the decrypting path.
- Message objects shared between a REST result and the view: REST lists are values, and may carry any stamp.
- Channel objects shared with other parts of the page: `UserChannels` merges lists of values.
- Settings whose top-level name is used both as a section and as a scalar, and top-level arrays and objects given to `setOverride`; favourites and claimed nodes, migration of old keys, storage quota errors, and the colour and number recognizers, which are parameters.
- The copying loops of `_validateDelta`, `computeEffective` and of the overlay in the debounced write are expressions over maps, since each field is treated on its own.
- The response cache and the timing log of `api`, and the clock: a timer may fire at any point of a run.
- The Go server and ingestor, and configuration files.
- ChannelFeed.RunInv: stated for REST lists with distinct hashes, which the code expects of the server.
- CssLookup.StylesheetRefines: stated where blocks and dictionaries agree on the names met, because otherwise they hold different definitions (`LookupsAgreeIff`).
- NodePaging.UnmovedNodesReturnedOnce: says nothing of nodes that move or are deleted while the list is read, which can be missed (`MovedNodeMissed`, `DeletionHidesNode`; which rows are read in general: `CollectedIff`).
