# Verified models of WebKitGTK components

The repository is a Flutter shell around WebKitGTK 2.40.5. This project models five parts of
the vendored tree that hold real logic, and proves what they are for.

- **Fuzzy matcher** (`FzyTables`, `FzyMatcher`, `FzyBacktrack`, `FzyFilter`). The two score
  tables are filled in place and hold a maximum over all embeddings of a needle in a haystack.
  The positions found by backtracking are always an embedding, but not always a best one: line
  170 compares `M[i][j]` where `D[i][j]` is meant. The exact condition under which they are
  best is proved, together with an input on which they are not. Scores are integers in units
  of 0.005.
- **Keyword compiler** (`KeywordTrie`, `KeywordNodes`, `KeywordFillOut`, `KeywordCompare`,
  `KeywordEmit`, `KeywordGenerator`, `StableSorting`). A keyword list becomes a trie, a
  coalesced trie, a weighed trie and at last a tree of packed comparisons. The emitted code is
  a datatype with an evaluator, and recognises exactly the keywords. `ParseKeywordIsExact`
  also covers keywords with characters that end an identifier: then the shortest keyword wins.
- **Agents of the jsc shell** (`Agents`, `AgentsMonitor`). One lock, one shared condition,
  queues, reports and the start handshake, as interleaved atomic steps including spurious
  wake-ups. The monitor's methods are proved to be such steps.
- **WebDriver** (`PendingRequests`, `WebDriverContexts`, `WebDriverEffects`, `WebDriverSession`,
  `WebDriverTicks`, `WebDriverActions`, `WebDriverKeys`, `WebDriverScripts`,
  `WebDriverCapabilities`). Pending requests, browsing contexts and what each command asks for, input sources and ticks, sticky modifiers, element references
  and the choice of capabilities. A backend is any function from what it was asked so far to
  an answer.
- **Line splitter** (`LineSplitter`). Lines out of a stream do not depend on its chunks.

Each object whose fields change is a class, and each of its methods is tied to a
specification on values about which the properties are proved.

Behaviour that differs from what a reader of the code may expect:

- `positions` may return a worse embedding than `score` reports (`PositionsCanBeSuboptimal`),
  exactly when an accepted cell drops its requirement (`PositionsAreAnEmbedding`). A caller can
  rule that out beforehand (`OptimalWithoutRuns`), and one changed letter in line 170 mends it
  (`CorrectedIsOptimal`).
- A handler that sends a command while `inspectorDisconnected` runs leaves it pending: the keys
  were copied before (`CommandLeftPending`). A reply dispatched from within a handler at that
  time can make the loop call a handler that is gone (`ReplyWhileDisconnecting`): exactly when
  it is the reply of a command whose turn is still to come (`CrashesIff`, `FlatCrashesIff`).
- Switching to a frame reports success even if the parent of the frame could not be learnt. The
  parent recorded before then stays, and switching to the parent frame skips a frame or stays
  where it is (`InAndOutOfFrame`, `ParentFrameCanBeSkipped`, `FrameCanBecomeItsOwnParent`).
- Element references are rewritten anywhere in a script result (`ResultHoldsNoNode`), but only
  at the top level of an argument (`ArgumentHoldsReference`, `NestedReferenceStays`).
- A request to perform actions that is refused leaves sources registered (`RegistersIff`), so
  that a later request can be refused on their account (`RefusedRequestRegisters`).

## Model

| member | source | states |
|---|---|---|
| FzyMatcher.PrecomputeBonus | webkitgtk-2.40.5/Documentation/jsc-glib-4.1/fzy.js:26-51 | each position gets the bonus of the pair formed by it and its left neighbour, the first one as if after a slash |
| FzyMatcher.FillRow | webkitgtk-2.40.5/Documentation/jsc-glib-4.1/fzy.js:68-89 | one pass of the inner loop turns correct rows i - 1 into correct rows i of both tables |
| FzyMatcher.Compute | webkitgtk-2.40.5/Documentation/jsc-glib-4.1/fzy.js:53-91 | every cell of both arrays ends up with the value of its recurrence |
| FzyTables.DIsBestEndingAt | webkitgtk-2.40.5/Documentation/jsc-glib-4.1/fzy.js:59-85 | D[i][j] is the maximum over all embeddings of needle[..i + 1] that end at j, attained whenever it is not SCORE_MIN |
| FzyTables.MIsBestUpTo | webkitgtk-2.40.5/Documentation/jsc-glib-4.1/fzy.js:59-87 | M[i][j] is the maximum over all embeddings of needle[..i + 1] that end at or before j, each skipped position costing the gap of the row, attained likewise |
| FzyTables.FinalCellIsBest | webkitgtk-2.40.5/Documentation/jsc-glib-4.1/fzy.js:93-123 | the last cell is the best score of any embedding of the whole needle, and is not SCORE_MIN exactly when there is one |
| FzyMatcher.ScoreMatch | webkitgtk-2.40.5/Documentation/jsc-glib-4.1/fzy.js:93-123 | for 0 < n < m <= 1024 (and n > m) the result is the best score over all embeddings; SCORE_MAX is returned exactly for equal non-zero lengths; an empty string or an overlong haystack gives SCORE_MIN |
| FzyMatcher.Positions | webkitgtk-2.40.5/Documentation/jsc-glib-4.1/fzy.js:125-178 | the array is what the backtracking walk over the true tables yields; equal lengths give the identity, and what the tables are not consulted for gives holes |
| FzyMatcher.FillPositions | webkitgtk-2.40.5/Documentation/jsc-glib-4.1/fzy.js:150-175 | the two nested loops with match_required, run on filled tables, compute that walk |
| FzyBacktrack.PositionsAreAnEmbedding | webkitgtk-2.40.5/Documentation/jsc-glib-4.1/fzy.js:125-178 | if any embedding exists, every slot is filled by one whose score is at most `score`, and equals it if and only if no accepted cell drops the requirement of line 170; otherwise every slot is empty |
| FzyBacktrack.OptimalWhenCellsAreBest | webkitgtk-2.40.5/Documentation/jsc-glib-4.1/fzy.js:162-170 | if every accepted cell has D equal to M, the positions earn exactly `score` |
| FzyBacktrack.OptimalWithoutRuns | webkitgtk-2.40.5/Documentation/jsc-glib-4.1/fzy.js:150-175 | a condition on the strings alone: if no three characters in a row of the needle stand in a row in the haystack, and so for every needle of two characters, the positions earn exactly `score` |
| FzyBacktrack.BacktrackRecovers | webkitgtk-2.40.5/Documentation/jsc-glib-4.1/fzy.js:152-175 | what holds from any cell of the walk on: an embedding of the rest, its score, and when it is the best |
| FzyBacktrack.AcceptCell | webkitgtk-2.40.5/Documentation/jsc-glib-4.1/fzy.js:162-171 | taking a cell on top of a recovered prefix loses points exactly when the requirement is dropped there |
| FzyBacktrack.PositionsCanBeSuboptimal | webkitgtk-2.40.5/Documentation/jsc-glib-4.1/fzy.js:168-170 | needle abc in a/babc: the positions are 0, 4, 5, worth 374 units, while `score` is 397 units |
| FzyBacktrack.CorrectedIsOptimal | webkitgtk-2.40.5/Documentation/jsc-glib-4.1/fzy.js:164-170 | a variant that is not the code: with D[i][j] in line 170, as the comment means it, the positions always earn exactly `score` |
| FzyFilter.HasMatch | webkitgtk-2.40.5/Documentation/jsc-glib-4.1/fzy.js:180-187 | the greedy scan answers true exactly when some embedding exists |
| FzyFilter.MatchedIffScored | webkitgtk-2.40.5/Documentation/jsc-glib-4.1/fzy.js:93-123 | wherever the tables are consulted, an embedding exists exactly when `score` is not SCORE_MIN |
| FzyFilter.EqualLengthsMatchOnlyThemselves | webkitgtk-2.40.5/Documentation/jsc-glib-4.1/fzy.js:100-106 | with equal lengths an embedding exists exactly when the strings are equal, which justifies SCORE_MAX and the identity positions |
| FzyFilter.Filter | webkitgtk-2.40.5/Documentation/jsc-glib-4.1/fzy.js:189-200 | exactly the matching items come out, by descending score, equal scores in input order; an empty needle keeps the list as it is |
| FzyFilter.KeptAreHits | webkitgtk-2.40.5/Documentation/jsc-glib-4.1/fzy.js:189-197 | a needle in lower case is looked for, and scored, in the item in lower case, any other in the item as it is; the items kept are those in which it is found |
| FzyFilter.EmptyNeedleKeepsAll | webkitgtk-2.40.5/Documentation/jsc-glib-4.1/fzy.js:94-98 | the empty needle is found in every item, and each has the lowest score |
| StableSorting.SortIsStable | webkitgtk-2.40.5/Documentation/jsc-glib-4.1/fzy.js:198 | the sort the host supplies: descending, a permutation, equal keys in input order |
| KeywordTrie.BuildHoldsKeywords | webkitgtk-2.40.5/Source/JavaScriptCore/KeywordLookupGenerator.py:103-109 | after the insertions the trie holds exactly the keyword list, the last entry of a word winning |
| KeywordTrie.InsertThenGet | webkitgtk-2.40.5/Source/JavaScriptCore/KeywordLookupGenerator.py:103-109 | one insertion changes the token of its own word and of no other |
| KeywordNodes.Node.Insert | webkitgtk-2.40.5/Source/JavaScriptCore/KeywordLookupGenerator.py:103-109 | the recursive insertion into mutable nodes does to the tree of objects what Insert does to its value |
| KeywordNodes.BuildNodes | webkitgtk-2.40.5/Source/JavaScriptCore/KeywordLookupGenerator.py:215-217 | the loop over the keyword list leaves the objects in the shape of Build |
| KeywordNodes.Node.CoalesceKeys | webkitgtk-2.40.5/Source/JavaScriptCore/KeywordLookupGenerator.py:111-116 | the rebuilt dictionary of nodes, in place |
| KeywordNodes.Node.Coalesce | webkitgtk-2.40.5/Source/JavaScriptCore/KeywordLookupGenerator.py:111-126 | returns the node or a merged one that shares the children, while the node itself only has its dictionary rebuilt |
| KeywordNodes.Node.FillOut | webkitgtk-2.40.5/Source/JavaScriptCore/KeywordLookupGenerator.py:128-138 | labels, weighs and sorts the nodes in place, and adds none |
| KeywordNodes.SortNodes | webkitgtk-2.40.5/Source/JavaScriptCore/KeywordLookupGenerator.py:137 | the stable sort on the nodes themselves |
| KeywordTrie.NothingOverwritten | webkitgtk-2.40.5/Source/JavaScriptCore/KeywordLookupGenerator.py:111-116 | coalesced siblings keep distinct first characters, so the rebuilt dictionary overwrites no child and keeps their order |
| KeywordTrie.MergeFinds | webkitgtk-2.40.5/Source/JavaScriptCore/KeywordLookupGenerator.py:119-126 | merging a valueless node with its only child keeps every word |
| KeywordTrie.CoalescePreserves | webkitgtk-2.40.5/Source/JavaScriptCore/KeywordLookupGenerator.py:111-126 | coalescing a node keeps its keywords and the distinct siblings, and leaves no valueless single-child node in it |
| KeywordTrie.CoalesceRootPreserves | webkitgtk-2.40.5/Source/JavaScriptCore/KeywordLookupGenerator.py:218 | the same for the whole trie, whose root the driver keeps unmerged |
| KeywordFillOut.FillOutKeeps | webkitgtk-2.40.5/Source/JavaScriptCore/KeywordLookupGenerator.py:128-138 | for any weights: labels every node with its full prefix, orders siblings by descending weight, and keeps keywords, edges and shape |
| KeywordFillOut.ReorderedFinds | webkitgtk-2.40.5/Source/JavaScriptCore/KeywordLookupGenerator.py:137 | any order of the siblings finds the same words |
| KeywordCompare.Compare2IsEquality | webkitgtk-2.40.5/Source/JavaScriptCore/KeywordLookupGenerator.py:226-265 | the two-character compare is character equality, for aligned access and packed loads of either byte order, at both widths |
| KeywordCompare.Compare4IsEquality | webkitgtk-2.40.5/Source/JavaScriptCore/KeywordLookupGenerator.py:228-283 | so is the four-character compare, as one packed load on x86-64 and as two halves elsewhere |
| KeywordCompare.CompareIsEquality | webkitgtk-2.40.5/Source/JavaScriptCore/KeywordLookupGenerator.py:262-304 | so is every COMPARE_2 to COMPARE_8, including the seven-character form that reads its fourth character twice |
| KeywordCompare.PackedFits | webkitgtk-2.40.5/Source/JavaScriptCore/KeywordLookupGenerator.py:239-257 | no packed value leaves the integer type it is computed in |
| KeywordEmit.PrintSubTree | webkitgtk-2.40.5/Source/JavaScriptCore/KeywordLookupGenerator.py:140-174 | the printing loop produces the statements of Emit |
| KeywordEmit.TestIsExact | webkitgtk-2.40.5/Source/JavaScriptCore/KeywordLookupGenerator.py:152-164 | an edge test, also the three-character one widened backwards, holds exactly when the edge is what comes next, and reads nothing past the buffer |
| KeywordEmit.ChainSelects | webkitgtk-2.40.5/Source/JavaScriptCore/KeywordLookupGenerator.py:165-174 | an if/else-if chain runs the body of the one child whose edge comes next, and falls through if there is none |
| KeywordEmit.EmitRecognises | webkitgtk-2.40.5/Source/JavaScriptCore/KeywordLookupGenerator.py:140-174 | the code of a node returns the first keyword of its subtree that ends before a character that cannot continue an identifier, and falls through exactly when there is none |
| KeywordEmit.LongestPrefix | webkitgtk-2.40.5/Source/JavaScriptCore/KeywordLookupGenerator.py:176-182 | the loop over the children computes the maximum that the next rows describe |
| KeywordEmit.MaxAmongBounds | webkitgtk-2.40.5/Source/JavaScriptCore/KeywordLookupGenerator.py:176-182 | no node of the tree has a longer full prefix |
| KeywordGenerator.KeywordIsNoLonger | webkitgtk-2.40.5/Source/JavaScriptCore/KeywordLookupGenerator.py:176-182 | no keyword of a node is longer than that maximum |
| KeywordGenerator.LongestPathIsKeyword | webkitgtk-2.40.5/Source/JavaScriptCore/KeywordLookupGenerator.py:176-182 | some keyword of a node is exactly that long |
| KeywordGenerator.MaxTokenLengthIsExact | webkitgtk-2.40.5/Source/JavaScriptCore/KeywordLookupGenerator.py:189-190 | maxTokenLength is one more than the longest keyword of the list, whatever the weights are |
| KeywordGenerator.Compile | webkitgtk-2.40.5/Source/JavaScriptCore/KeywordLookupGenerator.py:214-219 | all passes together give a well-formed, labelled, weight-ordered trie with nothing left to merge below the root |
| KeywordGenerator.CompileNodes | webkitgtk-2.40.5/Source/JavaScriptCore/KeywordLookupGenerator.py:214-219 | the driver on mutable nodes, which discards what coalescing the root returns, ends in the compiled trie |
| KeywordGenerator.CompileHoldsKeywords | webkitgtk-2.40.5/Source/JavaScriptCore/KeywordLookupGenerator.py:214-219 | the compiled trie has exactly the tokens of the keyword list |
| KeywordGenerator.ParseKeywordIsExact | webkitgtk-2.40.5/Source/JavaScriptCore/KeywordLookupGenerator.py:140-205 | for every keyword list, weighting, target and width and every buffer of at least maxTokenLength characters: the shortest keyword that ends in the buffer is returned with its token and shift, IDENT exactly when there is none, and no read leaves the buffer |
| KeywordGenerator.ParseKeywordOfIdentifiers | webkitgtk-2.40.5/Source/JavaScriptCore/KeywordLookupGenerator.py:140-205 | for keywords made of identifier characters, w is returned if and only if w is a prefix of the buffer and the next character cannot continue an identifier |
| KeywordGenerator.WeightsDoNotMatter | webkitgtk-2.40.5/Source/JavaScriptCore/KeywordLookupGenerator.py:137-174 | two weightings, and so two orders of the siblings, give the same result on every buffer |
| KeywordGenerator.ReadsNoFurther | webkitgtk-2.40.5/Source/JavaScriptCore/KeywordLookupGenerator.py:189-195 | cutting any longer buffer to maxTokenLength characters leaves the result as it is, so nothing from there on is looked at |
| KeywordGenerator.DefinedIffEdgesFit | webkitgtk-2.40.5/Source/JavaScriptCore/KeywordLookupGenerator.py:158-164 | every emitted macro exists exactly when no coalesced edge is longer than 8 |
| Agents.Reachable | webkitgtk-2.40.5/Source/JavaScriptCore/jsc.cpp:2090-2178 | in every reachable state the list, the waiters and all start handshakes satisfy their invariants |
| Agents.ListIsExact | webkitgtk-2.40.5/Source/JavaScriptCore/jsc.cpp:2090-2105 | a worker is on the list exactly when it has registered and not unregistered, which the destructor asserts |
| Agents.DeliveryIsExact | webkitgtk-2.40.5/Source/JavaScriptCore/jsc.cpp:2107-2155 | in every interleaving, what a registered worker has dequeued followed by its queue is exactly what the others broadcast since it registered, in lock order |
| Agents.ReportsAreFifo | webkitgtk-2.40.5/Source/JavaScriptCore/jsc.cpp:2157-2178 | reports handed out followed by those queued are exactly those made, in order |
| Agents.NoLostWakeUp | webkitgtk-2.40.5/Source/JavaScriptCore/jsc.cpp:2112-2118 | a waiter nobody has signalled has taken everything it is owed, and one that is owed something can go on; the same for reports (lines 2172-2178) |
| Agents.StartHandsOver | webkitgtk-2.40.5/Source/JavaScriptCore/jsc.cpp:2273-2326 | once $.agent.start has returned, the new worker is on the list unless it unregistered since, the next broadcast of the starter, which it can make (`StarterGoesOn`), is queued for it, and it can no longer touch the variables of the starter |
| Agents.StarterIsWoken | webkitgtk-2.40.5/Source/JavaScriptCore/jsc.cpp:2302-2324 | from the registration of the new worker until $.agent.start returns, one of the two threads has a next step, and the starter has one once the worker has announced itself |
| Agents.StarterGoesOn | webkitgtk-2.40.5/Source/JavaScriptCore/jsc.cpp:2320-2326 | once $.agent.start has returned, its starter is still on the list and active, and can broadcast any message |
| Agents.InsideOwnStart | webkitgtk-2.40.5/Source/JavaScriptCore/jsc.cpp:2273-2326 | in every reachable state a worker that is inside $.agent.start is the starter of a start of its own that has not returned |
| Agents.ActiveIsExact | webkitgtk-2.40.5/Source/JavaScriptCore/jsc.cpp:2107-2178 | in every run a worker can broadcast exactly when it is on the list and the last of its own steps that blocks it, a start or a wait, has been followed by the one that ends it |
| AgentsMonitor.Workers.Register | webkitgtk-2.40.5/Source/JavaScriptCore/jsc.cpp:2090-2098 | the constructor of a worker is one step of the state machine |
| AgentsMonitor.Workers.Unregister | webkitgtk-2.40.5/Source/JavaScriptCore/jsc.cpp:2100-2105 | the destructor of a worker is one step |
| AgentsMonitor.Workers.Broadcast | webkitgtk-2.40.5/Source/JavaScriptCore/jsc.cpp:2146-2155 | the loop over the list queues one copy for every worker but the sender and wakes all waiters: one step |
| AgentsMonitor.Workers.Dequeue | webkitgtk-2.40.5/Source/JavaScriptCore/jsc.cpp:2112-2118 | one look at the queue takes the first message or falls asleep: one step |
| AgentsMonitor.Workers.Report | webkitgtk-2.40.5/Source/JavaScriptCore/jsc.cpp:2157-2162 | appends and wakes all waiters: one step |
| AgentsMonitor.Workers.TryGetReport | webkitgtk-2.40.5/Source/JavaScriptCore/jsc.cpp:2164-2170 | the first report, or nothing: one step |
| AgentsMonitor.Workers.GetReport | webkitgtk-2.40.5/Source/JavaScriptCore/jsc.cpp:2172-2178 | one look at the reports takes the first or falls asleep: one step |
| PendingRequests.SessionHost.SendCommandToBackend | webkitgtk-2.40.5/Source/WebDriver/SessionHost.cpp:42-55 | a fresh identifier, one above the last, is recorded as pending with its handler |
| PendingRequests.SessionHost.Complete | webkitgtk-2.40.5/Source/WebDriver/SessionHost.cpp:71-83 | one handler fires with the reply; whatever it sends and whatever replies arrive meanwhile, the history goes on from there with newer commands only |
| PendingRequests.SessionHost.DispatchMessage | webkitgtk-2.40.5/Source/WebDriver/SessionHost.cpp:57-84 | a reply fires exactly the handler filed under its identifier, first and with the response its members make; any other message changes nothing |
| PendingRequests.ResponseIsUnique | webkitgtk-2.40.5/Source/WebDriver/SessionHost.cpp:74-81 | a response is an error exactly when the reply has one, and carries it; otherwise it carries the result unless that is missing or empty; and there is only one such response |
| PendingRequests.SessionHost.InspectorDisconnected | webkitgtk-2.40.5/Source/WebDriver/SessionHost.cpp:33-40 | handlers that only send commands never make it crash; then everything pending at the start has been failed once, and what is pending at the end is exactly what has been sent since and not completed, each with its handler; in general the history and the crash are those computed from the order of the keys and from what the handlers do |
| PendingRequests.CrashesIff | webkitgtk-2.40.5/Source/WebDriver/SessionHost.cpp:36-38 | it crashes if and only if what some handler does, from the table its turn finds, completes a command whose own turn is still to come |
| PendingRequests.FlatCrashesIff | webkitgtk-2.40.5/Source/WebDriver/SessionHost.cpp:36-38 | if the handlers of arriving replies only send, that is if and only if a handler receives the reply of a later command |
| PendingRequests.AnsweringCrashes | webkitgtk-2.40.5/Source/WebDriver/SessionHost.cpp:36-38 | a handler that itself receives the reply of a later command makes it crash, whatever else is done |
| PendingRequests.CrashNeedsMention | webkitgtk-2.40.5/Source/WebDriver/SessionHost.cpp:36-38 | it does not crash unless a handler, or one below it, receives the reply of a later command |
| PendingRequests.SendingNeverCrashes | webkitgtk-2.40.5/Source/WebDriver/SessionHost.cpp:36-38 | nor if all handlers only send |
| PendingRequests.ReplyWhileDisconnecting | webkitgtk-2.40.5/Source/WebDriver/SessionHost.cpp:36-38 | two pending commands, the first of which receives the reply of the second: a crash |
| PendingRequests.DisconnectWhileReceiving | webkitgtk-2.40.5/Source/WebDriver/SessionHost.cpp:33-55 | the same on the object |
| PendingRequests.CommandLeftPending | webkitgtk-2.40.5/Source/WebDriver/SessionHost.cpp:36-39 | a handler that sends a command while its own is lost: no crash, and the new one stays pending |
| PendingRequests.DisconnectWhileSending | webkitgtk-2.40.5/Source/WebDriver/SessionHost.cpp:33-55 | the same on the object |
| PendingRequests.PendingMeans | webkitgtk-2.40.5/Source/WebDriver/SessionHost.cpp:46-71 | a command that was sent is pending, with its handler, exactly until it fires |
| PendingRequests.StaysPending | webkitgtk-2.40.5/Source/WebDriver/SessionHost.cpp:46-71 | what was pending stays pending, with its handler, exactly until it fires |
| PendingRequests.Conservation | webkitgtk-2.40.5/Source/WebDriver/SessionHost.cpp:33-84 | in every history as many commands have been sent as have completed or are pending |
| PendingRequests.SentOnce | webkitgtk-2.40.5/Source/WebDriver/SessionHost.cpp:44-46 | identifiers strictly increase in the order of sending |
| PendingRequests.FiredAfterSent | webkitgtk-2.40.5/Source/WebDriver/SessionHost.cpp:46-71 | a pending handler was sent under its own identifier |
| PendingRequests.GoneForGood | webkitgtk-2.40.5/Source/WebDriver/SessionHost.cpp:71 | an identifier that fired is never pending again |
| PendingRequests.FiredOnce | webkitgtk-2.40.5/Source/WebDriver/SessionHost.cpp:71-83 | each handler fires at most once |
| WebDriverContexts.CommandIsSafe | webkitgtk-2.40.5/Source/WebDriver/Session.cpp:221-762 | from coherent contexts no command reads a context that is gone, whatever the backend answers, and it leaves them coherent |
| WebDriverContexts.NoRunCrashes | webkitgtk-2.40.5/Source/WebDriver/Session.cpp:117-762 | in every run of commands on a new session, against every backend: the window is there whenever a frame is, and exactly when a parent is, so no value is read that is gone |
| WebDriverContexts.PromptsKeepContexts | webkitgtk-2.40.5/Source/WebDriver/Session.cpp:221-310 | handling prompts, in any of its five ways, needs a window and changes no context |
| WebDriverEffects.ReactionCounts | webkitgtk-2.40.5/Source/WebDriver/Session.cpp:249-310 | what is sent about an open prompt: one dismissal and no acceptance for the two dismissing behaviours, the reverse for the accepting ones, neither when ignoring; the text is asked for once, and first, by the two that notify and when ignoring |
| WebDriverEffects.PromptsAreHandled | webkitgtk-2.40.5/Source/WebDriver/Session.cpp:221-310 | over all that is sent: the question, and nothing more without a prompt; otherwise exactly that reaction, with the failure of the answer as the error, else the unexpected alert for the behaviours that notify, else none |
| WebDriverEffects.CommandHandlesPrompts | webkitgtk-2.40.5/Source/WebDriver/Session.cpp:312-762 | every command that looks for prompts does so once it has waited and its guard is passed: an error from there ends it with nothing more sent, otherwise it goes on from there |
| WebDriverContexts.WaitingIsSafe | webkitgtk-2.40.5/Source/WebDriver/Session.cpp:1746-1781 | waiting for navigation leaves the contexts alone, or loses the frame, or loses all three |
| WebDriverEffects.WaitingMeans | webkitgtk-2.40.5/Source/WebDriver/Session.cpp:1746-1781 | which of the three it is, from the answer to its one request |
| WebDriverContexts.SilentIffRefused | webkitgtk-2.40.5/Source/WebDriver/Session.cpp:312-762 | a command reports no such window without having asked the backend anything if and only if the window, frame or parent it needs is gone; then it changes nothing |
| WebDriverContexts.GoneWindow | webkitgtk-2.40.5/Source/WebDriver/Session.cpp:556-633 | once the window is gone, the commands that report so are exactly those other than a switch to another window, the list of windows and the timeouts; only the switch brings a window back |
| WebDriverContexts.GoneWindowIsSilent | webkitgtk-2.40.5/Source/WebDriver/Session.cpp:556-573 | so a run of commands that need a window neither sends nor changes any context |
| WebDriverEffects.LostFrame | webkitgtk-2.40.5/Source/WebDriver/Session.cpp:556-762 | with the frame gone but not the window, the commands that report no such window at once are exactly the switch to a child frame, the click and those that need a frame |
| WebDriverEffects.NothingLost | webkitgtk-2.40.5/Source/WebDriver/Session.cpp:312-762 | with both there, none does |
| WebDriverEffects.CommandSucceeds | webkitgtk-2.40.5/Source/WebDriver/Session.cpp:312-762 | against a backend that grants everything, what each command asks for, in order, and the contexts it leaves, written out request by request |
| WebDriverEffects.FailedMoveStays | webkitgtk-2.40.5/Source/WebDriver/Session.cpp:312-762 | a command whose last request, a navigation, a switch or the search for a child frame, fails leaves the contexts as waiting left them, and reports that failure; only the parent frame is reported as a missing window |
| WebDriverContexts.RunTracksParent | webkitgtk-2.40.5/Source/WebDriver/Session.cpp:165-182 | if the backend always answers what the parent of a frame is, the recorded parent is the parent of the current frame in every run |
| WebDriverContexts.InAndOutOfFrame | webkitgtk-2.40.5/Source/WebDriver/Session.cpp:679-762 | into a child frame and out again leads back if and only if the parent was learnt on the way in, or the frame is its own parent as the top frame is; all contexts are restored if and only if the parent was learnt both ways, or the frame is its own parent |
| WebDriverContexts.ParentFrameCanBeSkipped | webkitgtk-2.40.5/Source/WebDriver/Session.cpp:176-180 | with frames nested a, b, c and a backend that cannot name the parent of c: from b into c and out again, both reported as successes, ends in a |
| WebDriverContexts.FrameCanBecomeItsOwnParent | webkitgtk-2.40.5/Source/WebDriver/Session.cpp:176-180 | the same with a backend that cannot name the parent of b: b ends up as its own parent, and switching to the parent frame stays there |
| WebDriverSession.Session.CreateTopLevelBrowsingContext | webkitgtk-2.40.5/Source/WebDriver/Session.cpp:201-219 | opens the window, on an answer with a handle |
| WebDriverSession.Session.HandleUserPrompts | webkitgtk-2.40.5/Source/WebDriver/Session.cpp:221-310 | does what the specification says for all five behaviours |
| WebDriverSession.Session.WaitForNavigationToComplete | webkitgtk-2.40.5/Source/WebDriver/Session.cpp:1746-1781 | does what the specification says and stays coherent |
| WebDriverSession.Session.SwitchToBrowsingContext | webkitgtk-2.40.5/Source/WebDriver/Session.cpp:165-182 | makes a frame current and records the parent that is answered; reports success without an answer too |
| WebDriverSession.Session.Go | webkitgtk-2.40.5/Source/WebDriver/Session.cpp:312-339 | navigation, also back, forward and refresh, ends in the top frame |
| WebDriverSession.Session.CloseWindow | webkitgtk-2.40.5/Source/WebDriver/Session.cpp:530-573 | forgets all contexts, closes the window and asks for those that are left; a browser that quits on either counts as success |
| WebDriverSession.Session.GetWindowHandles | webkitgtk-2.40.5/Source/WebDriver/Session.cpp:601-633 | asks for the windows, with or without one of its own |
| WebDriverSession.Session.ElementClick | webkitgtk-2.40.5/Source/WebDriver/Session.cpp:1858-1919 | does what the specification says, with the tag name asked for as a command whose failure is ignored |
| WebDriverSession.Session.RunCommands | webkitgtk-2.40.5/Source/WebDriver/WebDriverService.cpp:992-1310 | a list of commands, each after its wait for navigation where it has one, is the specified run |
| WebDriverSession.Session.SwitchToWindow | webkitgtk-2.40.5/Source/WebDriver/Session.cpp:589-599 | ends in the top frame of the other window if the backend switched |
| WebDriverSession.Session.SwitchToFrame | webkitgtk-2.40.5/Source/WebDriver/Session.cpp:679-735 | to the top frame, or to the child frame the backend resolves |
| WebDriverSession.Session.SwitchToParentFrame | webkitgtk-2.40.5/Source/WebDriver/Session.cpp:737-762 | to the recorded parent; a missing frame is reported as a missing window |
| WebDriverTicks.AppendRow | webkitgtk-2.40.5/Source/WebDriver/WebDriverService.cpp:2332-2336 | one more sequence extends the ticks to those of the longer list of sequences |
| WebDriverTicks.EveryActionHasItsPlace | webkitgtk-2.40.5/Source/WebDriver/WebDriverService.cpp:2322-2337 | the t-th action of every sequence is in tick t, behind those of the sequences before it |
| WebDriverTicks.OnlyActionsHavePlaces | webkitgtk-2.40.5/Source/WebDriver/WebDriverService.cpp:2322-2337 | and every entry of a tick is the action of some sequence at its place |
| WebDriverTicks.PlacesIncrease | webkitgtk-2.40.5/Source/WebDriver/WebDriverService.cpp:2322-2337 | within a tick the order is that of the sequences |
| WebDriverTicks.CountsAreConserved | webkitgtk-2.40.5/Source/WebDriver/WebDriverService.cpp:2322-2337 | the ticks hold as many actions as the sequences |
| WebDriverTicks.SourceRecovered | webkitgtk-2.40.5/Source/WebDriver/WebDriverService.cpp:2322-2337 | the actions of one source, read off the ticks in order, are its own sequences transposed, however many there are |
| WebDriverTicks.WholeSequenceRecovered | webkitgtk-2.40.5/Source/WebDriver/WebDriverService.cpp:2322-2337 | they are its sequence itself if it is the only one of that source |
| WebDriverActions.RequestRecovered | webkitgtk-2.40.5/Source/WebDriver/WebDriverService.cpp:2309-2337 | this holds for every source of every accepted request |
| WebDriverActions.ParsedIsWellTyped | webkitgtk-2.40.5/Source/WebDriver/WebDriverService.cpp:1949-2190 | a parsed action carries the source, the type and the members that performing it takes for granted |
| WebDriverActions.InputSession.GetOrCreateInputSource | webkitgtk-2.40.5/Source/WebDriver/Session.cpp:2749-2755 | a source that is registered keeps its type |
| WebDriverActions.InputSession.ProcessInputActionSequence | webkitgtk-2.40.5/Source/WebDriver/WebDriverService.cpp:2226-2307 | a sequence is accepted exactly when it is well-formed (`SequenceIsExact`) and agrees with the registered type of its source; then each item gives its own action; accepted or not, a new source is registered exactly when type, identifier and pointer type are fine |
| WebDriverActions.SequenceIsExact | webkitgtk-2.40.5/Source/WebDriver/WebDriverService.cpp:1949-2307 | which items a sequence of each type may have, and which members they must carry, by the strings of the request; a sequence of nothing else is refused |
| WebDriverActions.ItemIsShown | webkitgtk-2.40.5/Source/WebDriver/WebDriverService.cpp:1962-2190 | from the item to the state that is sent, whatever was pressed before: a plain key is shown after keyDown and none after keyUp, a virtual key is in the set or not, pointerDown with 0, 1, 2 shows the left, middle, right button, pointerUp and pointerCancel show none, moves and scrolls show place, origin and delta, and a duration is carried over; nothing else is shown |
| WebDriverActions.InputSession.CollectTicks | webkitgtk-2.40.5/Source/WebDriver/WebDriverService.cpp:2309-2337 | ticks come out exactly when each sequence is accepted with the sources that those before it leave; otherwise the first that is not stops the request, and the sources registered until then stay |
| WebDriverActions.RegistersIff | webkitgtk-2.40.5/Source/WebDriver/WebDriverService.cpp:2264-2273 | a request, refused or not, changes the sources if and only if one of the sequences looked at names a source that is not registered |
| WebDriverActions.RefusedRequestRegisters | webkitgtk-2.40.5/Source/WebDriver/WebDriverService.cpp:2264-2280 | a key sequence without actions is refused, and a pointer sequence with its identifier is refused from then on |
| WebDriverActions.InputSession.EmitAction | webkitgtk-2.40.5/Source/WebDriver/Session.cpp:2829-2950 | the emitted state shows what the source has pressed, as the fold of all its actions since the last release says; it crashes exactly on a missing coordinate |
| WebDriverActions.InputSession.EmitSteps | webkitgtk-2.40.5/Source/WebDriver/Session.cpp:2825-2952 | so does every state of every step, across any number of commands |
| WebDriverActions.PressedIsShown | webkitgtk-2.40.5/Source/WebDriver/Session.cpp:2829-2950 | a state shows a button or a key as pressed exactly when its source pressed it and did not let go since, whatever other sources did |
| WebDriverActions.RequestIsShown | webkitgtk-2.40.5/Source/WebDriver/WebDriverService.cpp:2309-2340 | for each item of an accepted request there is one state, in the step of its index behind those of the earlier sequences that are long enough, and it shows the item; there are no other states |
| WebDriverActions.SourcesAreSaid | webkitgtk-2.40.5/Source/WebDriver/Session.cpp:2952-2962 | the sources told are those of the sequences with an item, each once, with the type and the pointer type that the request asks for |
| WebDriverActions.PlacedIsExact | webkitgtk-2.40.5/Source/WebDriver/Session.cpp:2845-2935 | performing an accepted request crashes exactly when one of its moves or scrolls lacks a coordinate |
| WebDriverActions.InputSession.PerformActions | webkitgtk-2.40.5/Source/WebDriver/Session.cpp:2798-2972 | no frame or an open prompt and nothing is performed; nor is anything without actions; otherwise the steps go out in one request, with the list of sources |
| WebDriverActions.InputSession.CollectSources | webkitgtk-2.40.5/Source/WebDriver/Session.cpp:2952-2962 | each source that acts is listed once, with the type it is registered with |
| WebDriverActions.MoveWithoutCoordinates | webkitgtk-2.40.5/Source/WebDriver/WebDriverService.cpp:2029-2081 | a pointer move without coordinates is accepted by the parser, and performing it crashes |
| WebDriverActions.InputSession.Perform | webkitgtk-2.40.5/Source/WebDriver/WebDriverService.cpp:2309-2340 | the whole command: refused exactly when the request is not accepted, or as the guard and the prompts say; otherwise nothing is sent exactly for a request without items, it crashes exactly on a missing coordinate, and what is sent shows the request item by item, with its sources and with all that is pressed; the sources are as the sequences looked at leave them |
| WebDriverActions.InputSession.ReleaseActions | webkitgtk-2.40.5/Source/WebDriver/Session.cpp:2974-2993 | sources and states are forgotten, unless the window is gone |
| WebDriverActions.PressedButtonMeans | webkitgtk-2.40.5/Source/WebDriver/Session.cpp:2840-2870 | a button counts as pressed exactly when it went down and no button moved since |
| WebDriverActions.VirtualKeyMeans | webkitgtk-2.40.5/Source/WebDriver/Session.cpp:2873-2901 | a virtual key counts as pressed exactly when it went down and did not go up since |
| WebDriverActions.CharKeyMeans | webkitgtk-2.40.5/Source/WebDriver/Session.cpp:2873-2901 | a character key counts as pressed exactly when it went down and no character key moved since |
| WebDriverKeys.NamesAgree | webkitgtk-2.40.5/Source/WebDriver/Session.cpp:2064-2218 | the table gives a modifier to exactly the keys named after one |
| WebDriverKeys.RenderText | webkitgtk-2.40.5/Source/WebDriver/Session.cpp:2278-2300 | one interaction for every unit of the text, in order, with the mask in step |
| WebDriverKeys.SendKeys | webkitgtk-2.40.5/Source/WebDriver/Session.cpp:2278-2313 | presses and releases of each modifier alternate, start with a press and end released; the length is that of the text plus the number of modifiers left down, at most 4 |
| WebDriverScripts.ResultHoldsNoNode | webkitgtk-2.40.5/Source/WebDriver/Session.cpp:2362-2384 | a script result never shows the client the session's own element key |
| WebDriverScripts.ResultIsReport | webkitgtk-2.40.5/Source/WebDriver/Session.cpp:2362-2384 | place by place: each object with the session's key becomes the reference of the client to the same element, however deep it is, and every other place keeps its shape, keys, order, texts and values |
| WebDriverScripts.OnlyOneReport | webkitgtk-2.40.5/Source/WebDriver/Session.cpp:2362-2384 | that determines the result |
| WebDriverScripts.GetStringFinds | webkitgtk-2.40.5/Source/WebDriver/Session.cpp:2368-2373 | with distinct keys, an object has that key exactly when a text stands under it |
| WebDriverScripts.ResultUnchanged | webkitgtk-2.40.5/Source/WebDriver/Session.cpp:2362-2384 | a result is reported as it is exactly when that key is nowhere in it |
| WebDriverScripts.ArgumentComesBack | webkitgtk-2.40.5/Source/WebDriver/Session.cpp:2393-2407 | an argument sent and returned comes back the same exactly when it is a plain element reference, or is none and holds no such key |
| WebDriverScripts.ArgumentHoldsReference | webkitgtk-2.40.5/Source/WebDriver/Session.cpp:2398-2406 | what is sent holds a reference in the form of the client if and only if the argument holds one and is none itself: only the top level is rewritten |
| WebDriverScripts.NestedReferenceStays | webkitgtk-2.40.5/Source/WebDriver/Session.cpp:2398-2406 | a list of one reference is sent as it is |
| WebDriverCapabilities.Service.ProcessCapabilities | webkitgtk-2.40.5/Source/WebDriver/WebDriverService.cpp:707-808 | the completion handler is called exactly when nothing is returned, once, with the error that applies; otherwise the result lists, in the order of the alternatives, what matching makes of each merged with alwaysMatch, leaving out those that do not match |
| WebDriverCapabilities.ProvidedAreMatches | webkitgtk-2.40.5/Source/WebDriver/WebDriverService.cpp:786-801 | each listed object is the match of a set whose keys are those of alwaysMatch and of its alternative together, and which agrees with each of the two on its own keys |
| WebDriverCapabilities.OnlyOneMerge | webkitgtk-2.40.5/Source/WebDriver/WebDriverService.cpp:639-653 | there is only one such set |
| WebDriverCapabilities.MissingMembers | webkitgtk-2.40.5/Source/WebDriver/WebDriverService.cpp:720-763 | a missing alwaysMatch means one that requires nothing, a missing firstMatch one alternative that adds nothing |
| WebDriverCapabilities.ProvidedIsUnique | webkitgtk-2.40.5/Source/WebDriver/WebDriverService.cpp:786-801 | that determines the list |
| WebDriverCapabilities.MergeLosesNothing | webkitgtk-2.40.5/Source/WebDriver/WebDriverService.cpp:639-653 | for a valid alternative the merge has disjoint keys, so it loses nothing and does not depend on its order |
| WebDriverCapabilities.Service.ConnectToBrowser | webkitgtk-2.40.5/Source/WebDriver/WebDriverService.cpp:827-848 | takes the last of the list, starts over with the rest on a mismatch, and completes once, for hosts that may answer differently each time |
| WebDriverCapabilities.Service.CreateSession | webkitgtk-2.40.5/Source/WebDriver/WebDriverService.cpp:850-872 | the same from an established connection |
| WebDriverCapabilities.Service.NewSession | webkitgtk-2.40.5/Source/WebDriver/WebDriverService.cpp:810-825 | completes exactly once; browsers are started in the order of the alternatives up to the first that is no mismatch, which alone decides the answer and the session; if matching takes nothing away, every browser tried and the session hold every capability of alwaysMatch with its value |
| WebDriverCapabilities.AnswerMeans | webkitgtk-2.40.5/Source/WebDriver/WebDriverService.cpp:827-872 | the first attempt that is no mismatch decides: its own capabilities if the browser started, an unknown error if its start failed, otherwise no session |
| WebDriverCapabilities.NoneSettles | webkitgtk-2.40.5/Source/WebDriver/WebDriverService.cpp:827-861 | if all are mismatches all are tried, and there is no session |
| WebDriverCapabilities.TriedHoldRequired | webkitgtk-2.40.5/Source/WebDriver/WebDriverService.cpp:786-872 | all that is tried, and what the session gets, holds all that is required, if matching takes nothing away |
| WebDriverCapabilities.TriesMeans | webkitgtk-2.40.5/Source/WebDriver/WebDriverService.cpp:856-861 | everything before the last try was a mismatch, and only a mismatch leads on to the end of the list |
| LineSplitter.ParseOutputLines | webkitgtk-2.40.5/Tools/glib/common.py:110-143 | the callbacks are the lines of the whole output, for every chunking |
| LineSplitter.Drain | webkitgtk-2.40.5/Tools/glib/common.py:136-139 | hands over every complete line and keeps the rest |
| LineSplitter.LinesOfMore | webkitgtk-2.40.5/Tools/glib/common.py:131-139 | lines that are complete stay as they are when more text arrives |
| LineSplitter.LinesAreASplit | webkitgtk-2.40.5/Tools/glib/common.py:136-143 | the lines concatenate to the text; each ends in its only newline, but for a last non-empty rest |
| LineSplitter.SplitIsUnique | webkitgtk-2.40.5/Tools/glib/common.py:136-143 | a text has no other split like that |

## Left out

- IEEE rounding in fzy.js: scores are exact integers, and the two infinities are values of their own.
- Case folding in fzy.js: the two conversions are any functions on strings.
- The form of `UCHARQUAD_TOUINT64` for big-endian targets (KeywordLookupGenerator.py:245-246): it refers to itself, and only the x86-64 branch uses the macro.
- KeywordFillOut.FillOutKeeps: weights are integers, the source sums floating-point numbers; the property holds for any weights and so for any order the sums may give.
- Reading keyword files, padding and the exact text of the generated source: the emitted program is a tree of statements.
- The identifier class behind `cannotBeIdentPartOrEscapeStart`: any set of units.
- Agents: contents of messages, timers, the thread that is killed by a failing script, and the memory checks before a thread is created.
- Agents.StartHandsOver: the variables of one `$.agent.start` call exist as steps of the state machine only, not as an object; `notifyOne` wakes their only possible waiter, the starter.
- PendingRequests.SessionHost.DispatchMessage: a reply whose identifier is not pending is a precondition, as the source only asserts it.
- PendingRequests.SessionHost.InspectorDisconnected: handlers send commands and dispatch replies while it runs, but do not disconnect once more from within; a reply for a command that is no longer pending is skipped there.
- Overflow of the request counter, and sending the text of a request.
- Commands that run while another one on the same session waits: commands are serialised. Deleting the session and dropping it when no window is left are not modelled, nor is the loop that closes all windows, because the session is unreachable from then on.
- WebDriverContexts.NoRunCrashes: the arguments of a command have been accepted, a reply whose contents a command rejects is a failing reply, and a null string handle is the empty one.
- WebDriverActions.InputSession.PerformActions: reading a coordinate that the parser left out ends the program, and nothing is said of the state it leaves.
- JSON text, HTTP, URLs, routing of requests, file uploads, cookies, screenshots and the platform hooks of the browser.
- WebDriverCapabilities.Service.ProcessCapabilities: validating and matching one set of capabilities are any functions; error messages are left out.
- WebDriverCapabilities.Service.NewSession: a host calls back once per attempt, with one of five outcomes, which may depend on all attempts so far.
- Decoding of bytes, errors of `select` and of the read in common.py: a chunk is a string, and an empty one ends the stream.
