# VDMS: a verified model

VDMS stores visual data and answers requests made of JSON commands. This Dafny project models the
parts of it with the most state and proves what they promise. The parts are independent of each
other, apart from the query engine, whose files build on one another.

| file | module | what it models |
|---|---|---|
| `Sequences.dfy` | `Sequences` | facts about sequences that the other files share |
| `Graph.dfy`, `Ordering.dfy` | `Graph`, `Ordering` | the property graph as a value; what predicates accept; stable sorting |
| `Cursors.dfy` | `Cursors` | lazy search and neighbour iterators, and the reusable cursor over them |
| `EdgeSearch.dfy` | `EdgeSearch` | the lazy edge iterator between two cursors |
| `NodeQueries.dfy` | `NodeQueries` | one node query: iterator, cursor, uniqueness, sorting, reply, caching |
| `Constraints.dfy` | `Constraints` | from JSON constraints to predicates, and what they mean |
| `QueryHandler.dfy` | `Engine` | the query handler with its cached cursors: add, connect, query, update |
| `Transactions.dfy` | `Transactions` | runs of commands |
| `Responses.dfy` | `Responses` | blobs, groups and replies of a whole request |
| `ExpiryQueue.dfy` | `ExpiryQueue` | the queue of expiring nodes |
| `ImageLoop.dfy`, `ImageObject.dfy` | `ImageLoop`, `ImageObject` | the image event loop with its two threads; one image and its operation list |
| `KeyFrames.dfy` | `KeyFrames` | the key-frame decoder that avoids seeking |
| `WorkerPool.dfy` | `WorkerPool` | the worker threads behind the request queue |
| `DescriptorStore.dfy`, `Labels.dfy`, `Vote.dfy` | the same | descriptor sets: rows and their in-memory copy, label numbers and their file, classification |
| `Csv.dfy` | `Csv` | the CSV reader and writer |

Code that updates objects is modelled by classes with the same fields and by methods with loops;
each is proved equal to a function of the old state, and the promises are proved of that function.
The two protocols between threads, the image loop and the worker pool, are step functions over
their interleavings, with theorems over all runs; so are the expiry queue and the descriptor set
over their calls. PMGD, OpenCV, FFmpeg,
TileDB, curl and the file system are values and parameters: a graph, a pixel transform, a sequence
of pictures with a codec that answers when it likes, an array, a text.

## Where the code does something else than it seems to promise

Each of these is a theorem about the code as it is, with the exact condition under which the
promise holds.

- A conditional addition without a reference never adds a node, because an empty match is only
  told apart when the query is to be cached (`Transactions.AddsExactlyWhen`,
  `Transactions.AdditionWithoutReference`).
- An edge query between references yields nothing if the first node it starts from has no edge of
  the right tag, whatever the other nodes have (`EdgeSearch.YieldedExactly`,
  `EdgeSearch.FirstSourceWithoutEdges`).
- A cached query that was not drained may denote something else after an update in the same
  transaction (`Engine.MeaningSameIff`, `Engine.QueryHandler.UpdateNode`,
  `Transactions.UpdateChangesCachedQuery`).
- An operator that is none of the known ones, or a range whose operators do not form an interval,
  compiles to "the property is present" (`Constraints.OddRangeSelects`, `Constraints.IntegerSelects`).
- The image loop's stop test can fire while the remote thread still holds an image
  that it has already replied to (`ImageLoop.StopCanLoseAnImage`, `ImageLoop.StopCompletesIff`,
  `ImageLoop.StopLeavesNothingUnanswered`).
- A CSV cell without separator or space is written without quotes, so that one which looks quoted,
  or opens a quote before a separator, is read back differently (`Csv.RoundTrip`).
- The label cache of a descriptor set is not extended by an add without labels, although the
  label -1 is stored (`DescriptorStore.DenseSet.Add`); an add that reaches the last two cells of
  the array loses those rows, which shows once the set is reopened
  (`DescriptorStore.FetchAfterReopen`, `DescriptorStore.RowCanBeLost`).
- Classification answers -1 also if the label -1 wins the vote (`Vote.MinusOne`,
  `Vote.MinusOneMeansNone`, `Vote.MinusOneCanWin`).
- A label map survives its text file only if every label is non-empty and free of white space
  (`Labels.SaveLoad`).
- A request without commands, which the schema rejects, would be answered as a failed transaction
  (`Responses.PmgdQuery.Run`).

## Model

The rows marked as main results are the theorems the others lead to.

| member | source | states |
|---|---|---|
| Ordering.SortedInOrder | src/PMGDIterators.h:114-124 | sorting puts nodes with comparable keys in ascending or descending order |
| Ordering.SortedStable | src/PMGDIterators.h:114-124 | sorting keeps the order of nodes with equal keys |
| Ordering.SortedByValue | src/PMGDIterators.h:114-124 | **Main result.** read off the stored values: of two places in the sorted list the first stores the smaller integer, real, time, boolean or (lexicographically) string, or an equal one; the larger one if descending |
| Ordering.SortableIff | src/PMGDIterators.h:114-124 | no exception is raised if and only if at most one node is sorted or all of them store values of one type |
| Ordering.StringLessIs | src/PMGDIterators.h:114-124 | the order on strings is the lexicographic one: a common prefix, then the end of the first string or a smaller character |
| Graph.NeighborsMembers | src/SearchExpression.cc:90-99 | the neighbours are exactly the nodes at the other end of an edge with the tag and direction that passes every predicate, each once |
| Graph.NeighborsGrow | src/SearchExpression.cc:90-99 | one more edge adds its other end behind the others, if it fits and the node is not there already |
| Cursors.SearchIterator.Settle | src/SearchExpression.cc:56-69 | skipping to the next accepted candidate changes nothing about what is still to come |
| Cursors.SearchIterator.Nodes | src/SearchExpression.cc:76-84 | an open search has exactly the tagged nodes that pass all predicates before it, in scan order, although the first predicate is left to the index |
| Cursors.SearchIterator.Neighbors | src/SearchExpression.cc:90-99 | the same for the neighbours of one node, with the tag checked and no predicate left out |
| Cursors.SearchIterator.Next | src/SearchExpression.cc:105-108 | one step removes the first of what is still to come |
| Cursors.NeighborIterator.Refill | src/PMGDIterators.cc:53-70 | going on to the next start node with neighbours loses none, and the shared start cursor still denotes what it did |
| Cursors.NeighborIterator.constructor | src/PMGDIterators.h:156-163 | a linked search has before it the filtered neighbours of every start node, start by start |
| Cursors.NeighborIterator.Next | src/PMGDIterators.cc:72-79 | one step removes the first of what is still to come |
| Cursors.FoundFromMembers | src/PMGDIterators.cc:53-79 | a linked search reaches a node if and only if the node has the tag, passes every predicate and a fitting edge leads to it from a start node |
| Cursors.FoundFromInOrder | src/PMGDIterators.cc:53-79 | start nodes are walked from one after the other |
| Cursors.Cursor.Over | src/PMGDIterators.h:93-93 | a new cursor stands at the first element and denotes everything its iterator would yield |
| Cursors.Cursor.Single | src/PMGDIterators.h:96-97 | a cursor over a new node denotes just that node |
| Cursors.Cursor.Next | src/PMGDIterators.h:55-67 | stepping, through what was traversed and then the iterator, never changes what the cursor denotes |
| Cursors.Cursor.TraverseAll | src/PMGDIterators.h:106-109 | draining keeps what the cursor denotes, stores it all and makes the cursor independent of its start cursor |
| Cursors.Cursor.Reset | src/PMGDIterators.h:105-105 | a reset cursor stands at the first element of the same sequence |
| Cursors.Cursor.Sort | src/PMGDIterators.h:114-124 | sorting drains and reorders: the cursor denotes the stable sort of what it denoted, or an exception is raised if a key is missing or not comparable |
| EdgeSearch.EdgesFromMembers | src/PMGDIterators.cc:91-120 | the reference answer holds exactly the edges at start nodes with the tag and direction that pass all predicates and end in the destination set |
| EdgeSearch.EdgeIterator.Open | src/PMGDIterators.h:199-249 | an open edge iterator has before it what the code yields, in source order, and both cursors still denote what they did |
| EdgeSearch.EdgeIterator.NextSource | src/PMGDIterators.cc:91-107 | going on to the next source node with a passing edge loses none |
| EdgeSearch.EdgeIterator.Next | src/PMGDIterators.cc:81-89 | one step removes the first of what is still to come |
| EdgeSearch.EdgeIterator.CheckPredicates | src/PMGDIterators.cc:109-120 | an edge passes if and only if it meets the predicates from the start index on and ends in the destination set, if there is one |
| EdgeSearch.YieldedExactly | src/PMGDIterators.h:238-241 | **Main result.** between references the iterator yields all wanted edges if and only if the first start node has a tagged edge or none is wanted |
| EdgeSearch.YieldedEverywhere | src/PMGDIterators.h:221-225 | without references it always yields all wanted edges, with the first predicate left to the index |
| EdgeSearch.FirstSourceWithoutEdges | src/PMGDIterators.h:238-241 | a graph in which one edge is wanted and none is yielded |
| EdgeSearch.RunEdges | src/PMGDQueryHandler.cc:646-708 | **Main result.** an edge query visits the yielded edges up to the limit and leaves both cursors reset and unchanged |
| EdgeSearch.WantedFromSource | src/PMGDIterators.cc:109-120 | **Main result.** with a source, an edge is wanted if and only if it is in the graph with the tag, leaves a source node, passes every predicate and, with a destination, enters one of its nodes |
| EdgeSearch.WantedIntoDestination | src/PMGDIterators.h:200-209 | with a destination only, if and only if it has the tag, enters one of its nodes and passes every predicate |
| EdgeSearch.WantedAnywhere | src/PMGDIterators.h:216-225 | without references, if and only if it has the tag and passes every predicate |
| EdgeSearch.YieldedFromSource | src/PMGDIterators.h:226-249 | **Main result.** with a source, the iterator yields an edge if and only if it is wanted, as above, and some edge with the tag leaves the first source node |
| EdgeSearch.YieldedIntoDestination | src/PMGDIterators.h:200-249 | the same with a destination only |
| EdgeSearch.WantedInOrder | src/PMGDIterators.cc:91-107 | wanted edges come source node by source node, and at one node in the order of the graph, each as often as it is there |
| NodeQueries.CheckUnique | src/PMGDQueryHandler.cc:560-571 | looking for a second element decides uniqueness and loses nothing |
| NodeQueries.Park | src/PMGDQueryHandler.cc:579-585 | a cached cursor is back at its first element, a linked one drained first, so that no cached cursor depends on another |
| NodeQueries.RunReusable | src/PMGDQueryHandler.cc:558-593 | reply and cached cursor of a query that keeps a cursor, from the sequence the iterator yields |
| NodeQueries.RunLinked | src/PMGDQueryHandler.cc:530-593 | a linked query answers from the neighbours of the start cursor and leaves that cursor reset and unchanged |
| NodeQueries.RunUnlinked | src/PMGDQueryHandler.cc:530-593 | a query over the whole graph answers from all accepted nodes; one that is only cached has looked no further than its second match |
| NodeQueries.VisitCursor | src/PMGDQueryHandler.cc:774-830 | the result loop visits the first elements up to the limit |
| NodeQueries.AnswerMembers | src/PMGDQueryHandler.cc:486-533 | **Main result.** a node is in a query's answer if and only if it has the query's tag, passes all its predicates and, for a linked query, a fitting edge in the link's direction leads to it from a start node |
| NodeQueries.ReplyTells | src/PMGDQueryHandler.cc:774-898 | **Main result.** a reply is empty or not unique exactly when the answer is and the query minds; otherwise a count is the length of the answer, a list its sorted prefix of length min(limit, length), all of it without a limit, and an identifier that of its last node |
| Constraints.ParseQueryConstraints | src/PMGDQuery.cc:330-459 | the loop fails if and only if one operand is no property value, and otherwise produces predicates that hold exactly when every constraint is met |
| Constraints.CompileMeans | src/PMGDQuery.cc:330-459 | **Main result.** a node passes the compiled predicates if and only if it meets every constraint as written, `_deletion` adding nothing |
| Constraints.CompileOneMeans | src/PMGDQueryHandler.cc:711-725 | message and search term together mean what one constraint says |
| Constraints.SearchMeaning | src/SearchExpression.cc:56-84 | **Main result.** a search yields exactly, in scan order, the tagged nodes that satisfy the JSON constraints |
| Constraints.LinkMeaning | src/PMGDIterators.cc:53-79 | **Main result.** a linked search yields the concatenation of each start node's neighbours that satisfy the JSON constraints |
| Constraints.SatisfyingMembers | src/SearchExpression.cc:56-69 | a node is in the answer if and only if it is a candidate with the tag that meets every constraint |
| Constraints.IntegerSelects | src/PMGDQuery.cc:171-180 | for each operator, the predicate compiled from an integer operand holds if and only if the stored integer compares with it as written |
| Constraints.RealSelects | src/PMGDQuery.cc:192-195 | the same for a real operand |
| Constraints.BooleanSelects | src/PMGDQuery.cc:187-190 | the same for a boolean operand, false being below true |
| Constraints.DateSelects | src/PMGDQuery.cc:202-205 | the same for a date, compared with the stored time |
| Constraints.StringSelects | src/PMGDQuery.cc:197-210 | the same for a string or a blob, compared in lexicographic order with the stored string |
| Constraints.RangeSelects | src/PMGDQuery.cc:426-448 | each of the four ranges selects exactly what its lower and its upper bound select |
| Constraints.OddRangeSelects | src/PMGDQuery.cc:426-448 | with any other pair of operators it asks for the property and no more |
| Constraints.OtherSelects | src/PMGDQuery.cc:206-219 | an operand that is no property value selects nothing: the compilation fails |
| Constraints.DeletionSelects | src/PMGDQuery.cc:340-341 | a constraint on `_deletion` selects everything |
| Constraints.ListSelects | src/PMGDQuery.cc:330-459 | **Main result.** a list of constraints compiles into predicates that hold exactly where each constraint alone selects |
| Constraints.SearchSelects | src/SearchExpression.cc:56-84 | **Main result.** a search finds exactly the nodes of the graph that have the tag and are selected by every constraint |
| Engine.QueryHandler.QueryNode | src/PMGDQueryHandler.cc:468-594 | **Main result.** whenever no exception is raised every cached cursor is parked, independent and denotes what it did; return value, new cache entry and reply follow from the answer: when it is empty or not unique, that a count is its length, a list its sorted prefix up to the limit, an identifier its last node |
| Engine.AddReply | src/PMGDQueryHandler.cc:534-587 | the reply of the query sent along with an addition decides between adding, reusing and failing exactly as the number of matches and the reference do |
| Engine.QueryHandler.AddNode | src/PMGDQueryHandler.cc:203-264 | a node is added if none matches and there is a reference, the single match is reused, several fail; the reference then denotes one node and no other cursor changes |
| Engine.MatchesMembers | src/PMGDQueryHandler.cc:209-222 | exactly the nodes with the tag that pass every constraint match an addition |
| Engine.AddedIsFound | src/PMGDQueryHandler.cc:233-250 | an added node has the tag and properties it was given, no other node or edge changes, and a later search finds what it found before and, last, the new node if it answers the search |
| Engine.ProductAt | src/PMGDQueryHandler.cc:355-371 | edge number i * n + j connects source i to destination j |
| Engine.QueryHandler.AddRows | src/PMGDQueryHandler.cc:355-371 | the two loops end and create the rows of the product one after the other |
| Engine.QueryHandler.AddEdge | src/PMGDQueryHandler.cc:315-384 | **Main result.** two distinct cursors give exactly their Cartesian product in row-major order, cached under the reference, and every cursor is back where it was |
| Engine.QueryHandler.QueryEdge | src/PMGDQueryHandler.cc:596-708 | return value, cached edges and reply follow from the yielded edges: when it is empty or not unique, that a count is their number, a list their prefix up to the limit, an identifier that of the last edge; no node cursor changes |
| Engine.EdgeReplyTells | src/PMGDQueryHandler.cc:774-898 | the specified reply to an edge query says just that of its edges |
| Engine.WithPropsAllAt | src/PMGDQueryHandler.cc:299-308 | an update sets and removes properties of exactly the nodes of the cursor |
| Engine.QueryHandler.UpdateAll | src/PMGDQueryHandler.cc:297-312 | the update loop reaches every element once although it changes what is being searched, counts them and resets the cursor |
| Engine.MeaningSameIff | src/PMGDIterators.h:55-67 | a cursor denotes the same sequence before and after an update if and only if, before it, none of the updated nodes is a candidate that the cursor has yet to check and that the new properties make answer differently |
| Engine.QueryHandler.UpdateNode | src/PMGDQueryHandler.cc:266-313 | **Main result.** an update resolves its target and updates it; whether any other cached cursor keeps its meaning is decided, exactly, by the state before the call: it is the target, or drained by the update's query, or its open candidates answer alike |
| Transactions.AtMostOneMatch | src/PMGDQueryHandler.cc:203-264 | **Main result.** over every run of conditional additions, at most one node matches if at most one did |
| Transactions.AddsExactlyWhen | src/PMGDQueryHandler.cc:534-539 | a conditional addition adds if and only if it has a fresh reference and nothing matches |
| Transactions.AdditionWithoutReference | src/RSCommand.cc:163-163 | an AddEntity without a reference whose constraints nothing matches succeeds and adds nothing |
| Transactions.AddEach | src/PMGDQueryHandler.cc:203-264 | the handler, given any list of conditional additions, ends with the graph and the references of that list |
| Transactions.UpdateBehind | src/PMGDQueryHandler.cc:299-309 | two cached queries, then an update of the second one: the first denotes its answer still if and only if the update leaves alone what it has yet to check, which is all after its second match |
| Transactions.UpdateChangesCachedQuery | src/PMGDQueryHandler.cc:299-309 | a run of two queries and an update after which the first query denotes something else |
| Transactions.ProcessQuery | src/PMGDQueryHandler.cc:143-201 | every command has exactly the effect of evaluating its queries at once: return value, exception, graph, edges, new reference; every cursor is back at its first node and every reference keeps its meaning, except for updates that matter to an open candidate |
| Transactions.ProcessQueries | src/PMGDQueryHandler.cc:98-120 | **Main result.** the same over every run, command by command in a log, up to the first command whose effect is a failure; the handler ends with the graph and edges of the last entry and without cursors |
| Transactions.ReferencesStay | src/PMGDQueryHandler.cc:98-120 | **Main result.** over every run a reference, once made, stays and denotes the same sequence as long as every update spares it |
| Responses.BlobHasOwner | src/QueryHandlerPMGD.cc:221-231 | if the count matches, every blob goes to exactly one command |
| Responses.HandOutIs | src/QueryHandlerPMGD.cc:318-322 | **Main result.** the blobs of the commands that need one, in command order, are exactly the blobs received, the other commands get an empty one, and no other way of handing them out has this property |
| Responses.ParseCommands | src/QueryHandlerPMGD.cc:221-240 | a request is accepted if and only if there are as many blobs as commands that need one |
| Responses.TakeBlob | src/QueryHandlerPMGD.cc:321-322 | both passes give command j the same blob |
| Responses.GroupsAlign | src/QueryHandlerPMGD.cc:317-330 | **Main result.** group j + 1 of a transaction holds exactly the replies to command j's graph commands, in order |
| Responses.ProcessQueries | src/PMGDQueryHandler.cc:98-106 | replies go to their groups; the first failure leaves one group with one reply |
| Responses.PmgdQuery.Push | src/PMGDQuery.cc:612-633 | graph commands are appended in the current group |
| Responses.PmgdQuery.Run | src/PMGDQuery.cc:73-117 | a successful transaction gives the groups without the first and the last, a failed one the failing reply; the two are never mixed up |
| Responses.Build | src/QueryHandlerPMGD.cc:309-344 | the first pass builds the whole transaction, one group a command, uses up all blobs, or stops at the first command that cannot be built |
| Responses.Respond | src/QueryHandlerPMGD.cc:368-399 | the second pass makes each response from the command's own replies and blob and uses up all blobs, or stops at the first response with a status |
| Responses.ProcessQuery | src/QueryHandlerPMGD.cc:301-404 | **Main result.** the result of every request |
| Responses.CorrectIsUnique | src/QueryHandlerPMGD.cc:301-404 | what is stated of the result determines it |
| Responses.TransactionLayout | src/QueryHandlerPMGD.cc:310-345 | the transaction begins and commits once; in between stand, in a group of their own, the graph commands each command builds from the blob handed out to it |
| Responses.CorrectSays | src/QueryHandlerPMGD.cc:310-400 | **Main result.** a correct result names the first command that could not be built from its blob, or holds what every command made of the replies to its own graph commands and of its blob |
| ExpiryQueue.BeforeFits | src/PMGDQueryHandler.cc:1003-1020 | the search from the back finds a place with nothing later before it and nothing earlier behind it |
| ExpiryQueue.InsertKeeps | src/PMGDQueryHandler.cc:986-1022 | insertion keeps the queue sorted |
| ExpiryQueue.InsertCount | src/PMGDQueryHandler.cc:986-1022 | insertion adds the new entry once and touches no other |
| ExpiryQueue.DeleteCount | src/PMGDQueryHandler.cc:1058-1071 | deletion removes the node's one entry and touches no other |
| ExpiryQueue.SweepIsExact | src/PMGDQueryHandler.cc:943-979 | on a sorted queue the sweep from the front takes exactly the expired entries |
| ExpiryQueue.KeepSweep | src/PMGDQueryHandler.cc:932-980 | a sweep removes exactly the nodes that have expired and keeps the invariant |
| ExpiryQueue.KeepRun | src/PMGDQueryHandler.cc:932-1071 | **Main result.** over every run of additions, purges and sweeps the queue is sorted and has exactly one entry per live expiring node |
| ExpiryQueue.SweepAfterRun | src/PMGDQueryHandler.cc:932-980 | **Main result.** a sweep after any run from the start leaves exactly the nodes that have not expired |
| ExpiryQueue.ExpiresAtItsTime | src/PMGDQueryHandler.cc:242-256 | **Main result.** after any run, a node added with an expiry time keeps its one entry with that time until it is purged or swept by a later time, and a sweep removes it if and only if its time is later |
| ExpiryQueue.AutoDelete.InsertIntoQueue | src/PMGDQueryHandler.cc:986-1022 | the loop with its special cases at both ends inserts at the specified position |
| ExpiryQueue.AutoDelete.DeleteByValue | src/PMGDQueryHandler.cc:1058-1071 | the loop deletes the first entry of the node, if any |
| ExpiryQueue.AutoDelete.AddNode | src/PMGDQueryHandler.cc:242-256 | a node that expires gets its entry |
| ExpiryQueue.AutoDelete.PurgeNode | src/PMGDQueryHandler.cc:791-817 | a purged node loses its entry |
| ExpiryQueue.AutoDelete.DeleteExpiredNodes | src/PMGDQueryHandler.cc:932-980 | the loop ends and sweeps the expired front of the queue |
| ImageLoop.KeepRun | src/ImageLoop.cc:71-142 | every run keeps the invariant: one copy of each image, all copies in step, each the fold of its operations so far, and the flag of the remote thread up while it has unanswered images |
| ImageLoop.FinishedIsFold | src/ImageLoop.cc:91-142 | **Main result.** whatever the interleaving, a finished image is the operation list applied in order, each operation once |
| ImageLoop.FoldIsTrace | src/ImageLoop.cc:101-134 | the fold is the last of the pixels got by applying the operations one after the other |
| ImageLoop.RemoteBatchInStep | src/ImageLoop.cc:372-393 | **Main result.** a remote batch holds all images, each at the same operation |
| ImageLoop.OneCopyEach | src/ImageLoop.cc:71-85 | **Main result.** every enqueued image has exactly one current copy among the buffers and the finished images |
| ImageLoop.EveryRunEnds | src/ImageLoop.cc:87-142 | **Main result.** no interleaving goes on for ever: a run has at most n * (20 * m + 18) steps for n images and m operations |
| ImageLoop.QuiescentIsDone | src/ImageLoop.cc:87-142 | **Main result.** when no thread can take a step, every image is finished, or the loop has stopped and the unfinished ones are in the main buffer |
| ImageLoop.StopLeavesNothingUnanswered | src/ImageLoop.cc:135-140 | **Main result.** in every reached state the loop can only stop when no image waits for a reply: the remote thread then holds at most one, which it has replied to |
| ImageLoop.StopCompletesIff | src/ImageLoop.cc:135-140 | **Main result.** a self-stop leaves everything finished if and only if the producer is done, the main buffer empty and nothing in the remote thread's hands |
| ImageLoop.QuietStopCompletes | src/ImageLoop.cc:135-140 | **Main result.** a stop whose test was made after all was enqueued, with nothing in the remote thread's hands, leaves every image finished and in the result map |
| ImageLoop.StopCanLoseAnImage | src/ImageLoop.cc:136-140 | a run in which the loop stops before an image is finished |
| ImageLoop.RequestRanges | src/ImageLoop.cc:229-316 | the loop cuts a batch into consecutive ranges of ten |
| ImageLoop.RangesPartition | src/ImageLoop.cc:229-316 | every image of a batch is in exactly one range, none longer than ten |
| ImageObject.VclImage.Copy | src/vcl/Image.cc:790-836 | a copy keeps its position in the list; a pending read is carried out and dropped |
| ImageObject.VclImage.ExecuteOperation | src/vcl/Image.cc:1319-1339 | the next operation runs exactly once, with the position moved only by a local success, and the code tells which case it was |
| ImageObject.VclImage.RunLocally | src/ImageLoop.cc:101-134 | the local loop over one image stops at the first remote operation, error or end, everything before it applied in order |
| ImageObject.VclImage.TakeReply | src/ImageLoop.cc:337-338 | a remote reply replaces the pixels and counts as one operation |
| ImageObject.LeadsIsFold | src/ImageLoop.cc:101-134 | in an error-free configuration such a stretch is a stretch of the loop's fold |
| ImageObject.ProcessOne | src/ImageLoop.cc:71-142 | **Main result.** one image through all its copies and hand-overs ends with every operation applied exactly once and in order |
| KeyFrames.SortedSorts | src/vcl/KeyFrame.cc:392-402 | the key frames are sorted and permuted |
| KeyFrames.MadeTiling | src/vcl/KeyFrame.cc:402-425 | the intervals between key frames follow each other from 0 to the largest unsigned number |
| KeyFrames.TilingPartitions | src/vcl/KeyFrame.cc:392-425 | every frame number below the maximum is in exactly one interval |
| KeyFrames.BucketInside | src/vcl/KeyFrame.cc:427-443 | every dealt frame of an ascending request is inside its interval |
| KeyFrames.BucketsJoin | src/vcl/KeyFrame.cc:427-443 | **Main result.** the buckets concatenate to the request |
| KeyFrames.ScanSkips | src/vcl/KeyFrame.cc:286-296 | starting later loses nothing as long as the next wanted frame is not passed |
| KeyFrames.ScanIsPictures | src/vcl/KeyFrame.cc:300-380 | always seeking gives every wanted picture of an interval |
| KeyFrames.SeekDecodeIsPictures | src/vcl/KeyFrame.cc:534-566 | and of a whole request |
| KeyFrames.PicturesAre | src/vcl/KeyFrame.cc:534-566 | of a strictly ascending request, the frames that the video has come first and each gives its own picture |
| KeyFrames.KeyFrameDecoder.PopulateIntervals | src/vcl/KeyFrame.cc:392-425 | intervals are built once, and only if frame 0 is a key frame |
| KeyFrames.KeyFrameDecoder.PopulateIntervalMap | src/vcl/KeyFrame.cc:427-443 | the loop deals the request out to the buckets |
| KeyFrames.KeyFrameDecoder.DecodeInterval | src/vcl/KeyFrame.cc:280-390 | with or without the seek, whatever the codec holds back, the loop ends, keeps the stream right behind the last consumed frame and gives what always seeking gives |
| KeyFrames.KeyFrameDecoder.Decode | src/vcl/KeyFrame.cc:534-566 | **Main result.** a request's pictures depend on the request alone, over any history of requests; a strictly ascending one gets, place by place, the picture of every frame the video has |
| WorkerPool.Keep | src/CommunicationManager.cc:57-117 | every step of any worker or caller keeps mutual exclusion, the sentinel safe, each connection in one place and no wakeup lost |
| WorkerPool.SentinelNeverTaken | src/CommunicationManager.cc:61-68 | **Main result.** no worker ever dequeues the sentinel |
| WorkerPool.OnePlaceEach | src/CommunicationManager.cc:57-91 | **Main result.** every added connection is in exactly one place: queued, with one worker, closed; the connection list holds those being served |
| WorkerPool.TakenInOrder | src/CommunicationManager.cc:57-68 | **Main result.** connections are taken in the order in which they were added, and before the sentinel the queue is what was added and not yet taken |
| WorkerPool.NobodySleepsOverWork | src/CommunicationManager.cc:105-111 | before shutdown no worker sleeps while a connection waits, no notification is pending and no worker is awake |
| WorkerPool.WorkGoesOn | src/CommunicationManager.cc:57-111 | **Main result.** before shutdown, as long as a connection is queued, a notification can be delivered or a worker that is not asleep can go on |
| WorkerPool.SentinelEndsWork | src/CommunicationManager.cc:61-68 | with the sentinel in the queue nothing leaves the queue and the workers have a bounded number of steps left |
| WorkerPool.NoDeadlock | src/CommunicationManager.cc:57-91 | after notify_all some worker can move until all have exited |
| WorkerPool.NextVisitExits | src/CommunicationManager.cc:61-68 | with the sentinel in the queue, a worker without an entry in hand never gets one again over every further interleaving: its next visit to the queue can only end in its exit |
| WorkerPool.NextVisitExitsAfter | src/CommunicationManager.cc:61-68 | **Main result.** the same from the start of the pool |
| WorkerPool.ShutdownCompletes | src/CommunicationManager.cc:113-117 | **Main result.** after notify_all no worker is or falls asleep, the queue never empties, and when no worker can move all have exited |
| DescriptorStore.FlatAt | src/vcl/TDBDenseDescriptorSet.cc:210-222 | row i of the flat buffer is at i times the dimensions |
| DescriptorStore.FlatRows | src/vcl/TDBDenseDescriptorSet.cc:139-185 | cutting an add into rows and flattening them gives back the floats |
| DescriptorStore.RowsAt | src/vcl/TDBDenseDescriptorSet.cc:139-185 | a row of an add takes its vector and its label from its place in the arguments; without labels every row gets -1 |
| DescriptorStore.InsertSays | src/vcl/TDBDenseDescriptorSet.cc:139-185 | an add is numbered from the present size if and only if it has rows, its write goes through and the set stays within 100000 cells |
| DescriptorStore.AddedGrows | src/vcl/TDBDenseDescriptorSet.cc:139-185 | no later call changes the rows already numbered |
| DescriptorStore.NextConsistent | src/vcl/TDBDenseDescriptorSet.cc:76-185 | every call keeps a buffer in use as long as the set and, below the metadata cells, equal to the added rows |
| DescriptorStore.FetchReturnsAdded | src/vcl/TDBDenseDescriptorSet.cc:210-222 | **Main result.** after any further adds, failed adds, loads and reopenings, also past the capacity, fetching a number below the metadata cells returns the vector that add gave it to |
| DescriptorStore.FetchAfterReopen | src/vcl/TDBDenseDescriptorSet.cc:119-137 | **Main result.** after any run and a reopening, fetching a number returns the vector added under it if and only if the number is below the metadata cells or the vector is all zeros |
| DescriptorStore.RowCanBeLost | src/vcl/TDBDescriptorSet.h:58-59 | a run of 99999 additions and a reopening after which the last vector is gone |
| DescriptorStore.DenseSet.Create | src/vcl/TDBDenseDescriptorSet.cc:49-74 | a new set is empty, recorded, and its buffer in use |
| DescriptorStore.DenseSet.Open | src/vcl/TDBDenseDescriptorSet.cc:43-47 | a reopened set knows its size and has no buffer yet |
| DescriptorStore.DenseSet.WriteMetadata | src/vcl/TDBDenseDescriptorSet.cc:119-137 | size and dimensions go to the last two cells and nowhere else |
| DescriptorStore.DenseSet.LoadBuffer | src/vcl/TDBDenseDescriptorSet.cc:76-101 | loading makes buffer and label cache those of the stored rows, and fails if there are none |
| DescriptorStore.DenseSet.Add | src/vcl/TDBDenseDescriptorSet.cc:139-185 | an add numbers its rows from the old size on and stores them, as far as the metadata cells leave them, in the array and in a buffer in use; a failed one changes no numbered row; the label cache stays complete if and only if labels were given |
| DescriptorStore.DenseSet.GetDescriptors | src/vcl/TDBDenseDescriptorSet.cc:210-222 | the vectors of the numbers asked for, or failure of an empty set without a buffer |
| DescriptorStore.Run | src/vcl/TDBDenseDescriptorSet.cc:43-222 | **Main result.** every sequence of calls and reopenings, also past the capacity, gives the replies that the added rows and the two overwritten ones call for |
| Labels.RequestKeeps | src/vcl/DescriptorSet.cc:345-359 | one request keeps the numbers 0 to n-1, the labels distinct and the old entries, and adds one if and only if the label is new |
| Labels.AnswersAreStable | src/vcl/DescriptorSet.cc:330-359 | **Main result.** from an empty map, a label's number never changes whatever else is requested, and stands for that label |
| Labels.DigitsBack | src/vcl/DescriptorSetData.cc:100-102 | reading a printed number gives the number |
| Labels.LineBack | src/vcl/DescriptorSetData.cc:113-118 | a line gives back its number, and its label if and only if that is a single token |
| Labels.OddLine | src/vcl/DescriptorSetData.cc:113-118 | a line of white space keeps the number left over, one that starts with no number gives 0, and the whole line becomes the label |
| Labels.HugeNumber | src/vcl/DescriptorSetData.cc:113-118 | a number that no long can hold becomes the nearest one, and the whole line the label |
| Labels.PutIs | src/vcl/DescriptorSetData.cc:118-118 | assignment to a key leaves the entries of other keys and the order alone |
| Labels.SavedText | src/vcl/DescriptorSetData.cc:96-106 | a saved map is one line for each entry, in order |
| Labels.LineText | src/vcl/DescriptorSetData.cc:100-102 | the text of a line with a negative number and of one with two digits |
| Labels.SaveLoad | src/vcl/DescriptorSetData.cc:96-122 | **Main result.** saving and loading gives back any map if and only if all its labels are non-empty and free of white space |
| Labels.NumbersSurvive | src/vcl/DescriptorSetData.cc:96-122 | numbers given out for such labels survive |
| Labels.LabelData.GetLabelId | src/vcl/DescriptorSet.cc:345-359 | the search over the map and the insertion |
| Labels.LabelData.WriteLabelsMap | src/vcl/DescriptorSetData.cc:96-106 | the file has one entry after the other |
| Labels.LabelData.ReadLabelsMap | src/vcl/DescriptorSetData.cc:108-122 | the loop over the lines loads the file |
| Vote.Elect | src/vcl/TDBDescriptorSet.cc:119-134 | the vote's winner has the most votes and had so many first; without a neighbour the answer is -1; a neighbour without a cached label raises an exception |
| Vote.WinnerUnique | src/vcl/TDBDescriptorSet.cc:125-132 | no two labels win |
| Vote.WinnerIsNeighbour | src/vcl/TDBDescriptorSet.cc:125-132 | the winner is the label of a neighbour that was found |
| Vote.MinusOne | src/vcl/TDBDescriptorSet.cc:119-134 | **Main result.** the answer is -1 if and only if no neighbour was found or the label -1 wins |
| Vote.MinusOneMeansNone | src/vcl/TDBDescriptorSet.cc:119-134 | if no neighbour that was found is labelled -1, the answer is -1 if and only if none was found |
| Vote.MinusOneCanWin | src/vcl/TDBDescriptorSet.cc:119-134 | a vote with neighbours that is answered by -1 |
| Vote.Classify | src/vcl/TDBDescriptorSet.cc:112-137 | **Main result.** the answers for all vectors, each from its own part of the neighbour array |
| Csv.HalveDouble | client/cpp/rapidcsv.h:1474-1486 | halving undoes doubling of quotes |
| Csv.ReplaceString | client/cpp/rapidcsv.h:1506-1514 | the loop in place replaces every occurrence from left to right |
| Csv.WriteCsv | client/cpp/rapidcsv.h:1425-1446 | the loops print the rows as specified |
| Csv.WriteCell | client/cpp/rapidcsv.h:1428-1438 | a cell is printed between quotes, its own quotes doubled, if and only if it holds the separator or a space |
| Csv.RowText | client/cpp/rapidcsv.h:1427-1442 | a row is its printed cells with one separator between two of them |
| Csv.TableText | client/cpp/rapidcsv.h:1426-1444 | a table is its rows, each with its line break |
| Csv.DoubledIs | client/cpp/rapidcsv.h:1432-1433 | doubling works character by character and changes quotes only |
| Csv.ParseCsv | client/cpp/rapidcsv.h:1295-1366 | for every block size the double loop is one pass over the characters; carriage returns are assumed if and only if the text has more of them than half its line feeds |
| Csv.FeedCell | client/cpp/rapidcsv.h:1310-1350 | what reading a printed cell leaves pending |
| Csv.FeedExtends | client/cpp/rapidcsv.h:1295-1363 | rows and cells already read are never touched again, and a pending cell only grows |
| Csv.FeedClean | client/cpp/rapidcsv.h:1319-1350 | no cell that is read holds a line break and no row is empty |
| Csv.BadCell | client/cpp/rapidcsv.h:1425-1446 | a cell outside the surviving ones comes back as something else |
| Csv.RoundTrip | client/cpp/rapidcsv.h:1295-1446 | **Main result.** reading what was written gives the same table if and only if every row is non-empty and every cell survives, and then the same line-break setting unless the table is empty |
| Csv.QuotedTableReturns | client/cpp/rapidcsv.h:1425-1446 | a table of cells without line breaks that each hold the separator or a space comes back |
| Csv.SaveAndLoad | client/cpp/rapidcsv.h:1295-1446 | **Main result.** the same of the two methods, for every block size, with the condition on the cells written out |

## Left out

- Searches combined with OR: the code refuses them for edges, and for nodes the iterator does not yield a set that can be described.
- Updates of edges, the purge of what a query finds, and the life of cached edges beyond a transaction.
- Constraints.ParseQueryConstraints: not for a value that is an array, which turns the search into an OR search; the purge flag, and with it the conversion of an `_expiration` operand, is not computed.
- NodeQueries.RunReusable: not for replies that are sums or averages.
- NodeQueries.VisitCursor: lists the nodes, not their properties, and does not purge them; no sums or averages.
- Engine.QueryHandler.QueryNode: not for OR searches and not for sums or averages.
- Engine.QueryHandler.AddEdge: not for the same reference on both sides, where the code's two loops share one cursor and do not end if it has two nodes.
- Engine.QueryHandler.QueryEdge: not for the same reference on both sides, where the iterator drains the cursor it walks; no sorting.
- EdgeSearch.EdgeIterator.Open: not for the same cursor as source and destination, as for `QueryEdge`.
- EdgeSearch.RunEdges: not for the same cursor as source and destination, as for `QueryEdge`.
- Transactions.ProcessQuery: the commands that begin, commit and abort a transaction, updates of edges and sweeps are not among the commands; an exception is only modelled where sorting raises it, and nothing is claimed of the cursors after one.
- Graph: the order in which an index is scanned is the storage order; a date stands for the instant it denotes; values of different types compare as unordered where PMGD raises an exception.
- ExpiryQueue.AutoDelete.DeleteByValue: stops at the deleted entry, where the code still steps an iterator that is no longer valid.
- ExpiryQueue: rebuilding the queue at start-up, aborted transactions and the deletion of image, video and blob files.
- Responses: what a command builds, how the graph answers and what a command makes of its replies are parameters; parsing, schema checks, turning replies into JSON, timers and exceptions are not modelled.
- ImageLoop: runs with failing operations or replies that do not decode, the destructor, and the moments between the two writes of the stop flags. A read at the head of the operation list is done by the first copy, so that an input's pixels are those after the read.
- VideoLoop has the same protocol; the operations it runs are not part of this model.
- KeyFrames.KeyFrameDecoder.DecodeInterval: not for errors of the codec, packets of other streams and the bit-stream filter's retries; a seek lands on the given key frame.
- WorkerPool: what serving a connection does, and joining the threads; a connection is assumed to be added once.
- DescriptorStore.DenseSet.Add: not for a write of the metadata cells that fails, which leaves the size in memory ahead of the array; a write of rows that breaks off is taken to stay below the metadata cells.
- DescriptorStore: distances and search, and sparse sets. A row number given to the fetch is one that was given out, since the code does not check it.
- Labels: locking, and labels that are given numbers by the caller.
- Csv.WriteCsv: not with automatic quoting off.
- Csv.WriteCell: not with automatic quoting off.
- Csv.ParseCsv: not with trimming, quoted line breaks, skipped lines or automatic quoting off; column and row names are not modelled, nor a separator that is a quote or a line break.
- FAISS and FLINNG sets, the client libraries, Neo4j, Kafka, user-defined functions, configuration and logging.
