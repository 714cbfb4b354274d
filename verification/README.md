# Verified models of cocolog's native modules

Cocolog is a Prolog system whose heavy work is done by C modules and small reference programs. This
project models, in Dafny, the parts of them with the most state and arithmetic, and proves what they
promise. Imperative code is modelled by methods and classes that work in place and are proved equal to,
or against, specifications; the theorems are about those specifications.

| files | what they model |
|---|---|
| `slots`, `meaning`, `closures`, `results`, `keys`, `engine`, `programs`, `backend` | the TensorFlow back end's recorded-computation engine: a slot table with reference counts and deferred release, eager and graph evaluation, and a compile cache keyed by structure |
| `evolution`, `capacities`, `ledger` | what can become of a slot, how many are live at once, and which programs never meet a capacity |
| `gradients`, `questions`, `stepleak` | where a gradient stops, what TensorFlow is asked in either mode, and where the modes differ |
| `distribution`, `textcache`, `wrap` | Clay's layout core: sharing space among children, the text-measurement cache, word wrapping |
| `windows`, `lobes`, `sines`, `fixedpoint`, `resample`, `passes` | Pillow's eight-bit resampler: windows, the five filters, weights, 22-bit sums, the two passes |
| `connection`, `fields`, `wire`, `turns` | the Zigurat wire client: buffering over a partial-transfer socket, the field codec, verbs, turns between processes |
| `escapes` | Zeytun's HTML unescaper and URL encoder |
| `calc`, `queens` | a recursive-descent evaluator and an exhaustive search |
| `collections`, `decimals`, `wrappers` | shared helpers |

How things of the source appear here:

- TensorFlow operations are one uninterpreted function from an operation's signature and its inputs'
  values to a value. An operation the library refuses is a flag on the command. A gradient's values come
  with the command that asks for them; `Questions` takes them to be one uninterpreted function of what is asked, and
  proves that the modes ask the same.
- Slots are reused, so each live slot carries a birth stamp that the C code does not have; it is what makes
  "every input is older" a meaning of "acyclic" that survives reuse.
- Two history flags, `exact` and `full`, record that a key stopped saying everything, or that some table had
  no room. `Programs` states its theorems for runs where they stay clear, and `Ledgers` proves that they do
  for every program within stated bounds.
- Sizes, widths, filter weights and coordinates are reals, and sine, cosine and pi are parameters with textbook facts; 22-bit coefficients, sums and bytes are exact integers,
  with int32 wrap-around written out.
- The socket is a finite script of what each `recv` and `send` will do (a count, an interruption, a close, a failure);
  when it runs out the socket moves all it can.
- The turn protocol is a state machine over the steps of any number of connections in any interleaving;
  `Wire.Verb` and `Wire.SimpleVerb` are proved to take only its steps.

## Model

| member | source | states |
|---|---|---|
| `Programs.EngineRefinesReference` | modules/tensorflow/backend.c:207-1022 | For every program of producers, parameters, steps, gradients, frees, reads and mode switches, every kernel and every table size: each value the engine reads is the one a map from names to values would read, all of them are read if no table was ever full, and the slot table ends sound; keys must say everything, which `Ledgers` derives from the program |
| `Programs.EagerAndGraphAgree` | modules/tensorflow/backend.c:721-778 | Two runs that differ only in where the eager/graph switch is moved, or is never moved, read the same values |
| `Ledgers.FittingProgramsRefine` | modules/tensorflow/backend.c:50-56 | With conditions on the program alone (64-bit shapes, constants of at most 32 values, legible signatures of bounded length, never more than 1200 slots owed at once nor more than there are, at most 4096 closures to compile): everything the program reads is exactly what the reference reads, however many tensors it makes |
| `Ledgers.FittingProgramsAgree` | modules/tensorflow/backend.c:721-778 | Such a program reads the same values eagerly, in graph mode and in any mixture |
| `Ledgers.NeverFull` | modules/tensorflow/backend.c:50-56 | Such a program never meets a full table or a cut key |
| `Ledgers.FewLive` | modules/tensorflow/backend.c:207-247 | At its end no more slots are live than the ledger kept from its commands owes: each name its own slot and, while it has a recipe, those of its inputs; released slots come back |
| `Ledgers.CommandAccounted` | modules/tensorflow/backend.c:207-247 | Every command of either mode keeps that ledger in step with the table |
| `Ledgers.LiveReached` | modules/tensorflow/backend.c:217-240 | Every live slot is reached along recipes from one the program still names: deferred release leaks nothing |
| `Ledgers.SmallProgramsFit` | modules/tensorflow/backend.c:50-56 | A program that makes at most 1200 tensors and no more than there are slots fits, whatever it releases |
| `Ledgers.LoopRefines` | modules/tensorflow/backend.c:207-247 | A loop that makes, computes, reads and releases runs for ever in a table of two slots: for every number of rounds it reads what the reference reads |
| `Questions.GradientsAgree` | modules/tensorflow/backend.c:971-1022 | TensorFlow taken as any one function of the loss (its tree of operations over parameters and known values) and of the parameters asked for: its answers are right for one run if and only if they are right for any other run that differs only in mode, when every parameter under each loss has its value |
| `Questions.EagerAnswersServe` | modules/tensorflow/backend.c:971-1022 | So what it answers an eager run serves every such run of the program, and the reads agree |
| `Questions.CommandMirrors` | modules/tensorflow/backend.c:724-778 | Every command of either mode keeps, for every name, the tree of operations that the reference gives it: forcing, storing, dropping recipes and releasing change no gradient |
| `Questions.GroundedSeen` | modules/tensorflow/backend.c:359-372 | When every parameter under a loss has its value, the walk takes in exactly the tree that ends at parameters |
| `Questions.IdealKept` | modules/tensorflow/backend.c:242-265 | No call changes the tree of a slot that lives through it |
| `Capacities.FittingIsExact` | modules/tensorflow/backend.c:351-414 | The key of a closure of at most 1200 fitting leaves and nodes fits its buffer and says everything |
| `Capacities.VisitHasRoom` | modules/tensorflow/backend.c:361-372 | A walk over at most 4096 live slots never runs out of leaves or nodes |
| `Capacities.SlotFound` | modules/tensorflow/backend.c:207-213 | slot_new finds a slot while fewer are live than there are |
| `Evolution.RunSpecMakes` | modules/tensorflow/backend.c:724-778 | Whatever the mode, run_spec_ makes at most one slot; every other slot may only go, take an answered value or drop its recipe |
| `Evolution.RunWalkEvolves` | modules/tensorflow/backend.c:563-573 | Running a closure makes no slot, and compiles at most one closure |
| `Evolution.RunSpecKeepsNames` | modules/tensorflow/backend.c:724-778 | It takes no name and no name's value away, and a new name made at once has its value |
| `Programs.RunSimulates` | modules/tensorflow/backend.c:724-778 | Over whole runs the engine stays in step with the reference, name by name |
| `Programs.StepSimulates` | modules/tensorflow/backend.c:724-778 | Every single command keeps the engine in step with the reference |
| `Programs.MakeStepMoves` | modules/tensorflow/backend.c:960-966 | A step makes a parameter of value W - lr G, moves no other name, and leaves no trace of its temporaries |
| `Programs.MakeParameterMoves` | modules/tensorflow/backend.c:948-955 | A parameter has the value of the tensor it was made from, and is a new name |
| `Programs.SimGrad` | modules/tensorflow/backend.c:971-1022 | A gradient call, run or refused, moves no name and binds the answers exactly when it was asked for properly |
| `Gradients.WalkIsReachable` | modules/tensorflow/backend.c:359-372 | The gradient walk from a loss takes in exactly the slots reachable from it along input edges |
| `Gradients.GradientBoundary` | modules/tensorflow/backend.c:359-372 | It passes through no parameter if and only if every parameter reachable from the loss already has its value |
| `Gradients.EagerParametersAreValues` | modules/tensorflow/backend.c:956-966 | In every program that never turns graph mode on, no live parameter is a recipe |
| `Gradients.EagerGradientStops` | modules/tensorflow/backend.c:956-1022 | so its gradients stop at every parameter |
| `StepLeak.RecordedStepIsNoBoundary` | modules/tensorflow/backend.c:956-966 | A finding, for every state an eager program can be in: step a parameter and take a loss on the result. Eagerly the gradient walk has the stepped parameter as a leaf and not the one before; in graph mode it goes through the step and takes in the parameter before |
| `StepLeak.StepLeaks` | modules/tensorflow/backend.c:956-966 | It does happen: a five-command program from a fresh engine, run both ways |
| `Engines.TableFull` | modules/tensorflow/backend.c:207-213 | slot_new fails exactly when every slot but the unused first is taken, wherever the cursor stands |
| `Engines.EntryForRight` | modules/tensorflow/backend.c:420-485 | A cache hit is as good as compiling afresh: the entry found was compiled from the very structure asked for |
| `Engines.CallAnswers` | modules/tensorflow/backend.c:521-548 | Calling the compiled graph of a closure answers, for each wanted node, the value that node denotes |
| `Engines.StoreCallKeeps` | modules/tensorflow/backend.c:536-548 | Storing all results of a call keeps the table sound and every name standing, with its meaning |
| `Engines.RunWalkMoves` | modules/tensorflow/backend.c:563-573 | Running a closure moves no name; it fails only for want of room; the slot asked for then has its value |
| `Engines.ReadMoves` | modules/tensorflow/backend.c:574-599 | Reading a tensor gives what it denotes and changes nothing any name denotes |
| `Engines.RunGraphMoves` | modules/tensorflow/backend.c:756-778 | Recording gives a new name that denotes the operation on its inputs; a refused record leaves every other slot as it was |
| `Engines.RunEagerMoves` | modules/tensorflow/backend.c:728-755 | Executing at once, with recorded inputs run first and the tape kept under a parameter, gives a new name of the same meaning |
| `Engines.RunSpecMoves` | modules/tensorflow/backend.c:724-778 | Either mode produces a name with the same denotation, and no other name moves |
| `Engines.FreeMoves` | modules/tensorflow/backend.c:234-240 | Freeing a name moves no other name |
| `Slots.UnrefKeeps` | modules/tensorflow/backend.c:217-221 | One release with its whole cascade terminates, settles exactly one pending reference, and keeps counts, order and liveness right |
| `Slots.ReallyFreeKeeps` | modules/tensorflow/backend.c:222-229 | Clearing a slot gives each of its inputs one release; counts stay the number of input edges from live nodes |
| `Slots.UnrefAllKeeps` | modules/tensorflow/backend.c:222-247 | A list of releases settles exactly those references |
| `Slots.EdgesUpdate` | modules/tensorflow/backend.c:222-247 | How the multiset of input edges changes with one slot |
| `Meaning.FreeKeeps` | modules/tensorflow/backend.c:230-240 | tfb_free keeps refs equal to edges, no released slot without readers, the graph acyclic, and every other denotation; the name is gone |
| `Meaning.StoreSound` | modules/tensorflow/backend.c:242-265 | Taking a value, and dropping the recipe, keeps the table sound and reaches only what is older |
| `Meaning.StoreKeeps` | modules/tensorflow/backend.c:543-547 | Storing the value a node denotes changes no denotation and frees nothing the program names |
| `Meaning.RecordKeeps` | modules/tensorflow/backend.c:756-759 | A recorded node denotes its operation on its inputs; nothing else moves; its inputs each gain one reference |
| `Meaning.UndoRestores` | modules/tensorflow/backend.c:766-776 | Undoing a record gives back exactly the references it took |
| `Meaning.MarkParamKeeps` | modules/tensorflow/backend.c:963-965 | Marking a step a parameter, and making it a value if it has one, keeps its denotation and every other |
| `Meaning.NewValueKeeps` | modules/tensorflow/backend.c:292-315 | A slot for new data denotes that data and disturbs nothing |
| `Meaning.Settled` | modules/tensorflow/backend.c:242-265 | Whatever only fills in denoted values or drops recipes behind them preserves every denotation |
| `Closures.VisitLists` | modules/tensorflow/backend.c:361-372 | visit appends, in order, only nodes whose inputs are already listed and leaves that hold values, each once |
| `Closures.ClosureListed` | modules/tensorflow/backend.c:361-414 | A closure lists every node after all its inputs, the root last, every leaf with a value |
| `Closures.ListedRunnable` | modules/tensorflow/backend.c:457-475 | The compiled graph of a listed closure is wired only to leaves and earlier operations |
| `Closures.NodeValsDen` | modules/tensorflow/backend.c:430-477 | The graph run in listed order gives each node the value its slot denotes |
| `Results.StoreKeepsReady` | modules/tensorflow/backend.c:543-547 | A store with its drop_structure cascade leaves every later node of the closure ready to take its result |
| `Results.StoreAllKeeps` | modules/tensorflow/backend.c:543-547 | No result is ever stored into a slot an earlier drop_structure of the same loop has freed |
| `Keys.KeyInjective` | modules/tensorflow/backend.c:351-414 | Equal keys mean equal leaf types, shapes and constants, operations, attributes, wiring, wanted results and gradient targets, when the key fits its buffer and constants have at most 32 values |
| `Keys.TextInjective` | modules/tensorflow/backend.c:375-414 | The same of the key text before it is cut to the buffer |
| `Keys.KeysEqualIff` | modules/tensorflow/backend.c:375-414 | Legible keys that fit are equal exactly when the structures agree after their constants are cut to 32 values |
| `Keys.LeafCut` | modules/tensorflow/backend.c:375-386 | The text of a leaf can be read off the front of a key in one way |
| `Keys.NodeCut` | modules/tensorflow/backend.c:400-412 | The text of a node can be read off the front of a key in one way |
| `Keys.AttrsSplit` | modules/tensorflow/backend.c:403-405 | The one run of attributes splits into types, integers and booleans in one way, because the kinds share no name |
| `Keys.PlacesCut` | modules/tensorflow/backend.c:986-990 | The gradient targets can be read off the end of a key in one way |
| `Decimals.DigitsRoundTrip` | modules/tensorflow/backend.c:351-358 | A number printed in decimal reads back as itself |
| `Backends.Backend.SlotNew` | modules/tensorflow/backend.c:207-213 | Refinement: finds the slot the specification names, looking at each at most once |
| `Backends.Backend.Unref` | modules/tensorflow/backend.c:217-221 | Refinement: in place, exactly the specified table |
| `Backends.Backend.ReallyFree` | modules/tensorflow/backend.c:222-229 | Refinement: in place, the slot cleared and its inputs released in order |
| `Backends.Backend.Free` | modules/tensorflow/backend.c:234-240 | Refinement: in place, released now or kept for its readers without its value |
| `Backends.Backend.DropStructure` | modules/tensorflow/backend.c:242-247 | Refinement: in place, a value that lets its inputs go |
| `Backends.Backend.StoreResults` | modules/tensorflow/backend.c:543-547 | Refinement: the result loop equals the specified sequence of stores |
| `Backends.Backend.EntryFind` | modules/tensorflow/backend.c:420-424 | Refinement: the first entry with the key |
| `Backends.Backend.Visit` | modules/tensorflow/backend.c:361-372 | Refinement: fills the two buffers and the marks as the specified walk does, overflow and freed inputs included |
| `Backends.Backend.RunClosure` | modules/tensorflow/backend.c:563-573 | Refinement: walk, cache lookup, call and store together equal the specified engine step |
| `Backends.Backend.Force` | modules/tensorflow/backend.c:574-578 | Refinement: a closure is run exactly when there is no value |
| `Backends.Backend.RunSpec` | modules/tensorflow/backend.c:724-778 | Refinement: both modes, refusals and full tables included, equal the specified engine step |
| `Distribution.Compress` | modules/clay/clay.h:2313-2347 | Shrinking terminates; children plus remainder is constant; no child crosses its minimum or grows, no other child moves; the remainder keeps its sign and ends within 0.01, or every resizable child is at its minimum |
| `Distribution.Expand` | modules/clay/clay.h:2357-2391 | Growing, the same toward the maxima |
| `Distribution.CompressRound` | modules/clay/clay.h:2314-2346 | One round moves only children within twice 0.01 of the largest, and either removes a child or pays off at least 0.01 over the number of children |
| `Distribution.ExpandRound` | modules/clay/clay.h:2358-2390 | One round moves only children within twice 0.01 of the smallest, and makes the same progress |
| `Distribution.CompressPass` | modules/clay/clay.h:2333-2346 | Despite swap-back removal each child goes through the pass exactly once: those as large as the largest give up the step down to their minimum, no other moves |
| `Distribution.ExpandPass` | modules/clay/clay.h:2377-2390 | Each child goes through the pass exactly once, up to its maximum |
| `Distribution.CompressChild` | modules/clay/clay.h:2334-2345 | One child of the pass, its new size, and exactly the others still to come |
| `Distribution.ExpandChild` | modules/clay/clay.h:2378-2389 | One child of the growing pass |
| `Distribution.FindLargest` | modules/clay/clay.h:2314-2329 | The largest and the step of the scan; no child exceeds the largest by 0.01, some child is within 0.01 of it, and the step is at least 0.01 |
| `Distribution.FindSmallest` | modules/clay/clay.h:2358-2373 | The mirror image for the smallest |
| `Distribution.StepDown` | modules/clay/clay.h:2317-2329 | The step exactly: the gap to the next largest when a child 0.01 smaller follows the last new largest, and otherwise the step from before it |
| `Distribution.StepUp` | modules/clay/clay.h:2361-2373 | The mirror image |
| `Distribution.NextLargest` | modules/clay/clay.h:2317-2329 | What the scan takes for the second largest is one: every child is within 0.01 of the largest or not 0.01 above it |
| `Distribution.NextSmallest` | modules/clay/clay.h:2361-2373 | The mirror image |
| `Distribution.OrderKeptDown` | modules/clay/clay.h:2314-2332 | A round keeps the largest children at or above the next size if and only if a child after the last new largest is 0.01 smaller than it, or the step before it, or an even share, is within the gap |
| `Distribution.StaleLargest` | modules/clay/clay.h:2317-2331 | A finding: of children 5 and 10 in that order, 12 too large, the second is cut below the first |
| `Distribution.OrderKeptUp` | modules/clay/clay.h:2358-2376 | The mirror image on the growing side |
| `Distribution.StaleSmallest` | modules/clay/clay.h:2361-2375 | A finding: of children 10 and 5 in that order, with 12 to spare, the second grows past the first |
| `Distribution.RoundProgress` | modules/clay/clay.h:2314-2346 | A round that removes no child cuts the remainder by at least 0.01 over the children left |
| `Distribution.RemoveSwapback` | modules/clay/clay.h:991-999 | The last child takes the removed one's place |
| `Distribution.SwapbackKeeps` | modules/clay/clay.h:991-999 | After a swap-back the buffer is distinct and has lost only that child |
| `Distribution.KeepGrow` | modules/clay/clay.h:2350-2356 | Exactly the growing children are left in the buffer |
| `TextCache.WordsTile` | modules/clay/clay.h:1626-1681 | The measured words of a newline-free text tile it exactly |
| `TextCache.Cache.MeasureTextCached` | modules/clay/clay.h:1553-1689 | The item cached for this hash if there is one, else a new one spelling the text; chains finite and acyclic, no slot both chained and free, word lists disjoint, ids distinct, arrays within capacity; failure and lost slots only when an array is full; items of the last two frames never evicted, other texts untouched |
| `TextCache.Cache.Find` | modules/clay/clay.h:1571-1601 | The item of the id is found if there is one, and a miss means there is none; only stale items go |
| `TextCache.Cache.Walk` | modules/clay/clay.h:1571-1601 | The chain walked to the id or the end, evicting only stale items of other ids |
| `TextCache.Cache.MeasureWords` | modules/clay/clay.h:1633-1678 | The list made spells exactly the words of the text; it fails exactly when the word array, free list counted, is full before the last character |
| `TextCache.Cache.AllocateItem` | modules/clay/clay.h:1603-1625 | A slot from the free list or a new one; none exactly when the list is empty and the items are full |
| `TextCache.Cache.Measure` | modules/clay/clay.h:1603-1689 | A text not cached is measured and chained once, exactly when there is room for its item and its words |
| `TextCache.FreeListsFit` | modules/clay/clay.h:1583-1590 | The free lists never outgrow the arrays they are for |
| `TextCache.Cache.NextFrame` | modules/clay/clay.h:4162-4162 | A frame goes by |
| `TextCache.Cache.Evict` | modules/clay/clay.h:1578-1594 | An evicted item's words and slot go to the free lists and its neighbours are joined |
| `TextCache.Cache.FreeWords` | modules/clay/clay.h:1580-1585 | The words of one list, all and only, in order |
| `TextCache.Cache.AddWord` | modules/clay/clay.h:1539-1551 | A word takes a slot no list owns and is threaded last; the list spells one word more |
| `TextCache.Cache.Link` | modules/clay/clay.h:1683-1688 | The finished item is linked at the end of its chain |
| `TextCache.EvictedRight` | modules/clay/clay.h:1578-1594 | Eviction keeps every chain, every other item's words, and loses no slot |
| `TextCache.AllocatedRight` | modules/clay/clay.h:1603-1625 | A slot for a new item is chained nowhere |
| `TextCache.WithWordRight` | modules/clay/clay.h:1539-1551 | Adding a word disturbs no live item's words |
| `TextCache.WithWordPath` | modules/clay/clay.h:1539-1551 | The list being made stays a list, one word longer |
| `TextCache.LinkedRight` | modules/clay/clay.h:1679-1689 | The new item is chained once, its words are its text's, nothing else moved |
| `Wrapping.Wrap` | modules/clay/clay.h:2500-2533 | The wrap loop terminates and breaks the words where they must break: each line as many words as fit, or one word too wide for any |
| `Wrapping.BreaksUnique` | modules/clay/clay.h:2500-2529 | There is only one such way to break a text |
| `Wrapping.WrappedCovers` | modules/clay/clay.h:2500-2533 | The lines are in-order disjoint slices that reassemble the text, one space lost at each break after words that fitted and none after an over-wide word |
| `Wrapping.WrappedFits` | modules/clay/clay.h:2505-2533 | A line of two or more words fits the container to within the letter spacing; the last one fits outright |
| `Wrapping.CoversJoined` | modules/clay/clay.h:2500-2533 | Slices that cover the text with at most a space between them spell it |
| `Wrapping.WrapElement` | modules/clay/clay.h:2494-2533 | One line when the text fits, wrapped otherwise; either way the lines spell the text |
| `Wrapping.LayOut` | modules/clay/clay.h:2483-2533 | The same through the text cache: when no other text is cached under this hash the lines spell the text, and it fails only when the cache is full |
| `Wrapping.WordAt` | modules/clay/clay.h:1645-1673 | Each measured word starts where the one before ends, and all but the last end in a space |
| `Windows.WindowRight` | modules/opencv/pil/Resample.c:198-246 | Every window is non-empty, in range, shorter than ksize, and holds the input the output lies over |
| `Windows.WindowsForward` | modules/opencv/pil/Resample.c:231-246 | Window starts and ends never decrease |
| `Windows.WeightsSumToOne` | modules/opencv/pil/Resample.c:245-257 | Normalised weights add up to one |
| `Windows.PositiveSums` | modules/opencv/pil/Resample.c:245-257 | A filter nowhere negative and positive within half a pixel never meets the zero-sum case and gives no negative weight |
| `Windows.FiltersInterpolate` | modules/opencv/pil/Resample.c:12-62 | Box, bilinear and bicubic are one at zero and zero at other whole numbers; the first two are positive filters |
| `Lobes.NeverCancels` | modules/opencv/pil/Resample.c:12-80 | For any filter whose lobes are no deeper than a quarter of what it gives within half a pixel, no row of weights sums to zero, whatever the sizes and however the window is clipped |
| `Lobes.BicubicIsLobed` | modules/opencv/pil/Resample.c:46-62 | Bicubic is such a filter: at least 0.5625 near, no lower than -0.125 |
| `Sines.HammingIsPositive` | modules/opencv/pil/Resample.c:31-44 | Hamming is positive near and nowhere negative, from textbook facts of sine and cosine |
| `Sines.LanczosIsLobed` | modules/opencv/pil/Resample.c:64-80 | Lanczos gives at least 0.6 within half a pixel and no less than -0.148 in its lobes, and is negative nowhere else: from the Taylor bounds of sine, its signs and 3.1415 <= pi <= 3.1416 |
| `Sines.HammingInterpolates` | modules/opencv/pil/Resample.c:31-44 | Hamming is one at zero and zero at other whole numbers, whatever sine and cosine are |
| `Sines.LanczosInterpolates` | modules/opencv/pil/Resample.c:64-80 | So is Lanczos, because sine changes sign over half a turn |
| `FixedPoint.TotalNear` | modules/opencv/pil/Resample.c:270-284 | Rounding n weights to 22 bits moves their sum by at most n/2 |
| `FixedPoint.ConstantStays` | modules/opencv/pil/Resample.c:299-312 | With at most 16448 taps a window of one colour gives that colour, whatever the signs of the weights |
| `FixedPoint.StaysBetween` | modules/opencv/pil/Resample.c:299-312 | With non-negative weights an output lies between the least and greatest byte of its window |
| `FixedPoint.NoOverflow` | modules/opencv/pil/Resample.c:304-308 | and no partial sum leaves the int32 range |
| `FixedPoint.Clip8` | modules/opencv/pil/Resample.c:94-179 | Every int32 sum indexes inside the 1280-entry table, and in-range sums give their whole part |
| `FixedPoint.NormalizeInPlace` | modules/opencv/pil/Resample.c:269-284 | Int32 coefficients written over the doubles being read are, byte for byte, what a separate buffer would hold |
| `FixedPoint.ConvertedAt` | modules/opencv/pil/Resample.c:269-284 | Each of them reads back as the rounded weight of its double |
| `FixedPoint.PositiveRow` | modules/opencv/pil/Resample.c:245-284 | Rows of a positive filter are non-negative and near one in fixed point |
| `Resampling.ConstantExactly` | modules/opencv/pil/Resample.c:245-312 | A window of one colour keeps it if and only if its weights do not cancel, or it is black |
| `Resampling.ConstantImageStays` | modules/opencv/pil/Resample.c:707-804 | A picture of one colour stays that colour through both passes |
| `Resampling.ConstantPictureStays` | modules/opencv/pil/Resample.c:707-804 | So it does under every filter that is positive or has only such lobes |
| `Resampling.FiltersBalance` | modules/opencv/pil/Resample.c:82-86 | The zero-sum case does not arise for those filters |
| `Resampling.RangeKept` | modules/opencv/pil/Resample.c:707-804 | A positive filter keeps every byte within the range of the input picture |
| `Resampling.SkippingIsSafe` | modules/opencv/pil/Resample.c:726-727 | A pass skipped as not needed would have changed nothing |
| `Resampling.EveryFilterKeepsColour` | modules/opencv/pil/Resample.c:682-804 | Whichever of the five filters is asked for, a picture of one colour stays that colour |
| `Resampling.EveryFilterMaySkip` | modules/opencv/pil/Resample.c:682-804 | and the passes skipped would have changed nothing |
| `Resampling.PositiveFiltersKeepRange` | modules/opencv/pil/Resample.c:682-804 | Box, bilinear and Hamming keep every byte within the range of the picture |
| `Resampling.ChosenShape` | modules/opencv/pil/Resample.c:682-700 | Box, bilinear and Hamming are positive, bicubic and Lanczos are not but have shallow lobes |
| `Passes.Precompute` | modules/opencv/pil/Resample.c:181-267 | Bounds and padded rows of weights, refused exactly when the table would be too large |
| `Passes.FillRow` | modules/opencv/pil/Resample.c:231-261 | One row of weights, normalised unless they sum to zero, zeros after |
| `Passes.Horizontal` | modules/opencv/pil/Resample.c:286-312 | Each row of the temporary picture is the resampled row `offset` below |
| `Passes.Vertical` | modules/opencv/pil/Resample.c:379-405 | On a picture that begins some rows down, with bounds moved to suit, each output is the one of the whole picture |
| `Passes.TemporaryReaches` | modules/opencv/pil/Resample.c:745-760 | Every row the vertical pass reads lies inside the temporary picture |
| `Passes.Resample` | modules/opencv/pil/Resample.c:707-804 | The two passes with the row shift equal resampling the whole picture across and then down |
| `Passes.Shift` | modules/opencv/pil/Resample.c:751-755 | Starts move by the first row, lengths stay |
| `Connections.Conn.Read` | client/zigurat.c:388-423 | Whatever the socket's chunking, the next unread bytes and no others, or the connection and its turn are lost; it cannot fail while the socket does not |
| `Connections.Conn.Receive` | client/zigurat.c:405-420 | Called only with nothing unsent; loses no byte |
| `Connections.Conn.Write` | client/zigurat.c:498-510 | Bytes sent plus bytes buffered are exactly those written, in order |
| `Connections.Conn.WriteNow` | client/zigurat.c:450-466 | All the bytes through any partial sends, or the connection is lost having sent some of them in order |
| `Connections.Conn.Flush` | client/zigurat.c:469-477 | Nothing is left buffered, nothing is sent twice |
| `Connections.Conn.Skip` | client/zigurat.c:513-522 | Exactly n bytes are passed over |
| `Connections.Conn.Lost` | client/zigurat.c:345-352 | The connection ends and its turn goes back |
| `Connections.Conn.Dial` | client/zigurat.c:626-704 | Nothing from before a redial is sent or read after it; the greeting is the new server's first eight bytes |
| `Connections.Conn.TakeTurn` | client/zigurat.c:264-277 | The turn is had at once when held or not needed, else when granted |
| `Connections.Conn.GiveTurn` | client/zigurat.c:281-287 | The turn is not held afterwards |
| `Fields.SkipsOneField` | client/zigurat.c:1257-1299 | Skipping takes exactly the bytes of one field, null and nested vectors included |
| `Fields.DrainsOneReply` | client/zigurat.c:1366-1384 | Draining with the right column count takes exactly one reply |
| `Fields.NumberReadsBack` | client/zigurat.c:1015-1150 | Every bool, int, long and double written reads back as itself and leaves the reader after it |
| `Fields.CharsReadBack` | client/zigurat.c:1049-1192 | Every string and text written reads back as itself |
| `Fields.DoublesReadBack` | client/zigurat.c:1077-1252 | Every vector of doubles written reads back as itself |
| `Fields.VectorInStep` | client/zigurat.c:1242-1251 | A finding: reading a field as a vector stands after it if and only if it is one byte long, as a null is, or a vector within the caller's capacity whose elements come to nine bytes each |
| `Fields.WrittenVectorReadsBack` | client/zigurat.c:1077-1252 | A vector the client wrote is read back whole exactly when the reader has room for it |
| `Fields.OneDoubleLeftBehind` | client/zigurat.c:1243-1243 | One double and no room: its nine bytes are left for the next read |
| `Fields.WrittenIsFormed` | client/zigurat.c:1015-1092 | Whatever is written by type can be skipped without knowing the type |
| `Fields.BigReadsBack` | client/zigurat.c:559-576 | Numbers survive the wire's byte order |
| `Wire.Reorder` | client/zigurat.c:546-556 | The bytes are reversed in place |
| `Wire.WriteValue` | client/zigurat.c:1015-1092 | Exactly the field is written; an over-long value is refused before anything goes out |
| `Wire.WriteDoubles` | client/zigurat.c:1077-1092 | The count and each element as a field of its own |
| `Wire.ReadScalar` | client/zigurat.c:1099-1150 | The value at the front by width, null recognised, the rest left |
| `Wire.ReadChars` | client/zigurat.c:1152-1192 | The value at the front, or, too long for the buffer, taken off the wire all the same |
| `Wire.ReadDoubles` | client/zigurat.c:1224-1252 | What it makes of the field at the front and where it leaves the stream, in every outcome |
| `Wire.ReadVector` | client/zigurat.c:1224-1252 | It leaves what follows a field at the front exactly when the field is taken whole |
| `Wire.SkipField` | client/zigurat.c:1257-1299 | Takes exactly what the field at the front occupies, for any chunking |
| `Wire.SkipOver` | client/zigurat.c:1257-1299 | so what follows a field is next |
| `Wire.ReadResult` | client/zigurat.c:802-831 | One result code; an exception ends the connection |
| `Wire.Drain` | client/zigurat.c:1366-1384 | Takes exactly the reply at the front |
| `Wire.DrainReply` | client/zigurat.c:1366-1384 | so the next reply is at the front |
| `Wire.Verb` | client/zigurat.c:836-845 | No byte of a verb without the turn; a refused verb keeps it; on a calm socket it is lost only if the server stops or throws; the steps taken are possible steps of the turn protocol and end where it says |
| `Wire.SimpleVerb` | client/zigurat.c:967-976 | Commit and rollback give the turn back once the server took the verb, whatever it answers; on a calm socket they are lost only if the server stops or throws |
| `Turns.StepSafe` | client/zigurat.c:264-287 | Every step of every connection keeps one lock owner, held only by a connection that says so |
| `Turns.OneHolder` | client/zigurat.c:264-287 | In every interleaving at most one connection holds the turn |
| `Turns.QueuedByHolder` | client/zigurat.c:836-845 | A verb of a connection that takes turns is queued only while it holds the turn |
| `Turns.NoMixing` | client/zigurat.c:953-976 | Between verbs of two connections that take turns, the first gave its turn back |
| `Turns.TurnGivenUp` | client/zigurat.c:264-352 | Over any run, a connection that holds the turn and later does not has in between done one of: finish a commit or rollback, lose a transfer, redial, change its turn file, close |
| `Turns.FinishedWasTaken` | client/zigurat.c:967-976 | A turn given back by finishing a call was given back after a commit or rollback the server took, in that same call |
| `Turns.RefusedKeeps` | client/zigurat.c:836-845 | A refused verb keeps the turn until the connection gives it up |
| `Turns.ClosedCallHoldsTurn` | client/zigurat.c:836-845 | A finding: a call on a closed connection fails but leaves the turn taken, exactly when the connection takes turns and the turn was free or its own |
| `Turns.ClosedHolderKeeps` | client/zigurat.c:626-637 | From there the turn stays taken through any steps of any connections until its own redial, close or new turn file |
| `Escapes.Unescape` | client/zeytun.c:302-319 | In place, the unescaped string, the write index never past the read index |
| `Escapes.UnescapeInverts` | client/zeytun.c:302-319 | Unescaping undoes the five-rule escaper on every string |
| `Escapes.EscapedIsInert` | client/zeytun.h:33-41 | An escaped value has no quote or angle bracket left |
| `Escapes.UrlEncode` | client/zeytun.c:321-343 | Succeeds exactly when the encoding and its terminator fit, writing nothing past the capacity |
| `Escapes.DecodeInverts` | client/zeytun.c:321-343 | Percent-decoding, section 2.1 of RFC 3986, gives the input back |
| `Escapes.EncodedIsUnreserved` | client/zeytun.c:329-337 | Only unreserved characters, section 2.3 of RFC 3986, and percent signs come out |
| `Calc.EvaluateIffDerived` | bench/tokens/tasks/calc/ref.py:9-61 | evaluate answers v exactly when the precedence grammar derives the tokens with value v |
| `Calc.EvaluatesDerivation` | bench/tokens/tasks/calc/ref.py:25-61 | On the tokens of any derivation it answers its value, or Bad when it divides by zero |
| `Calc.EvaluatePrinted` | bench/tokens/tasks/calc/ref.py:25-61 | Printing an expression tree and evaluating it gives the tree's value |
| `Calc.EvaluatePrintedLine` | bench/tokens/tasks/calc/ref.py:9-61 | The same from the text of a line |
| `Calc.LexText` | bench/tokens/tasks/calc/ref.py:12-12 | The tokens of a written-out token list are that list |
| `Calc.TruncDivTruncates` | bench/tokens/tasks/calc/ref.py:40-41 | The quotient is the one that truncates toward zero |
| `Calc.Evaluator.ReadExpr` | bench/tokens/tasks/calc/ref.py:25-29 | Advances the position and answers as the specification |
| `Calc.Evaluator.ReadTerm` | bench/tokens/tasks/calc/ref.py:31-42 | Advances the position and answers as the specification |
| `Calc.Evaluator.ReadUnary` | bench/tokens/tasks/calc/ref.py:44-56 | Advances the position and answers as the specification |
| `Calc.Run` | bench/tokens/tasks/calc/ref.py:58-61 | The whole evaluation |
| `Queens.Safe` | bench/langs/queens.py:4-9 | True exactly when no placed queen shares a diagonal |
| `Queens.Place` | bench/langs/queens.py:11-17 | The counter rises by exactly the number of orderings in which no two queens, placed or to come, share a diagonal |
| `Queens.OrderingsExact` | bench/langs/queens.py:11-17 | The orderings tried are exactly the permutations |
| `Queens.OrderingsOnce` | bench/langs/queens.py:11-17 | and none is tried twice |
| `Queens.BoardsAre` | bench/langs/queens.py:19-25 | The boards counted are the permutations of 1..n with no two queens on a diagonal |
| `Queens.Solve` | bench/langs/queens.py:19-25 | main reports the number of those boards |

## Left out

- Programs.EngineRefinesReference: gradients are given answers, the same in both modes. What TensorFlow computes for them is not modelled beyond being one function of the question (`Questions.GradientsAgree`), and `StepLeak.RecordedStepIsNoBoundary` shows where the two modes ask different questions.
- Programs.EagerAndGraphAgree: an operation refused by a shape rule or by the library is a flag of the command, the same in both modes; the shape rules, broadcasting and shape inference themselves are not modelled.
- Keys.KeyInjective: attributes keep the producers' names, whose kinds are disjoint, since the key itself does not mark the kinds. Constants are integers: the source makes no others, though it could print floats.
- Ledgers.FittingProgramsRefine: 1200 slots live at once is what the key's buffer allows for the longest leaves and nodes; programs with shorter keys may hold more. Every closure a command may have to run counts as one compiled, though an equal key would be found in the cache; a value that another name's closure filled in is not counted as had.
- TensorFlow calls, device placement, profiling, statistics, CSV loading, random tensors, the scalar cache and module attachment in backend.c.
- The `fnv` hash that entry_find compares before the key: a prefilter that a correct comparison of keys does not need.
- Sizing in clay.h outside the two distribution loops (PERCENT children, aspect ratios, the off axis, clipping); the loops take the children's bounds as preconditions.
- TextCache.Cache.MeasureTextCached: one font configuration per cache, since hash and measure take the text alone where the source also takes the font; texts with newlines, minimum widths and heights, and the capacity of wrapped lines are not modelled; a hash collision gives another text's words, as in the source.
- Wrapping.LayOut: not when another text is cached under this text's hash; the source would then slice the wrong text.
- Line heights, alignment, and everything of clay.h after the text is wrapped.
- Sines.LanczosIsLobed: sine, cosine and pi are parameters. What is taken of them (odd, changing sign over half a turn, positive within the first, between Taylor polynomials of degrees seven and five, at most one, cosine at least minus one, 3.1415 <= pi <= 3.1416) is true of the functions and not proved here; the rounding of the C library is left out with all IEEE rounding.
- Passes.Resample: one band. The source's two, three and four band loops repeat the same sum; the 16-bit and 32-bit paths, allocation failure and IEEE rounding are not modelled.
- Passes.Normalize: converts into a separate table; that the source's conversion over the same bytes gives the same is `FixedPoint.NormalizeInPlace`.
- Connections.Conn.Dial: resolving, connecting, socket options and timeouts are one yes or no, and TLS is left out.
- Turns.OneHolder: the wait between polls and its length are one granted-or-not answer.
- The embedded-engine branches of zigurat.c, error messages, `zg_read_field`, echo, compile, call and isolate, which are verbs and fields put together.
- Escapes.Unescape: the string's length is known to the proof only; HTTP in zeytun.c is left out.
- Calc.Evaluate: Python's limit on the length of integer literals and its recursion limit.
- Queens.Solve: reading the arguments and printing the answer.
