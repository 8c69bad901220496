# Verified models of JavaStudyProject

Dafny models of the parts of the repository that hold algorithms or protocols, with proofs
about them. `dafny verify dfyconfig.toml` checks the whole project.

## What is modelled

**The prettify pipeline.** `TagExtraction` takes the tags out of markup, `Lexing` styles the
text through any nesting of embedded languages, `Recombine` merges tags and styles back over
the text, and `PrettyPrint` composes the three. The text itself passes through `TabExpansion`
and `SpaceFilter` chunk by chunk, with a column and a space flag carried from one chunk to the
next; `SpaceFilter` shows for which sources this equals one pass over the whole. `HtmlText` is
the escape and unescape pair, `CaseFold` the interval arithmetic of case-insensitive character
sets. Regular expressions are parameters: a tokenizer that leaves nothing out, matchers that
are functions of the token, and a handler rank that says how deep whole tokens may be
delegated. The blank and newline patterns of the merge are modelled literally.

**MochiKit's stateful objects.** `Deferreds` is the result-threading chain with pause and
continue, `Cancellation` its runs with cancellations, `DeferredSystems` several such chains whose
callbacks return one another, `WaitChains` which of those stay paused for ever, `DeferredLists` the
join, whatever the joining list's own chain does and wherever it is cancelled,
`TeeIterators` the shared-buffer iterators, `GroupBy` the lazy and the batch grouping, `Colour` the
RGB, HSL and HSV conversions over the reals.

**Directory sizes.** `FileTree` is a finite tree of files, directories and unlistable
directories with the sequential program as the specification. `FrontierWalk`, `LatchVisits`,
`QueueVisits` and `BlockingFutures` are the four concurrent programs; the last three are state
machines over every atomic step, for any tree, pool size and interleaving.

**Channels.** `ChannelCopy` copies through a byte buffer under short reads and partial writes;
`WorkerPool` is the selector loop with its pool of workers.

**Bar charts.** `BarLayout` is PlotKit's layout of bars and of the ticks below them, and
`BarShapes` says where each bar is and how large, from the data alone.

`Basics` holds what several of these share. A class stands where the source has an object or a
closure that is updated in place; its methods make the step that a function specifies, and the
laws are lemmas about runs of that function. Protocols between threads are state machines on
values.

## Where the code does less than it says

- The bounded-queue program does not always end with a sum. Its main loop reads the counter
  before the last visit lowers it, then waits for a number nobody will put. On every tree some
  schedule does this (`QueueVisits.EveryTreeCanHang`); in the program `poll` then times out, and
  unboxing the null it yields throws. It never returns a wrong sum, and on every tree some schedule
  returns the right one (`QueueVisits.EveryTreeCanReturn`).
- The frontier loop returns 0 for a root that is a file
  (`FrontierWalk.GetTotalSizeOfFilesInDir`).
- The comment in the blocking-futures program says that deep directories deadlock. What counts
  is the number of directories with children below the root, deep or flat
  (`BlockingFutures.DeadlockIff`).
- Writing text in chunks is visible when a chunk ends between CR and LF, or between U+2028 or
  U+2029 and a blank or tab (`SpaceFilter.ChunkingInvisibleIff`).
- The branch for CDATA sections is dead: its prefix pattern lacks the `!`
  (`TagExtraction.CdataBranchIsDead`). They are kept as tags, and one with the nocode class, such
  as `<![CDATA[x class="nocode"]]>`, makes extraction read the name of a tag that has none and
  throw, exactly when it stands outside the nocode sections (`TagExtraction.FailsIff`,
  `TagExtraction.CdataFails`); the decorator then leaves its input as it was.
- Unescaping turns a literal `&nbsp;` of the original text into a blank
  (`HtmlText.EscapeUnescape`).
- After a cancel without a canceller the flag that should swallow one late result only skips
  the check: the result is let through and replaces the cancelled one, unless an inner Deferred
  is awaited (`Cancellation.LateIff`, `Cancellation.CancelledRunIsFold`,
  `Cancellation.CancelThenCallback`); in that case a later cancel does not reach the inner one any
  more (`Cancellation.CancelReachesIff`, `Cancellation.CancelMisses`).
- A list that is on its error side, because a member failed or the list was cancelled, throws
  AlreadyCalledError into the chains of members that would fire it
  (`DeferredLists.GatherDisturbsIff`, `DeferredLists.JoinDisturbsIff`). A success that it throws at
  is caught by the pair for errors on the same member, which puts the list's own error into the
  member's slot and counts it again (`DeferredLists.SlotKeptIff`, `DeferredLists.GatherOverwrites`).
- A list that was cancelled silently lets one such call through instead, and is fired a second time
  (`DeferredLists.FiresOnceIff`, `DeferredLists.GatherCancelled`).
- A Deferred stays paused for ever if what it awaits leads to one that was refused because the
  Deferred it came to was chained already, or leads back to where it has been, as when callbacks
  return the Deferred itself or one another (`WaitChains.BlockedForEver`,
  `WaitChains.SelfBlocked`, `WaitChains.SecondLost`). Once all have fired and nothing is left to
  resume, only such Deferreds have no result (`WaitChains.BlockedIff`).
- `hsvToRGB` makes black of every colour with saturation 0, so greys do not survive the round
  trip through HSV (`Colour.HsvUndoesRgbIff`).
- After the last group, `groupby`'s iterators give the last item of the source once more, unless
  the last group was taken to its end (`GroupBy.LastItemIff`).
- With two x values, the lower at the origin, bars have no width (`BarLayout.BarsVanishIff`).
- The upper end of an axis given in the options is replaced by the greatest value of the data
  (`BarLayout.Layout.EvaluateLimits`).
- A worker that is handed a key before its first wait keeps it for ever, short of a spurious
  wake-up, and only such a worker does (`WorkerPool.ServedIff`); every pool can lose its first channel so
  (`WorkerPool.LostNotification`).

## Model

| member | source | states |
|---|---|---|
| PrettyPrint.ApplyDecorator | JavaStudyProject/webapps/admin/js/prettify.js:1233-1265 | end to end: fails exactly when a CDATA section with the nocode class stands outside the nocode sections; otherwise all of the extracted source is shown, on sources without a hazard its text is the one-pass filter at every point and displays the expanded source, every character stands under the style of its innermost lexeme, spans are balanced, and the tags in the output woven into the source give back the input (comments dropped, breaks as newlines, text decoded) |
| PrettyPrint.DecorationsFit | JavaStudyProject/webapps/admin/js/prettify.js:1255-1258 | what any lexer leaves is sorted and within the source, as the merge expects, and gives each character its lexeme's style |
| PrettyPrint.StyledMeans | JavaStudyProject/webapps/admin/js/prettify.js:1033-1041 | text under the span of its decoration is text under the style of its lexeme |
| Recombine.RecombineTagsAndDecorations | JavaStudyProject/webapps/admin/js/prettify.js:1008-1104 | text, spans and tags of the merged output, for all sorted tags and decorations: chunked text, exactness at every prefix and nothing lost for the reader without hazards, no nesting, spans closed before every tag and at the end, style of the last decoration at or before each character, tags in order at their own positions |
| Recombine.ExactDisplays | JavaStudyProject/webapps/admin/js/prettify.js:1042-1062 | an exact output displays the expanded source, with newlines for line ends |
| Recombine.MarkupInvisibleIff | JavaStudyProject/webapps/admin/js/prettify.js:1008-1104 | tags and decorations leave the text as it is, whatever they are, exactly when the source has no hazard |
| Recombine.Recombiner.EmitTextUpTo | JavaStudyProject/webapps/admin/js/prettify.js:1031-1063 | text already written plus text to come is unchanged, the output index moves to the given position and never back, spans and tags are kept |
| Recombine.Recombiner.EmitChunk | JavaStudyProject/webapps/admin/js/prettify.js:1042-1062 | one chunk goes out in full under the open span, and on a clean source the carried column and space flag are those of the filter |
| Recombine.Recombiner.SwitchSpan | JavaStudyProject/webapps/admin/js/prettify.js:1033-1041 | afterwards the open span is that of the current style; nothing else changes |
| Recombine.Recombiner.CloseOpen | JavaStudyProject/webapps/admin/js/prettify.js:1084-1088 | afterwards no span is open; text and tags are unchanged |
| Recombine.Recombiner.ConsumeTag | JavaStudyProject/webapps/admin/js/prettify.js:1082-1090 | a tag comes out at its own position with no span open |
| Recombine.Recombiner.NextTag | JavaStudyProject/webapps/admin/js/prettify.js:1081-1090 | a turn that consumes a tag leaves the text written and to come as it was and the state ready for the next turn |
| Recombine.Recombiner.NextDecoration | JavaStudyProject/webapps/admin/js/prettify.js:1091-1095 | a decoration becomes current only after the text before it is out |
| Recombine.Recombiner.Turn | JavaStudyProject/webapps/admin/js/prettify.js:1065-1096 | a turn takes the tag if it comes no later than the decoration, and keeps the whole text |
| Recombine.Recombiner.Merge | JavaStudyProject/webapps/admin/js/prettify.js:1065-1098 | the loop consumes every tag and decoration and keeps the whole text |
| Recombine.Recombiner.Finish | JavaStudyProject/webapps/admin/js/prettify.js:1099-1102 | the rest of the text is out and the last span closed |
| SpaceFilter.ChunkingInvisibleIff | JavaStudyProject/webapps/admin/js/prettify.js:1023-1063 | every chunking gives the same text exactly when the source has no hazard pair, that is no CR followed by LF and no U+2028 or U+2029 followed by a blank or a tab; then the text is the one-pass filter of the whole expanded source |
| SpaceFilter.StreamingIsBatch | JavaStudyProject/webapps/admin/js/prettify.js:1042-1062 | from any position and carried state, writing a clean source in chunks equals filtering the rest at once |
| SpaceFilter.ChunkIsFiltered | JavaStudyProject/webapps/admin/js/prettify.js:1049-1060 | the two regex replacements and the newline replacement of a clean chunk are one two-state transducer, and the trailing-space test is its state |
| SpaceFilter.TrailingSpaceRemembers | JavaStudyProject/webapps/admin/js/prettify.js:1026-1056 | the regex on the written html finds out whether the text ended in a blank |
| SpaceFilter.FilterAppend | JavaStudyProject/webapps/admin/js/prettify.js:1042-1060 | the filter is a homomorphism once its state is carried over |
| SpaceFilter.FilterOneMore | JavaStudyProject/webapps/admin/js/prettify.js:1042-1060 | one more character after any text: a blank is protected or not, a line end becomes a break, three characters are escaped and all others kept |
| SpaceFilter.BlankParity | JavaStudyProject/webapps/admin/js/prettify.js:1026-1056 | which blanks are protected: every other one, from the first on at the start and after a line end, and elsewhere from the second on |
| SpaceFilter.HazardShows | JavaStudyProject/webapps/admin/js/prettify.js:1023-1063 | at each hazard, cutting there changes the text |
| SpaceFilter.LineTerminatorIff | JavaStudyProject/webapps/admin/js/prettify.js:1023-1024 | after which characters the multiline pattern sees the start of a line |
| SpaceFilter.FilterDisplays | JavaStudyProject/webapps/admin/js/prettify.js:1042-1060 | breaks read as newlines and entities as their characters, the one-pass output is the text again, for both forms of the break |
| TabExpansion.TabExpander.ExpandChunk | JavaStudyProject/webapps/admin/js/prettify.js:569-608 | each call expands its chunk from the column the last one ended in, and leaves the new column |
| TabExpansion.ExpandAppend | JavaStudyProject/webapps/admin/js/prettify.js:569-608 | expanding in two calls equals expanding at once |
| TabExpansion.ExpandOneMore | JavaStudyProject/webapps/admin/js/prettify.js:579-607 | one more character after any text: a tab moves to the next multiple of the tab width, by at least one column and at most the width, and adds exactly that many blanks; every other character is kept, and a newline starts the column anew |
| TabExpansion.ExpandAligns | JavaStudyProject/webapps/admin/js/prettify.js:590-594 | the counted column is the width of the expanded line, a multiple of the tab width after a tab |
| TabExpansion.ExpandLeavesNoTab | JavaStudyProject/webapps/admin/js/prettify.js:579-607 | no tab is left |
| TabExpansion.PushSpaces | JavaStudyProject/webapps/admin/js/prettify.js:590-594 | padding in pieces of sixteen has exactly the asked width |
| HtmlText.EscapeUnescape | JavaStudyProject/webapps/admin/js/prettify.js:218-269 | unescaping an escaped text, either way of escaping, gives the text with each `&nbsp;` as a blank, hence the text itself if and only if it has no `&nbsp;`, whatever numeric entities decode to |
| HtmlText.TextToHtmlIsEnc | JavaStudyProject/webapps/admin/js/prettify.js:218-230 | the successive global replacements encode each character on its own |
| HtmlText.HtmlToText | JavaStudyProject/webapps/admin/js/prettify.js:240-269 | the loop and the six replacements, for any decoder, always ending |
| HtmlText.DecodeNumericEntities | JavaStudyProject/webapps/admin/js/prettify.js:246-261 | the entity loop ends on every input and decodes each entity found from the position after the last |
| HtmlText.EntityDecoded | JavaStudyProject/webapps/admin/js/prettify.js:246-261 | the first closed numeric entity: the code is what follows the first digit, in base 16 after an x and else in base 10; its character takes the entity's place if it is one, and the search goes on after that place |
| HtmlText.NoneDecoded | JavaStudyProject/webapps/admin/js/prettify.js:246-248 | text without an entity is left alone, and so is an entity that is not closed |
| HtmlText.UnescapeEnc | JavaStudyProject/webapps/admin/js/prettify.js:263-268 | the six replacements in their order undo the encoding |
| HtmlText.EncHasNoNumeric | JavaStudyProject/webapps/admin/js/prettify.js:246-246 | an encoded text has no numeric entity, so the loop leaves it alone |
| HtmlText.IndexOfIsFirst | JavaStudyProject/webapps/admin/js/prettify.js:246-247 | a found index is the first occurrence from the start position, and no index means there is none |
| Lexing.DecorationsMean | JavaStudyProject/webapps/admin/js/prettify.js:804-884 | positions start at the base, never decrease and stay within the source, at every nesting depth, and give each character the style of its innermost lexeme |
| Lexing.TokenMeans | JavaStudyProject/webapps/admin/js/prettify.js:853-880 | one token, plain or embedded: the decorations of the left, the inner and the right part tile it |
| Lexing.TokensMean | JavaStudyProject/webapps/admin/js/prettify.js:816-881 | the tokens tile their stretch |
| Lexing.AppendedMeans | JavaStudyProject/webapps/admin/js/prettify.js:708-716 | appending tiles the empty stretch by nothing and any other by its decorations |
| Lexing.PartsRebuild | JavaStudyProject/webapps/admin/js/prettify.js:859-878 | left, embedded and right part rebuild the token; both ends are shorter than it |
| Lexing.Decorate | JavaStudyProject/webapps/admin/js/prettify.js:804-883 | the lexer with its style cache gives the decorations of the one without, and ends: source length, then handler rank |
| Lexing.ClassifyCached | JavaStudyProject/webapps/admin/js/prettify.js:814-851 | the cache only holds styles that classifying the token again would give |
| Lexing.ClassifyIs | JavaStudyProject/webapps/admin/js/prettify.js:823-849 | for every lexer and token: the last pattern, of all, that lists the first character as a shortcut decides, else the first fallthrough pattern that matches, and without any the token is plain; a language style without a group that has text is source |
| Lexing.HandlerIs | JavaStudyProject/webapps/admin/js/prettify.js:1134-1143 | the handler registered for an extension, else that for markup exactly if the first character that is no blank is a bracket, else that for code |
| Lexing.StylesAre | JavaStudyProject/webapps/admin/js/prettify.js:853-880 | a lexer styles its source token by token: a plain token throughout, an embedded group where it first occurs as its own handler does, and both sides of it as the lexer itself does |
| Lexing.AppendDecorations | JavaStudyProject/webapps/admin/js/prettify.js:708-716 | nothing for an empty source, else the handler's decorations after those present |
| Lexing.DecorateToken | JavaStudyProject/webapps/admin/js/prettify.js:853-880 | a token adds its own decorations, with the recursion into the embedded language |
| TagExtraction.ExtractTags | JavaStudyProject/webapps/admin/js/prettify.js:630-690 | throws exactly when a CDATA section with the nocode class stands outside the nocode sections; else source and tags are what the chunks add one after the other, and weaving the tags back rebuilds the normalized input |
| TagExtraction.FailsIff | JavaStudyProject/webapps/admin/js/prettify.js:653-657 | over all chunk lists, the loop comes to a chunk whose missing tag name is read exactly when a CDATA section with the nocode class starts a stretch |
| TagExtraction.StretchFailsIff | JavaStudyProject/webapps/admin/js/prettify.js:653-657 | one turn of the loop throws exactly at such a section |
| TagExtraction.NamelessIsCdata | JavaStudyProject/webapps/admin/js/prettify.js:610-620 | among the chunks taken for tags exactly the CDATA sections have no tag name, and none of them is a break |
| TagExtraction.IsBrIff | JavaStudyProject/webapps/admin/js/prettify.js:619-619 | which chunks are breaks: in either case, the name ending there |
| TagExtraction.LetterIff | JavaStudyProject/webapps/admin/js/prettify.js:619-620 | what the two patterns take for a letter and for a word character |
| TagExtraction.CdataFails | JavaStudyProject/webapps/admin/js/prettify.js:643-657 | one such section alone makes extraction throw |
| TagExtraction.ExtractChunk | JavaStudyProject/webapps/admin/js/prettify.js:640-687 | one turn of the loop drops, converts or keeps its stretch of chunks, and throws exactly at a CDATA section with the nocode class |
| TagExtraction.WeaveRebuilds | JavaStudyProject/webapps/admin/js/prettify.js:630-690 | tags at their positions lose nothing: re-inserting them gives the stretches back in order, and positions never decrease or leave the source |
| TagExtraction.FindSectionEnd | JavaStudyProject/webapps/admin/js/prettify.js:657-670 | the first chunk at which the depth is back to zero, or none exists |
| TagExtraction.SectionEndUnique | JavaStudyProject/webapps/admin/js/prettify.js:660-670 | a section has one end |
| TagExtraction.EndsIff | JavaStudyProject/webapps/admin/js/prettify.js:658-670 | a section ends where as many tags of its name have been closed as opened, its own included, for the first time |
| TagExtraction.StretchesExtract | JavaStudyProject/webapps/admin/js/prettify.js:638-689 | chunk by chunk: a break adds a newline to the source and a comment nothing, a chunk that is no tag its decoded text, and a tag or a nocode section its own characters as one tag at the place reached |
| TagExtraction.CdataBranchIsDead | JavaStudyProject/webapps/admin/js/prettify.js:610-618 | no chunk of the chunk pattern takes the CDATA branch |
| CaseFold.FoldIsCaseClosure | JavaStudyProject/webapps/admin/js/prettify.js:383-415 | the folded ranges are sorted, disjoint and not adjacent, and denote exactly the set and the other cases of its letters |
| CaseFold.FoldIsIdempotent | JavaStudyProject/webapps/admin/js/prettify.js:383-415 | folding a folded set changes nothing |
| CaseFold.NormalFormIsUnique | JavaStudyProject/webapps/admin/js/prettify.js:403-415 | ranges in this form are determined by what they denote |
| CaseFold.VariantsDenote | JavaStudyProject/webapps/admin/js/prettify.js:391-400 | the pushed ranges of one parsed range denote it and the other case of each letter in it |
| CaseFold.MergeDenotes | JavaStudyProject/webapps/admin/js/prettify.js:408-415 | merging a range into the last one neither adds nor loses a character |
| CaseFold.ConsolidateNormal | JavaStudyProject/webapps/admin/js/prettify.js:405-415 | consolidating a sorted list leaves gaps between all ranges |
| CaseFold.ConsolidateDenotes | JavaStudyProject/webapps/admin/js/prettify.js:405-415 | consolidating keeps what is denoted |
| CaseFold.SortSorts | JavaStudyProject/webapps/admin/js/prettify.js:405-405 | the comparator's order, on the same ranges |
| CaseFold.CaseFoldRanges | JavaStudyProject/webapps/admin/js/prettify.js:383-415 | the loops compute the folded ranges |
| Deferreds.RunIsFold | JavaStudyProject/webapps/admin/js/mochi/MochiKit.js:2102-2116 | over any interleaving of registering, firing and inner firings, each pair is consumed once in order, `paused` is 1 exactly while an inner Deferred is awaited, and a fired, unpaused Deferred has an empty chain and the left fold of all pairs as its result |
| Deferreds.OrderIsInvisible | JavaStudyProject/webapps/admin/js/mochi/MochiKit.js:2155-2164 | when the pairs are registered does not matter for the result |
| Deferreds.FoldGoesOn | JavaStudyProject/webapps/admin/js/mochi/MochiKit.js:2170-2193 | what one pair makes of a result: a plain value goes to the callback and an error to the errback, a missing one passes it on, a thrown value that is no error is wrapped, and a returned Deferred stands for what it gives |
| Deferreds.FirstResult | JavaStudyProject/webapps/admin/js/mochi/MochiKit.js:2124-2139 | the first result decides what a Deferred is fired with, a plain one of `errback` wrapped |
| Deferreds.StepMeans | JavaStudyProject/webapps/admin/js/mochi/MochiKit.js:2102-2164 | each event keeps the meaning of the state |
| Deferreds.FireMeans | JavaStudyProject/webapps/admin/js/mochi/MochiKit.js:2164-2200 | `_fire` continues the fold from where the chain is |
| Deferreds.DrainFolds | JavaStudyProject/webapps/admin/js/mochi/MochiKit.js:2170-2193 | the chain loop consumes a prefix and folds it: error side exactly for errors, until an inner Deferred |
| Deferreds.Deferred.FireChain | JavaStudyProject/webapps/admin/js/mochi/MochiKit.js:2164-2200 | the object's loop makes the same state |
| Deferreds.Deferred.Continue | JavaStudyProject/webapps/admin/js/mochi/MochiKit.js:2109-2111 | an inner result resumes the chain once, without leaving `paused` off by one |
| Deferreds.Deferred.Check | JavaStudyProject/webapps/admin/js/mochi/MochiKit.js:2116-2123 | lets a call through on an unfired Deferred, and one on a silently cancelled one, which uses the flag up |
| Deferreds.Deferred.CallCallback | JavaStudyProject/webapps/admin/js/mochi/MochiKit.js:2124-2129 | fires once; afterwards AlreadyCalledError and no change, unless a silent cancel lets one call through; another Deferred as the argument is refused, after that check |
| Deferreds.Deferred.CallErrback | JavaStudyProject/webapps/admin/js/mochi/MochiKit.js:2130-2139 | the same on the error side, a plain argument wrapped |
| Deferreds.Deferred.CallCancel | JavaStudyProject/webapps/admin/js/mochi/MochiKit.js:2086-2102 | an unfired Deferred is fired by its canceller or with CancelledError, silently without a canceller; a fired one passes the call on to the Deferred in its result |
| Deferreds.Deferred.CallAddCallbacks | JavaStudyProject/webapps/admin/js/mochi/MochiKit.js:2155-2163 | registers and, when fired, consumes; refused on a chained Deferred |
| Cancellation.CancelledRunIsFold | JavaStudyProject/webapps/admin/js/mochi/MochiKit.js:2086-2139 | over every run with cancellations a settled Deferred holds the fold of all its pairs over the first value, unless a late result has come while nothing was awaited; then it holds the fold, over the late result, of the pairs registered after it |
| Cancellation.LateIff | JavaStudyProject/webapps/admin/js/mochi/MochiKit.js:2086-2123 | a result for a fired Deferred is let through exactly if it is the first call after a cancel that found the Deferred unfired and without a canceller; at most one is in any run |
| Cancellation.FlagsAre | JavaStudyProject/webapps/admin/js/mochi/MochiKit.js:2086-2123 | `fired` and `silentlyCancelled` are what the sequence of calls says, in every run |
| Cancellation.FirstIs | JavaStudyProject/webapps/admin/js/mochi/MochiKit.js:2086-2139 | the first result or cancellation decides what a Deferred is fired with: a cancellation with what the canceller gives, and else with CancelledError |
| Cancellation.CancelThenCallback | JavaStudyProject/webapps/admin/js/mochi/MochiKit.js:2086-2129 | a silently cancelled Deferred can come to hold any value |
| Cancellation.CancelReachesIff | JavaStudyProject/webapps/admin/js/mochi/MochiKit.js:2097-2115 | `cancel` reaches the awaited Deferred exactly unless a late result has come since the pause |
| Cancellation.CancelMisses | JavaStudyProject/webapps/admin/js/mochi/MochiKit.js:2086-2115 | a run after which it does not: the errback of a silently cancelled Deferred returns another one, and then the cancelled one is called once more |
| DeferredSystems.SystemIsFold | JavaStudyProject/webapps/admin/js/mochi/MochiKit.js:2109-2200 | over every run of several Deferreds whose callbacks return one another, one valuation, the values actually passed on, makes sense of all: a settled one holds the left fold of all its pairs, an awaited one has passed on its own such fold, and what is left of a chain is its unread end |
| DeferredSystems.LostIff | JavaStudyProject/webapps/admin/js/mochi/MochiKit.js:2155-2200 | over every run: a Deferred is chained exactly after a chain came to it while it was unsettled or the `addBoth` of such a chain returned, and a Deferred has lost its continuation exactly after its own chain came to one that was chained already |
| DeferredSystems.LostForEver | JavaStudyProject/webapps/admin/js/mochi/MochiKit.js:2194-2200 | then it stays paused, unsettled and with its remaining pairs however the run goes on |
| WaitChains.BlockedForEver | JavaStudyProject/webapps/admin/js/mochi/MochiKit.js:2164-2200 | a Deferred from which following what is awaited comes to one without a continuation, or to one a second time, stays so, paused and with its remaining pairs, in every continuation of the run |
| WaitChains.UnsettledIff | JavaStudyProject/webapps/admin/js/mochi/MochiKit.js:2164-2200 | in every run with nothing left to resume, a Deferred has no result exactly if it is blocked in this way or its waiting ends at one that has not fired |
| WaitChains.BlockedIff | JavaStudyProject/webapps/admin/js/mochi/MochiKit.js:2164-2200 | so once all have fired, exactly the blocked ones have no result |
| WaitChains.EndsIff | JavaStudyProject/webapps/admin/js/mochi/MochiKit.js:2180-2198 | the waiting of a Deferred ends at one that does not wait exactly unless it is blocked |
| WaitChains.DeliverShrinks | JavaStudyProject/webapps/admin/js/mochi/MochiKit.js:2109-2115 | each resumption leaves less to do, so only finitely many follow one another |
| WaitChains.SelfBlocked | JavaStudyProject/webapps/admin/js/mochi/MochiKit.js:2170-2198 | a Deferred whose callback returns the Deferred itself is blocked without being refused |
| WaitChains.SecondLost | JavaStudyProject/webapps/admin/js/mochi/MochiKit.js:2155-2198 | of two Deferreds whose callbacks return the same unfired one, the second is refused and blocked, the first is not |
| DeferredSystems.StepInv | JavaStudyProject/webapps/admin/js/mochi/MochiKit.js:2102-2200 | what was passed on stays the settled result of the one that passed it on, and whoever waits has its continuation on the awaited chain |
| DeferredSystems.RunNodeMeans | JavaStudyProject/webapps/admin/js/mochi/MochiKit.js:2102-2200 | at every point of a run every Deferred has its meaning under any valuation that knows what will have been passed on |
| DeferredLists.JoinFires | JavaStudyProject/webapps/admin/js/mochi/MochiKit.js:2376-2421 | with both fire-on-one flags off, the list fires exactly when its last member completes, with all slots, whatever its own chain does, unless it is cancelled before; then it has been fired by that, and the last completion fires it again exactly if it is let through |
| DeferredLists.JoinDisturbsIff | JavaStudyProject/webapps/admin/js/mochi/MochiKit.js:2394-2421 | and each member keeps its slot and goes on with its own value, or with null after a consumed error, exactly unless it is the last and the list was cancelled, is on its error side and not silently cancelled any more |
| DeferredLists.JoinOrderInvisible | JavaStudyProject/webapps/admin/js/mochi/MochiKit.js:2376-2421 | the joined list does not depend on the order of completion, if it is not cancelled before it is complete |
| DeferredLists.SlotKeptIff | JavaStudyProject/webapps/admin/js/mochi/MochiKit.js:2394-2421 | for all flags: slot i holds the flag and value of member i for good, exactly unless member i succeeded into a list on its error side, not silently cancelled, that it would have fired; then it holds the list's own AlreadyCalledError |
| DeferredLists.SlotEmpty | JavaStudyProject/webapps/admin/js/mochi/MochiKit.js:2378-2403 | the slot of a member that has not completed is empty |
| DeferredLists.FiresOnceIff | JavaStudyProject/webapps/admin/js/mochi/MochiKit.js:2404-2416 | for all flags: what a list was fired with stays exactly unless a member is let through to a silently cancelled list that it would fire |
| DeferredLists.RefiresOnce | JavaStudyProject/webapps/admin/js/mochi/MochiKit.js:2116-2123 | that happens at most once, and its value stays |
| DeferredLists.FiredWith | JavaStudyProject/webapps/admin/js/mochi/MochiKit.js:2404-2416 | the first completion that fires a list decides what with, for good: one success with its index and value, one failure, or else all slots |
| DeferredLists.DisturbsIff | JavaStudyProject/webapps/admin/js/mochi/MochiKit.js:2394-2421 | for all flags: a member goes on with its own value or with null after a consumed error exactly if the list does not refuse it |
| DeferredLists.GatherState | JavaStudyProject/webapps/admin/js/mochi/MochiKit.js:2401-2423 | a gathering list fails with its first failure, and otherwise fires when all are done; cancelled before that, it holds CancelledError, silently, until a member is let through; its count is exact until the last member completes, and always when none fails |
| DeferredLists.GatherValues | JavaStudyProject/webapps/admin/js/mochi/MochiKit.js:2422-2432 | when all members succeed the values stand in list order, and the list was fired with them unless it was cancelled before and never fired again |
| DeferredLists.GatherDisturbsIff | JavaStudyProject/webapps/admin/js/mochi/MochiKit.js:2394-2416 | a member's chain goes on with AlreadyCalledError exactly when the list is on its error side at that time, not silently cancelled, and the member fails as well or is the last; a success disturbed so loses its slot |
| DeferredLists.GatherSide | JavaStudyProject/webapps/admin/js/mochi/MochiKit.js:2404-2416 | if its own chain leaves it there, the list is on its error side exactly after a failure, or between a cancellation and the last completion |
| DeferredLists.GatherOverwrites | JavaStudyProject/webapps/admin/js/mochi/MochiKit.js:2394-2416 | a failure and then a success of two members leave the second slot with the list's own error and a count of three |
| DeferredLists.GatherCancelled | JavaStudyProject/webapps/admin/js/mochi/MochiKit.js:2086-2123 | a failure after the list was cancelled fires the list a second time and disturbs nobody |
| DeferredLists.GatherRecovers | JavaStudyProject/webapps/admin/js/mochi/MochiKit.js:2404-2416 | a second failure that comes after the list recovered from the first disturbs nobody, and the first one is what the list was fired with |
| DeferredLists.DeferredList.FireWith | JavaStudyProject/webapps/admin/js/mochi/MochiKit.js:2116-2139 | the check, and then the list is fired with the value |
| DeferredLists.DeferredList.CallCbDeferred | JavaStudyProject/webapps/admin/js/mochi/MochiKit.js:2401-2421 | the object makes the same step |
| DeferredLists.DeferredList.MemberCompletes | JavaStudyProject/webapps/admin/js/mochi/MochiKit.js:2394-2398 | so it does through the two pairs on a member, the second catching what the first throws |
| DeferredLists.DeferredList.CallCancel | JavaStudyProject/webapps/admin/js/mochi/MochiKit.js:2086-2096 | and when it is cancelled |
| TeeIterators.RunReturns | JavaStudyProject/webapps/admin/js/mochi/MochiKit.js:1145-1182 | for every interleaving of `next` calls on n iterators, the j-th call on each returns the j-th element, and StopIteration past the end |
| TeeIterators.RunBuffer | JavaStudyProject/webapps/admin/js/mochi/MochiKit.js:1154-1166 | `max` and `min` are the most and least advanced positions and the buffer is the slice between them; a single iterator never trims it |
| TeeIterators.StepValid | JavaStudyProject/webapps/admin/js/mochi/MochiKit.js:1151-1168 | each call keeps that and moves one iterator by one |
| TeeIterators.LeastAdvances | JavaStudyProject/webapps/admin/js/mochi/MochiKit.js:1159-1166 | the least position moves by one only with the last iterator that stood there |
| TeeIterators.Tee.Next | JavaStudyProject/webapps/admin/js/mochi/MochiKit.js:1151-1168 | the object makes the same step and pulls each element once |
| TeeIterators.ListMin | JavaStudyProject/webapps/admin/js/mochi/MochiKit.js:670-682 | the loop finds the least position |
| GroupBy.LazyIsCutBatch | JavaStudyProject/webapps/admin/js/mochi/MochiKit.js:1370-1410 | whatever number of items is taken of each group, the keys are those of the batch form and the items a prefix of its group |
| GroupBy.DrainingIsBatch | JavaStudyProject/webapps/admin/js/mochi/MochiKit.js:1370-1440 | taking everything gives the batch form |
| GroupBy.AdvanceRefines | JavaStudyProject/webapps/admin/js/mochi/MochiKit.js:1392-1401 | from every reachable state, asking for the next group behaves as on the batch form |
| GroupBy.TakeRefines | JavaStudyProject/webapps/admin/js/mochi/MochiKit.js:1401-1409 | so does asking for an item, also after the last group |
| GroupBy.LastItemIff | JavaStudyProject/webapps/admin/js/mochi/MochiKit.js:1392-1409 | after the outer StopIteration an inner `next` returns an item exactly when the last group was not taken to its end, namely the last item of the source, and only once |
| GroupBy.GroupsGroup | JavaStudyProject/webapps/admin/js/mochi/MochiKit.js:1411-1440 | the groups hold the source in order, are not empty, agree in key inside and differ between neighbours |
| GroupBy.GroupingIsUnique | JavaStudyProject/webapps/admin/js/mochi/MochiKit.js:1411-1440 | only one grouping does |
| GroupBy.GroupbyAsArray | JavaStudyProject/webapps/admin/js/mochi/MochiKit.js:1411-1440 | the loop computes it |
| GroupBy.GroupIterator.Next | JavaStudyProject/webapps/admin/js/mochi/MochiKit.js:1392-1401 | the object's loop skips the rest of the group and makes the same state |
| GroupBy.GroupIterator.NextItem | JavaStudyProject/webapps/admin/js/mochi/MochiKit.js:1401-1409 | the shared inner `next` makes the same state |
| Colour.HslUndoesRgb | JavaStudyProject/webapps/admin/js/mochi/MochiKit.js:3872-3979 | `hslToRGB` undoes `rgbToHSL` on every colour |
| Colour.HsvUndoesRgbIff | JavaStudyProject/webapps/admin/js/mochi/MochiKit.js:3816-3938 | `hsvToRGB` undoes `rgbToHSV` exactly on the colours that are not grey, and on black |
| Colour.RgbUndoesHslIff | JavaStudyProject/webapps/admin/js/mochi/MochiKit.js:3872-3979 | `rgbToHSL` undoes `hslToRGB` exactly where hue and saturation survive; the result is a colour for all components in [0,1] |
| Colour.RgbUndoesHsvIff | JavaStudyProject/webapps/admin/js/mochi/MochiKit.js:3816-3938 | the same for HSV; components are always defined for hues in [0,1] |
| Colour.SameHue | JavaStudyProject/webapps/admin/js/mochi/MochiKit.js:3902-3979 | both conversions find the same hue, in [0,1) |
| Colour.ColourIsWheel | JavaStudyProject/webapps/admin/js/mochi/MochiKit.js:3917-3937 | the hue found is the place of the colour on the wheel |
| Colour.WheelHasHue | JavaStudyProject/webapps/admin/js/mochi/MochiKit.js:3917-3937 | and the colour at a hue has that hue |
| Colour.HslIsWheel | JavaStudyProject/webapps/admin/js/mochi/MochiKit.js:3793-3815 | the piecewise component function walks that wheel |
| Colour.HsvIsWheel | JavaStudyProject/webapps/admin/js/mochi/MochiKit.js:3829-3869 | so does the switch over the six sectors |
| FileTree.GetTotalSizeOfFilesInDir | JavaStudyProject/src/com/manzhizhen/thread/concurrent/TotalFileSizeSequential.java:12-27 | the lengths of all files below |
| FrontierWalk.GetTotalSizeOfFilesInDir | JavaStudyProject/src/com/manzhizhen/thread/concurrent/TotalFileSizeConcurrent.java:79-113 | the sequential size, if and only if the root is not itself a file of positive length; always ends |
| FrontierWalk.GetTotalAndSubDirs | JavaStudyProject/src/com/manzhizhen/thread/concurrent/TotalFileSizeConcurrent.java:51-68 | size found plus size left is the size of the directory, and less is left to visit |
| LatchVisits.LatchSafety | JavaStudyProject/src/com/manzhizhen/thread/concurrent/TotalFileSizeConcurrentWLatch.java:36-76 | in every reachable state the counter is the number of visits queued or not yet decremented, total plus outstanding contributions is the sequential size, and an opened latch was opened once over the exact total |
| LatchVisits.LatchLiveness | JavaStudyProject/src/com/manzhizhen/thread/concurrent/TotalFileSizeConcurrentWLatch.java:65-76 | every run is finite and one that cannot go on has opened the latch over the exact total |
| LatchVisits.MainWaits | JavaStudyProject/src/com/manzhizhen/thread/concurrent/TotalFileSizeConcurrentWLatch.java:70-71 | the main thread makes its own visit and then waits: it never takes one from the queue |
| LatchVisits.StepConserves | JavaStudyProject/src/com/manzhizhen/thread/concurrent/TotalFileSizeConcurrentWLatch.java:36-63 | no step loses or counts twice a size |
| LatchVisits.StepCounts | JavaStudyProject/src/com/manzhizhen/thread/concurrent/TotalFileSizeConcurrentWLatch.java:48-62 | counter and latch stay in step with the outstanding visits |
| LatchVisits.StepDecreases | JavaStudyProject/src/com/manzhizhen/thread/concurrent/TotalFileSizeConcurrentWLatch.java:36-63 | every step is progress |
| QueueVisits.QueueSafety | JavaStudyProject/src/com/manzhizhen/thread/concurrent/TotalFileSizeConcurrentWQueue.java:31-80 | the bound is kept, no size is lost or counted twice, and a main loop that exits leaves no visit, an empty queue and the sequential size |
| QueueVisits.StuckIffReturnedOrHung | JavaStudyProject/src/com/manzhizhen/thread/concurrent/TotalFileSizeConcurrentWQueue.java:63-80 | a run stops exactly when it returned, or hung in `poll` with every size already consumed |
| QueueVisits.EveryTreeCanHang | JavaStudyProject/src/com/manzhizhen/thread/concurrent/TotalFileSizeConcurrentWQueue.java:72-75 | on every tree, pool and capacity some schedule hangs |
| QueueVisits.HangSchedule | JavaStudyProject/src/com/manzhizhen/thread/concurrent/TotalFileSizeConcurrentWQueue.java:72-75 | so it does from every state with a visit pending and the main thread in its loop |
| QueueVisits.EveryTreeCanReturn | JavaStudyProject/src/com/manzhizhen/thread/concurrent/TotalFileSizeConcurrentWQueue.java:63-80 | on every tree, pool and capacity some other schedule returns the sequential size |
| QueueVisits.ReturnSchedule | JavaStudyProject/src/com/manzhizhen/thread/concurrent/TotalFileSizeConcurrentWQueue.java:63-80 | so it does from every state in which the main thread is not waiting for a number |
| QueueVisits.WorkerStepConserves | JavaStudyProject/src/com/manzhizhen/thread/concurrent/TotalFileSizeConcurrentWQueue.java:40-61 | workers lose no size |
| QueueVisits.MainStepInv | JavaStudyProject/src/com/manzhizhen/thread/concurrent/TotalFileSizeConcurrentWQueue.java:72-75 | the non-atomic loop test keeps the invariant |
| BlockingFutures.DeadlockIff | JavaStudyProject/src/com/manzhizhen/thread/concurrent/TotalFileSizeNativeConcurrent.java:28-67 | a pool of N workers can deadlock on a tree if and only if at least N directories below the root have children |
| BlockingFutures.DeepTreesDeadlock | JavaStudyProject/src/com/manzhizhen/thread/concurrent/TotalFileSizeNativeConcurrent.java:38-67 | a path deeper than N is enough |
| BlockingFutures.EveryRun | JavaStudyProject/src/com/manzhizhen/thread/concurrent/TotalFileSizeNativeConcurrent.java:38-67 | runs are finite, never occupy more than N workers, and a finished run returns the sequential size |
| BlockingFutures.Progress | JavaStudyProject/src/com/manzhizhen/thread/concurrent/TotalFileSizeNativeConcurrent.java:61-63 | with fewer such directories every reachable unfinished state has a step |
| BlockingFutures.DeadlockSchedule | JavaStudyProject/src/com/manzhizhen/thread/concurrent/TotalFileSizeNativeConcurrent.java:49-63 | the schedule that deadlocks, with all workers waiting |
| BlockingFutures.StepInv | JavaStudyProject/src/com/manzhizhen/thread/concurrent/TotalFileSizeNativeConcurrent.java:38-67 | each step keeps the state of tasks, futures and queue consistent |
| BlockingFutures.StepShrinks | JavaStudyProject/src/com/manzhizhen/thread/concurrent/TotalFileSizeNativeConcurrent.java:38-67 | each step is progress |
| ChannelCopy.CopyCompacting | JavaStudyProject/src/com/manzhizhen/nio/channel/ChannelCopyTest.java:17-35 | under every schedule of short reads and partial writes with finitely many stalls, ends with exactly the source written |
| ChannelCopy.CopyClearing | JavaStudyProject/src/com/manzhizhen/nio/channel/ChannelCopyTest.java:37-50 | the same for the draining version |
| ChannelCopy.EchoAvailable | JavaStudyProject/src/com/manzhizhen/nio/channel/SelectSocketsThreadPool.java:196-219 | what was read is what was written back; -1 only at the end of the stream |
| ChannelCopy.Sink.WriteFully | JavaStudyProject/src/com/manzhizhen/nio/channel/ChannelCopyTest.java:31-34 | writes all that the buffer holds |
| ChannelCopy.ByteBuffer.Compact | JavaStudyProject/src/com/manzhizhen/nio/channel/ChannelCopyTest.java:27-27 | what was not written is kept in front, in order |
| ChannelCopy.ByteBuffer.Flip | JavaStudyProject/src/com/manzhizhen/nio/channel/ChannelCopyTest.java:23-23 | what was filled is what remains |
| ChannelCopy.Conserved | JavaStudyProject/src/com/manzhizhen/nio/channel/ChannelCopyTest.java:21-28 | destination plus buffer is what was consumed |
| WorkerPool.OneDrainer | JavaStudyProject/src/com/manzhizhen/nio/channel/SelectSocketsThreadPool.java:178-227 | in every reachable state a channel being drained has its read interest off, is not waiting in the selection loop, and is drained by one worker |
| WorkerPool.IdleList | JavaStudyProject/src/com/manzhizhen/nio/channel/SelectSocketsThreadPool.java:68-107 | no worker is idle twice, idle and checked-out workers make up the pool, and a worker is out exactly while picked, holding a key, or about to return |
| WorkerPool.ServedIff | JavaStudyProject/src/com/manzhizhen/nio/channel/SelectSocketsThreadPool.java:131-184 | after a hand-over some schedule without a spurious wake-up of the worker drains the channel if and only if the worker had reached its first wait |
| WorkerPool.ServedSurely | JavaStudyProject/src/com/manzhizhen/nio/channel/SelectSocketsThreadPool.java:131-184 | a worker handed a key after its first wait keeps it, awake, in every schedule, until it tests the key; then it drains that channel |
| WorkerPool.HeldUnserved | JavaStudyProject/src/com/manzhizhen/nio/channel/SelectSocketsThreadPool.java:131-184 | a key handed over before is withheld on every such schedule: with its worker, read interest off, drained by nobody, the worker never idle again |
| WorkerPool.LostNotification | JavaStudyProject/src/com/manzhizhen/nio/channel/SelectSocketsThreadPool.java:71-184 | every pool has a run that loses its first channel in this way |
| WorkerPool.StaysUnserved | JavaStudyProject/src/com/manzhizhen/nio/channel/SelectSocketsThreadPool.java:131-145 | for any state, a worker that has its key without a notification to come keeps waiting with it, short of a spurious wake-up |
| WorkerPool.StepInv | JavaStudyProject/src/com/manzhizhen/nio/channel/SelectSocketsThreadPool.java:46-227 | every step of the selector and the workers keeps the pool consistent |
| WorkerPool.StepApart | JavaStudyProject/src/com/manzhizhen/nio/channel/SelectSocketsThreadPool.java:178-184 | no step gives two workers one channel |
| WorkerPool.StepPlaced | JavaStudyProject/src/com/manzhizhen/nio/channel/SelectSocketsThreadPool.java:87-106 | each worker stays in exactly one place |
| WorkerPool.NoChannelLost | JavaStudyProject/src/com/manzhizhen/nio/channel/SelectSocketsThreadPool.java:178-227 | in every reachable state a channel that was accepted and not closed either has its read interest on or is in the charge of a worker, never both; a closed one has neither |
| WorkerPool.DrainedAgain | JavaStudyProject/src/com/manzhizhen/nio/channel/SelectSocketsThreadPool.java:222-226 | after a channel was drained its read interest is on again, and from any such state some schedule selects it again and is about to hand it to a worker |
| WorkerPool.Reassign | JavaStudyProject/src/com/manzhizhen/nio/channel/SelectSocketsThreadPool.java:84-107 | while a worker is idle, every channel with read interest can be selected and assigned |
| WorkerPool.IdleIsFifo | JavaStudyProject/src/com/manzhizhen/nio/channel/SelectSocketsThreadPool.java:84-107 | workers are handed out in the order in which they have come back |
| WorkerPool.KeysInOrder | JavaStudyProject/src/com/manzhizhen/nio/channel/SelectSockets.java:66-91 | the selection loop comes to every selected key exactly once, in the order they were selected |
| BarLayout.BarsFit | JavaStudyProject/webapps/admin/js/plotkit/Layout.js:331-373 | every bar lies in the unit square, stands on its lower edge and stays within the group of its x value |
| BarLayout.BarsApart | JavaStudyProject/webapps/admin/js/plotkit/Layout.js:331-373 | bars of different x values or datasets share no interior point |
| BarLayout.TicksAreMidpoints | JavaStudyProject/webapps/admin/js/plotkit/Layout.js:512-518 | every generated x tick belongs to an x value and stands at the exact middle of its bars |
| BarLayout.GivenTicksAreMidpoints | JavaStudyProject/webapps/admin/js/plotkit/Layout.js:437-448 | a tick that is asked for keeps its label and stands at the middle of the bars its value has or would have |
| BarLayout.BarsVanishIff | JavaStudyProject/webapps/admin/js/plotkit/Layout.js:343-349 | bars have no width exactly when there are two x values, the lower one at the origin, no more than 10000000 apart |
| BarShapes.HeightsTrue | JavaStudyProject/webapps/admin/js/plotkit/Layout.js:359-368 | the bar of a point knows its values and its dataset, and its height times the range is how far the value is above the start of the axis; it hangs down to the lower edge, and without a range it has no height |
| BarShapes.HeightsCompare | JavaStudyProject/webapps/admin/js/plotkit/Layout.js:359-368 | bars compare as their values do, and exactly the greatest value reaches the top |
| BarShapes.GroupIs | JavaStudyProject/webapps/admin/js/plotkit/Layout.js:331-349 | a single x value has the whole chart, and several stand in proportion to their values, shrunk so that the last group ends within the chart |
| BarShapes.BarInGroup | JavaStudyProject/webapps/admin/js/plotkit/Layout.js:338-360 | a bar has its share of the filled part of its group, after those of the earlier datasets, and the rest is left free evenly on both sides |
| BarShapes.XdeltaIsLeast | JavaStudyProject/webapps/admin/js/plotkit/Layout.js:325-329 | the distance that groups are made for is the least one of neighbours, or the cap |
| BarShapes.TicksAreGreedy | JavaStudyProject/webapps/admin/js/plotkit/Layout.js:450-468 | which x values get a generated tick: the n-th is at the first later value that is at least n separations, as long as there is one and it is in the chart, and at most one more than asked for |
| BarShapes.AxisTicksAre | JavaStudyProject/webapps/admin/js/plotkit/Layout.js:436-468 | the x ticks: those that are asked for at the places of their values, else generated ones a separation apart, else those that stand |
| BarShapes.OriginIs | JavaStudyProject/webapps/admin/js/plotkit/Layout.js:272-284 | an axis starts where it is told to, or at zero, or at the least value there is |
| BarLayout.GroupsApart | JavaStudyProject/webapps/admin/js/plotkit/Layout.js:325-349 | groups of neighbouring x values do not overlap |
| BarLayout.GroupsFit | JavaStudyProject/webapps/admin/js/plotkit/Layout.js:331-349 | groups lie in the chart |
| BarLayout.SlotsFill | JavaStudyProject/webapps/admin/js/plotkit/Layout.js:334-349 | bars and margins fill a group exactly |
| BarLayout.EveryBar | JavaStudyProject/webapps/admin/js/plotkit/Layout.js:353-373 | every bar made is the bar of a point of a dataset |
| BarLayout.EveryPoint | JavaStudyProject/webapps/admin/js/plotkit/Layout.js:353-373 | and every point has its bar made |
| BarLayout.Layout.Evaluate | JavaStudyProject/webapps/admin/js/plotkit/Layout.js:153-159 | limits, scales, bars and ticks in order give that chart, with given axes and ticks or without |
| BarLayout.Layout.EvaluateBars | JavaStudyProject/webapps/admin/js/plotkit/Layout.js:153-157 | all of it but the ticks |
| BarLayout.Layout.EvaluateLimits | JavaStudyProject/webapps/admin/js/plotkit/Layout.js:260-288 | limits of all datasets; the start of a given axis stays, its end gives way to the data |
| BarLayout.Layout.EvaluateScales | JavaStudyProject/webapps/admin/js/plotkit/Layout.js:290-304 | scales of the ranges, 1 for an empty range |
| BarLayout.Layout.UniqueXValues | JavaStudyProject/webapps/admin/js/plotkit/Layout.js:306-315 | the distinct x values in increasing order |
| BarLayout.Layout.SmallestDistance | JavaStudyProject/webapps/admin/js/plotkit/Layout.js:325-329 | the least distance of neighbours |
| BarLayout.Layout.EvaluateBarCharts | JavaStudyProject/webapps/admin/js/plotkit/Layout.js:318-373 | placement and all bars |
| BarLayout.Layout.GenerateTicks | JavaStudyProject/webapps/admin/js/plotkit/Layout.js:456-467 | the tick loop, with its two early exits, makes the specified ticks |
| BarLayout.Layout.MakeTicks | JavaStudyProject/webapps/admin/js/plotkit/Layout.js:440-448 | one tick for each that is given, in order |
| BarLayout.Layout.EvaluateLineTicksForXAxis | JavaStudyProject/webapps/admin/js/plotkit/Layout.js:436-468 | given ticks; else ticks generated from the x values and the rough separation; none made anew if their number is 0 |
| BarLayout.Layout.CentreTicks | JavaStudyProject/webapps/admin/js/plotkit/Layout.js:512-516 | every tick moves by half the width of its group |
| BarLayout.Layout.EvaluateBarTicks | JavaStudyProject/webapps/admin/js/plotkit/Layout.js:512-518 | ticks moved to the middle of the groups |
| BarLayout.XValuesIncrease | JavaStudyProject/webapps/admin/js/plotkit/Layout.js:306-315 | strictly increasing |
| BarLayout.XValuesIn | JavaStudyProject/webapps/admin/js/plotkit/Layout.js:306-315 | none lost, none added |

## Left out

- ActiveMQ, JMS, Spring, Hessian, RMI, JNDI, HTTP, XML and reflection demos, JSP pages and beans: thin calls into libraries.
- DOM access, scheduling of the page, Internet Explorer branches other than the line break, renderers and the logging pane.
- Regular expression matching, keyword tables and the combination of patterns into one tokenizer: parameters of the lexers.
- Lexing.Decorate: assumes what `WellFormed` says of the patterns (a token is never empty, nothing is skipped, a group's text occurs in its token, and a handler given the whole token has a lower rank), because the registered patterns themselves are not modelled; and a lexer without fallthrough patterns could see the match of an earlier token, which is not modelled.
- TagExtraction.ExtractTags: starts from the chunks that the chunk pattern finds; the test for the nocode class and the unescaping of text are parameters. Tag names, breaks, comments and CDATA prefixes are modelled literally.
- PrettyPrint.ApplyDecorator: a throw is the result `TypeError`; that the source then reports it and keeps the html it was given is not modelled.
- Recombine.RecombineTagsAndDecorations: the pieces are not joined into one string.
- HtmlText.HtmlToText: the decoded character of a numeric entity is a parameter; the code skips one character after `&#`, so decimal entities lose a digit.
- CaseFold.CaseFoldRanges: starts from the parsed ranges, each with its ends in order; parsing of escapes, printing and the renumbering of back-references are not modelled. The last range is updated in the list and not through an alias.
- Deferreds.RunIsFold: callbacks do not call back into the same Deferred; an inner Deferred is named by a number and stands for the value it finally has, which DeferredSystems realises; runs with cancellations are in Cancellation.
- Deferreds.Deferred.CallCancel: a canceller either fires the Deferred or does nothing to it, and the inner Deferred that `cancel` is passed on to is returned and not called.
- DeferredSystems.SystemIsFold: callbacks return Deferreds of the system and do not register pairs on the one they are being resumed by. A resumption that leads to further ones is any sequence of single steps, so more interleavings are covered than one thread makes. No Deferred of the system is cancelled. What the continuation leaves on the awaited chain as that one's own result, which nobody can read through a callback, is not modelled.
- DeferredLists.FiresOnceIff: the list's own chain is any sequence of changes of side after firing; that it only changes side when its callbacks run is not modelled. Members complete at most once, and nobody else calls `callback` or `errback` on the list.
- DeferredLists.DeferredList.CallCancel: passing a cancellation on to a Deferred that the list's own chain awaits is not modelled, because it leaves the list as it is.
- DeferredLists.DeferredList.MemberCompletes: the two pairs stand next to each other on a member's chain and nothing is awaited between them.
- GroupBy.LazyIsCutBatch: keys are compared with one equality; the loose equality of mixed types is not modelled. Items and keys are neither null nor undefined.
- WaitChains.UnsettledIff: as for DeferredSystems.SystemIsFold.
- TeeIterators.RunReturns: `listMin` compares numbers.
- Colour.HslUndoesRgb: over the reals, without rounding.
- LatchVisits.LatchLiveness: waiting is waiting; the limit of 100 seconds is not modelled, and totals do not overflow.
- QueueVisits.StuckIffReturnedOrHung: `poll` waits instead of giving up after 10 seconds; a rejected or interrupted `put` is not modelled.
- BlockingFutures.DeadlockIff: `get` waits instead of giving up after 100 seconds, which the program reports as an exception.
- LatchVisits, QueueVisits, BlockingFutures, WorkerPool: state machines on values, without shared objects; each step is atomic and memory is sequentially consistent.
- File systems: a tree does not change while it is read, and has no links.
- ChannelCopy.CopyCompacting: a channel that stalls for ever keeps the loop running; input and output errors are not modelled.
- WorkerPool.OneDrainer: readiness is left open, accepting is one step, and no liveness is stated.
- BarLayout.Layout.Evaluate: over the reals; at least one point, and none below the start of an axis that is given or fixed at zero, since `Effective` takes the start of a given axis as it stands; the y ticks, line and pie charts and the hit test with its cache are not modelled.
