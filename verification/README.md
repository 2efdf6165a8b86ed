# Verified models of five cores

This project models, in Dafny, the parts of the web interface's server whose correctness depends on
loops, shared state or interleavings, and proves what they promise. Each module follows one component:

- **Session lineage** (`Forest`, `SessionRows`, `ContinuationWalk`, `TipSearch`, `Ordering`, `Projection`,
  `Conservation`, `SidebarColumns`, `SubagentAnchors`): state rows linked to their parents, collapsed into one sidebar row
  per conversation. `Forest` is the theory of parent links, cycles included; everything else is stated
  on the links that the concrete continuation test yields. The worklists, walks and index loops are methods.
- **Image validators** (`ByteCodec`, `Png`, `Gif`, `Webp`, `MultiPicture`, `Jpeg`, `MultiPicturePrint`,
  `MultiPictureFiles`): each container has a
  grammar with a printer. A cursor function mirrors the scan, is shown to decide the grammar in both
  directions, and the method with the loops answers exactly that.
- **Wakeup delivery** (`WakeupStore`, `WakeupProtocol`, `WakeupSafety`, `WakeupDecisions`,
  `DelegationAdmission`, `DelegationDecisions`, `DeliveryRetry`): critical sections are atomic steps of a transition system, in every interleaving. The
  history fields of the states (admitted completions, outcomes, started turns, calls on claims) only record
  what happened; no step looks at them.
- **Caches and rendezvous** (`GatewayWatcher`, `SessionListCache`, `RunRendezvous`): an epoch-fenced change
  detector, a least-recently-used cache with two-level versions, and a condition-variable rendezvous. Each is
  a class whose methods are tied to functions on values, and the results are about those.
- **Print and parse** (`DocxPreview`, `PreviewBuilder`, `DocxSave`, `WakeupPrompt`): a bounded preview builder
  and the document rebuilt from its text, and a header parser and its formatter.

`Options` and `Text` hold what several modules share.

What the environment decides is a parameter of a step or of a method: whether a session is busy, how a turn
start or a claim ends, clock readings, fingerprints, source stamps. The CRC of a PNG chunk is an arbitrary
function of its bytes; database fingerprints and snapshot hashes are functions assumed to identify what
they cover (`GatewayWatcher.Honest`).

Where the code does something else than its comments or documentation say, the model follows the code:

- A wakeup header does not always parse back: a task id that contains the fixed phrase after it is cut short.
  `PromptParsesBack` has the exact condition and `MistakenTaskId` an instance.
- Free-text events are meant to stay raw for the display. One is displayed as a header exactly when, brackets
  included, it is a formatted header itself (`MessagesStayRaw`); `MessageTakenForHeader` is an instance.
- A skipped poll is unsound when the database file is gone and the last committed snapshot was not empty. The
  stored fingerprint is then the empty one, although a projection with sessions was committed: no fingerprint was
  stored since the first of the current subscribers came (as in `SkipOfMissing`, where it could not be read), or
  the last one stored was read while the file was missing.
- A delegation claim can be resolved twice: when its acknowledgement raises although it took effect, the claim
  is released as well, and when the retry after a refusal raises, it is released again
  (`RaisedAcknowledgements`, `RaisedRetryReleasesTwice`). An acknowledgement that raises without effect is
  followed by a release only.
- Text clipped by the preview builder never reaches the separate check for clipped text in the verbatim append,
  because clipping already truncates.
- A text with tabs is rebuilt into tab elements, which the preview does not show and the editability test
  refuses: saving it is rejected after the rebuild, not before.

## Model

| member | source | states |
|---|---|---|
| Png.ScanDecides | api/helpers.py:954-1011 | The scan accepts exactly the bytes that are the signature and the print of a chunk list meeting the rules on order, kinds, lengths, header values, CRCs and image data |
| Png.IsPngMeans | api/helpers.py:979-1008 | The chunk-by-chunk rules of the scan amount to the whole-list rules of a PNG: one valid IHDR first, one empty IEND last, an IDAT in between |
| Png.IsHeader | api/helpers.py:982-1001 | The header fields are tested as they are, depths by the table of colour types |
| Png.IsCompletePng | api/helpers.py:954-1011 | The loop answers true exactly for those bytes, for any CRC function, and stays in range |
| Png.ParseIsUnique | api/helpers.py:954-1011 | An accepted byte string has one chunk list only, so parsing undoes printing |
| Png.NoAcceptedExtension | api/helpers.py:1007-1011 | Accepted bytes followed by anything are rejected |
| Gif.SubblocksEnd | api/helpers.py:1146-1155 | Finds the end of the sub-blocks exactly when the bytes from there begin with counted sub-blocks and a terminator |
| Gif.ScanDecides | api/helpers.py:1158-1207 | The scan accepts exactly the prints of pictures: header, optional table, extensions and images, at least one image, trailer last |
| Gif.IsCompleteGif | api/helpers.py:1158-1207 | The loop answers true exactly for those bytes |
| Gif.TableMeans | api/helpers.py:1165-1168 | The size of a colour table is three bytes for each of 2^(n+1) colours when its flag is set |
| Gif.ParseIsUnique | api/helpers.py:1158-1207 | An accepted byte string is the print of one picture only |
| Gif.NoAcceptedExtension | api/helpers.py:1175-1176 | Accepted bytes followed by anything are rejected |
| Webp.FrameContinues | api/helpers.py:1230-1248 | The step rules of an animation frame mean: alpha and bitstream chunks only, and exactly one bitstream, a valid one |
| Webp.FileContinues | api/helpers.py:1261-1284 | The step rules of a file mean: a valid still bitstream only before any image, valid extended header and frames, at least one image |
| Webp.ScanDecides | api/helpers.py:1251-1284 | The scan accepts exactly the RIFF files whose chunk list meets those rules, padding included |
| Webp.FrameScanDecides | api/helpers.py:1224-1248 | The same for the chunks nested in a frame |
| Webp.IsWebpImageChunk | api/helpers.py:1210-1221 | The tests of a lossy and of a lossless bitstream, one after the other, decide its soundness |
| Webp.IsCompleteWebpFrame | api/helpers.py:1224-1248 | The frame loop answers true exactly for accepted frames |
| Webp.IsCompleteWebp | api/helpers.py:1251-1284 | The file loop answers true exactly for accepted files |
| Webp.ParseIsUnique | api/helpers.py:1251-1284 | An accepted file has one chunk list only |
| Webp.NoAcceptedExtension | api/helpers.py:1256-1258 | Accepted bytes followed by anything are rejected |
| MultiPicture.DeclaresOnce | api/helpers.py:1042-1065 | An index declares at most one list of pictures |
| MultiPicture.ReadTags | api/helpers.py:1042-1047 | Reads every tag's type, count and value, and fails exactly when a tag repeats |
| MultiPicture.MpfImageRanges | api/helpers.py:1022-1065 | Returns the declared pictures exactly when the data is an index declaring them |
| Jpeg.FrameMarkers | api/helpers.py:1014-1019 | The frame markers are those from 0xC0 to 0xCF but 0xC4, 0xC8 and 0xCC |
| Jpeg.SkipScan | api/helpers.py:1126-1142 | Entropy-coded data ends at the first run of 0xFF that is not followed by a stuffed zero or a restart marker |
| Jpeg.ScanReads | api/helpers.py:1126-1142 | Data in which every run of 0xFF is stuffed, followed by a marker, is read to exactly its end |
| Jpeg.Sound | api/helpers.py:1075-1142 | What the cursor reads up to the end-of-image marker is the print of a list of well-formed segments |
| Jpeg.Complete | api/helpers.py:1075-1142 | The print of such a list is read to its end, whatever follows it |
| Jpeg.CursorDecides | api/helpers.py:1068-1143 | The cursor accepts exactly a picture that accounts for all bytes, alone or with the pictures its index declares |
| Jpeg.SingleMeans | api/helpers.py:1085-1125 | A single picture is any list of well-formed segments with a frame header and a scan among them |
| Jpeg.IsCompleteJpeg | api/helpers.py:1068-1143 | The nested loops answer true exactly for accepted bytes; they terminate and stay in range |
| Jpeg.IsTiled | api/helpers.py:1090-1099 | The loop over declared ranges accepts exactly consecutive slices that cover all bytes and are pictures each |
| Jpeg.AcceptedIsCovered | api/helpers.py:1085-1099 | An accepted file is tiled without gap or overlap by the ranges its index declares, or by itself when it has none, and each slice, the first too, is by itself a single picture |
| MultiPicturePrint.IndexReads | api/helpers.py:1028-1047 | A printed index reads back at its byte positions: header, twelve-byte fields, sixteen-byte entries, in either byte order |
| MultiPicturePrint.IndexDeclares | api/helpers.py:1042-1065 | A printed index declares its entries, later starts counted from the TIFF header, exactly when there are two or more, all baseline, of four bytes at least, the first at zero |
| MultiPictureFiles.HeaderIsThere | api/helpers.py:1110-1113 | The TIFF header lies behind start marker, earlier segments, fill bytes, marker, length and label |
| MultiPictureFiles.FirstReads | api/helpers.py:1110-1115 | A picture with one printed index declares its entries counted from that position |
| MultiPictureFiles.AcceptedExactly | api/helpers.py:1068-1143 | Single pictures in a row, the first with a printed index, are accepted if and only if the index counts them, gives each its length, and header position plus start is the offset of each later one |
| Jpeg.AcceptedIsSingle | api/helpers.py:1096-1097 | With multi-picture reading off, exactly single pictures are accepted |
| Jpeg.IndexFree | api/helpers.py:1110-1115 | A single picture without an index reads the same with multi-picture reading on |
| Jpeg.ParseIsUnique | api/helpers.py:1068-1143 | A single picture has one segment list, fill bytes and scan data included |
| Jpeg.NoAcceptedExtension | api/helpers.py:1085-1099 | Accepted bytes, single or multi-picture, followed by anything are rejected |
| Forest.OneRoot | api/agent_sessions.py:584-586 | No session is below two roots |
| Forest.EndlessMeansCycle | api/agent_sessions.py:478-489 | An upward walk goes on forever exactly when it meets some session twice |
| Forest.CoverExactly | api/agent_sessions.py:546-579 | The roots' trees hold exactly the sessions whose upward walk does not enter a cycle |
| Forest.DepthFits | api/agent_sessions.py:581 | A session's depth never exceeds the number of sessions of its tree |
| Forest.TotalIsUnion | api/agent_sessions.py:546-581 | The sizes of different roots' trees add up to the size of their union |
| SessionRows.Links | api/agent_sessions.py:404-469 | The links of a table are its continuation edges: each row has at most one, to its parent, inside the table |
| SessionRows.LinksNeedEnd | api/agent_sessions.py:451-452 | Only rows ended by compression or a close have continuations |
| SessionRows.IsContinuationSession | api/agent_sessions.py:427-469 | The tests one after the other, with the markers read key by key, decide the continuation relation that all results are about |
| SessionRows.StartDecides | api/agent_sessions.py:451-469 | Otherwise alike, a child continues an ended parent exactly when it started no more than two seconds before the end |
| SessionRows.MarkerDecides | api/agent_sessions.py:374-401 | A marker naming the parent, or an unreadable one, sets a child apart; an absent one, or one naming another session, does not |
| SessionRows.SourceDecides | api/agent_sessions.py:429-452 | Forks, tools, other sources and parents that did not end set a child apart |
| SessionRows.Score | api/agent_sessions.py:211-228 | The loop over the two values gives the first number, or zero |
| SessionRows.ScoreStandsFor | api/agent_sessions.py:211-228 | The score is the first column where that is a number, else the second, else zero |
| ContinuationWalk.EndIsUnique | api/agent_sessions.py:472-490 | The end of an upward walk, cycles or not, is unique, and so is its length |
| ContinuationWalk.ContinuationRootId | api/agent_sessions.py:472-490 | Within one iteration more than there are rows the walk reaches its end; no answer exactly for no session |
| ContinuationWalk.ContinuationRootAndDepth | api/agent_sessions.py:1502-1522 | The second walk reaches the same end and counts the segments on the way; it terminates on cycles |
| ContinuationWalk.WalksFindTheRoot | api/agent_sessions.py:472-490 | For every session of a root's tree the walk ends at that root, and its length is the depth the traversal uses |
| ContinuationWalk.WalksEndInCycle | api/agent_sessions.py:483-486 | On cyclic links a walk stops at a session of the cycle, after meeting each once |
| TipSearch.FrontierDone | api/agent_sessions.py:546-579 | Once the stack is empty the traversal has seen the root's tree and nothing else |
| TipSearch.CompressionTip | api/agent_sessions.py:523-581 | Counts the tree, finds a segment with messages that none beats by score and depth, and the project of a freshest assigned one, for any order of children |
| TipSearch.FreshestContinuationTip | api/agent_sessions.py:1524-1550 | Finds a freshest segment by its last message, and counts the tree: the larger of count and depth is always the count |
| TipSearch.TipsAgree | api/agent_sessions.py:523-581 | On the same rows both searches find tips of equal score and depth below a root with messages, when the score columns of the segments with messages agree |
| Ordering.SortStable | api/agent_sessions.py:643-646 | Sorting keeps the order of rows with equal scores |
| Projection.IndexChildren | api/agent_sessions.py:500-518 | Files every row under its parent, finds exactly the continuations, and notes parent and lineage root of each child session |
| Projection.ProjectAgentSessionRows | api/agent_sessions.py:493-647 | One entry for every visible conversation, with identity, tip, project and segment count as specified, most recent first |
| Projection.MergeRows | api/agent_sessions.py:596-641 | Overwriting the copy of the head key by key gives the entry that the results are about |
| Projection.LoneTip | api/agent_sessions.py:588-592 | A head that never ended is a conversation of one segment, so skipping the search is right |
| Conservation.SegmentsAreConserved | api/agent_sessions.py:500-581 | The segment counts of all heads add up to the number of rows whose upward walk enters no cycle |
| Conservation.AllRowsAreConserved | api/agent_sessions.py:500-581 | Without cycles they add up to the number of rows |
| Conservation.ConversationsAreDisjoint | api/agent_sessions.py:543-579 | Trees of different heads share no row |
| Conservation.SidebarIsSorted | api/agent_sessions.py:583-647 | The projected rows are sorted and no id occurs twice |
| Conservation.SidebarIsFaithful | api/agent_sessions.py:583-647 | Every visible conversation is shown, and nothing else |
| Conservation.VisibleExactly | api/agent_sessions.py:532-594 | A conversation is visible exactly when some segment has messages, and its head has too or that segment's score is not negative |
| Conservation.EntryIsOptimal | api/agent_sessions.py:532-640 | The entry leads to a segment with messages that none beats; it carries the project of an assigned segment that none beats when some assignment can decide (score at least -1, or a head that never ended), and its head's own otherwise |
| SidebarColumns.ShownTipIsLatest | api/agent_sessions.py:532-581 | No segment with messages has a later last activity than the shown one, and none as late lies deeper; starts stand in where the activity is no number |
| SidebarColumns.ShownTipHasLastActivity | api/agent_sessions.py:554-572 | When all those activities are numbers, the shown segment has the greatest |
| SidebarColumns.FreshestIsLatest | api/agent_sessions.py:1524-1550 | The other search finds a segment with the latest last message in the same sense |
| SidebarColumns.SidebarGoesByActivity | api/agent_sessions.py:643-646 | Later entries have no later last activity, or start where that is no number |
| SidebarColumns.EntryLooks | api/agent_sessions.py:596-640 | Which columns of an entry are its head's and which its tip's; title and source by the kind of the tip |
| Conservation.LinkNamesTheHead | api/agent_sessions.py:513-518 | The lineage root noted on a child session is the head of its parent's conversation |
| SubagentAnchors.AddSubagentAnchors | api/agent_sessions.py:1080-1098 | The result begins with the slice, repeats no id, adds projected rows only, and is the least set closed under subagent parents; it terminates on cycles |
| SubagentAnchors.RunsAsSubagent | api/agent_sessions.py:1085 | The raw source decides, or the source where there is none |
| WakeupStore.Store.Record | api/background_process.py:1513-1547 | Queues a wakeup unless its process is queued already; queues never name a process twice |
| WakeupStore.Store.Claim | api/background_process.py:1550-1572 | Takes all of a session's wakeups and leaves none |
| WakeupStore.Store.DrainIdle | api/background_process.py:1595-1657 | Without interference the first wakeup is to be started and the rest stay queued, in order and none lost |
| WakeupStore.RecordNext | api/background_process.py:1638-1643 | Queueing a claimed list's next entry again appends it and touches no other session |
| WakeupSafety.StepKeeps | api/background_process.py:1413-1506 | Every step of drain thread, wakeup threads and teardowns keeps each wakeup's place, the gates, the prompts and the log of turns right |
| WakeupDecisions.LookDecides | api/background_process.py:1475-1506 | In every run an idle look is followed by a spawn that puts the wakeup into a thread, with its session and prompt, and a busy look by a deferral into its session's queue |
| WakeupDecisions.SilentEnds | api/background_process.py:1473-1475 | A completion without a prompt starts and queues nothing |
| WakeupDecisions.OnlyDuplicatesAreDropped | api/background_process.py:1413-1432 | In every run the gates drop a completion only if one of its process was admitted before or taken by another consumer |
| WakeupDecisions.FreshIsAdmitted | api/background_process.py:1427-1443 | What the gates let through is admitted with its session, process and prompt, and remembered |
| WakeupDecisions.ConsumedIsDropped | api/background_process.py:1413-1416 | Once a process was marked as consumed, here or elsewhere, every completion of it that is checked later is dropped |
| WakeupDecisions.AnswersAreLogged | api/background_process.py:1751-1793 | Only an accepted turn is a started one, a paused one is paused, others fail, and a lost race is no end |
| WakeupDecisions.BusyTeardownLeaves | api/background_process.py:1601-1602 | A teardown that finds its session busy changes nothing and is over |
| WakeupDecisions.IdleTeardownPeeks | api/background_process.py:1601-1607 | One that finds it idle peeks, and goes on to claim exactly when the queue is not empty |
| WakeupDecisions.PeekedTeardownClaims | api/background_process.py:1609-1634 | The claim takes the whole queue as it is then, oldest first, and leaves the other queues alone |
| WakeupDecisions.OwnerGoesOn | api/background_process.py:1635-1649 | The rest goes back in order, and then the oldest is started in its session |
| WakeupDecisions.OldestIsDelivered | api/background_process.py:1594-1649 | After any run, an undisturbed teardown of an idle session leaves its oldest wakeup in a thread, the others in the queue in their order, and nothing else changed |
| WakeupSafety.WakeupsLiveOnce | api/background_process.py:1413-1443 | After any interleaving every admitted completion's wakeup is in exactly one place: drain thread, one queue, one teardown's hands, one thread, or its outcome |
| WakeupSafety.TurnsStartOnce | api/background_process.py:1747-1793 | After any interleaving no wakeup and no process started two turns, and every turn ran its completion's prompt in its session |
| WakeupSafety.ConflictRequeues | api/background_process.py:1760-1769 | A turn start that lost a race puts the wakeup back into its own session's queue |
| WakeupSafety.QueueingAppends | api/background_process.py:1532-1541 | The duplicate test on queueing never swallows a wakeup that is held elsewhere |
| DelegationAdmission.AdmissionHasOneOwner | api/background_process.py:1147-1267 | After any interleaving a session is in flight exactly when somebody owns its slot, and then exactly one does |
| DelegationAdmission.OneOpenClaimPerSession | api/background_process.py:1193-1267 | At most one claim per session is neither completed nor released |
| DelegationAdmission.ResolvedExactlyOnce | api/background_process.py:1049-1122 | A claim nobody carries any more was completed or released, and exactly once if and only if no acknowledgement raised after taking effect and no retry after a refusal raised |
| DelegationAdmission.RaisedAcknowledgements | api/background_process.py:1063-1110 | Runs from the start in which an acknowledgement raises: after taking effect the claim is completed and released, without effect it is only released |
| DelegationAdmission.RaisedRetryReleasesTwice | api/background_process.py:1077-1110 | A run from the start in which the retry after a refusal raises and the claim is released twice |
| DelegationAdmission.SlotIsOnItsWayOut | api/background_process.py:1208-1267 | Whatever a slot's owner does next, the slot is released, handed to a started thread, or nearer to that |
| DelegationAdmission.OwnersCanGoOn | api/background_process.py:1116-1122 | The owner of a slot always has a next step |
| DelegationAdmission.SlotGetsFree | api/background_process.py:1201-1267 | From every reachable state at most ten steps of a slot's owner, and of the thread it starts, leave the slot free, without any step of others |
| DelegationDecisions.OwnStepsFollow | api/background_process.py:1179-1267 | In every run the next step of the drain thread or of a wakeup thread is the one its last answer calls for, whatever happens in between |
| DelegationDecisions.DeferringIsFree | api/background_process.py:1179-1199 | A busy session, or a taken slot, costs neither slot nor claim |
| DelegationDecisions.StepsMakeCalls | api/background_process.py:1049-1122 | Which steps complete or release a claim, and whose, and which step adds one |
| DeliveryRetry.ClaimIsRemembered | api/process_event_utils.py:178-190 | An accepted id stays refused until it is released or as many others as the limit were accepted |
| DeliveryRetry.LocalClaims.Claim | api/process_event_utils.py:178-185 | Accepts an id exactly when it is not remembered, and remembers it |
| DeliveryRetry.LocalClaims.Release | api/process_event_utils.py:188-190 | Forgets that id and no other |
| DeliveryRetry.EarliestBounds | api/process_event_utils.py:211-222 | The armed deadline is one that was asked for, and none is earlier |
| DeliveryRetry.RestoreSweep.Arm | api/process_event_utils.py:193-255 | Afterwards one current timer is armed, no later than asked and no later than before |
| DeliveryRetry.RestoreSweep.Fire | api/process_event_utils.py:225-249 | Only the current generation sweeps; a failed sweep is armed again and a cancelled timer changes nothing |
| DeliveryRetry.AdmissionSlots.TryReserve | api/background_process.py:1147-1158 | Succeeds exactly when the slot was free, and takes it |
| GatewayWatcher.SkipIsSound | api/gateway_watcher.py:374-386 | After any interleaving, when a poll skips, the last committed snapshot is the current projection if and only if the database is there or that snapshot is empty; and the last projection is less than 60 seconds old |
| GatewayWatcher.SkipOfMissing | api/gateway_watcher.py:376-386 | A run that skips although the database was removed and sessions are still shown |
| GatewayWatcher.EpochFence | api/gateway_watcher.py:306-316 | After the last subscriber left, any further run goes as if the earlier poll were not there: same subscribers, queues, cached fields and history |
| GatewayWatcher.NextPollProjects | api/gateway_watcher.py:356-388 | The first poll admitted after that projects, whatever its fingerprint, once past the missing-database guard |
| GatewayWatcher.NothingBeforeDatabase | api/gateway_watcher.py:364-372 | As long as there was never a database no run publishes anything |
| GatewayWatcher.GuardPasses | api/gateway_watcher.py:367-372 | With a database, or once something was projected, the guard lets every poll pass |
| GatewayWatcher.DisappearanceIsPublished | api/gateway_watcher.py:363-366 | After any run, a poll past the skip test that finds the database gone commits the empty list as news, readable or not, when there was something to show |
| GatewayWatcher.NobodyListens | api/gateway_watcher.py:356-361 | With nobody subscribed no poll starts and the last snapshot stays, until somebody subscribes |
| GatewayWatcher.NobodyHangs | api/gateway_watcher.py:263-304 | Once a stop sent its sentinels, every subscriber, early or late, has a sentinel to read or has read it, in every interleaving |
| GatewayWatcher.NoNewsIsSilent | api/gateway_watcher.py:394-402 | A projection equal to the last one is told to nobody and only remembered as made |
| GatewayWatcher.StepKeeps | api/gateway_watcher.py:349-403 | Every step keeps the stored fingerprint no newer than the committed projection, and hash, snapshot and projection time in agreement |
| GatewayWatcher.PollTells | api/gateway_watcher.py:391-402 | An undisturbed poll with news keeps exactly the subscribers with room, and each has the news last in its queue; a dropped one has the sentinel last exactly when its reader made room |
| GatewayWatcher.Watcher.Subscribe | api/gateway_watcher.py:283-304 | Adds a subscriber with an empty queue, or with the sentinel when the watcher was stopped |
| GatewayWatcher.Watcher.Stop | api/gateway_watcher.py:263-273 | Sets the flag and gives every subscriber the sentinel, waiting for room where the queue is full |
| GatewayWatcher.Watcher.RemoveSubscriber | api/gateway_watcher.py:306-316 | Removes a known subscriber; the last removal opens an epoch and forgets fingerprint and projection time |
| GatewayWatcher.Watcher.NotifySubscribers | api/gateway_watcher.py:323-347 | Tells the subscribers of the poll's own epoch only, drops those whose queue is full, and offers these the sentinel |
| GatewayWatcher.Watcher.StoreProjection | api/gateway_watcher.py:391-401 | Commits unless fenced off, and answers whether there is news |
| GatewayWatcher.Watcher.PollOnce | api/gateway_watcher.py:349-403 | A poll projects exactly when it has subscribers, is past the guard, does not skip and can read; otherwise nothing changes |
| SessionListCache.VersionTells | api/route_session_list_cache.py:405-434 | A key's version pair stays the same without a covering clear and strictly increases lexicographically with one, so an old pair never returns |
| SessionListCache.OrderedTouch | api/route_session_list_cache.py:398-401 | After a touch the order has all keys once, and is within the cap or one oldest key over it |
| SessionListCache.ByUseTouch | api/route_session_list_cache.py:349-353 | A touched key is last, and the order stays strictly increasing in the time of last use |
| SessionListCache.Cache.MoveToEnd | api/route_session_list_cache.py:349-353 | A hit makes its key the most recently used one |
| SessionListCache.Cache.InvalidationStamp | api/route_session_list_cache.py:427-434 | Reads the version pair of the clears so far |
| SessionListCache.Cache.Set | api/route_session_list_cache.py:377-402 | A write with a stamp lands exactly when no covering clear happened since the stamp was read; when the cap is exceeded the entry used longest ago goes, and no other |
| SessionListCache.Cache.Invalidate | api/route_session_list_cache.py:405-420 | A clear drops exactly the entries it covers and counts for their versions |
| SessionListCache.Cache.Get | api/route_session_list_cache.py:325-355 | Fresh exactly for an unchanged source within the lifetime; stale entries are handed out only when allowed and dropped otherwise; what is handed out is used now |
| RunRendezvous.WaitersAreCounted | api/gateway_chat.py:132-164 | After any interleaving the waiter count is the number of threads inside the wait, and the entry never disappears under one |
| RunRendezvous.NothingIsLeft | api/gateway_chat.py:105-124 | Once the owner is done and the last waiter left, neither map holds the stream; before that its entry is there |
| RunRendezvous.ReportsArePublished | api/gateway_chat.py:132-156 | A waiter reports a run id only if it was published for its stream |
| RunRendezvous.PublishedIsReported | api/gateway_chat.py:146-151 | After a publication every thread that enters or looks leaves with a structured verdict and a published id, and with that very one as long as nothing else is published |
| RunRendezvous.FailureIsReported | api/gateway_chat.py:142-145 | After a failure it leaves with a structured verdict and no id, after a fallback with an unstructured one |
| RunRendezvous.AbsentIsReported | api/gateway_chat.py:152-153 | A stream without an entry is not a structured run |
| RunRendezvous.PendingWaits | api/gateway_chat.py:154-157 | Between start and first news it has to wait until it times out, and leaves without an id then |
| RunRendezvous.RelayedIsReported | api/gateway_chat.py:146-151 | A relayed id is reported while the start is pending |
| RunRendezvous.WaitersStayInside | api/gateway_chat.py:132-164 | Who has to wait on is inside afterwards, and who decides is not |
| RunRendezvous.ReadyStays | api/gateway_chat.py:77-102 | A published run id is never replaced by a failure; only retirement ends it |
| RunRendezvous.Rendezvous.MarkStarting | api/gateway_chat.py:66-74 | Takes the start step on its stream and none on others |
| RunRendezvous.Rendezvous.PublishRunId | api/gateway_chat.py:77-87 | Takes the publish step on its stream and none on others |
| RunRendezvous.Rendezvous.FinishStarting | api/gateway_chat.py:90-102 | Takes the failure or fallback step on its stream and none on others |
| RunRendezvous.Rendezvous.RetireIfDone | api/gateway_chat.py:105-115 | Drops both maps' entries exactly when the owner is done and nobody waits |
| RunRendezvous.Rendezvous.ClearStarting | api/gateway_chat.py:118-124 | Takes the owner-done step on its stream and none on others |
| RunRendezvous.Rendezvous.RelayRunId | api/gateway_chat.py:1389-1391 | Records the run id an approval event names, without touching the life of the stream |
| RunRendezvous.Rendezvous.Consider | api/gateway_chat.py:139-157 | One round of the waiting loop, branch by branch, decides as specified |
| RunRendezvous.Rendezvous.EnterWait | api/gateway_chat.py:132-156 | A thread that enters is counted, decides as specified, and leaves at once unless it has to wait |
| RunRendezvous.Rendezvous.LookAgain | api/gateway_chat.py:139-164 | A woken thread decides again and leaves or stays counted |
| DocxPreview.TakeMeans | api/office_documents.py:209-224 | One piece is appended whole or, when it does not fit, up to the limit except for trailing whitespace, which is cut |
| DocxPreview.DecimalReads | api/office_documents.py:341-342 | Table numbers are printed in digits that read back, without leading zeros |
| DocxPreview.FeedMeans | api/office_documents.py:185-244 | A builder writes everything, or a prefix missing nothing but whitespace within the limit, and says which |
| DocxPreview.BlocksWrite | api/office_documents.py:323-366 | The builder is asked for one line per paragraph, title and row, and told to stop exactly over the block or cell limit |
| DocxPreview.PreviewIsRendering | api/office_documents.py:323-368 | The preview of any document is its unbounded rendering, unless a limit is exceeded: then and only then it is marked and shows a prefix |
| Text.StripMeans | api/background_process.py:528-529 | Stripping takes all whitespace at the ends and nothing else |
| PreviewBuilder.Builder.AppendPiece | api/office_documents.py:209-224 | Appends as specified; the recorded length is the text's length and within the limit |
| PreviewBuilder.Builder.AppendVerbatim | api/office_documents.py:264-291 | Run text is appended as it is; a full builder is truncated instead |
| PreviewBuilder.AppendElementText | api/office_documents.py:294-307 | Feeds the non-empty texts of a paragraph in order, up to the first that does not fit |
| PreviewBuilder.TextNodes | api/office_documents.py:294-297 | The nested loops give all texts of a paragraph in document order |
| PreviewBuilder.AppendCellText | api/office_documents.py:310-320 | Feeds a cell's paragraphs with line breaks between them |
| PreviewBuilder.AppendRow | api/office_documents.py:348-363 | Feeds a row's cells with tabs between them and counts them against the limit |
| PreviewBuilder.AppendTable | api/office_documents.py:344-365 | Feeds a table row by row, stopping at the first thing over a limit, and counts its cells |
| PreviewBuilder.DocxPreviewText | api/office_documents.py:323-368 | The loops with all their early exits give the specified preview |
| DocxSave.SplitJoins | api/office_documents.py:608-626 | Splitting a text into lines and joining them again loses nothing |
| DocxSave.LineEnds | api/office_documents.py:608 | Every "\r\n" and every other "\r" becomes one line end, wherever it stands |
| DocxSave.SavedKeepsSections | api/office_documents.py:621-624 | Saving keeps every section of the body as often as it is there, and adds none |
| DocxSave.SaveFails | api/office_documents.py:605-647 | Which failure is reported, for any document and content: not editable, too long, too many lines, a refused character, or a tab found after the rebuild |
| DocxSave.DocxEditability | api/office_documents.py:407-424 | The loops with their early exits decide whether a body is editable |
| DocxSave.SplitXml | api/office_documents.py:625-626 | A text has only characters a document can hold exactly when each of its lines has |
| DocxSave.InlinesSay | api/office_documents.py:625-626 | A rebuilt paragraph says its line without the tabs |
| DocxSave.SavePreviews | api/office_documents.py:589-629 | The preview of any text saved over any body is complete and is that text, line ends normalised, without its tabs |
| DocxSave.SaveIsIdentity | api/office_documents.py:605-626 | It is the very same text exactly when that has no tab and no carriage return |
| DocxSave.SaveRoundTrips | api/office_documents.py:632-646 | Saving over an editable document is accepted exactly for text within the limits, without tabs and of characters a document can hold; the new preview is that text, and saving again changes nothing |
| DocxSave.UneditedSave | api/office_documents.py:632-646 | Exactly when saving an unedited preview is accepted, and that it then keeps the text |
| DocxSave.BodyFromText | api/office_documents.py:605-626 | The loops keep section properties only and add one paragraph a line, or reject text over the limits or with a character a document cannot hold |
| WakeupPrompt.OneMatch | api/process_event_utils.py:65-76 | At each length of the task id the header expression matches in at most one way, and the parser finds that |
| WakeupPrompt.SearchDecides | api/process_event_utils.py:65-76 | The parser answers the match with the shortest task id there is |
| WakeupPrompt.HeaderParsesBack | api/background_process.py:540-584 | A formatted header parses back, whatever follows it, if and only if its parts are single lines, the exit code has no closing parenthesis, and the task id cannot be mistaken |
| WakeupPrompt.FormatIsBody | api/background_process.py:540-584 | The two formatted texts are made of the parts that the header expressions look for |
| WakeupPrompt.PromptParsesBack | api/process_event_utils.py:79-118 | The same for the display data of whole completion and watch-match prompts, with either kind tried first as in the code |
| WakeupPrompt.PromptCarriesOutput | api/background_process.py:509-515 | Behind the header comes the output, whole or its first 4000 characters and a note, then the note on suppressed matches if any, and the bracket |
| WakeupPrompt.FormatsUnlessEmpty | api/background_process.py:533-575 | Only an empty message and a completion with nothing in it are not formatted |
| WakeupPrompt.MessagesStayRaw | api/process_event_utils.py:59-118 | A free-text event is displayed as a header if and only if, brackets included, it is a formatted header with single-line parts |
| WakeupPrompt.MessageTakenForHeader | api/background_process.py:533-538 | A free-text event that is displayed as a completion |
| WakeupPrompt.MistakenTaskId | api/background_process.py:580-584 | A completion whose task id is displayed wrongly |

## Left out

- Projection.ProjectAgentSessionRows: rows have different, non-empty ids. What the original writes into the row dictionaries in place (relationship, parent title and source, lineage root) is a value of its own here, so aliasing between rows and entries is not modelled.
- Projection.SortKids: the order of children is by numeric start time, text start times counting as zero; no result depends on the order.
- SessionRows.Links: only ASCII letters are lower-cased, text times are either numbers or not, and a score is never NaN.
- GatewayWatcher.SkipIsSound: the fingerprint is taken to cover all the projection shows. The real one omits message roles; such changes are found by the next projection, at most 60 seconds and a poll later. The three unlocked reads of the skip test are one step; only a removal can come between them, and then the poll projects or ends.
- GatewayWatcher.Watcher.Stop: starting a stopped watcher again is not modelled, nor the wait for its thread.
- GatewayWatcher.PollTells: that every change reaches every subscriber is not claimed: the hash is committed before subscribers are told, and a fenced notification is dropped.
- WakeupSafety.WakeupsLiveOnce: that a deferred wakeup is ever delivered is not claimed: the busy test and the queueing are separate steps. The next-turn drain of the streaming module appears only as processes consumed elsewhere.
- WakeupSafety.StepKeeps: assumes that the process registry is there and its helpers do not raise; event routing, live events and the pending markers are not part of the state.
- DelegationAdmission.ResolvedExactlyOnce: claims, completions and releases are outcomes of calls into the agent; their durable budget and database are not modelled. An acknowledgement or release that fails silently counts as made, since its callers cannot tell.
- DeliveryRetry.RestoreSweep.Arm: the restored records and the queue they go to are not modelled, only deadlines and generations.
- SessionListCache.Cache.Set: profiles match when they are equal. That a fresh hit equals a rebuild is not claimed, since the source stamp is taken when the payload is stored; payload copies and bounds are left out.
- RunRendezvous.Rendezvous.EnterWait: a time-out is a parameter of each look, and notifications are not modelled, so nothing is said about how soon a waiter wakes.
- DocxSave.SaveRoundTrips: paragraph and section properties are one flag each. Archive limits and the package around the body are not modelled.
- WakeupPrompt.PromptParsesBack: the exit code is compared as text; turning it into a number is left out, and so are delegation prompts, which the agent formats.
- Png.ScanDecides: the CRC is an arbitrary function. BMP files and the base64 wrapper around images are left out.
- Reading rows from SQLite, schema probing and the SQL project filter, which does not use the same continuation test.
- The streaming of gateway runs, session writeback, spreadsheets and slides, and the smaller trackers.
