# Point: a verified model of its stateful core

Point is a photo blog: a Go server, a TypeScript frontend, and a static demo whose
mock server runs in the visitor's browser. This project models the parts of it that
hold state, walk graphs or rewrite text, and proves what those parts are there for.

| file | what it models |
|---|---|
| `LiveAssets.dfy` | the live reload of the built frontend as a state machine: concurrent calls, a mutex, an atomic snapshot pointer and builds that write the watched files at any moment |
| `AssetServer.dfy` | the code of that reload, with others acting before each of its accesses, as runs of the state machine |
| `Watch.dfy` | the rebuild scheduler of `run.sh --watch`: debounce timer, pending set, drain loop, build and server processes, shutdown |
| `Reachability.dfy`, `TagGraph.dfy` | the tag graph: the breadth-first walk behind hidden tags and the depth-first walk behind tag pages |
| `Feeds.dfy`, `Atlas.dfy`, `Paging.dfy` | what guests and the owner are shown: feeds, tag pages, lists, the atlas and the year-narrowed graph, and the two-sided paginator |
| `Plugins.dfy`, `PluginHandlers.dfy`, `ToggleRaces.dfy` | the slot rules for plugins, their normalisation in the server and in the demo, the handlers that toggle plugins and apply presets, and two toggles at one time |
| `ReactiveStore.dfy` | the frontend's store: re-entrant publish and subscribe, selectors, shallow merge |
| `Persistence.dfy` | how the demo carries a visitor's edits from document to document |
| `SqlSplit.dfy`, `SqlWords.dfy` | the cut of `schema.sql` into statements, and what it means for the words of a script |
| `Csp.dfy` | the Content-Security-Policy header and its per-request splice, read back by the parser of section 2.2.1 of Content Security Policy Level 3 |
| `Ladder.dfy`, `Srcset.dfy`, `ImgTags.dfy` | the image widths on offer and the pass that writes them into rendered HTML |
| `Pool.dfy` | the bounded worker pool of the demo generator |
| `Prelude.dfy`, `Text.dfy` | sequences and strings |

## How the model relates to the code

Code that only computes is a function. Code that changes things step by step is a
method or a class, and each method is tied to a function of its inputs or of the old
state; what the system promises is then proved about that function over every input
or every run. Where others act in the middle of a function — goroutines and builds
between two file accesses of `forShell`, callbacks inside `set`, events between two
awaits of `drain` — there is a state machine with one step for each access, call or
event. A run is any sequence of enabled steps, and the methods of the classes
`AssetServer.Server`, `Watch.Watcher`, `ReactiveStore.Store`, `Persistence.DemoTab`
and `Pool.SharedPool` are proved to move as the machine does.

What is assumed, and where:

- Live reload: freshness, and only freshness, rests on the stamps: no write gives a
  watched file a stamp (size, mtime) that file had before. That is exactly what it
  needs (`FreshExactlyIfStampsDiffer`): as soon as a stamp comes back, some run serves
  an old version. A missing file has the zero stamp, so a watched file that is missing
  twice is such a case; `RemovedFileIsServed` is a run in which a removed file goes on
  being served, although equal stamps always stood for equal contents. That snapshots
  never step back, reloads never overlap and are bounded by the writes holds in every
  run. Only the three watched files count.
- Tag graph: tag ids are unique where the depth-first walk is concerned, and slugs
  where a tag page is compared with a marker. Dates are integers.
- Plugins: plugin ids in the registry are unique and no rule is filed under the empty
  slot. Settings writes may fail at any point; `history` records the table after each
  write that succeeded. The handlers, and the runs of `EveryRunStaysValid`, serve one
  request at a time. The server has no lock that makes it so: `ToggleRaces.dfy` lets
  two toggles run at once and gives the exact condition under which every order of
  their accesses ends in a valid configuration.
- Demo: writes to the session storage succeed and handlers do not throw. Builds with
  one `recordedAt`, or with none, hold one content (`StampsIdentify`), which is what
  the snapshot's own check takes for granted; `UndatedBuildStaysHidden` says what a
  visitor sees otherwise.
- Images: pixel arithmetic is exact where the code uses 64-bit floats.

Where code and documentation part, the model follows the code:

- `shallowEqual` says "same keys", but it compares only the number of keys and the
  values under the keys of its first argument. It decides equality against every
  second object exactly if the first holds undefined under no key
  (`ShallowEqualIsExact`). Its one caller, `merge`, passes a second object that has
  every key of the first, so a pair such as `ShallowEqualMissesAKey` never reaches it
  (`ShallowEqualIsEquality`, `OverlayIsSame`).
- On a signal the watcher waits for its server before it exits. If the signal comes
  while a drain waits for the old server to end, there is no server to wait for, and
  the watcher exits before that process does (`ServerCanOutliveTheWatcher`); it leaves
  no other behind (`WhatExitLeavesBehind`).
- The narrowed graph's comment has edges only ever join surviving nodes, but the post
  of a membership edge is looked up in the store and not among the recorded posts, so
  an edge may outlive its post node (`EdgeOutlivesItsPost`). `EdgesJoinSurvivors`
  gives the exact condition, which a recording with the posts of all its edges meets
  (`CompleteRecordingStaysComplete`). The server writes each edge together with its
  post (api/internal/services/pageview/graph.go:196-221), so what it records is of
  that kind. A recording without posts keeps its membership edges unfiltered
  (`WithoutPostsEdgesStay`).
- A guest's feed may hold posts of status `page`, which the owner's own feed leaves
  out. `GuestFeedIsOwnersPublished` states that the two agree exactly if there are
  none.
- The demo rejects a snapshot of another build but does not remove it. If an older
  build comes back, so do the edits made under it (`RolledBackBuildRevivesEdits`).
  `TabIsOneStore` says exactly which runs go right: those in which no navigation
  brings back a snapshot that differs from what its build holds. Builds that do not
  come back never do (`NewBuildsNeverRevive`).
- The sanitiser of operator sources keeps words with letters outside ASCII, and the
  standard makes a browser skip a whole directive that holds one. The policy is read
  back in full exactly if every kept source is ASCII (`BrowserReadsThePolicy`,
  `ForeignSourceDropsScriptSrc`).
- With a limit of 0 the worker pool ends at once with no results
  (`AllResultsAtTheEnd`).

## Model

| member | source | states |
|---|---|---|
| LiveAssets.ServesFreshFiles | api/cmd/api/assets.go:266-285 | in every interleaving of builds and requests, a call returns for each watched file a version no older than the one on disk when it began, and none from the future |
| LiveAssets.NeverStepsBack | api/cmd/api/assets.go:273-285 | in every run, whatever the stamps, a published snapshot is never older in any file than an earlier one, and neighbours carry different stamps |
| LiveAssets.ReloadsNeverOverlap | api/cmd/api/assets.go:236-243 | in every run no two calls rebuild a snapshot at one time |
| LiveAssets.EachReloadIsNews | api/cmd/api/assets.go:277-282 | the k-th snapshot after startup has seen at least k writes |
| LiveAssets.ReloadsAreBoundedByWrites | api/cmd/api/assets.go:222-231 | in every run there are no more reloads than writes to watched files |
| LiveAssets.LoadsAreBoundedByWrites | api/cmd/api/assets.go:273-285 | in every run no more loads are begun, and no more snapshots stored, than one for the startup and one for each write |
| LiveAssets.LoadsAreStored | api/cmd/api/assets.go:281-282 | every load begun was stored, but for the one that may be under way |
| LiveAssets.PublishStores | api/cmd/api/assets.go:281-284 | right after a call has stored its snapshot, the one in force is the one that call returns |
| LiveAssets.ReturnedWasStored | api/cmd/api/assets.go:268-285 | in every run, with the switch and without, what a call returns was stored |
| LiveAssets.OneReloadIsEnough | api/cmd/api/assets.go:222-231 | a call that took the lock and gave it back while nothing was written returns the snapshot then in force, which carries the files' stamps; while nothing is written after that, nobody reads a file or stores a snapshot, and a call that begins takes no lock and returns that same snapshot |
| LiveAssets.SettledCallsAreFast | api/cmd/api/assets.go:268-272 | the same from any state in which the snapshot in force carries the files' stamps |
| LiveAssets.NobodyIsStuck | api/cmd/api/assets.go:268-285 | in every run a call that has not returned can go on, or waits for the lock while its holder can go on, and has 18 steps of its own before it at most |
| LiveAssets.StepsAreFew | api/cmd/api/assets.go:268-326 | each of its own steps brings a call nearer to its return |
| LiveAssets.SameStampsSameVersions | api/cmd/api/assets.go:270-279 | equal stamps mean equal versions, if stamps are not reused |
| LiveAssets.StepKeeps | api/cmd/api/assets.go:268-326 | every step of every call and every write keeps the invariant, with no assumption on stamps |
| LiveAssets.StepIsFresh | api/cmd/api/assets.go:268-285 | while no stamp repeats, no step hands a call a snapshot older than its start |
| LiveAssets.FreshExactlyIfStampsDiffer | api/cmd/api/assets.go:222-231 | for any history of the files, every returned call of every run over it is fresh if and only if no file has one stamp twice |
| LiveAssets.UnseenWriteIsServedStale | api/cmd/api/assets.go:268-295 | a run to any version whose stamp the file had at any earlier one, at the end of which a call has returned the earlier version |
| LiveAssets.RemovedFileIsServed | api/cmd/api/assets.go:287-326 | a file missing at the first stat, written before it is read and removed again: the next call returns the removed version |
| LiveAssets.RepeatedStampIsServedStale | api/cmd/api/assets.go:287-295 | wherever the snapshot in force carries the files' present stats, a write that repeats its file's stamp goes unseen: the next call returns the replaced version |
| LiveAssets.WithoutReloadNothingChanges | api/cmd/api/assets.go:222-226 | without the switch every call returns the startup snapshot |
| AssetServer.Server.ForShell | api/cmd/api/assets.go:266-285 | the code, with any steps of others before each of its accesses, is a run of the machine; it returns a stored snapshot as new as the files were when the call began, or is still waiting for a lock that another call holds; undisturbed and with the lock free it returns one |
| AssetServer.Server.ForShellRun | api/cmd/api/assets.go:268-285 | the call begins once, and ends returned with a stored snapshot, or waiting for a lock that another call holds; undisturbed and with the lock free it always returns |
| AssetServer.Server.Reload | api/cmd/api/assets.go:273-284 | from the lock to the unlock; also the whole of `newLiveAssets`; the snapshot it returns was stored |
| AssetServer.Server.Rebuild | api/cmd/api/assets.go:278-284 | the snapshot in force if its stamps match, else a new one under the stamps taken before the files were read, which is then in force |
| AssetServer.Server.StatFiles | api/cmd/api/assets.go:287-295 | one stat for each watched file, others acting between them |
| AssetServer.Server.Load | api/cmd/api/assets.go:300-326 | each file read once, in the order the code opens them, others acting between them |
| AssetServer.ReturnedFresh | api/cmd/api/assets.go:266-285 | a run in which a call began and returned gave it a snapshot at least as new as the files at its start |
| Watch.OneBuildOneServer | scripts/watch.ts:126-196 | in every run at most one build and at most one live server |
| Watch.NothingStartsAfterStopping | scripts/watch.ts:172-188 | once stopping, no build and no server is started |
| Watch.NoEditIsForgotten | scripts/watch.ts:157-196 | until it stops, an edit has a later build of its kind, or is pending with a timer or a drain to serve it, or is left in the batch being built |
| Watch.AtRestEverythingIsBuilt | scripts/watch.ts:167-196 | with no timer and no drain, every edit was built after it was made and the server is newer than the last good Go build |
| Watch.OnlyGoBuildsReplaceTheServer | scripts/watch.ts:179-189 | in every run a Go build succeeded between any two servers started, and there is one start for each process there has been |
| Watch.ServerChangesOnlyThen | scripts/watch.ts:126-192 | the running server is let go by the end of a successful Go build, its own exit and the first signal, and taken on when its predecessor is gone: by no other event; a process is added by nothing else |
| Watch.FailedBuildKeepsServer | scripts/watch.ts:180-184 | the end of a failed build leaves the server and every process alone |
| Watch.NoBuildWithoutAnEdit | scripts/watch.ts:161-196 | in every run no kind is built more often than it was edited |
| Watch.FrontendFirst | scripts/watch.ts:75-77 | within a batch stylesheets come first and the server last |
| Watch.EditsAndSignals | scripts/watch.ts:161-165 | an edit is queued and arms the timer whatever is going on; the first signal disarms it and waits for the server, later ones do nothing |
| Watch.WhatExitLeavesBehind | scripts/watch.ts:254-261 | when the watcher exits, a server process that has not ended is one that a drain was waiting for |
| Watch.ServerCanOutliveTheWatcher | scripts/watch.ts:254-261 | a signal while the old server is waited for ends the watcher with that server still running |
| Watch.StepKeeps | scripts/watch.ts:126-196 | every event keeps the invariant |
| Watch.StepDropsWeight | scripts/watch.ts:161-196 | every event but an edit or a signal brings the watcher nearer to rest |
| Watch.QuietRunsAreShort | scripts/watch.ts:167-196 | without edits and signals a run has a bounded length |
| Watch.NeverStuck | scripts/watch.ts:141-196 | while work is left and it is not stopping, some event can happen |
| Watch.InOrder | scripts/watch.ts:77-173 | the pending kinds are built once each, in the fixed order |
| Watch.Watcher.StartServer | scripts/watch.ts:129-139 | changes the variables as the step of the model does |
| Watch.Watcher.StopServer | scripts/watch.ts:141-153 | changes the variables as the step of the model does |
| Watch.Watcher.Schedule | scripts/watch.ts:161-165 | an edit event: the kind is pending and the timer armed anew |
| Watch.Watcher.OnTimer | scripts/watch.ts:164-172 | a timer event: a drain starts unless one is running |
| Watch.Watcher.Resume | scripts/watch.ts:172-195 | the drain loop up to its next wait |
| Watch.Watcher.OnBuildEnd | scripts/watch.ts:179-192 | the end of a build, good or failed |
| Watch.Watcher.OnReplaced | scripts/watch.ts:186-189 | the old server is gone: a new one starts unless stopping |
| Watch.Watcher.OnExit | scripts/watch.ts:132-138 | a server's exit, wanted or not |
| Watch.Watcher.OnSignal | scripts/watch.ts:254-262 | a signal: stopping, timer cleared, server told to stop |
| Reachability.Spread | demo/mock/routes.ts:132-150 | on any graph the breadth-first walk ends and yields exactly what the root reaches |
| Reachability.ClosedHoldsReach | demo/mock/routes.ts:132-150 | a child-closed set holds whatever its members reach |
| TagGraph.HiddenIsLeastClosed | demo/mock/routes.ts:132-162 | the hidden ids are the least child-closed set with the directly hidden tags, cycles and dangling children included |
| TagGraph.Compute | demo/mock/routes.ts:132-162 | `hiddenSets` computes the hidden and post-hiding ids and slugs, and `via` for every tag |
| TagGraph.ViaIsFirst | demo/mock/routes.ts:140-160 | `via` names the first hidden tag in list order, other than the tag itself, that reaches it |
| TagGraph.MarkVia | demo/mock/routes.ts:140-160 | one hidden tag's turn extends `via` to the prefix that includes it |
| TagGraph.TagSubtree | demo/mock/routes.ts:398-411 | the depth-first list has no repeats and holds exactly the existing tags the tag reaches |
| TagGraph.Walk | demo/mock/routes.ts:401-408 | one recursive call adds exactly the tags below its tag that the shared list lacks |
| TagGraph.RunBothWalks | demo/mock/routes.ts:132-162 | both walks run on one list of tags: an existing tag is hidden exactly if the depth-first list of a directly hidden tag holds it |
| TagGraph.HiddenIsUnionOfSubtrees | demo/mock/routes.ts:398-411 | any lists with the members `tagSubtree` promises hold, between them, exactly the hidden existing tags |
| Feeds.GuestsSeeOnlyPublicPosts | demo/mock/routes.ts:165-223 | every post a guest gets from the home, tag, list, slug, id and cloud reads has a public status and no tag at or below a `hides_posts` tag |
| Feeds.GuestPagesArePublic | demo/mock/routes.ts:320-364 | the same for every page of the home feed and of a tag page with its own queue, and a guest never gets left of page 1 |
| Feeds.CloudPostsArePublic | demo/mock/routes.ts:516-528 | the posts of a place's cloud are public for a guest |
| Feeds.TagRowsArePublic | demo/mock/routes.ts:443-449 | the posts of a tag page are public for a guest |
| Feeds.ListRowsArePublic | demo/mock/routes.ts:1108-1115 | the rows of the list endpoint are public for a guest, whatever filters it has |
| Feeds.CarriesIsTheRule | demo/mock/routes.ts:165-167 | the slug test is the visibility rule over the graph |
| Feeds.GuestFeedIsOwnersPublished | demo/mock/routes.ts:182-198 | a guest's feed is the owner's published posts that pass the tag test if and only if no readable post has status `page` |
| Feeds.HidingOnlyRemoves | demo/mock/routes.ts:172-198 | a new `hides_posts` flag or child edge only takes posts out of the guest's feed posts and keeps the order of the rest |
| Feeds.HidingOnlyRemovesRows | demo/mock/routes.ts:190-198 | the same of the guest's home rows after the sort: the old rows in their order, less those that carry a hiding slug now |
| Feeds.MoreHidingSlugs | demo/mock/routes.ts:132-162 | a new flag or edge only adds to the slugs that hide posts |
| Feeds.QueueIsInOrder | demo/mock/routes.ts:200-212 | the queue is exactly the scheduled posts, soonest first, and only the owner's |
| Feeds.QueueIsSoonestFirst | demo/mock/routes.ts:200-212 | in the queue an earlier date comes first, a post without one last, and of one date the older |
| Feeds.RowsAreNewestFirst | demo/mock/store.ts:648-652 | the home page, a tag's page, the list and the cloud are in descending order of dates |
| Feeds.ByNewestOrders | demo/mock/store.ts:648-652 | the sort keeps the posts, puts the newest first and keeps the order of posts of one date |
| Feeds.CloudIsTheNewest | demo/mock/routes.ts:516-528 | the cloud holds the ten newest posts of its place, or all if there are no more |
| Feeds.CloudMeans | demo/mock/routes.ts:516-528 | the posts it is taken from are those of the feed below the tag and in the years |
| Feeds.FeedMeans | demo/mock/routes.ts:182-198 | the home rows are exactly the owner's published and hidden posts, or for a guest exactly the public ones |
| Feeds.TagPageMeans | demo/mock/routes.ts:443-459 | a tag's page holds exactly the feed posts at or below the tag, its queue exactly the owner's scheduled ones; an unknown tag has neither |
| Feeds.ListMeans | demo/mock/routes.ts:214-223 | the list holds exactly the readable posts that pass the status, tag and search filters |
| Feeds.ReadOneMeans | demo/mock/routes.ts:1049-1060 | the first post that matches is given to the owner, and to a guest exactly if it is public; never another in its place |
| Feeds.ReadNone | demo/mock/routes.ts:1092-1106 | nothing is given where no post matches |
| Feeds.YearsSplit | demo/mock/store.ts:686-697 | a range of years is the two ranges it splits into, a year tag at either end counts, and an open end takes every post |
| Feeds.QueueOnlyWithoutYears | demo/mock/routes.ts:327-333 | with a range of years the queue is left out and only the rows of those years are paged; without one all rows are, the queue before them |
| Atlas.AncestorsStay | demo/mock/routes.ts:634-666 | for owner and guest, an ancestor of a kept tag that store and recording both have is kept with a count at least as large |
| Atlas.HierarchyEdgesJoinSurvivors | demo/mock/routes.ts:668-674 | a hierarchy edge survives exactly if both its ends do |
| Atlas.WhichMembershipEdgesStay | demo/mock/routes.ts:676-692 | with recorded posts, a membership edge survives exactly if its post is in range and its tag is kept; the post nodes are the recorded ones in range, public ones for a guest |
| Atlas.EdgesJoinSurvivors | demo/mock/routes.ts:676-692 | all surviving membership edges join surviving nodes if and only if every recorded edge with its post in range and its tag kept has a recorded post |
| Atlas.CompleteRecordingStaysComplete | demo/mock/routes.ts:676-692 | if the posts of all recorded edges are recorded, every surviving membership edge joins surviving nodes |
| Atlas.NarrowingKeepsEdgesJoined | demo/mock/routes.ts:676-692 | if over all years every surviving edge joins surviving nodes, so it does in every range |
| Atlas.GuestEdgesNamePublicPosts | demo/mock/routes.ts:676-692 | with recorded posts, the post of every edge a guest gets is a public one and its tag is not hidden |
| Atlas.EdgeOutlivesItsPost | demo/mock/routes.ts:680-691 | a store and a recording in which an edge survives to a post node that is not there |
| Atlas.WithoutPostsEdgesStay | demo/mock/routes.ts:668-680 | without recorded posts the membership edges are kept as recorded, and join nodes only if there are none |
| Atlas.CountIsTagPageTotal | demo/mock/routes.ts:654-666 | a kept tag's count is the total of its tag page for the same years |
| Atlas.KeptNodes | demo/mock/routes.ts:642-666 | which tags stay, and with what count |
| Atlas.GuestNavHidesNothingElse | demo/mock/routes.ts:279-291 | a guest's menu is the owner's, in order and structure, less exactly the nodes with a hidden tag on the way from the top to them; the owner's is untouched |
| Atlas.GuestNavIds | demo/mock/routes.ts:279-291 | a guest's menu names no hidden tag at any depth, and is the owner's if nothing in it is hidden |
| Paging.PagesCoverTheFeed | demo/mock/routes.ts:320-364 | pages 1 to `pages` concatenate to exactly the feed, pages 0 down to `min_page` to exactly the queue |
| Paging.PagesAreBounded | demo/mock/routes.ts:331-351 | no page is longer than the page size, and a page further left answers as `min_page` |
| Paging.WhichPage | demo/mock/routes.ts:334-338 | the page answered is the one asked for but not below the floor; a page that is missing or no number is page 1 |
| Paging.HowManyPages | demo/mock/routes.ts:331-342 | feed and queue have just as many pages as it takes |
| Paging.NoQueue | demo/mock/routes.ts:329-338 | without a queue nothing lies left of page 1 |
| Paging.OnlyPage | demo/mock/routes.ts:1062-1075 | the floor of a post's index plus one is the only feed page that holds it |
| Paging.CeilOfPosition | api/internal/api/posts.go:465-469 | the server's ceil of the position is the same page |
| Paging.GetPostPage | api/internal/api/posts.go:404-470 | the walk finds the first stub with the slug among those that pass, and answers its page; it fails exactly if there is none |
| Paging.VisibleMeans | api/internal/api/posts.go:420-438 | the stubs that count are, for a guest, those without a hidden tag, and under a tag filter those with one of its tags |
| Paging.Skips | api/internal/api/posts.go:420-438 | a stub is passed over exactly if it is not visible or not under the tag |
| Paging.HasTagIn | api/internal/api/posts.go:427-434 | the inner loop finds a wanted tag exactly if there is one |
| Paging.PageSize | api/internal/api/posts.go:450-463 | an explicit page size of at least 1, else the site's if that is at least 1, else 10 |
| Plugins.NormalizeSlots | api/internal/plugins/registry.go:291-326 | the loop over the registry computes the normal form of the wish list |
| Plugins.NormalIsValid | api/internal/plugins/registry.go:291-296 | the normal form obeys every slot rule |
| Plugins.NormalMeans | api/internal/plugins/registry.go:291-326 | plugin by plugin: in a slot that needs one and got none its default claimant is on; elsewhere only what was asked for, and in a slot that takes one only the first of it |
| Plugins.DefaultIsTheFirst | api/internal/plugins/registry.go:328-343 | the default claimant is the first that is enabled by default, else the first of all |
| Plugins.LockedOffMeans | api/internal/plugins/registry.go:261-272 | a plugin is locked exactly if its slot requires one, it is on, and no other claimant is |
| Plugins.ValidIsNormal | api/internal/plugins/registry.go:309-324 | a valid wish list is left alone |
| Plugins.NormalIsIdempotent | api/internal/plugins/registry.go:297-326 | normalising twice is normalising once |
| Plugins.NormalIsMinimal | api/internal/plugins/registry.go:291-326 | no valid selection differs from the wish list in fewer known plugins |
| Plugins.SlotIsMinimal | api/internal/plugins/registry.go:309-324 | the same within each slot |
| Plugins.CorrectedIsPointwise | api/internal/plugins/registry.go:309-324 | correcting one slot keeps, slot by slot, exactly the plugins the rule keeps |
| Plugins.DemoSelection | demo/mock/routes.ts:755-780 | the demo's two loops select what the server's normalisation selects |
| Plugins.FillSlots | demo/mock/routes.ts:762-768 | the first loop fills every required slot that was left empty with its default |
| Plugins.KeepFirst | demo/mock/routes.ts:774-779 | of a slot's wanted members only the first stays |
| Plugins.ApplyPluginPreset | demo/mock/routes.ts:755-784 | every row ends enabled as the normal form says, and locked as the rule says |
| Plugins.RelockPlugins | demo/mock/routes.ts:725-741 | a required slot's row is locked exactly if it is the slot's only enabled one |
| Plugins.LockedBySize | demo/mock/routes.ts:734-740 | "enabled and alone in the slot" is the server's locked-off rule |
| PluginHandlers.EveryRunStaysValid | api/internal/api/plugins.go:104-154 | from a valid configuration no run of toggles and presets, served one at a time and refused ones included, breaks a slot rule |
| ToggleRaces.TwoAtOnceAreSafeUnlessTheyClash | api/internal/api/plugins.go:118-147 | from a valid configuration two toggles at one time end in a valid one in every order of their reads and writes, if and only if they do not clash: two claimants for a single place, a claimant of a one-place slot that is off and is asked both on and off, or the last two of a required slot both asked off |
| ToggleRaces.NoClashEndsValid | api/internal/api/plugins.go:118-147 | toggles that do not clash, in any order of accesses, leave every slot rule kept |
| ToggleRaces.ClashEndsBadly | api/internal/api/plugins.go:118-147 | for every clash an order of accesses that breaks a slot rule |
| ToggleRaces.TwoSwitchesEmptyTheSlot | api/internal/api/plugins.go:129-147 | two switches of a one-place slot at one time that leave it with nothing on |
| ToggleRaces.AloneIsToggled | api/internal/api/plugins.go:123-147 | the writes of an undisturbed request are those of the handler: refused, or the toggled selection |
| PluginHandlers.ToggleKeepsValid | api/internal/api/plugins.go:123-147 | a toggle that is not refused keeps every slot rule |
| PluginHandlers.TakesTheSlot | api/internal/api/plugins.go:134-147 | enabling a claimant of a single-claim slot leaves it alone there |
| PluginHandlers.OnlyTheLastEmpties | api/internal/plugins/registry.go:261-272 | switching a plugin off empties its slot only if it was alone there |
| PluginHandlers.FilledWhileSwitching | api/internal/api/plugins.go:134-147 | with any number of the peers switched off so far, every required slot is filled |
| PluginHandlers.FilledAfterSwitchOff | api/internal/api/plugins.go:123-131 | a permitted switch-off leaves every required slot filled |
| PluginHandlers.KeysAreApart | api/internal/plugins/registry.go:213 | no two plugins share a settings key, and none has the preset's |
| PluginHandlers.OnByRowOrDefault | api/internal/plugins/registry.go:213-233 | a plugin with a settings row is on exactly if the row says "true", one without a row exactly if it is enabled by default |
| PluginHandlers.FreshInstall | api/internal/plugins/registry.go:224-233 | with nothing stored the plugins that are on are the default-enabled ones |
| PluginHandlers.SoleDefaultIsLocked | api/internal/plugins/registry.go:250-272 | with nothing stored a plugin is locked exactly if its slot requires one and it is the only default-enabled claimant |
| PluginHandlers.ToggledMeans | api/internal/api/plugins.go:129-147 | a toggle, plugin by plugin: the plugin is set; switching it on takes every other claimant off a slot that admits one; nothing else changes |
| PluginHandlers.DedupedKeepsOrder | api/internal/api/plugin_presets.go:99-109 | the cleaned list keeps the order of first mention, and a list without repeats is left as it is |
| PluginHandlers.WritingAFlag | api/internal/plugins/registry.go:224-233 | writing one flag changes exactly that plugin's state |
| PluginHandlers.WritingThePreset | api/internal/api/plugins.go:148-151 | recording the preset changes no plugin's state |
| PluginHandlers.Deduped | api/internal/api/plugin_presets.go:99-109 | the cleaned list has each id once |
| PluginHandlers.PluginsHandler.TogglePlugin | api/internal/api/plugins.go:104-154 | every outcome and its exact condition; on a fresh install switching a plugin off is refused exactly if it is the sole default claimant of a required slot; a refusal writes nothing; without a failing write there is no store error; after every single write each required slot is filled, also if a later write fails |
| PluginHandlers.PluginsHandler.SwitchTo | api/internal/api/plugins.go:129-147 | the plugin goes on, then its peers off, with required slots filled throughout |
| PluginHandlers.PluginsHandler.SwitchOffPeers | api/internal/api/plugins.go:137-147 | the loop over the peers |
| PluginHandlers.PluginsHandler.ApplyPreset | api/internal/api/plugin_presets.go:118-158 | on success the enabled plugins are the normal form of the preset, valid, with the preset recorded; without a failing write there is no store error |
| PluginHandlers.PluginsHandler.UpdatePreset | api/internal/api/plugin_presets.go:82-116 | unknown presets and plugins are refused; else exactly that preset changes, of the stored ones or of the defaults, to the list without repeats |
| PluginHandlers.PluginsHandler.LoadPresets | api/internal/api/plugin_presets.go:29-50 | the stored presets, or the defaults, which are then stored |
| ReactiveStore.DispatchCallsItsSnapshot | frontend/src/store.ts:70-88 | whatever callbacks do, a dispatch calls only its snapshot's listeners, in order, each at most once, and each subscribed at the step that calls it; one that stays subscribed is called; one that is gone before its turn and stays so is not |
| ReactiveStore.DispatchReachesEveryListener | frontend/src/store.ts:75-88 | when a dispatch ends it has gone through every listener there was when the value was set, whoever stayed subscribed has been called, and the dispatches below are as they were |
| ReactiveStore.FramesEndAtTheEnd | frontend/src/store.ts:85-88 | a dispatch ends by its own loop only, and only at the end of its snapshot |
| ReactiveStore.SetWrites | frontend/src/store.ts:70-75 | after `set` the key reads as the value, with listeners and without, and every other key as before; a dispatch starts exactly if the value was not in place and the key has been subscribed to |
| ReactiveStore.ReadsTheLastSet | frontend/src/store.ts:53-75 | in every run a key reads as the last `set` on it has left it, or as at the start |
| ReactiveStore.SubscribeAdds | frontend/src/store.ts:96-98 | a new listener comes last on its key, one that is there keeps its place, and nothing else changes |
| ReactiveStore.UnsubscribeRemoves | frontend/src/store.ts:99 | the returned function takes exactly that listener off that key |
| ReactiveStore.ListensSinceTheLastSubscribe | frontend/src/store.ts:96-100 | in every run a listener is subscribed exactly if the last call about it subscribed it |
| ReactiveStore.CalledWhileSubscribed | frontend/src/store.ts:85-87 | for every listener called there is the step that called it, a turn of this loop in a state where it was subscribed |
| ReactiveStore.NotCalledOnceGone | frontend/src/store.ts:82-87 | a listener not called by some moment of the dispatch, and off from then on, is not called in it |
| ReactiveStore.DispatchEnds | frontend/src/store.ts:75-88 | if callbacks make no changing set, the dispatch ends within as many turns as its snapshot has listeners |
| ReactiveStore.NeverMissed | frontend/src/store.ts:85-87 | a listener that stays subscribed is not passed over |
| ReactiveStore.NeverCalled | frontend/src/store.ts:82-87 | from any moment of a dispatch on, a listener that is off and stays so is not called |
| ReactiveStore.LowerFramesWait | frontend/src/store.ts:70-88 | a nested dispatch leaves the ones below it as they were |
| ReactiveStore.RunKeepsListeners | frontend/src/store.ts:96-100 | listener lists stay free of repeats over every run |
| ReactiveStore.CompactAppend | frontend/src/store.ts:118-126 | one more slice is delivered exactly if it differs from the last one seen |
| ReactiveStore.CompactHasNoRepeats | frontend/src/store.ts:118-126 | a selector subscriber gets no slice twice in a row, and its last one is current |
| ReactiveStore.SelectorListener.Call | frontend/src/store.ts:119-125 | over any run, what was delivered is the slices seen with repeats removed |
| ReactiveStore.ShallowEqual | frontend/src/store.ts:151-156 | true exactly for as many keys and equal reads under the first object's keys |
| ReactiveStore.ShallowEqualIsExact | frontend/src/store.ts:151-156 | it decides equality against every second object if and only if the first holds undefined under no key |
| ReactiveStore.ShallowEqualIsEquality | frontend/src/store.ts:151-156 | it decides equality with a second object that has every key the first holds undefined under |
| ReactiveStore.ShallowEqualMissesAKey | frontend/src/store.ts:151-156 | two unequal objects it calls equal |
| ReactiveStore.Merge | frontend/src/store.ts:128-148 | the result holds the old contents under the patch; an object is written exactly if a patched field is new or different, and else stays the same object |
| ReactiveStore.Store.MergeInto | frontend/src/store.ts:143-148 | after `merge` the key's object holds the overlay and every other key reads and holds what it did; a patch that changes nothing changes nothing, any other starts a dispatch if the key has been subscribed to |
| ReactiveStore.OverlayIsSame | frontend/src/store.ts:143-147 | the overlay compares equal exactly if no patched field is new or different |
| ReactiveStore.Store.Set | frontend/src/store.ts:70-85 | `set` up to its loop, as the step of the model |
| ReactiveStore.Store.NextListener | frontend/src/store.ts:85-87 | one turn of the loop; a listener is called only while subscribed |
| ReactiveStore.Store.SubscribeTo | frontend/src/store.ts:96-98 | `subscribe`, as the step of the model |
| ReactiveStore.Store.UnsubscribeFrom | frontend/src/store.ts:99 | the returned function, as the step of the model |
| Persistence.TabIsOneStore | demo/mock/store.ts:496-523 | over a run of any events, the visitor sees all along the fixture with exactly the writes since the last reload, reset or change of build, if and only if no navigation brings back a snapshot that differs from what its build holds |
| Persistence.HarmlessStaysInStep | demo/mock/store.ts:341-383 | in such a run tab and single store agree on build, content and snapshot |
| Persistence.StepInStep | demo/mock/store.ts:341-383 | each event but a harmful revival keeps tab and single store in step |
| Persistence.ChangeOfBuildShowsTheFixture | demo/mock/store.ts:334-354 | a change of build shows the fixture if and only if the stored snapshot does not match it, or holds what the fixture holds |
| Persistence.RolledBackBuildRevivesEdits | demo/mock/store.ts:341-354 | an edit, a new build and the old build again bring the edit back |
| Persistence.UndatedBuildStaysHidden | demo/mock/store.ts:341-350 | with two builds under one stamp, a visitor who edited the first goes on seeing its edited content under the second |
| Persistence.NewBuildsNeverRevive | demo/mock/store.ts:334-354 | builds that do not come back revive nothing, so such runs meet the condition |
| Persistence.SnapshotIsOfAPastBuild | demo/mock/store.ts:366-383 | a stored snapshot carries the stamp of a build that was current |
| Persistence.OnlyWritesAreStored | demo/mock/store.ts:366-383 | a snapshot is stored by writes only, under the stamp of their build, and removed by reloads and resets only |
| Persistence.DemoTab.LoadDocument | demo/mock/store.ts:330-332 | a document's start, after a reload or a navigation, as the step of the model |
| Persistence.DemoTab.ResetState | demo/mock/store.ts:611-620 | the reset, as the step of the model |
| Persistence.DemoTab.ClearContent | demo/mock/store.ts:322-328 | the snapshot is gone |
| Persistence.DemoTab.Dispatch | demo/mock/shim.ts:209-255 | a request: nothing for an unmatched one, no snapshot for a read, handler and snapshot for the rest |
| SqlSplit.NothingIsLost | api/sql/embed.go:17-23 | any script is its statements in order, with only white space between and around them, none of it a visible ASCII character |
| SqlSplit.SplitOfJoin | api/sql/embed.go:17-24 | splitting well-formed statements joined by any white space gives back exactly those statements |
| SqlSplit.CutsAreTheTopLevelSemicolons | api/sql/embed.go:19-23 | a cut is after a semicolon exactly if the BEGIN/END depth of the script up to there is 0 |
| SqlWords.DepthCountsWords | api/sql/embed.go:11-15 | the depth of any text is counted from its whole words that spell BEGIN or END in any letter case; a keyword inside a longer word counts for nothing |
| SqlWords.WordCharacters | api/sql/embed.go:15 | words are made of ASCII letters, digits and underscores |
| SqlWords.TriggerIsOpen | api/sql/embed.go:31-36 | a head without keywords, BEGIN in any letter case and a body without keywords are at depth 1 |
| SqlWords.TriggerIsClosed | api/sql/embed.go:31-36 | END in any letter case takes it back to 0 |
| SqlWords.TriggerIsOneStatement | api/sql/embed.go:17-23 | such a trigger is well-formed and comes out of the splitter as one statement, whatever semicolons its body holds |
| SqlWords.StatementsAreTrimmed | api/sql/embed.go:40-50 | a statement is not empty and neither begins nor ends with a blank, a tab or a line break |
| SqlSplit.CutsAreBetweenChunks | api/sql/embed.go:29-44 | the cuts are exactly where one chunk ends and the next begins |
| SqlSplit.ChunksAreWellFormed | api/sql/embed.go:37-44 | every chunk but the tail holds one whole statement |
| SqlSplit.DepthOfParts | api/sql/embed.go:31-36 | counting keywords fragment by fragment counts them over the whole text |
| SqlSplit.FirstCut | api/sql/embed.go:29-40 | the first semicolon of depth 0, and none before it |
| SqlSplit.SchemaStatements | api/sql/embed.go:24-52 | the loop over fragments, buffer and depth gives the trimmed non-blank chunks |
| SqlSplit.CountKeywords | api/sql/embed.go:31-36 | the inner loop's depth, never below zero |
| SqlSplit.SplitAfter | api/sql/embed.go:29 | the fragments are the text, each ends at its first semicolon, only the last has none |
| Csp.BuildContentSecurityPolicy | api/cmd/api/csp.go:100-125 | the header is the printed form of the meant directives, for any hashes and operator lists |
| Csp.BrowserReadsThePolicy | api/cmd/api/csp.go:100-125 | a browser reads the meant directives in order; all of them exactly if every kept operator source is ASCII |
| Csp.BrowserReadsTheSplice | api/cmd/api/routes.go:563-565 | after the splice it reads the same with the hash first in `script-src`; both headers are one policy on one line |
| Csp.SpliceAddsTheHash | api/cmd/api/routes.go:563-565 | replacing the first "script-src" changes no other directive |
| Csp.ParseOfPrinted | api/cmd/api/csp.go:119-125 | parsing printed directives gives them back, but for those outside ASCII |
| Csp.SanitizeCSPSources | api/cmd/api/csp.go:60-75 | exactly the words without `;`, `,` and line breaks, in order |
| Csp.KeptMeans | api/cmd/api/csp.go:60-75 | a word of the list is kept exactly if it holds no semicolon, comma, carriage return or line feed |
| Csp.PlainSourcesAreKept | api/cmd/api/csp.go:66-75 | sources of visible ASCII characters without semicolon and comma come through as they are |
| Csp.ScriptSources | api/cmd/api/csp.go:108-115 | which scripts an answer's policy lets run: the spliced hash, 'self', the inline scripts' hashes and the operator's kept words, in this order and no others |
| Csp.SanitizingTwice | api/cmd/api/csp.go:60-75 | a cleaned list is left alone |
| Csp.ForeignSourceDropsScriptSrc | api/cmd/api/csp.go:66-75 | one source with a letter outside ASCII takes `script-src` out of the policy |
| Csp.AsciiDirectives | api/cmd/api/csp.go:108-125 | only the two operator lists can take a directive out |
| Ladder.DescriptorIsTheServedWidth | api/internal/api/srcset.go:96-100 | the stated width of a candidate is the width of the image that is made for it |
| Ladder.WidthsAreHonest | api/internal/api/srcset.go:102-134 | widths never fall and never pass the source; the rungs are exactly those below the longest side, in order |
| Ladder.WidthIsRoundedDown | api/internal/api/srcset.go:121-125 | the stated width is the exact one rounded down and at least 1, and the rung itself on an image no higher than wide |
| Ladder.LargeImagesGetEveryRung | api/internal/api/srcset.go:117-120 | an image above 2048 is offered at all six rungs |
| Srcset.ArticleSrcset | api/internal/api/srcset.go:111-134 | the loop with its early stop gives every rung below the longest side, then the original, or nothing |
| Srcset.OfferedOrNot | api/internal/api/srcset.go:128-132 | there is nothing to offer exactly if the longest side is at most 128 |
| Srcset.EntriesState | api/internal/api/srcset.go:124-134 | above 128 the list has one entry for each width, which ends in that width in decimal and begins with the bare path; a rung's URL asks for the rung and carries the cache token |
| Srcset.ItoaReadsBack | api/internal/api/srcset.go:124-133 | every number in the markup is written in decimal without leading zeros and reads back as itself |
| Srcset.BareEndsAtTheQuery | api/internal/api/srcset.go:161-166 | the bare path is what comes before the first question mark |
| Srcset.SizedMeans | api/internal/api/srcset.go:75-81 | a row counts exactly if it is of type image, in any letter case, and both its sizes are known and positive |
| Srcset.PublicPathMeans | api/internal/api/srcset.go:82 | a stored path is public without the directory of the originals |
| Srcset.ArticleImageDims | api/internal/api/srcset.go:66-91 | the loop builds the index of known sizes |
| Srcset.IndexHasTheLast | api/internal/api/srcset.go:82-85 | of several rows for one path the last with a known size counts |
| Srcset.Index | api/internal/api/srcset.go:66-91 | a path is in the index exactly if some image row of known size has it, and sizes are positive |
| ImgTags.InjectTwice | api/internal/api/srcset.go:149-188 | injecting twice is injecting once |
| ImgTags.OnlyAttributesAreAdded | api/internal/api/srcset.go:136-138 | text outside tags stays, no tag comes or goes, each keeps its attributes and its source |
| ImgTags.KnownSourcesAreSized | api/internal/api/srcset.go:159-182 | a tag of a known source ends up with a size, and with candidates if a rung is below its longest side |
| ImgTags.AuthorsAttributesWin | api/internal/api/srcset.go:153-187 | nothing is added without a source, with one of unknown size, or where the author gave size and candidates; else a size only where there is none and candidates only where there are none |
| ImgTags.PlainTagIsRead | api/internal/api/srcset.go:45-50 | an `<img>` tag with a quoted source is found whole and its source read exactly |
| ImgTags.SelfClosedTagIsRead | api/internal/api/srcset.go:42-45 | the closing slash and the blank before it are no part of the attributes |
| ImgTags.OwnWidthIsSeen | api/internal/api/srcset.go:54-57 | the author's width is seen wherever it stands, in capitals too |
| ImgTags.OwnHeightIsSeen | api/internal/api/srcset.go:54-57 | the author's height is seen wherever it stands |
| ImgTags.OwnCandidatesAreSeen | api/internal/api/srcset.go:177 | the author's candidates are seen wherever they stand, in capitals too |
| ImgTags.EscapedReadsBack | api/internal/api/srcset.go:179 | an escaped attribute value reads back as the value |
| ImgTags.SizesAreSpelled | api/internal/api/srcset.go:40 | the conditions of the sizes attribute, in order |
| ImgTags.RewrittenTag | api/internal/api/srcset.go:153-187 | a rewritten tag is one tag whose attributes are the old ones followed by the added |
| ImgTags.SourceStays | api/internal/api/srcset.go:47-50 | attributes written behind the source do not change which source is found |
| ImgTags.RewriteKeepsOutside | api/internal/api/srcset.go:153-187 | the pass over a document rewrites each tag in place and nothing else |
| Pool.EachIndexOnce | demo/scripts/generate-content.ts:421-440 | in any order of answers, indices are handed out in order and each once, and no more than `limit` are in flight |
| Pool.AllRunnersWork | demo/scripts/generate-content.ts:427-440 | no runner is idle while there is work: after any number of answers the calls made are `limit` more, or all |
| Pool.AllResultsAtTheEnd | demo/scripts/generate-content.ts:427-439 | at the end every item has what its worker answered, if and only if the limit is at least 1 or there are no items |
| Pool.OneAnswerPerItem | demo/scripts/generate-content.ts:428-438 | the pool ends after exactly one answer for each item |
| Pool.AnswerKeeps | demo/scripts/generate-content.ts:429-436 | every answer keeps the invariant |
| Pool.SharedPool.Begin | demo/scripts/generate-content.ts:429-430 | the head of a runner's loop, as the step of the model |
| Pool.SharedPool.Settle | demo/scripts/generate-content.ts:431-436 | an answer, value or error, as the step of the model |

## Left out

- Parts of the repository without such state: Echo routing and middleware, cookies, WebAuthn, API keys, the database layer, S3, feeds, the service worker, page rendering, the map and the theme code.
- `services.TagGraph`, `CacheService` and `pageview` in Go; the demo's own walks over the same graph are modelled instead.
- AssetServer.Server.ForShell: file contents are version numbers; a file that is missing or caught half-written is a version like any other. The `?v=` suffix made from the stamps and the unwatched `css/p` directory are not part of it. A call that finds the lock taken is left waiting.
- Watcher: file-system watching and path classification; a watched change is an edit event of a kind. The drain's suspended continuation is a value in the state.
- Feeds: page numbers and page sizes that are not whole numbers. Search matching is an arbitrary test on posts.
- Paging.GetPostPage: the lookups that come before the walk (post, tag snapshot, stubs) are inputs; an unknown tag is a filter nothing passes.
- Demo write routes for posts, tags and media are arbitrary changes of the content; breadcrumbs, `paginate`, `toListShape`, `nextId` and the projection of single fields are not modelled.
- Plugins: manifests and chunks. The demo's own toggle route, which does not refuse a locked switch-off and relies on the page for it.
- PluginHandlers.PluginsHandler.ApplyPreset: states between its writes, where a slot may be empty for a moment in registry order; only the final state is claimed. If a write fails part way the selection is neither the old nor the new one.
- ToggleRaces.TwoAtOnceAreSafeUnlessTheyClash: more than two requests at one time, presets applied beside a toggle, and settings writes that fail between two others.
- Store: a callback that throws ends the loop of `set`, and the listeners after it are not called; callbacks here return. Values are undefined, primitives or references; getters, prototypes and symbol keys are not modelled. Which slice a selector returns is arbitrary.
- Persistence: quota errors of the storage, handlers that throw, the theme and plugin choices kept under other keys, and the other recorded collections.
- SqlSplit.SchemaStatements: invalid UTF-8; strings and comments in SQL, which the splitter does not know either.
- Csp.BuildContentSecurityPolicy: the search for inline scripts in `index.html` and SHA-256; the digests are inputs in base64.
- Ladder.WidthsAreHonest: widths are exact quotients; the code's 64-bit floats may come out one pixel lower where the exact quotient is a whole number.
- ImgTags: the regular expressions are written out over characters; lower-casing is modelled as far as it yields ASCII letters, which is all the tests look at. The cache token is taken as already escaped for a query.
- Pool.SharedPool.Settle: a worker's answer is a function of the item and its index; since each index is handed out once, any behaviour of the workers is such a function.
- Topic balancing, backdating and the other steps of the demo generator.
