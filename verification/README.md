# Oman Cables kiosk and CMS — a Dafny model

This project models the core of a touch-screen kiosk and its content
management page.

- The kiosk plays a looping home video and shows a forest of content nodes as
  buttons. Opening a node plays its video and, five seconds later, opens the
  node's action in an overlay. The action can be a slideshow, an image, a
  video with subtitles, a PDF or a framed web page.
- The kiosk polls for a VVIP (a guest whose video takes over the screen). It
  also polls the event agenda: the active speaker is shown in a footer and
  the other speakers scroll in a marquee.
- After four minutes without input, the kiosk returns to the home screen.
- The CMS lists the agenda sorted by start time. It has exclusive "Active"
  and "Play" switches and confirmed deletions. Its agenda editor builds the
  item list it saves.
- The server side modelled here is three pieces:
  - the `/api/agenda/active` endpoint;
  - the agenda schema's validation;
  - the object-storage naming helpers.

Module layout, following the source:

| file | module | models |
|---|---|---|
| `common.dfy` | `Common` | `Option`, JavaScript `\|\|` on strings, prefixes |
| `entities.dfy` | `Entities` | nodes, actions, videos, VVIPs, the home record |
| `http.dfy` | `Http` | requests the clients send and fetch outcomes |
| `agenda_schema.dfy` | `AgendaSchema` | `src/models/Agenda.js` and the id-based list queries |
| `agenda_active.dfy` | `ActiveAgenda` | `src/app/api/agenda/active/route.js` |
| `tree_search.dfy` | `TreeSearch` | `findNodeById` and `findParentNode`, against a pre-order reference |
| `speakers.dfy` | `Speakers` | active speaker, next speaker, marquee |
| `overlay.dfy` | `Overlay` | `renderActionContent`, slideshow arithmetic, subtitle track paths |
| `kiosk_state.dfy` | `KioskState` | the kiosk's display state and one transition per handler, with the invariant `Valid` |
| `kiosk.dfy` | `Kiosk` | the same transitions as a class whose fields the handlers update in place |
| `cms.dfy` | `Cms` | the CMS page: switches, sort, caption, fetch fallbacks, delete flow |
| `agenda_modal.dfy` | `AgendaModal` | the agenda item editor |
| `storage.dfy` | `Storage` | `src/utils/s3.js` |

Conventions:

- An absent JavaScript string (`null`, `undefined`) is `""`.
- A `fetch` is one atomic step. Its outcome is a parameter: `Failed` for a
  rejected or unusable response, `Received(data)` otherwise.
- The two timers (the 5 s auto-open and the 4 min inactivity reset) are
  deadlines on an explicit millisecond clock `now`.
- The URI encoder `encodeURIComponent` is a function parameter.

## Model

| member | source | states |
|---|---|---|
| Entities.Kids | src/app/page.js:259 | `node.children || []`: a missing children field is the empty list, and every child is smaller than its node |
| Entities.HomeVideoUrl | src/app/page.js:219 | `home?.video?.s3Url || null`: the home video's URL, empty without a home record |
| AgendaSchema.Validate | src/models/Agenda.js:3-17 | an item is accepted exactly when startTime, endTime and name are present and non-empty and the role, if given, is one of the three roles; a rejection names exactly the failing paths and no other; an accepted item carries the submitted id and strings, absent optional strings as empty, role defaulting to "speaker" and isActive to false |
| AgendaSchema.SubmittedRoundTrip | src/models/Agenda.js:3-17 | a fully submitted item is accepted unchanged exactly when it is valid, and rejected otherwise |
| AgendaSchema.OptionalFieldsNeverReject | src/models/Agenda.js:7-16 | dropping title, company, the two URLs and isActive never changes whether validation accepts |
| AgendaSchema.IndexOfId | src/app/api/agenda/active/route.js:17 | `findIndex` by id: the first position carrying the id, none iff no item carries it |
| AgendaSchema.FindById | src/components/AgendaModal.js:44 | `find` by id: the first item of the list carrying the id, none iff no item carries it |
| AgendaSchema.WithoutId | src/app/cms/page.js:142-144 | the filter keeps exactly the items whose id differs, never more items than before |
| AgendaSchema.WithoutIdAppend | src/app/cms/page.js:142-144 | filtering distributes over concatenation, so the kept items keep their relative order |
| AgendaSchema.WithoutAbsentId | src/app/cms/page.js:142-144 | filtering an id no item carries returns the list unchanged |
| AgendaSchema.WithoutIdIdempotent | src/app/cms/page.js:142-144 | filtering the same id twice equals filtering once |
| AgendaSchema.CutOutAt | src/app/cms/page.js:142-144 | when only position k carries its id (as under unique ids), filtering that id cuts out exactly position k |
| ActiveAgenda.FirstActiveIndex | src/app/api/agenda/active/route.js:14 | the first position flagged active; none iff no item is flagged |
| ActiveAgenda.FirstActive | src/app/api/agenda/active/route.js:14 | `items.find(it => it.isActive)`: a flagged member, none iff no item is flagged |
| ActiveAgenda.ActiveAndNext | src/app/api/agenda/active/route.js:9-28 | no document gives null/null; otherwise activeItem is the first flagged item; a nextItem is only reported with an activeItem and is an item of the document |
| ActiveAgenda.ActiveIdAlwaysFound | src/app/api/agenda/active/route.js:17-19 | the `idx >= 0` guard always holds: the flagged item's id is found at or before its own position |
| ActiveAgenda.NextFollowsActive | src/app/api/agenda/active/route.js:16-24 | with unique ids, nextItem is exactly the item stored right after the first flagged one, or null when it is last |
| ActiveAgenda.NoManualActiveMeansNone | src/app/api/agenda/active/route.js:27-28 | with no flagged item the response is null/null, whatever the items' times |
| ActiveAgenda.NewestDoc | src/app/api/agenda/active/route.js:8 | `findOne().sort({createdAt: -1})`: none iff there are no documents, else a stored document whose createdAt is the greatest |
| ActiveAgenda.FirstDoc | src/app/page.js:108 | `list?.[0] \|\| null`: none iff the list is empty, else its first element |
| ActiveAgenda.ActiveRoute | src/app/api/agenda/active/route.js:5-32 | no stored documents gives null/null; a next item is only reported with an active one |
| ActiveAgenda.SingleDocumentAgrees | src/app/api/agenda/active/route.js:8 | with one stored document, the endpoint and the kiosk/CMS listing pick the same document |
| ActiveAgenda.DocumentChoiceMayDiffer | src/app/api/agenda/active/route.js:8 | with two documents, the listing's first may differ from the newest |
| TreeSearch.FindNodeById | src/app/page.js:243-252 | whatever the depth-first search returns carries the id |
| TreeSearch.FindNodeByIdIsPreorderFirst | src/app/page.js:243-252 | the search returns the first node of the forest's pre-order listing with that id |
| TreeSearch.FindBelowIsPreorderFirst | src/app/page.js:246-249 | the recursion into a node's children returns the first match among its descendants in pre-order |
| TreeSearch.FindNodeByIdComplete | src/app/page.js:243-252 | null exactly when no node anywhere in the forest has the id; a found node belongs to the forest |
| TreeSearch.FindParentNode | src/app/page.js:254-263 | whatever the search returns has a direct child carrying the id |
| TreeSearch.FindParentNodeIsPreorderFirst | src/app/page.js:254-263 | the search returns the first node in pre-order having a direct child with the id |
| TreeSearch.FindParentBelowIsPreorderFirst | src/app/page.js:259 | the recursion into `node.children \|\| []` returns the first such node among the descendants |
| TreeSearch.FindParentNodeComplete | src/app/page.js:254-263 | null exactly when no node of the forest has a child with the id; a found parent belongs to the forest |
| TreeSearch.RootHasNoParent | src/app/page.js:1001-1011 | a top-level node whose id no descendant carries has no parent, so the back button goes home |
| TreeSearch.TwoLevelScenario | src/app/page.js:254-263 | on a two-level forest, the parent of a child is found and a root has none |
| Speakers.ExplicitActive | src/app/page.js:123-124 | no listed document gives none; otherwise the first flagged item of its items |
| Speakers.ActiveSpeaker | src/app/page.js:126 | a speaker shown is either the document's flagged item or the endpoint's activeItem |
| Speakers.NextSpeaker | src/app/page.js:128 | the endpoint's next item, none without an answer |
| Speakers.NextSpeakerFollowsActive | src/app/page.js:128 | with unique ids, the next speaker is the item right after the first flagged one, none when it is last |
| Speakers.NoNextSpeakerWithoutActive | src/app/page.js:128 | with no flagged item there is no next speaker |
| Speakers.Marquee | src/app/page.js:131-133 | the marquee holds exactly the speakers whose id differs from the active speaker's, and everyone when none is active |
| Speakers.ManualOverrideWins | src/app/page.js:122-126 | a flagged item of the listed document is the active speaker whatever the endpoint answered |
| Speakers.FallbackToEndpoint | src/app/page.js:126 | with no flagged item, the endpoint's activeItem is used; with neither, no speaker is active |
| Speakers.SameDocumentSameSpeaker | src/app/page.js:123-126 | when the endpoint read the same document, both sources name the same speaker |
| Speakers.MarqueeOrder | src/app/page.js:131-133 | the marquee distributes over any split of the speaker list, so it keeps the speakers' order |
| Speakers.FlaggedSecondItemScenario | src/app/page.js:123-133 | with two items and the second flagged, the second is active at any time and the marquee holds only the first |
| Overlay.IndexOf | src/app/page.js:430-434 | `indexOf`: a position where the pattern occurs, with no earlier one; none iff it occurs nowhere |
| Overlay.ReplaceFirst | src/app/page.js:430-434 | a string-pattern `replace` rewrites only the first occurrence, and nothing when there is none |
| Overlay.SubtitleFolderStripped | src/app/page.js:430-434 | a key under `subtitles/` is served from `/api/subtitles/` plus the encoded remainder |
| Overlay.SubtitleTrack | src/app/page.js:584-586 | the track path lies under `/api/subtitles/`; a key without `subtitles/` in it is encoded whole |
| Overlay.MainVideoTrack | src/app/page.js:582-602 | the main video has no track iff neither the current node nor the home record has a subtitle key; a node key gives the track of that key, otherwise the home key gives the track of the home key |
| Overlay.VvipTrack | src/app/page.js:535-545 | a VVIP video has a track iff it has a subtitle key, and the track is the subtitle path of that key |
| Overlay.NextIndex | src/app/page.js:344-346 | the next-slide index stays below the slide count |
| Overlay.PrevIndex | src/app/page.js:319-324 | the previous-slide index stays below the slide count |
| Overlay.SlideWrap | src/app/page.js:319-346 | next from the last slide gives the first; previous from the first gives the last |
| Overlay.PrevNextInverse | src/app/page.js:319-346 | on an index in range, previous undoes next and next undoes previous |
| Overlay.RenderActionContent | src/app/page.js:265-468 | a selected speaker always wins; otherwise the overlay is blank iff there is no node or no action; it reads past the images exactly when a non-empty slideshow's index is at or beyond its length |
| Overlay.SpeakerShortCircuits | src/app/page.js:266-279 | with a speaker selected, the node and slide index do not matter; the placeholder shows iff the speaker has no info image |
| Overlay.PlaceholderCases | src/app/page.js:468 | an empty slideshow and an unknown action type both show "No action available" |
| Overlay.ResourceUrlFallback | src/app/page.js:282-283 | image and iframe viewers use s3Url, falling back to externalUrl |
| Overlay.SlideIndexOnNavigateAsWritten | src/app/page.js:58 | as written, a change of current node leaves the slide index unchanged |
| Overlay.SlideIndexOnNavigate | src/app/page.js:299 | corrected: an in-range index stays in range for the new node, and the index is unchanged when the node is unchanged |
| Overlay.InRangeNeverCrashes | src/app/page.js:285-299 | while the index is in range, rendering never reads past the images |
| Overlay.StaleSlideIndexCrashes | src/app/page.js:299 | a 5-image slideshow advanced to index 4, then a 2-image node opened: as written the render reads past the end; corrected it shows the first slide |
| KioskState.Initial | src/app/page.js:47-68 | on mount the loader shows, nothing is current, no VVIP, overlay closed, and the inactivity timer is armed |
| KioskState.WithNode | src/app/page.js:708 | `setCurrentNode`: the same node changes nothing; a different node becomes current with the slide index restarted at 0 (corrected, see Findings row 1) |
| KioskState.ResetToHome | src/app/page.js:216-222 | without a home record nothing changes; otherwise no current node, overlay closed, home video playing and restarted; VVIP, speaker, timers and data untouched; the slide index restarts when a node was current (corrected, see Findings row 1) |
| KioskState.ResetTwice | src/app/page.js:216-222 | resetting twice equals resetting once apart from one more home-video restart |
| KioskState.ReconcileVvip | src/app/page.js:188-209 | a different VVIP (by id or video URL) takes over with its video loading, no node current and the overlay closed, keeping the home-video key and restarting the slide index if a node was current (corrected, see Findings row 1); the same one changes nothing; none while one is shown clears it and resets home; otherwise nothing changes; the speaker, the pending auto-open and the data are kept in every case |
| KioskState.ReconcileVvipIdempotent | src/app/page.js:188-209 | applying the same poll answer twice equals applying it once |
| KioskState.Displayed | src/app/page.js:693 | the buttons are the top level with no current node, otherwise children of the current node |
| KioskState.ClickNode | src/app/page.js:700-709 | the clicked node becomes current, the slide index restarting at 0 on a different node (corrected, see Findings row 1), and the overlay closes; its own video plays (loading) if it has one, else the current or home video (not loading); the pending auto-open, the speaker, the VVIP and the home-video key are kept |
| KioskState.Back | src/app/page.js:989-1016 | to the found parent with its video or the home video, keeping the home-video key and restarting the slide index on a different node (corrected, see Findings row 1), else home as ResetToHome; the overlay closes and the speaker selection clears; the VVIP, the auto-open and the data are kept |
| KioskState.BackFromRootGoesHome | src/app/page.js:1001-1011 | the back button on a top-level node lands on the home screen with the home video |
| KioskState.SelectSpeaker | src/app/page.js:815-820 | the speaker is selected and the overlay opens; every other field (node, video, VVIP, slide index, timers, home-video key, loader flags, data) is unchanged |
| KioskState.SelectedSpeakerShown | src/app/page.js:940-943 | once a speaker card is clicked the overlay shows that speaker's info image, or the placeholder without one |
| KioskState.CloseDialog | src/app/page.js:966-970 | the overlay closes and the speaker clears; with a home record the kiosk returns home, the home video restarts (key + 1) and the slide index restarts if a node was current (corrected, see Findings row 1); without one nothing else changes; VVIP, timers, loader flag and data are kept |
| KioskState.NextSlide | src/app/page.js:344-346 | only the slide index changes, and it stays below the slide count |
| KioskState.PrevSlide | src/app/page.js:319-324 | only the slide index changes, and it stays below the slide count |
| KioskState.SelectSlide | src/app/page.js:379-382 | a dot sets the index to its own position and changes nothing else |
| KioskState.PrevAfterNext | src/app/page.js:319-346 | previous after next returns to the slide shown before |
| KioskState.OnPlay | src/app/page.js:562-575 | any pending auto-open is dropped; a node with an action clears the speaker and arms the auto-open for that node 5000 ms from now; the video stops loading; node, overlay, current video, VVIP, slide index, home-video key and data are kept |
| KioskState.FireActionTimer | src/app/page.js:568-571 | the auto-open opens the overlay on the node it was armed for and disarms, the slide index restarting on a different node (corrected, see Findings row 1); the current video, home-video key, loading flag, speaker, VVIP and data are kept |
| KioskState.AutoOpenSurvivesNavigation | src/app/page.js:562-575 | a click to another node does not cancel a pending auto-open, which then opens the overlay on the earlier node |
| KioskState.AutoOpenSurvivesTakeover | src/app/page.js:188-199 | a VVIP takeover does not cancel a pending auto-open either, which then opens the overlay over the VVIP |
| KioskState.UserInput | src/app/page.js:167-178 | any input restarts the 240000 ms inactivity countdown and changes nothing else |
| KioskState.FireInactivity | src/app/page.js:224-229 | the countdown's expiry disarms it and, with a home record, returns home with the home video restarted (key + 1) and the slide index restarted if a node was current (corrected, see Findings row 1); without one nothing else changes; speaker, VVIP, auto-open, loading flag and data are kept |
| KioskState.IdleReturnsHome | src/app/page.js:224-229 | four minutes without input after the last input return the kiosk to the home screen |
| KioskState.Tick | src/app/page.js:224-229 | time advances up to the next pending deadline and nothing else changes |
| KioskState.Load | src/app/page.js:78-97 | on success the home record, the tree and the home video are set and the inactivity countdown restarts; the loader goes away in every case; no other field changes |
| KioskState.AgendaPoll | src/app/page.js:100-120 | on success the endpoint's pair, the first listed document and its items are stored; a failure changes nothing; no other field changes |
| KioskState.ActiveNotInMarquee | src/app/page.js:126-133 | the footer's marquee never lists the active speaker |
| KioskState.InitialValid | src/app/page.js:47-68 | the mounted state satisfies the invariant |
| KioskState.ResetToHomeValid | src/app/page.js:216-222 | resetting to home keeps the invariant |
| KioskState.ReconcileVvipValid | src/app/page.js:188-209 | the VVIP poll keeps the invariant |
| KioskState.ClickNodeValid | src/app/page.js:692-709 | a click on a displayed node keeps the invariant: the node clicked is in the loaded tree |
| KioskState.BackValid | src/app/page.js:989-1016 | the back button keeps the invariant: the parent found is in the loaded tree |
| KioskState.SelectSpeakerValid | src/app/page.js:815-820 | selecting a speaker keeps the invariant |
| KioskState.CloseDialogValid | src/app/page.js:966-970 | closing the overlay keeps the invariant |
| KioskState.SlideStepsValid | src/app/page.js:319-382 | the three slideshow controls keep the invariant |
| KioskState.OnPlayValid | src/app/page.js:562-575 | the play event keeps the invariant |
| KioskState.FireActionTimerValid | src/app/page.js:568-571 | the auto-open keeps the invariant |
| KioskState.TimeStepsValid | src/app/page.js:167-178 | time passing, input and the inactivity reset keep the invariant |
| KioskState.LoadValid | src/app/page.js:78-97 | the startup fetch keeps the invariant |
| KioskState.AgendaPollValid | src/app/page.js:100-120 | the agenda poll keeps the invariant |
| KioskState.ValidNeverCrashes | src/app/page.js:299 | in any valid state the overlay never reads past a slideshow's images |
| Kiosk.KioskDisplay.constructor | src/app/page.js:47-68 | the fields start as the mounted state, which is valid |
| Kiosk.KioskDisplay.SetCurrentNode | src/app/page.js:708 | the current node becomes the given one and only the slide index may change with it, restarting when the node differs (corrected: the source keeps the index, see Findings row 1) |
| Kiosk.KioskDisplay.ResetHome | src/app/page.js:216-222 | the fields become the reset-to-home state |
| Kiosk.KioskDisplay.GoHome | src/app/page.js:218-221 | with a home record present, the current node clears, the home video is shown, the overlay closes and the home video restarts; nothing else changes |
| Kiosk.KioskDisplay.OnHomeButton | src/app/page.js:483-485 | the home button performs the reset and keeps the invariant |
| Kiosk.KioskDisplay.TakeOver | src/app/page.js:193-197 | the new VVIP and its video are shown, no node is current, the overlay is closed and the loader is on; nothing else changes |
| Kiosk.KioskDisplay.OnVvipPoll | src/app/page.js:188-209 | the fields become the reconciled state and stay valid |
| Kiosk.KioskDisplay.ShowNode | src/app/page.js:700-709 | the fields become the clicked state |
| Kiosk.KioskDisplay.OnNodeClick | src/app/page.js:700-709 | the fields become the clicked state and stay valid |
| Kiosk.KioskDisplay.MoveToParent | src/app/page.js:1004-1008 | the parent becomes current and its video shows, falling back to the home video; nothing else but the loader flag changes |
| Kiosk.KioskDisplay.GoBack | src/app/page.js:994-1015 | the fields become the back state |
| Kiosk.KioskDisplay.OnBack | src/app/page.js:989-1016 | the fields become the back state and stay valid |
| Kiosk.KioskDisplay.OnSpeakerClick | src/app/page.js:815-820 | the fields become the speaker-selected state and stay valid |
| Kiosk.KioskDisplay.OnDialogClose | src/app/page.js:966-970 | the fields become the closed-overlay state and stay valid |
| Kiosk.KioskDisplay.OnNextSlide | src/app/page.js:344-346 | the slide index advances with wrap-around, and the fields stay valid |
| Kiosk.KioskDisplay.OnPrevSlide | src/app/page.js:319-324 | the slide index steps back with wrap-around, and the fields stay valid |
| Kiosk.KioskDisplay.OnDotClick | src/app/page.js:379-382 | the slide index becomes the dot's, and the fields stay valid |
| Kiosk.KioskDisplay.PlayVideo | src/app/page.js:562-575 | the fields become the played state |
| Kiosk.KioskDisplay.OnVideoPlay | src/app/page.js:562-575 | the auto-open is re-armed as in the play handler, and the fields stay valid |
| Kiosk.KioskDisplay.OpenAction | src/app/page.js:568-571 | the fields become the fired-timer state: the overlay opens on the armed node |
| Kiosk.KioskDisplay.OnActionTimer | src/app/page.js:568-571 | the overlay opens on the armed node, and the fields stay valid |
| Kiosk.KioskDisplay.OnUserInput | src/app/page.js:167-178 | the inactivity deadline restarts, and the fields stay valid |
| Kiosk.KioskDisplay.GoIdle | src/app/page.js:224-229 | the fields become the reset-to-home state with no inactivity deadline left |
| Kiosk.KioskDisplay.OnInactivityTimer | src/app/page.js:224-229 | the kiosk resets to home, and the fields stay valid |
| Kiosk.KioskDisplay.Advance | src/app/page.js:224-229 | the clock advances up to the next deadline, and the fields stay valid |
| Kiosk.KioskDisplay.Install | src/app/page.js:87-93 | the fetched home record and tree are stored, the home video shows, the loader goes away and the inactivity deadline restarts |
| Kiosk.KioskDisplay.ApplyLoad | src/app/page.js:80-95 | the fields become the loaded state |
| Kiosk.KioskDisplay.OnLoaded | src/app/page.js:78-97 | the fields take the fetched home record and tree, and stay valid |
| Kiosk.KioskDisplay.ApplyAgendaPoll | src/app/page.js:101-115 | the fields become the polled-agenda state |
| Kiosk.KioskDisplay.OnAgendaPoll | src/app/page.js:100-120 | the fields take the polled agenda, and stay valid |
| Kiosk.KioskDisplay.Overlay | src/app/page.js:265-468 | the overlay rendered from the fields is never the out-of-range crash |
| Cms.ToggleActive | src/app/cms/page.js:304-313 | same length; each item is active iff the switch is on and it carries the toggled id; nothing else about any item changes |
| Cms.ToggleActiveExclusive | src/app/cms/page.js:304-313 | with unique ids, the switch leaves at most one item active and keeps ids unique |
| Cms.ToggleOnIsReported | src/app/cms/page.js:304-323 | switching item k on makes the active-agenda endpoint report item k and the item after it |
| Cms.ToggleOffClearsAll | src/app/cms/page.js:304-323 | switching any item off leaves none active, so the endpoint reports null/null |
| Cms.TogglePlay | src/app/cms/page.js:471-476 | same length; only the VVIP at the switched position plays, and only if the switch is on; nothing else changes |
| Cms.TogglePlayExclusive | src/app/cms/page.js:471-476 | at most one VVIP of the local list plays afterwards, whatever the ids |
| Cms.PlayRequest | src/app/cms/page.js:478-486 | a PUT to the toggled VVIP's URL whose body carries only the new flag |
| Cms.LexLeTotal | src/app/cms/page.js:272-273 | any two start times are comparable |
| Cms.LexLeTrans | src/app/cms/page.js:272-273 | the start-time order is transitive |
| Cms.SortByStart | src/app/cms/page.js:272-273 | the sorted copy is ascending by start time and a permutation of the items |
| Cms.SortSortedIsIdentity | src/app/cms/page.js:272-273 | sorting an already sorted list returns it unchanged |
| Cms.Caption | src/app/cms/page.js:362-368 | the caption starts with the title, and is the present ones of title and company joined by ", ", then " • role" when there is a role |
| Cms.ListOrEmpty | src/app/cms/page.js:66-75 | the list received on success, the empty list on any failure; the same holds for the VVIP list of `fetchVvips` (src/app/cms/page.js:101-110) |
| Cms.FetchHomeVideo | src/app/cms/page.js:77-87 | a video only when the reply arrived, says ok and carries one |
| Cms.FetchAgenda | src/app/cms/page.js:89-99 | a document iff the reply arrived as a non-empty array, and then it is the first element |
| Cms.DeleteRequest | src/app/cms/page.js:137-152 | nothing is sent iff an agenda item is deleted while no agenda is loaded; an agenda item is deleted by a PUT of exactly the items with other ids; nodes and VVIPs by a DELETE to their own URL |
| Cms.DeleteCutsOneItem | src/app/cms/page.js:142-144 | with unique ids, deleting item k sends the list with exactly position k cut out |
| Cms.CmsPage.constructor | src/app/cms/page.js:35-60 | the page starts empty, with no dialog open and no deletion running |
| Cms.CmsPage.RefreshAll | src/app/cms/page.js:112-128 | each list takes its fetch's result or fallback; the spinner is off afterwards |
| Cms.CmsPage.HandleDeleteClick | src/app/cms/page.js:131-134 | the target is remembered and the confirmation opens |
| Cms.CmsPage.CancelDelete | src/app/cms/page.js:586-587 | the confirmation closes; the target, the lists, the home video, the spinner and `deleting` are kept |
| Cms.CmsPage.BeginDelete | src/app/cms/page.js:137-152 | without a target nothing happens; otherwise the target's request is issued, and `deleting` stays on iff a request went out; the target, the dialog, the lists, the home video and the spinner are kept |
| Cms.CmsPage.DeleteSettled | src/app/cms/page.js:150-165 | a delivered request refetches the affected list, keeps the other two, closes the dialog and clears the target; a rejected one leaves them all; the home video and the spinner are kept; `deleting` ends off |
| Cms.CmsPage.ToggleAgendaActive | src/app/cms/page.js:304-323 | the toggled list is sent to the agenda's URL and becomes the local agenda once the request resolves; every other field is kept |
| Cms.CmsPage.ToggleVvipPlay | src/app/cms/page.js:471-486 | the play flag request is sent and the local list takes the exclusive update once the request resolves; every other field is kept |
| AgendaModal.EmptySpeaker | src/components/AgendaModal.js:20-30 | the blank form: role "speaker", not active, every string empty |
| AgendaModal.EmptySpeakerIncomplete | src/components/AgendaModal.js:20-30 | the blank form submitted unedited fails validation on exactly startTime, endTime and name |
| AgendaModal.InitialForm | src/components/AgendaModal.js:42-49 | when editing, the form is the first item carrying editId (as `find` returns) if there is one; otherwise it is the blank form |
| AgendaModal.SetField | src/components/AgendaModal.js:51-53 | the named field takes the value and no other field changes |
| AgendaModal.SetFieldRestores | src/components/AgendaModal.js:51-53 | writing back a field's own value changes nothing |
| AgendaModal.SetFieldOverrides | src/components/AgendaModal.js:51-53 | a later write to a field overrides an earlier one |
| AgendaModal.SetFieldsCommute | src/components/AgendaModal.js:51-53 | writes to different fields commute |
| AgendaModal.SaveItems | src/components/AgendaModal.js:111-119 | editing replaces every item carrying the id by the form in place; adding appends the form after the existing items |
| AgendaModal.SaveReplacesOne | src/components/AgendaModal.js:113-116 | with unique ids, an edit replaces exactly the one item carrying the id |
| AgendaModal.UneditedSaveKeepsList | src/components/AgendaModal.js:42-49 | opening an item and saving it unedited sends the list back unchanged |
| AgendaModal.SaveRequest | src/components/AgendaModal.js:121-128 | PUT to the agenda's own URL iff the agenda has an id, else POST to the collection; the body is the item list |
| AgendaModal.UploadCompleteAsWritten | src/components/AgendaModal.js:94-107 | as written, the uploaded URL is written into the form as it was when the upload started |
| AgendaModal.UploadComplete | src/components/AgendaModal.js:94-107 | corrected: the uploaded URL goes into its field and every other field keeps its current value |
| AgendaModal.NameTypedDuringUploadIsLost | src/components/AgendaModal.js:51-53 | a name typed while a photo uploads is lost as written and kept by the correction |
| AgendaModal.AgendaEditor.constructor | src/components/AgendaModal.js:32-49 | the editor opens on the initial form, not saving, with both progress values at zero |
| AgendaModal.AgendaEditor.HandleChange | src/components/AgendaModal.js:51-53 | the form takes the one-field edit; nothing else changes |
| AgendaModal.AgendaEditor.BeginUpload | src/components/AgendaModal.js:96 | the field's progress restarts at zero; the form, `saving` and the closed flag are unchanged |
| AgendaModal.AgendaEditor.FinishUpload | src/components/AgendaModal.js:98-106 | on success the URL goes into the form as it is now (corrected: the source writes into the form captured at the start, see Findings row 2); the progress returns to zero either way |
| AgendaModal.AgendaEditor.BeginSave | src/components/AgendaModal.js:109-128 | saving turns on and the request is the save request for the current form; the form, the closed flag and the progress are unchanged |
| AgendaModal.AgendaEditor.SaveSettled | src/components/AgendaModal.js:128-136 | the editor closes iff the request was delivered, whatever its status; saving turns off; the form and the progress are unchanged |
| AgendaModal.AgendaEditor.Cancel | src/components/AgendaModal.js:297 | the editor closes with the form and the progress unchanged |
| Storage.GetFolderByMime | src/utils/s3.js:11-17 | video/… goes to videos, image/… to images, exactly application/pdf to pdfs, everything else to others |
| Storage.PdfOnlyExact | src/utils/s3.js:15 | a PDF type with parameters, or a non-standard PDF type, goes to others |
| Storage.DecimalRoundTrip | src/utils/s3.js:21 | the timestamp printed into a key reads back as the same number |
| Storage.ObjectKey | src/utils/s3.js:21 | an upload's key starts with its folder and a slash |
| Storage.UploadResult | src/utils/s3.js:33-36 | the returned key is the stored key, and the URL is the base URL, a slash and that key |
| Storage.KeyFolderIsKnown | src/utils/s3.js:11-21 | every key stored by MIME type lies under one of the four folders |
| Storage.KeyRoundTrip | src/utils/s3.js:21 | a key determines its folder, timestamp and file name |
| Storage.DeleteFromS3 | src/utils/s3.js:40-53 | nothing is sent iff the key is empty; otherwise the delete is sent for that key, and errors never reach the caller |

## Left out

- The network, the database and the storage client are left out. Each fetch
  is one atomic step with its outcome as a parameter. The API routes other
  than `/api/agenda/active` are not part of this model.
- Concurrency between the polls is left out. Each poll's completion is one
  transition, and any interleaving of transitions is allowed.
- Timers are deadlines on an explicit clock rather than `setTimeout`
  handles. Clearing the interval on unmount is not modelled.
- The marquee's DOM cloning and scrolling animation are left out. So are the
  slide direction and animations, the mute toggle, the click sound and the
  overlay's width and height. None of them changes what is shown.
- Upload progress percentages are left out, because they are floating-point
  `Math.round` arithmetic over XHR events. Only the reset to zero at the start
  and end of an upload is modelled. So are the presigned-URL request and the
  XHR itself: an upload ends with a URL or with nothing.
- `encodeURIComponent` is a parameter and is not modelled.
- `localeCompare` is modelled as character-by-character order. This agrees
  with the locale order on the "HH:mm" strings the form produces, but not on
  arbitrary strings.
- Cms.SortByStart: does not prove that the sort is stable. The model's
  insertion sort keeps equal start times in list order, and JavaScript's
  `sort` is stable too, but no contract states it.
- The home-video modal of the CMS, the node and VVIP editors and the layout
  are not part of this model.
- The video elements' buffering events (`onLoadedData`, `onWaiting`,
  `onPlaying`) only switch the loading spinner and are not modelled.
- The kiosk's startup fetch (src/app/page.js:80-87) does not check the HTTP
  status of `/api/home` or `/api/nodes/tree`. An error body read as JSON is
  stored as `home` and `tree` like a real answer. The model's `Received`
  outcome of `KioskState.Load` covers only well-formed answers, and `Failed`
  covers a rejected request or unreadable body.
- The kiosk's VVIP poll does not check the HTTP status either
  (src/app/page.js:185-199). Any truthy JSON body, an error body included, is
  taken as a playing VVIP: `setVvip` runs, and reading `data.video.s3Url`
  then throws into the poll's `catch`. The model's `Playing` outcome covers
  only well-formed VVIP records, and `PollFailed` (no change) covers a
  rejected request; the error-body path is not modelled.
- The kiosk's agenda poll does not check the HTTP status. An error body read
  as JSON is stored like a real answer. The model's `Received` outcome covers
  only well-formed answers.
- The back button is shown only when the current node has a parent
  reference. `KioskState.Back` is defined on every state, as the handler's
  code is.
- `findNodeById` (src/app/page.js:243-252) is defined but not called
  anywhere in the kiosk. It is modelled and proved all the same.
- AgendaModal.AgendaEditor.Cancel: requires that no save is running, as the
  Cancel button does. The dialog's backdrop also closes it during a save, and
  that path is not modelled separately.

Two behaviours are deliberately modelled as corrected rather than as
written; both are the Findings below, where the code as written is modelled
alongside:

- `KioskState.WithNode` and `Kiosk.KioskDisplay.SetCurrentNode` restart the
  slide index when the current node changes, where `setCurrentNode`
  (src/app/page.js:708, 1004, 570, 218) keeps it. Every transition that navigates
  (`ResetToHome`, `ReconcileVvip`, `ClickNode`, `Back`, `CloseDialog`,
  `FireActionTimer`) inherits this, and the invariant lemmas
  (`ClickNodeValid`, `BackValid`, `ValidNeverCrashes` and the others) hold
  for the corrected kiosk.
- `AgendaModal.AgendaEditor.FinishUpload` writes the uploaded URL into the
  form as it is when the upload finishes, where `handleFileUpload`
  (src/components/AgendaModal.js:94-107) writes it into the form captured
  when the upload started.

Otherwise, where the description of the system and the code differ, the model
follows the code:

- Navigating to another node does not cancel a pending auto-open timer, and
  neither does a VVIP takeover. The timer is only replaced on the next play
  event, so the overlay can open on the earlier node, over a VVIP's video too
  (`AutoOpenSurvivesNavigation`, `AutoOpenSurvivesTakeover`).
- `/api/agenda/active` has no time-window fallback. It reports the manually
  flagged item and its successor, or null/null (`NoManualActiveMeansNone`).
- The kiosk and the CMS use the first listed agenda document, while the
  endpoint uses the newest (`DocumentChoiceMayDiffer`). With one stored
  document they agree (`SingleDocumentAgrees`).
- The agenda editor closes whenever its save request resolves, even with an
  error status.
- The CMS switches update local state whenever their request resolves, even
  with an error status. They do not update it when the request is rejected.
- Cancelling a delete keeps the remembered target.
- Deleting an agenda item while no agenda is loaded throws before any request
  is sent. `deleting` is switched off again.

## Findings

| source | as written | input that shows it | evidently intended | confidence | as-written member | corrected member |
|---|---|---|---|---|---|---|
| src/app/page.js:299 | `slideIndex` is never reset when the current node changes (src/app/page.js:708, 1004, 570, 218), and the slideshow reads `images[slideIndex].s3Url` | advance a 5-image slideshow to its last slide (index 4), then open a node whose slideshow has 2 images: `images[4]` is undefined and reading `.s3Url` throws | restart the slideshow at its first slide when the node changes | not executed | Overlay.SlideIndexOnNavigateAsWritten, shown by Overlay.StaleSlideIndexCrashes | Overlay.SlideIndexOnNavigate, used by KioskState.WithNode and Kiosk.KioskDisplay.SetCurrentNode, with Overlay.InRangeNeverCrashes and KioskState.ValidNeverCrashes |
| src/components/AgendaModal.js:94-107 | after an upload, `handleChange` writes `{ ...formData, [field]: url }` with the `formData` captured when the upload started (src/components/AgendaModal.js:51-53) | start a photo upload on the blank form, type the name "Alice" while it runs, let it finish: the form's name is "" again | merge the URL into the form as it is when the upload finishes | not executed | AgendaModal.UploadCompleteAsWritten, shown by AgendaModal.NameTypedDuringUploadIsLost | AgendaModal.UploadComplete, used by AgendaModal.AgendaEditor.FinishUpload |
