/** The kiosk screen's display state and its transitions, one pure function
    per handler of `src/app/page.js`. Fetches are atomic steps whose outcome
    is a parameter; the two timers are deadlines on an explicit clock, at
    most one pending each. The class in `kiosk.dfy` performs these same
    transitions in place. */
module KioskState {
  import opened Common
  import opened Entities
  import opened AgendaSchema
  import opened ActiveAgenda
  import opened TreeSearch
  import opened Speakers
  import opened Overlay
  import opened Http

  const ActionDelayMs: nat := 5000
  const InactivityMs: nat := 240000

  /** The pending auto-open: when it fires, the overlay opens on the node
      that was current when the video started playing. */
  datatype ActionTimer = ActionTimer(due: nat, node: Node)

  /** The kiosk's state. Absent strings are "" (so `currentVideo == ""` is
      "no video"). */
  datatype Display = Display(
    home: Option<Home>,
    tree: seq<Node>,
    loading: bool,
    currentVideo: string,
    currentNode: Option<Node>,
    openAction: bool,
    vvip: Option<Vvip>,
    selectedSpeaker: Option<AgendaItem>,
    slideIndex: nat,
    homeVideoKey: nat,
    videoLoading: bool,
    agendaActive: Option<ActivePair>,
    agendaDoc: Option<AgendaDoc>,
    allSpeakers: seq<AgendaItem>,
    now: nat,
    actionTimer: Option<ActionTimer>,
    inactivityDue: Option<nat>)

  /** The screen right after mounting: the loader shows, and the mount
      effect has armed the inactivity timer. */
  function Initial(): (r: Display)
    ensures r.loading && r.currentNode.None? && r.vvip.None? && !r.openAction
    ensures r.inactivityDue == Some(InactivityMs)
  {
    Display(None, [], true, "", None, false, None, None, 0, 0, false, None, None, [], 0, None, Some(InactivityMs))
  }

  /** What the state must always satisfy: the current node and the node of a
      pending auto-open come from the loaded tree, no deadline is in the past,
      the slide index addresses an image of the current slideshow, and
      nothing is selected while the loader shows. */
  predicate Valid(s: Display) {
    && (s.currentNode.Some? ==> s.currentNode.value in Flatten(s.tree))
    && (s.actionTimer.Some? ==> s.actionTimer.value.node in Flatten(s.tree) && s.now <= s.actionTimer.value.due)
    && (s.inactivityDue.Some? ==> s.now <= s.inactivityDue.value)
    && SlideInRange(s.currentNode, s.slideIndex)
    && (s.loading ==> s.currentNode.None? && s.actionTimer.None?)
  }

  /** `setCurrentNode`, with the slide index restarted when the node changes
      (the corrected behaviour; see `Overlay.SlideIndexOnNavigate`). */
  function WithNode(s: Display, n: Option<Node>): (r: Display)
    ensures n == s.currentNode ==> r == s
    ensures n != s.currentNode ==> r.currentNode == n && r.slideIndex == 0 && r == s.(currentNode := n, slideIndex := 0)
  {
    s.(currentNode := n, slideIndex := SlideIndexOnNavigate(s.currentNode, n, s.slideIndex))
  }

  /** The fields no navigation handler touches. */
  predicate SameContext(s: Display, r: Display) {
    && r.home == s.home && r.tree == s.tree && r.loading == s.loading
    && r.agendaActive == s.agendaActive && r.agendaDoc == s.agendaDoc && r.allSpeakers == s.allSpeakers
    && r.now == s.now && r.inactivityDue == s.inactivityDue
  }

  /** `resetToHome`: nothing while the home record is missing; otherwise back
      to the top level with the home video restarted. The VVIP, the selected
      speaker and the pending auto-open are untouched. */
  function ResetToHome(s: Display): (r: Display)
    ensures s.home.None? ==> r == s
    ensures s.home.Some? ==> r.currentNode.None? && !r.openAction && r.currentVideo == HomeVideoUrl(s.home)
    ensures s.home.Some? ==> r.homeVideoKey == s.homeVideoKey + 1
    ensures s.home.Some? ==> r.slideIndex == if s.currentNode.Some? then 0 else s.slideIndex
    ensures SameContext(s, r) && r.vvip == s.vvip && r.selectedSpeaker == s.selectedSpeaker
    ensures r.actionTimer == s.actionTimer && r.videoLoading == s.videoLoading
  {
    if s.home.None? then s
    else WithNode(s, None).(currentVideo := HomeVideoUrl(s.home), openAction := false, homeVideoKey := s.homeVideoKey + 1)
  }

  /** Resetting twice is resetting once, except that the home video is
      restarted twice. */
  lemma ResetTwice(s: Display)
    ensures ResetToHome(ResetToHome(s)) == ResetToHome(s).(homeVideoKey := ResetToHome(s).homeVideoKey + (if s.home.Some? then 1 else 0))
  {
  }

  /** The outcome of one VVIP poll. */
  datatype VvipPoll = Playing(v: Vvip) | NonePlaying | PollFailed

  /** The poll's reconciliation: a different VVIP (by id or video URL) takes
      over the screen; the same one changes nothing; none while one is shown
      clears it and resets to home; none while none is shown, or an error,
      changes nothing. */
  function ReconcileVvip(s: Display, poll: VvipPoll): (r: Display)
    ensures poll.Playing? && (s.vvip.None? || s.vvip.value.id != poll.v.id || s.vvip.value.video.s3Url != poll.v.video.s3Url) ==>
      && r.vvip == Some(poll.v) && r.currentVideo == poll.v.video.s3Url && r.currentNode.None?
      && !r.openAction && r.videoLoading
      && r.homeVideoKey == s.homeVideoKey && r.slideIndex == (if s.currentNode.None? then s.slideIndex else 0)
    ensures poll.Playing? && s.vvip.Some? && s.vvip.value.id == poll.v.id && s.vvip.value.video.s3Url == poll.v.video.s3Url ==> r == s
    ensures poll.NonePlaying? && s.vvip.Some? ==> r == ResetToHome(s.(vvip := None))
    ensures (poll.NonePlaying? && s.vvip.None?) || poll.PollFailed? ==> r == s
    ensures SameContext(s, r) && r.selectedSpeaker == s.selectedSpeaker && r.actionTimer == s.actionTimer
  {
    match poll
    case Playing(v) =>
      if s.vvip.None? || s.vvip.value.id != v.id || s.vvip.value.video.s3Url != v.video.s3Url then
        WithNode(s, None).(vvip := Some(v), currentVideo := v.video.s3Url, openAction := false, videoLoading := true)
      else s
    case NonePlaying => if s.vvip.Some? then ResetToHome(s.(vvip := None)) else s
    case PollFailed => s
  }

  /** Polling the same answer twice is polling it once. */
  lemma ReconcileVvipIdempotent(s: Display, poll: VvipPoll)
    ensures ReconcileVvip(ReconcileVvip(s, poll), poll) == ReconcileVvip(s, poll)
  {
  }

  /** The node buttons on screen: the current node's children, or the top
      level. */
  function Displayed(s: Display): (r: seq<Node>)
    ensures s.currentNode.None? ==> r == s.tree
    ensures s.currentNode.Some? ==> forall c :: c in r ==> c < s.currentNode.value
  {
    if s.currentNode.Some? then Kids(s.currentNode.value) else s.tree
  }

  /** A node click: its own video if it has one (loading), else the current
      video or the home video (not loading); the node becomes current and the
      overlay closes. A pending auto-open is not cancelled. */
  function ClickNode(s: Display, n: Node): (r: Display)
    requires s.vvip.None? && !s.loading && n in Displayed(s)
    ensures r.currentNode == Some(n) && !r.openAction
    ensures n.video.s3Url != "" ==> r.currentVideo == n.video.s3Url && r.videoLoading
    ensures n.video.s3Url == "" ==> r.currentVideo == Or(s.currentVideo, HomeVideoUrl(s.home)) && !r.videoLoading
    ensures SameContext(s, r) && r.vvip == s.vvip && r.selectedSpeaker == s.selectedSpeaker
    ensures r.actionTimer == s.actionTimer && r.homeVideoKey == s.homeVideoKey
    ensures r.slideIndex == if s.currentNode == Some(n) then s.slideIndex else 0
  {
    var video := if n.video.s3Url != "" then n.video.s3Url else Or(s.currentVideo, HomeVideoUrl(s.home));
    WithNode(s, Some(n)).(currentVideo := video, videoLoading := n.video.s3Url != "", openAction := false)
  }

  /** The overlay's back button: to the parent of the current node (its
      video, else the home video), or home when the node has no parent; the
      overlay closes and the speaker selection clears. */
  function Back(s: Display): (r: Display)
    ensures s.currentNode.None? ==> r == ResetToHome(s)
    ensures s.currentNode.Some? ==> !r.openAction && r.selectedSpeaker.None?
    ensures s.currentNode.Some? && FindParentNode(s.tree, s.currentNode.value.id).Some? ==>
      var p := FindParentNode(s.tree, s.currentNode.value.id).value;
      r.currentNode == Some(p) && r.currentVideo == Or(p.video.s3Url, HomeVideoUrl(s.home))
      && r.videoLoading == (p.video.s3Url != "") && r.homeVideoKey == s.homeVideoKey
      && r.slideIndex == (if s.currentNode == Some(p) then s.slideIndex else 0)
    ensures s.currentNode.Some? && FindParentNode(s.tree, s.currentNode.value.id).None? ==>
      r == ResetToHome(s).(openAction := false, selectedSpeaker := None)
    ensures SameContext(s, r) && r.vvip == s.vvip && r.actionTimer == s.actionTimer
  {
    if s.currentNode.None? then ResetToHome(s)
    else
      var parent := FindParentNode(s.tree, s.currentNode.value.id);
      var moved := if parent.Some? then
          WithNode(s, parent).(currentVideo := Or(parent.value.video.s3Url, HomeVideoUrl(s.home)),
                               videoLoading := parent.value.video.s3Url != "")
        else ResetToHome(s);
      moved.(openAction := false, selectedSpeaker := None)
  }

  /** The back button on a top-level node (one no node has as a child) lands
      on the home screen. */
  lemma BackFromRootGoesHome(s: Display, root: Node)
    requires s.home.Some? && s.currentNode == Some(root) && root in s.tree
    requires forall d :: d in Descendants(s.tree) ==> d.id != root.id
    ensures Back(s).currentNode.None? && !Back(s).openAction
    ensures Back(s).currentVideo == HomeVideoUrl(s.home)
  {
    RootHasNoParent(s.tree, root);
  }

  /** A speaker card click: that speaker's info opens in the overlay. */
  function SelectSpeaker(s: Display, sp: AgendaItem): (r: Display)
    ensures r.selectedSpeaker == Some(sp) && r.openAction
    ensures r.currentNode == s.currentNode && r.currentVideo == s.currentVideo && SameContext(s, r)
    ensures r.vvip == s.vvip && r.slideIndex == s.slideIndex && r.actionTimer == s.actionTimer
    ensures r.homeVideoKey == s.homeVideoKey && r.videoLoading == s.videoLoading
  {
    s.(selectedSpeaker := Some(sp), openAction := true)
  }

  /** Once a speaker is selected, the overlay shows that speaker whatever the
      current node is. */
  lemma SelectedSpeakerShown(s: Display, sp: AgendaItem, encode: string -> string)
    ensures var r := SelectSpeaker(s, sp);
      RenderActionContent(r.selectedSpeaker, r.currentNode, r.slideIndex, encode)
        == (if sp.infoImageUrl != "" then SpeakerInfo(sp.infoImageUrl) else NoInfoImage)
  {
  }

  /** Closing the overlay (its backdrop, or its home button): overlay closed,
      back to home, speaker selection cleared. */
  function CloseDialog(s: Display): (r: Display)
    ensures !r.openAction && r.selectedSpeaker.None?
    ensures s.home.Some? ==> r.currentNode.None? && r.currentVideo == HomeVideoUrl(s.home)
    ensures s.home.Some? ==> r.homeVideoKey == s.homeVideoKey + 1
    ensures s.home.Some? && s.currentNode.Some? ==> r.slideIndex == 0
    ensures s.home.None? || s.currentNode.None? ==> r.slideIndex == s.slideIndex
    ensures s.home.None? ==> r == s.(openAction := false, selectedSpeaker := None)
    ensures r.videoLoading == s.videoLoading
    ensures SameContext(s, r) && r.vvip == s.vvip && r.actionTimer == s.actionTimer
  {
    ResetToHome(s.(openAction := false)).(selectedSpeaker := None)
  }

  /** The number of slides of the current node's slideshow. */
  function SlideCount(s: Display): nat {
    |SlideImages(s.currentNode)|
  }

  /** The slideshow's next, previous and dot buttons. */
  function NextSlide(s: Display): (r: Display)
    requires SlideCount(s) > 0
    ensures r.slideIndex < SlideCount(s) && r == s.(slideIndex := r.slideIndex)
  {
    s.(slideIndex := NextIndex(s.slideIndex, SlideCount(s)))
  }

  function PrevSlide(s: Display): (r: Display)
    requires SlideCount(s) > 0
    ensures r.slideIndex < SlideCount(s) && r == s.(slideIndex := r.slideIndex)
  {
    s.(slideIndex := PrevIndex(s.slideIndex, SlideCount(s)))
  }

  function SelectSlide(s: Display, i: nat): (r: Display)
    requires i < SlideCount(s)
    ensures r.slideIndex == i && r == s.(slideIndex := i)
  {
    s.(slideIndex := i)
  }

  /** Previous after next returns to the slide shown before. */
  lemma PrevAfterNext(s: Display)
    requires SlideCount(s) > 0 && SlideInRange(s.currentNode, s.slideIndex)
    ensures PrevSlide(NextSlide(s)) == s
  {
    PrevNextInverse(s.slideIndex, SlideCount(s));
  }

  /** The home/node video starts playing: any pending auto-open is dropped;
      if the current node has an action, the speaker selection clears and a
      new auto-open is armed for that node 5 s from now. */
  function OnPlay(s: Display): (r: Display)
    requires s.vvip.None? && s.currentVideo != "" && !s.loading
    ensures s.currentNode.Some? && s.currentNode.value.action.Some? ==>
      r.actionTimer == Some(ActionTimer(s.now + ActionDelayMs, s.currentNode.value)) && r.selectedSpeaker.None?
    ensures !(s.currentNode.Some? && s.currentNode.value.action.Some?) ==>
      r.actionTimer.None? && r.selectedSpeaker == s.selectedSpeaker
    ensures !r.videoLoading && r.currentNode == s.currentNode && r.openAction == s.openAction && SameContext(s, r)
    ensures r.currentVideo == s.currentVideo && r.vvip == s.vvip && r.slideIndex == s.slideIndex
    ensures r.homeVideoKey == s.homeVideoKey
  {
    var armed := if s.currentNode.Some? && s.currentNode.value.action.Some?
      then s.(selectedSpeaker := None, actionTimer := Some(ActionTimer(s.now + ActionDelayMs, s.currentNode.value)))
      else s.(actionTimer := None);
    armed.(videoLoading := false)
  }

  /** The auto-open fires: the overlay opens on the node it was armed for. */
  function FireActionTimer(s: Display): (r: Display)
    requires s.actionTimer.Some? && s.actionTimer.value.due == s.now
    ensures r.openAction && r.currentNode == Some(s.actionTimer.value.node) && r.actionTimer.None?
    ensures SameContext(s, r) && r.vvip == s.vvip && r.selectedSpeaker == s.selectedSpeaker
    ensures r.slideIndex == if s.currentNode == Some(s.actionTimer.value.node) then s.slideIndex else 0
    ensures r.currentVideo == s.currentVideo && r.homeVideoKey == s.homeVideoKey && r.videoLoading == s.videoLoading
  {
    WithNode(s, Some(s.actionTimer.value.node)).(openAction := true, actionTimer := None)
  }

  /** Navigating away does not cancel a pending auto-open: when it fires, the
      overlay opens on the node it was armed for, not on the node clicked. */
  lemma AutoOpenSurvivesNavigation(s: Display, n: Node)
    requires s.vvip.None? && !s.loading && n in Displayed(s)
    requires s.actionTimer.Some? && s.actionTimer.value.due == s.now
    ensures FireActionTimer(ClickNode(s, n)).currentNode == Some(s.actionTimer.value.node)
    ensures FireActionTimer(ClickNode(s, n)).openAction
  {
  }

  /** A VVIP takeover does not cancel a pending auto-open either: when it
      fires, the overlay opens on the earlier node over the VVIP's video. */
  lemma AutoOpenSurvivesTakeover(s: Display, v: Vvip)
    requires s.vvip.None? && s.actionTimer.Some? && s.actionTimer.value.due == s.now
    ensures var r := FireActionTimer(ReconcileVvip(s, Playing(v)));
      r.vvip == Some(v) && r.openAction && r.currentNode == Some(s.actionTimer.value.node)
  {
  }

  /** Any touch, click, key or mouse event restarts the inactivity
      countdown. */
  function UserInput(s: Display): (r: Display)
    ensures r.inactivityDue == Some(s.now + InactivityMs) && r == s.(inactivityDue := r.inactivityDue)
  {
    s.(inactivityDue := Some(s.now + InactivityMs))
  }

  /** The inactivity countdown expires: back to home. */
  function FireInactivity(s: Display): (r: Display)
    requires s.inactivityDue == Some(s.now)
    ensures r.inactivityDue.None? && r.vvip == s.vvip
    ensures s.home.Some? ==> r.currentNode.None? && !r.openAction && r.currentVideo == HomeVideoUrl(s.home)
    ensures s.home.Some? ==> r.homeVideoKey == s.homeVideoKey + 1
    ensures s.home.Some? ==> r.slideIndex == if s.currentNode.Some? then 0 else s.slideIndex
    ensures s.home.None? ==> r == s.(inactivityDue := None)
    ensures SameContext(s.(inactivityDue := None), r) && r.selectedSpeaker == s.selectedSpeaker
    ensures r.actionTimer == s.actionTimer && r.videoLoading == s.videoLoading
  {
    ResetToHome(s).(inactivityDue := None)
  }

  /** Four minutes without input return any screen to home (given the home
      record is loaded and nothing else fires first). */
  lemma IdleReturnsHome(s: Display)
    requires s.home.Some?
    ensures var idle := UserInput(s);
      var later := idle.(now := idle.now + InactivityMs);
      && FireInactivity(later).currentNode.None?
      && !FireInactivity(later).openAction
      && FireInactivity(later).currentVideo == HomeVideoUrl(s.home)
  {
  }

  /** Time passes, up to the next pending deadline. */
  function Tick(s: Display, dt: nat): (r: Display)
    requires s.actionTimer.Some? ==> s.now + dt <= s.actionTimer.value.due
    requires s.inactivityDue.Some? ==> s.now + dt <= s.inactivityDue.value
    ensures r.now == s.now + dt && r == s.(now := r.now)
  {
    s.(now := s.now + dt)
  }

  /** The startup fetch of the home record and the tree. */
  datatype Loaded = Loaded(home: Option<Home>, tree: seq<Node>)

  /** Its outcome: on success the home record, the tree and the home video
      are set and (the home record having changed) the inactivity countdown
      restarts; the loader goes away in every case. */
  function Load(s: Display, outcome: Response<Loaded>): (r: Display)
    ensures !r.loading
    ensures outcome.Received? ==> r.home == outcome.data.home && r.tree == outcome.data.tree
    ensures outcome.Received? ==>
      r.currentVideo == HomeVideoUrl(outcome.data.home) && r.inactivityDue == Some(s.now + InactivityMs)
    ensures outcome.Failed? ==> r == s.(loading := false)
    ensures r == s.(home := r.home, tree := r.tree, currentVideo := r.currentVideo, loading := false,
                    inactivityDue := r.inactivityDue)
  {
    match outcome
    case Failed => s.(loading := false)
    case Received(data) =>
      s.(home := data.home, tree := data.tree, currentVideo := HomeVideoUrl(data.home), loading := false,
         inactivityDue := Some(s.now + InactivityMs))
  }

  /** The agenda poll's two reads: the endpoint's pair, and the listing of
      documents of which the first is used. */
  datatype AgendaRead = AgendaRead(active: Option<ActivePair>, list: seq<AgendaDoc>)

  /** Its outcome: the pair and the first document are stored and the
      speaker list becomes that document's items; a failed read changes
      nothing. */
  function AgendaPoll(s: Display, outcome: Response<AgendaRead>): (r: Display)
    ensures outcome.Failed? ==> r == s
    ensures outcome.Received? ==> r.agendaActive == outcome.data.active && r.agendaDoc == FirstDoc(outcome.data.list)
    ensures outcome.Received? ==> r.allSpeakers == if outcome.data.list == [] then [] else outcome.data.list[0].items
    ensures r == s.(agendaActive := r.agendaActive, agendaDoc := r.agendaDoc, allSpeakers := r.allSpeakers)
  {
    match outcome
    case Failed => s
    case Received(data) =>
      var doc := FirstDoc(data.list);
      s.(agendaActive := data.active, agendaDoc := doc, allSpeakers := if doc.Some? then doc.value.items else [])
  }

  /** The active speaker shown in the footer. */
  function ShownSpeaker(s: Display): Option<AgendaItem> {
    ActiveSpeaker(s.agendaDoc, s.agendaActive)
  }

  /** The footer never lists the active speaker in the marquee. */
  lemma ActiveNotInMarquee(s: Display)
    ensures ShownSpeaker(s).Some? ==> forall x :: x in Marquee(s.allSpeakers, ShownSpeaker(s)) ==> x.id != ShownSpeaker(s).value.id
  {
  }

  // ---------------------------------------------------------------------
  // Every transition keeps the state valid.

  lemma InitialValid()
    ensures Valid(Initial())
  {
  }

  lemma ResetToHomeValid(s: Display)
    requires Valid(s)
    ensures Valid(ResetToHome(s))
  {
  }

  lemma ReconcileVvipValid(s: Display, poll: VvipPoll)
    requires Valid(s)
    ensures Valid(ReconcileVvip(s, poll))
  {
  }

  lemma ClickNodeValid(s: Display, n: Node)
    requires Valid(s) && s.vvip.None? && !s.loading && n in Displayed(s)
    ensures Valid(ClickNode(s, n))
  {
    if s.currentNode.Some? {
      ChildInForest(s.tree, s.currentNode.value, n);
    } else {
      var i :| 0 <= i < |s.tree| && s.tree[i] == n;
      FlattenContainsRoots(s.tree, i);
    }
  }

  lemma BackValid(s: Display)
    requires Valid(s)
    ensures Valid(Back(s))
  {
    if s.currentNode.Some? {
      FindParentNodeComplete(s.tree, s.currentNode.value.id);
    }
  }

  lemma SelectSpeakerValid(s: Display, sp: AgendaItem)
    requires Valid(s)
    ensures Valid(SelectSpeaker(s, sp))
  {
  }

  lemma CloseDialogValid(s: Display)
    requires Valid(s)
    ensures Valid(CloseDialog(s))
  {
  }

  lemma SlideStepsValid(s: Display, i: nat)
    requires Valid(s) && SlideCount(s) > 0
    ensures Valid(NextSlide(s)) && Valid(PrevSlide(s))
    ensures i < SlideCount(s) ==> Valid(SelectSlide(s, i))
  {
  }

  lemma OnPlayValid(s: Display)
    requires Valid(s) && s.vvip.None? && s.currentVideo != "" && !s.loading
    ensures Valid(OnPlay(s))
  {
  }

  lemma FireActionTimerValid(s: Display)
    requires Valid(s) && s.actionTimer.Some? && s.actionTimer.value.due == s.now
    ensures Valid(FireActionTimer(s))
  {
  }

  lemma TimeStepsValid(s: Display, dt: nat)
    requires Valid(s)
    requires s.actionTimer.Some? ==> s.now + dt <= s.actionTimer.value.due
    requires s.inactivityDue.Some? ==> s.now + dt <= s.inactivityDue.value
    ensures Valid(Tick(s, dt)) && Valid(UserInput(s))
    ensures s.inactivityDue == Some(s.now) ==> Valid(FireInactivity(s))
  {
  }

  lemma LoadValid(s: Display, outcome: Response<Loaded>)
    requires Valid(s) && s.loading
    ensures Valid(Load(s, outcome))
  {
  }

  lemma AgendaPollValid(s: Display, outcome: Response<AgendaRead>)
    requires Valid(s)
    ensures Valid(AgendaPoll(s, outcome))
  {
  }

  /** In a valid state the overlay always renders: the slide index never
      reads past the current slideshow's images. */
  lemma ValidNeverCrashes(s: Display, encode: string -> string)
    requires Valid(s)
    ensures RenderActionContent(s.selectedSpeaker, s.currentNode, s.slideIndex, encode) != RenderCrash
  {
    InRangeNeverCrashes(s.selectedSpeaker, s.currentNode, s.slideIndex, encode);
  }
}
