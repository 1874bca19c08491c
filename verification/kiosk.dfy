/** The kiosk screen as the object it is in the source: its display fields
    are updated in place by the handlers. Each method performs the
    transition of `KioskState` of the same name and keeps `Valid`. */
module Kiosk {
  import opened Common
  import opened Entities
  import opened AgendaSchema
  import opened ActiveAgenda
  import opened TreeSearch
  import opened Overlay
  import opened Http
  import opened KioskState

  class KioskDisplay {
    var home: Option<Home>
    var tree: seq<Node>
    var loading: bool
    var currentVideo: string
    var currentNode: Option<Node>
    var openAction: bool
    var vvip: Option<Vvip>
    var selectedSpeaker: Option<AgendaItem>
    var slideIndex: nat
    var homeVideoKey: nat
    var videoLoading: bool
    var agendaActive: Option<ActivePair>
    var agendaDoc: Option<AgendaDoc>
    var allSpeakers: seq<AgendaItem>
    var now: nat
    var actionTimer: Option<ActionTimer>
    var inactivityDue: Option<nat>

    /** The fields, as a value. */
    function State(): Display
      reads this
    {
      Display(home, tree, loading, currentVideo, currentNode, openAction, vvip, selectedSpeaker, slideIndex,
              homeVideoKey, videoLoading, agendaActive, agendaDoc, allSpeakers, now, actionTimer, inactivityDue)
    }

    /** Mounting: the loader shows and the inactivity timer is armed. */
    constructor ()
      ensures State() == Initial() && Valid(State())
    {
      home, tree, loading, currentVideo := None, [], true, "";
      currentNode, openAction, vvip, selectedSpeaker := None, false, None, None;
      slideIndex, homeVideoKey, videoLoading := 0, 0, false;
      agendaActive, agendaDoc, allSpeakers := None, None, [];
      now, actionTimer, inactivityDue := 0, None, Some(InactivityMs);
      InitialValid();
    }

    /** `setCurrentNode`, restarting the slideshow on a different node. */
    method SetCurrentNode(n: Option<Node>)
      modifies this`currentNode, this`slideIndex
      ensures currentNode == n
      ensures slideIndex == SlideIndexOnNavigate(old(currentNode), n, old(slideIndex))
    {
      if currentNode != n {
        slideIndex := 0;
      }
      currentNode := n;
    }

    /** `resetToHome`, shared by the handlers that return to the home
        screen. */
    method ResetHome()
      modifies this
      ensures State() == ResetToHome(old(State()))
    {
      if home.Some? {
        GoHome();
      }
    }

    /** The part of `resetToHome` past its guard. */
    method GoHome()
      requires home.Some?
      modifies this
      ensures State() == ResetToHome(old(State()))
    {
      ghost var s := State();
      SetCurrentNode(None);
      currentVideo, openAction, homeVideoKey := HomeVideoUrl(home), false, homeVideoKey + 1;
      assert State() == WithNode(s, None).(currentVideo := HomeVideoUrl(s.home), openAction := false,
                                           homeVideoKey := s.homeVideoKey + 1);
    }

    /** The home button shown while a node is current. */
    method OnHomeButton()
      requires Valid(State())
      modifies this
      ensures State() == ResetToHome(old(State())) && Valid(State())
    {
      ResetToHomeValid(State());
      ResetHome();
    }

    /** A different VVIP takes over the screen. */
    method TakeOver(v: Vvip)
      modifies this
      ensures State() == WithNode(old(State()), None).(vvip := Some(v), currentVideo := v.video.s3Url,
                                                      openAction := false, videoLoading := true)
    {
      SetCurrentNode(None);
      vvip, currentVideo, openAction, videoLoading := Some(v), v.video.s3Url, false, true;
    }

    /** The VVIP poll's handler, given what the poll returned. */
    method OnVvipPoll(poll: VvipPoll)
      requires Valid(State())
      modifies this
      ensures State() == ReconcileVvip(old(State()), poll) && Valid(State())
    {
      ReconcileVvipValid(State(), poll);
      match poll {
        case Playing(v) =>
          if vvip.None? || vvip.value.id != v.id || vvip.value.video.s3Url != v.video.s3Url {
            TakeOver(v);
          }
        case NonePlaying =>
          if vvip.Some? {
            vvip := None;
            ResetHome();
          }
        case PollFailed =>
      }
    }

    /** A node click's updates. */
    method ShowNode(n: Node)
      requires vvip.None? && !loading && n in Displayed(State())
      modifies this
      ensures State() == ClickNode(old(State()), n)
    {
      ghost var s := State();
      var video := if n.video.s3Url != "" then n.video.s3Url else Or(currentVideo, HomeVideoUrl(home));
      SetCurrentNode(Some(n));
      currentVideo, videoLoading, openAction := video, n.video.s3Url != "", false;
      assert State() == WithNode(s, Some(n)).(currentVideo := video, videoLoading := n.video.s3Url != "",
                                              openAction := false);
    }

    method OnNodeClick(n: Node)
      requires Valid(State()) && vvip.None? && !loading && n in Displayed(State())
      modifies this
      ensures State() == ClickNode(old(State()), n) && Valid(State())
    {
      ClickNodeValid(State(), n);
      ShowNode(n);
    }

    /** Moving up to a parent node found by the back button. */
    method MoveToParent(parent: Node)
      modifies this
      ensures State() == WithNode(old(State()), Some(parent)).(
        currentVideo := Or(parent.video.s3Url, HomeVideoUrl(old(home))), videoLoading := parent.video.s3Url != "")
    {
      SetCurrentNode(Some(parent));
      currentVideo := Or(parent.video.s3Url, HomeVideoUrl(home));
      videoLoading := parent.video.s3Url != "";
    }

    /** The back button's updates. */
    method GoBack()
      modifies this
      ensures State() == Back(old(State()))
    {
      if currentNode.None? {
        ResetHome();
        return;
      }
      var parent := FindParentNode(tree, currentNode.value.id);
      if parent.Some? {
        MoveToParent(parent.value);
      } else {
        ResetHome();
      }
      openAction := false;
      selectedSpeaker := None;
    }

    method OnBack()
      requires Valid(State())
      modifies this
      ensures State() == Back(old(State())) && Valid(State())
    {
      BackValid(State());
      GoBack();
    }

    method OnSpeakerClick(sp: AgendaItem)
      requires Valid(State())
      modifies this
      ensures State() == SelectSpeaker(old(State()), sp) && Valid(State())
    {
      SelectSpeakerValid(State(), sp);
      selectedSpeaker := Some(sp);
      openAction := true;
    }

    /** The overlay's backdrop and its home button. */
    method OnDialogClose()
      requires Valid(State())
      modifies this
      ensures State() == CloseDialog(old(State())) && Valid(State())
    {
      CloseDialogValid(State());
      openAction := false;
      ResetHome();
      selectedSpeaker := None;
    }

    method OnNextSlide()
      requires Valid(State()) && SlideCount(State()) > 0
      modifies this
      ensures State() == NextSlide(old(State())) && Valid(State())
    {
      SlideStepsValid(State(), 0);
      slideIndex := NextIndex(slideIndex, SlideCount(State()));
    }

    method OnPrevSlide()
      requires Valid(State()) && SlideCount(State()) > 0
      modifies this
      ensures State() == PrevSlide(old(State())) && Valid(State())
    {
      SlideStepsValid(State(), 0);
      slideIndex := PrevIndex(slideIndex, SlideCount(State()));
    }

    method OnDotClick(i: nat)
      requires Valid(State()) && i < SlideCount(State())
      modifies this
      ensures State() == SelectSlide(old(State()), i) && Valid(State())
    {
      SlideStepsValid(State(), i);
      slideIndex := i;
    }

    /** The home/node video's play event. */
    method PlayVideo()
      requires vvip.None? && currentVideo != "" && !loading
      modifies this
      ensures State() == OnPlay(old(State()))
    {
      actionTimer := None;
      if currentNode.Some? && currentNode.value.action.Some? {
        selectedSpeaker := None;
        actionTimer := Some(ActionTimer(now + ActionDelayMs, currentNode.value));
      }
      videoLoading := false;
    }

    method OnVideoPlay()
      requires Valid(State()) && vvip.None? && currentVideo != "" && !loading
      modifies this
      ensures State() == OnPlay(old(State())) && Valid(State())
    {
      OnPlayValid(State());
      PlayVideo();
    }

    /** The action timer's updates: the overlay opens on the timer's node. */
    method OpenAction()
      requires actionTimer.Some? && actionTimer.value.due == now
      modifies this
      ensures State() == FireActionTimer(old(State()))
    {
      var node := actionTimer.value.node;
      SetCurrentNode(Some(node));
      actionTimer, openAction := None, true;
    }

    method OnActionTimer()
      requires Valid(State()) && actionTimer.Some? && actionTimer.value.due == now
      modifies this
      ensures State() == FireActionTimer(old(State())) && Valid(State())
    {
      FireActionTimerValid(State());
      OpenAction();
    }

    method OnUserInput()
      requires Valid(State())
      modifies this
      ensures State() == UserInput(old(State())) && Valid(State())
    {
      TimeStepsValid(State(), 0);
      inactivityDue := Some(now + InactivityMs);
    }

    method OnInactivityTimer()
      requires Valid(State()) && inactivityDue == Some(now)
      modifies this
      ensures State() == FireInactivity(old(State())) && Valid(State())
    {
      TimeStepsValid(State(), 0);
      GoIdle();
    }

    /** The inactivity timer's updates. */
    method GoIdle()
      requires inactivityDue == Some(now)
      modifies this
      ensures State() == FireInactivity(old(State()))
    {
      ResetHome();
      inactivityDue := None;
    }

    method Advance(dt: nat)
      requires Valid(State())
      requires actionTimer.Some? ==> now + dt <= actionTimer.value.due
      requires inactivityDue.Some? ==> now + dt <= inactivityDue.value
      modifies this
      ensures State() == Tick(old(State()), dt) && Valid(State())
    {
      TimeStepsValid(State(), dt);
      now := now + dt;
    }

    /** The startup fetch's completion. */
    method ApplyLoad(outcome: Response<Loaded>)
      modifies this
      ensures State() == Load(old(State()), outcome)
    {
      ghost var s := State();
      match outcome {
        case Failed =>
          loading := false;
          assert State() == s.(loading := false);
        case Received(data) =>
          Install(data);
          assert State() == s.(home := data.home, tree := data.tree, currentVideo := HomeVideoUrl(data.home),
                               loading := false, inactivityDue := Some(s.now + InactivityMs));
      }
    }

    /** The fetched home record and tree replace the loader. */
    method Install(data: Loaded)
      modifies this`home, this`tree, this`currentVideo, this`loading, this`inactivityDue
      ensures home == data.home && tree == data.tree && currentVideo == HomeVideoUrl(data.home)
      ensures !loading && inactivityDue == Some(now + InactivityMs)
    {
      home, tree, currentVideo, loading := data.home, data.tree, HomeVideoUrl(data.home), false;
      inactivityDue := Some(now + InactivityMs);
    }

    method OnLoaded(outcome: Response<Loaded>)
      requires Valid(State()) && loading
      modifies this
      ensures State() == Load(old(State()), outcome) && Valid(State())
    {
      LoadValid(State(), outcome);
      ApplyLoad(outcome);
    }

    /** The agenda poll's completion. */
    method OnAgendaPoll(outcome: Response<AgendaRead>)
      requires Valid(State())
      modifies this
      ensures State() == AgendaPoll(old(State()), outcome) && Valid(State())
    {
      AgendaPollValid(State(), outcome);
      ApplyAgendaPoll(outcome);
    }

    method ApplyAgendaPoll(outcome: Response<AgendaRead>)
      modifies this
      ensures State() == AgendaPoll(old(State()), outcome)
    {
      if outcome.Received? {
        var doc := FirstDoc(outcome.data.list);
        agendaActive, agendaDoc := outcome.data.active, doc;
        allSpeakers := if doc.Some? then doc.value.items else [];
      }
    }

    /** What the overlay shows right now; in a valid state it is never the
        out-of-range crash. */
    method Overlay(encode: string -> string) returns (c: Content)
      requires Valid(State())
      ensures c == RenderActionContent(selectedSpeaker, currentNode, slideIndex, encode)
      ensures c != RenderCrash
    {
      ValidNeverCrashes(State(), encode);
      c := RenderActionContent(selectedSpeaker, currentNode, slideIndex, encode);
    }
  }
}
