/** The kiosk's action overlay as a projection of the display state
    (`renderActionContent`), the slideshow's index arithmetic, and the
    subtitle-track paths of the video elements. */
module Overlay {
  import opened Common
  import opened Entities
  import opened AgendaSchema

  /** What the overlay presents. `RenderCrash` is the one outcome that is not
      content: reading an image past the end of a slideshow's list throws. */
  datatype Content =
    | SpeakerInfo(imageUrl: string)
    | NoInfoImage
    | Blank
    | Slide(imageUrl: string, index: nat, count: nat)
    | ImageView(url: string)
    | VideoView(url: string, track: Option<string>)
    | PdfView(viewerUrl: string)
    | FrameView(url: string)
    | NoActionAvailable
    | RenderCrash

  const SubtitlePrefix := "subtitles/"
  const SubtitleRoute := "/api/subtitles/"
  const PdfViewerPrefix := "https://docs.google.com/gview?embedded=true&url="

  /** `pat` occurs in `s` at position `j`. */
  predicate OccursAt(s: string, pat: string, j: nat) {
    j + |pat| <= |s| && s[j..j + |pat|] == pat
  }

  /** `s.indexOf(pat)`: the first position where `pat` occurs. */
  function IndexOf(s: string, pat: string): (r: Option<nat>)
    ensures r.Some? ==> OccursAt(s, pat, r.value)
    ensures r.Some? ==> forall j :: 0 <= j < r.value ==> !OccursAt(s, pat, j)
    ensures r.None? ==> forall j :: 0 <= j <= |s| ==> !OccursAt(s, pat, j)
    decreases |s|
  {
    if StartsWith(s, pat) then Some(0)
    else if s == [] then None
    else
      var rest := IndexOf(s[1..], pat);
      assert forall j :: 1 <= j <= |s| ==> (OccursAt(s, pat, j) <==> OccursAt(s[1..], pat, j - 1)) by {
        forall j | 1 <= j <= |s| ensures OccursAt(s, pat, j) <==> OccursAt(s[1..], pat, j - 1) {
          if j + |pat| <= |s| {
            TailSlice(s, j - 1, j - 1 + |pat|);
          }
        }
      }
      match rest
      case None => None
      case Some(k) => Some(k + 1)
  }

  /** A slice of the tail is the slice one position further on. */
  lemma TailSlice(s: string, a: nat, b: nat)
    requires s != [] && a <= b <= |s| - 1
    ensures s[1..][a..b] == s[a + 1..b + 1]
  {
    forall t | 0 <= t < b - a ensures s[1..][a..b][t] == s[a + 1..b + 1][t] {
      assert s[1..][a..b][t] == s[a + 1 + t];
    }
  }

  /** `s.replace(pat, rep)` with a string pattern: only the first occurrence
      is replaced. */
  function ReplaceFirst(s: string, pat: string, rep: string): (r: string)
    ensures IndexOf(s, pat).None? ==> r == s
    ensures IndexOf(s, pat).Some? ==>
      var i := IndexOf(s, pat).value; r == s[..i] + rep + s[i + |pat|..]
  {
    match IndexOf(s, pat)
    case None => s
    case Some(i) => s[..i] + rep + s[i + |pat|..]
  }

  /** `/api/subtitles/${encodeURIComponent(key.replace("subtitles/", ""))}`;
      the URI encoder is a parameter. */
  function SubtitleTrack(key: string, encode: string -> string): (r: string)
    ensures StartsWith(r, SubtitleRoute)
    ensures IndexOf(key, SubtitlePrefix).None? ==> r == SubtitleRoute + encode(key)
  {
    SubtitleRoute + encode(ReplaceFirst(key, SubtitlePrefix, ""))
  }

  /** A key stored under the `subtitles/` folder loses exactly that folder. */
  lemma SubtitleFolderStripped(name: string, encode: string -> string)
    ensures SubtitleTrack(SubtitlePrefix + name, encode) == SubtitleRoute + encode(name)
  {
    var key := SubtitlePrefix + name;
    assert StartsWith(key, SubtitlePrefix);
    assert IndexOf(key, SubtitlePrefix) == Some(0);
    assert key[..0] + "" + key[|SubtitlePrefix|..] == name;
  }

  /** The track of the home/node video: the current node's subtitle, else the
      home subtitle, else none. */
  function MainVideoTrack(node: Option<Node>, home: Option<Home>, encode: string -> string): (r: Option<string>)
    ensures r.None? <==>
      (node.None? || node.value.video.subtitleKey == "") && (home.None? || home.value.subtitleKey == "")
    ensures node.Some? && node.value.video.subtitleKey != "" ==>
      r == Some(SubtitleTrack(node.value.video.subtitleKey, encode))
    ensures (node.None? || node.value.video.subtitleKey == "") && home.Some? && home.value.subtitleKey != "" ==>
      r == Some(SubtitleTrack(home.value.subtitleKey, encode))
  {
    if node.Some? && node.value.video.subtitleKey != "" then Some(SubtitleTrack(node.value.video.subtitleKey, encode))
    else if home.Some? && home.value.subtitleKey != "" then Some(SubtitleTrack(home.value.subtitleKey, encode))
    else None
  }

  /** The optional track of a VVIP's video. */
  function VvipTrack(v: Vvip, encode: string -> string): (r: Option<string>)
    ensures r.None? <==> v.video.subtitleKey == ""
    ensures r.Some? ==> r.value == SubtitleTrack(v.video.subtitleKey, encode)
  {
    if v.video.subtitleKey != "" then Some(SubtitleTrack(v.video.subtitleKey, encode)) else None
  }

  /** Next-slide button: `(i + 1) % n`. */
  function NextIndex(i: nat, n: nat): (r: nat)
    requires n > 0
    ensures r < n
  {
    (i + 1) % n
  }

  /** Previous-slide button: `(i - 1 + n) % n`; the dividend is never negative
      for a non-negative index, so JavaScript's `%` and Dafny's agree. */
  function PrevIndex(i: nat, n: nat): (r: nat)
    requires n > 0
    ensures r < n
  {
    (i - 1 + n) % n
  }

  /** Both buttons wrap around at the ends. */
  lemma SlideWrap(n: nat)
    requires n > 0
    ensures NextIndex(n - 1, n) == 0 && PrevIndex(0, n) == n - 1
  {
  }

  /** The remainder of a dividend below twice the divisor. */
  lemma ModOnce(x: int, n: int)
    requires 0 <= x < 2 * n
    ensures x % n == if x < n then x else x - n
  {
    if x < n {
      assert x == 0 * n + x;
    } else {
      assert x == 1 * n + (x - n);
    }
  }

  /** Previous undoes next, and next undoes previous, on an index in range. */
  lemma PrevNextInverse(i: nat, n: nat)
    requires i < n
    ensures PrevIndex(NextIndex(i, n), n) == i
    ensures NextIndex(PrevIndex(i, n), n) == i
  {
    ModOnce(i + 1, n);
    var j := NextIndex(i, n);
    ModOnce(j - 1 + n, n);
    ModOnce(i - 1 + n, n);
    var k := PrevIndex(i, n);
    ModOnce(k + 1, n);
  }

  /** The images of a node's slideshow action, empty for any other node. */
  function SlideImages(node: Option<Node>): seq<string> {
    if node.Some? && node.value.action.Some? && node.value.action.value.kind == "slideshow"
    then node.value.action.value.images else []
  }

  /** `renderActionContent`: a selected speaker wins; then a node without an
      action renders nothing; then the action's type chooses the viewer, with
      `s3Url || externalUrl` as the resource. */
  function RenderActionContent(selected: Option<AgendaItem>, node: Option<Node>, slideIndex: nat,
                               encode: string -> string): (r: Content)
    ensures selected.Some? ==> r.SpeakerInfo? || r.NoInfoImage?
    ensures selected.None? ==> (r == Blank <==> node.None? || node.value.action.None?)
    ensures r == RenderCrash <==> selected.None? && 0 < |SlideImages(node)| <= slideIndex
  {
    if selected.Some? then
      if selected.value.infoImageUrl != "" then SpeakerInfo(selected.value.infoImageUrl) else NoInfoImage
    else if node.None? || node.value.action.None? then Blank
    else
      var a := node.value.action.value;
      var url := Or(a.s3Url, a.externalUrl);
      if a.kind == "slideshow" && |a.images| > 0 then
        if slideIndex < |a.images| then Slide(a.images[slideIndex], slideIndex, |a.images|) else RenderCrash
      else if a.kind == "image" then ImageView(url)
      else if a.kind == "video" then
        VideoView(url, if a.subtitleKey != "" then Some(SubtitleTrack(a.subtitleKey, encode)) else None)
      else if a.kind == "pdf" then PdfView(PdfViewerPrefix + encode(url))
      else if a.kind == "iframe" then FrameView(url)
      else NoActionAvailable
  }

  /** A selected speaker short-circuits the node's action entirely. */
  lemma SpeakerShortCircuits(sp: AgendaItem, n1: Option<Node>, n2: Option<Node>, i: nat, j: nat,
                             encode: string -> string)
    ensures RenderActionContent(Some(sp), n1, i, encode) == RenderActionContent(Some(sp), n2, j, encode)
    ensures RenderActionContent(Some(sp), n1, i, encode) == NoInfoImage <==> sp.infoImageUrl == ""
  {
  }

  /** An empty slideshow and an unknown type both give the explicit
      placeholder rather than a blank overlay. */
  lemma PlaceholderCases(n: Node, i: nat, encode: string -> string)
    requires n.action.Some?
    requires var a := n.action.value;
      (a.kind == "slideshow" && a.images == []) || a.kind !in {"slideshow", "image", "video", "pdf", "iframe"}
    ensures RenderActionContent(None, Some(n), i, encode) == NoActionAvailable
  {
  }

  /** Single-resource viewers use `s3Url`, falling back to `externalUrl`. */
  lemma ResourceUrlFallback(n: Node, i: nat, encode: string -> string)
    requires n.action.Some? && n.action.value.kind in {"image", "iframe"}
    ensures var a := n.action.value;
      RenderActionContent(None, Some(n), i, encode).url == (if a.s3Url != "" then a.s3Url else a.externalUrl)
  {
  }

  // ---------------------------------------------------------------------
  // The slide index across navigation.

  /** The slide index addresses an image of the node's slideshow (or the node
      has no non-empty slideshow). */
  predicate SlideInRange(node: Option<Node>, slideIndex: nat) {
    |SlideImages(node)| > 0 ==> slideIndex < |SlideImages(node)|
  }

  /** As written, changing the current node leaves the slide index where the
      previous slideshow left it. */
  function SlideIndexOnNavigateAsWritten(from: Option<Node>, to: Option<Node>, slideIndex: nat): (r: nat)
    ensures r == slideIndex
  {
    slideIndex
  }

  /** Corrected: the index restarts at the first slide whenever the current
      node changes, so it stays within the new node's slideshow. */
  function SlideIndexOnNavigate(from: Option<Node>, to: Option<Node>, slideIndex: nat): (r: nat)
    ensures SlideInRange(from, slideIndex) ==> SlideInRange(to, r)
    ensures from == to ==> r == slideIndex
  {
    if from == to then slideIndex else 0
  }

  /** While the index is in range, rendering never reads past the images. */
  lemma InRangeNeverCrashes(selected: Option<AgendaItem>, node: Option<Node>, i: nat, encode: string -> string)
    requires SlideInRange(node, i)
    ensures RenderActionContent(selected, node, i, encode) != RenderCrash
  {
  }

  /** A five-image slideshow advanced to its last slide, then a two-image
      slideshow opened: as written, the stale index 4 is read past the end of
      the second list; with the corrected reset it shows the first slide. */
  lemma StaleSlideIndexCrashes(encode: string -> string)
    ensures
      var five := Node("a", "A", "", NoVideo, Some(Action("slideshow", "", "", ["1", "2", "3", "4", "5"], "")), Absent);
      var two := Node("b", "B", "", NoVideo, Some(Action("slideshow", "", "", ["x", "y"], "")), Absent);
      var i := NextIndex(NextIndex(NextIndex(NextIndex(0, 5), 5), 5), 5);
      && SlideInRange(Some(five), i)
      && RenderActionContent(None, Some(five), i, encode) == Slide("5", 4, 5)
      && RenderActionContent(None, Some(two), SlideIndexOnNavigateAsWritten(Some(five), Some(two), i), encode) == RenderCrash
      && RenderActionContent(None, Some(two), SlideIndexOnNavigate(Some(five), Some(two), i), encode) == Slide("x", 0, 2)
  {
  }
}
