/** The JSON shapes that the kiosk and the CMS receive from endpoints whose
    implementation is not part of this model (`/api/nodes/tree`, `/api/home`,
    `/api/vvips/playing`), and the HTTP requests the CMS sends. Absent string
    fields are "" (see module Common). */
module Entities {
  import opened Common

  /** A `{s3Url, subtitle: {s3Key}}` media reference; an absent video is `Video("", "")`. */
  datatype Video = Video(s3Url: string, subtitleKey: string)

  const NoVideo := Video("", "")

  /** A node's action descriptor. `kind` is the raw `type` string, so that an
      unknown type can be represented; `images` are the slideshow's image URLs. */
  datatype Action = Action(
    kind: string,
    s3Url: string,
    externalUrl: string,
    images: seq<string>,
    subtitleKey: string)

  /** A node of the content tree. `parent` is the node's own parent-id field
      ("" when absent); the kiosk only offers its back button when it is set. */
  datatype Node = Node(
    id: string,
    title: string,
    parent: string,
    video: Video,
    action: Option<Action>,
    children: Children)

  /** A node's `children` field, which may be missing altogether. */
  datatype Children = Absent | Present(nodes: seq<Node>)

  /** `node.children || []`: a missing children field reads as the empty list. */
  function Kids(n: Node): (r: seq<Node>)
    ensures n.children.Absent? ==> r == []
    ensures forall k :: k in r ==> k < n
  {
    match n.children
    case Absent => []
    case Present(ks) => ks
  }

  /** A VVIP record as served by `/api/vvips` and `/api/vvips/playing`. */
  datatype Vvip = Vvip(id: string, name: string, designation: string, video: Video, play: bool)

  /** The `/api/home` record: the home video and its subtitle. */
  datatype Home = Home(video: Video, subtitleKey: string)

  /** `home?.video?.s3Url || null`. */
  function HomeVideoUrl(home: Option<Home>): (r: string)
    ensures home.None? ==> r == ""
    ensures home.Some? ==> r == home.value.video.s3Url
  {
    match home
    case None => ""
    case Some(h) => h.video.s3Url
  }
}
