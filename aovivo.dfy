/**
 * The `AoVivo` page: videos split into live and recorded, the category tabs,
 * the YouTube thumbnail and player addresses, and the player overlay state.
 */
module LivePage {
  import opened Wrappers
  import opened Seqs
  import opened JsValue

  datatype Video = Video(
    id: string, title: string, isLive: bool, category: Option<string>,
    youtubeId: Option<string>, thumbnailUrl: Option<string>, duration: Option<string>)

  predicate IsLive(v: Video) { v.isLive }

  predicate NotLive(v: Video) { !v.isLive }

  /** `liveVideos`. */
  function LiveVideos(videos: seq<Video>): seq<Video> {
    Filter(videos, IsLive)
  }

  /** `allVideos`: the videos that are not live. */
  function RecordedVideos(videos: seq<Video>): seq<Video> {
    Filter(videos, NotLive)
  }

  /** Every video lands in exactly one of the two lists, each keeping the input order. */
  lemma LiveRecordedPartition(videos: seq<Video>)
    ensures multiset(LiveVideos(videos)) + multiset(RecordedVideos(videos)) == multiset(videos)
    ensures forall v :: v in LiveVideos(videos) <==> v in videos && v.isLive
    ensures forall v :: v in RecordedVideos(videos) <==> v in videos && !v.isLive
    ensures Subseq(LiveVideos(videos), videos) && Subseq(RecordedVideos(videos), videos)
  {
    FilterPartition(videos, IsLive, NotLive);
    FilterIsSubseq(videos, IsLive);
    FilterIsSubseq(videos, NotLive);
  }

  predicate IsSermon(v: Video) {
    v.category == Some("pregacao") || v.category == Some("estudo")
  }

  predicate IsWorship(v: Video) {
    v.category == Some("louvor")
  }

  predicate RecordedSermon(v: Video) { !v.isLive && IsSermon(v) }

  predicate RecordedWorship(v: Video) { !v.isLive && IsWorship(v) }

  /** The `pregacoes` tab. */
  function SermonsTab(videos: seq<Video>): seq<Video> {
    Filter(RecordedVideos(videos), IsSermon)
  }

  /** The `louvor` tab. */
  function WorshipTab(videos: seq<Video>): seq<Video> {
    Filter(RecordedVideos(videos), IsWorship)
  }

  /**
   * The sermons tab holds exactly the recorded videos of category `pregacao`
   * or `estudo`, in input order; a live video never appears in it.
   */
  lemma SermonsTabSpec(videos: seq<Video>)
    ensures SermonsTab(videos) == Filter(videos, RecordedSermon)
    ensures forall v :: v in SermonsTab(videos) <==>
      v in videos && !v.isLive && (v.category == Some("pregacao") || v.category == Some("estudo"))
    ensures Subseq(SermonsTab(videos), RecordedVideos(videos))
  {
    FilterFilter(videos, NotLive, IsSermon, RecordedSermon);
    FilterIsSubseq(RecordedVideos(videos), IsSermon);
  }

  /** The worship tab holds exactly the recorded videos of category `louvor`, in input order. */
  lemma WorshipTabSpec(videos: seq<Video>)
    ensures WorshipTab(videos) == Filter(videos, RecordedWorship)
    ensures forall v :: v in WorshipTab(videos) <==> v in videos && !v.isLive && v.category == Some("louvor")
    ensures Subseq(WorshipTab(videos), RecordedVideos(videos))
  {
    FilterFilter(videos, NotLive, IsWorship, RecordedWorship);
    FilterIsSubseq(RecordedVideos(videos), IsWorship);
  }

  /** No video is in both category tabs. */
  lemma TabsDisjoint(videos: seq<Video>)
    ensures forall v :: !(v in SermonsTab(videos) && v in WorshipTab(videos))
  {
    FilterDisjoint(RecordedVideos(videos), IsSermon, IsWorship);
  }

  /** What the `todos` tab renders. */
  datatype TabContent = EmptyState | Cards(cards: seq<Video>)

  function AllTab(videos: seq<Video>): (r: TabContent)
    ensures r.EmptyState? <==> forall v :: v in videos ==> v.isLive
    ensures r.Cards? ==> r.cards != [] && forall v :: v in r.cards <==> v in videos && !v.isLive
    ensures r.Cards? ==> r.cards == RecordedVideos(videos)
  {
    var recorded := RecordedVideos(videos);
    assert recorded != [] ==> recorded[0] in recorded;
    if |recorded| == 0 then EmptyState else Cards(recorded)
  }

  /** Whether the "Ao Vivo Agora" section is rendered. */
  function ShowsLiveSection(videos: seq<Video>): (b: bool)
    ensures b <==> exists v :: v in videos && v.isLive
  {
    var live := LiveVideos(videos);
    assert live != [] ==> live[0] in live;
    |live| > 0
  }

  /** A value interpolated into a template literal; a missing column reads `null`. */
  function Interpolate(x: Option<string>): string {
    if x.Some? then x.value else "null"
  }

  const ThumbPrefix := "https://img.youtube.com/vi/"
  const ThumbSuffix := "/maxresdefault.jpg"
  const EmbedPrefix := "https://www.youtube.com/embed/"
  const EmbedSuffix := "?autoplay=1"

  /** The card image: `thumbnail_url`, or YouTube's full-size still for the video. */
  function Thumbnail(v: Video): (url: string)
    ensures TruthyText(v.thumbnailUrl) ==> url == v.thumbnailUrl.value
    ensures !TruthyText(v.thumbnailUrl) ==>
      |url| == |ThumbPrefix| + |Interpolate(v.youtubeId)| + |ThumbSuffix|
      && url[..|ThumbPrefix|] == ThumbPrefix
      && url[|ThumbPrefix|..|url| - |ThumbSuffix|] == Interpolate(v.youtubeId)
      && url[|url| - |ThumbSuffix|..] == ThumbSuffix
  {
    if TruthyText(v.thumbnailUrl) then v.thumbnailUrl.value
    else
      var url := ThumbPrefix + Interpolate(v.youtubeId) + ThumbSuffix;
      assert url[..|ThumbPrefix|] == ThumbPrefix;
      url
  }

  /** The player's `iframe` address, which starts the video on load. */
  function EmbedUrl(v: Video): (url: string)
    ensures |url| == |EmbedPrefix| + |Interpolate(v.youtubeId)| + |EmbedSuffix|
    ensures url[..|EmbedPrefix|] == EmbedPrefix
    ensures url[|EmbedPrefix|..|url| - |EmbedSuffix|] == Interpolate(v.youtubeId)
    ensures url[|url| - |EmbedSuffix|..] == EmbedSuffix
  {
    var url := EmbedPrefix + Interpolate(v.youtubeId) + EmbedSuffix;
    assert url[..|EmbedPrefix|] == EmbedPrefix;
    url
  }

  /** The video id read back out of a player address. */
  function EmbeddedId(url: string): string
    requires |url| >= |EmbedPrefix| + |EmbedSuffix|
  {
    url[|EmbedPrefix|..|url| - |EmbedSuffix|]
  }

  /** Videos with different ids get different player addresses. */
  lemma EmbedUrlInjective(a: Video, b: Video)
    requires a.youtubeId.Some? && b.youtubeId.Some?
    ensures EmbedUrl(a) == EmbedUrl(b) <==> a.youtubeId == b.youtubeId
  {
    if EmbedUrl(a) == EmbedUrl(b) {
      assert EmbeddedId(EmbedUrl(a)) == EmbeddedId(EmbedUrl(b));
    }
  }

  /** The badge with the running time, shown on recorded cards only. */
  function DurationBadge(v: Video, isLive: bool): (badge: Option<string>)
    ensures badge.Some? <==> TruthyText(v.duration) && !isLive
    ensures badge.Some? ==> badge == v.duration
  {
    if TruthyText(v.duration) && !isLive then v.duration else None
  }

  /** The `selectedVideo` state: the video open in the full-screen player, if any. */
  class VideoPlayer {
    var selected: Option<Video>

    constructor ()
      ensures selected == None
    {
      selected := None;
    }

    /** Whether the overlay is rendered. */
    predicate IsOpen()
      reads this
    {
      selected.Some?
    }

    /** The address the open player loads. */
    function PlayerUrl(): (url: Option<string>)
      reads this
      ensures url.Some? <==> IsOpen()
      ensures url.Some? ==> url.value == EmbedUrl(selected.value)
    {
      if selected.Some? then Some(EmbedUrl(selected.value)) else None
    }

    /** A click on a card opens that video, replacing any open one. */
    method ClickCard(v: Video)
      modifies this
      ensures selected == Some(v) && IsOpen()
    {
      selected := Some(v);
    }

    /** A click on the dark overlay closes the player. */
    method ClickOverlay()
      modifies this
      ensures selected == None && !IsOpen()
    {
      selected := None;
    }

    /** A click inside the player stops propagation, so the player stays as it is. */
    method ClickInsidePlayer()
      ensures selected == old(selected)
    {
    }
  }

  /** Opening a card and then clicking inside the player plays that card's video. */
  method OpenThenClickInside(v: Video) returns (url: Option<string>)
    ensures url == Some(EmbedUrl(v))
  {
    var player := new VideoPlayer();
    player.ClickCard(v);
    player.ClickInsidePlayer();
    url := player.PlayerUrl();
  }

  /** Opening a card and then clicking the overlay leaves nothing playing. */
  method OpenThenClose(v: Video) returns (url: Option<string>)
    ensures url == None
  {
    var player := new VideoPlayer();
    player.ClickCard(v);
    player.ClickOverlay();
    url := player.PlayerUrl();
  }
}
