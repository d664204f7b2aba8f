/**
 * The focus-page music player: a playlist of YouTube tracks with an index
 * of the current track (-1 for none) and a playing flag that mirrors the
 * embedded player's state events.
 *
 * The YouTube IFrame API is outside the model: its state events and
 * readiness are inputs, and what a handler asks of the player (load a
 * video, set the volume, play, pause, stop) is returned as a list of
 * `Command`s in the order the handler issues them. Extracting a video id
 * from a URL (a regular expression) and fetching a title (a network call)
 * are parameters.
 */
module YouTubePlaylist {
  import opened Common
  import opened Text

  datatype Track = Track(id: string, title: string, url: string)

  datatype Player = Player(items: seq<Track>, current: int, playing: bool, newUrl: string)

  /** A request to the embedded player. */
  datatype Command = LoadVideo(videoId: string) | SetVolume(level: int) | PlayVideo | PauseVideo | StopVideo

  /**
   * What the handlers read besides the playlist: whether the embedded player
   * has reported ready, the video-id extractor, and the volume settings.
   */
  datatype Embed = Embed(playerReady: bool, videoIdOf: string -> Option<string>, volume: int, soundEnabled: bool)

  /** The numeric player states of the IFrame API. */
  const Unstarted: int := -1
  const Ended: int := 0
  const Playing: int := 1
  const Paused: int := 2
  const Buffering: int := 3
  const Cued: int := 5

  /** The volume the player is given: the slider value, or 0 when sound is off. */
  function VolumeLevel(e: Embed): (v: int)
    ensures e.soundEnabled ==> v == e.volume
    ensures !e.soundEnabled ==> v == 0
  {
    if e.soundEnabled then e.volume else 0
  }

  /** JavaScript's `%` on integers: the remainder takes the sign of the dividend. */
  function JsRem(a: int, n: int): (r: int)
    requires n > 0
    ensures a >= 0 ==> 0 <= r < n && r == a % n
    ensures a < 0 ==> -n < r <= 0
  {
    if a >= 0 then a % n else -((-a) % n)
  }

  /** The current index is a track of the list, or -1 for none. */
  predicate Valid(p: Player) {
    -1 <= p.current < |p.items|
  }

  /**
   * `loadAndPlayItem(index)`: when `index` names a track, the player is ready
   * and the track's URL holds a video id, that video is loaded and the volume
   * set; otherwise nothing is asked of the player.
   */
  function LoadAndPlay(items: seq<Track>, index: int, e: Embed): (cs: seq<Command>)
    ensures cs != [] <==> 0 <= index < |items| && e.playerReady && e.videoIdOf(items[index].url).Some?
    ensures cs != [] ==> cs == [LoadVideo(e.videoIdOf(items[index].url).value), SetVolume(VolumeLevel(e))]
  {
    if 0 <= index < |items| && e.playerReady then
      match e.videoIdOf(items[index].url)
      case None => []
      case Some(videoId) => [LoadVideo(videoId), SetVolume(VolumeLevel(e))]
    else []
  }

  /** The index move of `playNextItem`: on to the following track, wrapping round to the first. */
  function Next(p: Player): (r: Player)
    ensures |p.items| == 0 ==> r == p
    ensures r == p.(current := r.current)
    ensures |p.items| > 0 && -1 <= p.current ==> 0 <= r.current < |p.items|
    ensures |p.items| > 0 && -1 <= p.current < |p.items| - 1 ==> r.current == p.current + 1
    ensures |p.items| > 0 && p.current == |p.items| - 1 ==> r.current == 0
  {
    if |p.items| == 0 then p else p.(current := JsRem(p.current + 1, |p.items|))
  }

  /** The index move of `playPreviousItem`: back one track; from the first track, or none, to the last. */
  function Previous(p: Player): (r: Player)
    ensures |p.items| == 0 ==> r == p
    ensures r == p.(current := r.current)
    ensures |p.items| > 0 && p.current <= 0 ==> r.current == |p.items| - 1
    ensures |p.items| > 0 && p.current > 0 ==> r.current == p.current - 1
    ensures Valid(p) ==> Valid(r)
  {
    if |p.items| == 0 then p
    else p.(current := if p.current <= 0 then |p.items| - 1 else p.current - 1)
  }

  /** On a list with a current track, Next and Previous undo each other. */
  lemma NextPreviousInverse(p: Player)
    requires 0 <= p.current < |p.items|
    ensures Previous(Next(p)) == p
    ensures Next(Previous(p)) == p
  {
  }

  /**
   * `playNextItem`: nothing on an empty list; otherwise the index moves on
   * and the track now current is loaded, when the player can load it.
   */
  function PlayNext(p: Player, e: Embed): (r: (Player, seq<Command>))
    ensures |p.items| == 0 ==> r == (p, [])
    ensures r.0 == Next(p)
    ensures Valid(p) && |p.items| > 0 ==>
      && 0 <= r.0.current < |p.items|
      && (r.1 != [] <==> e.playerReady && e.videoIdOf(p.items[r.0.current].url).Some?)
      && (r.1 != [] ==> r.1 == [LoadVideo(e.videoIdOf(p.items[r.0.current].url).value), SetVolume(VolumeLevel(e))])
  {
    if |p.items| == 0 then (p, [])
    else
      var q := Next(p);
      (q, LoadAndPlay(p.items, q.current, e))
  }

  /** `playPreviousItem`: as `playNextItem`, one track back. */
  function PlayPrevious(p: Player, e: Embed): (r: (Player, seq<Command>))
    ensures |p.items| == 0 ==> r == (p, [])
    ensures r.0 == Previous(p)
    ensures Valid(p) && |p.items| > 0 ==>
      && 0 <= r.0.current < |p.items|
      && (r.1 != [] <==> e.playerReady && e.videoIdOf(p.items[r.0.current].url).Some?)
      && (r.1 != [] ==> r.1 == [LoadVideo(e.videoIdOf(p.items[r.0.current].url).value), SetVolume(VolumeLevel(e))])
  {
    if |p.items| == 0 then (p, [])
    else
      var q := Previous(p);
      (q, LoadAndPlay(p.items, q.current, e))
  }

  /** Going back after going forward returns to the same track and asks to load it again. */
  lemma PlayNextThenPrevious(p: Player, e: Embed)
    requires 0 <= p.current < |p.items|
    ensures PlayPrevious(PlayNext(p, e).0, e).0 == p
    ensures PlayPrevious(PlayNext(p, e).0, e).1 == LoadAndPlay(p.items, p.current, e)
  {
    NextPreviousInverse(p);
  }

  /**
   * `removeItem`: the track at `index` leaves the list and the current index
   * follows; removing the current track stops the player, when it is ready,
   * and playback.
   */
  function Remove(p: Player, index: int, e: Embed): (r: (Player, seq<Command>))
    requires 0 <= index < |p.items|
    ensures r.0.items == p.items[..index] + p.items[index + 1..]
    ensures r.0.newUrl == p.newUrl
    // removing the current track stops playback and keeps the index where it was, within the new list
    ensures index == p.current ==>
      && !r.0.playing
      && r.0.current == (if |r.0.items| == 0 then -1 else if index >= |r.0.items| then |r.0.items| - 1 else index)
      && r.1 == (if e.playerReady then [StopVideo] else [])
    // removing another track keeps the same track current and asks nothing of the player
    ensures index != p.current ==> r.0.playing == p.playing && r.1 == []
    ensures index != p.current && 0 <= p.current < |p.items| ==>
      0 <= r.0.current < |r.0.items| && r.0.items[r.0.current] == p.items[p.current]
    ensures index != p.current && p.current < index ==> r.0.current == p.current
    ensures index < p.current ==> r.0.current == p.current - 1
    ensures Valid(p) ==> Valid(r.0)
  {
    var items := p.items[..index] + p.items[index + 1..];
    if index == p.current then
      (p.(items := items, playing := false,
          current := if |items| > 0 then (if index >= |items| then |items| - 1 else index) else -1),
       if e.playerReady then [StopVideo] else [])
    else if index < p.current then
      assert p.current < |p.items| ==> items[p.current - 1] == p.items[p.current];
      (p.(items := items, current := p.current - 1), [])
    else
      assert p.current >= 0 ==> items[p.current] == p.items[p.current];
      (p.(items := items), [])
  }

  /** `title || \`(No Title) ${videoId.substring(0, 8)}...\``. */
  function TrackTitle(videoId: string, fetched: Option<string>): (t: string)
    ensures fetched.Some? && fetched.value != "" ==> t == fetched.value
    ensures !(fetched.Some? && fetched.value != "") ==>
      t == "(No Title) " + videoId[..if |videoId| < 8 then |videoId| else 8] + "..."
  {
    if fetched.Some? && fetched.value != "" then fetched.value
    else "(No Title) " + videoId[..if |videoId| < 8 then |videoId| else 8] + "..."
  }

  /**
   * `addItem`: a blank URL, or one without a video id, is ignored; otherwise
   * a track is appended, the box is cleared, and on a list that was empty
   * the new track becomes current.
   */
  function Add(p: Player, videoIdOf: string -> Option<string>, fetched: Option<string>): (r: Player)
    ensures IsBlank(p.newUrl) || videoIdOf(p.newUrl).None? ==> r == p
    ensures !IsBlank(p.newUrl) && videoIdOf(p.newUrl).Some? ==>
      && |r.items| == |p.items| + 1 && r.items[..|p.items|] == p.items
      && r.items[|p.items|] == Track(videoIdOf(p.newUrl).value, TrackTitle(videoIdOf(p.newUrl).value, fetched), p.newUrl)
      && r.newUrl == "" && r.playing == p.playing
      && r.current == (if |p.items| == 0 then 0 else p.current)
    ensures Valid(p) ==> Valid(r)
  {
    TrimEmptyIffBlank(p.newUrl);
    if Trim(p.newUrl) == "" then p
    else match videoIdOf(p.newUrl)
      case None => p
      case Some(videoId) =>
        var track := Track(videoId, TrackTitle(videoId, fetched), p.newUrl);
        var items := p.items + [track];
        assert items[..|p.items|] == p.items;
        p.(items := items, newUrl := "", current := if |p.items| == 0 then 0 else p.current)
  }

  /**
   * `togglePlay`: nothing on an empty list; with no current track, select
   * the first; otherwise, once the player is ready, pause or play.
   */
  function TogglePlay(p: Player, playerReady: bool): (r: (Player, seq<Command>))
    ensures |p.items| == 0 ==> r == (p, [])
    ensures |p.items| > 0 && p.current == -1 ==> r == (p.(current := 0), [])
    ensures |p.items| > 0 && p.current != -1 ==> r.0 == p
    ensures |p.items| > 0 && p.current != -1 && playerReady ==> r.1 == [if p.playing then PauseVideo else PlayVideo]
    ensures !playerReady ==> r.1 == []
    ensures Valid(p) ==> Valid(r.0)
  {
    if |p.items| == 0 then (p, [])
    else if p.current == -1 then (p.(current := 0), [])
    else if !playerReady then (p, [])
    else (p, [if p.playing then PauseVideo else PlayVideo])
  }

  /**
   * The effect that follows a change of the current index or of the list
   * length: a ready player loads the current track, if there is one.
   */
  function AutoLoad(p: Player, e: Embed): (cs: seq<Command>)
    ensures p.current < 0 || !e.playerReady ==> cs == []
    ensures Valid(p) && p.current >= 0 && e.playerReady ==>
      cs == LoadAndPlay(p.items, p.current, e) && (cs != [] <==> e.videoIdOf(p.items[p.current].url).Some?)
  {
    if p.current >= 0 && |p.items| > 0 && e.playerReady then LoadAndPlay(p.items, p.current, e) else []
  }

  /** The volume effect: a ready player is given the current volume whenever it changes. */
  function VolumeEffect(e: Embed): (cs: seq<Command>)
    ensures cs != [] <==> e.playerReady
    ensures forall i :: 0 <= i < |cs| ==> cs[i] == SetVolume(VolumeLevel(e))
  {
    if e.playerReady then [SetVolume(VolumeLevel(e))] else []
  }

  /** With sound off, every volume the widget sets on a track load, on ready or on a volume change is 0. */
  lemma MutedPlayerStaysSilent(p: Player, index: int, url: string, e: Embed)
    requires !e.soundEnabled
    ensures forall c :: c in LoadAndPlay(p.items, index, e) && c.SetVolume? ==> c.level == 0
    ensures forall c :: c in OnReady(p, url, e).1 && c.SetVolume? ==> c.level == 0
    ensures forall c :: c in VolumeEffect(e) && c.SetVolume? ==> c.level == 0
  {
  }

  /** Selecting the first track with the play button leads the effect to load it. */
  lemma ToggleSelectsThenLoads(p: Player, e: Embed)
    requires |p.items| > 0 && p.current == -1 && e.playerReady && e.videoIdOf(p.items[0].url).Some?
    ensures AutoLoad(TogglePlay(p, e.playerReady).0, e)
         == [LoadVideo(e.videoIdOf(p.items[0].url).value), SetVolume(VolumeLevel(e))]
  {
  }

  /**
   * `onPlayerReady`: loads the video of the page's `url` when it has one,
   * sets the volume, and selects the first track when there is one and none
   * is selected.
   */
  function OnReady(p: Player, url: string, e: Embed): (r: (Player, seq<Command>))
    ensures |p.items| > 0 && p.current == -1 ==> r.0 == p.(current := 0)
    ensures !(|p.items| > 0 && p.current == -1) ==> r.0 == p
    ensures url != "" && e.videoIdOf(url).Some? ==> r.1 == [LoadVideo(e.videoIdOf(url).value), SetVolume(VolumeLevel(e))]
    ensures url == "" || e.videoIdOf(url).None? ==> r.1 == [SetVolume(VolumeLevel(e))]
    ensures Valid(p) ==> Valid(r.0)
  {
    var load := if url != "" && e.videoIdOf(url).Some? then [LoadVideo(e.videoIdOf(url).value)] else [];
    (if |p.items| > 0 && p.current == -1 then p.(current := 0) else p, load + [SetVolume(VolumeLevel(e))])
  }

  /**
   * `onPlayerStateChange`: PLAYING sets the flag; PAUSED, BUFFERING,
   * UNSTARTED and ENDED clear it; anything else (CUED) leaves it. At the end
   * of a track the widget plays the next one unless the page handles track ends.
   */
  function OnStateChange(p: Player, state: int, pageHandlesEnd: bool, e: Embed): (r: (Player, seq<Command>))
    ensures state == Playing ==> r == (p.(playing := true), [])
    ensures state in {Paused, Buffering, Unstarted} ==> r == (p.(playing := false), [])
    ensures state == Ended && pageHandlesEnd ==> r == (p.(playing := false), [])
    ensures state == Ended && !pageHandlesEnd ==> r == PlayNext(p.(playing := false), e)
    ensures state !in {Ended, Playing, Paused, Buffering, Unstarted} ==> r == (p, [])
    ensures Valid(p) ==> Valid(r.0)
  {
    if state == Ended then
      var stopped := p.(playing := false);
      if pageHandlesEnd then (stopped, []) else PlayNext(stopped, e)
    else if state == Playing then (p.(playing := true), [])
    else if state == Paused || state == Buffering || state == Unstarted then (p.(playing := false), [])
    else (p, [])
  }

  /** CUED never changes the playing flag. */
  lemma CuedKeepsPlaying(p: Player, pageHandlesEnd: bool, e: Embed)
    ensures OnStateChange(p, Cued, pageHandlesEnd, e).0.playing == p.playing
  {
  }

  /**
   * `onPlayerError`: skip to the next track. The list, the playing flag and
   * the URL box are kept; on a non-empty list the widget always lands on a
   * track and, when the player can, loads exactly that track.
   */
  function OnError(p: Player, e: Embed): (r: (Player, seq<Command>))
    ensures r.0.items == p.items && r.0.playing == p.playing && r.0.newUrl == p.newUrl
    ensures Valid(p) ==> Valid(r.0)
    ensures Valid(p) && |p.items| > 0 ==> 0 <= r.0.current < |p.items|
    // the track after the current one, or the first after the last
    ensures Valid(p) && |p.items| > 0 && p.current < |p.items| - 1 ==> r.0.current == p.current + 1
    ensures |p.items| > 0 && p.current == |p.items| - 1 ==> r.0.current == 0
    // the player is asked for something exactly when it can load the new track, and then loads it
    ensures Valid(p) && |p.items| > 0 ==>
      (r.1 != [] <==> e.playerReady && e.videoIdOf(p.items[r.0.current].url).Some?)
    ensures Valid(p) && |p.items| > 0 && e.playerReady && e.videoIdOf(p.items[r.0.current].url).Some? ==>
      r.1 == [LoadVideo(e.videoIdOf(p.items[r.0.current].url).value), SetVolume(VolumeLevel(e))]
    ensures |p.items| == 0 ==> r == (p, [])
  {
    PlayNext(p, e)
  }

  /** An error on the last track wraps round to the first. */
  lemma ErrorOnLastWraps(p: Player, e: Embed)
    requires |p.items| > 0 && p.current == |p.items| - 1
    ensures OnError(p, e).0.current == 0
  {
  }
}
