/** The downloader's control state and the commands that change it outside
    the download loop: pause/resume, cancel, starting a download, and the two
    playback buttons. Dialogs and log lines are not modelled; errors are
    returned as values. */
module Controller {
  import opened Playback
  import PlaylistUrl

  /** `cancel_download`, `pause_download`, `video_list`,
      `current_video_index`. */
  datatype State = State(cancel: bool, pause: bool, videoList: seq<string>, index: int)

  /** The values the constructor gives, and the ones every start restores. */
  const Initial: State := State(false, false, [], 0)

  /** The playback cursor is never negative: it starts at 0 and is only
      reset to 0 or advanced by one. */
  ghost predicate Valid(st: State)
  {
    st.index >= 0
  }

  /** `toggle_pause`: flips the pause flag and nothing else. */
  function TogglePause(st: State): (r: State)
    ensures r.pause == !st.pause
    ensures r.cancel == st.cancel && r.videoList == st.videoList && r.index == st.index
  {
    st.(pause := !st.pause)
  }

  /** `cancel_download_action`: raises the cancel flag and rewinds the
      playback cursor, whatever it was; the pause flag and the list are left
      alone. */
  function Cancel(st: State): (r: State)
    ensures r.cancel && r.index == 0
    ensures r.pause == st.pause && r.videoList == st.videoList
  {
    st.(cancel := true, index := 0)
  }

  /** What `Playlist(url)` and `len(playlist.video_urls)` give: the number
      of items, or a failure. */
  datatype PlaylistSource = Unreachable | Listed(count: nat)

  datatype StartStatus =
    | MissingInput       // "Please provide both URL and folder."
    | PlaylistFailed     // "Failed to process playlist"
    | Started(count: nat)

  /** `download_playlist` up to the start of the worker: every flag, the
      list and the cursor are reset first; then an empty URL or folder is
      refused before the playlist is looked up. The URL is not checked
      against the playlist pattern here. */
  function Start(st: State, url: string, folder: string, source: PlaylistSource): (r: (State, StartStatus))
    ensures r.0 == Initial
    ensures r.1 == MissingInput <==> url == "" || folder == ""
    ensures r.1 == PlaylistFailed <==> url != "" && folder != "" && source == Unreachable
    ensures r.1.Started? ==> source == Listed(r.1.count)
  {
    if url == "" || folder == "" then (Initial, MissingInput)
    else
      match source
      case Unreachable => (Initial, PlaylistFailed)
      case Listed(n) => (Initial, Started(n))
  }

  /** `play_first_video`: rewinds the cursor and resolves it. */
  function PlayFirst(st: State, folder: string, listing: seq<string>): (r: (State, Resolution))
    ensures r.0.index == 0
    ensures r.0.cancel == st.cancel && r.0.pause == st.pause && r.0.videoList == st.videoList
    ensures r.1 == Resolve(folder, listing, r.0.index)
  {
    var st' := st.(index := 0);
    (st', Resolve(folder, listing, st'.index))
  }

  /** `play_next_video`: advances the cursor, even when nothing is left to
      open, and resolves it. */
  function PlayNext(st: State, folder: string, listing: seq<string>): (r: (State, Resolution))
    ensures r.0.index == st.index + 1
    ensures r.0.cancel == st.cancel && r.0.pause == st.pause && r.0.videoList == st.videoList
    ensures r.1 == Resolve(folder, listing, r.0.index)
  {
    var st' := st.(index := st.index + 1);
    (st', Resolve(folder, listing, st'.index))
  }

  // ---------------------------------------------------------------------
  // Properties of the commands

  lemma TogglePauseInvolution(st: State)
    ensures TogglePause(TogglePause(st)) == st
  {
  }

  lemma CancelIdempotent(st: State)
    ensures Cancel(Cancel(st)) == Cancel(st)
  {
  }

  /** Every command keeps the cursor non-negative. */
  lemma CommandsKeepValid(st: State, url: string, folder: string, source: PlaylistSource, listing: seq<string>)
    requires Valid(st)
    ensures Valid(TogglePause(st)) && Valid(Cancel(st))
    ensures Valid(Start(st, url, folder, source).0)
    ensures Valid(PlayFirst(st, folder, listing).0) && Valid(PlayNext(st, folder, listing).0)
  {
  }

  /** With a URL or folder missing, the outcome is the same whatever the
      playlist source would have answered: it is never consulted. */
  lemma StartChecksInputsFirst(st: State, url: string, folder: string, s1: PlaylistSource, s2: PlaylistSource)
    requires url == "" || folder == ""
    ensures Start(st, url, folder, s1) == Start(st, url, folder, s2) == (Initial, MissingInput)
  {
  }

  /** Starting forgets everything about the previous state, including a
      cancel or pause still in force, even when the start is refused. */
  lemma StartForgetsPriorState(s1: State, s2: State, url: string, folder: string, source: PlaylistSource)
    ensures Start(s1, url, folder, source) == Start(s2, url, folder, source)
    ensures !Start(s1, url, folder, source).0.cancel && !Start(s1, url, folder, source).0.pause
  {
  }

  /** A string that is not a playlist URL still starts a download when the
      source lists it: the start does not apply the URL check. */
  lemma StartDoesNotCheckUrlPattern(st: State)
    ensures !PlaylistUrl.IsPlaylistUrl("x")
    ensures Start(st, "x", "/tmp", Listed(3)) == (Initial, Started(3))
  {
    PlaylistUrl.RejectsLeadingJunk('x', "");
    assert "x" == ['x'] + "";
  }
}
