/** Concrete runs of the model: the situations the program's own unit tests
    set up, a short download, and a few playlist URLs. */
module Scenarios {
  import opened Text
  import opened Lexical
  import opened Sorting
  import opened Playback
  import opened Controller
  import opened FileNames
  import opened Download
  import PlaylistUrl

  /** A folder listing that is already in playback order. */
  lemma PlayableOfOrderedVideos(listing: seq<string>)
    requires forall p :: 0 <= p < |listing| ==> IsVideo(listing[p])
    requires forall p, q :: 0 <= p < q < |listing| ==> Below(listing[p], listing[q])
    ensures Playable(listing) == listing
  {
    VideosOfVideos(listing);
    SortOfSorted(listing);
  }

  /** A folder holding `001_Test.mp4` and `002_Demo.mp4`: the first button
      opens the first file, and the next button then moves the cursor to 1
      and opens the second. */
  lemma PlayFirstThenNext(st: State)
    ensures var listing := ["001_Test.mp4", "002_Demo.mp4"];
      var (st1, first) := PlayFirst(st, "C:/valid-directory", listing);
      var (st2, next) := PlayNext(st1, "C:/valid-directory", listing);
      && first == Open("C:/valid-directory", "001_Test.mp4")
      && st2.index == 1
      && next == Open("C:/valid-directory", "002_Demo.mp4")
  {
    var listing := ["001_Test.mp4", "002_Demo.mp4"];
    assert IsVideo(listing[0]) && IsVideo(listing[1]);
    assert Below(listing[0], listing[1]);
    PlayableOfOrderedVideos(listing);
  }

  /** Three videos, listed out of order next to a text file: the third press
      of "next" finds nothing left, and the cursor still moves. */
  lemma NextPastTheEnd(st: State)
    requires st.index == 2
    ensures var listing := ["video3.mp4", "notes.txt", "video1.mp4", "video2.mp4"];
      var (st1, r) := PlayNext(st, "/videos", listing);
      r == NoMoreVideos && st1.index == 3
  {
    var listing := ["video3.mp4", "notes.txt", "video1.mp4", "video2.mp4"];
    var videos := ["video1.mp4", "video2.mp4", "video3.mp4"];
    assert multiset(listing) == multiset(videos + ["notes.txt"]);
    ResolveIgnoresListingOrder("/videos", listing, videos + ["notes.txt"], 3);
    assert !IsVideo("notes.txt");
    ResolveIgnoresOtherFiles("/videos", videos, ["notes.txt"], 3);
    ThreeVideosInOrder();
  }

  lemma ThreeVideosInOrder()
    ensures Playable(["video1.mp4", "video2.mp4", "video3.mp4"]) == ["video1.mp4", "video2.mp4", "video3.mp4"]
  {
    var videos := ["video1.mp4", "video2.mp4", "video3.mp4"];
    assert IsVideo(videos[0]) && IsVideo(videos[1]) && IsVideo(videos[2]);
    assert Below(videos[0], videos[1]) && Below(videos[1], videos[2]);
    PlayableOfOrderedVideos(videos);
  }

  /** No folder chosen: both buttons report it, whatever the cursor. */
  lemma PlayWithoutFolder(st: State, listing: seq<string>)
    ensures PlayFirst(st, "", listing).1 == NoFolder && PlayNext(st, "", listing).1 == NoFolder
  {
  }

  /** A three-item playlist whose second item fails: the failure is reported
      and skipped, the first item is opened, and the run completes. */
  lemma DownloadWithOneFailure()
    ensures DownloadRun("/d", [Saved("a"), Failed, Saved("c")], 4) ==
      Run([Progress(1), Downloaded(0, "a"), AutoOpen("a"), ItemError(1),
           Progress(3), Downloaded(2, "c"), Finished("/d")], Completed)
  {
    assert Attempts([Saved("a"), Failed, Saved("c")], 1) == [Progress(1), Downloaded(0, "a"), AutoOpen("a")];
    assert Attempts([Saved("a"), Failed, Saved("c")], 2) == [Progress(1), Downloaded(0, "a"), AutoOpen("a"), ItemError(1)];
  }

  /** The same playlist canceled while the first item downloads: the flag is
      seen before the second item, nothing more is attempted and nothing is
      announced. */
  lemma DownloadCanceledAfterFirst()
    ensures DownloadRun("/d", [Saved("a"), Failed, Saved("c")], 1) ==
      Run([Progress(1), Downloaded(0, "a"), AutoOpen("a")], Canceled)
  {
    assert Attempts([Saved("a"), Failed, Saved("c")], 1) == [Progress(1), Downloaded(0, "a"), AutoOpen("a")];
  }

  /** A canceled flag seen only after the last item still suppresses the
      completion. */
  lemma CancelAfterLastItem()
    ensures DownloadRun("/d", [Failed], 1) == Run([ItemError(0)], Canceled)
  {
  }

  lemma StripExample()
    ensures Strip(" My Song ") == "My Song"
  {
    var t := " My Song ";
    assert LeadingSpaces(t[1..]) == 0 by {
      assert t[1..][0] == 'M';
    }
    assert LeadingSpaces(t) == 1;
    var a := t[1..];
    assert a == "My Song ";
    assert TrailingSpaces(a[..|a| - 1]) == 0 by {
      assert a[..|a| - 1] == "My Song";
    }
    assert TrailingSpaces(a) == 1;
    assert a[..|a| - 1] == "My Song";
  }

  lemma ReplaceExample()
    ensures ReplaceSpaces("My Song") == "My_Song"
  {
    var r := ReplaceSpaces("My Song");
    assert |r| == 7 && r[2] == '_';
  }

  lemma SanitizeExample()
    ensures SanitizeTitle(" My Song ") == "My_Song"
  {
    var c := Take(" My Song ", TitleLimit);
    assert c == " My Song ";
    StripExample();
    ReplaceExample();
    assert SanitizeTitle(" My Song ") == ReplaceSpaces(Strip(c));
  }

  /** The name of the first item of a playlist, with blanks around and
      inside its title. */
  lemma FilenameExample()
    ensures Filename(0, " My Song ") == "000_My_Song.mp4"
  {
    assert Decimal(0) == "0";
    assert PadIndex(0) == "000";
    SanitizeExample();
  }

  lemma AcceptsPlaylistPage()
    ensures PlaylistUrl.IsPlaylistUrl("https://www.youtube.com/playlist?list=PL_x-9")
  {
    var p := PlaylistUrl.Parts(PlaylistUrl.Https, PlaylistUrl.Www, PlaylistUrl.YoutubeCom, PlaylistUrl.PlaylistRoute, "PL_x-9");
    assert PlaylistUrl.Render(p) == "https://www.youtube.com/playlist?list=PL_x-9";
    PlaylistUrl.ParseRender(p);
  }

  /** A watch link with extra parameters before `list=`, on the short host
      with no scheme. */
  lemma AcceptsWatchLink()
    ensures PlaylistUrl.IsPlaylistUrl("youtu.be/watch?v=a&t=1&list=PL1")
  {
    var p := PlaylistUrl.Parts(PlaylistUrl.NoScheme, PlaylistUrl.NoSubdomain, PlaylistUrl.YoutuBe, PlaylistUrl.WatchRoute("v=a&t=1"), "PL1");
    assert PlaylistUrl.Render(p) == "youtu.be/watch?v=a&t=1&list=PL1";
    PlaylistUrl.ParseRender(p);
  }
}
