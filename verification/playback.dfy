/** Resolving the playback cursor against the download folder
    (`play_video_by_index`). The folder listing is an input: whatever the
    folder holds at the moment of resolution. */
module Playback {
  import opened Text
  import opened Sorting

  /** `name.endswith(".mp4")` */
  predicate IsVideo(name: string)
  {
    HasSuffix(name, ".mp4")
  }

  /** `[f for f in listing if f.endswith(".mp4")]` */
  function Videos(listing: seq<string>): (r: seq<string>)
    ensures forall x :: x in r <==> x in listing && IsVideo(x)
    ensures forall x :: multiset(r)[x] == if IsVideo(x) then multiset(listing)[x] else 0
  {
    if |listing| == 0 then []
    else
      var rest := Videos(listing[1..]);
      assert listing == [listing[0]] + listing[1..];
      if IsVideo(listing[0]) then [listing[0]] + rest else rest
  }

  /** `sorted([f for f in os.listdir(path) if f.endswith(".mp4")])` */
  function Playable(listing: seq<string>): (r: seq<string>)
    ensures Sorted(r)
    ensures forall x :: multiset(r)[x] == if IsVideo(x) then multiset(listing)[x] else 0
    ensures forall x :: x in r <==> x in listing && IsVideo(x)
  {
    var r := Sort(Videos(listing));
    assert forall x :: x in r <==> x in multiset(r);
    r
  }

  datatype Resolution =
    | NoFolder                            // "Please select a download folder first."
    | NoMoreVideos                        // "No more videos to play."
    | Open(folder: string, name: string)  // `os.startfile(os.path.join(folder, name))`

  /** `play_video_by_index(index)`: no folder chosen is an error; otherwise
      the `index`-th video of the folder in name order is opened when there is
      one, and it is an error when there is not. */
  function Resolve(folder: string, listing: seq<string>, index: int): (r: Resolution)
    ensures r == NoFolder <==> folder == ""
    ensures r.Open? <==> folder != "" && 0 <= index < |Playable(listing)|
    ensures r.Open? ==> r.folder == folder && r.name == Playable(listing)[index]
    ensures r.Open? ==> r.name in listing && IsVideo(r.name)
  {
    if folder == "" then NoFolder
    else
      var files := Playable(listing);
      if 0 <= index < |files| then
        assert files[index] in files;
        Open(folder, files[index])
      else NoMoreVideos
  }

  /** The playable names depend only on how often each video name is
      listed. */
  lemma PlayableByCount(l1: seq<string>, l2: seq<string>)
    requires forall x :: IsVideo(x) ==> multiset(l1)[x] == multiset(l2)[x]
    ensures Playable(l1) == Playable(l2)
  {
    var a, b := Playable(l1), Playable(l2);
    assert forall x :: multiset(a)[x] == multiset(b)[x];
    assert multiset(a) == multiset(b);
    SortedUnique(a, b);
  }

  /** What is opened does not depend on the order the folder is listed in. */
  lemma ResolveIgnoresListingOrder(folder: string, l1: seq<string>, l2: seq<string>, index: int)
    requires multiset(l1) == multiset(l2)
    ensures Resolve(folder, l1, index) == Resolve(folder, l2, index)
  {
    PlayableByCount(l1, l2);
  }

  /** Entries that are not `.mp4` files never change what is opened. */
  lemma ResolveIgnoresOtherFiles(folder: string, listing: seq<string>, others: seq<string>, index: int)
    requires forall k :: 0 <= k < |others| ==> !IsVideo(others[k])
    ensures Resolve(folder, listing + others, index) == Resolve(folder, listing, index)
  {
    assert forall x :: IsVideo(x) ==> multiset(others)[x] == 0;
    assert multiset(listing + others) == multiset(listing) + multiset(others);
    PlayableByCount(listing + others, listing);
  }
}
