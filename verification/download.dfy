/** The worker loop of a download (`download_videos`) as a pure fold over
    the playlist's items.

    The media source is abstracted to one `Outcome` per item: the item was
    saved under the title it carries, or fetching or saving it raised. The
    cancel flag is abstracted to the first of its readings that sees it
    raised: reading `k < count` is the check before item `k`, reading `count`
    is the check after the loop. Once raised the flag stays raised until the
    next start, so one number describes every interleaving of a cancel with
    the loop. The pause wait is not modelled: it neither skips nor consumes
    an item, and it does not read the cancel flag. */
module Download {
  import opened Lexical
  import opened Sorting
  import opened FileNames
  import opened Playback
  import opened Controller

  datatype Outcome = Saved(title: string) | Failed

  /** What an attempt shows the user. A saved item is named by its index and
      title; the file it was written to is `Filename(index, title)`. */
  datatype Event =
    | Progress(done: nat)                    // the progress bar is set to `i + 1`
    | Downloaded(index: nat, title: string)  // "Downloaded '<file name>' at ... MB/s"
    | AutoOpen(title: string)                // the first item's file is opened right away
    | ItemError(index: nat)                  // "Error downloading '<title>': ..."
    | Finished(folder: string)               // "Download completed successfully."

  datatype Status = Completed | Canceled

  datatype Run = Run(events: seq<Event>, status: Status)

  /** The item an event is about; -1 for the completion event. */
  function ItemOf(e: Event): int
  {
    match e
    case Progress(d) => d - 1
    case Downloaded(i, _) => i
    case AutoOpen(_) => 0
    case ItemError(i) => i
    case Finished(_) => -1
  }

  /** The events of one attempt at item `i`. */
  function ItemEvents(i: nat, o: Outcome): seq<Event>
  {
    match o
    case Saved(t) =>
      [Progress(i + 1), Downloaded(i, t)] + (if i == 0 then [AutoOpen(t)] else [])
    case Failed => [ItemError(i)]
  }

  /** The events of attempting items `0 .. n - 1` in turn. */
  function Attempts(items: seq<Outcome>, n: nat): seq<Event>
    requires n <= |items|
  {
    if n == 0 then [] else Attempts(items, n - 1) + ItemEvents(n - 1, items[n - 1])
  }

  /** How many items are attempted: all of them, or those before the first
      reading of the cancel flag that sees it raised. */
  function Attempted(count: nat, cancelFrom: nat): (n: nat)
    ensures n <= count && n <= cancelFrom
    ensures n == count || n == cancelFrom
  {
    if cancelFrom < count then cancelFrom else count
  }

  /** `download_videos`: the items before the cancel point are attempted in
      order, a failure is reported and skipped; if the flag is still down
      after the loop, the completion is announced. */
  function DownloadRun(folder: string, items: seq<Outcome>, cancelFrom: nat): Run
  {
    var events := Attempts(items, Attempted(|items|, cancelFrom));
    if cancelFrom > |items| then Run(events + [Finished(folder)], Completed)
    else Run(events, Canceled)
  }

  /** The loop body's effect on the controller once the loop is over: the
      playback cursor is rewound after a completed download only. */
  function Conclude(st: State, status: Status): (r: State)
    ensures status == Completed ==> r.index == 0
    ensures status == Canceled ==> r.index == st.index
    ensures r.cancel == st.cancel && r.pause == st.pause && r.videoList == st.videoList
  {
    if status == Completed then st.(index := 0) else st
  }

  /** The worker loop written the way the program runs it, with a `break`
      on cancellation; it computes exactly the fold. */
  method DownloadVideos(folder: string, items: seq<Outcome>, cancelFrom: nat) returns (events: seq<Event>, status: Status)
    ensures Run(events, status) == DownloadRun(folder, items, cancelFrom)
  {
    events := [];
    var i := 0;
    while i < |items|
      invariant i <= Attempted(|items|, cancelFrom)
      invariant events == Attempts(items, i)
    {
      if i >= cancelFrom {
        break;
      }
      match items[i] {
        case Failed =>
          events := events + [ItemError(i)];
        case Saved(title) =>
          events := events + [Progress(i + 1), Downloaded(i, title)];
          if i == 0 {
            events := events + [AutoOpen(title)];
          }
      }
      i := i + 1;
    }
    if cancelFrom > |items| {
      events := events + [Finished(folder)];
      status := Completed;
    } else {
      status := Canceled;
    }
  }

  // ---------------------------------------------------------------------
  // Facts about the attempts

  /** Every event is about an item below `n`. */
  ghost predicate ItemsBelow(ev: seq<Event>, n: nat)
  {
    forall p :: 0 <= p < |ev| ==> 0 <= ItemOf(ev[p]) < n
  }

  /** Events come in item order. */
  ghost predicate InItemOrder(ev: seq<Event>)
  {
    forall p, q :: 0 <= p < q < |ev| ==> ItemOf(ev[p]) <= ItemOf(ev[q])
  }

  /** No event occurs twice. */
  ghost predicate Distinct(ev: seq<Event>)
  {
    forall p, q :: 0 <= p < q < |ev| ==> ev[p] != ev[q]
  }

  /** One attempt: all its events are about item `i` and they differ from
      each other. */
  lemma ItemEventsShape(i: nat, o: Outcome)
    ensures |ItemEvents(i, o)| > 0
    ensures forall p :: 0 <= p < |ItemEvents(i, o)| ==> ItemOf(ItemEvents(i, o)[p]) == i
    ensures Distinct(ItemEvents(i, o))
  {
  }

  /** Attempts are about items `0 .. n - 1`, come in item order, and never
      repeat an event. */
  lemma {:induction false} AttemptsOrdered(items: seq<Outcome>, n: nat)
    requires n <= |items|
    ensures ItemsBelow(Attempts(items, n), n)
    ensures InItemOrder(Attempts(items, n))
    ensures Distinct(Attempts(items, n))
  {
    if n > 0 {
      AttemptsOrdered(items, n - 1);
      var a := Attempts(items, n - 1);
      var b := ItemEvents(n - 1, items[n - 1]);
      ItemEventsShape(n - 1, items[n - 1]);
      var ev := a + b;
      assert ev == Attempts(items, n);
      forall p | 0 <= p < |ev|
        ensures 0 <= ItemOf(ev[p]) < n
      {
        if p < |a| { assert ev[p] == a[p]; } else { assert ev[p] == b[p - |a|]; }
      }
      forall p, q | 0 <= p < q < |ev|
        ensures ItemOf(ev[p]) <= ItemOf(ev[q]) && ev[p] != ev[q]
      {
        if q < |a| {
          assert ev[p] == a[p] && ev[q] == a[q];
        } else if p < |a| {
          assert ev[p] == a[p] && ev[q] == b[q - |a|];
        } else {
          assert ev[p] == b[p - |a|] && ev[q] == b[q - |a|];
        }
      }
    }
  }

  /** Which events the first `n` attempts contain: an error for each failed
      item, a progress and a download report for each saved one, and the
      automatic opening for a saved first item only. */
  lemma {:induction false} AttemptsMembers(items: seq<Outcome>, n: nat, k: nat, t: string)
    requires n <= |items|
    ensures ItemError(k) in Attempts(items, n) <==> k < n && items[k] == Failed
    ensures Progress(k + 1) in Attempts(items, n) <==> k < n && items[k].Saved?
    ensures Downloaded(k, t) in Attempts(items, n) <==> k < n && items[k] == Saved(t)
    ensures AutoOpen(t) in Attempts(items, n) <==> 0 < n && items[0] == Saved(t)
  {
    if n > 0 {
      AttemptsMembers(items, n - 1, k, t);
      var a := Attempts(items, n - 1);
      var b := ItemEvents(n - 1, items[n - 1]);
      assert Attempts(items, n) == a + b;
      match items[n - 1]
      case Failed =>
        assert b == [ItemError(n - 1)];
      case Saved(s) =>
        if n - 1 == 0 {
          assert b == [Progress(n), Downloaded(n - 1, s), AutoOpen(s)];
        } else {
          assert b == [Progress(n), Downloaded(n - 1, s)];
        }
    }
  }

  // ---------------------------------------------------------------------
  // Properties of a whole run

  /** The attempts are the run's events before the completion event, and the
      completion event occurs nowhere else. */
  lemma RunEvents(folder: string, items: seq<Outcome>, cancelFrom: nat)
    ensures var a := Attempts(items, Attempted(|items|, cancelFrom));
      var ev := DownloadRun(folder, items, cancelFrom).events;
      && |a| <= |ev| && ev[..|a|] == a
      && (forall p :: 0 <= p < |a| ==> !ev[p].Finished?)
      && (forall p :: |a| <= p < |ev| ==> ev[p] == Finished(folder))
  {
    var n := Attempted(|items|, cancelFrom);
    AttemptsOrdered(items, n);
    var a := Attempts(items, n);
    assert forall p :: 0 <= p < |a| ==> 0 <= ItemOf(a[p]);
  }

  /** Items are attempted in increasing index order, no item at or after the
      cancel point is attempted, and no event is repeated. */
  lemma RunInItemOrder(folder: string, items: seq<Outcome>, cancelFrom: nat)
    ensures var ev := DownloadRun(folder, items, cancelFrom).events;
      && (forall p :: 0 <= p < |ev| && !ev[p].Finished? ==> 0 <= ItemOf(ev[p]) < |items| && ItemOf(ev[p]) < cancelFrom)
      && (forall p, q :: 0 <= p < q < |ev| && !ev[p].Finished? && !ev[q].Finished? ==> ItemOf(ev[p]) <= ItemOf(ev[q]))
      && Distinct(ev)
  {
    var n := Attempted(|items|, cancelFrom);
    AttemptsOrdered(items, n);
    RunEvents(folder, items, cancelFrom);
    var a := Attempts(items, n);
    var ev := DownloadRun(folder, items, cancelFrom).events;
    forall p | 0 <= p < |a|
      ensures ev[p] == a[p]
    {
      assert ev[..|a|][p] == ev[p];
    }
  }

  /** Every item before the cancel point is attempted: a failed one yields an
      error event, a saved one a progress event and a download report, and
      either way the loop goes on to the next item. Items at or after the
      cancel point yield neither. Since no event repeats, each occurs at
      most once. */
  lemma RunItemOutcome(folder: string, items: seq<Outcome>, cancelFrom: nat, k: nat, t: string)
    ensures var ev := DownloadRun(folder, items, cancelFrom).events;
      && (ItemError(k) in ev <==> k < |items| && k < cancelFrom && items[k] == Failed)
      && (Progress(k + 1) in ev <==> k < |items| && k < cancelFrom && items[k].Saved?)
      && (Downloaded(k, t) in ev <==> k < |items| && k < cancelFrom && items[k] == Saved(t))
  {
    var n := Attempted(|items|, cancelFrom);
    AttemptsMembers(items, n, k, t);
    RunEvents(folder, items, cancelFrom);
    var a := Attempts(items, n);
    var ev := DownloadRun(folder, items, cancelFrom).events;
    assert ev == a || ev == a + [Finished(folder)];
  }

  /** The first item is opened automatically exactly when it is attempted
      and saved, and no other item is. */
  lemma RunAutoOpen(folder: string, items: seq<Outcome>, cancelFrom: nat, t: string)
    ensures AutoOpen(t) in DownloadRun(folder, items, cancelFrom).events <==>
      0 < |items| && 0 < cancelFrom && items[0] == Saved(t)
  {
    var n := Attempted(|items|, cancelFrom);
    AttemptsMembers(items, n, 0, t);
    var a := Attempts(items, n);
    var ev := DownloadRun(folder, items, cancelFrom).events;
    assert ev == a || ev == a + [Finished(folder)];
  }

  /** Progress values are `i + 1` for an attempted item `i`, never above the
      item count, and strictly increase along the run. */
  lemma RunProgressIncreasing(folder: string, items: seq<Outcome>, cancelFrom: nat)
    ensures var ev := DownloadRun(folder, items, cancelFrom).events;
      && (forall p :: 0 <= p < |ev| && ev[p].Progress? ==> 1 <= ev[p].done <= |items|)
      && (forall p, q :: 0 <= p < q < |ev| && ev[p].Progress? && ev[q].Progress? ==> ev[p].done < ev[q].done)
  {
    RunInItemOrder(folder, items, cancelFrom);
  }

  /** A run completes exactly when the flag is still down after the loop;
      then the completion event is the last event and the only one, and the
      playback cursor is rewound. A canceled run announces nothing. */
  lemma RunTerminal(folder: string, items: seq<Outcome>, cancelFrom: nat, st: State)
    ensures var r := DownloadRun(folder, items, cancelFrom);
      && (r.status == Completed <==> cancelFrom > |items|)
      && (r.status == Completed ==> |r.events| > 0 && r.events[|r.events| - 1] == Finished(folder))
      && (r.status == Completed ==> forall p :: 0 <= p < |r.events| - 1 ==> !r.events[p].Finished?)
      && (r.status == Canceled ==> forall p :: 0 <= p < |r.events| ==> !r.events[p].Finished?)
      && (r.status == Completed ==> Conclude(st, r.status).index == 0)
  {
    RunEvents(folder, items, cancelFrom);
  }

  // ---------------------------------------------------------------------
  // The saved files and playback

  /** The indices of saved items strictly increase and stay below `n`. */
  ghost predicate IndicesBelow(saved: seq<(nat, string)>, n: nat)
  {
    && (forall p :: 0 <= p < |saved| ==> saved[p].0 < n)
    && (forall p, q :: 0 <= p < q < |saved| ==> saved[p].0 < saved[q].0)
  }

  /** The saved items among the first `n`, read off the outcomes
      directly. */
  function SavedAmong(items: seq<Outcome>, n: nat): seq<(nat, string)>
    requires n <= |items|
  {
    if n == 0 then []
    else SavedAmong(items, n - 1) + (if items[n - 1].Saved? then [(n - 1, items[n - 1].title)] else [])
  }

  /** The saved items among the first `n` come in strictly increasing index
      order, all below `n`. */
  lemma {:induction false} SavedAmongOrdered(items: seq<Outcome>, n: nat)
    requires n <= |items|
    ensures IndicesBelow(SavedAmong(items, n), n)
  {
    if n > 0 {
      SavedAmongOrdered(items, n - 1);
      var a := SavedAmong(items, n - 1);
      var s := SavedAmong(items, n);
      if items[n - 1].Saved? {
        assert s == a + [(n - 1, items[n - 1].title)];
        forall p | 0 <= p < |s|
          ensures s[p].0 < n
        {
          if p < |a| { assert s[p] == a[p]; }
        }
        forall p, q | 0 <= p < q < |s|
          ensures s[p].0 < s[q].0
        {
          assert s[p] == a[p];
        }
      } else {
        assert s == a;
      }
    }
  }

  /** The saved items among the first `n` are exactly those whose outcome
      is a save. */
  lemma {:induction false} SavedAmongMembers(items: seq<Outcome>, n: nat, k: nat, t: string)
    requires n <= |items|
    ensures (k, t) in SavedAmong(items, n) <==> k < n && items[k] == Saved(t)
  {
    if n > 0 {
      SavedAmongMembers(items, n - 1, k, t);
    }
  }

  /** The file names of the saved items. */
  function FileNamesOf(saved: seq<(nat, string)>): seq<string>
  {
    seq(|saved|, p requires 0 <= p < |saved| => Filename(saved[p].0, saved[p].1))
  }

  /** Saved below index 1000, the files are videos and their names come out
      in strictly increasing name order: download order is name order. */
  lemma FileNamesSorted(saved: seq<(nat, string)>)
    requires IndicesBelow(saved, 1000)
    ensures StrictlySorted(FileNamesOf(saved))
    ensures forall p :: 0 <= p < |saved| ==> IsVideo(FileNamesOf(saved)[p])
  {
    var names := FileNamesOf(saved);
    forall p, q | 0 <= p < q < |names|
      ensures Below(names[p], names[q])
    {
      FilenameOrder(saved[p].0, saved[q].0, saved[p].1, saved[q].1);
    }
    forall p | 0 <= p < |names|
      ensures IsVideo(names[p])
    {
      FilenameIsVideo(saved[p].0, saved[p].1);
    }
  }

  lemma VideosOfVideos(names: seq<string>)
    requires forall p :: 0 <= p < |names| ==> IsVideo(names[p])
    ensures Videos(names) == names
  {
    if |names| > 0 {
      VideosOfVideos(names[1..]);
    }
  }

  /** The items a run saves, as index and title, in the order it saves
      them. */
  function SavedItems(items: seq<Outcome>, cancelFrom: nat): seq<(nat, string)>
  {
    SavedAmong(items, Attempted(|items|, cancelFrom))
  }

  /** The files a run leaves in the folder, in the order it saves them. */
  function SavedFiles(items: seq<Outcome>, cancelFrom: nat): seq<string>
  {
    FileNamesOf(SavedItems(items, cancelFrom))
  }

  /** A run saves, in index order, exactly the items it reports as
      downloaded: its attempted items that are saved, whether or not it
      completes. */
  lemma RunSavedItems(folder: string, items: seq<Outcome>, cancelFrom: nat, k: nat, t: string)
    ensures IndicesBelow(SavedItems(items, cancelFrom), |items|)
    ensures (k, t) in SavedItems(items, cancelFrom) <==> Downloaded(k, t) in DownloadRun(folder, items, cancelFrom).events
    ensures (k, t) in SavedItems(items, cancelFrom) <==> k < |items| && k < cancelFrom && items[k] == Saved(t)
  {
    var n := Attempted(|items|, cancelFrom);
    SavedAmongOrdered(items, n);
    SavedAmongMembers(items, n, k, t);
    RunItemOutcome(folder, items, cancelFrom, k, t);
  }

  /** End to end: after a run of at most 1000 items, a folder holding the
      saved files (listed in any order, next to any files that are not
      videos) plays back in download order. Position `k` opens the `k`-th
      saved file and positions past the last one report that no video is
      left. */
  lemma PlaybackFollowsDownloadOrder(folder: string, items: seq<Outcome>, cancelFrom: nat,
                                     listing: seq<string>, others: seq<string>, k: int)
    requires |items| <= 1000 && folder != ""
    requires forall p :: 0 <= p < |others| ==> !IsVideo(others[p])
    requires multiset(listing) == multiset(SavedFiles(items, cancelFrom) + others)
    ensures var saved := SavedFiles(items, cancelFrom);
      Resolve(folder, listing, k) == if 0 <= k < |saved| then Open(folder, saved[k]) else NoMoreVideos
  {
    var saved := SavedFiles(items, cancelFrom);
    RunSavedItems(folder, items, cancelFrom, 0, "");
    FileNamesSorted(SavedItems(items, cancelFrom));
    ResolveIgnoresListingOrder(folder, listing, saved + others, k);
    ResolveIgnoresOtherFiles(folder, saved, others, k);
    VideosOfVideos(saved);
    SortOfSorted(saved);
    assert Playable(saved) == saved;
  }
}
