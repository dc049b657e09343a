# YouTube playlist downloader, phase II: a Dafny model of its logic

The downloader is a Tkinter application. Given a playlist URL and a folder,
it saves each video of the playlist as `NNN_<title>.mp4`. It reports progress,
can be paused and canceled, and can play the saved videos back in download
order. Playback sorts the folder's `.mp4` files by name and walks a cursor
through them.

This project models the sequential logic under the GUI as pure Dafny
functions and proves properties about them:

- `PlaylistUrl` covers the playlist-URL check (`validate_url`). The check is
  written twice: as a hand-written recogniser, and as a declarative "is a
  concatenation of scheme, subdomain, host, route and id". The two are proved
  equal on every string.
- `FileNames` covers the name a downloaded item is saved under. The main
  theorem is that the three-digit index prefix makes name order equal to
  download order, for indices below 1000.
- `Playback` covers resolving the playback cursor against a folder listing
  (`play_video_by_index`). `Lexical` and `Sorting` model Python's string order
  and `sorted`.
- `Controller` covers the control state (`cancel_download`, `pause_download`,
  `video_list`, `current_video_index`) and the commands that change it: pause,
  cancel, start of a download, and the two playback buttons.
- `Download` covers the worker loop (`download_videos`). It is a fold over one
  outcome per playlist item. The cancel flag becomes the index of its first
  reading that sees it raised. The result is the trace of events the user
  sees, plus a final status. An imperative loop with a `break` is proved to
  compute the same fold.
- `Scenarios` holds concrete runs: the situations of the program's unit
  tests, a short download with a failure, a cancel, and two accepted URLs.

Inputs that the program takes from the operating system or from the media
library are parameters of the model:

- the folder listing (`os.listdir`);
- the per-item outcome of fetching and saving (`Playlist`, `stream.download`);
- the answer of the playlist lookup;
- the moment a cancel becomes visible to the loop.

Errors are returned as values: `Resolution`, `StartStatus`, `Event`, `Status`.

Starting a download (playlist_downloader_phase2.py lines 154-159) only
checks that the URL and the folder are non-empty. The URL pattern is applied
only by the entry widget's focus-out validation (line 55).
`Controller.StartDoesNotCheckUrlPattern` states this.

## Model

| member | source | states |
|---|---|---|
| PlaylistUrl.ParseUrl | playlist_downloader_phase2.py:103-104 | When the recogniser succeeds, the pieces it returns are well formed and spell exactly the input string. |
| PlaylistUrl.FindList | playlist_downloader_phase2.py:103 | The lazy `.*?&list=` scan: a position it returns is followed by `&list=` and then an id running to the end of the string, and no line feed lies before it. |
| PlaylistUrl.ParseRoute | playlist_downloader_phase2.py:103 | A parsed route is `playlist?list=` or `watch?<query>&list=` with a query free of line feeds, followed by a non-empty id that ends the string. |
| PlaylistUrl.ParseRender | playlist_downloader_phase2.py:103-104 | Every combination of optional scheme, optional `www.`/`m.`, either host, either route (any line-feed-free query) and any non-empty id over `[A-Za-z0-9_-]` is accepted and parsed back into exactly those pieces. |
| PlaylistUrl.FindListOf | playlist_downloader_phase2.py:103 | In `q&list=id` with no line feed in `q`, the lazy scan stops exactly after `q`. |
| PlaylistUrl.IsPlaylistUrlMatchesPattern | playlist_downloader_phase2.py:102-105 | The check accepts a string if and only if it is the concatenation of pieces the pattern allows (a full match, not a search). |
| PlaylistUrl.IsPlaylistUrl | playlist_downloader_phase2.py:102-107 | `validate_url` as a predicate: true exactly when the recogniser parses the whole string. It has no contract of its own. `IsPlaylistUrlMatchesPattern` proves it equal to the full match of the pattern, and the `Rejects...` and `Accepts...` lemmas pin down its edge cases. |
| PlaylistUrl.AcceptedShape | playlist_downloader_phase2.py:103-104 | An accepted string is non-empty, ends in an id character and starts with `h`, `w`, `m` or `y`. |
| PlaylistUrl.ListParameter | playlist_downloader_phase2.py:103 | An accepted string ends in `list=` followed by a non-empty id. |
| PlaylistUrl.RejectsEmpty | playlist_downloader_phase2.py:104-105 | The empty string is rejected. |
| PlaylistUrl.RejectsMissingId | playlist_downloader_phase2.py:103-105 | A string ending in `list=` with no id character after it is rejected. |
| PlaylistUrl.RejectsTrailingJunk | playlist_downloader_phase2.py:103-105 | Appending any character outside `[A-Za-z0-9_-]` to any string gives a rejected string. |
| PlaylistUrl.RejectsLeadingJunk | playlist_downloader_phase2.py:103-105 | Prefixing any string with a character that cannot begin the pattern (a blank, for instance) gives a rejected string. |
| FileNames.PadIndex | playlist_downloader_phase2.py:182 | `{i:03d}` is all digits, and exactly three of them for an index below 1000. Zeros are only added to reach three digits: a longer result does not start with `0`, so it is the plain decimal, as `1000` for 1000. |
| FileNames.DecimalNoLeadingZero | playlist_downloader_phase2.py:182 | `str(n)` of more than one digit does not start with `0`. |
| FileNames.PadIndexValue | playlist_downloader_phase2.py:182 | The padded index reads back as the index, for every index. |
| FileNames.SanitizeTitle | playlist_downloader_phase2.py:182 | The cleaned title has at most 40 characters, contains no blank, and neither starts nor ends with whitespace. Its content is stated by `SanitizeTitleContent`. |
| FileNames.SanitizeTitleIdempotent | playlist_downloader_phase2.py:182 | Cleaning a cleaned title changes nothing. |
| FileNames.SanitizeTitleContent | playlist_downloader_phase2.py:182 | With `c` the first 40 characters of the title and `lo` its count of leading whitespace characters, the cleaned title is `c[lo..lo + n]` for its length `n`, with every blank turned into `_`. That slice ends in a non-whitespace character, and everything after it in `c` is whitespace, and it is empty exactly when `c` is all whitespace. |
| FileNames.Filename | playlist_downloader_phase2.py:182 | The name an item is saved under: padded index, `_`, cleaned title, `.mp4`. It has no contract of its own. Its shape is stated by `FilenameShape` and `FilenameIsVideo`, and its order by `FilenameOrder` and `FilenameOrderBreaksAtFourDigits`. |
| FileNames.FilenameShape | playlist_downloader_phase2.py:182 | For an index below 1000 the name is three digits denoting the index, `_`, the cleaned title and `.mp4`, with length 8 plus the title's length. |
| FileNames.FilenameIsVideo | playlist_downloader_phase2.py:182 | Every built name ends in `.mp4`, so the playback filter of line 134 keeps it. |
| FileNames.PadIndexOrder | playlist_downloader_phase2.py:182 | For `i < j < 1000`, the padded index of `i` sorts before that of `j`. |
| FileNames.FilenameOrder | playlist_downloader_phase2.py:182 | For `i < j < 1000` and any two titles, the name of item `i` sorts strictly before the name of item `j`. |
| FileNames.FilenameOrderBreaksAtFourDigits | playlist_downloader_phase2.py:182 | The bound matters: item 1000's name sorts before item 101's, whatever the titles. |
| Text.Strip | playlist_downloader_phase2.py:182 | `strip()` returns a slice of its input, everything removed on either side is whitespace, and the result neither starts nor ends with whitespace. |
| Text.ReplaceSpaces | playlist_downloader_phase2.py:182 | `replace(' ', '_')` keeps the length and changes exactly the blanks into underscores. |
| Text.Take | playlist_downloader_phase2.py:182 | `title[:40]`: the result is a prefix of `t` whose length is the smaller of `n` and the length of `t`. It is all of `t` when `t` is no longer than `n`. |
| Lexical.BelowIffDiffersFirst | playlist_downloader_phase2.py:134 | The string order used by `sorted` is the textbook lexicographic order: a proper prefix comes first, otherwise the first differing character decides. |
| Lexical.BelowTotal | playlist_downloader_phase2.py:134 | Any two different names are ordered one way or the other. |
| Lexical.BelowTransitive | playlist_downloader_phase2.py:134 | The string order is transitive. |
| Lexical.BelowAsymmetric | playlist_downloader_phase2.py:134 | No two strings are each below the other. |
| Lexical.BelowExtend | playlist_downloader_phase2.py:182 | Two ordered prefixes of equal length keep their order whatever follows them. |
| Lexical.Below | playlist_downloader_phase2.py:134 | Python's `<` on strings, as `sorted` uses it. It has no contract of its own. `BelowIffDiffersFirst` relates it to the first differing position, and the lemmas above show it is a strict total order. |
| Sorting.Sort | playlist_downloader_phase2.py:134 | `sorted` returns an ordered permutation of its input. |
| Sorting.SortedUnique | playlist_downloader_phase2.py:134 | A multiset has exactly one ordered arrangement. |
| Sorting.SortPermutationInvariant | playlist_downloader_phase2.py:134 | Sorting does not depend on the order of its input. |
| Sorting.SortOfSorted | playlist_downloader_phase2.py:134 | Sorting an ordered sequence returns it unchanged. |
| Playback.Videos | playlist_downloader_phase2.py:134 | The filter keeps exactly the `.mp4` names, each as often as it is listed. |
| Playback.Playable | playlist_downloader_phase2.py:134 | The playable files are ordered, and they hold each listed `.mp4` name as often as the listing does and nothing else. |
| Playback.Resolve | playlist_downloader_phase2.py:128-138 | No folder gives `NoFolder`. Otherwise the file at `index` of the sorted `.mp4` names is opened exactly when `0 <= index < count`, and `NoMoreVideos` is returned in every other case. What is opened is a listed video. |
| Playback.ResolveIgnoresListingOrder | playlist_downloader_phase2.py:134 | What is opened does not depend on the order in which the folder is listed. |
| Playback.ResolveIgnoresOtherFiles | playlist_downloader_phase2.py:134 | Entries that are not `.mp4` files never change what is opened. |
| Controller.TogglePause | playlist_downloader_phase2.py:112-115 | Flips the pause flag and touches nothing else. |
| Controller.TogglePauseInvolution | playlist_downloader_phase2.py:112-113 | Toggling pause twice restores the state. |
| Controller.Cancel | playlist_downloader_phase2.py:122-126 | Raises the cancel flag and rewinds the cursor to 0 from any index, and touches nothing else. |
| Controller.CancelIdempotent | playlist_downloader_phase2.py:122-124 | Canceling twice is canceling once. |
| Controller.Start | playlist_downloader_phase2.py:148-166 | Resets all four fields first. An empty URL or folder is refused, and only otherwise is the playlist source's answer used: a failure or the item count. |
| Controller.StartChecksInputsFirst | playlist_downloader_phase2.py:157-159 | With a missing URL or folder, the outcome is the same whatever the playlist source would answer. |
| Controller.StartForgetsPriorState | playlist_downloader_phase2.py:149-152 | The result of a start does not depend on the prior state, even when the start is refused. |
| Controller.StartDoesNotCheckUrlPattern | playlist_downloader_phase2.py:154-163 | A string the URL check rejects still starts a download when the source lists it. |
| Controller.PlayFirst | playlist_downloader_phase2.py:140-142 | Sets the cursor to 0, resolves it, and changes nothing else. |
| Controller.PlayNext | playlist_downloader_phase2.py:144-146 | Advances the cursor by one even when nothing is left to open, resolves the new value, and changes nothing else. |
| Controller.CommandsKeepValid | playlist_downloader_phase2.py:112-152 | No command makes the cursor negative. |
| Download.DownloadVideos | playlist_downloader_phase2.py:168-210 | The loop with its `break` on cancel computes exactly the fold `DownloadRun`. |
| Download.Attempted | playlist_downloader_phase2.py:172-174 | The number of items attempted is the item count or the cancel point, whichever is smaller. |
| Download.Conclude | playlist_downloader_phase2.py:207-208 | The cursor is rewound after a completed run only, and nothing else changes. |
| Download.ItemEvents | playlist_downloader_phase2.py:179-205 | The events of one attempt. A save gives progress `i + 1` and the download report, followed by the automatic open for item 0. A failure gives one error event. It has no contract of its own: `ItemEventsShape` and `AttemptsMembers` state its properties. |
| Download.DownloadRun | playlist_downloader_phase2.py:168-210 | The whole worker loop as a fold: attempts up to the cancel point, then the completion event if the flag is still down. It has no contract of its own. `DownloadVideos` proves the imperative loop computes it, and the `Run...` lemmas state its properties. |
| Download.ItemEventsShape | playlist_downloader_phase2.py:179-205 | The events of one attempt are all about that item and no two are equal. |
| Download.AttemptsOrdered | playlist_downloader_phase2.py:172-205 | The events of the first `n` attempts are about items below `n`, come in item order and never repeat. |
| Download.AttemptsMembers | playlist_downloader_phase2.py:179-205 | The first `n` attempts contain an error for each failed item and a progress and a download report for each saved one. The automatic open appears for a saved first item only. |
| Download.RunEvents | playlist_downloader_phase2.py:172-210 | A run's events are its attempts, followed by the completion event and nothing else. |
| Download.RunInItemOrder | playlist_downloader_phase2.py:172-205 | Items are attempted in increasing index order, none at or after the cancel point, and no event is repeated. |
| Download.RunItemOutcome | playlist_downloader_phase2.py:172-205 | An item before the cancel point yields an error if it fails, or a progress and a download report if it is saved, and the loop goes on. Later items yield neither. |
| Download.RunAutoOpen | playlist_downloader_phase2.py:199-200 | The automatic open occurs exactly when item 0 is attempted and saved. |
| Download.RunProgressIncreasing | playlist_downloader_phase2.py:193 | Every progress value lies between 1 and the item count, and the values strictly increase along the run. |
| Download.RunTerminal | playlist_downloader_phase2.py:207-210 | A run completes exactly when the flag is still down after the loop. Then a single completion event is the last event, and the cursor is rewound. A canceled run announces nothing. |
| Download.SavedAmongOrdered | playlist_downloader_phase2.py:172-183 | Saved items come in strictly increasing index order. |
| Download.SavedAmongMembers | playlist_downloader_phase2.py:179-183 | The saved items are exactly the items whose outcome is a save. |
| Download.RunSavedItems | playlist_downloader_phase2.py:172-196 | A run saves, in index order, exactly the items it reports as downloaded. These are its attempted items that were saved, whether or not the run completes. |
| Download.FileNamesSorted | playlist_downloader_phase2.py:182 | The files of saved items below index 1000 are videos in strictly increasing name order. |
| Download.PlaybackFollowsDownloadOrder | playlist_downloader_phase2.py:128-146 | After a run of at most 1000 items, a folder holding its files (listed in any order, next to any non-video files) plays back in download order. Position `k` opens the `k`-th saved file, and positions past the end give `NoMoreVideos`. |
| Scenarios.PlayFirstThenNext | test_playlist_downloader_phase2.py:60-74 | For a folder listing `001_Test.mp4` and `002_Demo.mp4`, first opens `001_Test.mp4`, and next moves the cursor to 1 and opens `002_Demo.mp4`. |
| Scenarios.NextPastTheEnd | playlist_downloader_phase2.py:134-146 | With three videos and a text file listed out of order, the third "next" reports that no video is left, and the cursor still moves to 3. |
| Scenarios.DownloadWithOneFailure | playlist_downloader_phase2.py:172-210 | The exact trace of a three-item run whose second item fails. |
| Scenarios.DownloadCanceledAfterFirst | playlist_downloader_phase2.py:172-207 | A cancel seen before the second item stops the run with no completion. |
| Scenarios.FilenameExample | playlist_downloader_phase2.py:182 | Item 0 titled ` My Song ` is saved as `000_My_Song.mp4`. |
| Scenarios.AcceptsWatchLink | playlist_downloader_phase2.py:103 | `youtu.be/watch?v=a&t=1&list=PL1` is accepted: the query may hold further `&` parameters. |

## Left out

- The GUI is not modelled. That covers widget construction, styling, the console text, message boxes, the folder dialog, and the focus-out highlight of the URL entry (lines 46-100, 106, 109-110, 117-120). Errors are returned as values instead of shown.
- `Playlist`, `video.streams.filter(...).first()`, `stream.download`, `os.listdir`, `os.path.getsize`, `os.startfile` and `os.path.join` are library and OS calls. They are replaced by inputs (the listing, one `Outcome` per item, a `PlaylistSource`) and by abstract results (`Open(folder, name)`, `AutoOpen`).
- The worker thread and the pause busy-wait (lines 176-177, 212) are not modelled. The pause loop neither skips nor consumes an item and does not re-read the cancel flag. So the model treats pause as having no effect on the trace, and makes no claim that a cancel is honoured while paused.
- Instantaneous speed, average speed and time left (lines 186-195) are floating-point arithmetic over clocks and file sizes, so they are not modelled. The download report carries the item's index and title, not the speed.
- A `Failed` outcome stands for an exception raised before the progress update (lines 181-193). The model does not cover an exception after that point, such as `os.startfile` failing for item 0 on a platform without it. In that case the program logs both a download and an error for the same item.
- The error event carries the item's index, not the title and exception text of the message.
- The playlist's item count (`len(playlist.video_urls)`, line 163) is assumed to equal the number of items iterated (`playlist.videos`, line 172).
- Text.Strip: whitespace is the ASCII whitespace characters plus `\x1c`-`\x1f`. Python's `str.strip()` also removes other Unicode whitespace (`\x85`, `\xa0` and others). Strings are sequences of code points, so slicing by 40 counts code points as Python does.
- FileNames.FilenameOrder: only stated for indices below 1000, because beyond that it is false. `FilenameOrderBreaksAtFourDigits` shows that item 1000 plays before item 101.
- Download.PlaybackFollowsDownloadOrder: assumes the folder holds exactly the run's saved files plus non-video files. Videos left from earlier runs in the same folder are not covered: they change the listing.
- The error handler re-reads `video.title` (line 203). The model assumes that read succeeds. If the title itself raised at line 182, the handler raises too and the worker thread dies: there is no error event, no later item is attempted, and no completion is announced. A `Failed` outcome does not cover this case.
- The model's folder listing is always available. In the program `os.listdir` (line 134) raises for a folder that does not exist. `Controller.PlayNext` has then already advanced the cursor (line 145), and the exception escapes the button callback.
- Nothing stops a second start while a worker is still running (lines 148-152, 212). The new start lowers `cancel_download` under the old worker, which then runs on, may complete and rewinds the cursor. Two workers sharing one flag are not modelled: the cancel point describes a single worker, and the flag is only ever raised for it, never lowered.
- `select_folder` (lines 117-120) only copies a dialog's answer into the folder field. The folder is therefore a plain parameter of every command.
