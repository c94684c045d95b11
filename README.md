# Hot-folder auto-compressor: verified model of the watcher's core

`auto_compressor.py` watches an input folder. It sends each new video to a
compression service and saves the compressed result in an output folder.
This project models the deterministic logic inside that watcher and proves
what the logic promises. It covers four parts.

- **Scheduling** (`ScanRules`, `HotFolder`). One iteration of the main loop does the following:
  - It lists the non-hidden regular files of the input folder.
  - It forgets the snapshot and the retry time of every file that has disappeared.
  - It skips files that are in flight or backed off.
  - It records each other file's (size, mtime).
  - It submits a file once two scans saw the same (size, mtime) and the file is old enough.
  - When a job ends, the file leaves the in-flight set. If the file still exists, it is backed off for 30 seconds.

  `ScanRules` states all of this as pure functions over the three pieces of bookkeeping (`processing`, `snapshots`, `next_try_at`) and proves its properties. `HotFolder.Scheduler` is the class whose methods update those three fields in place, with the same loops and `continue` guards as the source. Each method is proved equal to the matching function.
- **Output naming** (`OutputNaming`, `Paths`). The output name is `<stem>_compressed.mp4`. When that name is taken, it gets the smallest free number from 2 to 999. The watcher refuses rather than overwrite an existing output. The download goes to a temporary name with `.part` appended. The output folder is modelled as the set of names it holds. `Paths` models pathlib's `name`, `suffix`, `stem` and `with_suffix` on POSIX paths.
- **Server-sent events** (`ServerSentEvents`). This is the minimal reader of the compression service's progress stream. It keeps the non-blank stripped text after `data: ` and hands it to a JSON decoder, which is a parameter that may reject an item.
- **Settings and file filter** (`EnvConfig`, `ScanRules.IsCandidate`). A boolean environment switch, and the test that keeps hidden files out of the hot folder.

`Text` holds the Python string operations these parts rely on: `str.strip` with Python's whitespace set, ASCII `lower`, `startswith`, `rfind` and decimal formatting.

Time is whole seconds, passed in as `now`. A folder listing is a sequence of entries. Each entry records what `is_file()` returned while the folder was listed (line 314), and what `stat()` returns when the loop reaches the file: a stat, a `FileNotFoundError` (`Vanished`), or any other error (`Failed`). Any other error escapes the scan, and the main loop's handler abandons the rest of the scan. A listing that fails as a whole is `None` and changes nothing.

## Model

| member | source | states |
|---|---|---|
| EnvConfig.EnvBool | auto_compressor.py:40-44 | An unset variable gives the default. A set variable can be true only if its stripped text has between 1 and 4 characters. |
| EnvConfig.EnvBoolAcceptsPadded | auto_compressor.py:42-44 | "1", "true", "yes", "y" or "on", in any ASCII case and padded with any whitespace, switches the setting on, whatever the default. |
| EnvConfig.EnvBoolAcceptsOnlyPadded | auto_compressor.py:42-44 | Conversely, a set value is true only if it is whitespace, then a truthy word in some ASCII case, then whitespace. The same value is true under either default, so the default plays no part once the variable is set. |
| Text.TrimLeftShape | auto_compressor.py:44 | Left stripping keeps a suffix of the text and drops only whitespace. |
| Text.TrimRightShape | auto_compressor.py:44 | Right stripping keeps a prefix of the text and drops only whitespace. |
| Text.StripPadded | auto_compressor.py:44 | Stripping whitespace padding off a text with no whitespace at its ends gives back exactly that text. |
| Text.Strip | auto_compressor.py:44 | Its own contract: the result is no longer than the text and has no whitespace at either end. That it is the text with exactly its whitespace padding removed is stated by `Text.StripStart` and `Text.StripPadded`. |
| Text.Lower | auto_compressor.py:44 | The result has the text's length. Each ASCII capital becomes the small letter at the same place in the alphabet, and every other character is kept as it is. |
| Text.StripStart | auto_compressor.py:44 | The stripped text sits inside the original with only whitespace on both sides of it. |
| Text.Decimal | auto_compressor.py:97 | `f"{i}"` is a non-empty string of digits, with one digit exactly for numbers below 10. It starts with "0" only for 0, so it has no leading zero. |
| Text.DecimalValue | auto_compressor.py:97 | The digits of `f"{i}"`, read most significant first, denote i. |
| Text.DecimalInjective | auto_compressor.py:97 | Different numbers give different numerals. |
| Text.LastIndexOf | auto_compressor.py:91-92 | `rfind`: the index of the last occurrence, or -1 when there is none. |
| Paths.Name | auto_compressor.py:91-92 | pathlib's `name` is empty or a single component with no separator. |
| Paths.NameOfBareName | auto_compressor.py:91-92 | The name of a bare file name is that file name. |
| Paths.Suffix | auto_compressor.py:92 | The suffix is empty, or a dot followed by at least one character, with no other dot and no separator. |
| Paths.Stem | auto_compressor.py:91 | The stem has no separator. |
| Paths.StemSuffix | auto_compressor.py:91-92 | Stem followed by suffix is the name. A name with a suffix has a non-empty stem. |
| Paths.SplitSuffix | auto_compressor.py:91-92 | A stem followed by a one-dot suffix splits back into exactly that stem and suffix. |
| Paths.WithSuffix | auto_compressor.py:240 | `with_suffix` on a bare name ends with the new suffix. |
| Paths.ReplaceSuffixAppends | auto_compressor.py:240 | Putting back the suffix of a bare name followed by more text appends that text to the name. |
| Paths.PartName | auto_compressor.py:240 | `final.with_suffix(final.suffix + ".part")` is the final name with ".part" appended, whether or not the final name has a suffix. |
| OutputNaming.OutputExt | auto_compressor.py:92 | The extension is the desired name's suffix, or ".mp4" when it has none. Either way it is a dot followed by at least one character. |
| OutputNaming.Numbered | auto_compressor.py:97 | `f"{base}_{i}{ext}"`. It has no contract of its own. `OutputNaming.NumberedInjective` states that different numbers give different names, and `OutputNaming.NumberedParts` that it starts with the base and ends with the extension. |
| OutputNaming.UniqueOutputName | auto_compressor.py:89-100 | The result never names an existing file. It is `base+ext` when that is free. Otherwise it is `base_i+ext` for the smallest free i in 2..999. It fails, with the desired name in the error, exactly when all 999 names are taken. |
| OutputNaming.NumberedInjective | auto_compressor.py:96-97 | Different numbers give different fallback names, so the loop tries 998 different names. |
| OutputNaming.RefusalNeedsManyOutputs | auto_compressor.py:96-100 | The refusal happens only when the output folder already holds at least 999 names. |
| OutputNaming.TriedCount | auto_compressor.py:94-99 | For n of 2 or more, the plain name and the fallback names numbered 2 to n are n distinct names. |
| OutputNaming.CompressedName | auto_compressor.py:236-237 | `f"{Path(filename).stem}_compressed.mp4"`. It has no contract of its own. `OutputNaming.CompressedNameParts` states how the name splits into stem and suffix. |
| OutputNaming.CompressedNameParts | auto_compressor.py:236-238 | `<stem>_compressed.mp4` has stem `<stem>_compressed` and suffix ".mp4", so the naming search keeps that base and extension. |
| OutputNaming.PlanDownload | auto_compressor.py:236-240 | The final name is free in the output folder. It starts with `<stem>_compressed` and ends with ".mp4". It is the plain compressed name when that is free. Otherwise it is `<stem>_compressed_<i>.mp4` for the smallest i in 2..999 whose name is free, with every smaller number's name taken. The temporary name is the final name plus ".part". It fails exactly when all 999 candidates are taken. |
| ServerSentEvents.LinePayloads | auto_compressor.py:145-155 | One line contributes at most one payload. It contributes one exactly when it starts with "data: " and its stripped rest is non-empty, and then the payload is that stripped rest. |
| ServerSentEvents.DataPayloads | auto_compressor.py:145-155 | Its own contract is only a bound: at most one payload per line. What the payloads are is stated by `ServerSentEvents.PayloadOrigin`, `ServerSentEvents.PayloadTrimmed`, `ServerSentEvents.PayloadPosition` and `ServerSentEvents.PayloadOrder`. |
| ServerSentEvents.DataPayloadsAppend | auto_compressor.py:145 | Reading a stream in two pieces gives the payloads of the first piece followed by those of the second. |
| ServerSentEvents.PayloadOrigin | auto_compressor.py:150-155 | Every payload comes from a line starting with "data: " and is that line's text from index 6, stripped. |
| ServerSentEvents.PayloadTrimmed | auto_compressor.py:153-155 | No payload is empty or has whitespace at its ends. |
| ServerSentEvents.OnlyDataLinesYield | auto_compressor.py:146-155 | Empty lines, lines with other prefixes, and data lines with a blank payload yield nothing. |
| ServerSentEvents.PayloadPosition | auto_compressor.py:145-158 | Every yielding line is delivered, at the position given by the count of payloads before it. |
| ServerSentEvents.PayloadOrder | auto_compressor.py:145-158 | The payload of an earlier line comes before that of a later one. |
| ServerSentEvents.Decoded | auto_compressor.py:157-160 | The `json.loads` step, which skips a payload the decoder rejects. Its own contract is only a bound: at most one value per payload. `ServerSentEvents.DecodedOrigin`, `ServerSentEvents.DecodedAll` and `ServerSentEvents.DecodedAppend` state its behaviour. |
| ServerSentEvents.DecodedAppend | auto_compressor.py:156-160 | Decoding two runs of payloads one after the other gives the values of the first run followed by those of the second. |
| ServerSentEvents.DecodedOrigin | auto_compressor.py:156-160 | Every value handed on is the decoding of some payload. |
| ServerSentEvents.DecodedAll | auto_compressor.py:156-160 | When the decoder accepts every payload, the values are the decodings of the payloads, one for one and in order. |
| ServerSentEvents.Events | auto_compressor.py:143-160 | Its own contract is only a bound: at most one event per line. What the events are is stated by `ServerSentEvents.EventOrigin`, `ServerSentEvents.DecodedAll` and `ServerSentEvents.DecodedAppend`. |
| ServerSentEvents.EventOrigin | auto_compressor.py:143-160 | Every event is the decoding of the payload of some line of the stream that starts with "data: ". |
| ScanRules.IsCandidate | auto_compressor.py:279-280 | `_is_candidate`: a regular file whose name does not start with ".". It has no contract of its own. `ScanRules.Candidates` states which entries pass it. |
| ScanRules.Candidates | auto_compressor.py:279-280 | The current files are exactly the listed entries that are regular files with a name not starting with ".". |
| ScanRules.DropVanished | auto_compressor.py:317-321 | The clean-up loop's effect as a function. It has no contract of its own. `ScanRules.ScanForgetsVanished` states what it keeps and what it drops. |
| ScanRules.Visit | auto_compressor.py:325-344 | The loop body for one file as a function. It has no contract of its own. `ScanRules.ScanSubmits`, `ScanRules.ScanKeepsSkipped` and `ScanRules.RunAborted` state its effect. |
| ScanRules.Run | auto_compressor.py:324-344 | The loop over the listed files as a function. It has no contract of its own. `ScanRules.RunAt` states that each file is handled from the starting state, and `ScanRules.RunAborted` when the loop stops early. |
| ScanRules.Scanned | auto_compressor.py:312-346 | One iteration of the main loop as a function. It has no contract of its own. The `ScanRules.Scan*` lemmas state its effect. |
| ScanRules.RunAborted | auto_compressor.py:329-332 | Once the folder is listed, the loop over its files is cut short exactly when the stat of a file it looks at fails with an error other than `FileNotFoundError`. |
| ScanRules.RunAt | auto_compressor.py:324-344 | What the loop does to each file depends only on the state when the loop starts, and on whether an earlier file cut the scan short. |
| ScanRules.ScanForgetsVanished | auto_compressor.py:317-321 | After a scan, only listed files have snapshots. A file that had a snapshot and is no longer listed has also lost its retry time. Every other retry time is unchanged. |
| ScanRules.ScanSubmits | auto_compressor.py:324-344 | A listed file is submitted exactly when the scan reached it and five conditions all hold: it is not in flight; its retry time has passed; its stat succeeds; the previous snapshot equals the current (size, mtime); it is at least `ready_min_age` old. A file the scan looks at gets its new snapshot. Any other file keeps the snapshot it had. |
| ScanRules.ScanSubmitsOnlyReady | auto_compressor.py:314-344 | Everything a scan submits had a snapshot before the scan, is not hidden, and is a listed regular file that is stable and old enough. So a file seen for the first time is never submitted by that scan. |
| ScanRules.ScanProcessing | auto_compressor.py:324-344 | A scan adds exactly what it submits to `processing`. It never submits an in-flight file, and never submits the same file twice. |
| ScanRules.ScanKeepsSkipped | auto_compressor.py:324-328 | A listed file that is in flight or backed off is not submitted and keeps its old snapshot unchanged. |
| ScanRules.NoResubmitWhileInFlight | auto_compressor.py:325-326 | A file one scan submits is not submitted by the next scan while its job has not finished. |
| ScanRules.Finished | auto_compressor.py:365-369 | When a job ends, the file leaves `processing` and no other file does. Snapshots are unchanged. Its retry time becomes the end time plus 30 if it still exists, and stays as it was otherwise. No other file's retry time changes. |
| ScanRules.BackoffAfterFinish | auto_compressor.py:327-328 | After a job ends with its input still present, the first scan after it, if it comes within 30 seconds, does not submit the file. |
| ScanRules.ScanKeepsBackoff | auto_compressor.py:327-328 | A listed file whose retry time lies ahead is not submitted, and the scan keeps that retry time. |
| ScanRules.ScanStates | auto_compressor.py:312-346 | Successive iterations of the main loop, as a function of their listings and times. It has no contract of its own. `ScanRules.BackoffPersists` and `ScanRules.BackoffAcrossScans` state what it keeps. |
| ScanRules.BackoffPersists | auto_compressor.py:317-328 | Any number of scans that all list the file, all before its retry time, leave that retry time in place. |
| ScanRules.BackoffAcrossScans | auto_compressor.py:327-328 | After a job ends with its input still present, no scan in the next 30 seconds submits the file, as long as every one of those scans lists it. |
| ScanRules.TwoScansBeforeSubmit | auto_compressor.py:333-344 | A file unknown before two scans, and submitted by the second, was listed by both with the same size and mtime, and is old enough. |
| HotFolder.Scheduler.constructor | auto_compressor.py:303-305 | The scheduler starts with nothing in flight, no snapshots and no retry times. |
| HotFolder.Scheduler.Submit | auto_compressor.py:307-309 | `_submit` adds the file to `processing` and changes nothing else. |
| HotFolder.Scheduler.DropVanishedFiles | auto_compressor.py:317-321 | The clean-up loop leaves exactly the state `ScanRules.DropVanished` describes. |
| HotFolder.Scheduler.VisitFile | auto_compressor.py:325-344 | One pass of the loop body leaves the state and the submissions that `ScanRules.Visit` describes. |
| HotFolder.Scheduler.Scan | auto_compressor.py:312-346 | One iteration of the main loop leaves the state, the submissions and the early stop that `ScanRules.Scanned` describes. All the `ScanRules.Scan*` lemmas therefore hold of it. |
| HotFolder.Scheduler.Finish | auto_compressor.py:352-371 | The clean-up after a job leaves the state that `ScanRules.Finished` describes. |

## Left out

- HTTP traffic in `process_file` is not modelled: upload, compress request, progress stream, download, and the `requests` session with its retry adapter. These are network clients over a library that is not part of this model. Only the naming of the download (lines 236-240) is modelled.
- `_best_effort_secure_delete` is not modelled. It shells out to `shred`, and its outcome depends on the filesystem.
- The thread pool, `stop_event` and the signal handlers are not modelled. Jobs run concurrently with the scan in the watcher. Here a scan and the end of a job are separate, sequential calls on the scheduler.
- `time.sleep` and the wall clock are replaced by an integer `now` parameter. Times, mtimes and `ready_min_age_s` are whole seconds rather than floats.
- The `Config` fields and their parsing from the environment are not modelled, apart from `_env_bool`. The lookup of a variable is a parameter: `None` when it is unset.
- JSON decoding is a parameter function that may reject a payload. `mimetypes`, logging and `mkdir` are I/O and are left out.
- The splitting of the response into lines and their UTF-8 decoding are not modelled. The event reader starts from already decoded lines.
- The vault lock/unlock shell scripts are not part of this model.
- Choosing an output name and writing the file are not atomic in the watcher. A file created between the check and the final `replace` is not modelled.
- Writing into a `.part` file that already exists is not modelled.
- Paths are file names within one folder. Listing order is whatever the listing gives.
- EnvBool: its own contract states only the unset case and a length bound. The "true exactly for a padded truthy word" property is stated in both directions by `EnvBoolAcceptsPadded` and `EnvBoolAcceptsOnlyPadded`.
- Text.Lower: this is ASCII lower-casing. Python's `str.lower` is Unicode-aware. No non-ASCII character lower-cases into one of the truthy words.
- ScanRules.ScanSubmits, ScanRules.RunAt, ScanRules.RunAborted, ScanRules.ScanSubmitsOnlyReady and ScanRules.TwoScansBeforeSubmit: these per-file statements require distinct names among the listed files, as a folder listing has. `Scan` itself handles any listing.
- ServerSentEvents: the reader follows the watcher, not the full event-stream rules of section 9.2.6 of the HTML Living Standard. There, "data:" without a space is also a data line, and data lines are joined into one event at a blank line. The watcher does neither, and neither does the model.
- A retry time recorded for a file that has no snapshot is never cleared by the clean-up loop, which walks only the snapshot keys. The model keeps this behaviour, and `ScanRules.ScanForgetsVanished` states it exactly.
- Paths.Suffix: this follows the suffix rule of pathlib in CPython 3.8 to 3.13. A name has a suffix only when its last dot is neither its first nor its last character, so "a." and ".bashrc" have none. The watcher does not pin a Python version, and other versions treat some of these names differently, for example a name ending in a dot.
- ScanRules.BackoffAcrossScans: it covers scans that all list the file. A scan that does not list a file which has a snapshot also forgets its retry time, as lines 317-321 do, so after such a scan the file can be submitted again within the 30 seconds.
