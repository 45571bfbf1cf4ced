# Traffic-camera vehicle counter: a Dafny model of one update pass

The program polls ten public traffic cameras. For each camera it captures one
frame with ffmpeg, counts cars, motorcycles, buses and trucks with a YOLO
detector, and records `"X"` for every class when the capture or the detection
fails. It then publishes the pass:

- it writes the results to `static/data/vehicle_data_<YYYYMMDD_HHMMSS>.json`;
- it points `static/data/latest.json` at that report;
- it deletes every report file except the one whose name sorts last;
- it mirrors every `static/snapshots/*.jpg` into `static/snapshots/latest/`.

This project models that pass (`update_all` and the two functions it calls)
and proves what it guarantees.

The capture tool, the image loader, the detector and the clock are outside the
program. Each is replaced by an input per camera (`Aggregate.CameraRun`):

- what the capture did: wrote a frame, exited without writing, or failed;
- whether the image loads;
- the detector's labels, or none when inference raises;
- the clock reading.

The filesystem is a `map<string, Content>` field of the class `Updater.Site`.
Its methods change that field with the same loops the source runs.

Modules, leaves first:

- `Wrappers`: `Option`.
- `Lex`: the order Python's `sorted` uses on strings (code point by code point, a prefix first). It is a strict total order, and `Lex.Greatest` is the last element of a sorted list.
- `Timestamp`: the `%Y%m%d_%H%M%S` name and the proof that these names sort chronologically.
- `Config`: `TARGET_CLASSES`, `CLASS_NAME_TO_ID` and `CAMERAS`.
- `Snapshot`: the camera-name sanitiser and the snapshot path.
- `Detection`: the per-class counter, the count map with its `"X"` sentinel, and the result record.
- `Layout`: the report, alias and mirror paths, and the `glob` patterns. A `*` never matches `/`. A pattern segment that starts with `*` never matches a name that starts with `.`.
- `Aggregate`: the camera loop as functions (`Captured` threads the files, `Results` builds the list), with its lemmas.
- `Publication`: the report write, the alias, the retention rule and the mirror as functions on the files, with their lemmas.
- `Updater`: the class `Site` and its methods. Each method is proved against the functions above.

Two consequences of the code are worth stating:

- A failed capture does not remove a camera from the mirror. The old snapshot stays in `static/snapshots/` (main.py:39-56), and the mirror copies every `*.jpg` it lists (main.py:117), so the old frame is mirrored again (`Publication.PassMirror`).
- Retention keeps the report whose name sorts last (main.py:112-114). That is the newest report only while the clock does not go backwards (`Publication.PublishedNewest`); when it does, the report just written is the one deleted (`Publication.BackwardClockDropsReport`).

## Model

| member | source | states |
|---|---|---|
| Lex.Irreflexive | main.py:112-113 | no string sorts before itself |
| Lex.Asymmetric | main.py:112-113 | two strings never sort before each other |
| Lex.Transitive | main.py:112-113 | the string order used by `sorted` is transitive |
| Lex.Total | main.py:112-113 | of two distinct strings one sorts before the other |
| Lex.Append | main.py:94-95 | strings that start with pieces of one length compare those pieces first, then the rest |
| Lex.CommonPrefix | main.py:95 | a shared prefix does not change the order |
| Lex.Framed | main.py:95 | a shared prefix and suffix around equal-length pieces do not change their order |
| Lex.Greatest | main.py:112-113 | for a non-empty set of names, the result is a member of the set that every member sorts at or before, which is the last element of `sorted` over distinct names |
| Lex.GreatestUnique | main.py:112-113 | only one element of a set can be greatest |
| Timestamp.Digits | main.py:94 | a zero-padded field is exactly `w` characters, all decimal digits |
| Timestamp.StampShape | main.py:94 | the `%Y%m%d_%H%M%S` stamp is 15 characters with no `/` |
| Timestamp.DigitsOrder | main.py:94 | zero-padded numerals of one width compare as strings exactly as the numbers compare, and are equal exactly when the numbers are |
| Timestamp.StampOrder | main.py:94-95 | for in-range readings, one stamp sorts before another exactly when its reading is chronologically earlier, and stamps are equal only for equal readings |
| Config.IdOf | main.py:15-20 | the label returned for a class is the one `CLASS_NAME_TO_ID` pairs it with |
| Config.TablesAgree | main.py:14-20 | both tables name the same four classes, and no two classes share a label |
| Snapshot.ReplaceAt | main.py:40 | `str.replace` of one character keeps the length and swaps exactly the matching characters |
| Snapshot.SnapshotPath | main.py:41 | the snapshot path lies under `static/snapshots/` |
| Snapshot.SafeNameAt | main.py:40 | the sanitised name has the input's length and maps each character on its own (`/` to `-`, space to `_`) |
| Snapshot.SafeNameClean | main.py:40 | the sanitised name has no `/` and no space, and every other character is unchanged |
| Snapshot.SafeNameFixed | main.py:40 | a name is left unchanged exactly when it has neither `/` nor space |
| Snapshot.SafeNameIdempotent | main.py:40 | sanitising twice is the same as sanitising once |
| Snapshot.SamePath | main.py:40-41 | two names share a snapshot file exactly when they differ only by `/` against `-` or space against `_` |
| Snapshot.NotInjective | main.py:40-41 | `"a b"` and `"a_b"` share the file `static/snapshots/a_b.jpg` |
| Detection.Bump | main.py:67-71 | the inner loop adds one to the class whose id equals the label, and no other class changes |
| Detection.CountLabels | main.py:66-71 | the keys are exactly the four target classes, and each count is the number of labels equal to that class's id |
| Detection.CountedExcludesUnknown | main.py:66-91 | no count map is both all-integer and all-`"X"` |
| Detection.CountedTally | main.py:66-74 | a successful detection's count map has the four classes, each with a non-negative count equal to its label multiplicity |
| Detection.SentinelShape | main.py:90 | the failure map has the four classes, all `"X"` |
| Detection.TargetedBound | main.py:65-71 | at most every label hits a target id, and all of them do exactly when every label is 2, 3, 5 or 7 |
| Detection.TallySum | main.py:65-71 | counts are at least zero and sum to at most the number of labels, and exactly that number when every label is a target id (which the detector's class filter ensures) |
| Layout.ReportPathMatches | main.py:112 | the report just written is listed by `vehicle_data_*.json` |
| Layout.ReportPathOrder | main.py:95 | report names with equal-width stamps sort as the stamps do, and are equal only for equal stamps |
| Layout.LatestIsNotReport | main.py:102 | `latest.json` is not a report file, a snapshot or a mirror entry, so the pruning and the mirror leave it alone |
| Layout.DirsApart | main.py:117-122 | report files are not under `static/snapshots/`, and a listed snapshot is never a listed mirror entry |
| Layout.MirrorRoundTrip | main.py:126-128 | listed snapshots and listed mirror entries correspond one to one through the shared basename |
| Layout.SnapshotListed | main.py:117 | a camera's snapshot is listed by `*.jpg` exactly when its name is non-empty and does not start with `.` |
| Aggregate.ObserveSpec | main.py:81-91 | one camera's result has its name and clock reading; it is all-`"X"` exactly when the fetch gave no path, the image did not load, or inference raised, and it holds the label tally otherwise; only a written capture changes a file, its own snapshot |
| Aggregate.PassExtend | main.py:81-91 | one more loop iteration appends that camera's result and applies its capture |
| Aggregate.ResultsLength | main.py:80-91 | the loop appends one result per camera |
| Aggregate.PassAt | main.py:80-91 | result i is what iteration i computes from the files the first i captures left behind |
| Aggregate.PassUntouched | main.py:39-56 | a path that no capture of the pass wrote keeps its content, so a failed capture keeps the old snapshot |
| Aggregate.PassWritten | main.py:44-50 | with one snapshot file per camera, a written frame is what the camera's snapshot holds after the pass |
| Aggregate.PassOutcome | main.py:81-91 | with one snapshot file per camera, camera i is all-`"X"` exactly when its capture failed, or wrote nothing and left no earlier snapshot, or its image did not load, or inference raised; otherwise it holds the label tally |
| Aggregate.PassShape | main.py:80-91 | one result per camera, in order, with the camera's name and clock reading, counts all integer or all `"X"`, and all `"X"` whenever the capture failed |
| Aggregate.CleanNamesApart | main.py:40-41 | distinct names that sanitising leaves unchanged get distinct snapshot files |
| Aggregate.CameraNamesClean | main.py:23-34 | every registry name is unchanged by sanitising and does not start with `.` |
| Aggregate.CameraNamesDistinct | main.py:23-34 | the registry's camera names are pairwise distinct |
| Aggregate.CamerasApart | main.py:23-41 | every registry camera has its own snapshot file, and `*.jpg` lists each of them |
| Publication.MirrorTargets | main.py:117-128 | every entry to create is a listed mirror entry whose snapshot exists |
| Publication.RetainNewestSpec | main.py:111-114 | non-report files are unchanged; the surviving reports are exactly those that no report sorts after, unchanged; one survives if any existed |
| Publication.ReportNameOrder | main.py:94-95 | reports named from in-range readings are listed, and sort chronologically |
| Publication.KeepsNewest | main.py:112-114 | when every report is named by a reading no later than now, only the report for now survives |
| Publication.BackwardClockDropsReport | main.py:94-114 | when an existing report is named by a later reading than now, the report just written is deleted |
| Publication.MirroredSpec | main.py:116-133 | after mirroring, the listed mirror entries are exactly the basenames of the listed snapshots, each with its snapshot's content; every other path, the snapshots included, is unchanged |
| Publication.PublishedSpec | main.py:93-133 | after publication `latest.json` holds the results, exactly one report exists, the snapshots are unchanged and the mirror matches them |
| Publication.PublishedNewest | main.py:93-114 | with a clock that has not gone back, the one surviving report is the one just written, holding the results |
| Publication.PassMirror | main.py:117-133 | after a pass a camera's mirror entry holds the frame written this pass or, failing that, its old snapshot; there is no entry only when there is neither |
| Updater.Site.Fetch | main.py:39-56 | the capture's effect on the files, and the path is returned exactly when the capture did not fail and a file exists at the snapshot path afterwards |
| Updater.Site.Detect | main.py:58-77 | `None` exactly when the file is missing, the image does not load or inference raises; otherwise the record has the input name, the clock reading, and per class the number of labels with its id |
| Updater.Site.WriteReport | main.py:93-99 | the report path is built from the stamp and holds the results; nothing else changes |
| Updater.Site.RepointLatest | main.py:101-109 | `latest.json` holds the results; nothing else changes |
| Updater.Site.PruneReports | main.py:111-114 | the files become the retention function of the old files |
| Updater.Site.ClearMirror | main.py:121-123 | every listed mirror entry is removed and nothing else changes |
| Updater.Site.MirrorSnapshots | main.py:116-133 | the files become the mirror function of the old files |
| Updater.Site.CollectResults | main.py:80-91 | the results and files are those of the loop functions, and detection runs on exactly the cameras whose fetch gave a path |
| Updater.Site.UpdateAll | main.py:79-135 | one result per registry camera, named after it; all-`"X"` exactly when fetch, load or inference failed; `latest.json` holds the results; the files are the publication of the captured files |

## Left out

- Capture: the ffmpeg subprocess, its 5-second timeout and its exceptions are replaced by an outcome per camera. A run that fails is assumed to leave the output file as it was; a partly written file is not modelled.
- Detection: YOLO model loading and `model.predict` are replaced by a list of integer labels. The 0.4 confidence threshold and the `classes=` filter live in that library; the model accepts any labels and ignores those that are not target ids.
- Image loading: whether `cv2.imread` decodes the file is an input. The model only adds that a missing file never loads.
- Clocks: `time.time()` and `datetime.now()` are inputs. Each camera has its own reading, and the pass has its own stamp.
- Timestamp.Stamp: years before 1000 are rendered zero-padded to four digits; the C library may render them unpadded. The order lemmas assume four-digit years.
- Serialisation: `json.dump`, UTF-8, `ensure_ascii=False` and the indentation are left out. A report file holds the result list itself, and a count map is a Dafny `map`, so the key order of the JSON objects is not modelled.
- Links: a symbolic link and a copy are one thing here, a path holding the content it resolves to. So the model does not show that `latest.json`, as a link, dangles once its target has been pruned, which happens when the clock goes backwards. That state lasts: on every later pass `os.path.exists` follows the dangling link and reports False (main.py:104), so the link is not removed; `os.symlink` then raises (main.py:106); and the fallback `open(latest_path, "w")` writes through the link (main.py:108), recreating the old-named report, which the pruning deletes again (main.py:112-114). So `latest.json` stays dangling from then on.
- Atomicity: the remove-then-link sequence is not atomic in the source, and neither OS atomicity nor concurrent readers are modelled.
- Filesystem errors: an exception from `os.remove` or `open` outside the link fallback (main.py:98, 114, 123), or from the fallback `open` calls themselves (main.py:108, 132-133), propagates and ends `update_all` and the scheduler thread. The model assumes these calls succeed.
- Directories: `os.makedirs` and directory entries that a `glob` could list are left out; every path in the map is a file.
- Sorting: the model replaces `sorted(...)` and the removal loop over `[:-1]` with finding the greatest name, then removing the others. The outcome is the same. The mirror loop's order does not matter either, because no two snapshots share a mirror name.
- The scheduler thread with its 30-second sleep, the HTTP server, `os.chdir`, the main-thread loop and all console logging are left out: they are concurrency, networking and I/O.
