# kemono-downloader, modelled in Dafny

This project models the decision logic of kemono-downloader, a downloader that
saves every post of one kemono.cr author. The producer (`kemono.py`) turns
each post into a record holding:

- a folder title;
- the post's page URL and id;
- `images`, renumbered pictures;
- `files`, the other attachments;
- the external links found in the post body.

The consumer (`downloader_concurrent.py`) resolves one folder per post,
fetches pictures whole and other files with resumption, writes
`external_links.txt` and reports the post as finished. `main.py` reads the
command line and keeps a per-author ledger of finished posts, so that later
runs skip them. `file.py` supplies the file-name helpers.

The model follows the source file by file:

| module | file | form |
|---|---|---|
| `FolderIdentity`, `Transfers`, `Materialize`, `Downloader` | `downloader_concurrent.py` | Specification functions and lemmas, plus a class `Disk` whose methods (`GetUniqueFolder`, `DownloadImage`, `DownloadWithResume`, `SavePostConcurrent`, …) update a file tree in place with loops. Each method is proved against those functions. |
| `FileNames` | `file.py` | `SanitizeFilename` as a function; `RenameList` as a method renaming an array in place. |
| `Kemono`, `ExternalLinks` | `kemono.py` | Attachment classification as a loop proved against a function; post shaping; the link regex as a scanner. |
| `Ledger`, `CommandLine` | `main.py` | The ledger as a class holding the per-author maps; the stream filter as a loop; argument parsing as functions. |
| `PyStrings`, `FileSystem`, `Records`, `Wrappers` | — | Python string semantics (`strip`, `int()`, `str()`, `split`, `lower`), POSIX `os.path.join`, `os.path.exists` and `os.replace`, the post record, and `Option`/`Result`. |

The disk is a map from path to node (directory, byte file or text file);
`os.path.exists` of a path written with a trailing `/` asks for a directory
at the path without it. An
HTTP exchange is a function from URL and request headers to a reply: status,
headers, body chunks, and whether the body stream ended normally. Unicode
categories are a parameter.

## Model

| member | source | states |
|---|---|---|
| FolderIdentity.CandidateNeverMinusOne | downloader_concurrent.py:14 | The first candidate is the bare title and no candidate is ever `title-1`. |
| FolderIdentity.CandidateNamesApart | downloader_concurrent.py:14 | Different counters give different folder names. |
| FolderIdentity.CandidatesApart | downloader_concurrent.py:14-16 | Candidate folders and their `.post_id` markers are pairwise distinct paths, so creating one never touches another. |
| FolderIdentity.FirstStopUnique | downloader_concurrent.py:13-23 | The loop leaves at exactly one candidate: the first that is absent, owned by this id, or unreadable. |
| FolderIdentity.TriedShrinks | downloader_concurrent.py:13-23 | Every skipped candidate is an existing path, so the loop ends on a finite disk. |
| FolderIdentity.ResolveAt | downloader_concurrent.py:17-29 | The returned path is the candidate. An owned folder is returned with the disk unchanged. An absent one gets a directory at the path it names (without a trailing `/`) and a marker holding `str(post_id)`. An unreadable marker, or a folder `os.makedirs` cannot create, is an error. No other path changes. |
| FolderIdentity.EmptyTitleSkipsBase | downloader_concurrent.py:14-23 | With an empty title the first candidate is `out/`, which exists because `out` does: it is passed over and `out/-2` is created. |
| FolderIdentity.ResolveClaims | downloader_concurrent.py:17-29 | For an id whose `str()` has no surrounding whitespace, the returned folder is owned by that id afterwards. |
| FolderIdentity.ResolveKeepsOthers | downloader_concurrent.py:24-29 | Resolving one candidate leaves what every other candidate probes to unchanged, for any id. |
| FolderIdentity.OwnedForeignToOthers | downloader_concurrent.py:19-23 | A folder owned by one id is skipped by every id with a different `str()`. |
| FolderIdentity.MarkerInjective | downloader_concurrent.py:16 | Different folders (without a trailing `/`) have different `.post_id` paths. |
| FolderIdentity.ResolveIdempotent | downloader_concurrent.py:10-29 | A second call with the same base, title and id returns the same path and changes nothing. |
| FolderIdentity.ResolveSeparatesIds | downloader_concurrent.py:10-29 | For ids whose `str()` has no surrounding whitespace, two posts with the same title and different ids get different folders, each owned by its post. |
| FolderIdentity.PaddedMarkerForeign | downloader_concurrent.py:20-22 | A marker holding an id whose `str()` has surrounding whitespace never matches that id after `strip()`. |
| FolderIdentity.PaddedIdMovesOn | downloader_concurrent.py:10-29 | Such an id, once given a new folder, finds every candidate up to it foreign, so the next call moves on. |
| FolderIdentity.PaddedIdNotIdempotent | downloader_concurrent.py:10-29 | The smallest instance: id `" 7"` on an empty disk gets `out/t`, and a second call passes it and creates `out/t-2`. |
| Records.NumIdCanonical | downloader_concurrent.py:20-21 | A numeric id reads back from its marker after `strip()`. |
| Downloader.Disk.ProbeFolder | downloader_concurrent.py:15-22 | One iteration's tests (folder exists, marker exists, stripped marker equals `str(post_id)`) give `ProbeAt`'s outcome. |
| Downloader.Disk.GetUniqueFolder | downloader_concurrent.py:10-29 | The loop stops at the first stopping candidate, and its result and new disk are `ResolveAt`'s. |
| FileSystem.Replace | downloader_concurrent.py:42 | `os.replace` moves the node to the destination and removes the source; a directory in the way leaves the disk as it was. |
| FileSystem.Unslashed | downloader_concurrent.py:17 | The entry a path names is a prefix of it, only `/`s are dropped, and it does not end in `/` itself. |
| Transfers.ImageEffect | downloader_concurrent.py:34-47 | On 200 with a complete body the destination holds exactly the body and `.temp` is gone; if the destination is a directory, `.temp` keeps the body instead. Any other status, a failed request or a directory at `.temp` changes nothing. A body that breaks off leaves `.temp` empty. |
| Downloader.Disk.DownloadImage | downloader_concurrent.py:34-47 | The method's effect on the disk is `ImageEffect`. |
| Transfers.ParseTotalReadsHeaders | downloader_concurrent.py:68-71 | A Content-Length `n` and a Content-Range `…/n` give `n`. A missing or empty header gives 0. `…/*` raises. |
| Transfers.ParseTotalAfterSlash | downloader_concurrent.py:70 | With a `/`, the total is `int()` of the text after the last `/`. |
| Transfers.SizeOfFullReply | downloader_concurrent.py:68-71 | A 200 reply carrying its Content-Length yields the resource size as total. |
| Transfers.SizeOfPartialReply | downloader_concurrent.py:68-71 | A 206 reply carrying its Content-Range yields the resource size as total. |
| Transfers.WriteAndSettle | downloader_concurrent.py:64-81 | The temp file holds the kept bytes plus the chunks. It is renamed iff the stream ended, no directory is in the way, and either the total parses non-zero with the size at least the total, or the parse raises. Otherwise `.temp` stays. |
| Transfers.ResumeEffect | downloader_concurrent.py:52-85 | Append-on-any-accepted-status behaviour as written. Statuses other than 200/206 change nothing. Otherwise old temp bytes plus body are committed or kept. Nothing else changes. |
| Transfers.ResumeIsSettle | downloader_concurrent.py:56-81 | As written, the Range header comes from the temp size and the old bytes are always kept before the body. |
| Transfers.ResumeNeverShrinks | downloader_concurrent.py:56-66 | As written, the bytes already in `.temp` are never lost. |
| Transfers.ResumeCompletesTransfer | downloader_concurrent.py:56-74 | A server honouring the Range header leads to a committed file equal to the resource. |
| Transfers.SettleCommits | downloader_concurrent.py:73-74 | A known non-zero total that the data reaches commits the file. |
| Transfers.ResumeKeepsFinishedTemp | downloader_concurrent.py:62 | A 416 reply to a Range request leaves everything as it was. |
| Transfers.ResumeNeedsKnownTotal | downloader_concurrent.py:68-77 | With neither size header the total is 0 and the file is not committed. |
| Transfers.IgnoredRangeDuplicatesPrefix | downloader_concurrent.py:59-66 | A server that ignores Range and answers 200 makes the committed file the old prefix followed by the whole resource. |
| Transfers.IgnoredRangeAppends | downloader_concurrent.py:59-74 | On a tree holding only `.temp` with non-empty bytes `p`, a full 200 reply of a non-empty resource to the Range request leaves exactly `dest` holding `p` followed by the whole resource. |
| Transfers.ResumeEffectCorrected | downloader_concurrent.py:52-85 | As `ResumeEffect`, except that the old temp bytes are kept only when the reply is 206. |
| Transfers.CorrectedIsSettle | downloader_concurrent.py:56-81 | The corrected transfer is the same settle step with a 206-dependent kept prefix. |
| Transfers.CorrectedResumeCompletesTransfer | downloader_concurrent.py:56-74 | A full 200 reply, or a 206 continuing the temp bytes, commits exactly the resource. |
| Downloader.Disk.WriteChunks | downloader_concurrent.py:64-66 | The chunk loop leaves the temp file holding the start bytes followed by every chunk. |
| Downloader.Disk.DownloadWithResume | downloader_concurrent.py:52-85 | The method's effect on the disk is `ResumeEffect`, the append rule as written. |
| Materialize.ImageModeOfLowered | downloader_concurrent.py:97 | `rsplit(".", 1)[-1].lower()` and `lower().split(".")[-1]` pick the same extension. |
| Materialize.PlanFetchesImages | downloader_concurrent.py:94-101 | The plan opens with one transfer per image, in order, into the folder. The transfer is whole-file iff the extension is a picture extension. |
| Materialize.PlanFetchesFiles | downloader_concurrent.py:105-107 | Then one resumable transfer per file, in listed order. |
| Materialize.PlanEnds | downloader_concurrent.py:109-116 | Then the links file, iff there are links, then the finished report, iff a callback is given. Neither occurs anywhere else. |
| Materialize.Step | downloader_concurrent.py:99-113 | A step fails only when the links file is blocked by a directory, and it touches only its own paths. A transfer has the effect of `download_image` or `download_with_resume` as written. The links file holds the links joined by newlines. |
| Materialize.RunInStages | downloader_concurrent.py:90-116 | Running the plan is running images, then files, then the links write. |
| Materialize.PlanInStages | downloader_concurrent.py:90-116 | The plan is the image part, then the file part, then the links write, then the report. |
| Materialize.RunFrame | downloader_concurrent.py:90-116 | Paths outside every action's targets are left unchanged. |
| Materialize.RunWithoutTextCompletes | downloader_concurrent.py:46-47 | Transfers never fail as seen by the caller: they catch their own errors. |
| Materialize.NoLinksAlwaysReports | downloader_concurrent.py:109-116 | Without links the post always completes and is reported when a callback is given. |
| Materialize.RunLinksThenReport | downloader_concurrent.py:109-116 | The links write fails iff a directory is in the way, and then the report is not reached. |
| Materialize.LinksFileOutcome | downloader_concurrent.py:109-113 | After the whole plan, the links file holds the joined links, or the save failed on a directory. |
| Downloader.ImageTasks | downloader_concurrent.py:94-101 | The task-building loop yields exactly the image part of the plan. |
| Downloader.Disk.Transfer | downloader_concurrent.py:99-107 | One transfer has the effect of its plan step. |
| Downloader.Disk.Gather | downloader_concurrent.py:102-103 | Running the image tasks one after another has the effect of running that part of the plan. |
| Downloader.Disk.DownloadFiles | downloader_concurrent.py:105-107 | The file loop has the effect of running the file part of the plan. |
| Downloader.Disk.SaveLinks | downloader_concurrent.py:109-113 | The links write has the effect of its plan step, error included. |
| Downloader.Disk.SavePostConcurrent | downloader_concurrent.py:90-116 | Folder resolution, then the whole plan. The disk ends as the plan leaves it, or unchanged when the folder is unusable. |
| FileNames.ReplaceReserved | file.py:7 | Each of `\ / : * ? " < > \|` becomes `_` and every other character is kept. |
| FileNames.Cleaned | file.py:7-9 | Only characters that are not reserved, not category C* and not So remain. |
| FileNames.TrimCut | file.py:10-11 | `rstrip`, cut, `rstrip`: a prefix within the limit, not ending in space or dot, stopping short of the cut only at spaces and dots. |
| FileNames.SanitizeFilename | file.py:5-11 | The result has only safe characters, is at most `max_length` long, does not end in space or dot, and is a prefix of the cleaned title. Between its end and the cut of the stripped cleaned title there are only spaces and dots. |
| FileNames.SanitizeFixpoints | file.py:5-11 | A title is returned unchanged iff it is already safe, short enough and without trailing junk. |
| FileNames.SanitizeIdempotent | file.py:5-11 | Sanitizing twice is sanitizing once. |
| FileNames.RenamedWidthUniform | file.py:16 | The digit width is 1 below 10 entries, 2 below 100, else 3, and every number up to 999 is padded to it. |
| FileNames.PadValue | file.py:20 | The zero-padded number reads back as the number. |
| FileNames.RenamedNameParts | file.py:19-20 | A new name is the padded number, a dot, and the old last dot-segment. |
| FileNames.RenamedNamesDistinct | file.py:18-21 | Renamed entries have pairwise distinct names. |
| FileNames.RenamedKeepsExtension | file.py:18-21 | Renaming keeps the length, each URL and each extension. |
| FileNames.RenameList | file.py:14-23 | The list is renamed in place, entry `i` getting number `i+1`, and the same list is returned. |
| Kemono.ClassifiedMembers | kemono.py:165-175 | An entry is in `images` (or `files`) iff some attachment with non-empty name and path and a picture (or other) extension gives it, as `base_url + path` and name. |
| Kemono.ClassifiedAppend | kemono.py:165-175 | Classification keeps the relative order of attachments. |
| Kemono.ClassifiedSorts | kemono.py:165-175 | Every image has a picture extension, every file has not, and all have names and a URL under `base_url`. |
| Kemono.ClassifiedOne | kemono.py:165-175 | A single usable attachment goes to exactly one list. |
| Kemono.ClassifyAttachments | kemono.py:163-175 | The loop's two lists are the classification. |
| Kemono.MainFileFirst | kemono.py:150-151 | A usable main file is first in its list, ahead of every attachment, and the other list is unchanged. An absent main file, or one lacking `name` or `path`, leaves the classification of the attachments as it is. |
| Kemono.DayOfTimestamp | kemono.py:138 | The day is the part of `published` before `T`. |
| Kemono.FolderTitleDay | kemono.py:154-160 | Mode 1 is `day_title`, mode 2 is `title_day` (the day reads back from either end), and any other mode is the cleaned title. |
| Kemono.FolderTitleSeparatesDays | kemono.py:155-160 | With a day mode, posts of different days get different titles. |
| Kemono.ExtractExternalLinks | kemono.py:196-199 | No body gives no links. A body gives exactly the links the pattern as written finds; the empty-body guard agrees with the scan. |
| Kemono.ExtractedLinksMatch | kemono.py:196-199 | Each extracted link is a match of the pattern as written in the body, starts with `http://` or `https://`, and ends in a character other than a backslash, `s`, `"`, `<` or `>`. |
| Kemono.ShapePost | kemono.py:136-188 | The loop body builds the record: folder title, page URL, id, day, renamed pictures, other files and the links the pattern as written finds. |
| Kemono.ShapedImagesFetchedWhole | kemono.py:170-177 | Every picture the producer lists is fetched whole by the downloader. |
| Kemono.ShapedImageNamesDistinct | kemono.py:177 | The pictures of a post get pairwise distinct names. |
| Kemono.ShapedFilesKeepNames | kemono.py:165-175 | Every other file comes from a usable, non-picture attachment, name unchanged. |
| ExternalLinks.RunEndChars | kemono.py:199 | The greedy run holds only link characters and stops at the first other one. |
| ExternalLinks.ScanSound | kemono.py:199 | The scan behind `findall`: the i-th result starts at or after the search start, is the text of a match there, and fits in the string. |
| ExternalLinks.FindAllSound | kemono.py:199 | The i-th link found is the match of the pattern starting at `NthStart`, at or after the search start. |
| ExternalLinks.LinksShape | kemono.py:199 | Under either reading every link starts with a scheme and ends in a character the run accepts. |
| ExternalLinks.LinksIntendedClean | kemono.py:199 | With the intended pattern no link holds whitespace, `"`, `<` or `>`. |
| ExternalLinks.FirstLink | kemono.py:199 | A scheme, a site name and a non-empty run at the start form the first link, and the search resumes after it. |
| ExternalLinks.AsWrittenCutsAtS | kemono.py:199 | As written, `https://drive.x/s` yields `https://drive.x/`. |
| ExternalLinks.IntendedKeepsS | kemono.py:199 | As intended, `https://drive.x/s` yields itself. |
| ExternalLinks.AsWrittenRunsPastSpace | kemono.py:199 | As written, `http://mega.n a` yields one link running over the space. |
| ExternalLinks.IntendedStopsAtSpace | kemono.py:199 | As intended, `http://mega.n a` yields `http://mega.n`. |
| ExternalLinks.AsWrittenMissesPuush | kemono.py:199 | As written no match starts at a puu.sh link; as intended one does. |
| Ledger.NewEntryContents | main.py:12-14 | The entry holds `finished` and the keys of `extra`, no others. `extra` overrides. |
| Ledger.StatusFiles.UpdateStatus | main.py:9-16 | The author's map gets the new entry under `str(post_id)`. Every other author and every other post is unchanged. |
| Ledger.FilteredMembers | main.py:45-51 | A post passes iff it is in the stream and its entry's `finished` is absent or falsy. |
| Ledger.FilteredAppend | main.py:45-51 | Filtering keeps stream order. |
| Ledger.FilteredStream | main.py:45-51 | The generator's output is the filtered stream. |
| Ledger.RecordedThenSkipped | main.py:9-16 | After recording a post as finished, later runs skip exactly the posts with that key and pass the rest as before. |
| Ledger.FalsyOverrideNotSkipped | main.py:13-14 | An `extra` with a falsy `finished` leaves the post to be fetched again. |
| CommandLine.IntArg | main.py:27-29 | A missing argument gives the default; a present one is `int()` of it or an error. |
| CommandLine.UserPos | main.py:37 | The search finds the leftmost `/user/` followed by a digit, or none exists. |
| CommandLine.DigitRun | main.py:37 | `\d+` takes the whole leading run of digits. |
| CommandLine.FindUserIdMeaning | main.py:37-41 | No id iff no `/user/<digit>` occurs. Otherwise the id is the non-empty digit run after the leftmost one. |
| CommandLine.ParseArgs | main.py:19-41 | Fewer than two arguments gives the usage error. A result carries the URL and the id found in it. |
| CommandLine.ParseArgsAccepts | main.py:25-41 | When every number parses and the URL holds a user id, the result is the configuration of those values, with the save dir defaulting to `./download`. |
| CommandLine.ParseArgsDefaults | main.py:25-29 | With only the URL the settings are `./download`, 16, 2 and 0. |
| CommandLine.ParseArgsReadsNumbers | main.py:27-29 | Numbers given as `str(n)` are read back as `n`. |
| CommandLine.ParseArgsNeedsUser | main.py:37-40 | A URL without `/user/<digits>` stops the run. |
| PyStrings.PyIntOfIntStr | main.py:27 | `int(str(i)) == i` for every integer. |
| PyStrings.PyIntOfDec | downloader_concurrent.py:70-71 | `int()` reads a decimal numeral back as its value. |
| PyStrings.PyIntRejectsNonDigit | downloader_concurrent.py:70 | A trimmed text starting with neither a sign nor a digit, such as `*`, makes `int()` raise. |
| PyStrings.StripTrims | downloader_concurrent.py:20 | `strip()` leaves no whitespace at either end. |

## Left out

- Concurrency: semaphores, tasks, `gather` and done-callbacks (`download_streamed_posts`, downloader_concurrent.py:119-138). The image transfers of one post run one after another. They touch disjoint paths when names differ (`ShapedImageNamesDistinct`).
- `GetPosts`, `GetPostsAttachments` and the JSON decoding of API replies (kemono.py:58-121). The first list request and the detail requests are network plumbing. A post record starts from the decoded fields.
- The non-streamed `extract_attachments_urls` (kemono.py:9-55) is not a separate member. Its classification and renaming are the same functions.
- The HTTP session (`cilent_session.py` is not part of this model), console output, and `set_hidden_windows` (a Windows attribute call).
- `meta_dir.load_status`/`save_status` are not part of this model. They are whole-map reads and writes; a missing file reads as an empty map.
- `os.makedirs(save_dir, exist_ok=True)` (main.py:32). Parent directories are not modelled: `os.makedirs` of a candidate creates just that path, and a write never needs an existing parent directory, so a `files` name containing `/` (kemono.py:165-175) is written and committed where Python's `open` raises FileNotFoundError and writes nothing.
- `unicodedata.category` is a parameter. `lower()` changes ASCII letters only, `int()` accepts ASCII digits only, and `\d` in the user-id pattern (main.py:37) matches ASCII digits only, where Python's `str` pattern takes every Unicode decimal digit.
- `\s` in the intended pattern is Python's `str.isspace` set.
- Header names are looked up case-sensitively.
- Text is not decoded from bytes. A marker is readable only when it is a text node. A directory there raises in Python too. A byte file there is a modelling choice: Python would read it as UTF-8 and compare it, and only invalid UTF-8 raises. Such a file can come, for instance, from a `files` attachment named `.post_id`.
- Paths are compared as strings. Only a trailing `/` is resolved (`PathExists`). Repeated `/`, `.` and `..` components and symbolic links are not resolved.
- The chunk size is not modelled: chunks arrive as the server gives them.
- JSON floats in the ledger are not modelled.
- FolderIdentity.ResolveIdempotent: stated only for ids whose `str()` has no surrounding whitespace, because other ids never match their own stripped marker (`PaddedIdNotIdempotent`).
- Total size rule: the code is followed. With neither size header, `total` is 0 and the file stays as `.temp`. Only an `int()` failure commits without a check.

## Findings

| source | as written | input that shows it | evidently intended | confidence | as-written member | corrected member |
|---|---|---|---|---|---|---|
| downloader_concurrent.py:59-66 | With a non-empty `.temp`, the body is appended after the old bytes whenever the status is 200 or 206. | `.temp` holds `[1]`; the server ignores `Range` and answers 200 with `[1, 2]` and `Content-Length: 2`. The committed file is `[1, 1, 2]`. | Keep the old bytes only for a 206 partial reply; a 200 reply overwrites. | not executed | Transfers.IgnoredRangeDuplicatesPrefix | Transfers.CorrectedResumeCompletesTransfer |
| kemono.py:199 | The raw string doubles the backslashes. The run class excludes a backslash and the letter `s` instead of whitespace, and `puu\\.sh` asks for a backslash. | `https://drive.x/s` gives `https://drive.x/`. `http://mega.n a` gives `http://mega.n a`. No puu.sh link is ever found. | `[^\s"<>]+` and `puu\.sh`: links stop at whitespace and puu.sh links are found. | not executed | ExternalLinks.AsWrittenCutsAtS | ExternalLinks.LinksIntendedClean |
