# printables_scraper: a Dafny model of its download and naming layer

The scraper crawls the model listing of printables.com and collects model
links. For each model page it records the title, the tags and the images,
downloads the model files through the browser, and files everything under
`<output>/<first tag>/<model id>_<title>/`. This project models the parts of
that pipeline that decide names, paths and outcomes. It leaves out the browser
and the network that feed them.

- **Text, Paths**: the Python string and `posixpath` operations the program relies on:
  - `str.strip`, `str.lower`, `str(n)` and `split('?')[0]`;
  - `basename`, two-argument `join` and `splitext`.
- **Sanitizer**: `sanitize_filename` (utils.py), as four passes and a truncation.
- **Detector**: `wait_for_download_completion` (utils.py).
  - The polling loop, the filter for unfinished transfers, the newest-candidate choice and the size-stability counter.
  - It runs over the environment's answers, given as functions of the poll number.
- **Probe**: the two name-probing loops of `download_image` (utils.py).
  - The temporary-file loop as written, and a corrected version.
  - The `.jpg` loop.
- **UrlList**: the URL list file of main.py: the text it writes, how it is read back, and the round trip.
- **Crawler**: the browser-independent rules of scraper.py.
  - Link normalisation.
  - The infinite-scroll loop with its stall counter and limit.
  - The `model_data` record as a class, with tag collection, image dedup, image file names and extensions, image downloads and the "Download All" / individual-download bookkeeping.
- **Driver**: the per-model bookkeeping of main.py.
  - The model id and the processing limit.
  - The category and model folder names.
  - The move-and-continue loop, over a `Disk` class that maps folders to the names they hold.
  - The rewrite of the recorded paths.

Behaviour of the code worth knowing:

- `sanitize_filename` keeps `_` (it filters with `\w`), and it does not reject `..`. See `Sanitizer.SanitizeKeepsDotDot` and `Driver.CategoryFolderMayBeParent`.
- The relocation step rewrites every recorded path to `dest/basename(p)`, whether or not that item moved. See `Driver.RebasedMayNameMissingFile`.
- Only `shutil.Error` is caught in the move loop.
- A first tag with no usable character gives an empty category folder. With the title `temp_model_folder`, the final model folder is then the temporary one. See `Driver.ModelDirectoryMayBeTempFolder` and the findings below.
- In the individual-download loop, a stale button met before any file name was read ends the whole loop (scraper.py lines 346 and 382-384). See `Crawler.StaleFirstButtonStopsLoop` and the findings below.

## Model

| member | source | states |
|---|---|---|
| Text.Strip | utils.py:18 | `str.strip()`: the result is `s[a..b]` where everything before `a` and from `b` on is whitespace; it has no whitespace at either end and is no longer than `s` |
| Text.StripOfStripped | main.py:42 | a string with no whitespace at its ends is its own `strip()` |
| Text.BeforeFirst | scraper.py:136 | `split('?')[0]` is a prefix with no `?`, cut exactly at the first `?` |
| Text.NatToString | scraper.py:261 | `str(n)` is a non-empty run of digits with no leading zero |
| Text.NatToStringInjective | scraper.py:261 | different numbers render differently |
| Text.NatToStringLength | utils.py:174-176 | a number of at least 10^m has more than m digits (why a probe eventually leaves any finite set) |
| Paths.LastIndexOf | utils.py:171 | `rfind`: -1 or the index of the last occurrence, none after it |
| Paths.Basename | main.py:242 | `basename` has no separator, is a suffix of the path, and is preceded by a separator when shorter |
| Paths.Join | main.py:243 | `join(a, b)` starts with `a` unless `b` is absolute |
| Paths.BasenameOfJoin | main.py:202-203 | joining a separator-free name and taking the basename gives the name back |
| Paths.JoinBasename | main.py:242-243 | `join(dir, basename(p))` keeps the file name and lies inside `dir` |
| Paths.SplitExt | utils.py:171 | `splitext` splits the path into root + ext; a non-empty ext starts with its only dot and has no separator; ext is empty exactly when the basename has no dot after a non-dot |
| Sanitizer.DropDisallowed | utils.py:18 | keeps only `[\w\s.-]` characters, never lengthens, and is the identity on allowed strings |
| Sanitizer.DropDisallowedConcat | utils.py:18 | the filter works character by character: it keeps an allowed character, drops any other, and keeps the order of what it keeps |
| Sanitizer.CollapseSpaces | utils.py:19 | the result holds no whitespace; it never lengthens, makes allowed text safe, is the identity without whitespace and keeps a non-space first character |
| Sanitizer.CollapseKeepsWord | utils.py:19 | characters other than whitespace pass unchanged |
| Sanitizer.CollapseRun | utils.py:19 | a maximal run of whitespace becomes exactly one `_` |
| Sanitizer.CollapseBetweenWords | utils.py:19 | whitespace between two words becomes one `_`, and the words stay as they are |
| Sanitizer.TrimEdgeLeft | utils.py:20 | `lstrip('_-')`: a suffix that does not start with `_` or `-`; every character removed is `_` or `-` |
| Sanitizer.TrimEdgeRight | utils.py:20 | `rstrip('_-')`: a prefix whose removed tail is all `_`/`-` and whose last character is neither |
| Sanitizer.Untruncated | utils.py:18-20 | the three passes composed: never longer than the input, and a non-empty result starts and ends with a character other than `_` and `-`; `UntruncatedSafe` and `UntruncatedOfSafe` pin what it holds |
| Sanitizer.Sanitize | utils.py:16-21 | `[:100]` of the passes: a prefix of `Untruncated`, equal to it when it has at most 100 characters and exactly 100 characters long otherwise; `SanitizeSafe`, `SanitizeOfSafe` and `SanitizeTwice` state the rest |
| Sanitizer.UntruncatedSafe | utils.py:18-20 | after the three passes every character is a word character, `.` or `-` |
| Sanitizer.SanitizeSafe | utils.py:16-21 | the result has at most 100 characters, only word characters, `.` and `-`, no whitespace, no `/`, `:` or `?` |
| Sanitizer.SanitizeStart | utils.py:20-21 | a non-empty result never starts with `_` or `-` |
| Sanitizer.UntruncatedOfSafe | utils.py:18-20 | on safe text not starting with `_`/`-`, only the right edge trim has an effect |
| Sanitizer.SanitizeOfSafe | utils.py:16-21 | the same, truncation included, for at most 100 characters |
| Sanitizer.SanitizeFixedPoint | utils.py:16-21 | a settled name of at most 100 characters is its own sanitization |
| Sanitizer.SanitizeTwice | utils.py:20-21 | sanitizing twice only removes a trailing `_`/`-` left by the truncation |
| Sanitizer.SanitizeMayEndWithUnderscore | utils.py:20-21 | truncation after edge stripping can leave a trailing `_` (99 safe characters, `_`, one more character) |
| Sanitizer.SanitizeKeepsDotDot | utils.py:18-21 | `..` passes through unchanged |
| Detector.NewCompleted | utils.py:68-77 | exactly the listed names not in the baseline and not ending (lower-cased) in an in-progress suffix |
| Detector.IsPartial | utils.py:60-77 | the lower-cased name ends with one of the six in-progress suffixes; `NewCompleted` states that exactly the names for which it fails are kept |
| Detector.Newest | utils.py:83-99 | no choice exactly when no candidate's mtime could be read; a choice has a readable mtime |
| Detector.NewestIsNewest | utils.py:97-99 | the choice has the largest mtime and is the first such in the list (stable descending sort) |
| Detector.SelectCandidate | utils.py:83-99 | the candidate loop returns `join(dir, newest)`, or None exactly when no mtime could be read |
| Detector.Step | utils.py:107-130 | one reading: the count grows by at most one; a positive count means the reading was that non-zero size; a size becomes the last known size; a read error resets the count and keeps the size |
| Detector.Counter | utils.py:103-130 | after n readings the count is at most n, and a positive count means reading n-1 was that non-zero size; `CounterSound` and `CounterComplete` pin it to runs of equal readings |
| Detector.CounterSound | utils.py:106-130 | a counter value k ≥ 1 means the last k readings were the same non-zero size, the remembered one |
| Detector.CounterComplete | utils.py:106-130 | k equal non-zero readings in a row drive the counter to at least k |
| Detector.AwaitStableSize | utils.py:103-136 | success exactly when five equal non-zero readings occur in a row within 25 attempts |
| Detector.WaitForDownloadCompletion | utils.py:62-143 | the polling loop returns what the recursive definition `Detect` gives |
| Detector.Detect | utils.py:62-143 | the outcome of the polling loop from a given pass; its value is stated by `DetectSound`, `DetectUnsettled`, `DetectTimeout` and `DetectComplete`, and the loop equals it by `WaitForDownloadCompletion` |
| Detector.DetectSound | utils.py:62-143 | a returned path is `join(dir, n)` where some pass before the timeout selected `n` (new, not in progress, newest readable), and the sizes settled |
| Detector.DetectUnsettled | utils.py:134-136 | when the stability phase fails the call returns None, with no re-scan for another candidate |
| Detector.DetectTimeout | utils.py:62-143 | if no pass before the timeout sees a new finished readable file, the result is None (e.g. only `.crdownload` files) |
| Detector.DetectComplete | utils.py:79-117 | if pass j is the first to select a file and the sizes settle, that file's path is returned |
| Probe.Candidate | utils.py:175 | a probe is longer than its number's digits |
| Probe.ProbeName | utils.py:175 | `f"{root}_{n}{ext}"`: the root, an `_`, the digits of n and the extension, in that order |
| Probe.ProbeNamesDistinct | utils.py:174-176 | different counters give different names, so each pass of the loop tries a new path |
| Probe.ProbeBeyondTaken | utils.py:174-176 | probes numbered 10^(longest taken length) or more are never taken |
| Probe.FirstFree | utils.py:174-176 | the first probe number from n on whose candidate is free; all before it are taken |
| Probe.TempPath | utils.py:171-176 | the temporary path is free, and is either `join(dest, name)` or `root_<n>ext` with n ≥ 1 (no folder) |
| Probe.ProbeTempPath | utils.py:171-176 | the loop computes `TempPath` and terminates |
| Probe.LaterProbeLeavesDestination | utils.py:175 | with `downloads/a.jpg` taken, the loop settles on `a_1.jpg`, which no join under `downloads` gives |
| Probe.TempPathInDir | utils.py:171-176 | corrected: the path is free and is `join(dest, name)` or `join(dest, root_<n>ext)` |
| Probe.TempPathInDirExample | utils.py:171-176 | corrected: with `photo.jpg` and `photo_1.jpg` taken, the result is `dest/photo_2.jpg` |
| Probe.FirstFreeSkips | utils.py:174-176 | a taken probe is skipped; a free one is the answer |
| Probe.JpgPath | utils.py:190-199 | the `.jpg` path is free or is the downloaded file itself |
| Probe.ProbeJpgPath | utils.py:193-199 | the loop computes `JpgPath` and terminates |
| UrlList.UrlText | main.py:27-28 | the written text is empty exactly for no URLs and otherwise ends with a newline |
| UrlList.SaveUrls | main.py:27-28 | the writing loop produces `UrlText` |
| UrlList.LineEnd | main.py:42 | the first line break, with none before it |
| UrlList.Lines | main.py:42 | the lines of a text-mode file hold no line break |
| UrlList.KeepStripped | main.py:42 | the result holds, stripped, exactly the lines with something besides whitespace; each entry is non-empty and stripped |
| UrlList.KeepStrippedConcat | main.py:42 | the filter works line by line, so it keeps the order of the lines |
| UrlList.LoadUrls | main.py:34-47 | no URLs for a missing or unreadable file; otherwise non-empty stripped lines |
| UrlList.LinesOfUrlText | main.py:27-42 | splitting the written text gives back the URLs when none holds a line break |
| UrlList.KeepStrippedOfStored | main.py:42 | storable URLs survive the strip-and-filter unchanged |
| UrlList.LoadSavedUrls | main.py:22-47 | loading what was saved returns the same list for non-empty, stripped, single-line URLs |
| Crawler.BeforeQueryKeepsModelPath | scraper.py:135-136 | cutting a `/model/` href at `?` keeps the `/model/` prefix |
| Crawler.NormaliseLink | scraper.py:134-136 | an href is kept exactly when present and starting with `/model/` |
| Crawler.NormaliseLinkShape | scraper.py:136 | a kept link starts with `https://www.printables.com/model/`, has no `?`, and is the site plus a prefix of the href |
| Crawler.RoundLinksMembers | scraper.py:133-137 | a scroll contributes a link exactly when some href normalises to it |
| Crawler.RoundLinksAreModelLinks | scraper.py:133-137 | every contributed link is a model link |
| Crawler.AddRoundLinks | scraper.py:133-137 | the loop adds exactly that round's links to the set |
| Crawler.RoundLinksSnoc | scraper.py:133-137 | one more href adds its normalised link, if any |
| Crawler.RoundLinks | scraper.py:133-137 | the links one scroll round contributes; `RoundLinksMembers` states exactly which, `RoundLinksAreModelLinks` that each is a model link |
| Crawler.StopRound | scraper.py:120-145 | the first round that ends the loop (stall count reached, or limit met), or the fuel bound |
| Crawler.ScrapeModels | scraper.py:100-147 | the scroll loop ends by a `break` exactly when `StopRound` is below the fuel, and returns the collected links, each once |
| Crawler.ScrollLinks | scraper.py:100-147 | the links the scroll loop has collected when it breaks; `ScrapeModels` returns them, `ScrollLinksAreModelLinks` and `ScrollStopsForAReason` state what they are and why the loop stopped |
| Crawler.ListOf | scraper.py:147 | `list(set)`: each element exactly once |
| Crawler.AttemptsCountStalls | scraper.py:120-127 | the counter reaches m exactly when the last m rounds were all stalled |
| Crawler.ScrollLinksAreModelLinks | scraper.py:133-147 | every returned link is a model link |
| Crawler.CollectedAreModelLinks | scraper.py:133-137 | links collected after k rounds are model links |
| Crawler.ScrollStopsForAReason | scraper.py:120-145 | the loop ends on its own only after `maxAttempts` stalled rounds, or with at least `limit` links, which may be more |
| Crawler.AddTags | scraper.py:238-246 | the tag list only grows at its end, by non-empty, non-excluded texts not already tags |
| Crawler.AddTagsNoDup | scraper.py:238-246 | tags stay free of duplicates |
| Crawler.AddTagsMembers | scraper.py:238-246 | the tags afterwards are the tags before plus exactly the eligible texts |
| Crawler.FirstIndex | scraper.py:238-246 | the first occurrence of a text, or the length |
| Crawler.AddTagsFirstAppearance | scraper.py:238-246 | added tags keep the order of their first appearance |
| Crawler.AddTagsFresh | scraper.py:240-245 | an added tag is new, non-empty and not excluded |
| Crawler.PageTagsShape | scraper.py:237-246 | a page's tags have no duplicate or empty entry and are exactly the eligible breadcrumbs (without `3D Models`) and attributes |
| Crawler.PageTags | scraper.py:237-246 | breadcrumbs, then attributes, through `AddTags`; pinned by `PageTagsShape`, `AddTagsMembers` and `AddTagsFirstAppearance` |
| Crawler.CatalogueRootOnlyFromBreadcrumbs | scraper.py:240-245 | `3D Models` is dropped from breadcrumbs but kept as an attribute |
| Crawler.UrlExtension | scraper.py:253 | the URL's own extension is empty or starts with a dot, and has no `/` or `?` |
| Crawler.KindAt | scraper.py:255 | a result is one of the given types that follows the dot in any case and ends at a `?`, the end or a final newline; no result means no given type matches there |
| Crawler.SearchKind | scraper.py:255 | a result is a known type matched at some dot, with no match at any earlier position; no result means no match anywhere from the start position |
| Crawler.KindMatchUnique | scraper.py:255 | at most one known type matches after a given dot, so the order of the alternatives does not matter |
| Crawler.ImageExtension | scraper.py:253-259 | the extension is never empty and starts with a dot |
| Crawler.ImageExtensionShape | scraper.py:253-259 | it is the URL's own extension when there is one, else a dot and a known type; never holds `/` or `?` |
| Crawler.ImageNamesDistinct | scraper.py:261 | two images of a model never get the same `image_<n><ext>` name |
| Crawler.ImageFileNameIsOneSegment | scraper.py:261 | an image file name has no separator |
| Crawler.ImageFileName | scraper.py:261 | `image_<i+1><ext>`; `ImageNamesDistinct` and `ImageFileNameIsOneSegment` state that the names differ and are single path segments |
| Crawler.RecordedPath | scraper.py:299-372 | a path is recorded exactly when the download was verified |
| Crawler.IndividualPaths | scraper.py:336-391 | at most one recorded path per pass |
| Crawler.LoopEnd | scraper.py:336-391 | the loop stops early only at a stale button met while every earlier pass ended before reading a name, and it stops at the first such button |
| Crawler.IndividualPathsPrefix | scraper.py:336-391 | the loop records what the passes before the one that ends it record, in order |
| Crawler.IntendedPathsMembers | scraper.py:336-391 | with every button tried, a path is recorded exactly when some pass verified it |
| Crawler.IntendedPathsEmpty | scraper.py:336-391 | with every button tried, nothing is recorded exactly when no pass was verified |
| Crawler.IntendedPaths | scraper.py:336-391 | the loop as its messages intend, trying every button; `IntendedPathsMembers` and `IntendedPathsEmpty` state what it records |
| Crawler.StaleFirstButtonStopsLoop | scraper.py:343-384 | a stale first button and a verified second one: the loop records nothing, where trying every button records the second file |
| Crawler.DownloadSucceeds | scraper.py:283-391 | a model counts as downloaded exactly when "Download All" or a pass the loop reaches was verified; a verified "Download All" records one path and suppresses the rest |
| Crawler.DownloadPaths | scraper.py:283-391 | the paths the download step records: the Download All path if verified, else the individual passes up to `LoopEnd`; `DownloadSucceeds` and `RecordDownloads` state it |
| Crawler.RecordedPathPlace | scraper.py:301-313 | a moved file is recorded under the files folder with its name kept; on `shutil.Error` the temporary path is recorded |
| Crawler.ModelData.constructor | scraper.py:187-196 | the initial record: `N/A` title and description, empty lists, the model URL |
| Crawler.ModelData.CollectImages | scraper.py:212-219 | the images are exactly the ones already recorded plus the non-empty gallery sources, each once |
| Crawler.ModelData.SetSummary | scraper.py:207-224 | title and description are the stripped texts of the found elements, or `N/A` for a missing one |
| Crawler.ModelData.AddTagTexts | scraper.py:238-246 | one tag loop leaves `AddTags` of the old tags and the stripped texts |
| Crawler.ModelData.CollectTags | scraper.py:237-246 | both loops together give `PageTags` when the tags start empty |
| Crawler.ModelData.DownloadImages | scraper.py:251-268 | the recorded image paths are the saved paths, in image order |
| Crawler.SavedImagesStep | scraper.py:262-266 | one turn of the image loop keeps the saved paths a prefix of the result |
| Crawler.SavedImagesFromDownloads | scraper.py:252-268 | at most one path per image, each one a result of downloading that image under its own name |
| Crawler.SavedImages | scraper.py:251-268 | the image paths recorded, in image order; `SavedImagesFromDownloads` states where each comes from and `DownloadImages` that the loop records them |
| Crawler.ModelData.RecordDownloads | scraper.py:283-391 | the recorded file paths grow by exactly `DownloadPaths`, which ends the individual loop at a stale button met before any name was read |
| Driver.FindId | main.py:163 | `re.search` finds the leftmost `/model/<digit>`, or reports none exists |
| Driver.IdAt | main.py:163 | `/model/` followed by a digit starts at p; `FindId` and `HostHasNoIdPrefix` are stated in its terms |
| Driver.DigitRun | main.py:163 | `\d+` is the maximal digit run |
| Driver.ModelId | main.py:163-164 | the id is non-empty and has no separator |
| Driver.ModelIdOfMatch | main.py:163-164 | with a match, the id is the whole digit run after the first `/model/` |
| Driver.ModelIdFallback | main.py:164 | without a match, the id is `unknown_id_<index>` |
| Driver.ModelIdOfCollectedLink | main.py:163-164 | the id of a crawled link `https://www.printables.com/model/<digits>...` is its digits |
| Driver.HostHasNoIdPrefix | main.py:163 | no match starts inside the site address |
| Driver.LimitUrls | main.py:130-131 | a prefix of the list: the first `limit` URLs when `0 < limit < length`, else the whole list |
| Driver.LimitUrlsIdempotent | main.py:130-131 | applying the limit twice changes nothing |
| Driver.CategoryFolder | main.py:196-198 | the category folder is at most 100 characters and has no separator |
| Driver.CategoryFolderMayBeEmpty | main.py:196-198 | a first tag with no allowed character gives an empty folder name |
| Driver.CategoryFolderMayBeParent | main.py:196-201 | a first tag `..` names the parent folder |
| Driver.ModelFolderName | main.py:202 | the model folder starts with the id followed by `_` |
| Driver.ModelFolderIsSegment | main.py:163-202 | the model folder is one proper segment: non-empty, no separator, not `.` or `..` |
| Driver.ModelDirectoryPlace | main.py:201-203 | the model directory is named after the model and sits in the category folder |
| Driver.ModelDirectory | main.py:196-203 | `join(join(base, first tag), id_title)`; `ModelDirectoryPlace` states where it lies and what it is named |
| Driver.TempModelDirectory | main.py:167-168 | `join(base, id + "_temp_model_folder")`; `ModelDirectoryMayBeTempFolder` and `IntendedModelDirectoryNotTemp` compare it with the final folder |
| Driver.ModelDirectoryMayBeTempFolder | main.py:167-203 | a first tag with no usable character and the title `temp_model_folder` make the final model folder the temporary one |
| Driver.IntendedCategoryFolder | main.py:196-198 | the corrected category folder is never empty and holds no separator |
| Driver.IntendedModelDirectoryNotTemp | main.py:167-203 | with the corrected category folder, the final model folder is never the temporary one |
| Driver.Arrived | main.py:220-237 | the destination keeps what it had and gains only source items |
| Driver.Stranded | main.py:220-237 | what stays behind is a subset of the source |
| Driver.MoveFails | main.py:222-226 | a move raises `shutil.Error` when the destination already holds the name, or for another cause the `faulty` set stands for; `MoveConserves` and `MoveAll` are stated in its terms |
| Driver.MoveConserves | main.py:220-237 | no item is lost: each source item arrives or stays, not both; it stays exactly when its name clashed or its move failed |
| Driver.NamesReachDestination | main.py:220-237 | a source name is at the destination afterwards unless its move failed for a reason other than a clash |
| Driver.MoveOntoItself | main.py:220-237 | moving a folder's items into the folder itself moves nothing |
| Driver.Disk.constructor | main.py:209-210 | the folder map starts as given |
| Driver.Disk.MoveOne | main.py:222-226 | one item moves unless `shutil.Error` is raised, which includes a move into its own folder; then nothing changes; no other folder changes |
| Driver.Disk.MoveAll | main.py:220-237 | after the loop the destination holds `Arrived` and the source `Stranded`, whatever the order and also when both are the same folder; other folders unchanged |
| Driver.RebaseLoop | main.py:240-244 | the loop builds `join(dest, basename(p))` for every path, in order |
| Driver.RewritePaths | main.py:239-250 | both path lists of the record are replaced by their rebased versions |
| Driver.Rebased | main.py:240-250 | each recorded path becomes `join(dest, basename(p))`; `RebasedPlace`, `RebasedIdempotent` and `RebaseLoop` state it |
| Driver.RebasedPlace | main.py:242-243 | a rewritten path keeps its file name and lies inside `dest` |
| Driver.RebasedIdempotent | main.py:240-250 | rewriting twice to the same folder equals rewriting once |
| Driver.RebasedMayNameMissingFile | main.py:220-250 | a path whose item failed to move is still rewritten, to a name absent from the destination |
| Driver.RebasedNamesArrived | main.py:220-250 | without non-clash failures every rewritten path names an entry of the destination |

## Left out

- Selenium and BeautifulSoup are not modelled. This covers cookie banners, filter clicks, waits and CSS/XPath selection. What the page shows is an input: hrefs and card counts per scroll, the page height, element texts, image sources, and the outcome of each download attempt.
- The wall clock and `time.sleep` are not modelled. `elapsed(k)` is the time at the k-th loop test, and it is required to increase strictly.
- Real filesystem I/O is not modelled. Directory listings, mtimes and sizes are inputs. Folders and their names are the `Disk` map. `makedirs` and `clean_directory` are left out, since they only create or empty folders. The `rmtree` of the temporary model folder (main.py lines 264-267) is modelled only by where that folder is (`Driver.TempModelDirectory`) and when it is the final folder.
- The HTTP fetch, the file copy, the PIL conversion and the rename steps of `download_image` are left out. These are `requests` and `PIL` calls. The image loop takes `download_image` as a function parameter that gives a saved path or nothing.
- The grams parse is left out because it produces a float. JSON output, argparse, mode dispatch and WebDriver setup are left out as I/O.
- `\w`, `\d` and `\s` are approximated:
  - `\s` and `str.isspace` are Python's whitespace list;
  - `\d` is ASCII digits only;
  - `\w` is ASCII letters, digits and `_`, plus every non-ASCII non-space character;
  - `str.lower` only affects ASCII letters.
- Paths are POSIX (`posixpath`). Windows `ntpath` joins and separators are not modelled.
- File reading uses universal newlines: `\n`, `\r` and `\r\n` end a line. UTF-8 decoding is not modelled.
- Detector.SelectCandidate: ties in mtime are broken by the order of the listing. The program lists `set(...)` contents in an order the model does not know.
- Crawler.ScrapeModels: the loop is `while True`, so the model runs it for at most `fuel` rounds. It does not state what happens after `fuel` rounds of a crawl that never stalls or meets the limit.
- Crawler.ListOf: `list(set)` order is arbitrary. The contract gives membership and no duplicates, not an order.
- Driver.Disk.MoveAll: `faulty` stands for the items whose move raises `shutil.Error` for a reason other than a name clash. Other `OSError`s escape to the outer handler and abort the remaining models; the model does not include them.
- Driver.ModelDirectoryPlace: the `Model_<id>` default for a missing title is not modelled, because the record always holds a title (`N/A` at least).

## Findings

| source | as written | input that shows it | evidently intended | confidence | as-written member | corrected member |
|---|---|---|---|---|---|---|
| utils.py:175 | after the first probe, the temporary path is `f"{base_temp}_{counter_temp}{ext_temp}"`, without `destination_folder` | destination `downloads` holding `a.jpg`: the path becomes `a_1.jpg`, outside `downloads` | every probe joined under `destination_folder`, like the first one | high (not executed) | Probe.LaterProbeLeavesDestination | Probe.TempPathInDir |
| main.py:196-198 | an empty sanitized first tag is used as the category folder, so the final model folder can be `join(base, "<id>_temp_model_folder")`, the temporary folder, which lines 264-267 then remove | first tag `&`, title `temp_model_folder`: the items are moved onto themselves, the JSON is written into the temporary folder, and `rmtree` deletes it | the `No_Tag` default also for a tag that sanitizes to nothing, so the final folder is never the temporary one | medium (not executed) | Driver.ModelDirectoryMayBeTempFolder | Driver.IntendedModelDirectoryNotTemp |
| scraper.py:382-384 | the stale-element handler prints `file_name_for_log`, which is only bound at line 346 | a first button that raises `StaleElementReferenceException` before line 346, then a verified second button: the `UnboundLocalError` ends the loop and nothing is recorded | a stale button skips only itself, as its message says | high (not executed) | Crawler.StaleFirstButtonStopsLoop | Crawler.IntendedPathsMembers |
