# InstallerReady, modelled in Dafny

InstallerReady is a small Tkinter application that downloads GitHub
repositories. A user either types a repository URL or picks one of the
projects of the account `coltonsr77`. The program then fetches the zip
archive of the repository's `main` branch and unpacks it into a chosen
folder. While it works, a progress bar and a status line show how far it
has got, and a message box reports success or failure.

This project models the sequential logic inside that program and proves
properties of it:

- `Strings` covers Python's `str.strip()`, `str.lower()` and `str.startswith`
  over Dafny strings.
- `RepoName` covers `get_repo_name`. The regular expression
  `github\.com/[^/]+/([^/]+)` becomes a declarative match predicate plus a
  left-to-right search. `str.replace(".git", "")` is a single pass that
  removes every non-overlapping occurrence. The fallback name is
  `"repository"`.
- `Urls` covers the URLs the program builds: the project URL
  `https://github.com/coltonsr77/<name>` and the archive URL
  `<url>/archive/refs/heads/main.zip`. It also covers the guard on a typed
  URL.
- `Download` is the specification of one download. It fixes the order of
  progress events (0.05 first, one `min(0.8, downloaded / total * 0.8)` per
  non-empty chunk when the declared length is non-zero, then 1.0 "Done!" or 0
  "Error"), the outcome, and the `io.BytesIO` buffer as the class
  `ByteBuffer`.
- `Projects` covers the project list: the parsed JSON body and the cards
  `display_projects` builds, with the `"Unnamed"` and
  `"No description provided."` defaults.
- `Installer` is the application object as the class `App`. Its fields are
  the install folder, the project list, the progress bar and the message
  boxes. Its methods are the operations behind the buttons. The chunk loop
  is an imperative `while` loop over a `ByteBuffer`, proved against
  `Download.Install`.

The network and the zip library are parameters. `net` answers the GET of
the archive URL, `api` answers the GET of the project list, and `extract`
unpacks a byte sequence into a folder and reports an error, if any.

The progress of a download is not monotone: after the initial 0.05, the
first chunk can show a lower value (`Download.ProgressCanDrop`). Within the
chunk events, for a positive declared length, it never goes back
(`Download.ChunkEventsSorted`).

## Model

| member | source | states |
|---|---|---|
| Strings.Strip | installerready.py:102 | the stripped text is no longer than the entry and, when non-empty, neither starts nor ends with whitespace |
| Strings.StripIsTrim | installerready.py:102 | `strip()` keeps exactly one contiguous slice: everything before and after it is whitespace, and the slice neither starts nor ends with whitespace |
| Strings.StripIdempotent | installerready.py:102 | stripping an already stripped string changes nothing |
| Strings.StripPadded | installerready.py:102 | stripping whitespace-padded text returns exactly the text |
| Strings.LStripPadding | installerready.py:102 | leading whitespace in front of a non-space character is all that is removed on the left |
| Strings.RStripPadding | installerready.py:102 | trailing whitespace after a non-space character is all that is removed on the right |
| Strings.Lower | installerready.py:103 | lower-casing keeps the length, works character by character, and leaves no capital A-Z in the result |
| Strings.LowerIdempotent | installerready.py:103 | lower-casing an already lower-cased string changes nothing |
| Strings.LowerCharIff | installerready.py:103 | a character lower-cases to a given non-capital exactly when it is that character or, for a letter a-z, its capital |
| Strings.StartsWith | installerready.py:103 | a string starts with a prefix exactly when it is that prefix followed by something |
| Strings.StartsWithLowerIff | installerready.py:103 | the lower-cased text starts with a prefix without capitals exactly when the text is at least as long and each of its leading characters is the prefix's character or its capital |
| RepoName.MatchAt | installerready.py:174 | at one position, the pattern matches exactly when the host is followed by a non-empty owner and a non-empty name, and the owner and name are the longest slash-free runs |
| RepoName.Search | installerready.py:174 | `re.search` finds nothing exactly when no position matches; otherwise it reports the leftmost match, whose name runs up to the next `/` or the end |
| RepoName.SearchFindsFirstMatch | installerready.py:174 | whatever match is leftmost and greedy is the one the search reports |
| RepoName.GetRepoName | installerready.py:173-177 | no match gives `"repository"`; the leftmost match gives its name with every `.git` removed; the result never contains `/` |
| RepoName.StripGit | installerready.py:176 | removing `.git` never lengthens the name and never introduces a `/` |
| RepoName.StripGitIdentity | installerready.py:176 | the removal leaves a string unchanged exactly when the string contains no `.git` |
| RepoName.StripGitShortens | installerready.py:176 | any occurrence of `.git` makes the result strictly shorter |
| RepoName.StripGitSplits | installerready.py:176 | every `.git` is removed wherever it stands: the text on each side of an occurrence comes out as if processed alone |
| RepoName.StripGitRemovesOccurrence | installerready.py:176 | an occurrence in the middle is removed too, not only a suffix: text in front without `.git` is kept and the scan continues after it |
| RepoName.StripGitKeepsPrefix | installerready.py:176 | a prefix without `.` passes through unchanged |
| RepoName.StripGitNotIdempotent | installerready.py:176 | one pass can leave a new `.git` behind (`x..gitgit` gives `x.git`), so a second pass changes the result again |
| RepoName.NameOfGithubUrl | installerready.py:173-176 | the name of `https://github.com/<owner>/<n>` is `n` with every `.git` removed |
| RepoName.NameIgnoresTrailingPath | installerready.py:174-176 | path segments after the name (`/tree/main`, ...) do not change it |
| RepoName.NameLosesGit | installerready.py:174-176 | a `.git` anywhere in the name is dropped, with the text on each side processed alone (`my.github.io` gives `myhub.io`) |
| RepoName.NameOfDottedRepo | installerready.py:174-176 | a dotted name keeps its dots and loses only the `.git`: `v1.0.git` gives `v1.0` |
| RepoName.NameCanBeEmpty | installerready.py:176 | a name that is only `.git` comes out as the empty string |
| RepoName.OwnerOnlyFallback | installerready.py:174-177 | a URL with an owner and no repository, with or without a trailing `/`, gives `"repository"` |
| RepoName.CapitalisedHostFallback | installerready.py:174-177 | the host match is case-sensitive: `GitHub.com` gives `"repository"` |
| Urls.ProjectNameRoundTrip | installerready.py:173-176 | the name read back from a project URL (line 109) is the project name with every `.git` removed, and exactly the name when it contains no `.git` |
| Urls.EmptyProjectNameFallback | installerready.py:174-177 | an empty project name builds a project URL (line 109) that has no repository name |
| Urls.ProjectUrl | installerready.py:109 | a project URL starts with `https://github.com/coltonsr77/` and ends with exactly the project name |
| Urls.ArchiveUrl | installerready.py:116 | the archive URL extends the repository URL, and the repository URL can be recovered exactly from it |
| Urls.RepoOfArchive | installerready.py:116 | a recovered repository URL is shorter than the archive URL by exactly the suffix |
| Urls.ArchiveOfRepo | installerready.py:116 | every URL the inverse accepts is the archive URL of what it returns |
| Urls.ArchiveInjective | installerready.py:116 | different repository URLs give different archive URLs, so nothing (a trailing `/`, a `.git`) is normalised away |
| Urls.ArchiveKeepsProjectName | installerready.py:116 | the archive URL of a project names the same repository as the project URL |
| Urls.OwnerOnlyArchiveName | installerready.py:115-116 | the displayed name comes from the typed URL: an owner-only URL shows `"repository"`, although its archive URL would read as `archive` |
| Urls.UrlGuard | installerready.py:102-105 | an accepted entry is passed on as the stripped entry and is never empty |
| Urls.GuardRejectsPlaceholder | installerready.py:102-105 | the placeholder text (line 47) is refused, with any amount of surrounding whitespace |
| Urls.GuardRefusesIff | installerready.py:102-105 | an entry is refused exactly when its stripped text is empty or its first 12 characters spell `enter github` in any mix of upper and lower case |
| Urls.GuardRejectsBlank | installerready.py:102-105 | an empty or all-whitespace entry is refused |
| Urls.GuardAcceptsOtherText | installerready.py:102-106 | any other text is passed on exactly as typed, minus the surrounding whitespace |
| Urls.GuardIdempotent | installerready.py:102 | what the guard passes on passes the guard again unchanged |
| Urls.GuardIgnoresCase | installerready.py:102-105 | entries whose stripped texts lower-case alike get the same verdict |
| Urls.GuardAcceptsProjectUrl | installerready.py:102-109 | a project URL typed into the entry is accepted unchanged |
| Download.Install | installerready.py:112-139 | a download shows "Downloading repository..." first and ends with "Done!" exactly on success and "Error" on failure; success carries the repository name |
| Download.Settle | installerready.py:117-139 | after the request, the events end with "Done!" on success and "Error" on failure |
| Download.InstalledIff | installerready.py:117-135 | a download succeeds exactly when the server answers without an error status, the length header parses, the stream does not break, and extracting exactly the received bytes succeeds |
| Download.InstalledEvents | installerready.py:114-135 | on success the events are the start event, the chunk events and "Done!" |
| Download.FailedEvents | installerready.py:114-139 | on failure after a broken stream or a failed extraction the events are the start event, the chunk events and "Error"; after no connection, an error status or an unparsable length they are only the start event and "Error" |
| Download.HttpErrorStopsEarly | installerready.py:118-139 | a 4xx or 5xx status ends the download with "Error" before any chunk is read |
| Download.IsHttpError | installerready.py:118 | `raise_for_status` fails exactly for a 4xx or 5xx status |
| Download.DeclaredTotal | installerready.py:120 | the length cannot be read exactly when the header does not parse as an integer; a missing header reads as 0 |
| Download.Fraction | installerready.py:129 | a progress value is never above 0.8, and never negative for a positive total |
| Download.Flatten | installerready.py:124-127 | the buffer is empty exactly when every chunk is empty |
| Download.ChunkEvents | installerready.py:124-129 | there is at most one progress event per chunk, each labelled "Downloading <name>..." |
| Download.FlattenAppend | installerready.py:124-127 | the buffer of two runs of chunks is the two buffers joined |
| Download.FlattenSkipsEmpty | installerready.py:125 | an empty chunk adds nothing to the buffer |
| Download.FlattenPrefix | installerready.py:126 | the buffer only grows: an earlier buffer is a prefix of a later one |
| Download.NoProgressWithoutLength | installerready.py:120-128 | with no (or a zero) length header no progress event appears between the first and the last |
| Download.OneEventPerChunk | installerready.py:125-129 | with a non-zero length there is one event per non-empty chunk, each labelled "Downloading <name>..." |
| Download.FractionMonotone | installerready.py:129 | for a positive total, more bytes never show less progress |
| Download.FractionBounds | installerready.py:129 | for a positive total and at least one byte, progress is in (0, 0.8], and it is 0.8 exactly once the total is reached |
| Download.FractionNegative | installerready.py:120-129 | a negative length header gives negative progress values |
| Download.ChunkEventsBounded | installerready.py:124-129 | with a positive total every chunk event is in (0, 0.8] and no higher than the value for all bytes so far |
| Download.SortedAppend | installerready.py:124-129 | appending an event no lower than every earlier one keeps the events in order |
| Download.ChunkEventsSorted | installerready.py:124-129 | with a positive total the chunk events never go back |
| Download.ChunkEventsNegative | installerready.py:120-129 | with a negative total every chunk event is negative |
| Download.ProgressCanDrop | installerready.py:114-129 | the whole sequence need not be monotone: 1 byte of a declared 100 shows 0.008 after the initial 0.05 |
| Download.ByteBuffer.constructor | installerready.py:122 | a new buffer is empty and positioned at 0 |
| Download.ByteBuffer.Write | installerready.py:126 | writing overwrites from the position, extends past the end, and advances the position by the bytes written |
| Download.ByteBuffer.Rewind | installerready.py:131 | rewinding moves the position to 0 and keeps the data |
| Projects.Get | installerready.py:167-168 | `.get` gives the stored value for a present key, and otherwise the default |
| Projects.Summarize | installerready.py:163-168 | a project gives a card exactly when it is a JSON object |
| Projects.Cardify | installerready.py:163-168 | a list that gives cards gives one card per project |
| Projects.Listed | installerready.py:163 | iteration over the body works exactly for a list, an object or a string; a list yields its elements, the others at most one element |
| Projects.Display | installerready.py:159-168 | a body can be shown exactly when it can be iterated and every element is an object |
| Projects.FirstNonObject | installerready.py:163-166 | the index found is that of the first project that is not an object, or the length when there is none |
| Projects.Shown | installerready.py:163-171 | the cards on screen are those of all projects when the body can be shown; otherwise the card of each project before the first non-object, in order, and none when the body cannot be iterated |
| Projects.ShownStopsAt | installerready.py:163-168 | when the projects before one that is not an object all give cards, the cards on screen are exactly theirs |
| Projects.CardifyFailurePersists | installerready.py:163-168 | once a project is not an object, the whole list fails, whatever follows it |
| Projects.CardifyIff | installerready.py:163-168 | a run of projects gives cards exactly when every element is an object, and then one card per project, in order |
| Projects.DefaultsOnlyWhenAbsent | installerready.py:167-168 | `"Unnamed"` and `"No description provided."` appear only for a missing key; a present value, even `null`, is shown as it is |
| Projects.DisplayList | installerready.py:159-171 | a JSON list of objects is shown in full, one card per project |
| Projects.DisplayIff | installerready.py:159-168 | a body can be shown exactly when it is a list of objects, the empty object or the empty string; the last two show no card |
| Installer.FetchedListing | installerready.py:148-157 | after a fetch the loading note is gone, and the project tab shows cards exactly when the API answered without an error status with JSON that can be shown, and those cards are the ones built from the fetched body |
| Installer.FetchedProjects | installerready.py:148-152 | the stored list is kept when the API is unreachable, answers with an error status, or sends unparsable JSON; otherwise it is the parsed body; whenever cards are shown they are those of the stored list |
| Installer.App.constructor | installerready.py:17-25 | the window opens on the working folder with an empty project list, "Ready", and the project list loading |
| Installer.App.SelectFolder | installerready.py:90-94 | a chosen folder becomes the install folder and is shown; a cancelled dialog changes nothing |
| Installer.App.UpdateProgress | installerready.py:96-99 | the bar shows the fraction as a percentage and the status line the text; the event is recorded |
| Installer.App.DownloadAndExtract | installerready.py:112-139 | the events shown and the message box are exactly those of `Download.Install` for the install folder; nothing else changes |
| Installer.App.HandleReply | installerready.py:117-139 | after the request, the events and the message box are those of `Download.Settle` |
| Installer.App.ReceiveChunks | installerready.py:120-129 | the loop leaves the buffer holding all chunks in order, with the count of bytes received, and shows exactly the chunk events; the bar and status line are unchanged when there is none, and otherwise show the last one |
| Installer.App.ShowFailure | installerready.py:137-139 | any failure shows the error box and the "Error" event at 0 |
| Installer.App.StartInstallFromUrl | installerready.py:101-106 | a refused entry only raises the missing-URL warning; an accepted one is downloaded from the stripped URL, and the bar and status line end on the last event shown |
| Installer.App.StartInstallProject | installerready.py:108-110 | a project's button downloads from the project URL under `coltonsr77`, and the bar and status line end on the last event shown |
| Installer.App.DisplayProjects | installerready.py:159-171 | it fails exactly when `Projects.Display` does; the cards left on screen are those of `Projects.Shown`: all of them on success, those before the first non-object on failure |
| Installer.App.FetchProjects | installerready.py:148-157 | the stored list and the project tab are those of the API's answer: an error label on no connection, an error status, unparsable JSON or a body that cannot be shown |
| Installer.App.LoadProjects | installerready.py:141-146 | reloading ends with the same view as a fetch |

## Left out

- The Tkinter window: widgets, layout, tabs, fonts, the About text, the `VERSION` constant, the scrollable canvas and `update_idletasks` (installerready.py:16-88). Only the data the widgets display is modelled.
- Threads: the constructor models the window when `__init__` returns, before the fetch started by `load_projects` has run; `Installer.App.LoadProjects` and `Installer.App.FetchProjects` model that fetch. Each download and each fetch runs to completion once it runs, so the model has no interleaving between a worker thread and the window.
- The `requests` library: the GET of the archive URL is the parameter `net`, and the GET of the project list is the parameter `api`. Redirects, headers other than `content-length`, and the 8192-byte chunk size are not modelled; the chunks arrive as given.
- `zipfile.ZipFile(...).extractall` and the file system: extraction is the parameter `extract`. Which files are written, and where, is not modelled.
- Floating point: progress values are exact reals, so rounding in `downloaded / total * 0.8` is not modelled.
- Strings.Lower: only A-Z are lower-cased. Python's full Unicode case mapping is not modelled; the only characters that lower-case into ASCII letters (U+0130, U+212A) cannot make an entry read as `enter github`, so the guard's verdict does not depend on this.
- Exception texts: the error boxes and the red error label carry a fault kind instead of Python's exception message.
- Download.Install: does not model a failure of the success message box after "Done!", because that is window code.
- Projects: JSON numbers are integers; floats in the API's answer are not modelled. A card's name is kept as a JSON value; the Download button is modelled for string names only (`Installer.App.StartInstallProject` takes a string), so Python's `str()` of a non-string name is not modelled.
- Projects.Listed: the keys of a non-empty JSON object, and the characters of a non-empty JSON string, are represented by a single string element. Any string element fails at `.get`, so the outcome is the same.
- The empty frame that `display_projects` creates for a project just before `.get` fails is not modelled; `fetch_projects` replaces the whole view with the error label right after.
- `os.getcwd()` is the constructor's parameter `cwd`; the unused `subprocess` import has nothing to model.
