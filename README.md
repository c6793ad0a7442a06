# Blackboard duster: the crawl and incremental download, in Dafny

This project models the core of `blackboard_duster.py`, a tool that mirrors the
files of Blackboard courses onto a local disk. It goes through every course,
every page of the course's navigation pane except the ignored ones, and every
content folder below those pages. Each file is checked against a download
history, and the result is one of COLLISION, DOWNLOADED, DUPLICATE or UPDATED.

The model has eight modules, one per file:

- `Wrappers` (wrappers.dfy): the `Option` and `Result` types, and a lemma on
  regrouping sequence concatenations.
- `Web` (web.dfy): paths, bytes, the server's answers, and the two string
  operations the tool applies. These are `str.strip()` on attachment names and
  `rsplit('/', 1)[1]` plus `unquote` on the final download URL.
- `Links` (links.dfy): the `Link` class, with `set_lastmod` and `json`, and the
  `History` class, which holds the history's `links` list.
- `Sync` (sync.dfy): `DLResult`, the `Disk` with its exclusive create, and
  `dowload_file`. The method `DownloadFile` follows the source step by step. It
  is proved against `SyncFile`, a function of the history and disk before the
  call.
- `Counters` (counters.dfy): the four counters indexed by `DLResult.value`,
  their per-page and per-folder sums, and the collided list.
- `Gather` (gather.dfy): `gather_links`. A page's content list is classified
  into file links, attachment links and folders, each with its save path.
- `Crawl` (crawl.dfy): `download_links` and `process_page`. Each method is
  proved against a function of the state before the call (`SyncAll`,
  `ProcessSpec`). A lemma shows that walking a page tree folder by folder is
  one run over the flat list `Walk` of every link under it.
- `Dust` (dust.dfy): `main`'s loop over courses and navigation pages, with the
  skip of ignored titles, proved against `DustSpec`. `DustSpec` follows the
  two nested loops one page at a time. A lemma shows that it is one run over
  `Jobs`, the flat list of the pages that are not ignored.

The browser is not modelled. What Selenium would find on a page is given as a
value:

- `Page` is either `NoContentList` or a `Listing` of `Item`s.
- Each item has a type, a name, an href, its attachments, and the page its
  link opens.
- A `Course` has a name and a navigation pane of titled pages.

The HTTP session becomes a `Server` map from URL to `Response`, which holds the
parsed Last-Modified header, the resolved URL and the body. The disk becomes a
map from path to bytes.

Exceptions that escape `dowload_file` stop the whole program. The model keeps
two of them, each as a `Fault`:

- `KeyError`: there is no Last-Modified header.
- `IndexError`: the resolved URL has no `/`.

Every run function returns the counters and state reached before the fault,
along with the fault.

The model follows the code where descriptions of the tool ask for other
behaviour:

- **No cycle guard.** `process_page` has no cycle guard. Here a page tree is a
  finite datatype, so a folder that leads back to an ancestor cannot be
  represented.
- **Collisions are recorded.** A COLLISION still appends or updates the history
  record (lines 421-426).
- **A missing header stops everything.** A missing Last-Modified header raises
  and stops the whole run; nothing in the source catches it.

## Model

| member | source | states |
|---|---|---|
| Web.Strip | blackboard_duster.py:375 | the stripped name is a slice of the text that starts after the leading whitespace; neither of its ends is whitespace, and only whitespace (Python's `isspace` set) follows it |
| Web.AfterLastSlash | blackboard_duster.py:410 | None exactly when the URL holds no '/'; otherwise the result is the suffix after a '/' and contains no '/' itself, so that '/' is the last one |
| Web.FileName | blackboard_duster.py:410 | fails with the IndexError fault exactly when the resolved URL has no '/'; otherwise the name is `unquote` of the text after the last '/' |
| Links.Link.constructor | blackboard_duster.py:68-74 | a new link has the given url, name and save path, and neither a last-modified time nor a full path |
| Links.Link.SetLastmod | blackboard_duster.py:79-81 | the link's last-modified time becomes the given (parsed) time |
| Links.Link.Json | blackboard_duster.py:83-90 | the history record carries the link's url, name, save path and last-modified time |
| Links.History.Empty | blackboard_duster.py:184-187 | a history file that cannot be read gives an empty `links` list |
| Links.History.Load | blackboard_duster.py:178-180 | a history read from file holds exactly the stored records |
| Links.LastMatch | blackboard_duster.py:393-397 | the index of the last record whose url is the link's; None exactly when no record has that url |
| Links.FindDupe | blackboard_duster.py:393-397 | the loop over every record, in which each match replaces the earlier one, ends on the last record with the url, or on None when none has it |
| Links.UniqueMatch | blackboard_duster.py:393-397 | when urls are unique, the record found is the only one with that url |
| Sync.DLResult.Value | blackboard_duster.py:93-98 | each result's value is below 4, so it indexes the four counters |
| Sync.Disk.CreateExclusive | blackboard_duster.py:412-414 | the file is created exactly when nothing is at the path; an existing file is never overwritten |
| Sync.Target | blackboard_duster.py:408-411 | the file path is the link's save path followed by one segment, `unquote` of the text after the last '/' of the resolved URL; it fails, with the IndexError fault for that URL, exactly when the URL has no '/' |
| Sync.DownloadFile | blackboard_duster.py:385-427 | the link, history and disk end as `SyncFile` says: the same result or fault, the new records and files, nothing changed on a fault; the link's lastmod is the server's time; on COLLISION the link's full path is the intended file path, and otherwise it is unchanged |
| Sync.SyncDuplicate | blackboard_duster.py:399-403 | DUPLICATE if and only if the header is present, a record has the url, and the server's time is not later than the recorded one; a DUPLICATE changes neither history nor disk |
| Sync.DuplicateFetchesNoBody | blackboard_duster.py:390-403 | a DUPLICATE does not depend on what a GET would return |
| Sync.SyncUpdated | blackboard_duster.py:399-426 | when a record exists and the server is newer, the result is UPDATED or COLLISION; only that record's lastmod changes, in place, and the history keeps its length |
| Sync.SyncAppends | blackboard_duster.py:423-424 | when no record has the url, the result is DOWNLOADED or COLLISION, and exactly one record built from the link and the server's time is appended |
| Sync.SyncWrites | blackboard_duster.py:406-419 | when the body is fetched, the result is COLLISION exactly when a file is already at the target; then the disk is unchanged, and otherwise the body is written at the target |
| Sync.SyncFaults | blackboard_duster.py:390-410 | of the modelled faults, the download raises KeyError exactly when the header is missing; any other fault is IndexError for a resolved URL without '/' |
| Sync.SyncKeepsUrlsUnique | blackboard_duster.py:393-426 | a download never gives two records the same url |
| Sync.SyncTwiceIsDuplicate | blackboard_duster.py:385-427 | downloading the same link again from an unchanged server is a DUPLICATE that changes nothing |
| Sync.LastMatchAfterUpdate | blackboard_duster.py:425-426 | updating the found record's lastmod in place keeps it the record found for the url |
| Sync.UpdateOfKeptFileCollides | blackboard_duster.py:412-426 | a file downloaded and still on disk never comes back UPDATED: a newer server time gives COLLISION with the disk unchanged, though the record's lastmod still moves forward (the FIXMEs at lines 415 and 421) |
| Counters.Tally | blackboard_duster.py:439-446 | the counter at each result's value is the number of times that result occurs |
| Counters.TallyPush | blackboard_duster.py:446 | one more result increments exactly its own counter by one |
| Counters.TallySum | blackboard_duster.py:439-446 | the counters add up to the number of results |
| Counters.TallyAppend | blackboard_duster.py:500-504 | the counters of two runs added elementwise are the counters of the runs concatenated |
| Counters.AddAssociativeCommutative | blackboard_duster.py:500-504 | elementwise addition of counters is associative and commutative, with the zero counters as identity |
| Counters.AddInto | blackboard_duster.py:503-504 | the in-place loop makes each counter the sum of the two at its index |
| Counters.Collided | blackboard_duster.py:441-451 | the collided list is as long as the number of COLLISION results |
| Counters.CollidedPush | blackboard_duster.py:450-451 | a download appends its link to the collided list exactly when its result is COLLISION |
| Counters.CollidedExactly | blackboard_duster.py:450-451 | every link whose result is COLLISION is in the collided list, and every entry of the list is such a link |
| Gather.GatherLinks | blackboard_duster.py:293-382 | returns fresh links, not yet downloaded, whose infos are `GatherSpec`'s links, and the folders of `GatherSpec`; a page without a content list gives neither |
| Gather.GatherItem | blackboard_duster.py:322-381 | one item gives its file link (type File) or its folder (type Content Folder), then one link per attachment, as `ItemLinks` and `ItemFolders` |
| Gather.GatherAttachments | blackboard_duster.py:363-381 | one fresh, not yet downloaded link per attachment, in order, named by the attachment's stripped text and saved in the given directory |
| Gather.GatherCounts | blackboard_duster.py:306-382 | a page gives one link per File item plus one per attachment, and one folder per Content Folder item; a page without a content list gives nothing |
| Gather.GatherItemsCounts | blackboard_duster.py:322-381 | over a list of items: as many links as File items plus attachments, as many folders as Content Folder items |
| Gather.GatherPlacement | blackboard_duster.py:329-381 | every File item's link is saved at the page's path; every attachment link is saved there, or one level below under the item's name when the item has more than one attachment; every Content Folder item gives a folder named after it |
| Gather.GatherProvenance | blackboard_duster.py:329-381 | every link is saved at the page's path or under the name of an item with more than one attachment; every folder comes from a Content Folder item, with that item's href, name and page |
| Gather.FolderIsSubpage | blackboard_duster.py:341-350 | each folder is behind one of the page's items and is saved under the page's path plus its name |
| Crawl.SyncAll | blackboard_duster.py:444-445 | without a fault there is one result per link; a fault leaves fewer results than links |
| Crawl.FaultSticks | blackboard_duster.py:444-445 | once a download raised, the links after it change nothing |
| Crawl.SyncFromIsSyncAll | blackboard_duster.py:443-451 | continuing the run over the first links with the loop over the rest gives the run over all the links |
| Crawl.DownloadNext | blackboard_duster.py:444-451 | one turn of the loop: the state and fault are those of `SyncFile` on the link, its result is appended, its counter goes up by one, and the link joins the collided list exactly when it collided |
| Crawl.DownloadLinks | blackboard_duster.py:430-468 | the counters count the results of `SyncAll` over the links in order; history, disk and fault are those of that run; the collided list holds the links whose result is COLLISION |
| Crawl.ProcessPage | blackboard_duster.py:471-505 | the counters, history, disk and fault are those of `ProcessSpec`: the page's own links first, then each folder recursively, with counters added until a fault |
| Crawl.SyncAllConcat | blackboard_duster.py:444-445 | downloading `a + b` is downloading `a` and then, unless it raised, `b` |
| Crawl.ContinueConcat | blackboard_duster.py:500-504 | continuing counters and state with `a + b` is continuing with `a` and then with `b` |
| Crawl.ProcessIsFlat | blackboard_duster.py:484-505 | processing a page tree is one run over `Walk`, the flat list of the page's links followed by each folder's walk; its counters, state and fault are that run's |
| Crawl.ProcessFromIsFlat | blackboard_duster.py:500-504 | processing the folders from the i-th on is continuing with their walks, in order |
| Crawl.ProcessCountsEveryDownload | blackboard_duster.py:471-505 | the counters of a page tree add up to the number of links in its walk, or to fewer when a download raised |
| Crawl.SyncAllKeepsUrlsUnique | blackboard_duster.py:444-445 | a run over any links keeps the history free of repeated urls |
| Crawl.ProcessKeepsUrlsUnique | blackboard_duster.py:471-505 | processing a page tree keeps the history free of repeated urls |
| Crawl.WalkUnder | blackboard_duster.py:336-370 | every link under a page, at any depth, is saved under that page's save path |
| Crawl.WalkFromUnder | blackboard_duster.py:500-502 | every link under the folders of a page is saved under that page's save path |
| Dust.RunJobsSticks | blackboard_duster.py:540-545 | once a page raised, the pages after it change nothing |
| Dust.DustCourses | blackboard_duster.py:537-549 | the totals, history, disk and fault are those of `DustSpec`: every course in order, every navigation page not ignored, with counters added until a fault |
| Dust.DustNavpane | blackboard_duster.py:540-549 | one course's navigation pane continues the totals with each page that is not ignored, in order, until a page raises, as `NavFrom` says |
| Dust.NavpaneTurn | blackboard_duster.py:540-549 | one turn of the inner loop keeps to `NavTurn`: the pane from page j on, skipping it when its title is ignored and otherwise processing it with its counters added to the totals, ends where the pane from page j + 1 on ends when started from the totals, history and disk the turn leaves |
| Dust.NavFromIsRunJobs | blackboard_duster.py:540-549 | the inner loop from the j-th page on, continuing the run over the pages before it, gives the run over those pages and every page of the pane that is not ignored |
| Dust.NavAfterIsRunJobs | blackboard_duster.py:543-549 | after a page that is not ignored is processed, the rest of the pane still gives the run over every page of the pane that is not ignored |
| Dust.CoursesFromIsRunJobs | blackboard_duster.py:537-549 | the outer loop from the c-th course on, continuing the run over the earlier courses' pages, gives the run over the pages of all courses |
| Dust.DustIsRunJobs | blackboard_duster.py:537-549 | the nested loops of `main` are one run over `Jobs`, the flat list of the pages that are not ignored, in course order |
| Dust.NavJobsExactly | blackboard_duster.py:540-545 | a navigation page is processed if and only if its title is not ignored, saved under the course's directory plus its title |
| Dust.JobsExactly | blackboard_duster.py:537-545 | `main` processes exactly the pages of all courses whose title is not ignored, each saved under save root / course name / title (the paths are built at lines 253 and 287) |
| Dust.RunJobsIsFlat | blackboard_duster.py:537-549 | the whole program is one run over the flat list of every link it finds, course by course and page by page |
| Dust.DustCountsEveryDownload | blackboard_duster.py:537-553 | when no download raised (the only case in which `main` prints its totals) the totals add up to the number of links found; the partial totals the model keeps after a fault add up to fewer |
| Dust.DustKeepsUrlsUnique | blackboard_duster.py:537-549 | a history without repeated urls stays so after dusting any courses |
| Dust.DustSavesUnderPages | blackboard_duster.py:537-549 | every downloaded file is saved inside the directory of a course and one of its navigation pages that is not ignored |
| Dust.IgnoredNeverProcessed | blackboard_duster.py:543-545 | no processed page's directory ends in an ignored title; with the default ignore set (lines 119-120), no "Announcements" page is processed |

## Left out

- Selenium: loading pages, waiting for elements, `apply_style` highlighting, cookie and login handling (`manual_login`, `accept_cookies`, `setup_session`). What a page shows is an input value (`Page`, `Course`), and `get_courses_info`/`get_navpane_info` are represented only by the save paths they build.
- HTTP: the requests session is a `Server` map. Redirects are folded into the resolved URL, and HEAD and GET are assumed to describe the same resource.
- Dates: times are integers. Parsing with `lastmod_parse_fmt` and saving with `lastmod_save_fmt` are left out. The update at line 426 writes with the parse format, whose `%Z` prints nothing for the parsed naive time; the `.strip()` at line 401 drops the trailing space it leaves when the record is read back, so the integer model keeps the same instant.
- `urllib.parse.unquote` is a parameter of the model, because its decoding rules are library code.
- JSON reading and writing of the history file, including the per-page save at lines 487-493 and its `IOError` message, and the exit on an unparsable file (lines 181-183).
- Argument parsing, and the union of `--ignore` names with the default set at lines 165-168. `main`'s ignore set is a parameter; `Dust.DefaultIgnore` holds the defaults.
- User interaction and output: the manual-mode prompt, the progress bar, the printed collided paths, the final statistics printout, and the WebDriver choice.
- Directories: the disk maps paths to files and has no directories. The `mkdir(parents=True, exist_ok=True)` at line 409 sits outside the `try`, so when a file already occupies a directory the path needs, the source raises `FileExistsError` or `NotADirectoryError` and stops; the model writes the file instead and reports DOWNLOADED or UPDATED. When a directory already sits at the target path, `open('xb')` fails and the source reports COLLISION; the model, which sees no file there, reports DOWNLOADED or UPDATED.
- pathlib's treatment of names that are empty or contain '/': a path is its list of segments.
- The bare `except:` at line 416 also catches write errors other than an existing file. The model treats only an existing file as a failed exclusive create.
- Crawl.DownloadLinks: does not restate each collided link's full path. `Sync.DownloadFile` states it per link, and carrying it through the loop made the proof too costly.
- blackboard-duster.py and manual_duster.py are older variants of the tool and are not part of this model.
