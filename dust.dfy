/**
 * `main`'s loop, blackboard_duster.py lines 537-549: every course, every
 * page of its navigation pane except the ignored ones, processed in order
 * with their counters added up.
 */
module Dust {
  import opened Wrappers
  import opened Web
  import opened Links
  import opened Sync
  import opened Counters
  import opened Gather
  import opened Crawl

  /** A page of a course's navigation pane: its title and the page its link opens. */
  datatype NavPage = NavPage(title: string, page: Page)

  /** A course: its name and its navigation pane, in order. */
  datatype Course = Course(name: string, navpane: seq<NavPage>)

  /** Navigation pages skipped unless the user names more with `--ignore`. */
  const DefaultIgnore: set<string> := {"Announcements", "Calendar", "My Grades", "Blackboard Collaborate"}

  /** A page to process and the directory its files go to. */
  datatype Job = Job(page: Page, savePath: Path)

  /** The pages of one course's navigation pane that are processed, saved under the course's directory. */
  function NavJobs(courseDir: Path, navpane: seq<NavPage>, ignore: set<string>): seq<Job>
  {
    if navpane == [] then []
    else
      var p := navpane[|navpane| - 1];
      NavJobs(courseDir, navpane[..|navpane| - 1], ignore)
        + (if p.title in ignore then [] else [Job(p.page, courseDir + [p.title])])
  }

  /** The pages processed for all of `courses`, course after course. */
  function Jobs(saveRoot: Path, courses: seq<Course>, ignore: set<string>): seq<Job>
  {
    if courses == [] then []
    else
      var c := courses[|courses| - 1];
      Jobs(saveRoot, courses[..|courses| - 1], ignore) + NavJobs(saveRoot + [c.name], c.navpane, ignore)
  }

  /** Processing `jobs` in order from `st`, adding up the counters, until one raises. */
  function RunJobs(st: State, jobs: seq<Job>, server: Server, unquote: string -> string): PageRun
  {
    if jobs == [] then PageRun(Zero, st, None)
    else
      var prev := RunJobs(st, jobs[..|jobs| - 1], server, unquote);
      if prev.fault.Some? then prev
      else
        var job := jobs[|jobs| - 1];
        var sub := ProcessSpec(prev.state, job.page, job.savePath, server, unquote);
        PageRun(Add(prev.counters, sub.counters), sub.state, sub.fault)
  }

  /** One processed page: `process_page` from `acc`'s state, its counters added to `acc`'s. */
  function PageStep(acc: PageRun, job: Job, server: Server, unquote: string -> string): PageRun
  {
    var sub := ProcessSpec(acc.state, job.page, job.savePath, server, unquote);
    PageRun(Add(acc.counters, sub.counters), sub.state, sub.fault)
  }

  /** `main`'s inner loop from the `j`-th page of a navigation pane on, until a page raises. */
  function NavFrom(acc: PageRun, courseDir: Path, navpane: seq<NavPage>, ignore: set<string>, j: nat,
                   server: Server, unquote: string -> string): PageRun
    requires j <= |navpane|
    decreases |navpane| - j, 2
  {
    if j == |navpane| || acc.fault.Some? then acc
    else NavTurn(acc, courseDir, navpane, ignore, j, server, unquote)
  }

  /** One turn of the inner loop and the rest of the pane: the `j`-th page is skipped when its title is ignored. */
  function NavTurn(acc: PageRun, courseDir: Path, navpane: seq<NavPage>, ignore: set<string>, j: nat,
                   server: Server, unquote: string -> string): PageRun
    requires j < |navpane|
    decreases |navpane| - j, 1
  {
    if navpane[j].title in ignore then NavFrom(acc, courseDir, navpane, ignore, j + 1, server, unquote)
    else NavAfter(acc, courseDir, navpane, ignore, j, server, unquote)
  }

  /** The inner loop once the `j`-th page has been processed: the rest of the pane, from the run that page left. */
  function NavAfter(acc: PageRun, courseDir: Path, navpane: seq<NavPage>, ignore: set<string>, j: nat,
                    server: Server, unquote: string -> string): PageRun
    requires j < |navpane|
    decreases |navpane| - j, 0
  {
    var next := PageStep(acc, Job(navpane[j].page, courseDir + [navpane[j].title]), server, unquote);
    NavFrom(next, courseDir, navpane, ignore, j + 1, server, unquote)
  }

  /** `main`'s outer loop from the `c`-th course on, until a page raises. */
  function CoursesFrom(acc: PageRun, saveRoot: Path, courses: seq<Course>, ignore: set<string>, c: nat,
                       server: Server, unquote: string -> string): PageRun
    requires c <= |courses|
    decreases |courses| - c
  {
    if c == |courses| || acc.fault.Some? then acc
    else
      var next := NavFrom(acc, saveRoot + [courses[c].name], courses[c].navpane, ignore, 0, server, unquote);
      CoursesFrom(next, saveRoot, courses, ignore, c + 1, server, unquote)
  }

  /** What `main` does with the history and the disk, and the totals it prints. */
  function DustSpec(st: State, saveRoot: Path, courses: seq<Course>, ignore: set<string>, server: Server, unquote: string -> string): PageRun
  {
    CoursesFrom(PageRun(Zero, st, None), saveRoot, courses, ignore, 0, server, unquote)
  }

  lemma {:induction false} NavJobsPrefix(courseDir: Path, navpane: seq<NavPage>, j: nat, ignore: set<string>)
    requires j <= |navpane|
    ensures NavJobs(courseDir, navpane[..j], ignore) <= NavJobs(courseDir, navpane, ignore)
    decreases |navpane| - j
  {
    if j < |navpane| {
      var init := navpane[..|navpane| - 1];
      assert init[..j] == navpane[..j];
      NavJobsPrefix(courseDir, init, j, ignore);
    } else {
      assert navpane[..j] == navpane;
    }
  }

  lemma {:induction false} JobsPrefix(saveRoot: Path, courses: seq<Course>, c: nat, ignore: set<string>)
    requires c <= |courses|
    ensures Jobs(saveRoot, courses[..c], ignore) <= Jobs(saveRoot, courses, ignore)
    decreases |courses| - c
  {
    if c < |courses| {
      var init := courses[..|courses| - 1];
      assert init[..c] == courses[..c];
      JobsPrefix(saveRoot, init, c, ignore);
    } else {
      assert courses[..c] == courses;
    }
  }

  /** Once a page raised, the pages after it change nothing. */
  lemma {:induction false} RunJobsSticks(st: State, jobs: seq<Job>, n: nat, server: Server, unquote: string -> string)
    requires n <= |jobs|
    requires RunJobs(st, jobs[..n], server, unquote).fault.Some?
    ensures RunJobs(st, jobs, server, unquote) == RunJobs(st, jobs[..n], server, unquote)
  {
    if n < |jobs| {
      assert jobs[..|jobs| - 1][..n] == jobs[..n];
      RunJobsSticks(st, jobs[..|jobs| - 1], n, server, unquote);
    } else {
      assert jobs[..n] == jobs;
    }
  }

  lemma NavJobsPush(courseDir: Path, navpane: seq<NavPage>, j: nat, ignore: set<string>)
    requires j < |navpane|
    ensures NavJobs(courseDir, navpane[..j + 1], ignore) == NavJobs(courseDir, navpane[..j], ignore)
      + (if navpane[j].title in ignore then [] else [Job(navpane[j].page, courseDir + [navpane[j].title])])
  {
    assert navpane[..j + 1][..j] == navpane[..j];
  }

  lemma JobsPush(saveRoot: Path, courses: seq<Course>, c: nat, ignore: set<string>)
    requires c < |courses|
    ensures Jobs(saveRoot, courses[..c + 1], ignore)
      == Jobs(saveRoot, courses[..c], ignore) + NavJobs(saveRoot + [courses[c].name], courses[c].navpane, ignore)
  {
    assert courses[..c + 1][..c] == courses[..c];
  }

  lemma RunJobsPush(st: State, done: seq<Job>, job: Job, server: Server, unquote: string -> string)
    requires RunJobs(st, done, server, unquote).fault.None?
    ensures
      var prev := RunJobs(st, done, server, unquote);
      var sub := ProcessSpec(prev.state, job.page, job.savePath, server, unquote);
      RunJobs(st, done + [job], server, unquote) == PageRun(Add(prev.counters, sub.counters), sub.state, sub.fault)
  {
    assert (done + [job])[..|done|] == done;
  }

  /**
   * `main`'s loop: for every course and every page of its navigation pane
   * whose title is not ignored, `process_page` on that page saved under
   * `saveRoot / course / title`, adding the page's counters to the totals.
   * A page that raises ends the program.
   */
  method DustCourses(saveRoot: Path, courses: seq<Course>, ignore: set<string>,
                     history: History, disk: Disk, server: Server, unquote: string -> string)
    returns (counters: Counts, fault: Option<Fault>)
    modifies history, disk
    ensures DustSpec(old(State(history.links, disk.files)), saveRoot, courses, ignore, server, unquote)
      == PageRun(counters, State(history.links, disk.files), fault)
  {
    ghost var goal := DustSpec(State(history.links, disk.files), saveRoot, courses, ignore, server, unquote);
    counters := Zero;
    fault := None;
    var c := 0;
    while c < |courses| && fault.None?
      invariant 0 <= c <= |courses|
      invariant CoursesFrom(PageRun(counters, State(history.links, disk.files), fault), saveRoot, courses, ignore, c, server, unquote)
        == goal
    {
      var course := courses[c];
      ghost var here := PageRun(counters, State(history.links, disk.files), fault);
      counters, fault := DustNavpane(saveRoot + [course.name], course.navpane, ignore, counters, history, disk, server, unquote);
      assert CoursesFrom(here, saveRoot, courses, ignore, c, server, unquote)
        == CoursesFrom(PageRun(counters, State(history.links, disk.files), fault), saveRoot, courses, ignore, c + 1, server, unquote);
      c := c + 1;
    }
  }

  /**
   * `main`'s inner loop over one course's navigation pane, starting from the
   * totals `counters0`: stops at the first page that raises.
   */
  method DustNavpane(courseDir: Path, navpane: seq<NavPage>, ignore: set<string>, counters0: Counts,
                     history: History, disk: Disk, server: Server, unquote: string -> string)
    returns (counters: Counts, fault: Option<Fault>)
    modifies history, disk
    ensures NavFrom(PageRun(counters0, old(State(history.links, disk.files)), None), courseDir, navpane, ignore, 0, server, unquote)
      == PageRun(counters, State(history.links, disk.files), fault)
  {
    ghost var goal := NavFrom(PageRun(counters0, State(history.links, disk.files), None), courseDir, navpane, ignore, 0, server, unquote);
    counters := counters0;
    fault := None;
    var j := 0;
    while j < |navpane| && fault.None?
      invariant 0 <= j <= |navpane|
      invariant NavFrom(PageRun(counters, State(history.links, disk.files), fault), courseDir, navpane, ignore, j, server, unquote) == goal
    {
      counters, fault := NavpaneTurn(courseDir, navpane, ignore, j, counters, history, disk, server, unquote);
      j := j + 1;
    }
  }

  /** One turn of `main`'s inner loop: the `j`-th page is skipped when its title is ignored, and processed otherwise. */
  method NavpaneTurn(courseDir: Path, navpane: seq<NavPage>, ignore: set<string>, j: nat, counters0: Counts,
                     history: History, disk: Disk, server: Server, unquote: string -> string)
    returns (counters: Counts, fault: Option<Fault>)
    requires j < |navpane|
    modifies history, disk
    ensures NavTurn(PageRun(counters0, old(State(history.links, disk.files)), None), courseDir, navpane, ignore, j, server, unquote)
      == NavFrom(PageRun(counters, State(history.links, disk.files), fault), courseDir, navpane, ignore, j + 1, server, unquote)
  {
    var page := navpane[j];
    ghost var here := PageRun(counters0, State(history.links, disk.files), None);
    counters, fault := counters0, None;
    // a few pages have no content worth downloading
    if page.title !in ignore {
      var pageCounters;
      pageCounters, fault := ProcessPage(courseDir + [page.title], page.page, history, disk, server, unquote);
      counters := AddInto(counters0, pageCounters);
      ghost var job := Job(page.page, courseDir + [page.title]);
      assert PageStep(here, job, server, unquote) == PageRun(counters, State(history.links, disk.files), fault);
      assert NavAfter(here, courseDir, navpane, ignore, j, server, unquote)
        == NavFrom(PageStep(here, job, server, unquote), courseDir, navpane, ignore, j + 1, server, unquote);
    }
  }

  // ---------------------------------------------------------------------------
  // Properties of main's loop

  /** The pages of one navigation pane processed are exactly those whose title is not ignored. */
  lemma {:induction false} NavJobsExactly(courseDir: Path, navpane: seq<NavPage>, ignore: set<string>)
    ensures forall job :: job in NavJobs(courseDir, navpane, ignore) <==>
      exists p :: p in navpane && p.title !in ignore && job == Job(p.page, courseDir + [p.title])
  {
    if navpane != [] {
      var init := navpane[..|navpane| - 1];
      NavJobsExactly(courseDir, init, ignore);
      assert navpane == init + [navpane[|navpane| - 1]];
    }
  }

  /**
   * `main` processes exactly the navigation pages, of all courses, whose title
   * is not ignored, each saved under `saveRoot / course / title`.
   */
  lemma {:induction false} JobsExactly(saveRoot: Path, courses: seq<Course>, ignore: set<string>)
    ensures forall job :: job in Jobs(saveRoot, courses, ignore) <==>
      exists c, p :: c in courses && p in c.navpane && p.title !in ignore
        && job == Job(p.page, saveRoot + [c.name] + [p.title])
  {
    if courses != [] {
      var init := courses[..|courses| - 1];
      var last := courses[|courses| - 1];
      JobsExactly(saveRoot, init, ignore);
      NavJobsExactly(saveRoot + [last.name], last.navpane, ignore);
      assert courses == init + [last];
    }
  }

  /** Every link downloaded while processing `jobs`, in order. */
  function JobLinks(jobs: seq<Job>): seq<LinkInfo>
  {
    if jobs == [] then []
    else JobLinks(jobs[..|jobs| - 1]) + Walk(jobs[|jobs| - 1].page, jobs[|jobs| - 1].savePath)
  }

  /**
   * The whole of `main` is one run over the flat sequence of every link it
   * finds: per-page and per-course totals add up to the totals of that run,
   * and the first download that raises stops everything.
   */
  lemma {:induction false} RunJobsIsFlat(st: State, jobs: seq<Job>, server: Server, unquote: string -> string)
    ensures RunJobs(st, jobs, server, unquote) == Continue(PageRun(Zero, st, None), JobLinks(jobs), server, unquote)
  {
    var start := PageRun(Zero, st, None);
    if jobs == [] {
      ContinueNothing(start, server, unquote);
    } else {
      var init := jobs[..|jobs| - 1];
      var last := jobs[|jobs| - 1];
      RunJobsIsFlat(st, init, server, unquote);
      ContinueConcat(start, JobLinks(init), Walk(last.page, last.savePath), server, unquote);
      var prev := RunJobs(st, init, server, unquote);
      if prev.fault.None? {
        var sub := ProcessSpec(prev.state, last.page, last.savePath, server, unquote);
        ProcessIsFlat(prev.state, last.page, last.savePath, server, unquote);
        ContinueFresh(prev, sub, Walk(last.page, last.savePath), server, unquote);
      }
    }
  }

  /**
   * The totals count every download exactly once: without a fault, the only
   * case in which `main` reaches its printout, they add up to the number of
   * links found; the partial totals left by a fault add up to fewer.
   */
  lemma DustCountsEveryDownload(st: State, saveRoot: Path, courses: seq<Course>, ignore: set<string>,
                                server: Server, unquote: string -> string)
    ensures
      var d := DustSpec(st, saveRoot, courses, ignore, server, unquote);
      var links := JobLinks(Jobs(saveRoot, courses, ignore));
      && (d.fault.None? ==> Sum(d.counters) == |links|)
      && (d.fault.Some? ==> Sum(d.counters) < |links|)
  {
    var links := JobLinks(Jobs(saveRoot, courses, ignore));
    DustIsRunJobs(st, saveRoot, courses, ignore, server, unquote);
    RunJobsIsFlat(st, Jobs(saveRoot, courses, ignore), server, unquote);
    var r := SyncAll(st, links, server, unquote);
    TallySum(r.results);
    AddAssociativeCommutative(Tally(r.results), Zero, Zero);
  }

  /** A history without repeated urls stays so however many courses are dusted. */
  lemma DustKeepsUrlsUnique(st: State, saveRoot: Path, courses: seq<Course>, ignore: set<string>,
                            server: Server, unquote: string -> string)
    requires UniqueUrls(st.records)
    ensures UniqueUrls(DustSpec(st, saveRoot, courses, ignore, server, unquote).state.records)
  {
    DustIsRunJobs(st, saveRoot, courses, ignore, server, unquote);
    RunJobsIsFlat(st, Jobs(saveRoot, courses, ignore), server, unquote);
    SyncAllKeepsUrlsUnique(st, JobLinks(Jobs(saveRoot, courses, ignore)), server, unquote);
  }

  lemma {:induction false} JobLinksFrom(jobs: seq<Job>)
    ensures forall l :: l in JobLinks(jobs) ==>
      exists job :: job in jobs && job.savePath <= l.savePath
  {
    if jobs != [] {
      var init := jobs[..|jobs| - 1];
      var last := jobs[|jobs| - 1];
      JobLinksFrom(init);
      WalkUnder(last.page, last.savePath);
      forall l | l in JobLinks(jobs)
        ensures exists job :: job in jobs && job.savePath <= l.savePath
      {
        if l in JobLinks(init) {
          var job :| job in init && job.savePath <= l.savePath;
          assert job in jobs;
        } else {
          assert last in jobs;
        }
      }
    }
  }

  /**
   * Every file `main` downloads is saved inside the directory of a course and
   * of one of its navigation pages that is not ignored.
   */
  lemma DustSavesUnderPages(saveRoot: Path, courses: seq<Course>, ignore: set<string>)
    ensures forall l :: l in JobLinks(Jobs(saveRoot, courses, ignore)) ==>
      exists c, p :: c in courses && p in c.navpane && p.title !in ignore
        && saveRoot + [c.name] + [p.title] <= l.savePath
  {
    JobLinksFrom(Jobs(saveRoot, courses, ignore));
    JobsExactly(saveRoot, courses, ignore);
  }

  /**
   * No page whose title is ignored is processed: every processed page's
   * directory ends in a title outside `ignore`, and with `main`'s defaults
   * none of them is e.g. "Announcements".
   */
  lemma IgnoredNeverProcessed(saveRoot: Path, courses: seq<Course>, ignore: set<string>)
    ensures forall job :: job in Jobs(saveRoot, courses, ignore) ==>
      |job.savePath| > 0 && job.savePath[|job.savePath| - 1] !in ignore
    ensures DefaultIgnore <= ignore ==> forall job :: job in Jobs(saveRoot, courses, ignore) ==>
      |job.savePath| > 0 && job.savePath[|job.savePath| - 1] != "Announcements"
  {
    JobsExactly(saveRoot, courses, ignore);
  }

  /** The inner loop's spec is the run over the course's processed pages, appended to the pages before them. */
  lemma {:induction false} NavFromIsRunJobs(st: State, before: seq<Job>, acc: PageRun, courseDir: Path, navpane: seq<NavPage>,
                                            ignore: set<string>, j: nat, server: Server, unquote: string -> string)
    requires j <= |navpane|
    requires acc == RunJobs(st, before + NavJobs(courseDir, navpane[..j], ignore), server, unquote)
    ensures NavFrom(acc, courseDir, navpane, ignore, j, server, unquote)
      == RunJobs(st, before + NavJobs(courseDir, navpane, ignore), server, unquote)
    decreases |navpane| - j, 1
  {
    var done := before + NavJobs(courseDir, navpane[..j], ignore);
    if j == |navpane| {
      assert navpane[..j] == navpane;
    } else if acc.fault.Some? {
      var all := before + NavJobs(courseDir, navpane, ignore);
      NavJobsPrefix(courseDir, navpane, j, ignore);
      assert all[..|done|] == done;
      RunJobsSticks(st, all, |done|, server, unquote);
    } else if navpane[j].title in ignore {
      NavJobsPush(courseDir, navpane, j, ignore);
      ConcatAssociative(before, NavJobs(courseDir, navpane[..j], ignore), []);
      NavFromIsRunJobs(st, before, acc, courseDir, navpane, ignore, j + 1, server, unquote);
    } else {
      NavAfterIsRunJobs(st, before, courseDir, navpane, ignore, j, server, unquote);
    }
  }

  /** The same, once the `j`-th page, whose title is not ignored, has been processed. */
  lemma {:induction false} NavAfterIsRunJobs(st: State, before: seq<Job>, courseDir: Path, navpane: seq<NavPage>,
                                             ignore: set<string>, j: nat, server: Server, unquote: string -> string)
    requires j < |navpane| && navpane[j].title !in ignore
    requires RunJobs(st, before + NavJobs(courseDir, navpane[..j], ignore), server, unquote).fault.None?
    ensures NavAfter(RunJobs(st, before + NavJobs(courseDir, navpane[..j], ignore), server, unquote), courseDir, navpane, ignore, j, server, unquote)
      == RunJobs(st, before + NavJobs(courseDir, navpane, ignore), server, unquote)
    decreases |navpane| - j, 0
  {
    var done := before + NavJobs(courseDir, navpane[..j], ignore);
    var acc := RunJobs(st, done, server, unquote);
    var job := Job(navpane[j].page, courseDir + [navpane[j].title]);
    NavJobsPush(courseDir, navpane, j, ignore);
    RunJobsPush(st, done, job, server, unquote);
    ConcatAssociative(before, NavJobs(courseDir, navpane[..j], ignore), [job]);
    NavFromIsRunJobs(st, before, PageStep(acc, job, server, unquote), courseDir, navpane, ignore, j + 1, server, unquote);
  }

  /** The outer loop's spec is the run over the processed pages of all courses. */
  lemma {:induction false} CoursesFromIsRunJobs(st: State, acc: PageRun, saveRoot: Path, courses: seq<Course>,
                                                ignore: set<string>, c: nat, server: Server, unquote: string -> string)
    requires c <= |courses|
    requires acc == RunJobs(st, Jobs(saveRoot, courses[..c], ignore), server, unquote)
    ensures CoursesFrom(acc, saveRoot, courses, ignore, c, server, unquote)
      == RunJobs(st, Jobs(saveRoot, courses, ignore), server, unquote)
    decreases |courses| - c
  {
    var done := Jobs(saveRoot, courses[..c], ignore);
    if c == |courses| {
      assert courses[..c] == courses;
    } else if acc.fault.Some? {
      var all := Jobs(saveRoot, courses, ignore);
      JobsPrefix(saveRoot, courses, c, ignore);
      assert all[..|done|] == done;
      RunJobsSticks(st, all, |done|, server, unquote);
    } else {
      var course := courses[c];
      JobsPush(saveRoot, courses, c, ignore);
      assert course.navpane[..0] == [];
      assert done + [] == done;
      NavFromIsRunJobs(st, done, acc, saveRoot + [course.name], course.navpane, ignore, 0, server, unquote);
      var next := NavFrom(acc, saveRoot + [course.name], course.navpane, ignore, 0, server, unquote);
      CoursesFromIsRunJobs(st, next, saveRoot, courses, ignore, c + 1, server, unquote);
    }
  }

  /** `main`'s nested loops process the flat list `Jobs` of pages in order. */
  lemma DustIsRunJobs(st: State, saveRoot: Path, courses: seq<Course>, ignore: set<string>, server: Server, unquote: string -> string)
    ensures DustSpec(st, saveRoot, courses, ignore, server, unquote) == RunJobs(st, Jobs(saveRoot, courses, ignore), server, unquote)
  {
    assert courses[..0] == [];
    CoursesFromIsRunJobs(st, PageRun(Zero, st, None), saveRoot, courses, ignore, 0, server, unquote);
  }
}
