/**
 * Downloading a page's links (`download_links`), walking a page and its
 * folders (`process_page`) and every course's navigation pane (`main`),
 * blackboard_duster.py lines 430-549.
 */
module Crawl {
  import opened Wrappers
  import opened Web
  import opened Links
  import opened Sync
  import opened Counters
  import opened Gather

  /**
   * Downloading a sequence of links: the result of each link, in order, and
   * the final state; a download that raises stops the run, so `results` then
   * covers only the links before it.
   */
  datatype Run = Run(results: seq<DLResult>, state: State, fault: Option<Fault>)

  function SyncAll(st: State, links: seq<LinkInfo>, server: Server, unquote: string -> string): (r: Run)
    ensures r.fault.None? ==> |r.results| == |links|
    ensures r.fault.Some? ==> |r.results| < |links|
  {
    if links == [] then Run([], st, None)
    else
      var prev := SyncAll(st, links[..|links| - 1], server, unquote);
      if prev.fault.Some? then prev
      else Step(prev, SyncFile(prev.state, links[|links| - 1], server, unquote))
  }

  /** A run extended by one more download. */
  function Step(prev: Run, r: Result<Outcome, Fault>): Run
  {
    match r
    case Err(f) => Run(prev.results, prev.state, Some(f))
    case Ok(o) => Run(prev.results + [o.result], o.state, None)
  }

  lemma SyncAllStep(st: State, links: seq<LinkInfo>, i: nat, server: Server, unquote: string -> string)
    requires i < |links|
    requires SyncAll(st, links[..i], server, unquote).fault.None?
    ensures
      var prev := SyncAll(st, links[..i], server, unquote);
      SyncAll(st, links[..i + 1], server, unquote) == Step(prev, SyncFile(prev.state, links[i], server, unquote))
  {
    assert links[..i + 1][..i] == links[..i];
  }

  /** Once a download raised, later links change nothing. */
  lemma {:induction false} FaultSticks(st: State, links: seq<LinkInfo>, n: nat, server: Server, unquote: string -> string)
    requires n <= |links|
    requires SyncAll(st, links[..n], server, unquote).fault.Some?
    ensures SyncAll(st, links, server, unquote) == SyncAll(st, links[..n], server, unquote)
  {
    if n < |links| {
      assert links[..|links| - 1][..n] == links[..n];
      FaultSticks(st, links[..|links| - 1], n, server, unquote);
    } else {
      assert links[..n] == links;
    }
  }

  /** The loop of `download_links` from the `i`-th link on, continuing `acc` until a download raises. */
  function SyncFrom(acc: Run, links: seq<LinkInfo>, i: nat, server: Server, unquote: string -> string): Run
    requires i <= |links|
    decreases |links| - i
  {
    if i == |links| || acc.fault.Some? then acc
    else SyncFrom(Step(acc, SyncFile(acc.state, links[i], server, unquote)), links, i + 1, server, unquote)
  }

  /** Continuing the run over the first `i` links with the rest is the run over all of them. */
  lemma {:induction false} SyncFromIsSyncAll(st: State, acc: Run, links: seq<LinkInfo>, i: nat, server: Server, unquote: string -> string)
    requires i <= |links|
    requires acc == SyncAll(st, links[..i], server, unquote)
    ensures SyncFrom(acc, links, i, server, unquote) == SyncAll(st, links, server, unquote)
    decreases |links| - i
  {
    if i == |links| {
      assert links[..i] == links;
    } else if acc.fault.Some? {
      FaultSticks(st, links, i, server, unquote);
    } else {
      SyncAllStep(st, links, i, server, unquote);
      SyncFromIsSyncAll(st, Step(acc, SyncFile(acc.state, links[i], server, unquote)), links, i + 1, server, unquote);
    }
  }

  /**
   * `download_links(links, driver, session, history)`: downloads the links in
   * order, counting each result at its value and keeping the links that
   * collided (which the source prints); a download that raises ends the loop.
   */
  method DownloadLinks(links: seq<Link>, history: History, disk: Disk, server: Server, unquote: string -> string)
    returns (counters: Counts, collided: seq<Link>, fault: Option<Fault>)
    modifies links, history, disk
    ensures
      var run := SyncAll(old(State(history.links, disk.files)), Infos(links), server, unquote);
      && counters == Tally(run.results)
      && State(history.links, disk.files) == run.state
      && fault == run.fault
      && collided == Collided(links, run.results)
  {
    ghost var infos := Infos(links);
    ghost var goal := SyncAll(State(history.links, disk.files), infos, server, unquote);
    assert infos[..0] == [];
    SyncFromIsSyncAll(State(history.links, disk.files), Run([], State(history.links, disk.files), None), infos, 0, server, unquote);
    counters := Zero;
    collided := [];
    fault := None;
    ghost var results: seq<DLResult> := [];
    var i := 0;
    while i < |links| && fault.None?
      invariant 0 <= i <= |links|
      invariant SyncFrom(Run(results, State(history.links, disk.files), fault), infos, i, server, unquote) == goal
      invariant fault.None? ==> |results| == i
      invariant counters == Tally(results)
      invariant collided == Collided(links, results)
    {
      ghost var here := Run(results, State(history.links, disk.files), fault);
      counters, collided, fault, results := DownloadNext(links, i, counters, collided, results, history, disk, server, unquote);
      assert Step(here, SyncFile(here.state, infos[i], server, unquote)) == Run(results, State(history.links, disk.files), fault);
      i := i + 1;
    }
  }

  /** One turn of the loop of `download_links`: downloads `links[i]` and counts its result. */
  method DownloadNext(links: seq<Link>, i: nat, counters: Counts, collided: seq<Link>, ghost results: seq<DLResult>,
                      history: History, disk: Disk, server: Server, unquote: string -> string)
    returns (counters': Counts, collided': seq<Link>, fault: Option<Fault>, ghost results': seq<DLResult>)
    requires i < |links| && |results| == i
    requires counters == Tally(results) && collided == Collided(links, results)
    modifies links[i], history, disk
    ensures |results'| <= i + 1 && (fault.None? ==> |results'| == i + 1)
    ensures
      var st := old(State(history.links, disk.files));
      Step(Run(results, st, None), SyncFile(st, links[i].Info(), server, unquote)) == Run(results', State(history.links, disk.files), fault)
    ensures counters' == Tally(results') && collided' == Collided(links, results')
  {
    var link := links[i];
    var res := DownloadFile(link, history, disk, server, unquote);
    if res.Err? {
      counters', collided', fault, results' := counters, collided, Some(res.error), results;
    } else {
      var r := res.value;
      TallyPush(results, r);
      CollidedPush(links, results, r);
      counters' := counters[r.Value() := counters[r.Value()] + 1];
      collided' := if r == Collision then collided + [link] else collided;
      fault := None;
      results' := results + [r];
    }
  }

  // ---------------------------------------------------------------------------
  // process_page

  /** The counters and state after processing a page (or several), and the fault that stopped it, if any. */
  datatype PageRun = PageRun(counters: Counts, state: State, fault: Option<Fault>)

  /**
   * `process_page` on `page` saved under `savePath`: the page's own links are
   * downloaded first, then each folder is processed in turn and its counters
   * are added to the page's.
   */
  function ProcessSpec(st: State, page: Page, savePath: Path, server: Server, unquote: string -> string): PageRun
    decreases page, 1, 0
  {
    var run := SyncAll(st, GatherSpec(page, savePath).links, server, unquote);
    ProcessFrom(PageRun(Tally(run.results), run.state, run.fault), page, savePath, 0, server, unquote)
  }

  /** Continues from `acc` with the folders of `page` from the `i`-th on, until one raises. */
  function ProcessFrom(acc: PageRun, page: Page, savePath: Path, i: nat, server: Server, unquote: string -> string): PageRun
    requires i <= |GatherSpec(page, savePath).folders|
    decreases page, 0, |GatherSpec(page, savePath).folders| - i
  {
    var folders := GatherSpec(page, savePath).folders;
    if i == |folders| || acc.fault.Some? then acc
    else
      FolderIsSubpage(page, savePath, i);
      var sub := ProcessSpec(acc.state, folders[i].page, folders[i].link.savePath, server, unquote);
      ProcessFrom(PageRun(Add(acc.counters, sub.counters), sub.state, sub.fault), page, savePath, i + 1, server, unquote)
  }

  /**
   * `process_page(page_link, driver, session, history, args)`: gathers the
   * page's links and folders, downloads the links, then recurses into the
   * folders in order, adding each folder's counters to the page's in place.
   */
  method ProcessPage(savePath: Path, page: Page, history: History, disk: Disk, server: Server, unquote: string -> string)
    returns (counters: Counts, fault: Option<Fault>)
    modifies history, disk
    decreases page
    ensures ProcessSpec(old(State(history.links, disk.files)), page, savePath, server, unquote)
      == PageRun(counters, State(history.links, disk.files), fault)
  {
    ghost var goal := ProcessSpec(State(history.links, disk.files), page, savePath, server, unquote);
    var links, folders := GatherLinks(page, savePath);
    var collided;
    counters, collided, fault := DownloadLinks(links, history, disk, server, unquote);
    // the history is written to its file here, and the source may wait for the user
    var i := 0;
    while i < |folders| && fault.None?
      invariant 0 <= i <= |folders|
      invariant ProcessFrom(PageRun(counters, State(history.links, disk.files), fault), page, savePath, i, server, unquote)
        == goal
    {
      FolderIsSubpage(page, savePath, i);
      var subCounters, subFault := ProcessPage(folders[i].link.savePath, folders[i].page, history, disk, server, unquote);
      counters := AddInto(counters, subCounters);
      fault := subFault;
      i := i + 1;
    }
  }

  // ---------------------------------------------------------------------------
  // The walk as one flat sequence of downloads

  /**
   * Every link `process_page` downloads below `page`, in the order it
   * downloads them: the page's own links, then each folder's walk in turn.
   */
  function Walk(page: Page, savePath: Path): seq<LinkInfo>
    decreases page, 1, 0
  {
    GatherSpec(page, savePath).links + WalkFrom(page, savePath, 0)
  }

  function WalkFrom(page: Page, savePath: Path, i: nat): seq<LinkInfo>
    requires i <= |GatherSpec(page, savePath).folders|
    decreases page, 0, |GatherSpec(page, savePath).folders| - i
  {
    var folders := GatherSpec(page, savePath).folders;
    if i == |folders| then []
    else
      FolderIsSubpage(page, savePath, i);
      Walk(folders[i].page, folders[i].link.savePath) + WalkFrom(page, savePath, i + 1)
  }

  /** `r` continued with the downloads of `links`, unless it already raised. */
  function Then(r: Run, links: seq<LinkInfo>, server: Server, unquote: string -> string): Run
  {
    if r.fault.Some? then r
    else
      var s := SyncAll(r.state, links, server, unquote);
      Run(r.results + s.results, s.state, s.fault)
  }

  /** One more download after a run that continued `r` is that download appended to the continuation. */
  lemma StepAfter(r: Run, s: Run, x: Result<Outcome, Fault>)
    ensures var t := Step(s, x);
      Step(Run(r.results + s.results, s.state, s.fault), x) == Run(r.results + t.results, t.state, t.fault)
  {
    if x.Ok? {
      ConcatAssociative(r.results, s.results, [x.value.result]);
    }
  }

  /** Downloading `a + b` is downloading `a` and then, unless it raised, `b`. */
  lemma {:induction false} SyncAllConcat(st: State, a: seq<LinkInfo>, b: seq<LinkInfo>, server: Server, unquote: string -> string)
    ensures SyncAll(st, a + b, server, unquote) == Then(SyncAll(st, a, server, unquote), b, server, unquote)
  {
    var r := SyncAll(st, a, server, unquote);
    if b == [] {
      assert a + b == a;
      assert r.results + [] == r.results;
    } else {
      var b', last := b[..|b| - 1], b[|b| - 1];
      assert (a + b)[..|a + b| - 1] == a + b';
      assert (a + b)[|a + b| - 1] == last;
      SyncAllConcat(st, a, b', server, unquote);
      var prev := SyncAll(st, a + b', server, unquote);
      assert SyncAll(st, a + b, server, unquote)
        == if prev.fault.Some? then prev else Step(prev, SyncFile(prev.state, last, server, unquote));
      if r.fault.None? {
        var s' := SyncAll(r.state, b', server, unquote);
        assert prev == Run(r.results + s'.results, s'.state, s'.fault);
        assert SyncAll(r.state, b, server, unquote)
          == if s'.fault.Some? then s' else Step(s', SyncFile(s'.state, last, server, unquote));
        if s'.fault.None? {
          StepAfter(r, s', SyncFile(s'.state, last, server, unquote));
        }
      }
    }
  }

  /** Counters, state and fault accumulated from `acc` by downloading `links`, unless `acc` already raised. */
  function Continue(acc: PageRun, links: seq<LinkInfo>, server: Server, unquote: string -> string): PageRun
  {
    if acc.fault.Some? then acc
    else
      var r := SyncAll(acc.state, links, server, unquote);
      PageRun(Add(acc.counters, Tally(r.results)), r.state, r.fault)
  }

  lemma ContinueConcat(acc: PageRun, a: seq<LinkInfo>, b: seq<LinkInfo>, server: Server, unquote: string -> string)
    ensures Continue(acc, a + b, server, unquote)
      == Continue(Continue(acc, a, server, unquote), b, server, unquote)
  {
    if acc.fault.None? {
      SyncAllConcat(acc.state, a, b, server, unquote);
      var ra := SyncAll(acc.state, a, server, unquote);
      if ra.fault.None? {
        var s := SyncAll(ra.state, b, server, unquote);
        TallyAppend(ra.results, s.results);
        AddAssociativeCommutative(acc.counters, Tally(ra.results), Tally(s.results));
      }
    }
  }

  lemma ContinueNothing(acc: PageRun, server: Server, unquote: string -> string)
    ensures Continue(acc, [], server, unquote) == acc
  {
    if acc.fault.None? {
      assert Tally([]) == Zero;
      assert Add(acc.counters, Zero) == acc.counters;
    }
  }

  /**
   * Walking a page tree folder by folder, adding up counters per folder, is
   * the same as downloading the flat `Walk` of the tree in one run: the
   * counters count every download exactly once and a download that raises
   * stops everything after it.
   */
  lemma {:induction false} ProcessIsFlat(st: State, page: Page, savePath: Path, server: Server, unquote: string -> string)
    ensures ProcessSpec(st, page, savePath, server, unquote)
      == Continue(PageRun(Zero, st, None), Walk(page, savePath), server, unquote)
    decreases page, 1, 0
  {
    var g := GatherSpec(page, savePath).links;
    var run := SyncAll(st, g, server, unquote);
    var acc := PageRun(Tally(run.results), run.state, run.fault);
    AddAssociativeCommutative(Tally(run.results), Zero, Zero);
    assert acc == Continue(PageRun(Zero, st, None), g, server, unquote);
    ProcessFromIsFlat(acc, page, savePath, 0, server, unquote);
    ContinueConcat(PageRun(Zero, st, None), g, WalkFrom(page, savePath, 0), server, unquote);
  }

  lemma {:induction false} ProcessFromIsFlat(acc: PageRun, page: Page, savePath: Path, i: nat, server: Server, unquote: string -> string)
    requires i <= |GatherSpec(page, savePath).folders|
    ensures ProcessFrom(acc, page, savePath, i, server, unquote)
      == Continue(acc, WalkFrom(page, savePath, i), server, unquote)
    decreases page, 0, |GatherSpec(page, savePath).folders| - i, 1
  {
    if i == |GatherSpec(page, savePath).folders| {
      ContinueNothing(acc, server, unquote);
    } else if acc.fault.None? {
      FolderIsFlat(acc, page, savePath, i, server, unquote);
    }
  }

  /** The `i`-th folder's step of `ProcessFromIsFlat`: its walk, then the walks of the folders after it. */
  lemma {:induction false} FolderIsFlat(acc: PageRun, page: Page, savePath: Path, i: nat, server: Server, unquote: string -> string)
    requires i < |GatherSpec(page, savePath).folders|
    requires acc.fault.None?
    ensures ProcessFrom(acc, page, savePath, i, server, unquote)
      == Continue(acc, WalkFrom(page, savePath, i), server, unquote)
    decreases page, 0, |GatherSpec(page, savePath).folders| - i, 0
  {
    FolderIsSubpage(page, savePath, i);
    var f := GatherSpec(page, savePath).folders[i];
    var sub := ProcessSpec(acc.state, f.page, f.link.savePath, server, unquote);
    ProcessIsFlat(acc.state, f.page, f.link.savePath, server, unquote);
    ProcessFromIsFlat(PageRun(Add(acc.counters, sub.counters), sub.state, sub.fault), page, savePath, i + 1, server, unquote);
    FolderChain(acc, page, savePath, i, server, unquote);
  }

  /** The step of `ProcessFromIsFlat` for the `i`-th folder, given the walk of that folder and of the ones after it. */
  lemma FolderChain(acc: PageRun, page: Page, savePath: Path, i: nat, server: Server, unquote: string -> string)
    requires i < |GatherSpec(page, savePath).folders|
    requires acc.fault.None?
    requires
      var f := GatherSpec(page, savePath).folders[i];
      var sub := ProcessSpec(acc.state, f.page, f.link.savePath, server, unquote);
      var next := PageRun(Add(acc.counters, sub.counters), sub.state, sub.fault);
      && sub == Continue(PageRun(Zero, acc.state, None), Walk(f.page, f.link.savePath), server, unquote)
      && ProcessFrom(next, page, savePath, i + 1, server, unquote) == Continue(next, WalkFrom(page, savePath, i + 1), server, unquote)
    ensures ProcessFrom(acc, page, savePath, i, server, unquote)
      == Continue(acc, WalkFrom(page, savePath, i), server, unquote)
  {
    var f := GatherSpec(page, savePath).folders[i];
    var sub := ProcessSpec(acc.state, f.page, f.link.savePath, server, unquote);
    ProcessFromUnfold(acc, page, savePath, i, server, unquote);
    ContinueFresh(acc, sub, Walk(f.page, f.link.savePath), server, unquote);
    ContinueConcat(acc, Walk(f.page, f.link.savePath), WalkFrom(page, savePath, i + 1), server, unquote);
  }

  /** One folder step of `ProcessFrom` and of `WalkFrom`. */
  lemma ProcessFromUnfold(acc: PageRun, page: Page, savePath: Path, i: nat, server: Server, unquote: string -> string)
    requires i < |GatherSpec(page, savePath).folders|
    requires acc.fault.None?
    ensures
      var f := GatherSpec(page, savePath).folders[i];
      var sub := ProcessSpec(acc.state, f.page, f.link.savePath, server, unquote);
      && ProcessFrom(acc, page, savePath, i, server, unquote)
        == ProcessFrom(PageRun(Add(acc.counters, sub.counters), sub.state, sub.fault), page, savePath, i + 1, server, unquote)
      && WalkFrom(page, savePath, i) == Walk(f.page, f.link.savePath) + WalkFrom(page, savePath, i + 1)
  {
  }

  /** Adding the counters of a run that started from nothing is continuing with its links. */
  lemma ContinueFresh(acc: PageRun, sub: PageRun, links: seq<LinkInfo>, server: Server, unquote: string -> string)
    requires acc.fault.None?
    requires sub == Continue(PageRun(Zero, acc.state, None), links, server, unquote)
    ensures PageRun(Add(acc.counters, sub.counters), sub.state, sub.fault) == Continue(acc, links, server, unquote)
  {
    var r := SyncAll(acc.state, links, server, unquote);
    AddAssociativeCommutative(Tally(r.results), Zero, Zero);
  }

  /**
   * The counters `process_page` returns add up to the number of links it
   * downloaded: all of the walk when nothing raised, fewer otherwise.
   */
  lemma ProcessCountsEveryDownload(st: State, page: Page, savePath: Path, server: Server, unquote: string -> string)
    ensures
      var pr := ProcessSpec(st, page, savePath, server, unquote);
      && (pr.fault.None? ==> Sum(pr.counters) == |Walk(page, savePath)|)
      && (pr.fault.Some? ==> Sum(pr.counters) < |Walk(page, savePath)|)
  {
    ProcessIsFlat(st, page, savePath, server, unquote);
    var r := SyncAll(st, Walk(page, savePath), server, unquote);
    TallySum(r.results);
    AddAssociativeCommutative(Tally(r.results), Zero, Zero);
  }

  /** A run never records the same url twice in the history. */
  lemma {:induction false} SyncAllKeepsUrlsUnique(st: State, links: seq<LinkInfo>, server: Server, unquote: string -> string)
    requires UniqueUrls(st.records)
    ensures UniqueUrls(SyncAll(st, links, server, unquote).state.records)
  {
    if links != [] {
      var init := links[..|links| - 1];
      SyncAllKeepsUrlsUnique(st, init, server, unquote);
      var prev := SyncAll(st, init, server, unquote);
      if prev.fault.None? && SyncFile(prev.state, links[|links| - 1], server, unquote).Ok? {
        SyncKeepsUrlsUnique(prev.state, links[|links| - 1], server, unquote);
      }
    }
  }

  /** Processing a whole page tree keeps the history free of repeated urls. */
  lemma ProcessKeepsUrlsUnique(st: State, page: Page, savePath: Path, server: Server, unquote: string -> string)
    requires UniqueUrls(st.records)
    ensures UniqueUrls(ProcessSpec(st, page, savePath, server, unquote).state.records)
  {
    ProcessIsFlat(st, page, savePath, server, unquote);
    SyncAllKeepsUrlsUnique(st, Walk(page, savePath), server, unquote);
  }

  /** Every link found below a page is saved under that page's save path. */
  lemma {:induction false} WalkUnder(page: Page, savePath: Path)
    ensures forall l :: l in Walk(page, savePath) ==> savePath <= l.savePath
    decreases page, 1, 0
  {
    if page.Listing? {
      GatherProvenance(page.items, savePath);
    }
    WalkFromUnder(page, savePath, 0);
  }

  lemma {:induction false} WalkFromUnder(page: Page, savePath: Path, i: nat)
    requires i <= |GatherSpec(page, savePath).folders|
    ensures forall l :: l in WalkFrom(page, savePath, i) ==> savePath <= l.savePath
    decreases page, 0, |GatherSpec(page, savePath).folders| - i
  {
    var folders := GatherSpec(page, savePath).folders;
    if i < |folders| {
      FolderIsSubpage(page, savePath, i);
      var f := folders[i];
      WalkUnder(f.page, f.link.savePath);
      WalkFromUnder(page, savePath, i + 1);
      forall l | l in Walk(f.page, f.link.savePath)
        ensures savePath <= l.savePath
      {
        assert l.savePath[..|savePath|] == f.link.savePath[..|savePath|];
      }
    }
  }
}
