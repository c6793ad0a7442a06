/**
 * Downloading one link against the history (`dowload_file`,
 * blackboard_duster.py lines 385-427) and the outcome codes (`DLResult`).
 */
module Sync {
  import opened Wrappers
  import opened Web
  import opened Links

  /** The download result codes; `Value()` is the enum's value, the index of its counter. */
  datatype DLResult = Collision | Downloaded | Duplicate | Updated
  {
    function Value(): (v: nat)
      ensures v < 4
    {
      match this
      case Collision => 0
      case Downloaded => 1
      case Duplicate => 2
      case Updated => 3
    }
  }

  /** The files on disk, by full path. */
  type Files = map<Path, Bytes>

  /** The local disk. */
  class Disk {
    var files: Files

    constructor (files: Files)
      ensures this.files == files
    {
      this.files := files;
    }

    /**
     * `path.open('xb')` followed by a write: creates the file only when nothing
     * is at `path` yet; an existing file is never overwritten.
     */
    method CreateExclusive(path: Path, content: Bytes) returns (created: bool)
      modifies this
      ensures created <==> path !in old(files)
      ensures files == if created then old(files)[path := content] else old(files)
    {
      created := path !in files;
      if created {
        files := files[path := content];
      }
    }
  }

  /** Everything one download reads and may change: the history records and the files. */
  datatype State = State(records: seq<Record>, files: Files)

  datatype Outcome = Outcome(result: DLResult, state: State)

  /** The path a link's download is written to: its save path, then the decoded file name. */
  function Target(link: LinkInfo, response: Response, unquote: string -> string): (r: Result<Path, Fault>)
    ensures r.Err? <==> '/' !in response.resolvedUrl
    ensures r.Err? ==> r.error == NoSlashInResolvedUrl(response.resolvedUrl)
    ensures r.Ok? ==> |r.value| == |link.savePath| + 1 && r.value[..|link.savePath|] == link.savePath
    ensures r.Ok? ==>
      && AfterLastSlash(response.resolvedUrl).Some?
      && r.value[|link.savePath|] == unquote(AfterLastSlash(response.resolvedUrl).value)
  {
    match FileName(response.resolvedUrl, unquote)
    case Err(f) => Err(f)
    case Ok(name) => Ok(link.savePath + [name])
  }

  /**
   * What `dowload_file` does to the history and the disk, as a function of
   * their state before the call, of the link and of the server's answers.
   */
  function SyncFile(st: State, link: LinkInfo, server: Server, unquote: string -> string): Result<Outcome, Fault>
  {
    match Head(server, link.url)
    case None => Err(NoLastModified(link.url))
    case Some(t) =>
      var dupe := LastMatch(st.records, link.url);
      if dupe.Some? && t <= st.records[dupe.value].lastmod then
        Ok(Outcome(Duplicate, st))
      else
        match Target(link, server[link.url], unquote)
        case Err(f) => Err(f)
        case Ok(path) =>
          var records :=
            if dupe.None? then st.records + [Record(link.url, link.name, link.savePath, t)]
            else st.records[dupe.value := st.records[dupe.value].(lastmod := t)];
          if path in st.files then
            Ok(Outcome(Collision, State(records, st.files)))
          else
            Ok(Outcome(if dupe.None? then Downloaded else Updated,
                       State(records, st.files[path := server[link.url].content])))
  }

  /** `dowload_file(session, link, history)`, with the session replaced by `server`. */
  method DownloadFile(link: Link, history: History, disk: Disk, server: Server, unquote: string -> string)
    returns (res: Result<DLResult, Fault>)
    modifies link, history, disk
    ensures match SyncFile(old(State(history.links, disk.files)), link.Info(), server, unquote)
      case Err(f) => res == Err(f) && history.links == old(history.links) && disk.files == old(disk.files)
      case Ok(o) => res == Ok(o.result) && State(history.links, disk.files) == o.state
    ensures link.lastmod == if Head(server, link.url).Some? then Head(server, link.url) else old(link.lastmod)
    ensures res == Ok(Collision) ==>
      && link.url in server && Target(link.Info(), server[link.url], unquote).Ok?
      && link.fullPath == Some(Target(link.Info(), server[link.url], unquote).value)
    ensures res != Ok(Collision) ==> link.fullPath == old(link.fullPath)
  {
    var resCode := Downloaded;
    var head := Head(server, link.url);
    if head.None? {
      return Err(NoLastModified(link.url));
    }
    link.SetLastmod(head.value);
    var dupe := FindDupe(history.links, link.url);
    if dupe.Some? {
      if link.lastmod.value <= history.links[dupe.value].lastmod {
        return Ok(Duplicate);
      }
      resCode := Updated;
    }
    var response := server[link.url];
    var fileName := FileName(response.resolvedUrl, unquote);
    if fileName.Err? {
      return Err(fileName.error);
    }
    var filePath := link.savePath + [fileName.value];
    var created := disk.CreateExclusive(filePath, response.content);
    if !created {
      link.fullPath := Some(filePath);
      resCode := Collision;
    }
    if dupe.None? {
      history.links := history.links + [link.Json()];
    } else {
      history.links := history.links[dupe.value := history.links[dupe.value].(lastmod := link.lastmod.value)];
    }
    return Ok(resCode);
  }

  // ---------------------------------------------------------------------------
  // Properties of one download

  /** DUPLICATE exactly when a record exists and the server's time is not newer; then nothing changes. */
  lemma SyncDuplicate(st: State, link: LinkInfo, server: Server, unquote: string -> string)
    ensures
      var r := SyncFile(st, link, server, unquote);
      (r.Ok? && r.value.result == Duplicate) <==>
        && Head(server, link.url).Some?
        && LastMatch(st.records, link.url).Some?
        && Head(server, link.url).value <= st.records[LastMatch(st.records, link.url).value].lastmod
    ensures
      var r := SyncFile(st, link, server, unquote);
      r.Ok? && r.value.result == Duplicate ==> r.value.state == st
  {
  }

  /** A DUPLICATE is decided on the HEAD answer alone: what a GET would return plays no part. */
  lemma DuplicateFetchesNoBody(st: State, link: LinkInfo, server: Server, other: Response, unquote: string -> string)
    requires link.url in server && other.lastModified == server[link.url].lastModified
    requires SyncFile(st, link, server, unquote).Ok?
    requires SyncFile(st, link, server, unquote).value.result == Duplicate
    ensures SyncFile(st, link, server[link.url := other], unquote) == SyncFile(st, link, server, unquote)
  {
  }

  /**
   * A record exists and the server's time is newer: UPDATED unless the write
   * collides, and the matching record's lastmod is overwritten in place.
   */
  lemma SyncUpdated(st: State, link: LinkInfo, server: Server, unquote: string -> string)
    requires Head(server, link.url).Some? && LastMatch(st.records, link.url).Some?
    requires Head(server, link.url).value > st.records[LastMatch(st.records, link.url).value].lastmod
    requires SyncFile(st, link, server, unquote).Ok?
    ensures
      var o := SyncFile(st, link, server, unquote).value;
      var k := LastMatch(st.records, link.url).value;
      && (o.result == Updated || o.result == Collision)
      && |o.state.records| == |st.records|
      && o.state.records[k] == st.records[k].(lastmod := Head(server, link.url).value)
      && forall j :: 0 <= j < |st.records| && j != k ==> o.state.records[j] == st.records[j]
  {
  }

  /**
   * No record has the link's url: DOWNLOADED unless the write collides, and
   * exactly one record, built from the link and the server's time, is appended.
   */
  lemma SyncAppends(st: State, link: LinkInfo, server: Server, unquote: string -> string)
    requires LastMatch(st.records, link.url).None?
    requires SyncFile(st, link, server, unquote).Ok?
    ensures Head(server, link.url).Some?
    ensures
      var o := SyncFile(st, link, server, unquote).value;
      && (o.result == Downloaded || o.result == Collision)
      && o.state.records == st.records + [Record(link.url, link.name, link.savePath, Head(server, link.url).value)]
  {
  }

  /**
   * Whenever the body is fetched, it is written to the save path plus the
   * decoded file name if and only if nothing is there yet; otherwise the result
   * is COLLISION (overriding UPDATED) and the existing file is left untouched.
   */
  lemma SyncWrites(st: State, link: LinkInfo, server: Server, unquote: string -> string)
    requires SyncFile(st, link, server, unquote).Ok?
    requires SyncFile(st, link, server, unquote).value.result != Duplicate
    ensures link.url in server && Target(link, server[link.url], unquote).Ok?
    ensures
      var path := Target(link, server[link.url], unquote).value;
      var o := SyncFile(st, link, server, unquote).value;
      && (o.result == Collision <==> path in st.files)
      && (o.result == Collision ==> o.state.files == st.files)
      && (o.result != Collision ==> o.state.files == st.files[path := server[link.url].content])
  {
  }

  /**
   * Of the faults the model has, a download raises the missing Last-Modified
   * header exactly when the header is missing, and otherwise only the resolved
   * URL without '/' (the directory errors of `mkdir` are not modelled).
   */
  lemma SyncFaults(st: State, link: LinkInfo, server: Server, unquote: string -> string)
    ensures SyncFile(st, link, server, unquote) == Err(NoLastModified(link.url)) <==> Head(server, link.url).None?
    ensures
      var r := SyncFile(st, link, server, unquote);
      r.Err? && r.error != NoLastModified(link.url) ==>
        && link.url in server
        && r.error == NoSlashInResolvedUrl(server[link.url].resolvedUrl)
        && '/' !in server[link.url].resolvedUrl
  {
  }

  /** Downloads never give two records the same url. */
  lemma SyncKeepsUrlsUnique(st: State, link: LinkInfo, server: Server, unquote: string -> string)
    requires UniqueUrls(st.records)
    requires SyncFile(st, link, server, unquote).Ok?
    ensures UniqueUrls(SyncFile(st, link, server, unquote).value.state.records)
  {
  }

  /**
   * Downloading the same link again from an unchanged server is a DUPLICATE
   * that changes nothing, and the history still holds one record for it.
   */
  lemma {:induction false} SyncTwiceIsDuplicate(st: State, link: LinkInfo, server: Server, unquote: string -> string)
    requires SyncFile(st, link, server, unquote).Ok?
    ensures
      var st' := SyncFile(st, link, server, unquote).value.state;
      SyncFile(st', link, server, unquote) == Ok(Outcome(Duplicate, st'))
  {
    var o := SyncFile(st, link, server, unquote).value;
    var t := Head(server, link.url).value;
    var dupe := LastMatch(st.records, link.url);
    if o.result != Duplicate {
      var records := o.state.records;
      if dupe.None? {
        assert records[..|records| - 1] == st.records;
        assert LastMatch(records, link.url) == Some(|st.records|);
      } else {
        var k := dupe.value;
        assert records == st.records[k := st.records[k].(lastmod := t)];
        LastMatchAfterUpdate(st.records, link.url, k, t);
      }
    }
  }

  /** Changing the lastmod of the last match keeps it the last match. */
  lemma LastMatchAfterUpdate(records: seq<Record>, url: string, k: nat, t: int)
    requires LastMatch(records, url) == Some(k)
    ensures LastMatch(records[k := records[k].(lastmod := t)], url) == Some(k)
  {
    var records' := records[k := records[k].(lastmod := t)];
    var m := LastMatch(records', url);
    assert records'[k].url == url;
    assert m.Some?;
  }

  /**
   * A file that was downloaded and is still on disk can never come back as
   * UPDATED: once the server's time moves on, the new body is refused by the
   * exclusive create and the result is COLLISION, though the record's lastmod
   * is moved forward all the same.
   */
  lemma UpdateOfKeptFileCollides(st: State, link: LinkInfo, server: Server, later: Response, unquote: string -> string)
    requires SyncFile(st, link, server, unquote).Ok?
    requires SyncFile(st, link, server, unquote).value.result == Downloaded
    requires link.url in server && later.resolvedUrl == server[link.url].resolvedUrl
    requires later.lastModified.Some? && later.lastModified.value > Head(server, link.url).value
    ensures
      var st' := SyncFile(st, link, server, unquote).value.state;
      var r := SyncFile(st', link, server[link.url := later], unquote);
      && r.Ok? && r.value.result == Collision
      && r.value.state.files == st'.files
      && r.value.state.records == st'.records[|st.records| := st'.records[|st.records|].(lastmod := later.lastModified.value)]
  {
    var o := SyncFile(st, link, server, unquote).value;
    var st' := o.state;
    var t := Head(server, link.url).value;
    var server' := server[link.url := later];
    assert LastMatch(st.records, link.url).None?;
    var path := Target(link, server[link.url], unquote).value;
    assert st'.records == st.records + [Record(link.url, link.name, link.savePath, t)];
    assert st'.files == st.files[path := server[link.url].content];
    assert st'.records[..|st'.records| - 1] == st.records;
    assert LastMatch(st'.records, link.url) == Some(|st.records|);
    assert Head(server', link.url) == later.lastModified;
    assert Target(link, server'[link.url], unquote) == Ok(path);
    assert path in st'.files;
  }
}
