/**
 * Links found on Blackboard pages and the download history they are recorded in
 * (class `Link` and the `history['links']` list of blackboard_duster.py).
 */
module Links {
  import opened Wrappers
  import opened Web

  /** The identity of a link as it is gathered from a page: url, friendly name, save path. */
  datatype LinkInfo = LinkInfo(url: string, name: string, savePath: Path)

  /** One entry of the history's `links` list (what `Link.json()` produces). */
  datatype Record = Record(url: string, name: string, savePath: Path, lastmod: int)

  /**
   * A link on a page. The url, name and save path are fixed at creation; the
   * last-modified time and the full path (kept only for collisions) are filled
   * in while the link is downloaded.
   */
  class Link {
    const url: string
    const name: string
    const savePath: Path
    var lastmod: Option<int>
    var fullPath: Option<Path>

    constructor (url: string, name: string, savePath: Path)
      ensures this.url == url && this.name == name && this.savePath == savePath
      ensures lastmod == None && fullPath == None
    {
      this.url := url;
      this.name := name;
      this.savePath := savePath;
      lastmod := None;
      fullPath := None;
    }

    function Info(): LinkInfo
    {
      LinkInfo(url, name, savePath)
    }

    /** Records the server's Last-Modified time (parsing the date string is not modelled). */
    method SetLastmod(t: int)
      modifies this`lastmod
      ensures lastmod == Some(t)
    {
      lastmod := Some(t);
    }

    /** The history record for this link: its own url, name, save path and last-modified time. */
    function Json(): (r: Record)
      reads this
      requires lastmod.Some?
      ensures r.url == url && r.name == name && r.savePath == savePath
      ensures r.lastmod == lastmod.value
    {
      Record(url, name, savePath, lastmod.value)
    }
  }

  /** The infos of a sequence of links, in order. */
  function Infos(links: seq<Link>): (r: seq<LinkInfo>)
    ensures |r| == |links|
    ensures forall k :: 0 <= k < |links| ==> r[k] == links[k].Info()
  {
    seq(|links|, k requires 0 <= k < |links| => links[k].Info())
  }

  lemma InfosAppend(links: seq<Link>, more: seq<Link>)
    ensures Infos(links + more) == Infos(links) + Infos(more)
  {
  }

  /** The download history: the `links` list of the history JSON object. */
  class History {
    var links: seq<Record>

    /** A history file that cannot be opened gives `{"links": []}`. */
    constructor Empty()
      ensures links == []
    {
      links := [];
    }

    /** A history read from an existing file (the JSON parsing is not modelled). */
    constructor Load(records: seq<Record>)
      ensures links == records
    {
      links := records;
    }
  }

  /** No two records of `records` share a url. */
  predicate UniqueUrls(records: seq<Record>)
  {
    forall i, j :: 0 <= i < j < |records| ==> records[i].url != records[j].url
  }

  /** The index of the LAST record whose url is `url`, or None when there is none. */
  function LastMatch(records: seq<Record>, url: string): (k: Option<nat>)
    ensures k.Some? ==> k.value < |records| && records[k.value].url == url
    ensures k.Some? ==> forall j :: k.value < j < |records| ==> records[j].url != url
    ensures k.None? <==> forall j :: 0 <= j < |records| ==> records[j].url != url
  {
    if records == [] then None
    else if records[|records| - 1].url == url then Some(|records| - 1)
    else LastMatch(records[..|records| - 1], url)
  }

  /**
   * The history lookup of `dowload_file`: every record is visited, and each one
   * whose url matches replaces the earlier candidate, so the last match wins.
   */
  method FindDupe(records: seq<Record>, url: string) returns (dupe: Option<nat>)
    ensures dupe.Some? ==> dupe.value < |records| && records[dupe.value].url == url
    ensures dupe.Some? ==> forall j :: dupe.value < j < |records| ==> records[j].url != url
    ensures dupe.None? ==> forall j :: 0 <= j < |records| ==> records[j].url != url
    ensures dupe == LastMatch(records, url)
  {
    dupe := None;
    for i := 0 to |records|
      invariant dupe == LastMatch(records[..i], url)
    {
      assert records[..i + 1][..i] == records[..i];
      if records[i].url == url {
        dupe := Some(i);
      }
    }
    assert records[..|records|] == records;
  }

  /** When urls are unique, a url that has a record has exactly one. */
  lemma {:induction false} UniqueMatch(records: seq<Record>, url: string, k: nat)
    requires UniqueUrls(records)
    requires k < |records| && records[k].url == url
    ensures LastMatch(records, url) == Some(k)
  {
  }
}
