/**
 * Classifying the items of one content page into file links and folders
 * (`gather_links`, blackboard_duster.py lines 293-382), with the browser's DOM
 * queries replaced by the page's items.
 */
module Gather {
  import opened Wrappers
  import opened Web
  import opened Links

  /** An entry of an item's `ul.attachments` list: its anchor's href and text. */
  datatype Attachment = Attachment(href: string, text: string)

  /**
   * One `li` of a page's `ul#content_listContainer`: the alt text of its icon
   * (the item type), its title, the href of its anchor, its attachments, and
   * the page that the href opens (only ever visited for a folder).
   */
  datatype Item = Item(kind: string, name: string, href: string, attachments: seq<Attachment>, opens: Page)

  /** A page as the browser shows it: without a content list, or with its items. */
  datatype Page = NoContentList | Listing(items: seq<Item>)

  /** A sub-folder found on a page: its link, and the page behind it. */
  datatype Folder = Folder(link: LinkInfo, page: Page)

  /** `gather_links`' result: the file links and the sub-folders of a page. */
  datatype Gathered = Gathered(links: seq<LinkInfo>, folders: seq<Folder>)

  const FileKind := "File"
  const FolderKind := "Content Folder"

  /** Several attachments go into a folder named after the item; a single one stays with the page. */
  function AttachmentDir(savePath: Path, item: Item): Path
  {
    if |item.attachments| > 1 then savePath + [item.name] else savePath
  }

  function AttachmentLinks(attachments: seq<Attachment>, dir: Path): seq<LinkInfo>
  {
    seq(|attachments|, k requires 0 <= k < |attachments| =>
      LinkInfo(attachments[k].href, Strip(attachments[k].text), dir))
  }

  /** The links one item contributes: itself when it is a File, then each of its attachments. */
  function ItemLinks(item: Item, savePath: Path): seq<LinkInfo>
  {
    (if item.kind == FileKind then [LinkInfo(item.href, item.name, savePath)] else [])
    + AttachmentLinks(item.attachments, AttachmentDir(savePath, item))
  }

  /** The folder one item contributes: itself when it is a Content Folder. */
  function ItemFolders(item: Item, savePath: Path): seq<Folder>
  {
    if item.kind == FolderKind then [Folder(LinkInfo(item.href, item.name, savePath + [item.name]), item.opens)]
    else []
  }

  function GatherItems(items: seq<Item>, savePath: Path): Gathered
  {
    if items == [] then Gathered([], [])
    else
      var g := GatherItems(items[..|items| - 1], savePath);
      var item := items[|items| - 1];
      Gathered(g.links + ItemLinks(item, savePath), g.folders + ItemFolders(item, savePath))
  }

  /** What `gather_links` finds on `page` when the page's save path is `savePath`. */
  function GatherSpec(page: Page, savePath: Path): Gathered
  {
    match page
    case NoContentList => Gathered([], [])
    case Listing(items) => GatherItems(items, savePath)
  }

  /** `gather_links(page_link, driver)`: one fresh Link per file and attachment, one Folder per folder. */
  method GatherLinks(page: Page, savePath: Path) returns (links: seq<Link>, folders: seq<Folder>)
    ensures Infos(links) == GatherSpec(page, savePath).links
    ensures folders == GatherSpec(page, savePath).folders
    ensures forall k :: 0 <= k < |links| ==> fresh(links[k]) && links[k].lastmod == None && links[k].fullPath == None
  {
    links, folders := [], [];
    if page.NoContentList? {
      return;
    }
    var items := page.items;
    for i := 0 to |items|
      invariant Infos(links) == GatherItems(items[..i], savePath).links
      invariant folders == GatherItems(items[..i], savePath).folders
      invariant forall l :: l in links ==> fresh(l)
      invariant forall l :: l in links ==> l.lastmod == None && l.fullPath == None
    {
      ghost var g := GatherItems(items[..i], savePath);
      assert items[..i + 1][..i] == items[..i];
      assert GatherItems(items[..i + 1], savePath)
        == Gathered(g.links + ItemLinks(items[i], savePath), g.folders + ItemFolders(items[i], savePath));
      var itemLinks, itemFolders := GatherItem(items[i], savePath);
      InfosAppend(links, itemLinks);
      links, folders := links + itemLinks, folders + itemFolders;
    }
    assert items[..|items|] == items;
    forall k | 0 <= k < |links|
      ensures fresh(links[k]) && links[k].lastmod == None && links[k].fullPath == None
    {
      assert links[k] in links;
    }
  }

  /** The body of `gather_links`' loop for one item. */
  method GatherItem(item: Item, savePath: Path) returns (links: seq<Link>, folders: seq<Folder>)
    ensures Infos(links) == ItemLinks(item, savePath)
    ensures folders == ItemFolders(item, savePath)
    ensures forall l :: l in links ==> fresh(l) && l.lastmod == None && l.fullPath == None
  {
    links, folders := [], [];
    if item.kind == FileKind {
      var link := new Link(item.href, item.name, savePath);
      links := [link];
    } else if item.kind == FolderKind {
      folders := [Folder(LinkInfo(item.href, item.name, savePath + [item.name]), item.opens)];
    }
    // a Web Link, an Item or any other type adds no link of its own
    var dir := savePath;
    if |item.attachments| > 1 {
      dir := savePath + [item.name];
    }
    assert dir == AttachmentDir(savePath, item);
    ghost var own := Infos(links);
    assert ItemLinks(item, savePath) == own + AttachmentLinks(item.attachments, dir);
    var attached := GatherAttachments(item.attachments, dir);
    InfosAppend(links, attached);
    links := links + attached;
  }

  /** The attachments of one item, each a link named by its stripped text and saved in `dir`. */
  method GatherAttachments(attachments: seq<Attachment>, dir: Path) returns (links: seq<Link>)
    ensures Infos(links) == AttachmentLinks(attachments, dir)
    ensures forall l :: l in links ==> fresh(l) && l.lastmod == None && l.fullPath == None
  {
    links := [];
    for j := 0 to |attachments|
      invariant |links| == j
      invariant forall k :: 0 <= k < j ==> links[k].Info() == LinkInfo(attachments[k].href, Strip(attachments[k].text), dir)
      invariant forall l :: l in links ==> fresh(l)
      invariant forall l :: l in links ==> l.lastmod == None && l.fullPath == None
    {
      var file := attachments[j];
      var link := new Link(file.href, Strip(file.text), dir);
      links := links + [link];
    }
  }

  // ---------------------------------------------------------------------------
  // Properties of the classification

  /** How many of `items` have type `kind`. */
  function KindCount(items: seq<Item>, kind: string): nat
  {
    if items == [] then 0
    else KindCount(items[..|items| - 1], kind) + (if items[|items| - 1].kind == kind then 1 else 0)
  }

  /** How many attachments `items` carry in all. */
  function AttachmentTotal(items: seq<Item>): nat
  {
    if items == [] then 0
    else AttachmentTotal(items[..|items| - 1]) + |items[|items| - 1].attachments|
  }

  /**
   * A page without a content list yields nothing; otherwise there is one link
   * per File item plus one per attachment, and one folder per Content Folder.
   */
  lemma {:induction false} GatherCounts(page: Page, savePath: Path)
    ensures page.NoContentList? ==> GatherSpec(page, savePath) == Gathered([], [])
    ensures page.Listing? ==>
      && |GatherSpec(page, savePath).links|
           == KindCount(page.items, FileKind) + AttachmentTotal(page.items)
      && |GatherSpec(page, savePath).folders| == KindCount(page.items, FolderKind)
  {
    if page.Listing? {
      GatherItemsCounts(page.items, savePath);
    }
  }

  lemma {:induction false} GatherItemsCounts(items: seq<Item>, savePath: Path)
    ensures |GatherItems(items, savePath).links| == KindCount(items, FileKind) + AttachmentTotal(items)
    ensures |GatherItems(items, savePath).folders| == KindCount(items, FolderKind)
  {
    if items != [] {
      GatherItemsCounts(items[..|items| - 1], savePath);
    }
  }

  /**
   * Where each item's contributions end up: a File item's link sits at the
   * page's save path; each attachment sits at the page's save path, or one
   * level deeper under the item's name when the item has several; a Content
   * Folder becomes a folder one level deeper under its own name.
   */
  lemma {:induction false} GatherPlacement(items: seq<Item>, savePath: Path)
    ensures forall j :: 0 <= j < |items| && items[j].kind == FileKind ==>
      LinkInfo(items[j].href, items[j].name, savePath) in GatherItems(items, savePath).links
    ensures forall j, a :: 0 <= j < |items| && a in items[j].attachments ==>
      LinkInfo(a.href, Strip(a.text), AttachmentDir(savePath, items[j])) in GatherItems(items, savePath).links
    ensures forall j :: 0 <= j < |items| && items[j].kind == FolderKind ==>
      Folder(LinkInfo(items[j].href, items[j].name, savePath + [items[j].name]), items[j].opens)
        in GatherItems(items, savePath).folders
  {
    if items != [] {
      var init := items[..|items| - 1];
      var last := items[|items| - 1];
      GatherPlacement(init, savePath);
      forall j, a | 0 <= j < |items| && a in items[j].attachments
        ensures LinkInfo(a.href, Strip(a.text), AttachmentDir(savePath, items[j])) in GatherItems(items, savePath).links
      {
        if j == |items| - 1 {
          var k :| 0 <= k < |last.attachments| && last.attachments[k] == a;
          assert AttachmentLinks(last.attachments, AttachmentDir(savePath, last))[k]
            == LinkInfo(a.href, Strip(a.text), AttachmentDir(savePath, last));
        } else {
          assert items[j] == init[j];
        }
      }
    }
  }

  /**
   * Every gathered link and folder comes from one item of the page: links sit
   * at the page's save path or one level below it under an item's name, and
   * each folder is a Content Folder item, under its own name, with the page
   * its href opens.
   */
  lemma {:induction false} GatherProvenance(items: seq<Item>, savePath: Path)
    ensures forall l :: l in GatherItems(items, savePath).links ==>
      l.savePath == savePath ||
      exists j :: 0 <= j < |items| && |items[j].attachments| > 1 && l.savePath == savePath + [items[j].name]
    ensures forall f :: f in GatherItems(items, savePath).folders ==>
      exists j :: 0 <= j < |items| && items[j].kind == FolderKind && f.page == items[j].opens
        && f.link == LinkInfo(items[j].href, items[j].name, savePath + [items[j].name])
  {
    if items != [] {
      var init := items[..|items| - 1];
      GatherProvenance(init, savePath);
      forall l | l in GatherItems(items, savePath).links
        ensures l.savePath == savePath ||
          exists j :: 0 <= j < |items| && |items[j].attachments| > 1 && l.savePath == savePath + [items[j].name]
      {
        if l in GatherItems(init, savePath).links && l.savePath != savePath {
          var j :| 0 <= j < |init| && |init[j].attachments| > 1 && l.savePath == savePath + [init[j].name];
          assert items[j] == init[j];
        }
      }
      forall f | f in GatherItems(items, savePath).folders
        ensures exists j :: (0 <= j < |items| && items[j].kind == FolderKind && f.page == items[j].opens
                               && f.link == LinkInfo(items[j].href, items[j].name, savePath + [items[j].name]))
      {
        if f in GatherItems(init, savePath).folders {
          var j :| 0 <= j < |init| && init[j].kind == FolderKind && f.page == init[j].opens
            && f.link == LinkInfo(init[j].href, init[j].name, savePath + [init[j].name]);
          assert items[j] == init[j];
        }
      }
    }
  }

  /** The k-th folder of a page is behind one of the page's own items (so it is a smaller tree). */
  lemma FolderIsSubpage(page: Page, savePath: Path, k: nat)
    requires k < |GatherSpec(page, savePath).folders|
    ensures page.Listing?
    ensures exists j :: (0 <= j < |page.items|
                         && GatherSpec(page, savePath).folders[k].page == page.items[j].opens)
    ensures GatherSpec(page, savePath).folders[k].link.savePath
      == savePath + [GatherSpec(page, savePath).folders[k].link.name]
  {
    GatherProvenance(page.items, savePath);
    assert GatherSpec(page, savePath).folders[k] in GatherItems(page.items, savePath).folders;
  }
}
