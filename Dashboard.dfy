/** The dashboard's quick links: a list of bookmarks with an add modal. */
module Dashboard {
  import opened Common
  import opened Entries

  datatype Link = Link(title: string, url: string, description: string)

  type LinkEntry = Entry<Link>

  const BlankLink := Link("", "", "")

  /** The link list after `handleAddLink`: the draft is appended under a
      fresh id when it has both a title and a url. */
  function AddLink(links: seq<LinkEntry>, draft: Link, freshId: string): (r: seq<LinkEntry>)
    ensures draft.title == "" || draft.url == "" ==> r == links
    ensures draft.title != "" && draft.url != "" ==>
      |r| == |links| + 1 && r[..|links|] == links && r[|links|] == Entry(freshId, draft)
  {
    if draft.title != "" && draft.url != "" then links + [Entry(freshId, draft)] else links
  }

  /** Adding and then deleting the new link restores the list, when its id
      was fresh. */
  lemma AddThenDelete(links: seq<LinkEntry>, draft: Link, freshId: string)
    requires freshId !in Ids(links)
    ensures Without(AddLink(links, draft, freshId), {freshId}) == links
  {
    WithoutNone(links, {freshId});
    if draft.title != "" && draft.url != "" {
      WithoutAppended(links, Entry(freshId, draft), {freshId});
    }
  }

  class DashboardScreen {
    var links: seq<LinkEntry>
    var isModalOpen: bool
    var newLink: Link

    ghost predicate Valid()
      reads this
    {
      UniqueIds(links)
    }

    constructor(links: seq<LinkEntry>)
      requires UniqueIds(links)
      ensures Valid() && this.links == links && !isModalOpen && newLink == BlankLink
    {
      this.links := links;
      isModalOpen := false;
      newLink := BlankLink;
    }

    /** `handleAddLink`; `freshId` stands for `crypto.randomUUID()`. On
        success the draft is cleared and the modal closed; otherwise nothing
        changes. */
    method HandleAddLink(freshId: string)
      requires Valid() && freshId !in Ids(links)
      modifies this
      ensures Valid()
      ensures links == AddLink(old(links), old(newLink), freshId)
      ensures old(newLink).title != "" && old(newLink).url != "" ==> newLink == BlankLink && !isModalOpen
      ensures old(newLink).title == "" || old(newLink).url == "" ==> newLink == old(newLink) && isModalOpen == old(isModalOpen)
    {
      if newLink.title != "" && newLink.url != "" {
        AppendFresh(links, Entry(freshId, newLink));
        links := links + [Entry(freshId, newLink)];
        newLink := BlankLink;
        isModalOpen := false;
      }
    }

    /** `handleDeleteLink`: the links with that id go, the rest keep their order. */
    method HandleDeleteLink(id: string)
      requires Valid()
      modifies this
      ensures Valid()
      ensures links == Without(old(links), {id})
      ensures isModalOpen == old(isModalOpen) && newLink == old(newLink)
    {
      WithoutKeepsUnique(links, {id});
      links := Without(links, {id});
    }
  }
}
