/** `src/routes/admin/VerifySchematicPage.tsx`: the admin list of uploaded
    schematics awaiting verification, held as a cache of pages, with its
    loader state, and the panel in which one schematic's tags are edited
    before it is verified or rejected. */
module VerifySchematic {
  import opened Common
  import opened Config
  import Utils
  import Seqs
  import Tags

  datatype SchematicInfo = SchematicInfo(id: string, name: string, authorId: string, data: string, tags: seq<string>)

  type Pages = seq<seq<SchematicInfo>>

  predicate LastPageFull(pages: Pages)
    requires |pages| >= 1
  {
    |pages[|pages| - 1]| == MAX_ITEM_PER_PAGE
  }

  /** The page index `loadPage` asks for: the page after the last one when the
      last one is full, the last one again otherwise. */
  function RequestedPage(pages: Pages): (index: nat)
    requires |pages| >= 1
    ensures index == |pages| <==> LastPageFull(pages)
    ensures index == |pages| - 1 <==> !LastPageFull(pages)
  {
    |pages| + (if LastPageFull(pages) then 0 else -1)
  }

  /** Where `loadPage` stores an accepted reply: the reply becomes the page at
      the requested index, which is then the last page, and the pages before
      it are untouched. */
  function StorePage(pages: Pages, schematics: seq<SchematicInfo>): (r: Pages)
    requires |pages| >= 1
    ensures |r| == RequestedPage(pages) + 1
    ensures r[RequestedPage(pages)] == schematics
    ensures r[..RequestedPage(pages)] == pages[..RequestedPage(pages)]
  {
    if LastPageFull(pages) then pages + [schematics] else pages[..|pages| - 1] + [schematics]
  }

  /** The loader state a reply leads to: MORE after a rejected request or a
      full page, NO_MORE after a short page or a reply that is not accepted;
      never LOADING. */
  function StateAfter(reply: Reply<seq<SchematicInfo>>): (state: LoaderState)
    ensures state != Loading
    ensures state == More <==> reply.Rejected? || (Accepted(reply) && |reply.data.value| >= MAX_ITEM_PER_PAGE)
  {
    match reply
    case Rejected => More
    case Answered(status, data) =>
      if status == 200 && data.Some? then
        if |data.value| < MAX_ITEM_PER_PAGE then NoMore else More
      else NoMore
  }

  /** The layout of a page cache filled by `loadPage` from replies of at most
      one page: at least one page, every page but the last full, none over full. */
  ghost predicate PageLayout(pages: Pages)
  {
    && |pages| >= 1
    && (forall k :: 0 <= k < |pages| - 1 ==> |pages[k]| == MAX_ITEM_PER_PAGE)
    && (forall k :: 0 <= k < |pages| ==> |pages[k]| <= MAX_ITEM_PER_PAGE)
  }

  /** Storing a reply of at most one page keeps the layout. */
  lemma StoreKeepsLayout(pages: Pages, schematics: seq<SchematicInfo>)
    requires PageLayout(pages) && |schematics| <= MAX_ITEM_PER_PAGE
    ensures PageLayout(StorePage(pages, schematics))
  {
  }

  /** Pages that are all full hold a page's worth of items each. */
  lemma {:induction false} FullPagesLength(pages: Pages)
    requires forall k :: 0 <= k < |pages| ==> |pages[k]| == MAX_ITEM_PER_PAGE
    ensures |Utils.Flatten(pages)| == |pages| * MAX_ITEM_PER_PAGE
  {
    if pages != [] {
      FullPagesLength(pages[..|pages| - 1]);
    }
  }

  /** The requested page index agrees with the items already held: the pages
      before it hold exactly `index * MAX_ITEM_PER_PAGE` items, which is where
      the server's page `index` begins. */
  lemma RequestedPageMatchesOffset(pages: Pages)
    requires PageLayout(pages)
    ensures |Utils.Flatten(pages[..RequestedPage(pages)])| == RequestedPage(pages) * MAX_ITEM_PER_PAGE
  {
    FullPagesLength(pages[..RequestedPage(pages)]);
  }

  /** After a short page the next load asks for the same index again and,
      given the same reply, leaves the cache as it was: the footer button
      that still shows after NO_MORE re-requests and replaces the last page. */
  lemma ShortPageIsRequestedAgain(pages: Pages, schematics: seq<SchematicInfo>)
    requires |pages| >= 1 && |schematics| < MAX_ITEM_PER_PAGE
    ensures RequestedPage(StorePage(pages, schematics)) == RequestedPage(pages)
    ensures StorePage(StorePage(pages, schematics), schematics) == StorePage(pages, schematics)
  {
    var once := StorePage(pages, schematics);
    assert once[..|once| - 1] + [schematics] == once;
  }

  /** From the initial cache `[[]]`, replies of 20, 20 and 7 schematics give
      three pages holding 47 schematics, and the list ends in NO_MORE. */
  lemma TwentyTwentySeven(p1: seq<SchematicInfo>, p2: seq<SchematicInfo>, p3: seq<SchematicInfo>)
    requires |p1| == 20 && |p2| == 20 && |p3| == 7
    ensures StorePage(StorePage(StorePage([[]], p1), p2), p3) == [p1, p2, p3]
    ensures |Utils.Flatten([p1, p2, p3])| == 47
    ensures StateAfter(Answered(200, Some(p3))) == NoMore
  {
    assert StorePage([[]], p1) == [p1];
    assert StorePage([p1], p2) == [p1, p2];
    assert LastPageFull([p1, p2]);
    assert StorePage([p1, p2], p3) == [p1, p2] + [p3] == [p1, p2, p3];
    assert [p1, p2, p3][..2] == [p1, p2];
    assert [p1, p2][..1] == [p1];
    assert [p1][..0] == [];
    calc {
      Utils.Flatten([p1, p2, p3]);
      Utils.Flatten([p1, p2]) + p3;
      Utils.Flatten([p1]) + p2 + p3;
      Utils.Flatten([]) + p1 + p2 + p3;
    }
  }

  /** What the stale write-back of `loadToPage` leaves in the cache once the
      replies have come in: the list from before the reset if any reply was
      accepted, the empty reset list otherwise (the fetched items are dropped). */
  function ReloadedPages(stale: Pages, replies: seq<Reply<seq<SchematicInfo>>>): (pages: Pages)
    ensures pages == stale || pages == [[]]
    ensures replies == [] ==> pages == [[]]
  {
    if exists k :: 0 <= k < |replies| && Accepted(replies[k]) then stale else [[]]
  }

  /** A reload never adds a schematic to the list: whatever the replies
      carry, a schematic that was not listed before the reset is not listed
      after it. */
  lemma ReloadAddsNothing(stale: Pages, replies: seq<Reply<seq<SchematicInfo>>>, x: SchematicInfo)
    requires x !in Utils.Flatten(stale)
    ensures x !in Utils.Flatten(ReloadedPages(stale, replies))
  {
    if ReloadedPages(stale, replies) != stale {
      var reset: Pages := [[]];
      assert reset[..0] == [];
      assert Utils.Flatten(reset) == Utils.Flatten(reset[..0]) + reset[0];
    }
  }

  /** The loader state once the replies have come in: the last reply decides. */
  function ReloadedState(replies: seq<Reply<seq<SchematicInfo>>>): (state: LoaderState)
    ensures state == Loading <==> replies == []
    ensures replies != [] ==> state == StateAfter(replies[|replies| - 1])
  {
    if replies == [] then Loading else StateAfter(replies[|replies| - 1])
  }

  /** One schematic of the rendered grid with its React key. */
  datatype Entry = Entry(key: int, schematic: SchematicInfo)

  /** Page `p` with key `p * MAX_ITEM_PER_PAGE + i` on its element `i`. */
  function KeyedPage(p: nat, page: seq<SchematicInfo>): seq<Entry>
  {
    seq(|page|, i requires 0 <= i < |page| => Entry(p * MAX_ITEM_PER_PAGE + i, page[i]))
  }

  function KeyedPages(pages: Pages): seq<seq<Entry>>
  {
    seq(|pages|, p requires 0 <= p < |pages| => KeyedPage(p, pages[p]))
  }

  /** The render loop: every schematic of every page, in page order, keyed by
      `p * MAX_ITEM_PER_PAGE + i`. */
  method RenderSchematicArray(schematicList: Pages) returns (schematicArray: seq<Entry>)
    ensures schematicArray == Utils.Flatten(KeyedPages(schematicList))
  {
    ghost var rows := KeyedPages(schematicList);
    schematicArray := [];
    for p := 0 to |schematicList|
      invariant schematicArray == Utils.Flatten(rows[..p])
    {
      for i := 0 to |schematicList[p]|
        invariant schematicArray == Utils.Flatten(rows[..p]) + rows[p][..i]
      {
        schematicArray := schematicArray + [Entry(p * MAX_ITEM_PER_PAGE + i, schematicList[p][i])];
      }
      assert rows[..p + 1][..p] == rows[..p];
      assert rows[p][..|schematicList[p]|] == rows[p];
    }
    assert rows[..|schematicList|] == rows;
  }

  /** When every page but the last is full, the keys of the rendered grid are
      the positions 0, 1, 2, ... of the flattened list, hence distinct, and
      each entry carries the schematic at that position. */
  lemma {:induction false} RenderedKeysArePositions(pages: Pages)
    requires forall k :: 0 <= k < |pages| - 1 ==> |pages[k]| == MAX_ITEM_PER_PAGE
    ensures |Utils.Flatten(KeyedPages(pages))| == |Utils.Flatten(pages)|
    ensures forall k :: 0 <= k < |Utils.Flatten(pages)| ==>
              Utils.Flatten(KeyedPages(pages))[k] == Entry(k, Utils.Flatten(pages)[k])
  {
    if pages != [] {
      var n := |pages| - 1;
      var init := pages[..n];
      assert KeyedPages(pages)[..n] == KeyedPages(init);
      RenderedKeysArePositions(init);
      FullPagesLength(init);
      var keyed := Utils.Flatten(KeyedPages(pages));
      var flat := Utils.Flatten(pages);
      assert keyed == Utils.Flatten(KeyedPages(init)) + KeyedPage(n, pages[n]);
      assert flat == Utils.Flatten(init) + pages[n];
      forall k | 0 <= k < |flat|
        ensures keyed[k] == Entry(k, flat[k])
      {
        if k >= n * MAX_ITEM_PER_PAGE {
          assert keyed[k] == KeyedPage(n, pages[n])[k - n * MAX_ITEM_PER_PAGE];
        }
      }
    }
  }

  /** The page component's state. */
  class VerifySchematicPage {
    var loaderState: LoaderState
    var schematicList: Pages
    var schematicUploadTag: seq<Tags.TagChoice>
    var showSchematicModel: bool

    /** `loadPage` reads the last page, so the list always has one. */
    ghost predicate Valid()
      reads this
    {
      |schematicList| >= 1
    }

    constructor ()
      ensures Valid()
      ensures loaderState == Loading && schematicList == [[]]
      ensures schematicUploadTag == [] && !showSchematicModel
    {
      loaderState := Loading;
      schematicList := [[]];
      schematicUploadTag := [];
      showSchematicModel := false;
    }

    /** `getSchematicUploadTag`: a reply with a body replaces the choices by
      the flattened groups (the status is not looked at); a reply without a
      body fails inside the handler and a rejection is not caught, so
      neither changes anything. */
    method GetSchematicUploadTag(reply: Reply<seq<Tags.CustomTag>>)
      modifies this
      ensures schematicUploadTag ==
                if reply.Answered? && reply.data.Some? then Utils.Flatten(Tags.ChoiceRows(reply.data.value))
                else old(schematicUploadTag)
      ensures loaderState == old(loaderState) && schematicList == old(schematicList)
      ensures showSchematicModel == old(showSchematicModel)
    {
      if reply.Answered? && reply.data.Some? {
        var tagChoiceList := Tags.FlattenTagGroups(reply.data.value);
        schematicUploadTag := tagChoiceList;
      }
    }

    /** `loadPage`: asks for `RequestedPage` and handles the reply. An accepted
      reply is stored by `StorePage`; any other leaves the list alone. The
      loader state follows `StateAfter`; LOADING is never set and nothing
      stops a call in NO_MORE. */
    method LoadPage(reply: Reply<seq<SchematicInfo>>) returns (requested: nat)
      requires Valid()
      modifies this
      ensures Valid()
      ensures requested == RequestedPage(old(schematicList))
      ensures schematicList == if Accepted(reply) then StorePage(old(schematicList), reply.data.value) else old(schematicList)
      ensures loaderState == StateAfter(reply)
      ensures PageLayout(old(schematicList)) && (Accepted(reply) ==> |reply.data.value| <= MAX_ITEM_PER_PAGE)
              ==> PageLayout(schematicList)
      ensures schematicUploadTag == old(schematicUploadTag) && showSchematicModel == old(showSchematicModel)
    {
      var lastIndex := |schematicList| - 1;
      var newPage := |schematicList[lastIndex]| == MAX_ITEM_PER_PAGE;
      requested := |schematicList| + (if newPage then 0 else -1);
      match reply {
        case Answered(status, data) =>
          if status == 200 && data.Some? {
            var schematics := data.value;
            if newPage {
              schematicList := schematicList + [schematics];
            } else {
              schematicList := schematicList[lastIndex := schematics];
            }
            if |schematics| < MAX_ITEM_PER_PAGE {
              loaderState := NoMore;
            } else {
              loaderState := More;
            }
          } else {
            loaderState := NoMore;
          }
        case Rejected =>
          loaderState := More;
      }
      if Accepted(reply) && PageLayout(old(schematicList)) && |reply.data.value| <= MAX_ITEM_PER_PAGE {
        StoreKeepsLayout(old(schematicList), reply.data.value);
      }
    }

    /** `loadToPage(page)`: resets the list to `[[]]` and the state to
      LOADING, then requests pages `0 .. page - 1`; `replies[i]` is the reply
      to request `i`, handled in the order the requests were issued. An
      accepted reply sets the state from its length and writes back the list
      as it was before the reset, not the fetched items. */
    method LoadToPage(page: nat, replies: seq<Reply<seq<SchematicInfo>>>) returns (requests: seq<nat>)
      requires Valid() && |replies| == page
      modifies this
      ensures Valid()
      ensures requests == seq(page, i => i)
      ensures schematicList == ReloadedPages(old(schematicList), replies)
      ensures loaderState == ReloadedState(replies)
      ensures schematicUploadTag == old(schematicUploadTag) && showSchematicModel == old(showSchematicModel)
    {
      var stale := schematicList;
      schematicList := [[]];
      loaderState := Loading;
      requests := [];
      for i := 0 to page
        invariant requests == seq(i, k => k)
        invariant schematicList == ReloadedPages(stale, replies[..i])
        invariant loaderState == ReloadedState(replies[..i])
        invariant schematicUploadTag == old(schematicUploadTag) && showSchematicModel == old(showSchematicModel)
      {
        requests := requests + [i];
        assert replies[..i + 1][..i] == replies[..i];
        match replies[i] {
          case Answered(status, data) =>
            if status == 200 && data.Some? {
              var schematics := data.value;
              if |schematics| < MAX_ITEM_PER_PAGE {
                loaderState := NoMore;
              } else {
                loaderState := More;
              }
              schematicList := stale;
            } else {
              loaderState := NoMore;
            }
          case Rejected =>
            loaderState := More;
        }
      }
      assert replies[..page] == replies;
    }
  }

  /** The form `verifySchematic` posts. */
  datatype VerifyForm = VerifyForm(id: string, authorId: string, data: string, tags: string)

  /** The panel for one schematic: its chosen tags and the search query. */
  class SchematicVerifyPanel {
    const schematic: SchematicInfo
    var tags: seq<Tags.TagChoice>
    var tag: string

    /** The initial tags come from `TagChoice.parseArray`, which is not part
      of this model. */
    constructor (schematic: SchematicInfo, parsedTags: seq<Tags.TagChoice>)
      ensures this.schematic == schematic && tags == parsedTags && tag == ""
    {
      this.schematic := schematic;
      tags := parsedTags;
      tag := "";
    }

    /** `handleRemoveTag(index)` */
    method HandleRemoveTag(index: int)
      modifies this
      ensures tags == Seqs.RemoveIndex(old(tags), index) && tag == old(tag)
      ensures 0 <= index < |old(tags)| ==> tags == old(tags)[..index] + old(tags)[index + 1..]
      ensures !(0 <= index < |old(tags)|) ==> tags == old(tags)
    {
      Seqs.RemoveIndexSpec(tags, index);
      tags := Seqs.RemoveIndex(tags, index);
    }

    /** `handleAddTag(tag)`: a missing tag is ignored; otherwise it is
      appended (tags of the same name stay, since the filter's result is
      thrown away) and the query is cleared. */
    method HandleAddTag(choice: Option<Tags.TagChoice>)
      modifies this
      ensures choice.None? ==> tags == old(tags) && tag == old(tag)
      ensures choice.Some? ==> tags == old(tags) + [choice.value] && tag == ""
    {
      if choice.None? {
        return;
      }
      tags := tags + [choice.value];
      tag := "";
    }

    /** `verifySchematic`: posts the schematic with the chosen tags as their
      wire string; whatever the outcome, the list is reloaded with
      `loadToPage(schematicList.length)` and the modal is closed. */
    method VerifySchematic(page: VerifySchematicPage, replies: seq<Reply<seq<SchematicInfo>>>)
      returns (form: VerifyForm, requests: seq<nat>)
      requires page.Valid() && |replies| == |page.schematicList|
      modifies page
      ensures form == VerifyForm(schematic.id, schematic.authorId, schematic.data, Tags.TagString(tags))
      ensures page.Valid() && !page.showSchematicModel
      ensures requests == seq(|old(page.schematicList)|, i => i)
      ensures page.schematicList == ReloadedPages(old(page.schematicList), replies)
      ensures page.loaderState == ReloadedState(replies)
      ensures page.schematicUploadTag == old(page.schematicUploadTag)
    {
      form := VerifyForm(schematic.id, schematic.authorId, schematic.data, Tags.TagString(tags));
      requests := page.LoadToPage(|page.schematicList|, replies);
      page.showSchematicModel := false;
    }

    /** `deleteSchematic`: closes the modal, deletes the upload and, whatever
      the outcome, reloads the list with `loadToPage(schematicList.length)`. */
    method DeleteSchematic(page: VerifySchematicPage, replies: seq<Reply<seq<SchematicInfo>>>)
      returns (deleted: string, requests: seq<nat>)
      requires page.Valid() && |replies| == |page.schematicList|
      modifies page
      ensures deleted == schematic.id
      ensures page.Valid() && !page.showSchematicModel
      ensures requests == seq(|old(page.schematicList)|, i => i)
      ensures page.schematicList == ReloadedPages(old(page.schematicList), replies)
      ensures page.loaderState == ReloadedState(replies)
      ensures page.schematicUploadTag == old(page.schematicUploadTag)
    {
      page.showSchematicModel := false;
      deleted := schematic.id;
      requests := page.LoadToPage(|page.schematicList|, replies);
    }
  }
}
