/** `src/routes/admin/verify/VerifyPostPage.tsx`: the admin queue of posts
    awaiting verification, the pending-post counter, and the panel in which
    a post's tags and content are edited before it is verified or rejected.
    Posts are objects: the list drops a post by reference, not by contents. */
module VerifyPost {
  import opened Common
  import Seqs
  import Tags

  /** A post as the client holds it; a content edit builds a new object. */
  class Post {
    const id: string
    const header: string
    const content: string
    const authorId: string
    const tags: seq<string>
    const time: int

    constructor (id: string, header: string, content: string, authorId: string, tags: seq<string>, time: int)
      ensures this.id == id && this.header == header && this.content == content
      ensures this.authorId == authorId && this.tags == tags && this.time == time
    {
      this.id := id;
      this.header := header;
      this.content := content;
      this.authorId := authorId;
      this.tags := tags;
      this.time := time;
    }
  }

  /** `usePage.filter((p) => p !== post)`: the list without that object, the
      other posts in their order. */
  function WithoutPost(posts: seq<Post>, post: Post): (r: seq<Post>)
    ensures post !in r
    ensures forall p :: p in posts && p != post ==> p in r
    ensures forall p :: p in r ==> p in posts
  {
    var keep := (p: Post) => p != post;
    Seqs.FilterMembers(keep, posts);
    Seqs.Filter(keep, posts)
  }

  /** A post object that is not in the list removes nothing. */
  lemma WithoutAbsentPost(posts: seq<Post>, post: Post)
    requires post !in posts
    ensures WithoutPost(posts, post) == posts
  {
    Seqs.FilterKeepsAll((p: Post) => p != post, posts);
  }

  /** Removing a post object twice is removing it once. */
  lemma WithoutPostIdempotent(posts: seq<Post>, post: Post)
    ensures WithoutPost(WithoutPost(posts, post), post) == WithoutPost(posts, post)
  {
    Seqs.FilterIdempotent((p: Post) => p != post, posts);
  }

  /** What the page sends: a rejection with its reason, or a verification
      with the chosen tags. */
  datatype PostRequest = RejectRequest(post: Post, reason: string) | VerifyRequest(post: Post, tags: seq<Tags.TagChoice>)

  /** The queue page: the loaded posts, the pending total shown by the admin
      page, and whether the post modal is open. */
  class VerifyPostPage {
    var posts: seq<Post>
    var totalPost: int
    var visible: bool

    constructor (posts: seq<Post>, totalPost: int)
      ensures this.posts == posts && this.totalPost == totalPost && !visible
    {
      this.posts := posts;
      this.totalPost := totalPost;
      visible := false;
    }

    /** `rejectPost`: closes the modal and rejects the post; only a successful
      rejection lowers the pending total, by one; whatever the outcome the post
      object leaves the list. */
    method RejectPost(post: Post, reason: string, rejectSucceeded: bool) returns (sent: PostRequest, popup: Popup)
      modifies this
      ensures sent == RejectRequest(post, reason)
      ensures !visible
      ensures posts == WithoutPost(old(posts), post)
      ensures totalPost == if rejectSucceeded then old(totalPost) - 1 else old(totalPost)
      ensures popup == if rejectSucceeded then Popup("delete-success", Info) else Popup("delete-fail", Error)
    {
      visible := false;
      sent := RejectRequest(post, reason);
      if rejectSucceeded {
        popup := Popup("delete-success", Info);
        totalPost := totalPost - 1;
      } else {
        popup := Popup("delete-fail", Error);
      }
      posts := WithoutPost(posts, post);
    }

    /** `verifyPost`: closes the modal and verifies the post; on success the
      author is notified, and only when that succeeds too does the pending
      total drop by one. Whatever the outcome the post object leaves the list. */
    method VerifyPost(post: Post, tags: seq<Tags.TagChoice>, verifySucceeded: bool, notifySucceeded: bool)
      returns (sent: PostRequest, notified: Option<string>, popup: Popup)
      modifies this
      ensures sent == VerifyRequest(post, tags)
      ensures !visible
      ensures posts == WithoutPost(old(posts), post)
      ensures notified == if verifySucceeded then Some(post.authorId) else None
      ensures totalPost == if verifySucceeded && notifySucceeded then old(totalPost) - 1 else old(totalPost)
      ensures popup == if verifySucceeded && notifySucceeded then Popup("verify-success", Info) else Popup("verify-fail", Error)
    {
      visible := false;
      sent := VerifyRequest(post, tags);
      notified := None;
      if verifySucceeded {
        notified := Some(post.authorId);
      }
      if verifySucceeded && notifySucceeded {
        popup := Popup("verify-success", Info);
        totalPost := totalPost - 1;
      } else {
        popup := Popup("verify-fail", Error);
      }
      posts := WithoutPost(posts, post);
    }
  }

  /** The panel for one post: its chosen tags, the search query and the post
      as being edited. */
  class PostUploadInfo {
    var tags: seq<Tags.TagChoice>
    var tag: string
    var currentPost: Post

    /** The initial tags come from `Tags.parseArray`, which is not part of
      this model. */
    constructor (post: Post, parsedTags: seq<Tags.TagChoice>)
      ensures currentPost == post && tags == parsedTags && tag == ""
    {
      currentPost := post;
      tags := parsedTags;
      tag := "";
    }

    /** `handleAddTag`: appends the tag, without removing an equal one (the
      filter's result is thrown away), and clears the query. */
    method HandleAddTag(choice: Tags.TagChoice)
      modifies this
      ensures tags == old(tags) + [choice] && tag == "" && currentPost == old(currentPost)
    {
      tags := tags + [choice];
      tag := "";
    }

    /** `handleRemoveTag(index)` */
    method HandleRemoveTag(index: int)
      modifies this
      ensures tags == Seqs.RemoveIndex(old(tags), index)
      ensures 0 <= index < |old(tags)| ==> tags == old(tags)[..index] + old(tags)[index + 1..]
      ensures !(0 <= index < |old(tags)|) ==> tags == old(tags)
      ensures tag == old(tag) && currentPost == old(currentPost)
    {
      Seqs.RemoveIndexSpec(tags, index);
      tags := Seqs.RemoveIndex(tags, index);
    }

    /** The textarea's change handler, `{ ...prev, content }`: a new post
      object with the new content and every other field copied. */
    method EditContent(content: string)
      modifies this
      ensures fresh(currentPost)
      ensures currentPost.content == content
      ensures currentPost.id == old(currentPost.id) && currentPost.header == old(currentPost.header)
      ensures currentPost.authorId == old(currentPost.authorId) && currentPost.tags == old(currentPost.tags)
      ensures currentPost.time == old(currentPost.time)
      ensures tags == old(tags) && tag == old(tag)
    {
      var prev := currentPost;
      currentPost := new Post(prev.id, prev.header, content, prev.authorId, prev.tags, prev.time);
    }
  }

  /** Editing a post's content and then rejecting it submits the new object,
      which the queue never held: the queue keeps the original post, while
      the counter still drops on success. */
  method EditThenReject(page: VerifyPostPage, info: PostUploadInfo, content: string, reason: string, rejectSucceeded: bool)
    returns (sent: PostRequest, popup: Popup)
    modifies page, info
    ensures fresh(info.currentPost) && info.currentPost.content == content
    ensures info.tags == old(info.tags) && info.tag == old(info.tag)
    ensures sent == RejectRequest(info.currentPost, reason)
    ensures !page.visible
    ensures page.posts == old(page.posts)
    ensures popup == if rejectSucceeded then Popup("delete-success", Info) else Popup("delete-fail", Error)
    ensures page.totalPost == if rejectSucceeded then old(page.totalPost) - 1 else old(page.totalPost)
  {
    info.EditContent(content);
    WithoutAbsentPost(page.posts, info.currentPost);
    sent, popup := page.RejectPost(info.currentPost, reason, rejectSucceeded);
  }
}
