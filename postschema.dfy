/** The Post model: media items, comments, the post record with its schema defaults,
    and the pre-find middleware that hides soft-deleted posts from every `find*` query. */
module PostSchema {
  import opened Common
  import Paging

  datatype MediaKind = Image | Video

  /** A media item; `url` is required (an empty string fails validation). */
  datatype Media = Media(url: string, kind: MediaKind, thumbnail: Option<string>)

  predicate ValidMedia(m: Media) {
    m.url != ""
  }

  datatype Visibility = Public | Private | Friends

  /** A comment sub-document; `user` and `text` are required and `createdAt` defaults
      to the time of creation. */
  datatype Comment = Comment(id: Id, user: Id, text: string, createdAt: int)

  datatype Post = Post(
    id: Id,
    author: Id,
    content: Option<string>,
    media: seq<Media>,
    tags: seq<string>,
    mentions: seq<Id>,
    location: Option<string>,
    visibility: Visibility,
    likesCount: int,
    commentsCount: int,
    sharesCount: int,
    isEdited: bool,
    likedBy: seq<Id>,
    repost: Option<Id>,
    bookmarkedBy: seq<Id>,
    comments: seq<Comment>,
    isDeleted: bool,
    deletedAt: Option<int>,
    createdAt: int)

  /** The cached counters agree with the lists they count, and no user likes or
      bookmarks a post twice. */
  predicate CountersAgree(p: Post) {
    p.likesCount == |p.likedBy| && NoDups(p.likedBy) && NoDups(p.bookmarkedBy)
    && p.commentsCount == |p.comments|
  }

  /** `new Post({...})` / `Post.create({...})` with the given fields: every other field
      takes its schema default. */
  function NewPost(id: Id, author: Id, content: Option<string>, media: seq<Media>, tags: seq<string>,
                   mentions: seq<Id>, visibility: Visibility, repost: Option<Id>, now: int): (p: Post)
    ensures p.id == id && p.author == author && p.content == content && p.media == media
    ensures p.tags == tags && p.mentions == mentions && p.visibility == visibility && p.repost == repost
    ensures p.likesCount == 0 && p.commentsCount == 0 && p.sharesCount == 0
    ensures p.likedBy == [] && p.bookmarkedBy == [] && p.comments == []
    ensures !p.isDeleted && p.deletedAt.None? && !p.isEdited && p.location.None?
    ensures CountersAgree(p)
  {
    Post(id, author, content, media, tags, mentions, None, visibility, 0, 0, 0, false,
         [], repost, [], [], false, None, now)
  }

  // ---------------------------------------------------------------------------
  // The pre-find middleware
  // ---------------------------------------------------------------------------

  /** What the pre-find middleware lets through: without the includeDeleted option
      the query is narrowed by `isDeleted: false`. */
  predicate PassesHook(p: Post, includeDeleted: bool) {
    includeDeleted || !p.isDeleted
  }

  /** A `find*` query with filter f: the posts satisfying f that the middleware lets
      through, in storage order. */
  function Query(posts: seq<Post>, f: Post -> bool, includeDeleted: bool): (r: seq<Post>)
    ensures forall p :: p in r <==> p in posts && f(p) && PassesHook(p, includeDeleted)
    ensures |r| <= |posts|
  {
    Paging.Select(posts, p => f(p) && PassesHook(p, includeDeleted))
  }

  /** findById / findOne({ _id }) / findByIdAndUpdate / findByIdAndDelete: the position
      of the first post with that id which the middleware lets through. */
  function Find(posts: seq<Post>, id: Id, includeDeleted: bool): (r: Option<nat>)
    ensures r.Some? ==> r.value < |posts| && posts[r.value].id == id && PassesHook(posts[r.value], includeDeleted)
    ensures r.Some? ==> forall k :: 0 <= k < r.value ==> !(posts[k].id == id && PassesHook(posts[k], includeDeleted))
    ensures r.None? ==> forall k :: 0 <= k < |posts| ==> !(posts[k].id == id && PassesHook(posts[k], includeDeleted))
    decreases |posts|
  {
    if posts == [] then None
    else if posts[0].id == id && PassesHook(posts[0], includeDeleted) then Some(0)
    else
      var r := Find(posts[1..], id, includeDeleted);
      if r.None? then None else Some(r.value + 1)
  }

  /** No two stored posts share an id. */
  predicate UniqueIds(posts: seq<Post>) {
    forall i, j :: 0 <= i < j < |posts| ==> posts[i].id != posts[j].id
  }

  /** With unique ids, a lookup that hides deleted posts finds a post exactly when a
      lookup that includes them finds a post that is not deleted, and both find the same one. */
  lemma HookOnlyHidesDeleted(posts: seq<Post>, id: Id)
    requires UniqueIds(posts)
    ensures Find(posts, id, false).Some? <==> Find(posts, id, true).Some? && !posts[Find(posts, id, true).value].isDeleted
    ensures Find(posts, id, false).Some? ==> Find(posts, id, false) == Find(posts, id, true)
  {
    var a := Find(posts, id, true);
    var b := Find(posts, id, false);
    if b.Some? {
      assert a.Some?;
      assert a.value <= b.value;
    }
  }
}
