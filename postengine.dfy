/** The post interaction engine as pure steps: each handler's answer and the store it
    leaves behind, as functions of the store before the call. Every post lookup goes
    through PostSchema.Find, so the pre-find middleware decides what a handler sees. */
module PostEngine {
  import opened Common
  import opened Paging
  import opened Users
  import opened Notifications
  import opened PostSchema
  import opened Uploads
  import opened Hashtags

  /** A push notification or a socket emission, recorded in the order sent. */
  datatype Event =
    | Push(to: Id, title: string, body: string)
    | Emit(room: string, name: string)

  /** What a post handler answers, the posts it leaves, and what it records or sends. */
  datatype PostStep<R> = PostStep(reply: Result<R>, posts: seq<Post>, notes: seq<Notification>, events: seq<Event>)

  /** A handler that also rewrites user documents. */
  datatype SaveStep = SaveStep(reply: Result<SaveReply>, posts: seq<Post>, users: map<Id, User>)

  datatype LikeReply = LikeReply(liked: bool, likesCount: int)
  datatype CommentReply = CommentReply(commentId: Id, text: string, createdAt: int, commentsCount: int)
  datatype SaveReply = SaveReply(isSaved: bool, savesCount: nat, savedPosts: seq<Post>)
  datatype DeleteReply = DeleteReply(postId: Id, deletedAt: int)

  /** Every stored post's counters agree with its lists. */
  predicate AllCountersAgree(posts: seq<Post>) {
    forall k :: 0 <= k < |posts| ==> CountersAgree(posts[k])
  }

  /** The deletion stamp is set exactly on deleted posts. */
  predicate DeletionStamped(posts: seq<Post>) {
    forall k :: 0 <= k < |posts| ==> (posts[k].isDeleted <==> posts[k].deletedAt.Some?)
  }

  /** Among stored posts, only the one at i differs, and the store keeps its length. */
  predicate OnlyChanged(before: seq<Post>, after: seq<Post>, i: nat) {
    |after| == |before| && i < |before|
    && forall k :: 0 <= k < |before| && k != i ==> after[k] == before[k]
  }

  /** A lookup that excludes deleted posts finds a post that is not deleted exactly
      where a lookup that includes them does. */
  lemma {:induction false} VisibleLookupAgrees(posts: seq<Post>, id: Id)
    requires Find(posts, id, true).Some? && !posts[Find(posts, id, true).value].isDeleted
    ensures Find(posts, id, false) == Find(posts, id, true)
  {
    var i := Find(posts, id, true).value;
    assert posts[i].id == id && PassesHook(posts[i], false);
    forall k | 0 <= k < i ensures !(posts[k].id == id && PassesHook(posts[k], false)) {
      assert !(posts[k].id == id && PassesHook(posts[k], true));
    }
  }

  // ---------------------------------------------------------------------------
  // Like
  // ---------------------------------------------------------------------------

  /** The notification text after the liker's name. */
  const LikedYourPost: string := " liked your post \U{2764}\U{FE0F}"

  /** The like toggle on one post: a user who has liked it is pulled (every
      occurrence) and the counter drops; anyone else is appended and it rises. */
  function ToggleLike(p: Post, c: Id): (q: Post)
    ensures c in q.likedBy <==> c !in p.likedBy
    ensures forall u :: u != c ==> (u in q.likedBy <==> u in p.likedBy)
    ensures q.likesCount == if c in p.likedBy then p.likesCount - 1 else p.likesCount + 1
    ensures q.(likedBy := p.likedBy, likesCount := p.likesCount) == p
  {
    if c in p.likedBy then p.(likedBy := Without(p.likedBy, c), likesCount := p.likesCount - 1)
    else p.(likedBy := p.likedBy + [c], likesCount := p.likesCount + 1)
  }

  /** The like toggle keeps the counter equal to the number of likers and the likers
      distinct. */
  lemma ToggleLikeKeepsCounters(p: Post, c: Id)
    requires CountersAgree(p)
    ensures CountersAgree(ToggleLike(p, c))
  {
    if c in p.likedBy {
      WithoutSingle(p.likedBy, c);
      WithoutKeepsNoDups(p.likedBy, c);
    } else {
      AppendFreshKeepsNoDups(p.likedBy, c);
    }
  }

  /** handleAddLikeOnPost. A like by someone other than the author records one
      notification and one push; the liker's name is read for it, and a liker with no
      user record makes that read throw (500, nothing saved). */
  function LikeStep(posts: seq<Post>, users: map<Id, User>, postId: string, caller: Option<Id>,
                    noteId: Id, now: int): (s: PostStep<LikeReply>)
    ensures postId == "" || caller.None? ==> s.reply == Err(BadRequest)
    ensures postId != "" && caller.Some? && CastId(postId).None? ==> s.reply == Err(Internal)
    ensures postId != "" && caller.Some? && CastId(postId).Some? && Find(posts, CastId(postId).value, false).None?
            ==> s.reply == Err(NotFound)
    ensures s.reply.Err? ==> s.posts == posts && s.notes == [] && s.events == []
    ensures s.reply.Ok? ==> postId != "" && caller.Some? && CastId(postId).Some?
                            && Find(posts, CastId(postId).value, false).Some?
    ensures s.reply.Ok? ==>
              var i := Find(posts, CastId(postId).value, false).value;
              var c := caller.value;
              OnlyChanged(posts, s.posts, i)
              && s.posts[i] == ToggleLike(posts[i], c)
              && s.reply.value.liked == (c !in posts[i].likedBy)
              && s.reply.value.likesCount == s.posts[i].likesCount
              && (s.notes != [] <==> c !in posts[i].likedBy && posts[i].author != c)
              && (s.notes != [] ==> c in users && s.notes == [NewNotification(noteId, posts[i].author, Some(c), Like,
                                                  Some(users[c].fullName + LikedYourPost),
                                                  Some("/posts/" + posts[i].id), None, now)])
              && (s.notes != [] ==> s.events == [Push(posts[i].author, "liked", users[c].fullName + LikedYourPost)])
              && (s.notes == [] ==> s.events == [])
    ensures s.reply.Ok? <==>
              postId != "" && caller.Some? && CastId(postId).Some?
              && Find(posts, CastId(postId).value, false).Some?
              && (var p := posts[Find(posts, CastId(postId).value, false).value];
                  caller.value in p.likedBy || p.author == caller.value || caller.value in users)
  {
    if postId == "" || caller.None? then PostStep(Err(BadRequest), posts, [], [])
    else if CastId(postId).None? then PostStep(Err(Internal), posts, [], [])
    else
      var found := Find(posts, CastId(postId).value, false);
      if found.None? then PostStep(Err(NotFound), posts, [], [])
      else
        var i := found.value;
        var p := posts[i];
        var c := caller.value;
        var hasLiked := c in p.likedBy;
        var q := ToggleLike(p, c);
        var reply := Ok(LikeReply(!hasLiked, q.likesCount));
        if !hasLiked && p.author != c then
          if c !in users then PostStep(Err(Internal), posts, [], [])
          else
            var body := users[c].fullName + LikedYourPost;
            PostStep(reply, posts[i := q],
                     [NewNotification(noteId, p.author, Some(c), Like, Some(body), Some("/posts/" + p.id), None, now)],
                     [Push(p.author, "liked", body)])
        else PostStep(reply, posts[i := q], [], [])
  }

  // ---------------------------------------------------------------------------
  // Comment
  // ---------------------------------------------------------------------------

  /** handleAddCommentOnPost. The comment is saved and broadcast to the post's room
      before the commenter's name is read for the author's notification, so a commenter
      with no user record gets 500 after the comment is stored. */
  function CommentStep(posts: seq<Post>, users: map<Id, User>, postId: string, caller: Option<Id>,
                       text: Option<string>, commentId: Id, noteId: Id, now: int): (s: PostStep<CommentReply>)
    ensures postId == "" || caller.None? || text.None? || text == Some("") ==> s.reply == Err(BadRequest)
    ensures s.reply == Err(NotFound) <==>
              postId != "" && caller.Some? && text.Some? && text != Some("") && CastId(postId).Some?
              && Find(posts, CastId(postId).value, false).None?
    ensures s.reply.Err? && s.reply != Err(Internal) ==> s.posts == posts && s.notes == [] && s.events == []
    ensures postId != "" && caller.Some? && text.Some? && text != Some("") && CastId(postId).None? ==>
              s.reply == Err(Internal) && s.posts == posts && s.notes == [] && s.events == []
    ensures s.posts != posts ==> postId != "" && caller.Some? && text.Some? && CastId(postId).Some?
                                 && Find(posts, CastId(postId).value, false).Some? && |s.events| >= 1
    ensures s.posts != posts ==>
              var i := Find(posts, CastId(postId).value, false).value;
              var p := posts[i];
              OnlyChanged(posts, s.posts, i)
              && s.posts[i].comments == p.comments + [Comment(commentId, caller.value, text.value, now)]
              && s.posts[i].commentsCount == p.commentsCount + 1
              && s.posts[i].(comments := p.comments, commentsCount := p.commentsCount) == p
              && s.events[0] == Emit(postId, "receiveComment")
              && (s.notes != [] <==> p.author != caller.value && s.reply.Ok?)
              && (p.author == caller.value ==> s.reply.Ok? && s.events == [Emit(postId, "receiveComment")])
              && (p.author != caller.value && caller.value !in users ==>
                    s.reply == Err(Internal) && s.events == [Emit(postId, "receiveComment")])
              && (p.author != caller.value && caller.value in users ==>
                    s.reply.Ok?
                    && s.notes == [NewNotification(noteId, p.author, caller, CommentOn,
                                                   Some(users[caller.value].fullName + " commented on your post"),
                                                   Some("/post/" + postId), None, now)]
                    && s.events == [Emit(postId, "receiveComment"), Emit(p.author, "receiveNotification")])
    ensures s.reply.Ok? ==> s.posts != posts
    ensures s.reply.Ok? <==>
              postId != "" && caller.Some? && text.Some? && text != Some("") && CastId(postId).Some?
              && Find(posts, CastId(postId).value, false).Some?
              && (posts[Find(posts, CastId(postId).value, false).value].author == caller.value || caller.value in users)
    ensures s.reply.Ok? ==>
              s.reply.value.commentId == commentId && s.reply.value.createdAt == now
              && s.reply.value.text == text.value
              && s.reply.value.commentsCount == s.posts[Find(posts, CastId(postId).value, false).value].commentsCount
  {
    if postId == "" || caller.None? || text.None? || text.value == "" then PostStep(Err(BadRequest), posts, [], [])
    else if CastId(postId).None? then PostStep(Err(Internal), posts, [], [])
    else
      var found := Find(posts, CastId(postId).value, false);
      if found.None? then PostStep(Err(NotFound), posts, [], [])
      else
        var i := found.value;
        var p := posts[i];
        var c := caller.value;
        var q := p.(comments := p.comments + [Comment(commentId, c, text.value, now)],
                    commentsCount := p.commentsCount + 1);
        assert q != p by { assert |q.comments| != |p.comments|; }
        assert posts[i := q][i] != posts[i];
        var saved := posts[i := q];
        var broadcast := [Emit(postId, "receiveComment")];
        var reply := Ok(CommentReply(commentId, text.value, now, q.commentsCount));
        if p.author != c then
          if c !in users then PostStep(Err(Internal), saved, [], broadcast)
          else
            PostStep(reply, saved,
                     [NewNotification(noteId, p.author, Some(c), CommentOn,
                                      Some(users[c].fullName + " commented on your post"),
                                      Some("/post/" + postId), None, now)],
                     broadcast + [Emit(p.author, "receiveNotification")])
        else PostStep(reply, saved, [], broadcast)
  }

  // ---------------------------------------------------------------------------
  // Repost
  // ---------------------------------------------------------------------------

  /** Some media item lacks the url the schema requires, so saving the post fails. */
  predicate AnyInvalidMedia(media: seq<Media>) {
    exists k :: 0 <= k < |media| && !ValidMedia(media[k])
  }

  /** The id is already taken in the collection (MongoDB's unique `_id` index). */
  predicate IdTaken(posts: seq<Post>, id: Id) {
    exists k :: 0 <= k < |posts| && posts[k].id == id
  }

  /** The caller's visible reposts of the post pid. */
  function RepostsBy(posts: seq<Post>, c: Id, pid: Id): (r: seq<Post>)
    ensures forall q :: q in r <==> q in posts && q.author == c && q.repost == Some(pid) && !q.isDeleted
  {
    Query(posts, (q: Post) => q.author == c && q.repost == Some(pid), false)
  }

  /** handleRepostsByUser: a new post by the caller that points at the original and
      copies its visibility, tags and mentions; then the original's share counter rises.
      `sanitize` stands for the HTML sanitiser and `host` for the media host. */
  function RepostStep(posts: seq<Post>, postId: string, caller: Option<Id>, message: Option<string>,
                      files: seq<File>, host: File -> Option<HostResult>, sanitize: Option<string> -> string,
                      newId: Id, now: int): (s: PostStep<Post>)
    ensures postId == "" || caller.None? ==> s.reply == Err(BadRequest)
    ensures postId != "" && caller.Some? && CastId(postId).None? ==> s.reply == Err(Internal)
    ensures postId != "" && caller.Some? && CastId(postId).Some? ==>
              (s.reply == Err(NotFound) <==> Find(posts, CastId(postId).value, false).None?)
    ensures s.reply.Err? ==> s.posts == posts
    ensures s.notes == [] && s.events == []
    ensures s.reply.Ok? ==> postId != "" && caller.Some? && CastId(postId).Some?
                            && Find(posts, CastId(postId).value, false).Some?
    ensures s.reply.Ok? <==>
              postId != "" && caller.Some? && CastId(postId).Some?
              && Find(posts, CastId(postId).value, false).Some?
              && posts[Find(posts, CastId(postId).value, false).value].author != caller.value
              && RepostsBy(posts, caller.value, CastId(postId).value) == []
              && !AnyInvalidMedia(Uploaded(files, host)) && !IdTaken(posts, newId)
    ensures s.reply.Ok? ==>
              var pid := CastId(postId).value;
              var i := Find(posts, pid, false).value;
              var c := caller.value;
              var r := s.reply.value;
              posts[i].author != c && RepostsBy(posts, c, pid) == []
              && s.posts == posts[i := posts[i].(sharesCount := posts[i].sharesCount + 1)] + [r]
              && r == NewPost(newId, c, Some(sanitize(message)), Uploaded(files, host),
                              posts[i].tags, posts[i].mentions, posts[i].visibility, Some(pid), now)
    ensures postId != "" && caller.Some? && CastId(postId).Some? && Find(posts, CastId(postId).value, false).Some?
            ==> ((posts[Find(posts, CastId(postId).value, false).value].author == caller.value
                  || RepostsBy(posts, caller.value, CastId(postId).value) != []) ==> s.reply == Err(BadRequest))
  {
    if postId == "" || caller.None? then PostStep(Err(BadRequest), posts, [], [])
    else if CastId(postId).None? then PostStep(Err(Internal), posts, [], [])
    else
      var pid := CastId(postId).value;
      var found := Find(posts, pid, false);
      if found.None? then PostStep(Err(NotFound), posts, [], [])
      else
        var i := found.value;
        var original := posts[i];
        var c := caller.value;
        if original.author == c then PostStep(Err(BadRequest), posts, [], [])
        else if RepostsBy(posts, c, pid) != [] then PostStep(Err(BadRequest), posts, [], [])
        else
          var media := Uploaded(files, host);
          if AnyInvalidMedia(media) || IdTaken(posts, newId) then PostStep(Err(Internal), posts, [], [])
          else
            var r := NewPost(newId, c, Some(sanitize(message)), media,
                             original.tags, original.mentions, original.visibility, Some(pid), now);
            PostStep(Ok(r), posts[i := original.(sharesCount := original.sharesCount + 1)] + [r], [], [])
  }

  // ---------------------------------------------------------------------------
  // Add post
  // ---------------------------------------------------------------------------

  /** handleAddPost: the sanitised text, the media that uploaded, and the hashtags of
      the sanitised text; every other field takes its default. */
  function AddPostStep(posts: seq<Post>, caller: Option<Id>, content: Option<string>,
                       files: seq<File>, host: File -> Option<HostResult>, sanitize: Option<string> -> string,
                       newId: Id, now: int): (s: PostStep<Post>)
    ensures caller.None? || content.None? || content == Some("") ==> s.reply == Err(BadRequest)
    ensures s.reply.Err? ==> s.posts == posts
    ensures s.notes == [] && s.events == []
    ensures s.reply.Ok? ==>
              var r := s.reply.value;
              s.posts == posts + [r] && r.author == caller.value
              && r.content == Some(sanitize(content)) && r.media == Uploaded(files, host)
              && r.tags == ExtractHashtags(Some(sanitize(content)))
              && r.visibility == Public && r.repost.None? && r.mentions == []
              && CountersAgree(r) && !r.isDeleted && r.id == newId && r.createdAt == now
    ensures s.reply.Ok? <==> caller.Some? && content.Some? && content != Some("")
                             && !AnyInvalidMedia(Uploaded(files, host)) && !IdTaken(posts, newId)
  {
    if caller.None? || content.None? || content.value == "" then PostStep(Err(BadRequest), posts, [], [])
    else
      var safe := sanitize(content);
      var media := Uploaded(files, host);
      if AnyInvalidMedia(media) || IdTaken(posts, newId) then PostStep(Err(Internal), posts, [], [])
      else
        var r := NewPost(newId, caller.value, Some(safe), media, ExtractHashtags(Some(safe)), [], Public, None, now);
        PostStep(Ok(r), posts + [r], [], [])
  }

  // ---------------------------------------------------------------------------
  // Save
  // ---------------------------------------------------------------------------

  /** Populating a list of post ids: the posts the middleware lets through, in list
      order; ids with no visible post drop out. */
  function Populate(ids: seq<Id>, posts: seq<Post>): (r: seq<Post>)
    ensures |r| <= |ids|
    ensures forall q :: q in r ==> q in posts && !q.isDeleted && q.id in ids
  {
    if ids == [] then []
    else
      var found := Find(posts, ids[0], false);
      var rest := Populate(ids[1..], posts);
      if found.Some? then [posts[found.value]] + rest else rest
  }

  /** handleSavePost. Whether the post is already saved is decided by comparing the
      parameter as typed with the stored ids; both updates cast it. Unsaving pulls the
      post from the caller's list and the caller from the post's list; saving adds
      each only when absent. */
  function SaveStepOf(posts: seq<Post>, users: map<Id, User>, postId: string, caller: Option<Id>): (s: SaveStep)
    ensures postId == "" ==> s.reply == Err(BadRequest)
    ensures postId != "" && caller.None? ==> s.reply == Err(Unauthorized)
    ensures postId != "" && caller.Some? && CastId(postId).None? ==> s.reply == Err(BadRequest)
    ensures postId != "" && caller.Some? && CastId(postId).Some? ==>
              (s.reply == Err(NotFound) <==> Find(posts, CastId(postId).value, false).None?)
    ensures (postId != "" && caller.Some? && CastId(postId).Some? && Find(posts, CastId(postId).value, false).Some?
             && caller.value !in users) ==> s.reply == Err(Internal)
    ensures s.reply.Ok? <==> postId != "" && caller.Some? && CastId(postId).Some? && caller.value in users
                             && Find(posts, CastId(postId).value, false).Some?
    ensures s.reply.Err? ==> s.posts == posts && s.users == users
    ensures s.reply.Ok? ==> postId != "" && caller.Some? && CastId(postId).Some? && caller.value in users
                            && Find(posts, CastId(postId).value, false).Some?
    ensures s.reply.Ok? ==>
              var pid := CastId(postId).value;
              var i := Find(posts, pid, false).value;
              var c := caller.value;
              var wasSaved := postId in users[c].savedPosts;
              OnlyChanged(posts, s.posts, i) && s.users.Keys == users.Keys
              && (forall u :: u in users && u != c ==> s.users[u] == users[u])
              && s.users[c] == users[c].(savedPosts := s.users[c].savedPosts)
              && s.posts[i] == posts[i].(bookmarkedBy := s.posts[i].bookmarkedBy)
              && (wasSaved ==> pid !in s.users[c].savedPosts && c !in s.posts[i].bookmarkedBy)
              && (!wasSaved ==> pid in s.users[c].savedPosts && c in s.posts[i].bookmarkedBy)
              && (forall x :: x != pid ==> (x in s.users[c].savedPosts <==> x in users[c].savedPosts))
              && (forall u :: u != c ==> (u in s.posts[i].bookmarkedBy <==> u in posts[i].bookmarkedBy))
              && s.reply.value.isSaved == !wasSaved
              && s.reply.value.savesCount == |s.posts[i].bookmarkedBy|
              && s.reply.value.savedPosts == Populate(s.users[c].savedPosts, s.posts)
  {
    if postId == "" then SaveStep(Err(BadRequest), posts, users)
    else if caller.None? then SaveStep(Err(Unauthorized), posts, users)
    else if CastId(postId).None? then SaveStep(Err(BadRequest), posts, users)
    else
      var pid := CastId(postId).value;
      var found := Find(posts, pid, false);
      if found.None? then SaveStep(Err(NotFound), posts, users)
      else
        var i := found.value;
        var c := caller.value;
        if posts[i].isDeleted then SaveStep(Err(BadRequest), posts, users)
        else if c !in users then SaveStep(Err(Internal), posts, users)
        else
          var u := users[c];
          var p := posts[i];
          var wasSaved := postId in u.savedPosts;
          var saved := if wasSaved then Without(u.savedPosts, pid) else AddToSet(u.savedPosts, pid);
          var marks := if wasSaved then Without(p.bookmarkedBy, c) else AddToSet(p.bookmarkedBy, c);
          var users' := users[c := u.(savedPosts := saved)];
          var posts' := posts[i := p.(bookmarkedBy := marks)];
          SaveStep(Ok(SaveReply(!wasSaved, |marks|, Populate(saved, posts'))), posts', users')
  }

  /** handleGetSavedPosts: the caller's saved posts that exist and are not deleted. */
  function SavedPosts(posts: seq<Post>, users: map<Id, User>, caller: Option<Id>): (r: Result<seq<Post>>)
    ensures caller.None? ==> r == Err(Unauthorized)
    ensures caller.Some? && caller.value !in users ==> r == Err(Internal)
    ensures r.Ok? ==> forall q :: q in r.value ==> q in posts && !q.isDeleted && q.id in users[caller.value].savedPosts
    ensures r.Ok? && UniqueIds(posts) ==>
              forall q :: q in posts && !q.isDeleted && q.id in users[caller.value].savedPosts ==> q in r.value
  {
    if caller.None? then Err(Unauthorized)
    else if caller.value !in users then Err(Internal)
    else
      var populated := Populate(users[caller.value].savedPosts, posts);
      PopulateComplete(users[caller.value].savedPosts, posts);
      Ok(Paging.Select(populated, (q: Post) => !q.isDeleted))
  }

  /** With unique ids, every visible post whose id is listed is populated. */
  lemma {:induction false} PopulateComplete(ids: seq<Id>, posts: seq<Post>)
    ensures forall q :: q in posts && !q.isDeleted && q.id in ids && UniqueIds(posts) ==> q in Populate(ids, posts)
  {
    if ids != [] {
      PopulateComplete(ids[1..], posts);
      forall q | q in posts && !q.isDeleted && q.id in ids && UniqueIds(posts)
        ensures q in Populate(ids, posts)
      {
        if q.id !in ids[1..] {
          assert q.id == ids[0];
          var k :| 0 <= k < |posts| && posts[k] == q;
          var found := Find(posts, ids[0], false);
          if found.None? {
            assert posts[k].id == ids[0] && PassesHook(posts[k], false);
          } else {
            assert found.value == k;
          }
        }
      }
    }
  }

  // ---------------------------------------------------------------------------
  // Soft delete, restore, permanent delete
  // ---------------------------------------------------------------------------

  /** The guards of handleDeletePost, in the handler's order; on success the index of
      the post (the lookup includes deleted posts). A malformed id is a CastError (400). */
  function DeleteGuard(posts: seq<Post>, postId: string, caller: Option<Id>): (r: Result<nat>)
    ensures postId == "" ==> r == Err(BadRequest)
    ensures postId != "" && caller.None? ==> r == Err(Unauthorized)
    ensures r.Ok? <==> postId != "" && caller.Some? && CastId(postId).Some?
                       && Find(posts, CastId(postId).value, true).Some?
                       && !posts[Find(posts, CastId(postId).value, true).value].isDeleted
                       && posts[Find(posts, CastId(postId).value, true).value].author == caller.value
    ensures r.Ok? ==> r == Ok(Find(posts, CastId(postId).value, true).value)
    ensures (r.Err? && postId != "" && caller.Some? && CastId(postId).Some?
             && Find(posts, CastId(postId).value, true).Some?
             && !posts[Find(posts, CastId(postId).value, true).value].isDeleted) ==> r == Err(Forbidden)
  {
    if postId == "" then Err(BadRequest)
    else if caller.None? then Err(Unauthorized)
    else if CastId(postId).None? then Err(BadRequest)
    else
      var found := Find(posts, CastId(postId).value, true);
      if found.None? then Err(NotFound)
      else if posts[found.value].isDeleted then Err(BadRequest)
      else if posts[found.value].author != caller.value then Err(Forbidden)
      else Ok(found.value)
  }

  /** handleDeletePost: the author's post is marked deleted and stamped with now;
      nothing else changes. */
  function SoftDeleteStep(posts: seq<Post>, postId: string, caller: Option<Id>, now: int): (s: PostStep<DeleteReply>)
    ensures s.reply.Err? ==> s.posts == posts
    ensures s.reply.Ok? <==> DeleteGuard(posts, postId, caller).Ok?
    ensures s.reply.Ok? ==>
              var i := DeleteGuard(posts, postId, caller).value;
              OnlyChanged(posts, s.posts, i)
              && s.posts[i] == posts[i].(isDeleted := true, deletedAt := Some(now))
              && s.reply.value == DeleteReply(posts[i].id, now)
    ensures s.notes == [] && s.events == []
  {
    var g := DeleteGuard(posts, postId, caller);
    if g.Err? then PostStep(Err(g.status), posts, [], [])
    else
      var pid := CastId(postId).value;
      VisibleLookupAgrees(posts, pid);
      var w := Find(posts, pid, false).value;
      var q := posts[w].(isDeleted := true, deletedAt := Some(now));
      PostStep(Ok(DeleteReply(q.id, now)), posts[w := q], [], [])
  }

  /** The guards restore and permanent delete share: a malformed id throws (500), the
      lookup includes deleted posts, and the author is compared with the caller. */
  function OwnerGuard(posts: seq<Post>, postId: string, caller: Option<Id>, mustBeDeleted: bool): (r: Result<nat>)
    ensures CastId(postId).None? ==> r == Err(Internal)
    ensures r.Ok? <==> CastId(postId).Some? && Find(posts, CastId(postId).value, true).Some?
                       && (mustBeDeleted ==> posts[Find(posts, CastId(postId).value, true).value].isDeleted)
                       && caller.Some? && posts[Find(posts, CastId(postId).value, true).value].author == caller.value
    ensures r.Ok? ==> r == Ok(Find(posts, CastId(postId).value, true).value)
    ensures CastId(postId).Some? && Find(posts, CastId(postId).value, true).None? ==> r == Err(NotFound)
  {
    if CastId(postId).None? then Err(Internal)
    else
      var found := Find(posts, CastId(postId).value, true);
      if found.None? then Err(NotFound)
      else if mustBeDeleted && !posts[found.value].isDeleted then Err(BadRequest)
      else if caller.None? || posts[found.value].author != caller.value then Err(Forbidden)
      else Ok(found.value)
  }

  /** handleRestorePost as written: after the guards the update is a find-and-update
      without includeDeleted, so the middleware narrows it to posts that are not deleted. */
  function RestoreStep(posts: seq<Post>, postId: string, caller: Option<Id>): (s: PostStep<Option<Post>>)
    ensures s.reply.Ok? <==> OwnerGuard(posts, postId, caller, true).Ok?
    ensures s.reply.Err? ==> s.posts == posts
    ensures s.notes == [] && s.events == []
  {
    var g := OwnerGuard(posts, postId, caller, true);
    if g.Err? then PostStep(Err(g.status), posts, [], [])
    else
      var w := Find(posts, CastId(postId).value, false);
      if w.None? then PostStep(Ok(None), posts, [], [])
      else
        var q := posts[w.value].(isDeleted := false, deletedAt := None);
        PostStep(Ok(Some(q)), posts[w.value := q], [], [])
  }

  /** Restore with the update issued with includeDeleted, as evidently intended. */
  function RestoreFixedStep(posts: seq<Post>, postId: string, caller: Option<Id>): (s: PostStep<Option<Post>>)
    ensures s.reply.Ok? <==> OwnerGuard(posts, postId, caller, true).Ok?
    ensures s.reply.Err? ==> s.posts == posts
    ensures s.reply.Ok? ==>
              var i := OwnerGuard(posts, postId, caller, true).value;
              OnlyChanged(posts, s.posts, i)
              && s.posts[i] == posts[i].(isDeleted := false, deletedAt := None)
              && s.reply.value == Some(s.posts[i])
    ensures s.notes == [] && s.events == []
  {
    var g := OwnerGuard(posts, postId, caller, true);
    if g.Err? then PostStep(Err(g.status), posts, [], [])
    else
      var i := g.value;
      var q := posts[i].(isDeleted := false, deletedAt := None);
      PostStep(Ok(Some(q)), posts[i := q], [], [])
  }

  /** The store without the post at i. */
  function RemoveAt(posts: seq<Post>, i: nat): (r: seq<Post>)
    requires i < |posts|
    ensures |r| == |posts| - 1
    ensures forall k :: 0 <= k < i ==> r[k] == posts[k]
    ensures forall k :: i <= k < |r| ==> r[k] == posts[k + 1]
  {
    posts[..i] + posts[i + 1..]
  }

  /** handlePermanentDeletePost as written: the delete is a find-and-delete without
      includeDeleted, and the handler answers 200 whatever it matched. */
  function PermanentDeleteStep(posts: seq<Post>, postId: string, caller: Option<Id>): (s: PostStep<()>)
    ensures s.reply.Ok? <==> OwnerGuard(posts, postId, caller, false).Ok?
    ensures s.reply.Err? ==> s.posts == posts
    ensures s.notes == [] && s.events == []
  {
    var g := OwnerGuard(posts, postId, caller, false);
    if g.Err? then PostStep(Err(g.status), posts, [], [])
    else
      var w := Find(posts, CastId(postId).value, false);
      PostStep(Ok(()), if w.Some? then RemoveAt(posts, w.value) else posts, [], [])
  }

  /** Permanent delete issued with includeDeleted, as evidently intended. */
  function PermanentDeleteFixedStep(posts: seq<Post>, postId: string, caller: Option<Id>): (s: PostStep<()>)
    ensures s.reply.Ok? <==> OwnerGuard(posts, postId, caller, false).Ok?
    ensures s.reply.Err? ==> s.posts == posts
    ensures s.reply.Ok? ==> s.posts == RemoveAt(posts, OwnerGuard(posts, postId, caller, false).value)
    ensures s.notes == [] && s.events == []
  {
    var g := OwnerGuard(posts, postId, caller, false);
    if g.Err? then PostStep(Err(g.status), posts, [], [])
    else PostStep(Ok(()), RemoveAt(posts, g.value), [], [])
  }

  // ---------------------------------------------------------------------------
  // Reads
  // ---------------------------------------------------------------------------

  function CreatedAtOf(p: Post): int {
    p.createdAt
  }

  datatype FeedPage = FeedPage(data: seq<Post>, currentPage: int, nextPage: Option<int>)

  /** The posts f admits that the middleware lets through, newest first. */
  function Newest(posts: seq<Post>, f: Post -> bool): seq<Post> {
    SortDesc(Query(posts, f, false), CreatedAtOf)
  }

  /** `Post.find(filter).sort({ createdAt: -1 }).skip(skip).limit(limit)` and the
      page markers, for the handler's page and limit queries. */
  function FeedOf(posts: seq<Post>, f: Post -> bool, pageQuery: Option<int>, limitQuery: Option<int>): (r: Result<FeedPage>)
    ensures r.Err? <==> SkipFor(QueryOr(pageQuery, 1), QueryOr(limitQuery, 10)) < 0
    ensures r.Err? ==> r == Err(Internal)
    ensures r.Ok? ==> PageAt(r.value.data, Newest(posts, f), SkipFor(QueryOr(pageQuery, 1), QueryOr(limitQuery, 10)),
                             QueryOr(limitQuery, 10))
    ensures r.Ok? ==> forall q :: q in r.value.data ==> q in posts && f(q) && !q.isDeleted
    ensures r.Ok? ==> SortedDesc(r.value.data, CreatedAtOf)
    ensures r.Ok? ==> r.value.currentPage == QueryOr(pageQuery, 1)
    ensures r.Ok? ==> (r.value.nextPage.Some? <==> |r.value.data| == QueryOr(limitQuery, 10))
    ensures r.Ok? && r.value.nextPage.Some? ==> r.value.nextPage.value == r.value.currentPage + 1
  {
    var page := QueryOr(pageQuery, 1);
    var limit := QueryOr(limitQuery, 10);
    var skip := SkipFor(page, limit);
    var matches := Query(posts, f, false);
    var sorted := SortDesc(matches, CreatedAtOf);
    var w := Window(sorted, skip, limit);
    if w.None? then Err(Internal)
    else
      var data := w.value;
      WindowOfSorted(sorted, skip, limit, CreatedAtOf);
      SortDescSameMembers(matches, CreatedAtOf);
      Ok(FeedPage(data, page, NextPage(page, |data|, limit)))
  }

  /** Every visible post the filter admits is on some page, for any positive limit. */
  lemma FeedReachesEveryMatch(posts: seq<Post>, f: Post -> bool, limit: int, q: Post) returns (page: int)
    requires limit > 0 && q in posts && f(q) && !q.isDeleted
    ensures page >= 1 && FeedOf(posts, f, Some(page), Some(limit)).Ok?
    ensures q in FeedOf(posts, f, Some(page), Some(limit)).value.data
  {
    var sorted := Newest(posts, f);
    SortDescSameMembers(Query(posts, f, false), CreatedAtOf);
    assert q in Query(posts, f, false);
    assert q in sorted;
    var j := PositionOf(sorted, q);
    page := j / limit + 1;
    PageOfPosition(j, limit);
    var r := FeedOf(posts, f, Some(page), Some(limit));
    var skip := SkipFor(page, limit);
    assert QueryOr(Some(page), 1) == page && QueryOr(Some(limit), 10) == limit;
    assert r.Ok?;
    assert PageAt(r.value.data, sorted, skip, limit);
    assert skip <= j < skip + Abs(limit);
    PageHolds(r.value.data, sorted, skip, limit, j);
    assert sorted[j] in r.value.data;
  }

  /** The author filter of a user's feed. */
  function AuthoredBy(a: Id): Post -> bool {
    (q: Post) => q.author == a
  }

  /** The filter of the global feed: everyone but a. */
  function NotAuthoredBy(a: Id): Post -> bool {
    (q: Post) => q.author != a
  }

  /** Whose posts handleGetPost lists: the user in the route, or the caller when the
      route names nobody. */
  function FeedTarget(caller: Id, requested: Option<string>): Option<Id> {
    if requested.Some? && requested.value != "" then CastId(requested.value) else Some(caller)
  }

  /** handleGetPost: the posts of the user in the route, or of the caller when the
      route names nobody; an id that does not cast makes the query throw (500). */
  function UserFeed(posts: seq<Post>, caller: Option<Id>, requested: Option<string>,
                    pageQuery: Option<int>, limitQuery: Option<int>): (r: Result<FeedPage>)
    ensures caller.None? ==> r == Err(Unauthorized)
    ensures caller.Some? && FeedTarget(caller.value, requested).None? ==> r == Err(Internal)
    ensures caller.Some? && FeedTarget(caller.value, requested).Some? ==>
              (r.Err? <==> SkipFor(QueryOr(pageQuery, 1), QueryOr(limitQuery, 10)) < 0)
    ensures r.Ok? ==> caller.Some? && FeedTarget(caller.value, requested).Some?
    ensures r.Ok? ==> PageAt(r.value.data, Newest(posts, AuthoredBy(FeedTarget(caller.value, requested).value)),
                             SkipFor(QueryOr(pageQuery, 1), QueryOr(limitQuery, 10)), QueryOr(limitQuery, 10))
    ensures r.Ok? ==> forall q :: q in r.value.data ==>
                        q in posts && !q.isDeleted && q.author == FeedTarget(caller.value, requested).value
    ensures r.Ok? && (requested.None? || requested == Some("")) ==>
              forall q :: q in r.value.data ==> q.author == caller.value
    ensures r.Ok? ==> SortedDesc(r.value.data, CreatedAtOf) && r.value.currentPage == QueryOr(pageQuery, 1)
    ensures r.Ok? ==> (r.value.nextPage.Some? <==> |r.value.data| == QueryOr(limitQuery, 10))
  {
    if caller.None? then Err(Unauthorized)
    else
      var target := FeedTarget(caller.value, requested);
      if target.None? then Err(Internal)
      else FeedOf(posts, AuthoredBy(target.value), pageQuery, limitQuery)
  }

  /** handleGetAllPost: everyone's posts but the caller's. */
  function GlobalFeed(posts: seq<Post>, caller: Option<Id>, pageQuery: Option<int>, limitQuery: Option<int>): (r: Result<FeedPage>)
    ensures caller.None? ==> r == Err(Unauthorized)
    ensures caller.Some? ==> (r.Err? <==> SkipFor(QueryOr(pageQuery, 1), QueryOr(limitQuery, 10)) < 0)
    ensures r.Ok? ==> caller.Some?
    ensures r.Ok? ==> PageAt(r.value.data, Newest(posts, NotAuthoredBy(caller.value)),
                             SkipFor(QueryOr(pageQuery, 1), QueryOr(limitQuery, 10)), QueryOr(limitQuery, 10))
    ensures r.Ok? ==> forall q :: q in r.value.data ==> q in posts && q.author != caller.value && !q.isDeleted
    ensures r.Ok? ==> SortedDesc(r.value.data, CreatedAtOf) && r.value.currentPage == QueryOr(pageQuery, 1)
    ensures r.Ok? ==> (r.value.nextPage.Some? <==> |r.value.data| == QueryOr(limitQuery, 10))
  {
    if caller.None? then Err(Unauthorized)
    else FeedOf(posts, NotAuthoredBy(caller.value), pageQuery, limitQuery)
  }

  /** handleGetSinglePostById. */
  function SinglePost(posts: seq<Post>, caller: Option<Id>, postId: string): (r: Result<Post>)
    ensures caller.None? ==> r == Err(Unauthorized)
    ensures caller.Some? && (postId == "" || CastId(postId).None?) ==> r == Err(BadRequest)
    ensures r.Ok? ==> r.value in posts && !r.value.isDeleted && r.value.id == CastId(postId).value
    ensures caller.Some? && CastId(postId).Some? && postId != "" ==>
              (r == Err(NotFound) <==> forall q :: q in posts && q.id == CastId(postId).value ==> q.isDeleted)
  {
    if caller.None? then Err(Unauthorized)
    else if postId == "" || CastId(postId).None? then Err(BadRequest)
    else
      var found := Find(posts, CastId(postId).value, false);
      if found.None? then Err(NotFound) else Ok(posts[found.value])
  }

  // ---------------------------------------------------------------------------
  // Properties across calls
  // ---------------------------------------------------------------------------

  /** Liking and unliking keep every post's counter equal to its likers. */
  lemma LikeKeepsCounters(posts: seq<Post>, users: map<Id, User>, postId: string, caller: Option<Id>, noteId: Id, now: int)
    requires AllCountersAgree(posts)
    ensures AllCountersAgree(LikeStep(posts, users, postId, caller, noteId, now).posts)
  {
    var s := LikeStep(posts, users, postId, caller, noteId, now);
    if s.reply.Ok? {
      var i := Find(posts, CastId(postId).value, false).value;
      ToggleLikeKeepsCounters(posts[i], caller.value);
      assert s.posts == posts[i := ToggleLike(posts[i], caller.value)];
    }
  }

  /** Commenting keeps every post's counter equal to its comments. */
  lemma CommentKeepsCounters(posts: seq<Post>, users: map<Id, User>, postId: string, caller: Option<Id>,
                             text: Option<string>, commentId: Id, noteId: Id, now: int)
    requires AllCountersAgree(posts)
    ensures AllCountersAgree(CommentStep(posts, users, postId, caller, text, commentId, noteId, now).posts)
  {
    var s := CommentStep(posts, users, postId, caller, text, commentId, noteId, now);
    if s.posts != posts {
      var i := Find(posts, CastId(postId).value, false).value;
      assert CountersAgree(s.posts[i]);
    }
  }

  /** A post whose lists change keeps its id and its deletion flag, so a second
      lookup finds the same post at the same place. */
  lemma {:induction false} FindAfterChange(posts: seq<Post>, after: seq<Post>, i: nat, id: Id)
    requires OnlyChanged(posts, after, i)
    requires Find(posts, id, false) == Some(i)
    requires after[i].id == posts[i].id && after[i].isDeleted == posts[i].isDeleted
    ensures Find(after, id, false) == Some(i)
  {
    assert after[i].id == id && PassesHook(after[i], false);
    forall k | 0 <= k < i ensures !(after[k].id == id && PassesHook(after[k], false)) {
      assert after[k] == posts[k];
    }
  }

  /** Pressing like twice: the answer flips, the counter comes back, and a like that
      is undone leaves the post exactly as it was. */
  lemma LikeTwice(posts: seq<Post>, users: map<Id, User>, postId: string, c: Id, n1: Id, n2: Id, t1: int, t2: int)
    requires c in users
    requires postId != "" && CastId(postId).Some? && Find(posts, CastId(postId).value, false).Some?
    ensures var s1 := LikeStep(posts, users, postId, Some(c), n1, t1);
            var s2 := LikeStep(s1.posts, users, postId, Some(c), n2, t2);
            var i := Find(posts, CastId(postId).value, false).value;
            s2.reply.Ok? && s2.reply.value.liked == !s1.reply.value.liked
            && s2.posts[i].likesCount == posts[i].likesCount
            && (forall u :: u in s2.posts[i].likedBy <==> u in posts[i].likedBy)
            && (c !in posts[i].likedBy ==> s2.posts == posts)
  {
    var s1 := LikeStep(posts, users, postId, Some(c), n1, t1);
    var pid := CastId(postId).value;
    var i := Find(posts, pid, false).value;
    FindAfterChange(posts, s1.posts, i, pid);
    if c !in posts[i].likedBy {
      WithoutAppendFresh(posts[i].likedBy, c);
      assert ToggleLike(ToggleLike(posts[i], c), c) == posts[i];
      assert s1.posts[i := posts[i]] == posts;
    }
  }

  /** A second identical repost is refused: the first one is found by the duplicate
      check. */
  lemma RepostTwiceRefused(posts: seq<Post>, postId: string, c: Id, message: Option<string>,
                           files: seq<File>, host: File -> Option<HostResult>, sanitize: Option<string> -> string,
                           id1: Id, id2: Id, t1: int, t2: int)
    requires RepostStep(posts, postId, Some(c), message, files, host, sanitize, id1, t1).reply.Ok?
    ensures var s1 := RepostStep(posts, postId, Some(c), message, files, host, sanitize, id1, t1);
            RepostStep(s1.posts, postId, Some(c), message, files, host, sanitize, id2, t2).reply == Err(BadRequest)
  {
    var s1 := RepostStep(posts, postId, Some(c), message, files, host, sanitize, id1, t1);
    var pid := CastId(postId).value;
    var i := Find(posts, pid, false).value;
    var r := s1.reply.value;
    assert s1.posts[..|posts|] == posts[i := posts[i].(sharesCount := posts[i].sharesCount + 1)];
    FindAfterChange(posts, s1.posts[..|posts|], i, pid);
    assert Find(s1.posts, pid, false) == Some(i) by {
      assert s1.posts[i].id == pid && PassesHook(s1.posts[i], false);
      forall k | 0 <= k < i ensures !(s1.posts[k].id == pid && PassesHook(s1.posts[k], false)) {
        assert s1.posts[k] == posts[k];
      }
    }
    assert r in s1.posts && r.author == c && r.repost == Some(pid) && !r.isDeleted;
    assert r in RepostsBy(s1.posts, c, pid);
  }

  /** Each post's bookmarks and its savers' saved lists mirror each other. */
  predicate SaveMirrored(posts: seq<Post>, users: map<Id, User>) {
    forall k, u :: 0 <= k < |posts| && u in users ==> (posts[k].id in users[u].savedPosts <==> u in posts[k].bookmarkedBy)
  }

  /** Saving and unsaving keep the mirror. A parameter spelled in upper case is never
      found in the saved list, so it is always a save, and a save keeps the mirror too. */
  lemma SaveKeepsMirror(posts: seq<Post>, users: map<Id, User>, postId: string, caller: Option<Id>)
    requires UniqueIds(posts) && SaveMirrored(posts, users)
    ensures SaveMirrored(SaveStepOf(posts, users, postId, caller).posts, SaveStepOf(posts, users, postId, caller).users)
  {
    var s := SaveStepOf(posts, users, postId, caller);
    if s.reply.Ok? {
      var pid := CastId(postId).value;
      var i := Find(posts, pid, false).value;
      var c := caller.value;
      forall k, u | 0 <= k < |s.posts| && u in s.users
        ensures s.posts[k].id in s.users[u].savedPosts <==> u in s.posts[k].bookmarkedBy
      {
        assert s.posts[k].id == posts[k].id;
        if k != i {
          assert posts[k].id != pid by {
            assert posts[k].id != posts[i].id;
          }
          assert s.posts[k] == posts[k];
        }
        if u != c {
          assert s.users[u] == users[u];
        }
      }
    }
  }

  /** Pressing save twice with the post's own id: the answer flips and both the
      caller's list and the post's bookmarks hold what they held before. */
  lemma SaveTwice(posts: seq<Post>, users: map<Id, User>, postId: string, c: Id)
    requires IsCanonicalId(postId) && SaveMirrored(posts, users) && UniqueIds(posts)
    requires SaveStepOf(posts, users, postId, Some(c)).reply.Ok?
    ensures var s1 := SaveStepOf(posts, users, postId, Some(c));
            var s2 := SaveStepOf(s1.posts, s1.users, postId, Some(c));
            var i := Find(posts, postId, false).value;
            s2.reply.Ok? && s2.reply.value.isSaved == !s1.reply.value.isSaved
            && (forall x :: x in s2.users[c].savedPosts <==> x in users[c].savedPosts)
            && (forall u :: u in s2.posts[i].bookmarkedBy <==> u in posts[i].bookmarkedBy)
  {
    var s1 := SaveStepOf(posts, users, postId, Some(c));
    var i := Find(posts, postId, false).value;
    FindAfterChange(posts, s1.posts, i, postId);
    var s2 := SaveStepOf(s1.posts, s1.users, postId, Some(c));
    assert postId in users[c].savedPosts <==> c in posts[i].bookmarkedBy;
  }

  /** Soft deletion hides the post from single-post reads, given unique ids. */
  lemma SoftDeleteHides(posts: seq<Post>, postId: string, c: Id, now: int)
    requires UniqueIds(posts) && SoftDeleteStep(posts, postId, Some(c), now).reply.Ok?
    ensures SinglePost(SoftDeleteStep(posts, postId, Some(c), now).posts, Some(c), postId) == Err(NotFound)
  {
    var s := SoftDeleteStep(posts, postId, Some(c), now);
    var i := DeleteGuard(posts, postId, Some(c)).value;
    var pid := CastId(postId).value;
    forall k | 0 <= k < |s.posts| ensures s.posts[k].id == pid ==> s.posts[k].isDeleted {
      if k != i {
        assert posts[k].id != posts[i].id;
      }
    }
  }

  /** Soft deletion keeps the deletion stamp on exactly the deleted posts. */
  lemma SoftDeleteKeepsStamps(posts: seq<Post>, postId: string, caller: Option<Id>, now: int)
    requires DeletionStamped(posts)
    ensures DeletionStamped(SoftDeleteStep(posts, postId, caller, now).posts)
  {
    var s := SoftDeleteStep(posts, postId, caller, now);
    if s.reply.Ok? {
      var i := DeleteGuard(posts, postId, caller).value;
      assert s.posts[i].isDeleted && s.posts[i].deletedAt.Some?;
    }
  }

  /** After a soft delete the same author can restore the post with the corrected
      restore, and the store is exactly what it was. */
  lemma SoftDeleteThenRestoreFixed(posts: seq<Post>, postId: string, c: Id, now: int)
    requires DeletionStamped(posts) && SoftDeleteStep(posts, postId, Some(c), now).reply.Ok?
    ensures var s1 := SoftDeleteStep(posts, postId, Some(c), now);
            var s2 := RestoreFixedStep(s1.posts, postId, Some(c));
            s2.reply.Ok? && s2.posts == posts
  {
    var s1 := SoftDeleteStep(posts, postId, Some(c), now);
    var pid := CastId(postId).value;
    var i := DeleteGuard(posts, postId, Some(c)).value;
    assert Find(s1.posts, pid, true) == Some(i) by {
      assert s1.posts[i].id == pid && PassesHook(s1.posts[i], true);
      forall k | 0 <= k < i ensures !(s1.posts[k].id == pid && PassesHook(s1.posts[k], true)) {
        assert s1.posts[k] == posts[k];
      }
    }
    assert posts[i].deletedAt.None?;
    assert s1.posts[i].(isDeleted := false, deletedAt := None) == posts[i];
    assert s1.posts[i := posts[i]] == posts;
  }

  /** The restore as written, right after a soft delete with unique ids, answers
      success with no post and leaves the post deleted. */
  lemma SoftDeleteThenRestoreAsWritten(posts: seq<Post>, postId: string, c: Id, now: int)
    requires UniqueIds(posts) && SoftDeleteStep(posts, postId, Some(c), now).reply.Ok?
    ensures var s1 := SoftDeleteStep(posts, postId, Some(c), now);
            var s2 := RestoreStep(s1.posts, postId, Some(c));
            s2.reply == Ok(None) && s2.posts == s1.posts
            && s1.posts[DeleteGuard(posts, postId, Some(c)).value].isDeleted
  {
    var s1 := SoftDeleteStep(posts, postId, Some(c), now);
    var pid := CastId(postId).value;
    var i := DeleteGuard(posts, postId, Some(c)).value;
    assert Find(s1.posts, pid, true) == Some(i) by {
      assert s1.posts[i].id == pid && PassesHook(s1.posts[i], true);
      forall k | 0 <= k < i ensures !(s1.posts[k].id == pid && PassesHook(s1.posts[k], true)) {
        assert s1.posts[k] == posts[k];
      }
    }
    forall k | 0 <= k < |s1.posts| ensures !(s1.posts[k].id == pid && PassesHook(s1.posts[k], false)) {
      if k != i {
        assert posts[k].id != posts[i].id;
      }
    }
    assert Find(s1.posts, pid, false).None?;
  }

  /** The permanent delete as written, on a soft-deleted post with unique ids, answers
      success and removes nothing. */
  lemma PermanentDeleteAsWrittenKeepsDeleted(posts: seq<Post>, postId: string, c: Id)
    requires UniqueIds(posts) && CastId(postId).Some?
    requires Find(posts, CastId(postId).value, true).Some?
    requires var p := posts[Find(posts, CastId(postId).value, true).value]; p.isDeleted && p.author == c
    ensures PermanentDeleteStep(posts, postId, Some(c)) == PostStep(Ok(()), posts, [], [])
  {
    var pid := CastId(postId).value;
    var i := Find(posts, pid, true).value;
    forall k | 0 <= k < |posts| ensures !(posts[k].id == pid && PassesHook(posts[k], false)) {
      if k != i {
        assert posts[k].id != posts[i].id;
      }
    }
    assert Find(posts, pid, false).None?;
  }

  /** With unique ids, restore as written never restores anything: whenever its
      guards pass, the post they found is deleted, so the narrowed update matches
      nothing, the answer is Ok(None), and the store is unchanged. */
  lemma RestoreAsWrittenNeverRestores(posts: seq<Post>, postId: string, caller: Option<Id>)
    requires UniqueIds(posts)
    ensures RestoreStep(posts, postId, caller).reply.Ok? ==>
              RestoreStep(posts, postId, caller).reply == Ok(None) && RestoreStep(posts, postId, caller).posts == posts
  {
    if CastId(postId).Some? {
      HookOnlyHidesDeleted(posts, CastId(postId).value);
    }
  }

  /** With unique ids, permanent delete as written agrees with the corrected one on a
      post that is not deleted, and leaves a soft-deleted post in place. */
  lemma PermanentDeleteAsWrittenOnlyUndeleted(posts: seq<Post>, postId: string, caller: Option<Id>)
    requires UniqueIds(posts)
    ensures PermanentDeleteStep(posts, postId, caller).reply.Ok? ==>
              var i := OwnerGuard(posts, postId, caller, false).value;
              (posts[i].isDeleted ==> PermanentDeleteStep(posts, postId, caller).posts == posts)
              && (!posts[i].isDeleted ==>
                    PermanentDeleteStep(posts, postId, caller) == PermanentDeleteFixedStep(posts, postId, caller))
  {
    if CastId(postId).Some? {
      HookOnlyHidesDeleted(posts, CastId(postId).value);
    }
  }

  /** The corrected permanent delete leaves no post with that id, given unique ids. */
  lemma PermanentDeleteFixedRemoves(posts: seq<Post>, postId: string, c: Id)
    requires UniqueIds(posts) && PermanentDeleteFixedStep(posts, postId, Some(c)).reply.Ok?
    ensures forall q :: q in PermanentDeleteFixedStep(posts, postId, Some(c)).posts ==> q.id != CastId(postId).value
    ensures |PermanentDeleteFixedStep(posts, postId, Some(c)).posts| == |posts| - 1
  {
    var s := PermanentDeleteFixedStep(posts, postId, Some(c));
    var i := OwnerGuard(posts, postId, Some(c), false).value;
    forall q | q in s.posts ensures q.id != CastId(postId).value {
      var k :| 0 <= k < |s.posts| && s.posts[k] == q;
      if k < i {
        assert q == posts[k];
      } else {
        assert q == posts[k + 1];
      }
    }
  }

  /** A new post keeps every stored post's counters in agreement. */
  lemma AddPostKeepsCounters(posts: seq<Post>, caller: Option<Id>, content: Option<string>,
                             files: seq<File>, host: File -> Option<HostResult>, sanitize: Option<string> -> string,
                             newId: Id, now: int)
    requires AllCountersAgree(posts) && UniqueIds(posts)
    ensures var s := AddPostStep(posts, caller, content, files, host, sanitize, newId, now);
            AllCountersAgree(s.posts) && UniqueIds(s.posts)
  {
    var s := AddPostStep(posts, caller, content, files, host, sanitize, newId, now);
    if s.reply.Ok? {
      assert !IdTaken(posts, newId);
      forall i, j | 0 <= i < j < |s.posts| ensures s.posts[i].id != s.posts[j].id {
        if j == |posts| {
          assert s.posts[i] == posts[i];
        }
      }
    }
  }
}
