/** The post controllers as handlers over the stored collections: each one performs
    the source's reads and writes in the source's order, and its contract ties the
    answer and every collection it touches to the pure step of PostEngine. */
module PostHandlers {
  import opened Common
  import opened Users
  import opened Notifications
  import opened PostSchema
  import opened Uploads
  import opened Hashtags
  import opened PostEngine

  /** The posts collection, in storage order. */
  class PostCollection {
    var docs: seq<Post>

    constructor (docs: seq<Post>)
      ensures this.docs == docs
    {
      this.docs := docs;
    }
  }

  /** Everything sent outside the database: push notifications and socket emissions. */
  class Outbox {
    var events: seq<Event>

    constructor ()
      ensures events == []
    {
      events := [];
    }

    method Send(e: Event)
      modifies this
      ensures events == old(events) + [e]
    {
      events := events + [e];
    }
  }

  /** handleAddLikeOnPost. */
  method HandleLike(posts: PostCollection, users: UserCollection, notes: NotificationCollection, out: Outbox,
                    postId: string, caller: Option<Id>, noteId: Id, now: int) returns (r: Result<LikeReply>)
    modifies posts, notes, out
    ensures r == LikeStep(old(posts.docs), users.docs, postId, caller, noteId, now).reply
    ensures posts.docs == LikeStep(old(posts.docs), users.docs, postId, caller, noteId, now).posts
    ensures notes.docs == old(notes.docs) + LikeStep(old(posts.docs), users.docs, postId, caller, noteId, now).notes
    ensures out.events == old(out.events) + LikeStep(old(posts.docs), users.docs, postId, caller, noteId, now).events
  {
    if postId == "" || caller.None? {
      return Err(BadRequest);
    }
    var pid := CastId(postId);
    if pid.None? {
      return Err(Internal);
    }
    var found := Find(posts.docs, pid.value, false);
    if found.None? {
      return Err(NotFound);
    }
    var i := found.value;
    var post := posts.docs[i];
    var c := caller.value;
    var hasLiked := c in post.likedBy;
    if hasLiked {
      var likedBy := RemoveAll(post.likedBy, c);
      post := post.(likedBy := likedBy, likesCount := post.likesCount - 1);
    } else {
      post := post.(likedBy := post.likedBy + [c], likesCount := post.likesCount + 1);
      if post.author != c {
        if c !in users.docs {
          return Err(Internal);
        }
        var body := users.docs[c].fullName + LikedYourPost;
        var n := CreateNotification(notes, noteId, post.author, Some(c), Like, Some(body),
                                    Some("/posts/" + post.id), None, now);
        out.Send(Push(post.author, "liked", body));
      }
    }
    posts.docs := posts.docs[i := post];
    return Ok(LikeReply(!hasLiked, post.likesCount));
  }

  /** handleAddCommentOnPost. */
  method HandleComment(posts: PostCollection, users: UserCollection, notes: NotificationCollection, out: Outbox,
                       postId: string, caller: Option<Id>, text: Option<string>, commentId: Id, noteId: Id, now: int)
    returns (r: Result<CommentReply>)
    modifies posts, notes, out
    ensures r == CommentStep(old(posts.docs), users.docs, postId, caller, text, commentId, noteId, now).reply
    ensures posts.docs == CommentStep(old(posts.docs), users.docs, postId, caller, text, commentId, noteId, now).posts
    ensures notes.docs == old(notes.docs) + CommentStep(old(posts.docs), users.docs, postId, caller, text, commentId, noteId, now).notes
    ensures out.events == old(out.events) + CommentStep(old(posts.docs), users.docs, postId, caller, text, commentId, noteId, now).events
  {
    if postId == "" || caller.None? || text.None? || text.value == "" {
      return Err(BadRequest);
    }
    var pid := CastId(postId);
    if pid.None? {
      return Err(Internal);
    }
    var found := Find(posts.docs, pid.value, false);
    if found.None? {
      return Err(NotFound);
    }
    var i := found.value;
    var post := posts.docs[i];
    var c := caller.value;
    post := post.(comments := post.comments + [Comment(commentId, c, text.value, now)],
                  commentsCount := post.commentsCount + 1);
    posts.docs := posts.docs[i := post];
    out.Send(Emit(postId, "receiveComment"));
    if post.author != c {
      if c !in users.docs {
        return Err(Internal);
      }
      var n := CreateNotification(notes, noteId, post.author, Some(c), CommentOn,
                                  Some(users.docs[c].fullName + " commented on your post"),
                                  Some("/post/" + postId), None, now);
      out.Send(Emit(post.author, "receiveNotification"));
    }
    return Ok(CommentReply(commentId, text.value, now, post.commentsCount));
  }

  /** handleRepostsByUser. */
  method HandleRepost(posts: PostCollection, postId: string, caller: Option<Id>, message: Option<string>,
                      files: seq<File>, host: File -> Option<HostResult>, sanitize: Option<string> -> string,
                      newId: Id, now: int) returns (r: Result<Post>)
    modifies posts
    ensures r == RepostStep(old(posts.docs), postId, caller, message, files, host, sanitize, newId, now).reply
    ensures posts.docs == RepostStep(old(posts.docs), postId, caller, message, files, host, sanitize, newId, now).posts
  {
    if postId == "" || caller.None? {
      return Err(BadRequest);
    }
    var pid := CastId(postId);
    if pid.None? {
      return Err(Internal);
    }
    var found := Find(posts.docs, pid.value, false);
    if found.None? {
      return Err(NotFound);
    }
    var i := found.value;
    var original := posts.docs[i];
    var c := caller.value;
    if original.author == c {
      return Err(BadRequest);
    }
    if RepostsBy(posts.docs, c, pid.value) != [] {
      return Err(BadRequest);
    }
    var safe := sanitize(message);
    var media := UploadAll(files, host);
    if AnyInvalidMedia(media) || IdTaken(posts.docs, newId) {
      return Err(Internal);
    }
    var repost := NewPost(newId, c, Some(safe), media, original.tags, original.mentions,
                          original.visibility, Some(pid.value), now);
    posts.docs := posts.docs + [repost];
    posts.docs := posts.docs[i := original.(sharesCount := original.sharesCount + 1)];
    return Ok(repost);
  }

  /** handleAddPost. */
  method HandleAddPost(posts: PostCollection, caller: Option<Id>, content: Option<string>,
                       files: seq<File>, host: File -> Option<HostResult>, sanitize: Option<string> -> string,
                       newId: Id, now: int) returns (r: Result<Post>)
    modifies posts
    ensures r == AddPostStep(old(posts.docs), caller, content, files, host, sanitize, newId, now).reply
    ensures posts.docs == AddPostStep(old(posts.docs), caller, content, files, host, sanitize, newId, now).posts
  {
    if caller.None? || content.None? || content.value == "" {
      return Err(BadRequest);
    }
    var safe := sanitize(content);
    var media := UploadAll(files, host);
    if AnyInvalidMedia(media) || IdTaken(posts.docs, newId) {
      return Err(Internal);
    }
    var post := NewPost(newId, caller.value, Some(safe), media, ExtractHashtags(Some(safe)), [], Public, None, now);
    posts.docs := posts.docs + [post];
    return Ok(post);
  }

  /** handleSavePost: one update on the user and one on the post. */
  method HandleSave(posts: PostCollection, users: UserCollection, postId: string, caller: Option<Id>)
    returns (r: Result<SaveReply>)
    modifies posts, users
    ensures r == SaveStepOf(old(posts.docs), old(users.docs), postId, caller).reply
    ensures posts.docs == SaveStepOf(old(posts.docs), old(users.docs), postId, caller).posts
    ensures users.docs == SaveStepOf(old(posts.docs), old(users.docs), postId, caller).users
    ensures users.order == old(users.order)
  {
    if postId == "" {
      return Err(BadRequest);
    }
    if caller.None? {
      return Err(Unauthorized);
    }
    var pid := CastId(postId);
    if pid.None? {
      return Err(BadRequest);
    }
    var found := Find(posts.docs, pid.value, false);
    if found.None? {
      return Err(NotFound);
    }
    var i := found.value;
    var c := caller.value;
    if posts.docs[i].isDeleted {
      return Err(BadRequest);
    }
    if c !in users.docs {
      return Err(Internal);
    }
    var user := users.docs[c];
    var post := posts.docs[i];
    var isAlreadySaved := postId in user.savedPosts;
    var saved, marks;
    if isAlreadySaved {
      saved := RemoveAll(user.savedPosts, pid.value);
      marks := RemoveAll(post.bookmarkedBy, c);
    } else {
      saved := AddToSet(user.savedPosts, pid.value);
      marks := AddToSet(post.bookmarkedBy, c);
    }
    users.docs := users.docs[c := user.(savedPosts := saved)];
    posts.docs := posts.docs[i := post.(bookmarkedBy := marks)];
    return Ok(SaveReply(!isAlreadySaved, |marks|, Populate(saved, posts.docs)));
  }

  /** handleDeletePost. */
  method HandleSoftDelete(posts: PostCollection, postId: string, caller: Option<Id>, now: int)
    returns (r: Result<DeleteReply>)
    modifies posts
    ensures r == SoftDeleteStep(old(posts.docs), postId, caller, now).reply
    ensures posts.docs == SoftDeleteStep(old(posts.docs), postId, caller, now).posts
  {
    var g := DeleteGuard(posts.docs, postId, caller);
    if g.Err? {
      return Err(g.status);
    }
    var pid := CastId(postId).value;
    VisibleLookupAgrees(posts.docs, pid);
    var w := Find(posts.docs, pid, false).value;
    var post := posts.docs[w].(isDeleted := true, deletedAt := Some(now));
    posts.docs := posts.docs[w := post];
    return Ok(DeleteReply(post.id, now));
  }

  /** handleRestorePost, with its update narrowed by the middleware as in the source. */
  method HandleRestore(posts: PostCollection, postId: string, caller: Option<Id>) returns (r: Result<Option<Post>>)
    modifies posts
    ensures r == RestoreStep(old(posts.docs), postId, caller).reply
    ensures posts.docs == RestoreStep(old(posts.docs), postId, caller).posts
  {
    var g := OwnerGuard(posts.docs, postId, caller, true);
    if g.Err? {
      return Err(g.status);
    }
    var w := Find(posts.docs, CastId(postId).value, false);
    if w.None? {
      return Ok(None);
    }
    var post := posts.docs[w.value].(isDeleted := false, deletedAt := None);
    posts.docs := posts.docs[w.value := post];
    return Ok(Some(post));
  }

  /** handlePermanentDeletePost, with its delete narrowed by the middleware as in the source. */
  method HandlePermanentDelete(posts: PostCollection, postId: string, caller: Option<Id>) returns (r: Result<()>)
    modifies posts
    ensures r == PermanentDeleteStep(old(posts.docs), postId, caller).reply
    ensures posts.docs == PermanentDeleteStep(old(posts.docs), postId, caller).posts
  {
    var g := OwnerGuard(posts.docs, postId, caller, false);
    if g.Err? {
      return Err(g.status);
    }
    var w := Find(posts.docs, CastId(postId).value, false);
    if w.Some? {
      posts.docs := posts.docs[..w.value] + posts.docs[w.value + 1..];
    }
    return Ok(());
  }
}
