# DevTinder backend core in Dafny

This project models three stateful engines of the DevTinder backend, an Express and Mongoose service for a developer social network:

- **The friend-request state machine** (`controllers/friends/friends.js`). It also covers the earlier variant in `controllers/friends.js`, which behaves the same but records no notifications. The `notify` parameter of every friend step selects the variant.
- **The post interaction engine** (`controllers/post/*.js`; `controllers/post1.js` is a copy of the same handlers). It covers likes, comments, reposts, saves, soft delete, restore and permanent delete, post creation, and the feeds.
- **The notification store** (`controllers/notifications.js`, `schema/notificationSchema.js`) and the navbar counters (`controllers/others.js`).

It also models the small pure helpers:

- hashtag extraction;
- pagination arithmetic;
- temporary-media type normalisation;
- the upload MIME filter and its error messages.

## How the model is built

**Stores.** The database is three stores:

- users, as a `map<Id, User>` plus the order an unsorted `find` returns them in;
- posts, as a `seq<Post>` in insertion order;
- notifications, as a `seq<Notification>` in insertion order.

**Pure steps and handler methods.** Every handler has two layers:

- A pure *step* function gives the reply and the stores the handler leaves behind. Every property is proved about these steps.
- An imperative method over the collection classes performs the handler's reads and writes in the source's order. Its `ensures` ties the reply and the new state to the step. The collection classes are `UserCollection`, `PostCollection`, `NotificationCollection`, `TempMediaCollection` and `Outbox`.

**Ids.** An `Id` is the canonical text of a MongoDB ObjectId: 24 lower-case hex digits.

- A route parameter is a raw string. Lookups cast it with `CastId`: malformed text takes the CastError path, and upper-case hex is lower-cased.
- Where the source compares a raw parameter with stored ids (`===`, `toString()`, Mongoose `includes`), the model compares the raw string too.

**The soft-delete middleware.** Every post lookup goes through `PostSchema.Find(posts, id, includeDeleted)` or `PostSchema.Query`. These reproduce the pre-find middleware of `schema/postSchema.js:134-140`, so deleted posts are hidden unless a query sets `includeDeleted`.

**Other inputs as parameters.** Several things are parameters of the steps:

- the clock (`now`);
- fresh ids;
- the HTML sanitiser and the media host, as function-typed parameters;
- the random picks of `$sample`.

Push notifications and socket emissions are appended to an `Outbox` event log.

## Model

| member | source | states |
|---|---|---|
| Common.CastId | controllers/friends/friends.js:123-137 | A parameter casts to an id exactly when it is 24 hex digits; the id is its lower-case spelling, and a canonical id casts to itself |
| Common.Without | controllers/friends/friends.js:266-272 | Filtering/pulling removes every occurrence of x, keeps every other member, never grows the list, and is the identity when x is absent |
| Common.AddToSet | controllers/post/saveController.js:59-69 | `$addToSet`: the list is unchanged when x is present and gains x at the end when it is not; nothing else is added or lost, and a duplicate-free list stays duplicate-free |
| Common.WithoutAppendFresh | controllers/friends/friends.js:336-342 | Removing a just-appended absent element gives back the original list |
| Common.WithoutKeepsNoDups | controllers/friends/friends.js:266-272 | Filtering keeps a duplicate-free list duplicate-free |
| Common.WithoutSingle | controllers/post/likeController.js:30-33 | Pulling a member of a duplicate-free list shortens it by exactly one |
| Common.AppendFreshKeepsNoDups | controllers/post/likeController.js:34-37 | Pushing an absent element keeps a list duplicate-free |
| Common.RemoveAll | controllers/friends/friends.js:266-272 | The filter loop computes exactly `Without(s, x)` |
| Paging.QueryOr | controllers/post/postController.js:67-68 | `parseInt(q) \|\| d`: an absent or zero query gives the default, any other value is kept; never zero |
| Paging.Window | controllers/post/postController.js:71-74 | `.skip(skip).limit(limit)`: fails only for a negative skip; otherwise returns min(\|limit\|, remaining) records, each the record at skip+k |
| Paging.CeilDiv | controllers/friends/friends.js:60 | `Math.ceil(total / limit)`: (r-1)*limit < total <= r*limit for a positive limit |
| Paging.NextPage | controllers/post/postController.js:111 | nextPage is page+1 exactly when the page came back full, otherwise null |
| Paging.SortDesc | controllers/post/postController.js:72 | `.sort({ createdAt: -1 })`: newest first, a permutation of its input |
| Paging.PageOfPosition | controllers/post/postController.js:66-68 | For a positive limit, the page j / limit + 1 starts at a skip at or before position j and ends after it |
| Paging.WindowOfSorted | controllers/post/postController.js:71-74 | A page cut from a newest-first list is newest first and holds only records of the list |
| Paging.SortDescSameMembers | controllers/post/postController.js:72 | Sorting neither adds nor drops records |
| Paging.Select | controllers/post/saveController.js:135 | Filtering keeps exactly the records that satisfy the predicate and never grows the list |
| Paging.SelectConcat | controllers/post/saveController.js:135 | Filtering distributes over concatenation, so the kept records stay in storage order |
| Paging.SelectCountsPositions | controllers/others.js:12-15 | The number of kept records is the number of positions whose record qualifies |
| Paging.SelectAppend | controllers/others.js:12-15 | Counting over a list extended by one record counts that record exactly when it qualifies |
| Paging.SelectNone | controllers/others.js:12-15 | A filter nothing satisfies selects nothing |
| Hashtags.WordRun | utils/FilterTheHashTags.js:5 | The greedy `[\w]+` run: all word characters, ended by a non-word character or the end |
| Hashtags.Dedupe | utils/FilterTheHashTags.js:8 | `[...new Set(m)]`: the same members, without duplicates |
| Hashtags.ExtractHashtags | utils/FilterTheHashTags.js:1-9 | A non-string gives []; the result never has duplicates |
| Hashtags.MatchesExactly | utils/FilterTheHashTags.js:5 | The global scan finds exactly the longest matches starting at or after a position |
| Hashtags.TagsAreMatches | utils/FilterTheHashTags.js:5-8 | A tag is returned iff some position of the text starts a match that is that tag |
| Hashtags.TagShape | utils/FilterTheHashTags.js:5 | Every tag is '#' plus one or more word characters, occurring in the text where it cannot be extended |
| Hashtags.NoTagsIff | utils/FilterTheHashTags.js:5-8 | The result is [] exactly when no '#' is followed by a word character |
| Hashtags.HashAfterLetter | utils/FilterTheHashTags.js:5 | "a#b" yields ["#b"]: no boundary is needed before '#' |
| Hashtags.DedupeKeepsFirstOrder | utils/FilterTheHashTags.js:8 | Deduplication lists values in the order of their first occurrences |
| Hashtags.TagsInFirstOrder | utils/FilterTheHashTags.js:5-8 | Tags come out in the order of their first match in the left-to-right scan |
| TempMedia.SafeType | controllers/media/handletempmedia.js:16-21 | The reported type when it is image or video; otherwise video exactly when resource_type is video |
| TempMedia.TempMediaRecord | controllers/media/handletempmedia.js:8-38 | 400 exactly when metadata, publicId or url is missing; otherwise url and publicId copied, playbackUrl kept only when truthy, status pending, expiry now+60000 ms |
| TempMedia.HandleTempMedia | controllers/media/handletempmedia.js:23-38 | Appends exactly that record on success and nothing on failure |
| Uploads.FileFilter | middleware/upload.js:6-28 | Accepts exactly the listed MIME types; any other is rejected with the fixed message |
| Uploads.FilterAcceptsListedMediaOnly | middleware/upload.js:7-19 | The list is four image and four video types, eight distinct entries |
| Uploads.ErrorMessage | middleware/upload.js:44-51 | LIMIT_FILE_SIZE and LIMIT_FILE_COUNT get their fixed messages, any other error keeps its own |
| Uploads.HandleMediaUpload | middleware/upload.js:42-65 | Every error is answered 400 with its message; otherwise a single file becomes `files.media` and the next handler runs |
| Uploads.RejectedTypeAnswer | middleware/upload.js:20-27 | A refused type ends as a 400 with the "Invalid file type" message |
| Uploads.MediaOf | utils/cloudinaryUploader.js:14-19 | The host's secure url; kind video iff the resource type is video, and only a video gets its url as thumbnail |
| Uploads.Uploaded | controllers/post/repostController.js:55-62 | At most one media item per file |
| Uploads.UploadedFromFiles | controllers/post/postController.js:24-31 | Every collected item comes from a file whose upload succeeded |
| Uploads.UploadedAllSucceed | controllers/post/postController.js:24-31 | When all uploads succeed, one item per file, in file order |
| Uploads.UploadFailureSkipped | controllers/post/repostController.js:55-62 | A failed upload adds nothing and does not stop the loop |
| Uploads.UploadAll | controllers/post/repostController.js:55-62 | The upload loop collects exactly `Uploaded(files, host)` |
| Notifications.ParseType | schema/notificationSchema.js:15-29 | A stored type string denotes a type only if it is that type's enum name |
| Notifications.TypeNamesRoundTrip | schema/notificationSchema.js:15-29 | Every type's name parses back to it; 'system', used by cancel, is in the enum |
| Notifications.NewNotification | schema/notificationSchema.js:5-46 | The record holds exactly the given fields and is unread |
| Notifications.CreateNotification | controllers/notifications.js:4-26 | Appends exactly one such record and returns it |
| Notifications.UserNotifications | controllers/notifications.js:32-37 | Exactly the user's notifications, newest first |
| Notifications.FindNotification | controllers/notifications.js:54-58 | The first record with that id, or none |
| Notifications.MarkAsReadStep | controllers/notifications.js:49-74 | Malformed id 500, unknown id 404; otherwise only that record becomes read; the caller is never consulted |
| Notifications.MarkAsRead | controllers/notifications.js:54-58 | The handler leaves exactly what MarkAsReadStep describes |
| Notifications.MarkAsReadIdempotent | controllers/notifications.js:54-58 | Marking the same notification twice leaves what marking it once left |
| Notifications.ReadAll | controllers/notifications.js:81-84 | Each record of the user becomes read; nothing else changes |
| Notifications.MarkAllAsRead | controllers/notifications.js:77-93 | The update loop leaves exactly `ReadAll` |
| Notifications.ReadAllClearsUnread | controllers/notifications.js:81-84 | Afterwards the user has no unread notification; other users' records are untouched |
| Notifications.DeleteStep | controllers/notifications.js:96-115 | Malformed id 500, unknown id 404; otherwise exactly that record is removed |
| Notifications.DeleteNotification | controllers/notifications.js:100 | The handler leaves exactly what DeleteStep describes |
| Notifications.DeleteRemovesIt | controllers/notifications.js:100-106 | With unique ids, deleting again answers 404 |
| Navbar.NavbarCounts | controllers/others.js:7-35 | chats is always 0; notifications is the number of the user's unread notifications, so 0 iff there is none; friendRequests is \|received\| or 0 for a missing user |
| Navbar.BadgeClearedByMarkAll | controllers/others.js:12-15 | Right after markAllAsRead for the caller the notification badge is 0 |
| Navbar.NewNotificationRaisesBadge | controllers/notifications.js:13-22 | A new notification to the caller raises the badge by exactly one |
| Friends.AddRequest | controllers/friends/friends.js:188-189 | The target is appended to the sender's sent list and the sender to the target's received list; nobody else changes |
| Friends.RemoveRequest | controllers/friends/friends.js:336-342 | The edge is filtered out of both pending lists; nobody else changes |
| Friends.Connect | controllers/friends/friends.js:262-272 | Each joins the other's connections and the pending edge is cleared on both sides |
| Friends.FriendNote | controllers/friends/friends.js:203-209 | Exactly one notification when notifications are on, none in the earlier variant |
| Friends.SendStep | controllers/friends/friends.js:111-220 | 401 without a caller; 400 for a malformed or self target; 404 iff a user is missing; 409 iff already connected or pending either way, comparing the target as typed; nothing changes on failure; success exactly otherwise, recording the target in the caller's sent list and the caller in the target's received list and notifying the target with "<name> sent you a friend request" and a link to the caller's profile (the same logic at controllers/friends.js:86-166) |
| Friends.HandleSendFriendRequest | controllers/friends/friends.js:185-209 | The transactional write and the notification leave exactly what SendStep describes |
| Friends.SendFixedStep | controllers/friends/friends.js:125-182 | Comparing cast ids: succeeds iff both users exist, differ, and share no connection or pending edge; on success the same request edge and notification as SendStep |
| Friends.SendFixedAgreesOnCanonical | controllers/friends/friends.js:132 | On a canonical parameter the corrected send is the send as written |
| Friends.AnswerGuard | controllers/friends/friends.js:229-259 | Accept/reject succeed iff both users exist and the requester is in the caller's received list |
| Friends.AcceptStep | controllers/friends/friends.js:225-297 | Fails exactly as the guard does, with nothing changed; otherwise the two users are connected and the pending edge dropped (Connect), and the requester is notified with "<name> accepted your friend request" and a link to the accepter's profile (the same logic at controllers/friends.js:208-234) |
| Friends.HandleAcceptFriendRequest | controllers/friends/friends.js:262-284 | The two saves and the notification leave exactly what AcceptStep describes |
| Friends.RejectStep | controllers/friends/friends.js:300-367 | Fails exactly as the guard does; otherwise the pending edge is removed from both sides and the requester is notified with "<name> rejected your friend request" (the same logic at controllers/friends.js:276-290) |
| Friends.HandleRejectFriendRequest | controllers/friends/friends.js:336-354 | The handler leaves exactly what RejectStep describes |
| Friends.CancelGuard | controllers/friends/friends.js:374-404 | Cancel succeeds iff both users exist and the target is in the caller's sent list |
| Friends.CancelStep | controllers/friends/friends.js:370-437 | Fails exactly as the guard does; otherwise the edge is removed from both sides and the target gets a system notification "<name> cancelled the friend request" (the same logic at controllers/friends.js:340-354) |
| Friends.HandleCancelFriendRequest | controllers/friends/friends.js:406-424 | The handler leaves exactly what CancelStep describes |
| Friends.Candidates | controllers/friends/friends.js:27-47 | A user is a candidate iff active, stored, and not excluded |
| Friends.PeopleYouMayKnow | controllers/friends/friends.js:11-71 | 404 for a missing caller, 500 iff the skip is negative; page and limit are the parsed queries; total is the number of candidates; data is the page of the candidates at skip (page-1)*limit, which never holds self, a connection or a pending counterpart; totalPages = ceil(total/limit) (the same logic at controllers/friends.js:27-60) |
| Friends.SuggestionsReachEveryCandidate | controllers/friends/friends.js:35-52 | For any positive limit, every candidate is listed on some page |
| Friends.Sample | controllers/friends/friends.js:471 | `$sample` of size 10: at most 10 users, all from the matches |
| Friends.SuggestedFriendsAsWritten | controllers/friends/friends.js:456-471 | The aggregate as written: at most 10, active, not a connection or pending counterpart |
| Friends.SuggestedFriendsIncludesCaller | controllers/friends/friends.js:456-471 | An active user with no relations is suggested to themselves |
| Friends.SuggestedFriends | controllers/friends/friends.js:439-494 | Corrected: at most 10 users, never self, a connection or a pending counterpart |
| Friends.FriendRequests | controllers/friends/friends.js:74-108 | 401 without a caller, 404 for a missing user; otherwise exactly the stored users among the received and sent lists |
| FriendGraph.AddRequestKeepsGraph | controllers/friends/friends.js:155-189 | Adding a request between unrelated distinct users keeps the graph consistent |
| FriendGraph.RemoveRequestKeepsGraph | controllers/friends/friends.js:336-342 | Removing a pending edge keeps the graph consistent |
| FriendGraph.ConnectKeepsGraph | controllers/friends/friends.js:262-272 | Turning a pending edge into a connection keeps the graph consistent |
| FriendGraph.SendFixedPreservesGraph | controllers/friends/friends.js:155-189 | The corrected send keeps the mirror, symmetry, no-self and one-way invariants |
| FriendGraph.SendPreservesGraph | controllers/friends/friends.js:155-189 | The send as written keeps them for a canonical target id |
| FriendGraph.AcceptPreservesGraph | controllers/friends/friends.js:262-272 | A successful accept keeps every invariant |
| FriendGraph.RejectPreservesGraph | controllers/friends/friends.js:336-342 | A successful reject keeps every invariant |
| FriendGraph.CancelPreservesGraph | controllers/friends/friends.js:406-412 | A successful cancel keeps every invariant |
| FriendGraph.UpperCaseSpellsSameId | controllers/friends/friends.js:132 | An upper-case spelling is a valid id that differs from the stored text |
| FriendGraph.SendOtherSpellingSelfRequest | controllers/friends/friends.js:132-189 | Sending to one's own id spelled differently succeeds and leaves a self edge |
| FriendGraph.RemoveRequestUndoesAdd | controllers/friends/friends.js:188-189 | Removing a request right after adding it restores the users |
| FriendGraph.SendThenRejectRestores | controllers/friends/friends.js:336-342 | A send followed by the target's reject restores every user |
| FriendGraph.SendThenCancelRestores | controllers/friends/friends.js:406-412 | A send followed by the sender's cancel restores every user |
| FriendGraph.SendThenAcceptConnects | controllers/friends/friends.js:262-272 | A send followed by accept connects the two and leaves nothing pending |
| FriendGraph.AcceptThenSendConflicts | controllers/friends/friends.js:150-160 | Once connected, a send either way answers 409 |
| PostSchema.NewPost | schema/postSchema.js:34-131 | Defaults: zero counters, empty lists, no location, not edited, not deleted; counters agree |
| PostSchema.Query | schema/postSchema.js:134-140 | A find returns exactly the matching posts the middleware lets through |
| PostSchema.Find | schema/postSchema.js:134-140 | findById: the first post with that id the middleware lets through, or none |
| PostSchema.HookOnlyHidesDeleted | schema/postSchema.js:134-140 | With unique ids, the default lookup finds a post iff the including lookup finds it undeleted |
| PostEngine.VisibleLookupAgrees | controllers/post/deleteController.js:27-67 | For a post that is not deleted, the filtered update reaches the post the guard found |
| PostEngine.ToggleLike | controllers/post/likeController.js:28-37 | Membership of the caller flips, the counter moves by one, nothing else on the post changes |
| PostEngine.ToggleLikeKeepsCounters | controllers/post/likeController.js:28-37 | likesCount = \|likedBy\| and no duplicates survive a toggle |
| PostEngine.LikeStep | controllers/post/likeController.js:11-84 | 400 / 500 / 404 before any change; success exactly when the post is found and the like is an unlike, the author's own, or by a user with a record; only that post changes; liked = not previously liked; a non-author like records the "<name> liked your post" notification for the author and pushes it to the author with title "liked", otherwise nothing is recorded or pushed (the same logic at controllers/post1.js:296-348) |
| PostEngine.LikeKeepsCounters | controllers/post/likeController.js:28-37 | Every post's like counter still equals its likers |
| PostEngine.LikeTwice | controllers/post/likeController.js:28-37 | For any found post and a liker with a user record, two toggles both succeed, flip the answer, restore likers and count, and undo a like exactly |
| PostEngine.FindAfterChange | controllers/post/likeController.js:20-26 | After a post's lists change, the next lookup finds it at the same place |
| PostEngine.CommentStep | controllers/post/commentController.js:11-92 | 400 / 404 with nothing changed, 404 exactly when no visible post has the id; 500 with nothing changed for a present but malformed id; success exactly when the post is found and the commenter is its author or has a user record; one comment appended and the count raised; broadcast to the post's room; a non-author's comment notifies the author with "<name> commented on your post" and a link to the post, pushed to the author's room (the same logic at controllers/post1.js:374-394) |
| PostEngine.CommentKeepsCounters | controllers/post/commentController.js:37-38 | Every post's comment counter still equals its comments |
| PostEngine.RepostsBy | controllers/post/repostController.js:39-42 | The caller's non-deleted reposts of that post |
| PostEngine.RepostStep | controllers/post/repostController.js:11-93 | 400 for missing inputs, 500 for a malformed id, 404 exactly when no visible post has the id; self-repost and a repeat repost 400; success exactly when none of these nor a failed save applies, with a new post copying visibility, tags and mentions, and the original's shares +1 (the same logic at controllers/post1.js:474-525) |
| PostEngine.RepostTwiceRefused | controllers/post/repostController.js:39-49 | Repeating a successful repost answers 400 |
| PostEngine.AddPostStep | controllers/post/postController.js:8-52 | 400 without caller or content; the post has the sanitised text, uploaded media, its hashtags and defaults (the same logic at controllers/post1.js:18-44) |
| PostEngine.AddPostKeepsCounters | controllers/post/postController.js:33-38 | Creating a post keeps counters in agreement and ids unique |
| PostEngine.Populate | controllers/post/saveController.js:116-132 | Populating saved ids yields only stored, undeleted posts with listed ids |
| PostEngine.PopulateComplete | controllers/post/saveController.js:116-132 | With unique ids, every undeleted post whose id is listed is populated |
| PostEngine.SaveStepOf | controllers/post/saveController.js:5-97 | 400 / 401; 404 exactly when no visible post has the id; 500 when the caller has no user record; success exactly otherwise (so the deleted-post 400 never fires); a saved post is pulled from both lists, otherwise added to both; isSaved flips; savesCount = \|bookmarkedBy\| (the same logic at controllers/post1.js:772-803) |
| PostEngine.SaveKeepsMirror | controllers/post/saveController.js:44-69 | The saved-list / bookmark mirror survives every save call |
| PostEngine.SaveTwice | controllers/post/saveController.js:44-69 | Two saves flip the answer and restore both memberships |
| PostEngine.SavedPosts | controllers/post/saveController.js:105-150 | 401 without a caller; only undeleted saved posts, all of them with unique ids |
| PostEngine.DeleteGuard | controllers/post/deleteController.js:11-57 | 400, 401, 404, already-deleted 400, non-author 403, in that order |
| PostEngine.SoftDeleteStep | controllers/post/deleteController.js:5-92 | Only that post changes: deleted and stamped now; the reply echoes id and time (the same logic at controllers/post1.js:566-606) |
| PostEngine.SoftDeleteHides | controllers/post/postController.js:142-180 | After a soft delete, the single-post read answers 404 |
| PostEngine.SoftDeleteKeepsStamps | controllers/post/deleteController.js:60-67 | The stamp stays set exactly on deleted posts |
| PostEngine.OwnerGuard | controllers/post/deleteController.js:100-123 | 404 when absent, 400 when not deleted (restore), 403 unless the caller is the author |
| PostEngine.RestoreStep | controllers/post/deleteController.js:95-147 | Succeeds exactly when the guard does; nothing changes on failure |
| PostEngine.RestoreAsWrittenNeverRestores | controllers/post/deleteController.js:125-132 | With unique ids, whenever restore succeeds it answers with no post and leaves the store unchanged |
| PostEngine.SoftDeleteThenRestoreAsWritten | controllers/post/deleteController.js:125-138 | Right after a soft delete, restore answers success with no post and the post stays deleted |
| PostEngine.RestoreFixedStep | controllers/post/deleteController.js:125-132 | Corrected: the post is undeleted and unstamped, nothing else changes |
| PostEngine.SoftDeleteThenRestoreFixed | controllers/post/deleteController.js:60-67 | Soft delete then the corrected restore gives back exactly the original store |
| PostEngine.RemoveAt | controllers/post/deleteController.js:173 | The store without one post, others in order |
| PostEngine.PermanentDeleteStep | controllers/post/deleteController.js:149-187 | Succeeds exactly when the guard does; nothing changes on failure |
| PostEngine.PermanentDeleteAsWrittenOnlyUndeleted | controllers/post/deleteController.js:173 | With unique ids, a successful permanent delete leaves a soft-deleted post in place and otherwise equals the corrected delete |
| PostEngine.PermanentDeleteAsWrittenKeepsDeleted | controllers/post/deleteController.js:173-178 | On a soft-deleted post it answers 200 and removes nothing |
| PostEngine.PermanentDeleteFixedStep | controllers/post/deleteController.js:173 | Corrected: removes exactly the post the guard found |
| PostEngine.PermanentDeleteFixedRemoves | controllers/post/deleteController.js:154-178 | Afterwards no post with that id remains |
| PostEngine.FeedOf | controllers/post/postController.js:67-112 | 500 iff the skip is negative; otherwise the page at skip (page-1)*limit of the matching undeleted posts sorted newest first, with exact length and element-wise content; nextPage iff full |
| PostEngine.FeedReachesEveryMatch | controllers/post/postController.js:67-74 | For any positive limit, every matching undeleted post is on some page |
| PostEngine.UserFeed | controllers/post/postController.js:54-121 | 401 without a caller; 500 for a route id that does not cast or a negative skip; otherwise the page of the route user's (else the caller's) stored undeleted posts, newest first |
| PostEngine.GlobalFeed | controllers/post/postController.js:204-269 | 401 without a caller; 500 iff the skip is negative; otherwise the page of everyone else's stored undeleted posts, newest first |
| PostEngine.SinglePost | controllers/post/postController.js:123-202 | 401, 400 for a missing or malformed id, 404 iff every post with the id is deleted |
| PostHandlers.HandleLike | controllers/post/likeController.js:28-69 | Toggles in place, records and pushes, saves: leaves exactly what LikeStep describes |
| PostHandlers.HandleComment | controllers/post/commentController.js:30-78 | Leaves exactly what CommentStep describes, including a saved comment when the commenter's record is missing |
| PostHandlers.HandleRepost | controllers/post/repostController.js:51-80 | Uploads, creates, then raises shares: leaves exactly what RepostStep describes |
| PostHandlers.HandleAddPost | controllers/post/postController.js:20-38 | Leaves exactly what AddPostStep describes |
| PostHandlers.HandleSave | controllers/post/saveController.js:43-70 | The two updates leave exactly what SaveStepOf describes |
| PostHandlers.HandleSoftDelete | controllers/post/deleteController.js:60-67 | Leaves exactly what SoftDeleteStep describes |
| PostHandlers.HandleRestore | controllers/post/deleteController.js:125-138 | Leaves exactly what RestoreStep describes |
| PostHandlers.HandlePermanentDelete | controllers/post/deleteController.js:173-178 | Leaves exactly what PermanentDeleteStep describes |

## Left out

- HTTP wiring, authentication and response shaping are not modelled. The caller id is an input: `Option<Id>` where the handler tests it, `Id` where it does not.
- Mongoose `populate` and `select` are not modelled, except where populate drops missing records (friend-request lists and saved posts). The JSON shapes of replies keep only the fields the properties speak about.
- CastError mechanics are reduced to `CastId`. A 12-character string, which `ObjectId.isValid` also accepts, is treated as malformed. A malformed id answers 400 where the handler catches CastError (save, soft delete, single post) and 500 elsewhere.
- Concurrency, interleaved read-modify-write requests and partial failure between two saves are not modelled. Each handler is one atomic step.
- Push notification and socket payloads are recorded only as an event's recipient or room and its name or title. Their delivery and their swallowed errors are not modelled.
- The HTML sanitiser is an opaque function parameter. So is the media host, which may fail for any file.
- Friends.Sample: `$sample` is modelled by the given picks. Only the size bound of 10 and membership in the matches are stated, not the distribution.
- Paging.SortDesc: equal timestamps keep storage order. MongoDB does not promise an order for ties.
- PostEngine.FeedOf: the Mongo error for a negative skip is reduced to a 500. The author populate and the extra per-post fields of the feed reply are not modelled.
- PostEngine.SavedPosts: the completeness half of its contract assumes unique post ids.
- Database write failures (a create, save or createNotification that throws) are not modelled; every store write succeeds.
- Users are never created or deleted here; the user order is fixed.
- `controllers/post.js` (an unfinished stub), chat and user search are not part of this model.
- `schema/userSchema.js` declares only email and password. The model uses the user fields the controllers read and write.

Where the code and the intended behaviour disagree, the model follows the code. In the intended behaviour, restore undoes a soft delete, permanent delete reaches soft-deleted posts, and suggestions never include the caller. The code does none of these; see Findings.

## Findings

| source | as written | input that shows it | evidently intended | confidence | as-written member | corrected member |
|---|---|---|---|---|---|---|
| controllers/post/deleteController.js:125-132,173 | The restore update and the permanent delete do not set includeDeleted, so the soft-delete middleware restricts them to undeleted posts. | A post just soft-deleted by its author: restore answers 200 with no post and the post stays deleted. Permanent delete answers 200 and removes nothing. | Both writes reach the post the guard found, so soft delete followed by restore gives back the original post. | not executed | PostEngine.SoftDeleteThenRestoreAsWritten | PostEngine.SoftDeleteThenRestoreFixed |
| controllers/friends/friends.js:132,155-182 | The self check and the three conflict checks compare the raw target text with stored ids; the lookup casts it. | The caller's own id spelled in upper-case hex: the request is accepted and the caller appears in their own sent and received lists. | The checks compare the cast id, so a self request is refused and the invariants hold for every input. | not executed | FriendGraph.SendOtherSpellingSelfRequest | FriendGraph.SendFixedPreservesGraph |
| controllers/friends/friends.js:456-471 | The aggregate's `$nin` list holds the caller's id as a string; aggregation pipelines are not cast, so it never matches the ObjectId `_id`. | An active user with no connections and no pending requests is suggested to themselves. | The caller is excluded along with connections and pending counterparts. | not executed | Friends.SuggestedFriendsIncludesCaller | Friends.SuggestedFriends |
