/** The Notification model and its controller: creating a record, listing a user's
    records newest first, marking one or all as read, deleting one. */
module Notifications {
  import opened Common
  import opened Paging

  datatype NotificationType =
    FriendRequest | FriendAccept | FriendReject | Like | CommentOn | Mention | Job | System | Repost

  /** The enum value stored for each type. */
  function TypeName(t: NotificationType): string {
    match t
    case FriendRequest => "friend_request"
    case FriendAccept => "friend_accept"
    case FriendReject => "friend_reject"
    case Like => "like"
    case CommentOn => "comment"
    case Mention => "mention"
    case Job => "job"
    case System => "system"
    case Repost => "repost"
  }

  /** Enum validation of the `type` field: the type a stored string denotes, if any. */
  function ParseType(s: string): (r: Option<NotificationType>)
    ensures r.Some? ==> TypeName(r.value) == s
  {
    if s == "friend_request" then Some(FriendRequest)
    else if s == "friend_accept" then Some(FriendAccept)
    else if s == "friend_reject" then Some(FriendReject)
    else if s == "like" then Some(Like)
    else if s == "comment" then Some(CommentOn)
    else if s == "mention" then Some(Mention)
    else if s == "job" then Some(Job)
    else if s == "system" then Some(System)
    else if s == "repost" then Some(Repost)
    else None
  }

  /** Every type's name passes validation and denotes that type again: the names are
      distinct, and 'system', which the friend-cancel handler uses, is one of them. */
  lemma TypeNamesRoundTrip(t: NotificationType)
    ensures ParseType(TypeName(t)) == Some(t)
    ensures ParseType("system") == Some(System)
  {
    match t
    case FriendRequest =>
    case FriendAccept =>
      assert TypeName(t)[7] != "friend_request"[7];
    case FriendReject =>
      assert TypeName(t)[9] != "friend_request"[9] && TypeName(t)[7] != "friend_accept"[7];
    case Like =>
    case CommentOn =>
    case Mention =>
    case Job =>
    case System =>
    case Repost =>
  }

  /** A stored notification; only `recipient` and `type` are required. */
  datatype Notification = Notification(
    id: Id,
    recipient: Id,
    sender: Option<Id>,
    kind: NotificationType,
    content: Option<string>,
    link: Option<string>,
    repost: Option<Id>,
    isRead: bool,
    createdAt: int)

  /** A record as createNotification stores it: the given fields, unread. */
  function NewNotification(id: Id, recipient: Id, sender: Option<Id>, kind: NotificationType,
                           content: Option<string>, link: Option<string>, repost: Option<Id>, now: int): (n: Notification)
    ensures n.recipient == recipient && n.sender == sender && n.kind == kind
    ensures n.content == content && n.link == link && n.repost == repost
    ensures !n.isRead && n.id == id && n.createdAt == now
  {
    Notification(id, recipient, sender, kind, content, link, repost, false, now)
  }

  /** The notifications collection. */
  class NotificationCollection {
    var docs: seq<Notification>

    constructor ()
      ensures docs == []
    {
      docs := [];
    }
  }

  /** createNotification: saves one unread record and returns it. */
  method CreateNotification(store: NotificationCollection, id: Id, recipient: Id, sender: Option<Id>,
                            kind: NotificationType, content: Option<string>, link: Option<string>,
                            repost: Option<Id>, now: int) returns (n: Notification)
    modifies store
    ensures n == NewNotification(id, recipient, sender, kind, content, link, repost, now)
    ensures store.docs == old(store.docs) + [n]
  {
    n := Notification(id, recipient, sender, kind, content, link, repost, false, now);
    store.docs := store.docs + [n];
  }

  // ---------------------------------------------------------------------------
  // Reading
  // ---------------------------------------------------------------------------

  function CreatedAt(n: Notification): int {
    n.createdAt
  }

  /** getUserNotifications: the caller's notifications, newest first. */
  function UserNotifications(docs: seq<Notification>, uid: Id): (r: seq<Notification>)
    ensures forall n :: n in r <==> n in docs && n.recipient == uid
    ensures SortedDesc(r, CreatedAt)
    ensures multiset(r) == multiset(Select(docs, (n: Notification) => n.recipient == uid))
  {
    var mine := Select(docs, (n: Notification) => n.recipient == uid);
    var r := SortDesc(mine, CreatedAt);
    assert forall n :: n in r <==> n in mine by {
      forall n ensures n in r <==> n in mine {
        assert n in r <==> multiset(r)[n] > 0;
        assert n in mine <==> multiset(mine)[n] > 0;
      }
    }
    r
  }

  predicate UnreadFor(n: Notification, uid: Id) {
    n.recipient == uid && !n.isRead
  }

  /** countDocuments({ recipient: uid, isRead: false }) */
  function UnreadCount(docs: seq<Notification>, uid: Id): nat {
    |Select(docs, (n: Notification) => UnreadFor(n, uid))|
  }

  // ---------------------------------------------------------------------------
  // Writing
  // ---------------------------------------------------------------------------

  /** The position of the record findByIdAndUpdate / findByIdAndDelete reaches. */
  function FindNotification(docs: seq<Notification>, id: Id): (r: Option<nat>)
    ensures r.Some? ==> r.value < |docs| && docs[r.value].id == id
    ensures r.Some? ==> forall k :: 0 <= k < r.value ==> docs[k].id != id
    ensures r.None? ==> forall k :: 0 <= k < |docs| ==> docs[k].id != id
    decreases |docs|
  {
    if docs == [] then None
    else if docs[0].id == id then Some(0)
    else
      var r := FindNotification(docs[1..], id);
      if r.None? then None else Some(r.value + 1)
  }

  /** What markAsRead answers and the collection it leaves. */
  datatype MarkStep = MarkStep(reply: Result<Notification>, docs: seq<Notification>)

  /** markAsRead: a malformed id fails the cast (500), an unknown id is NotFound;
      otherwise that one record becomes read and is returned. The caller is not
      compared with the recipient. */
  function MarkAsReadStep(docs: seq<Notification>, param: string): (s: MarkStep)
    ensures s.reply.Err? ==> s.docs == docs
    ensures s.reply == Err(Internal) <==> CastId(param).None?
    ensures s.reply == Err(NotFound) <==> CastId(param).Some? && FindNotification(docs, CastId(param).value).None?
    ensures s.reply.Ok? ==> |s.docs| == |docs| && s.reply.value.isRead && s.reply.value.id == CastId(param).value
    ensures s.reply.Ok? ==> forall k :: 0 <= k < |docs| ==>
      s.docs[k] == (if k == FindNotification(docs, CastId(param).value).value then docs[k].(isRead := true) else docs[k])
  {
    var id := CastId(param);
    if id.None? then MarkStep(Err(Internal), docs)
    else
      var i := FindNotification(docs, id.value);
      if i.None? then MarkStep(Err(NotFound), docs)
      else
        var n := docs[i.value].(isRead := true);
        MarkStep(Ok(n), docs[i.value := n])
  }

  method MarkAsRead(store: NotificationCollection, param: string) returns (r: Result<Notification>)
    modifies store
    ensures r == MarkAsReadStep(old(store.docs), param).reply
    ensures store.docs == MarkAsReadStep(old(store.docs), param).docs
  {
    var id := CastId(param);
    if id.None? {
      return Err(Internal);
    }
    var i := FindNotification(store.docs, id.value);
    if i.None? {
      return Err(NotFound);
    }
    var n := store.docs[i.value];
    n := n.(isRead := true);
    store.docs := store.docs[i.value := n];
    return Ok(n);
  }

  /** Marking the same notification twice leaves what marking it once left. */
  lemma MarkAsReadIdempotent(docs: seq<Notification>, param: string)
    requires MarkAsReadStep(docs, param).reply.Ok?
    ensures MarkAsReadStep(MarkAsReadStep(docs, param).docs, param).docs == MarkAsReadStep(docs, param).docs
  {
    var id := CastId(param).value;
    var once := MarkAsReadStep(docs, param).docs;
    var i := FindNotification(docs, id).value;
    assert FindNotification(once, id) == Some(i) by {
      assert once[i].id == id;
      forall k | 0 <= k < i ensures once[k].id != id {
        assert once[k] == docs[k];
      }
    }
  }

  /** The record updateMany({ recipient: uid, isRead: false }, { isRead: true }) leaves. */
  function ReadIfUnread(n: Notification, uid: Id): Notification {
    if UnreadFor(n, uid) then n.(isRead := true) else n
  }

  /** The collection after markAllAsRead for uid, record by record. */
  function ReadAll(docs: seq<Notification>, uid: Id): (r: seq<Notification>)
    ensures |r| == |docs|
    ensures forall k :: 0 <= k < |docs| ==> r[k] == ReadIfUnread(docs[k], uid)
  {
    seq(|docs|, k requires 0 <= k < |docs| => ReadIfUnread(docs[k], uid))
  }

  /** markAllAsRead: the `userId` route parameter is cast (a malformed one answers 500
      and changes nothing); then every unread record of that user is marked read.
      As with markAsRead, nothing relates the parameter to the caller. */
  method MarkAllAsRead(store: NotificationCollection, param: string) returns (r: Result<()>)
    modifies store
    ensures CastId(param).None? ==> r == Err(Internal) && store.docs == old(store.docs)
    ensures CastId(param).Some? ==> r == Ok(()) && store.docs == ReadAll(old(store.docs), CastId(param).value)
  {
    var uid := CastId(param);
    if uid.None? {
      return Err(Internal);
    }
    var i := 0;
    while i < |store.docs|
      invariant 0 <= i <= |store.docs| == |old(store.docs)|
      invariant forall k :: 0 <= k < i ==> store.docs[k] == ReadIfUnread(old(store.docs)[k], uid.value)
      invariant forall k :: i <= k < |store.docs| ==> store.docs[k] == old(store.docs)[k]
    {
      if store.docs[i].recipient == uid.value && !store.docs[i].isRead {
        store.docs := store.docs[i := store.docs[i].(isRead := true)];
      }
      i := i + 1;
    }
    return Ok(());
  }

  /** After markAllAsRead for uid nothing of uid's is unread; other users'
      notifications are exactly as before, and uid's differ at most in isRead. */
  lemma ReadAllClearsUnread(docs: seq<Notification>, uid: Id)
    ensures UnreadCount(ReadAll(docs, uid), uid) == 0
    ensures forall k :: 0 <= k < |docs| && docs[k].recipient != uid ==> ReadAll(docs, uid)[k] == docs[k]
    ensures forall k :: 0 <= k < |docs| ==> ReadAll(docs, uid)[k] == docs[k].(isRead := ReadAll(docs, uid)[k].isRead)
  {
    var r := ReadAll(docs, uid);
    forall n | n in r ensures !UnreadFor(n, uid) {
      var k :| 0 <= k < |r| && r[k] == n;
    }
    SelectNone(r, (n: Notification) => UnreadFor(n, uid));
  }

  /** deleteNotification: a malformed id answers 500, an unknown id NotFound; otherwise
      exactly that record is removed. */
  function DeleteStep(docs: seq<Notification>, param: string): (s: MarkStep)
    ensures s.reply.Err? ==> s.docs == docs
    ensures s.reply == Err(Internal) <==> CastId(param).None?
    ensures s.reply == Err(NotFound) <==> CastId(param).Some? && FindNotification(docs, CastId(param).value).None?
    ensures s.reply.Ok? ==> s.reply.value in docs && s.reply.value.id == CastId(param).value
    ensures s.reply.Ok? ==> multiset(s.docs) + multiset{s.reply.value} == multiset(docs)
  {
    var id := CastId(param);
    if id.None? then MarkStep(Err(Internal), docs)
    else
      var i := FindNotification(docs, id.value);
      if i.None? then MarkStep(Err(NotFound), docs)
      else
        var k := i.value;
        assert docs == docs[..k] + [docs[k]] + docs[k + 1..];
        MarkStep(Ok(docs[k]), docs[..k] + docs[k + 1..])
  }

  method DeleteNotification(store: NotificationCollection, param: string) returns (r: Result<Notification>)
    modifies store
    ensures r == DeleteStep(old(store.docs), param).reply
    ensures store.docs == DeleteStep(old(store.docs), param).docs
  {
    var id := CastId(param);
    if id.None? {
      return Err(Internal);
    }
    var i := FindNotification(store.docs, id.value);
    if i.None? {
      return Err(NotFound);
    }
    r := Ok(store.docs[i.value]);
    store.docs := store.docs[..i.value] + store.docs[i.value + 1..];
  }

  /** With unique ids, a deleted notification is gone: deleting it again is NotFound. */
  lemma DeleteRemovesIt(docs: seq<Notification>, param: string)
    requires forall a, b :: 0 <= a < b < |docs| ==> docs[a].id != docs[b].id
    requires DeleteStep(docs, param).reply.Ok?
    ensures DeleteStep(DeleteStep(docs, param).docs, param).reply == Err(NotFound)
  {
    var id := CastId(param).value;
    var k := FindNotification(docs, id).value;
    var rest := DeleteStep(docs, param).docs;
    assert rest == docs[..k] + docs[k + 1..];
    forall m | 0 <= m < |rest| ensures rest[m].id != id {
      if m < k {
        assert rest[m] == docs[m];
      } else {
        assert rest[m] == docs[m + 1];
      }
    }
  }
}
