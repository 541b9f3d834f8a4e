/** getNavbarCounts: the three badges of the navigation bar. */
module Navbar {
  import opened Common
  import opened Paging
  import opened Users
  import opened Notifications

  datatype Counts = Counts(notifications: nat, chats: nat, friendRequests: nat)

  /** Unread notifications addressed to the caller, a chat count that is always zero,
      and the caller's pending received requests (zero for a missing user). */
  function NavbarCounts(notes: seq<Notification>, users: map<Id, User>, uid: Id): (r: Counts)
    ensures r.chats == 0
    ensures r.notifications <= |notes|
    ensures r.notifications == |set k | 0 <= k < |notes| && UnreadFor(notes[k], uid)|
    ensures r.notifications == 0 <==> forall n :: n in notes ==> !UnreadFor(n, uid)
    ensures r.friendRequests == if uid in users then |users[uid].received| else 0
  {
    var unread := UnreadCount(notes, uid);
    SelectCountsPositions(notes, (n: Notification) => UnreadFor(n, uid));
    assert Positions(notes, (n: Notification) => UnreadFor(n, uid))
        == (set k | 0 <= k < |notes| && UnreadFor(notes[k], uid));
    assert unread == 0 <==> forall n :: n in notes ==> !UnreadFor(n, uid) by {
      var s := Select(notes, (n: Notification) => UnreadFor(n, uid));
      if s != [] {
        assert s[0] in s;
      }
    }
    Counts(unread, 0, if uid in users then |users[uid].received| else 0)
  }

  /** Right after marking all of the caller's notifications read, the notification
      badge shows zero and the other two badges are unaffected. */
  lemma BadgeClearedByMarkAll(notes: seq<Notification>, users: map<Id, User>, uid: Id)
    ensures NavbarCounts(ReadAll(notes, uid), users, uid).notifications == 0
    ensures NavbarCounts(ReadAll(notes, uid), users, uid).friendRequests == NavbarCounts(notes, users, uid).friendRequests
  {
    ReadAllClearsUnread(notes, uid);
  }

  /** A new notification to the caller raises the badge by one. */
  lemma NewNotificationRaisesBadge(notes: seq<Notification>, users: map<Id, User>, id: Id, uid: Id,
                                   sender: Option<Id>, kind: NotificationType, content: Option<string>,
                                   link: Option<string>, repost: Option<Id>, now: int)
    ensures var n := NewNotification(id, uid, sender, kind, content, link, repost, now);
            NavbarCounts(notes + [n], users, uid).notifications == NavbarCounts(notes, users, uid).notifications + 1
  {
    var n := NewNotification(id, uid, sender, kind, content, link, repost, now);
    SelectAppend(notes, n, (m: Notification) => UnreadFor(m, uid));
  }
}
