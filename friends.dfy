/** The friend-request state machine: send, accept, reject and cancel rewrite the
    relationship lists of two users; the suggestion and request-list reads filter them.
    Two versions of the controller exist; `notify` selects the current one, which also
    records a notification, over the earlier one, which does not. */
module Friends {
  import opened Common
  import opened Paging
  import opened Users
  import opened Notifications

  /** What a friend handler answers, the users it leaves and the notifications it adds. */
  datatype FriendStep = FriendStep(reply: Result<()>, users: map<Id, User>, notes: seq<Notification>)

  // ---------------------------------------------------------------------------
  // Saving one field of a loaded document
  // ---------------------------------------------------------------------------

  function WithSent(m: map<Id, User>, a: Id, s: seq<Id>): (r: map<Id, User>)
    requires a in m
    ensures r.Keys == m.Keys && r[a] == m[a].(sent := s)
    ensures forall b :: b in m && b != a ==> r[b] == m[b]
  {
    m[a := m[a].(sent := s)]
  }

  function WithReceived(m: map<Id, User>, a: Id, s: seq<Id>): (r: map<Id, User>)
    requires a in m
    ensures r.Keys == m.Keys && r[a] == m[a].(received := s)
    ensures forall b :: b in m && b != a ==> r[b] == m[b]
  {
    m[a := m[a].(received := s)]
  }

  /** A request from c to t: c's sent list and t's received list each gain the other. */
  function AddRequest(m: map<Id, User>, c: Id, t: Id): (r: map<Id, User>)
    requires c in m && t in m
    ensures r.Keys == m.Keys
    ensures c != t ==> r[c] == m[c].(sent := m[c].sent + [t]) && r[t] == m[t].(received := m[t].received + [c])
    ensures forall a :: a in m && a != c && a != t ==> r[a] == m[a]
  {
    WithReceived(WithSent(m, c, m[c].sent + [t]), t, m[t].received + [c])
  }

  /** The request from `from` to `to` withdrawn from both pending lists. */
  function RemoveRequest(m: map<Id, User>, from: Id, to: Id): (r: map<Id, User>)
    requires from in m && to in m
    ensures r.Keys == m.Keys
    ensures from != to ==> r[from] == m[from].(sent := Without(m[from].sent, to))
                           && r[to] == m[to].(received := Without(m[to].received, from))
    ensures forall a :: a in m && a != from && a != to ==> r[a] == m[a]
  {
    WithReceived(WithSent(m, from, Without(m[from].sent, to)), to, Without(m[to].received, from))
  }

  /** c accepts r's request: each joins the other's connections, and the request
      leaves c's received list and r's sent list. Each document is saved with the
      fields its handler changed, the requester's last. */
  function Connect(m: map<Id, User>, c: Id, r: Id): (res: map<Id, User>)
    requires c in m && r in m
    ensures res.Keys == m.Keys
    ensures c != r ==> res[c] == m[c].(connections := m[c].connections + [r], received := Without(m[c].received, r))
                       && res[r] == m[r].(connections := m[r].connections + [c], sent := Without(m[r].sent, c))
    ensures forall a :: a in m && a != c && a != r ==> res[a] == m[a]
  {
    var m1 := m[c := m[c].(connections := m[c].connections + [r], received := Without(m[c].received, r))];
    m1[r := m1[r].(connections := m[r].connections + [c], sent := Without(m[r].sent, c))]
  }

  /** A notification the friend handlers record, when the variant records one. */
  function FriendNote(notify: bool, noteId: Id, to: Id, from: Id, kind: NotificationType,
                      text: string, now: int): (ns: seq<Notification>)
    ensures notify <==> |ns| == 1
    ensures !notify ==> ns == []
    ensures notify ==> ns[0] == NewNotification(noteId, to, Some(from), kind, Some(text), Some("/profile/" + from), None, now)
  {
    if notify then [NewNotification(noteId, to, Some(from), kind, Some(text), Some("/profile/" + from), None, now)]
    else []
  }

  /** The texts after the actor's name in the four friend notifications. */
  const SentText: string := " sent you a friend request"
  const AcceptedText: string := " accepted your friend request"
  const RejectedText: string := " rejected your friend request"
  const CancelledText: string := " cancelled the friend request"

  // ---------------------------------------------------------------------------
  // Send
  // ---------------------------------------------------------------------------

  /** handleSendFriendRequest. The self check and the three conflict checks compare
      the caller's stored ids with the target parameter as typed, while the lookup
      casts the parameter. */
  function SendStep(m: map<Id, User>, caller: Option<Id>, target: string, notify: bool,
                    noteId: Id, now: int): (s: FriendStep)
    ensures s.reply.Err? ==> s.users == m && s.notes == []
    ensures caller.None? ==> s.reply == Err(Unauthorized)
    ensures caller.Some? && (!IsObjectIdText(target) || caller.value == target) ==> s.reply == Err(BadRequest)
    ensures s.reply == Err(NotFound) <==>
              (caller.Some? && IsObjectIdText(target) && caller.value != target
               && (Lower(target) !in m || caller.value !in m))
    ensures s.reply == Err(Conflict) <==>
              (caller.Some? && IsObjectIdText(target) && caller.value != target
               && Lower(target) in m && caller.value in m
               && (target in m[caller.value].connections || target in m[caller.value].sent
                   || target in m[caller.value].received))
    ensures s.reply.Ok? <==>
              (caller.Some? && IsObjectIdText(target) && caller.value != target
               && Lower(target) in m && caller.value in m
               && target !in m[caller.value].connections && target !in m[caller.value].sent
               && target !in m[caller.value].received)
    ensures s.reply.Ok? ==> caller.Some? && CastId(target).Some? && CastId(target).value in m && caller.value in m
    ensures s.reply.Ok? ==>
              var c := caller.value;
              var t := CastId(target).value;
              s.users == AddRequest(m, c, t)
              && s.notes == FriendNote(notify, noteId, t, c, FriendRequest, m[c].fullName + SentText, now)
    ensures s.reply.Ok? ==> s.users.Keys == m.Keys
  {
    if caller.None? then FriendStep(Err(Unauthorized), m, [])
    else if !IsObjectIdText(target) then FriendStep(Err(BadRequest), m, [])
    else if caller.value == target then FriendStep(Err(BadRequest), m, [])
    else
      var c := caller.value;
      var t := CastId(target).value;
      if t !in m || c !in m then FriendStep(Err(NotFound), m, [])
      else if target in m[c].connections || target in m[c].sent || target in m[c].received then
        FriendStep(Err(Conflict), m, [])
      else
        FriendStep(Ok(()), AddRequest(m, c, t), FriendNote(notify, noteId, t, c, FriendRequest,
                                          m[c].fullName + SentText, now))
  }

  method HandleSendFriendRequest(users: UserCollection, notes: NotificationCollection, caller: Option<Id>,
                                 target: string, notify: bool, noteId: Id, now: int) returns (r: Result<()>)
    modifies users, notes
    ensures r == SendStep(old(users.docs), caller, target, notify, noteId, now).reply
    ensures users.docs == SendStep(old(users.docs), caller, target, notify, noteId, now).users
    ensures notes.docs == old(notes.docs) + SendStep(old(users.docs), caller, target, notify, noteId, now).notes
    ensures users.order == old(users.order)
  {
    if caller.None? {
      return Err(Unauthorized);
    }
    if !IsObjectIdText(target) {
      return Err(BadRequest);
    }
    var c := caller.value;
    if c == target {
      return Err(BadRequest);
    }
    var t := CastId(target).value;
    if t !in users.docs {
      return Err(NotFound);
    }
    var targetUser := users.docs[t];
    if c !in users.docs {
      return Err(NotFound);
    }
    var currentUser := users.docs[c];
    if target in currentUser.connections || target in currentUser.sent || target in currentUser.received {
      return Err(Conflict);
    }
    // One transaction: both documents are saved or neither.
    currentUser := currentUser.(sent := currentUser.sent + [t]);
    targetUser := targetUser.(received := targetUser.received + [c]);
    users.docs := users.docs[c := users.docs[c].(sent := currentUser.sent)];
    users.docs := users.docs[t := users.docs[t].(received := targetUser.received)];
    if notify {
      var n := CreateNotification(notes, noteId, t, Some(c), FriendRequest,
                                  Some(currentUser.fullName + SentText),
                                  Some("/profile/" + c), None, now);
    }
    return Ok(());
  }

  /** Send with the self and conflict checks made on the cast id, as the handler
      evidently intends: the same on a canonical parameter, and a self request or a
      repeated request can no longer slip through in another letter case. */
  function SendFixedStep(m: map<Id, User>, caller: Option<Id>, target: string, notify: bool,
                         noteId: Id, now: int): (s: FriendStep)
    ensures s.reply.Err? ==> s.users == m && s.notes == []
    ensures s.reply.Ok? <==>
              (caller.Some? && IsObjectIdText(target) && caller.value != Lower(target)
               && caller.value in m && Lower(target) in m
               && Lower(target) !in m[caller.value].connections && Lower(target) !in m[caller.value].sent
               && Lower(target) !in m[caller.value].received)
    ensures s.reply.Ok? ==> caller.Some? && CastId(target).Some? && CastId(target).value in m && caller.value in m
    ensures s.reply.Ok? ==>
              var c := caller.value;
              var t := CastId(target).value;
              s.users == AddRequest(m, c, t)
              && s.notes == FriendNote(notify, noteId, t, c, FriendRequest, m[c].fullName + SentText, now)
    ensures s.reply.Ok? ==> s.users.Keys == m.Keys
  {
    if caller.None? then FriendStep(Err(Unauthorized), m, [])
    else if !IsObjectIdText(target) then FriendStep(Err(BadRequest), m, [])
    else
      var c := caller.value;
      var t := CastId(target).value;
      if c == t then FriendStep(Err(BadRequest), m, [])
      else if t !in m || c !in m then FriendStep(Err(NotFound), m, [])
      else if t in m[c].connections || t in m[c].sent || t in m[c].received then
        FriendStep(Err(Conflict), m, [])
      else
        FriendStep(Ok(()), AddRequest(m, c, t), FriendNote(notify, noteId, t, c, FriendRequest,
                                          m[c].fullName + SentText, now))
  }

  /** On a parameter already in canonical form the two sends agree. */
  lemma SendFixedAgreesOnCanonical(m: map<Id, User>, caller: Option<Id>, target: string, notify: bool,
                                   noteId: Id, now: int)
    requires IsCanonicalId(target)
    ensures SendFixedStep(m, caller, target, notify, noteId, now) == SendStep(m, caller, target, notify, noteId, now)
  {
    assert CastId(target) == Some(target);
  }

  // ---------------------------------------------------------------------------
  // Accept, reject, cancel
  // ---------------------------------------------------------------------------

  /** The checks accept and reject share: the requester parameter is required and cast
      (a malformed one throws, 500), both users must exist, and the requester, as
      typed, must be in the caller's received requests. On success: the caller's id and
      the requester's. */
  function AnswerGuard(m: map<Id, User>, caller: Option<Id>, requester: string): (r: Result<(Id, Id)>)
    ensures caller.None? ==> r == Err(Unauthorized)
    ensures caller.Some? && requester == "" ==> r == Err(BadRequest)
    ensures caller.Some? && requester != "" && CastId(requester).None? ==> r == Err(Internal)
    ensures r.Ok? <==> caller.Some? && caller.value in m && requester in m[caller.value].received
                       && CastId(requester).Some? && CastId(requester).value in m
    ensures r.Ok? ==> r.value.0 == caller.value && r.value.1 == requester
    ensures r.Err? ==> r.status in {Unauthorized, BadRequest, Internal, NotFound}
  {
    if caller.None? then Err(Unauthorized)
    else if requester == "" then Err(BadRequest)
    else if CastId(requester).None? then Err(Internal)
    else
      var c := caller.value;
      var r := CastId(requester).value;
      if c !in m || r !in m then Err(NotFound)
      else if requester !in m[c].received then Err(NotFound)
      else Ok((c, r))
  }

  /** handleAcceptFriendRequest: each user joins the other's connections, and the
      request leaves the caller's received list and the requester's sent list. */
  function AcceptStep(m: map<Id, User>, caller: Option<Id>, requester: string, notify: bool,
                      noteId: Id, now: int): (s: FriendStep)
    ensures s.reply.Err? ==> s.users == m && s.notes == []
    ensures s.reply.Ok? <==> AnswerGuard(m, caller, requester).Ok?
    ensures s.reply.Err? ==> s.reply == Err(AnswerGuard(m, caller, requester).status)
    ensures s.reply.Ok? ==>
              var (c, r) := AnswerGuard(m, caller, requester).value;
              s.users == Connect(m, c, r)
              && s.notes == FriendNote(notify, noteId, r, c, FriendAccept, m[c].fullName + AcceptedText, now)
    ensures s.reply.Ok? ==> s.users.Keys == m.Keys
  {
    var g := AnswerGuard(m, caller, requester);
    if g.Err? then FriendStep(Err(g.status), m, [])
    else
      // The guard found the parameter in a list of stored ids, so it is the requester's id as typed.
      var (c, r) := g.value;
      FriendStep(Ok(()), Connect(m, c, r), FriendNote(notify, noteId, r, c, FriendAccept,
                                        m[c].fullName + AcceptedText, now))
  }

  method HandleAcceptFriendRequest(users: UserCollection, notes: NotificationCollection, caller: Option<Id>,
                                   requester: string, notify: bool, noteId: Id, now: int) returns (res: Result<()>)
    modifies users, notes
    ensures res == AcceptStep(old(users.docs), caller, requester, notify, noteId, now).reply
    ensures users.docs == AcceptStep(old(users.docs), caller, requester, notify, noteId, now).users
    ensures notes.docs == old(notes.docs) + AcceptStep(old(users.docs), caller, requester, notify, noteId, now).notes
    ensures users.order == old(users.order)
  {
    var g := AnswerGuard(users.docs, caller, requester);
    if g.Err? {
      return Err(g.status);
    }
    // The guard found the parameter among stored ids, so it is r as typed.
    var (c, r) := g.value;
    var currentUser := users.docs[c];
    var requesterUser := users.docs[r];
    currentUser := currentUser.(connections := currentUser.connections + [r]);
    requesterUser := requesterUser.(connections := requesterUser.connections + [c]);
    var received := RemoveAll(currentUser.received, r);
    currentUser := currentUser.(received := received);
    var sent := RemoveAll(requesterUser.sent, c);
    requesterUser := requesterUser.(sent := sent);
    users.docs := users.docs[c := users.docs[c].(connections := currentUser.connections, received := currentUser.received)];
    users.docs := users.docs[r := users.docs[r].(connections := requesterUser.connections, sent := requesterUser.sent)];
    if notify {
      var n := CreateNotification(notes, noteId, r, Some(c), FriendAccept,
                                  Some(currentUser.fullName + AcceptedText),
                                  Some("/profile/" + c), None, now);
    }
    return Ok(());
  }

  /** handleRejectFriendRequest: the request leaves both pending lists; connections
      are untouched. */
  function RejectStep(m: map<Id, User>, caller: Option<Id>, requester: string, notify: bool,
                      noteId: Id, now: int): (s: FriendStep)
    ensures s.reply.Err? ==> s.users == m && s.notes == []
    ensures s.reply.Ok? <==> AnswerGuard(m, caller, requester).Ok?
    ensures s.reply.Err? ==> s.reply == Err(AnswerGuard(m, caller, requester).status)
    ensures s.reply.Ok? ==>
              var (c, r) := AnswerGuard(m, caller, requester).value;
              s.users == RemoveRequest(m, r, c)
              && s.notes == FriendNote(notify, noteId, r, c, FriendReject, m[c].fullName + RejectedText, now)
    ensures s.reply.Ok? ==> s.users.Keys == m.Keys
  {
    var g := AnswerGuard(m, caller, requester);
    if g.Err? then FriendStep(Err(g.status), m, [])
    else
      var (c, r) := g.value;
      FriendStep(Ok(()), RemoveRequest(m, r, c), FriendNote(notify, noteId, r, c, FriendReject,
                                        m[c].fullName + RejectedText, now))
  }

  method HandleRejectFriendRequest(users: UserCollection, notes: NotificationCollection, caller: Option<Id>,
                                   requester: string, notify: bool, noteId: Id, now: int) returns (res: Result<()>)
    modifies users, notes
    ensures res == RejectStep(old(users.docs), caller, requester, notify, noteId, now).reply
    ensures users.docs == RejectStep(old(users.docs), caller, requester, notify, noteId, now).users
    ensures notes.docs == old(notes.docs) + RejectStep(old(users.docs), caller, requester, notify, noteId, now).notes
    ensures users.order == old(users.order)
  {
    var g := AnswerGuard(users.docs, caller, requester);
    if g.Err? {
      return Err(g.status);
    }
    var (c, r) := g.value;
    var currentUser := users.docs[c];
    var requesterUser := users.docs[r];
    var received := RemoveAll(currentUser.received, r);
    var sent := RemoveAll(requesterUser.sent, c);
    ghost var before := users.docs;
    users.docs := users.docs[c := users.docs[c].(received := received)];
    users.docs := users.docs[r := users.docs[r].(sent := sent)];
    assert users.docs == RemoveRequest(before, r, c) by {
      var expected := RemoveRequest(before, r, c);
      assert users.docs.Keys == expected.Keys;
      forall a | a in expected ensures users.docs[a] == expected[a] {
        if a == c && a == r {
          assert expected[a] == before[a].(sent := sent, received := received);
        }
      }
    }
    if notify {
      var n := CreateNotification(notes, noteId, r, Some(c), FriendReject,
                                  Some(currentUser.fullName + RejectedText),
                                  Some("/profile/" + c), None, now);
    }
    return Ok(());
  }

  /** The checks of cancel: as for accept, but the target, as typed, must be in the
      caller's sent requests. */
  function CancelGuard(m: map<Id, User>, caller: Option<Id>, target: string): (r: Result<(Id, Id)>)
    ensures caller.None? ==> r == Err(Unauthorized)
    ensures caller.Some? && target == "" ==> r == Err(BadRequest)
    ensures caller.Some? && target != "" && CastId(target).None? ==> r == Err(Internal)
    ensures r.Ok? <==> caller.Some? && caller.value in m && target in m[caller.value].sent
                       && CastId(target).Some? && CastId(target).value in m
    ensures r.Ok? ==> r.value.0 == caller.value && r.value.1 == target
    ensures r.Err? ==> r.status in {Unauthorized, BadRequest, Internal, NotFound}
  {
    if caller.None? then Err(Unauthorized)
    else if target == "" then Err(BadRequest)
    else if CastId(target).None? then Err(Internal)
    else
      var c := caller.value;
      var t := CastId(target).value;
      if c !in m || t !in m then Err(NotFound)
      else if target !in m[c].sent then Err(NotFound)
      else Ok((c, t))
  }

  /** handleCancelFriendRequest: the request leaves the caller's sent list and the
      target's received list; the notification is of type 'system'. */
  function CancelStep(m: map<Id, User>, caller: Option<Id>, target: string, notify: bool,
                      noteId: Id, now: int): (s: FriendStep)
    ensures s.reply.Err? ==> s.users == m && s.notes == []
    ensures s.reply.Ok? <==> CancelGuard(m, caller, target).Ok?
    ensures s.reply.Err? ==> s.reply == Err(CancelGuard(m, caller, target).status)
    ensures s.reply.Ok? ==>
              var (c, t) := CancelGuard(m, caller, target).value;
              s.users == RemoveRequest(m, c, t)
              && s.notes == FriendNote(notify, noteId, t, c, System, m[c].fullName + CancelledText, now)
    ensures s.reply.Ok? ==> s.users.Keys == m.Keys
  {
    var g := CancelGuard(m, caller, target);
    if g.Err? then FriendStep(Err(g.status), m, [])
    else
      var (c, t) := g.value;
      FriendStep(Ok(()), RemoveRequest(m, c, t), FriendNote(notify, noteId, t, c, System,
                                        m[c].fullName + CancelledText, now))
  }

  method HandleCancelFriendRequest(users: UserCollection, notes: NotificationCollection, caller: Option<Id>,
                                   target: string, notify: bool, noteId: Id, now: int) returns (res: Result<()>)
    modifies users, notes
    ensures res == CancelStep(old(users.docs), caller, target, notify, noteId, now).reply
    ensures users.docs == CancelStep(old(users.docs), caller, target, notify, noteId, now).users
    ensures notes.docs == old(notes.docs) + CancelStep(old(users.docs), caller, target, notify, noteId, now).notes
    ensures users.order == old(users.order)
  {
    var g := CancelGuard(users.docs, caller, target);
    if g.Err? {
      return Err(g.status);
    }
    var (c, t) := g.value;
    var currentUser := users.docs[c];
    var targetUser := users.docs[t];
    var sent := RemoveAll(currentUser.sent, t);
    var received := RemoveAll(targetUser.received, c);
    users.docs := users.docs[c := users.docs[c].(sent := sent)];
    users.docs := users.docs[t := users.docs[t].(received := received)];
    if notify {
      var n := CreateNotification(notes, noteId, t, Some(c), System,
                                  Some(currentUser.fullName + CancelledText),
                                  Some("/profile/" + c), None, now);
    }
    return Ok(());
  }

  // ---------------------------------------------------------------------------
  // Reads
  // ---------------------------------------------------------------------------

  /** The exclusion list: the caller, their connections and both pending lists. */
  function Excluded(m: map<Id, User>, c: Id): seq<Id>
    requires c in m
  {
    [c] + m[c].connections + m[c].sent + m[c].received
  }

  /** `User.find({ _id: { $nin: excluded }, isActive: true })`, in collection order. */
  function Candidates(m: map<Id, User>, order: seq<Id>, excluded: seq<Id>): (r: seq<Id>)
    ensures forall u :: u in r <==> u in order && u in m && u !in excluded && m[u].isActive
  {
    Select(order, (u: Id) => u in m && u !in excluded && m[u].isActive)
  }

  datatype SuggestionPage = SuggestionPage(data: seq<Id>, total: nat, page: int, totalPages: int, limit: int)

  /** handleGetPeopleYouMayKnow (both versions): a missing caller is NotFound; a page
      that makes the skip negative makes the query fail (500). */
  function PeopleYouMayKnow(m: map<Id, User>, order: seq<Id>, caller: Id,
                            pageQuery: Option<int>, limitQuery: Option<int>): (r: Result<SuggestionPage>)
    ensures caller !in m ==> r == Err(NotFound)
    ensures caller in m ==> (r.Err? <==> SkipFor(QueryOr(pageQuery, 1), QueryOr(limitQuery, 10)) < 0)
    ensures caller in m && r.Err? ==> r == Err(Internal)
    ensures r.Ok? ==> caller in m
    ensures r.Ok? ==>
              var candidates := Candidates(m, order, Excluded(m, caller));
              var skip := SkipFor(r.value.page, r.value.limit);
              r.value.page == QueryOr(pageQuery, 1) && r.value.limit == QueryOr(limitQuery, 10)
              && r.value.total == |candidates|
              && PageAt(r.value.data, candidates, skip, r.value.limit)
    ensures r.Ok? ==> forall u :: u in r.value.data ==>
                        (u in m && m[u].isActive && u != caller
                         && u !in m[caller].connections && u !in m[caller].sent && u !in m[caller].received)
    ensures r.Ok? ==> |r.value.data| <= Abs(r.value.limit) && r.value.limit != 0
    ensures r.Ok? ==> r.value.limit > 0 ==> (r.value.totalPages - 1) * r.value.limit < r.value.total <= r.value.totalPages * r.value.limit
  {
    if caller !in m then Err(NotFound)
    else
      var page := QueryOr(pageQuery, 1);
      var limit := QueryOr(limitQuery, 10);
      var skip := SkipFor(page, limit);
      var candidates := Candidates(m, order, Excluded(m, caller));
      var total := |candidates|;
      var w := Window(candidates, skip, limit);
      if w.None? then Err(Internal)
      else
        assert forall u :: u in w.value ==> u in candidates by {
          forall u | u in w.value ensures u in candidates {
            var k :| 0 <= k < |w.value| && w.value[k] == u;
            assert candidates[skip + k] == u;
          }
        }
        Ok(SuggestionPage(w.value, total, page, CeilDiv(total, limit), limit))
  }

  /** Every candidate is suggested on some page, for any positive limit. */
  lemma SuggestionsReachEveryCandidate(m: map<Id, User>, order: seq<Id>, caller: Id, limit: int, u: Id)
    returns (page: int)
    requires caller in m && limit > 0 && u in Candidates(m, order, Excluded(m, caller))
    ensures page >= 1 && PeopleYouMayKnow(m, order, caller, Some(page), Some(limit)).Ok?
    ensures u in PeopleYouMayKnow(m, order, caller, Some(page), Some(limit)).value.data
  {
    var candidates := Candidates(m, order, Excluded(m, caller));
    var j := PositionOf(candidates, u);
    page := j / limit + 1;
    PageOfPosition(j, limit);
    var r := PeopleYouMayKnow(m, order, caller, Some(page), Some(limit));
    var skip := SkipFor(page, limit);
    assert QueryOr(Some(page), 1) == page && QueryOr(Some(limit), 10) == limit;
    assert r.Ok?;
    assert PageAt(r.value.data, candidates, skip, limit);
    assert skip <= j < skip + Abs(limit);
    PageHolds(r.value.data, candidates, skip, limit, j);
  }

  /** The records `$sample` draws, given as positions into the matches (the draw
      itself is not modelled); a position past the end draws nothing. */
  function Drawn(matches: seq<Id>, picks: seq<nat>): (r: seq<Id>)
    ensures |r| <= |picks|
    ensures forall u :: u in r ==> u in matches
  {
    if picks == [] then []
    else (if picks[0] < |matches| then [matches[picks[0]]] else []) + Drawn(matches, picks[1..])
  }

  /** `$sample: { size: 10 }`: at most ten of the matches. */
  function Sample(matches: seq<Id>, picks: seq<nat>): (r: seq<Id>)
    ensures |r| <= 10
    ensures forall u :: u in r ==> u in matches
  {
    var ids := Drawn(matches, picks);
    if |ids| <= 10 then ids else ids[..10]
  }

  /** suggestedFriends as written: the aggregation's `$nin` is not cast, so the
      caller's own id, which arrives as a string, never matches a stored ObjectId; only
      the three lists exclude anyone. */
  function SuggestedFriendsAsWritten(m: map<Id, User>, order: seq<Id>, caller: Id, picks: seq<nat>): (r: Result<seq<Id>>)
    ensures caller !in m <==> r == Err(NotFound)
    ensures r.Ok? ==> |r.value| <= 10
    ensures r.Ok? ==> forall u :: u in r.value ==>
                        (u in m && m[u].isActive
                         && u !in m[caller].connections && u !in m[caller].sent && u !in m[caller].received)
  {
    if caller !in m then Err(NotFound)
    else Ok(Sample(Candidates(m, order, m[caller].connections + m[caller].sent + m[caller].received), picks))
  }

  /** suggestedFriends with the caller's id excluded as intended. */
  function SuggestedFriends(m: map<Id, User>, order: seq<Id>, caller: Id, picks: seq<nat>): (r: Result<seq<Id>>)
    ensures caller !in m <==> r == Err(NotFound)
    ensures r.Ok? ==> |r.value| <= 10
    ensures r.Ok? ==> forall u :: u in r.value ==>
                        (u in m && m[u].isActive && u != caller
                         && u !in m[caller].connections && u !in m[caller].sent && u !in m[caller].received)
  {
    if caller !in m then Err(NotFound)
    else Ok(Sample(Candidates(m, order, Excluded(m, caller)), picks))
  }

  /** An active caller with no relationships can be suggested to themselves. */
  lemma SuggestedFriendsIncludesCaller(c: Id)
    ensures var m := map[c := User("", true, [], [], [], [])];
            SuggestedFriendsAsWritten(m, [c], c, [0]) == Ok([c])
  {
    var m := map[c := User("", true, [], [], [], [])];
    var cands := Candidates(m, [c], m[c].connections + m[c].sent + m[c].received);
    assert cands == [c] by {
      assert [c][1..] == [];
    }
  }

  datatype RequestLists = RequestLists(received: seq<Id>, sent: seq<Id>)

  /** handleGetFriendRequests: both pending lists, populated (ids of users that no
      longer exist drop out). */
  function FriendRequests(m: map<Id, User>, caller: Option<Id>): (r: Result<RequestLists>)
    ensures caller.None? ==> r == Err(Unauthorized)
    ensures caller.Some? && caller.value !in m ==> r == Err(NotFound)
    ensures r.Ok? ==> forall u :: u in r.value.received <==> u in m[caller.value].received && u in m
    ensures r.Ok? ==> forall u :: u in r.value.sent <==> u in m[caller.value].sent && u in m
  {
    if caller.None? then Err(Unauthorized)
    else if caller.value !in m then Err(NotFound)
    else
      var u := m[caller.value];
      var stored := (x: Id) => x in m;
      var received := Select(u.received, stored);
      var sent := Select(u.sent, stored);
      assert forall x :: x in received <==> x in u.received && x in m;
      assert forall x :: x in sent <==> x in u.sent && x in m;
      Ok(RequestLists(received, sent))
  }
}
