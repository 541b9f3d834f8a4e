/** The relationship invariants the friend handlers are meant to keep between users,
    and which of the handlers keep them. */
module FriendGraph {
  import opened Common
  import opened Users
  import opened Friends

  /** Every sent request is mirrored in the target's received list. */
  predicate SentMirrored(m: map<Id, User>) {
    forall a, b :: a in m && b in m[a].sent ==> b in m && a in m[b].received
  }

  /** Every received request is mirrored in the sender's sent list. */
  predicate ReceivedMirrored(m: map<Id, User>) {
    forall a, b :: a in m && b in m[a].received ==> b in m && a in m[b].sent
  }

  /** Connections are mutual. */
  predicate ConnectionsSymmetric(m: map<Id, User>) {
    forall a, b :: a in m && b in m[a].connections ==> b in m && a in m[b].connections
  }

  /** Connected users have nothing pending between them. */
  predicate ConnectedNotPending(m: map<Id, User>) {
    forall a, b :: a in m && b in m[a].connections ==> b !in m[a].sent && b !in m[a].received
  }

  /** A pending request goes one way only. */
  predicate OneWayPending(m: map<Id, User>) {
    forall a, b :: a in m && b in m[a].sent ==> b !in m[a].received
  }

  /** Nobody is related to themselves. */
  predicate NoSelfEdges(m: map<Id, User>) {
    forall a :: a in m ==> a !in m[a].connections && a !in m[a].sent && a !in m[a].received
  }

  /** No list holds an id twice. */
  predicate ListsDistinct(m: map<Id, User>) {
    forall a :: a in m ==> NoDups(m[a].connections) && NoDups(m[a].sent) && NoDups(m[a].received)
  }

  predicate Consistent(m: map<Id, User>) {
    SentMirrored(m) && ReceivedMirrored(m) && ConnectionsSymmetric(m) && ConnectedNotPending(m)
    && OneWayPending(m) && NoSelfEdges(m) && ListsDistinct(m)
  }

  // Each invariant is carried across each list rewrite by its own lemma, so that
  // every proof sees only the invariant it needs.

  lemma AddRequestSentMirrored(m: map<Id, User>, c: Id, t: Id)
    requires SentMirrored(m) && c in m && t in m && c != t
    ensures SentMirrored(AddRequest(m, c, t))
  {
    var m2 := AddRequest(m, c, t);
    forall a, b | a in m2 && b in m2[a].sent ensures b in m2 && a in m2[b].received {
      if a != c || b != t { assert b in m[a].sent; }
    }
  }

  lemma AddRequestReceivedMirrored(m: map<Id, User>, c: Id, t: Id)
    requires ReceivedMirrored(m) && c in m && t in m && c != t
    ensures ReceivedMirrored(AddRequest(m, c, t))
  {
    var m2 := AddRequest(m, c, t);
    forall a, b | a in m2 && b in m2[a].received ensures b in m2 && a in m2[b].sent {
      if a != t || b != c { assert b in m[a].received; }
    }
  }

  lemma AddRequestConnections(m: map<Id, User>, c: Id, t: Id)
    requires ConnectionsSymmetric(m) && ConnectedNotPending(m) && NoSelfEdges(m)
    requires c in m && t in m && c != t
    requires t !in m[c].connections && c !in m[t].connections
    ensures var m2 := AddRequest(m, c, t);
            ConnectionsSymmetric(m2) && ConnectedNotPending(m2) && NoSelfEdges(m2)
  {
    var m2 := AddRequest(m, c, t);
    forall a, b | a in m2 && b in m2[a].connections ensures b in m2 && a in m2[b].connections {
      assert b in m[a].connections;
    }
    forall a, b | a in m2 && b in m2[a].connections ensures b !in m2[a].sent && b !in m2[a].received {
      assert b in m[a].connections;
    }
  }

  lemma AddRequestOneWay(m: map<Id, User>, c: Id, t: Id)
    requires OneWayPending(m) && c in m && t in m && c != t
    requires t !in m[c].received && c !in m[t].sent
    ensures OneWayPending(AddRequest(m, c, t))
  {
    var m2 := AddRequest(m, c, t);
    forall a, b | a in m2 && b in m2[a].sent ensures b !in m2[a].received {
      if a != c || b != t { assert b in m[a].sent; }
    }
  }

  lemma AddRequestDistinct(m: map<Id, User>, c: Id, t: Id)
    requires ListsDistinct(m) && c in m && t in m && c != t
    requires t !in m[c].sent && c !in m[t].received
    ensures ListsDistinct(AddRequest(m, c, t))
  {
    AppendFreshKeepsNoDups(m[c].sent, t);
    AppendFreshKeepsNoDups(m[t].received, c);
  }

  /** A new request between two unrelated users keeps the invariants. */
  lemma AddRequestKeepsGraph(m: map<Id, User>, c: Id, t: Id)
    requires Consistent(m) && c in m && t in m && c != t
    requires t !in m[c].connections && t !in m[c].sent && t !in m[c].received
    ensures Consistent(AddRequest(m, c, t))
  {
    assert c !in m[t].connections && c !in m[t].sent && c !in m[t].received;
    AddRequestSentMirrored(m, c, t);
    AddRequestReceivedMirrored(m, c, t);
    AddRequestConnections(m, c, t);
    AddRequestOneWay(m, c, t);
    AddRequestDistinct(m, c, t);
  }

  lemma RemoveRequestMirrored(m: map<Id, User>, from: Id, to: Id)
    requires SentMirrored(m) && ReceivedMirrored(m) && from in m && to in m && from != to
    ensures var m2 := RemoveRequest(m, from, to);
            SentMirrored(m2) && ReceivedMirrored(m2)
  {
    var m2 := RemoveRequest(m, from, to);
    forall a, b | a in m2 && b in m2[a].sent ensures b in m2 && a in m2[b].received {
      assert b in m[a].sent;
    }
    forall a, b | a in m2 && b in m2[a].received ensures b in m2 && a in m2[b].sent {
      assert b in m[a].received;
    }
  }

  lemma RemoveRequestRest(m: map<Id, User>, from: Id, to: Id)
    requires ConnectionsSymmetric(m) && ConnectedNotPending(m) && OneWayPending(m) && NoSelfEdges(m)
    requires from in m && to in m && from != to
    ensures var m2 := RemoveRequest(m, from, to);
            ConnectionsSymmetric(m2) && ConnectedNotPending(m2) && OneWayPending(m2) && NoSelfEdges(m2)
  {
    var m2 := RemoveRequest(m, from, to);
    forall a, b | a in m2 && b in m2[a].connections ensures b in m2 && a in m2[b].connections {
      assert b in m[a].connections;
    }
    forall a, b | a in m2 && b in m2[a].connections ensures b !in m2[a].sent && b !in m2[a].received {
      assert b in m[a].connections;
    }
    forall a, b | a in m2 && b in m2[a].sent ensures b !in m2[a].received {
      assert b in m[a].sent;
    }
  }

  /** Withdrawing a pending request keeps the invariants. */
  lemma RemoveRequestKeepsGraph(m: map<Id, User>, from: Id, to: Id)
    requires Consistent(m) && from in m && to in m && to in m[from].sent
    ensures Consistent(RemoveRequest(m, from, to))
  {
    assert from != to;
    RemoveRequestMirrored(m, from, to);
    RemoveRequestRest(m, from, to);
    WithoutKeepsNoDups(m[from].sent, to);
    WithoutKeepsNoDups(m[to].received, from);
  }

  lemma ConnectMirrored(m: map<Id, User>, c: Id, r: Id)
    requires SentMirrored(m) && ReceivedMirrored(m) && c in m && r in m && c != r
    ensures var m2 := Connect(m, c, r);
            SentMirrored(m2) && ReceivedMirrored(m2)
  {
    var m2 := Connect(m, c, r);
    forall a, b | a in m2 && b in m2[a].sent ensures b in m2 && a in m2[b].received {
      assert b in m[a].sent;
    }
    forall a, b | a in m2 && b in m2[a].received ensures b in m2 && a in m2[b].sent {
      assert b in m[a].received;
    }
  }

  lemma ConnectConnections(m: map<Id, User>, c: Id, r: Id)
    requires ConnectionsSymmetric(m) && ConnectedNotPending(m) && NoSelfEdges(m)
    requires c in m && r in m && c != r
    requires r !in m[c].sent && c !in m[r].received
    ensures var m2 := Connect(m, c, r);
            ConnectionsSymmetric(m2) && ConnectedNotPending(m2) && NoSelfEdges(m2)
  {
    var m2 := Connect(m, c, r);
    forall a, b | a in m2 && b in m2[a].connections ensures b in m2 && a in m2[b].connections {
      if !((a == c && b == r) || (a == r && b == c)) { assert b in m[a].connections; }
    }
    forall a, b | a in m2 && b in m2[a].connections ensures b !in m2[a].sent && b !in m2[a].received {
      if !((a == c && b == r) || (a == r && b == c)) { assert b in m[a].connections; }
    }
  }

  lemma ConnectOneWay(m: map<Id, User>, c: Id, r: Id)
    requires OneWayPending(m) && c in m && r in m && c != r
    ensures OneWayPending(Connect(m, c, r))
  {
    var m2 := Connect(m, c, r);
    forall a, b | a in m2 && b in m2[a].sent ensures b !in m2[a].received {
      assert b in m[a].sent;
    }
  }

  lemma ConnectDistinct(m: map<Id, User>, c: Id, r: Id)
    requires ListsDistinct(m) && c in m && r in m && c != r
    requires r !in m[c].connections && c !in m[r].connections
    ensures ListsDistinct(Connect(m, c, r))
  {
    AppendFreshKeepsNoDups(m[c].connections, r);
    AppendFreshKeepsNoDups(m[r].connections, c);
    WithoutKeepsNoDups(m[c].received, r);
    WithoutKeepsNoDups(m[r].sent, c);
  }

  /** Accepting a pending request keeps the invariants. */
  lemma ConnectKeepsGraph(m: map<Id, User>, c: Id, r: Id)
    requires Consistent(m) && c in m && r in m && r in m[c].received
    ensures Consistent(Connect(m, c, r))
  {
    assert c != r && c in m[r].sent;
    assert r !in m[c].connections && c !in m[r].connections;
    assert r !in m[c].sent && c !in m[r].received;
    ConnectMirrored(m, c, r);
    ConnectConnections(m, c, r);
    ConnectOneWay(m, c, r);
    ConnectDistinct(m, c, r);
  }

  /** The corrected send keeps the invariants whatever the parameter's letter case. */
  lemma SendFixedPreservesGraph(m: map<Id, User>, caller: Option<Id>, target: string, notify: bool,
                                noteId: Id, now: int)
    requires Consistent(m)
    ensures Consistent(SendFixedStep(m, caller, target, notify, noteId, now).users)
  {
    var s := SendFixedStep(m, caller, target, notify, noteId, now);
    if s.reply.Ok? {
      AddRequestKeepsGraph(m, caller.value, CastId(target).value);
    }
  }

  /** handleSendFriendRequest keeps the invariants when the target id is typed in
      canonical (lower-case) form. */
  lemma SendPreservesGraph(m: map<Id, User>, caller: Option<Id>, target: string, notify: bool,
                           noteId: Id, now: int)
    requires Consistent(m) && IsCanonicalId(target)
    ensures Consistent(SendStep(m, caller, target, notify, noteId, now).users)
  {
    SendFixedAgreesOnCanonical(m, caller, target, notify, noteId, now);
    SendFixedPreservesGraph(m, caller, target, notify, noteId, now);
  }

  const LowerA: Id := "aaaaaaaaaaaaaaaaaaaaaaaa"
  const UpperA: string := "AAAAAAAAAAAAAAAAAAAAAAAA"

  /** "AAA…A" (24 letters) is valid id text that casts to the stored id "aaa…a" while
      differing from it as text: a target the self check of the send lets through. */
  lemma UpperCaseSpellsSameId()
    ensures IsObjectIdText(UpperA) && CastId(UpperA) == Some(LowerA) && UpperA != LowerA
  {
    assert forall k | 0 <= k < |UpperA| :: UpperA[k] == 'A';
    assert Lower(UpperA) == LowerA;
  }

  /** Any other spelling of the caller's own id passes the self check of the send as
      written, and a request from the caller to themselves is recorded. */
  lemma SendOtherSpellingSelfRequest(m: map<Id, User>, c: Id, target: string, noteId: Id, now: int)
    requires c in m && m[c].connections == [] && m[c].sent == [] && m[c].received == []
    requires IsObjectIdText(target) && CastId(target) == Some(c) && target != c
    ensures var s := SendStep(m, Some(c), target, false, noteId, now);
            s.reply.Ok? && c in s.users[c].sent && !NoSelfEdges(s.users)
  {
    var s := SendStep(m, Some(c), target, false, noteId, now);
    assert s.users == AddRequest(m, c, c);
    assert s.users[c].sent == [c];
  }

  /** handleAcceptFriendRequest keeps the invariants. */
  lemma AcceptPreservesGraph(m: map<Id, User>, caller: Option<Id>, requester: string, notify: bool,
                             noteId: Id, now: int)
    requires Consistent(m)
    ensures Consistent(AcceptStep(m, caller, requester, notify, noteId, now).users)
  {
    var s := AcceptStep(m, caller, requester, notify, noteId, now);
    if s.reply.Ok? {
      var (c, r) := AnswerGuard(m, caller, requester).value;
      ConnectKeepsGraph(m, c, r);
    }
  }

  /** handleRejectFriendRequest keeps the invariants. */
  lemma RejectPreservesGraph(m: map<Id, User>, caller: Option<Id>, requester: string, notify: bool,
                             noteId: Id, now: int)
    requires Consistent(m)
    ensures Consistent(RejectStep(m, caller, requester, notify, noteId, now).users)
  {
    var s := RejectStep(m, caller, requester, notify, noteId, now);
    if s.reply.Ok? {
      var (c, r) := AnswerGuard(m, caller, requester).value;
      RemoveRequestKeepsGraph(m, r, c);
    }
  }

  /** handleCancelFriendRequest keeps the invariants. */
  lemma CancelPreservesGraph(m: map<Id, User>, caller: Option<Id>, target: string, notify: bool,
                             noteId: Id, now: int)
    requires Consistent(m)
    ensures Consistent(CancelStep(m, caller, target, notify, noteId, now).users)
  {
    var s := CancelStep(m, caller, target, notify, noteId, now);
    if s.reply.Ok? {
      var (c, t) := CancelGuard(m, caller, target).value;
      RemoveRequestKeepsGraph(m, c, t);
    }
  }

  /** Withdrawing a request just added gives back the users as they were. */
  lemma {:induction false} RemoveRequestUndoesAdd(m: map<Id, User>, c: Id, t: Id)
    requires c in m && t in m && c != t
    requires t !in m[c].sent && c !in m[t].received
    ensures RemoveRequest(AddRequest(m, c, t), c, t) == m
  {
    var m2 := RemoveRequest(AddRequest(m, c, t), c, t);
    WithoutAppendFresh(m[c].sent, t);
    WithoutAppendFresh(m[t].received, c);
    assert m2[c] == m[c] && m2[t] == m[t];
    assert forall a | a in m :: m2[a] == m[a];
  }

  /** A request that is sent and then rejected by its target leaves every user as
      before. */
  lemma SendThenRejectRestores(m: map<Id, User>, c: Id, t: Id, noteId: Id, now: int)
    requires Consistent(m)
    requires SendStep(m, Some(c), t, true, noteId, now).reply.Ok?
    ensures var m1 := SendStep(m, Some(c), t, true, noteId, now).users;
            var s := RejectStep(m1, Some(t), c, true, noteId, now);
            s.reply.Ok? && s.users == m
  {
    assert CastId(t) == Some(t) && CastId(c) == Some(c);
    var m1 := SendStep(m, Some(c), t, true, noteId, now).users;
    assert m1 == AddRequest(m, c, t);
    assert c !in m[t].received;
    RemoveRequestUndoesAdd(m, c, t);
  }

  /** A request that is sent and then cancelled by its sender leaves every user as
      before. */
  lemma SendThenCancelRestores(m: map<Id, User>, c: Id, t: Id, noteId: Id, now: int)
    requires Consistent(m)
    requires SendStep(m, Some(c), t, true, noteId, now).reply.Ok?
    ensures var m1 := SendStep(m, Some(c), t, true, noteId, now).users;
            var s := CancelStep(m1, Some(c), t, true, noteId, now);
            s.reply.Ok? && s.users == m
  {
    assert CastId(t) == Some(t) && CastId(c) == Some(c);
    var m1 := SendStep(m, Some(c), t, true, noteId, now).users;
    assert m1 == AddRequest(m, c, t);
    assert c !in m[t].received;
    RemoveRequestUndoesAdd(m, c, t);
  }

  /** A request that is sent and then accepted by its target connects the two users
      and leaves the invariants in place. */
  lemma SendThenAcceptConnects(m: map<Id, User>, c: Id, t: Id, noteId: Id, now: int)
    requires Consistent(m)
    requires SendStep(m, Some(c), t, true, noteId, now).reply.Ok?
    ensures var m1 := SendStep(m, Some(c), t, true, noteId, now).users;
            var s := AcceptStep(m1, Some(t), c, true, noteId, now);
            s.reply.Ok? && c in s.users[t].connections && t in s.users[c].connections
            && Consistent(s.users)
  {
    assert CastId(t) == Some(t) && CastId(c) == Some(c);
    var m1 := SendStep(m, Some(c), t, true, noteId, now).users;
    assert m1 == AddRequest(m, c, t);
    SendPreservesGraph(m, Some(c), t, true, noteId, now);
    AcceptPreservesGraph(m1, Some(t), c, true, noteId, now);
  }

  /** Once a request is accepted the two users are connected with nothing pending,
      and a further request either way is refused as a conflict. */
  lemma AcceptThenSendConflicts(m: map<Id, User>, c: Id, r: Id, noteId: Id, now: int)
    requires Consistent(m)
    requires AcceptStep(m, Some(c), r, true, noteId, now).reply.Ok?
    ensures var m1 := AcceptStep(m, Some(c), r, true, noteId, now).users;
            r in m1[c].connections && c in m1[r].connections
            && r !in m1[c].sent && r !in m1[c].received && c !in m1[r].sent && c !in m1[r].received
            && SendStep(m1, Some(c), r, true, noteId, now).reply == Err(Conflict)
            && SendStep(m1, Some(r), c, true, noteId, now).reply == Err(Conflict)
  {
    assert CastId(r) == Some(r) && CastId(c) == Some(c);
    AcceptPreservesGraph(m, Some(c), r, true, noteId, now);
    var m1 := AcceptStep(m, Some(c), r, true, noteId, now).users;
    assert r in m1[c].connections && c in m1[r].connections;
  }
}
