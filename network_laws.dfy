/** What connect, accept and reject do to the derived lists. Each lemma is
    about the table contents a mutation leaves behind (see module Network for
    the mutations themselves). */
module NetworkLaws {
  import opened Common
  import opened NetworkViews

  /** Appending a row from `me` adds exactly its target to `me`'s outgoing
      targets. */
  lemma OutgoingAfterAppend(edges: seq<Connection>, row: Connection, me: UserId)
    requires row.userId == me
    ensures OutgoingTargets(edges + [row], me) == OutgoingTargets(edges, me) + {row.connectedUserId}
  {
    var after := edges + [row];
    assert row in after;
    forall x | HasEdge(edges, me, x) ensures HasEdge(after, me, x) {
      var e :| e in edges && e.userId == me && e.connectedUserId == x;
      assert e in after;
    }
    forall x | HasEdge(after, me, x) ensures HasEdge(edges, me, x) || x == row.connectedUserId {
      var e :| e in after && e.userId == me && e.connectedUserId == x;
      assert e in edges || e == row;
    }
  }

  /** Connecting to `target` removes exactly that profile from the
      suggestions, and nothing else. */
  lemma ConnectRemovesTarget(profiles: seq<Profile>, edges: seq<Connection>, me: UserId, target: UserId, newId: ConnId)
    ensures Suggestions(profiles, edges + [Connection(newId, me, target, Pending)], me)
         == Filter(Suggestions(profiles, edges, me), (p: Profile) => p.id != target)
    ensures forall p :: p in Suggestions(profiles, edges + [Connection(newId, me, target, Pending)], me) ==> p.id != target
  {
    var after := edges + [Connection(newId, me, target, Pending)];
    var ids, ids' := OutgoingTargets(edges, me), OutgoingTargets(after, me);
    OutgoingAfterAppend(edges, Connection(newId, me, target, Pending), me);
    var others := Filter(profiles, (p: Profile) => p.id != me);
    var notConnected := (p: Profile) => p.id !in ids;
    var notConnected' := (p: Profile) => p.id !in ids';
    var notTarget := (p: Profile) => p.id != target;
    assert Suggestions(profiles, edges, me) == Filter(others, notConnected);
    assert Suggestions(profiles, after, me) == Filter(others, notConnected');
    FilterFilter(others, notConnected, notTarget, notConnected');
  }

  /** `connect` has no duplicate check: connecting to the same profile twice
      leaves two more Pending rows between the pair. */
  lemma ConnectTwiceAddsTwoPending(edges: seq<Connection>, me: UserId, target: UserId, id1: ConnId, id2: ConnId)
    ensures |PendingBetween(edges + [Connection(id1, me, target, Pending)] + [Connection(id2, me, target, Pending)], me, target)|
         == |PendingBetween(edges, me, target)| + 2
  {
    var r1, r2 := Connection(id1, me, target, Pending), Connection(id2, me, target, Pending);
    var keep := (e: Connection) => e.userId == me && e.connectedUserId == target && e.status == Pending;
    FilterAppend(edges + [r1], [r2], keep);
    FilterAppend(edges, [r1], keep);
  }

  /** Changing the status of a row never changes the suggestions: the
      suggestion filter ignores status. */
  lemma StatusChangeKeepsSuggestions(profiles: seq<Profile>, edges: seq<Connection>, id: ConnId, s: Status, me: UserId)
    ensures Suggestions(profiles, SetStatus(edges, id, s), me) == Suggestions(profiles, edges, me)
  {
    var after := SetStatus(edges, id, s);
    assert OutgoingTargets(after, me) == OutgoingTargets(edges, me) by {
      forall x | HasEdge(edges, me, x) ensures HasEdge(after, me, x) {
        var e :| e in edges && e.userId == me && e.connectedUserId == x;
        var i :| 0 <= i < |edges| && edges[i] == e;
        assert after[i] in after;
      }
      forall x | HasEdge(after, me, x) ensures HasEdge(edges, me, x) {
        var e :| e in after && e.userId == me && e.connectedUserId == x;
        var i :| 0 <= i < |after| && after[i] == e;
        assert edges[i] in edges;
      }
    }
  }

  /** Moving a row out of Pending removes exactly the rows with that id from
      the requests list, keeping the others in order. */
  lemma {:induction false} ClosingRemovesRequest(edges: seq<Connection>, id: ConnId, s: Status, me: UserId)
    requires s != Pending
    ensures Requests(SetStatus(edges, id, s), me) == Filter(Requests(edges, me), (e: Connection) => e.id != id)
    ensures forall e :: e in Requests(SetStatus(edges, id, s), me) ==> e.id != id
  {
    var pending := (e: Connection) => e.connectedUserId == me && e.status == Pending;
    var other := (e: Connection) => e.id != id;
    if edges != [] {
      var after := SetStatus(edges, id, s);
      assert after[1..] == SetStatus(edges[1..], id, s);
      ClosingRemovesRequest(edges[1..], id, s, me);
      assert Requests(after, me) == (if pending(after[0]) then [after[0]] else []) + Requests(after[1..], me);
      assert Requests(edges, me) == (if pending(edges[0]) then [edges[0]] else []) + Requests(edges[1..], me);
      FilterAppend(if pending(edges[0]) then [edges[0]] else [], Requests(edges[1..], me), other);
    }
  }

  /** Accept with both steps done: the request row is Accepted, a reciprocal
      Accepted row exists, so each side sees the other as a connection, and
      the request has left the requests list. */
  lemma AcceptMakesMutual(edges: seq<Connection>, cid: ConnId, requester: UserId, me: UserId, newId: ConnId)
    requires exists e :: e in edges && e.id == cid && e.userId == requester && e.connectedUserId == me
    ensures var after := SetStatus(edges, cid, Accepted) + [Connection(newId, me, requester, Accepted)];
      HasAcceptedEdge(after, me, requester) && HasAcceptedEdge(after, requester, me) &&
      Requests(after, me) == Filter(Requests(edges, me), (e: Connection) => e.id != cid)
  {
    var updated := SetStatus(edges, cid, Accepted);
    var row := Connection(newId, me, requester, Accepted);
    var after := updated + [row];
    var e :| e in edges && e.id == cid && e.userId == requester && e.connectedUserId == me;
    var i :| 0 <= i < |edges| && edges[i] == e;
    assert after[i] in after;
    assert after[|after| - 1] == row;
    ClosingRemovesRequest(edges, cid, Accepted, me);
    FilterAppend(updated, [row], (e: Connection) => e.connectedUserId == me && e.status == Pending);
  }

  /** Accept whose second step failed: the requester sees `me` as a
      connection, but `me` sees the requester only if an Accepted row from
      `me` already existed. The relationship is left one-sided. */
  lemma AcceptHalfDoneIsOneSided(edges: seq<Connection>, cid: ConnId, requester: UserId, me: UserId)
    requires requester != me
    requires exists e :: e in edges && e.id == cid
    requires forall e :: e in edges && e.id == cid ==> e.userId == requester && e.connectedUserId == me
    ensures HasAcceptedEdge(SetStatus(edges, cid, Accepted), requester, me)
    ensures HasAcceptedEdge(SetStatus(edges, cid, Accepted), me, requester) <==> HasAcceptedEdge(edges, me, requester)
  {
    var after := SetStatus(edges, cid, Accepted);
    var e :| e in edges && e.id == cid;
    var i :| 0 <= i < |edges| && edges[i] == e;
    assert after[i] in after;
    if HasAcceptedEdge(after, me, requester) {
      var f :| f in after && f.userId == me && f.connectedUserId == requester && f.status == Accepted;
      var j :| 0 <= j < |after| && after[j] == f;
      assert edges[j] in edges;
    }
    if HasAcceptedEdge(edges, me, requester) {
      var f :| f in edges && f.userId == me && f.connectedUserId == requester && f.status == Accepted;
      var j :| 0 <= j < |edges| && edges[j] == f;
      assert after[j] in after;
    }
  }

  /** Under the primary key a status update touches at most one row: of any
      two rows, one is left exactly as it was. */
  lemma StatusChangeTouchesOneRow(edges: seq<Connection>, id: ConnId, s: Status)
    requires DistinctIds(edges)
    ensures forall i, j :: 0 <= i < j < |edges| ==>
      SetStatus(edges, id, s)[i] == edges[i] || SetStatus(edges, id, s)[j] == edges[j]
  {
  }
}
