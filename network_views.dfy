/** The rows of the `connections` table and the three lists the network page
    derives from them: suggestions, accepted connections and pending requests.
    Everything here is a pure function of the store's contents and the
    signed-in user; the page class in module Network applies them. */
module NetworkViews {
  import opened Common

  /** Primary key of a `connections` row. */
  type ConnId = nat

  datatype Status = Pending | Accepted | Rejected

  /** A directed edge `userId -> connectedUserId`. A mutual connection is two
      rows, one in each direction, both Accepted. */
  datatype Connection = Connection(id: ConnId, userId: UserId, connectedUserId: UserId, status: Status)

  datatype Profile = Profile(
    id: UserId,
    fullName: string,
    headline: string,
    location: string,
    about: string,
    avatarUrl: string,
    bannerUrl: string)

  /** No two rows share an id (the table's primary key). */
  ghost predicate DistinctIds(edges: seq<Connection>)
  {
    forall i, j :: 0 <= i < j < |edges| ==> edges[i].id != edges[j].id
  }

  /** Some row of `edges` goes from `from` to `to`, whatever its status. */
  ghost predicate HasEdge(edges: seq<Connection>, from: UserId, to: UserId)
  {
    exists e :: e in edges && e.userId == from && e.connectedUserId == to
  }

  /** Some row of `edges` goes from `from` to `to` and is Accepted. */
  ghost predicate HasAcceptedEdge(edges: seq<Connection>, from: UserId, to: UserId)
  {
    exists e :: e in edges && e.userId == from && e.connectedUserId == to && e.status == Accepted
  }

  /** The `connected_user_id` of every row whose `user_id` is `me`, in any
      status, collected into a set. */
  function OutgoingTargets(edges: seq<Connection>, me: UserId): (ids: set<UserId>)
    ensures forall id :: id in ids <==> HasEdge(edges, me, id)
  {
    if edges == [] then {}
    else
      var rest := OutgoingTargets(edges[1..], me);
      assert forall e :: e in edges <==> e == edges[0] || e in edges[1..];
      if edges[0].userId == me then {edges[0].connectedUserId} + rest else rest
  }

  /** The suggestions list: every profile other than `me` that `me` has no
      outgoing row to. Pending, accepted and rejected rows all suppress. */
  function Suggestions(profiles: seq<Profile>, edges: seq<Connection>, me: UserId): (r: seq<Profile>)
    ensures forall p :: p in r <==> p in profiles && p.id != me && !HasEdge(edges, me, p.id)
    ensures forall p {:trigger multiset(r)[p]} ::
              multiset(r)[p] == if p.id != me && !HasEdge(edges, me, p.id) then multiset(profiles)[p] else 0
    ensures IsSubsequence(r, profiles)
  {
    var others := Filter(profiles, (p: Profile) => p.id != me);
    var connectedIds := OutgoingTargets(edges, me);
    var r := Filter(others, (p: Profile) => p.id !in connectedIds);
    SubsequenceTransitive(r, others, profiles);
    r
  }

  /** The `connected_user_id` of every Accepted row whose `user_id` is `me`,
      in table order (duplicates kept). */
  function AcceptedTargets(edges: seq<Connection>, me: UserId): (ids: seq<UserId>)
    ensures forall id :: id in ids <==> HasAcceptedEdge(edges, me, id)
    ensures ids == [] <==> forall e :: e in edges ==> !(e.userId == me && e.status == Accepted)
  {
    var accepted := Filter(edges, (e: Connection) => e.userId == me && e.status == Accepted);
    var ids := seq(|accepted|, i requires 0 <= i < |accepted| => accepted[i].connectedUserId);
    assert forall id :: id in ids ==> HasAcceptedEdge(edges, me, id) by {
      forall id | id in ids ensures HasAcceptedEdge(edges, me, id) {
        var i :| 0 <= i < |ids| && ids[i] == id;
        assert accepted[i] in accepted;
      }
    }
    assert forall id :: HasAcceptedEdge(edges, me, id) ==> id in ids by {
      forall id | HasAcceptedEdge(edges, me, id) ensures id in ids {
        var e :| e in edges && e.userId == me && e.connectedUserId == id && e.status == Accepted;
        assert e in accepted;
        var i :| 0 <= i < |accepted| && accepted[i] == e;
        assert ids[i] == id;
      }
    }
    assert |ids| == |accepted|;
    assert accepted == [] <==> forall e :: e in edges ==> !(e.userId == me && e.status == Accepted) by {
      if accepted != [] {
        assert accepted[0] in accepted;
      }
    }
    ids
  }

  /** The profiles whose id is among `ids`, in profile-table order, each once
      (the store's `id in (...)` lookup). */
  function ProfilesWithIds(profiles: seq<Profile>, ids: seq<UserId>): (r: seq<Profile>)
    ensures forall p :: p in r <==> p in profiles && p.id in ids
    ensures forall p {:trigger multiset(r)[p]} :: multiset(r)[p] == if p.id in ids then multiset(profiles)[p] else 0
    ensures IsSubsequence(r, profiles)
  {
    Filter(profiles, (p: Profile) => p.id in ids)
  }

  /** The connections list: profiles at the far end of an Accepted row from
      `me`. With no such row the list is empty and no profile is consulted. */
  function Connections(profiles: seq<Profile>, edges: seq<Connection>, me: UserId): (r: seq<Profile>)
    ensures forall p :: p in r <==> p in profiles && HasAcceptedEdge(edges, me, p.id)
    ensures forall p {:trigger multiset(r)[p]} ::
              multiset(r)[p] == if HasAcceptedEdge(edges, me, p.id) then multiset(profiles)[p] else 0
    ensures IsSubsequence(r, profiles)
  {
    var ids := AcceptedTargets(edges, me);
    if ids == [] then
      assert forall p: Profile :: !HasAcceptedEdge(edges, me, p.id) by {
        forall p: Profile ensures !HasAcceptedEdge(edges, me, p.id) {
          assert p.id !in ids;
        }
      }
      []
    else ProfilesWithIds(profiles, ids)
  }

  /** The requests list: rows addressed to `me` that are still Pending, in
      table order. */
  function Requests(edges: seq<Connection>, me: UserId): (r: seq<Connection>)
    ensures forall e :: e in r <==> e in edges && e.connectedUserId == me && e.status == Pending
    ensures forall e {:trigger multiset(r)[e]} ::
              multiset(r)[e] == if e.connectedUserId == me && e.status == Pending then multiset(edges)[e] else 0
    ensures IsSubsequence(r, edges)
  {
    Filter(edges, (e: Connection) => e.connectedUserId == me && e.status == Pending)
  }

  /** The store's `update({status}).eq('id', id)`: every row with that id takes
      the new status; nothing else changes. */
  function SetStatus(edges: seq<Connection>, id: ConnId, s: Status): (r: seq<Connection>)
    ensures |r| == |edges|
    ensures forall i :: 0 <= i < |edges| ==>
      r[i].id == edges[i].id && r[i].userId == edges[i].userId &&
      r[i].connectedUserId == edges[i].connectedUserId
    ensures forall i :: 0 <= i < |edges| ==> r[i].status == (if edges[i].id == id then s else edges[i].status)
  {
    seq(|edges|, i requires 0 <= i < |edges| => if edges[i].id == id then edges[i].(status := s) else edges[i])
  }

  /** The rows from `from` to `to` that are Pending. */
  function PendingBetween(edges: seq<Connection>, from: UserId, to: UserId): (r: seq<Connection>)
    ensures forall e :: e in r <==> e in edges && e.userId == from && e.connectedUserId == to && e.status == Pending
    ensures forall e {:trigger multiset(r)[e]} ::
              multiset(r)[e] == if e.userId == from && e.connectedUserId == to && e.status == Pending then multiset(edges)[e] else 0
  {
    Filter(edges, (e: Connection) => e.userId == from && e.connectedUserId == to && e.status == Pending)
  }
}
