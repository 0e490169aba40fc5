/**
 * The read-only queries of app.py: the ORM lookups the handlers make, the list
 * of members who can still join an event, and the date-ordered event lists.
 */
module Queries {
  import opened Wrappers
  import opened Models

  /** `Model.query.filter(p).first()`: the first stored row satisfying `p`, if any. */
  function FirstWhere<T>(s: seq<T>, p: T -> bool): (r: Option<T>)
    ensures r.None? <==> forall i :: 0 <= i < |s| ==> !p(s[i])
    ensures r.Some? ==> exists i :: 0 <= i < |s| && s[i] == r.value && p(s[i]) &&
                                    forall j :: 0 <= j < i ==> !p(s[j])
  {
    if s == [] then None
    else if p(s[0]) then Some(s[0])
    else
      var r := FirstWhere(s[1..], p);
      assert r.Some? ==> exists i :: 0 <= i < |s| && s[i] == r.value && p(s[i]) &&
                                     forall j :: 0 <= j < i ==> !p(s[j]) by {
        if r.Some? {
          var i :| 0 <= i < |s| - 1 && s[1..][i] == r.value && p(s[1..][i]) &&
                   forall j :: 0 <= j < i ==> !p(s[1..][j]);
          assert s[i + 1] == r.value && forall j :: 0 <= j < i + 1 ==> !p(s[j]) by {
            forall j | 0 <= j < i + 1 ensures !p(s[j]) {
              if j > 0 { assert s[j] == s[1..][j - 1]; }
            }
          }
        }
      }
      r
  }

  /**
   * `[m for m in Member.query.all() if m not in event.participants]`: the members
   * who may still join the event with id `eventId`.
   */
  function AvailableMembers(members: seq<Member>, rows: seq<Participation>, eventId: nat): (r: seq<Member>)
    ensures forall m :: m in r <==> m in members && m.id !in ParticipantIds(rows, eventId)
    ensures |r| <= |members|
  {
    if members == [] then []
    else
      (if IsParticipant(rows, members[0].id, eventId) then [] else [members[0]])
      + AvailableMembers(members[1..], rows, eventId)
  }

  /** The comprehension keeps the stored order: it distributes over concatenation. */
  lemma {:induction false} AvailableMembersInStoredOrder(a: seq<Member>, b: seq<Member>, rows: seq<Participation>, eventId: nat)
    ensures AvailableMembers(a + b, rows, eventId) == AvailableMembers(a, rows, eventId) + AvailableMembers(b, rows, eventId)
  {
    if a == [] {
      assert a + b == b;
    } else {
      assert (a + b)[0] == a[0] && (a + b)[1..] == a[1..] + b;
      AvailableMembersInStoredOrder(a[1..], b, rows, eventId);
    }
  }

  /** A member who has just joined is no longer offered, and nobody else is affected. */
  lemma JoinRemovesFromAvailable(members: seq<Member>, rows: seq<Participation>, memberId: nat, eventId: nat)
    ensures forall m :: m in AvailableMembers(members, Join(rows, memberId, eventId), eventId) <==>
                        m in AvailableMembers(members, rows, eventId) && m.id != memberId
  {
    JoinChangesOnlyItsPair(rows, memberId, eventId, eventId, memberId);
  }

  // ---- Ordering by `Event.date.desc()` ----

  /** Most recent date first. */
  predicate SortedByDateDesc(s: seq<Event>)
  {
    forall i, j :: 0 <= i < j < |s| ==> NotAfter(s[j].date, s[i].date)
  }

  /** Places `e` into a list already ordered most recent first. */
  function InsertByDate(e: Event, s: seq<Event>): (r: seq<Event>)
    requires SortedByDateDesc(s)
    ensures SortedByDateDesc(r)
    ensures multiset(r) == multiset(s) + multiset{e}
  {
    if s == [] then [e]
    else if NotAfter(s[0].date, e.date) then
      assert forall j :: 0 <= j < |s| ==> NotAfter(s[j].date, e.date) by {
        forall j | 0 <= j < |s| ensures NotAfter(s[j].date, e.date) {
          NotAfterTransitive(s[j].date, s[0].date, e.date);
        }
      }
      PrependKeepsSorted(e, s);
      [e] + s
    else
      var t := InsertByDate(e, s[1..]);
      NotAfterTotal(s[0].date, e.date);
      BoundedByHead(e, s, t);
      PrependKeepsSorted(s[0], t);
      assert s == [s[0]] + s[1..];
      [s[0]] + t
  }

  /** A head no earlier than every element keeps a descending list descending. */
  lemma PrependKeepsSorted(h: Event, t: seq<Event>)
    requires SortedByDateDesc(t)
    requires forall k :: 0 <= k < |t| ==> NotAfter(t[k].date, h.date)
    ensures SortedByDateDesc([h] + t)
  {
    forall i, j | 0 <= i < j < |t| + 1 ensures NotAfter(([h] + t)[j].date, ([h] + t)[i].date) {
      assert ([h] + t)[j] == t[j - 1];
      if i > 0 { assert ([h] + t)[i] == t[i - 1]; }
    }
  }

  /** What is inserted behind the head of a descending list is no later than that head. */
  lemma BoundedByHead(e: Event, s: seq<Event>, t: seq<Event>)
    requires SortedByDateDesc(s) && s != [] && NotAfter(e.date, s[0].date)
    requires multiset(t) == multiset(s[1..]) + multiset{e}
    ensures forall k :: 0 <= k < |t| ==> NotAfter(t[k].date, s[0].date)
  {
    forall k | 0 <= k < |t| ensures NotAfter(t[k].date, s[0].date) {
      assert t[k] in multiset(t);
      if t[k] != e {
        assert t[k] in multiset(s[1..]);
        var j :| 0 <= j < |s[1..]| && s[1..][j] == t[k];
        assert s[j + 1] == t[k];
      }
    }
  }

  /** `Event.query.order_by(Event.date.desc()).all()`: the same events, most recent first. */
  function SortByDateDesc(events: seq<Event>): (r: seq<Event>)
    ensures SortedByDateDesc(r)
    ensures multiset(r) == multiset(events)
    ensures |r| == |events|
  {
    if events == [] then []
    else
      assert events == [events[0]] + events[1..];
      InsertByDate(events[0], SortByDateDesc(events[1..]))
  }

  /** The `.limit(5)` of the home page. */
  const RecentLimit: nat := 5

  /** `Event.query.order_by(Event.date.desc()).limit(5).all()`. */
  function RecentEvents(events: seq<Event>): (r: seq<Event>)
    ensures |r| == if |events| < RecentLimit then |events| else RecentLimit
    ensures r == SortByDateDesc(events)[..|r|]
    ensures SortedByDateDesc(r)
    ensures multiset(r) <= multiset(events)
  {
    var s := SortByDateDesc(events);
    var n := if |s| < RecentLimit then |s| else RecentLimit;
    assert s == s[..n] + s[n..];
    s[..n]
  }

  /** No event left off the home page is more recent than one shown there. */
  lemma RecentEventsAreLatest(events: seq<Event>)
    ensures forall x, y :: x in RecentEvents(events) && y in events && y !in RecentEvents(events) ==>
                           NotAfter(y.date, x.date)
  {
    var s := SortByDateDesc(events);
    var r := RecentEvents(events);
    forall x, y | x in r && y in events && y !in r ensures NotAfter(y.date, x.date) {
      assert y in multiset(s);
      var j :| 0 <= j < |s| && s[j] == y;
      var i :| 0 <= i < |r| && r[i] == x;
      assert j >= |r| by {
        assert forall k :: 0 <= k < |r| ==> s[k] == r[k];
      }
      assert i < j && s[i] == x;
      assert NotAfter(s[j].date, s[i].date);
    }
  }
}
