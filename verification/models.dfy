/**
 * The schema of models.py: members, events, the `participation` association
 * table, and the photos that app.py attaches to events. Each row type is a value;
 * the table-level constraints (primary keys, the unique email, the composite key
 * of `participation`, the foreign keys) are predicates over the stored rows.
 */
module Models {
  import opened Wrappers

  /** A `datetime` as the two accepted date formats produce it (seconds are always zero). */
  datatype DateTime = DateTime(year: int, month: int, day: int, hour: int, minute: int)

  /** Chronological order of `datetime` values: field by field, most significant first. */
  predicate Before(a: DateTime, b: DateTime)
  {
    if a.year != b.year then a.year < b.year
    else if a.month != b.month then a.month < b.month
    else if a.day != b.day then a.day < b.day
    else if a.hour != b.hour then a.hour < b.hour
    else a.minute < b.minute
  }

  /** `a <= b` on dates. */
  predicate NotAfter(a: DateTime, b: DateTime)
  {
    a == b || Before(a, b)
  }

  /** Any two dates are ordered one way or the other. */
  lemma NotAfterTotal(a: DateTime, b: DateTime)
    ensures NotAfter(a, b) || NotAfter(b, a)
    ensures !NotAfter(a, b) ==> Before(b, a)
  {
  }

  lemma NotAfterTransitive(a: DateTime, b: DateTime, c: DateTime)
    requires NotAfter(a, b) && NotAfter(b, c)
    ensures NotAfter(a, c)
  {
  }

  /**
   * A `Member` row. `profileImage` is the stored upload name, absent when the member
   * gave no acceptable image. `join_date` is a clock default and is not modelled.
   */
  datatype Member = Member(id: nat, name: string, email: string, profileImage: Option<string>)

  /** An `Event` row; `created_at` is a clock default and is not modelled. */
  datatype Event = Event(id: nat, title: string, description: string, date: DateTime)

  /** A photo stored for an event: the saved filename and the owning event's id. */
  datatype Photo = Photo(filename: string, eventId: nat)

  /** A row of the `participation` table; `joined_at` is a clock default and is not modelled. */
  datatype Participation = Participation(memberId: nat, eventId: nat)

  /** `Member.__repr__`: `<Member {name}>`. */
  function MemberRepr(m: Member): (r: string)
    ensures |r| == |m.name| + 9
    ensures r[..8] == "<Member " && r[8..|r| - 1] == m.name && r[|r| - 1] == '>'
  {
    "<Member " + m.name + ">"
  }

  /** `Event.__repr__`: `<Event {title}>`. */
  function EventRepr(e: Event): (r: string)
    ensures |r| == |e.title| + 8
    ensures r[..7] == "<Event " && r[7..|r| - 1] == e.title && r[|r| - 1] == '>'
  {
    "<Event " + e.title + ">"
  }

  /** Two members print alike exactly when their names agree; no member prints like an event. */
  lemma ReprsIdentify(a: Member, b: Member, e: Event)
    ensures MemberRepr(a) == MemberRepr(b) <==> a.name == b.name
    ensures MemberRepr(a) != EventRepr(e)
  {
    if MemberRepr(a) == MemberRepr(b) {
      assert a.name == MemberRepr(a)[8..|MemberRepr(a)| - 1];
    }
    assert MemberRepr(a)[1] == 'M' != 'E' == EventRepr(e)[1];
  }

  // ---- Table constraints ----

  /** `Member.id` is the primary key. */
  predicate UniqueMemberIds(members: seq<Member>)
  {
    forall i, j :: 0 <= i < j < |members| ==> members[i].id != members[j].id
  }

  /** `Member.email` is declared `unique=True`. */
  predicate UniqueEmails(members: seq<Member>)
  {
    forall i, j :: 0 <= i < j < |members| ==> members[i].email != members[j].email
  }

  /** `Event.id` is the primary key. */
  predicate UniqueEventIds(events: seq<Event>)
  {
    forall i, j :: 0 <= i < j < |events| ==> events[i].id != events[j].id
  }

  /** `(member_id, event_id)` is the composite primary key of `participation`. */
  predicate UniqueRows(rows: seq<Participation>)
  {
    forall i, j :: 0 <= i < j < |rows| ==> rows[i] != rows[j]
  }

  predicate HasMember(members: seq<Member>, id: nat)
  {
    exists m :: m in members && m.id == id
  }

  predicate HasEvent(events: seq<Event>, id: nat)
  {
    exists e :: e in events && e.id == id
  }

  /** Both columns of `participation` are foreign keys. */
  predicate RowsReferToStored(rows: seq<Participation>, members: seq<Member>, events: seq<Event>)
  {
    forall p :: p in rows ==> HasMember(members, p.memberId) && HasEvent(events, p.eventId)
  }

  /** Every photo belongs to a stored event. */
  predicate PhotosReferToEvents(photos: seq<Photo>, events: seq<Event>)
  {
    forall ph :: ph in photos ==> HasEvent(events, ph.eventId)
  }

  // ---- The two relationship views of `participation` ----

  /** Whether the member with id `memberId` takes part in the event with id `eventId`. */
  predicate IsParticipant(rows: seq<Participation>, memberId: nat, eventId: nat)
  {
    Participation(memberId, eventId) in rows
  }

  /** `event.participants`, as member ids. */
  function ParticipantIds(rows: seq<Participation>, eventId: nat): (r: set<nat>)
    ensures forall m :: m in r <==> IsParticipant(rows, m, eventId)
  {
    set p | p in rows && p.eventId == eventId :: p.memberId
  }

  /** `member.events`, as event ids. */
  function EventIdsOf(rows: seq<Participation>, memberId: nat): (r: set<nat>)
    ensures forall e :: e in r <==> IsParticipant(rows, memberId, e)
  {
    set p | p in rows && p.memberId == memberId :: p.eventId
  }

  /** `back_populates`: the two relationships are views of one table. */
  lemma ParticipationViewsAgree(rows: seq<Participation>, memberId: nat, eventId: nat)
    ensures memberId in ParticipantIds(rows, eventId) <==> eventId in EventIdsOf(rows, memberId)
  {
  }

  /**
   * `event.participants.append(member)` guarded by `member not in event.participants`:
   * the row for the pair is present afterwards, and no other row appears or vanishes.
   */
  function Join(rows: seq<Participation>, memberId: nat, eventId: nat): (r: seq<Participation>)
    ensures IsParticipant(r, memberId, eventId)
    ensures forall p :: p in r <==> p in rows || p == Participation(memberId, eventId)
    ensures UniqueRows(rows) ==> UniqueRows(r)
    ensures IsParticipant(rows, memberId, eventId) ==> r == rows
  {
    if IsParticipant(rows, memberId, eventId) then rows
    else rows + [Participation(memberId, eventId)]
  }

  /** Joining twice leaves the same rows as joining once. */
  lemma JoinIdempotent(rows: seq<Participation>, memberId: nat, eventId: nat)
    ensures Join(Join(rows, memberId, eventId), memberId, eventId) == Join(rows, memberId, eventId)
  {
  }

  /** A join adds the member to its own event's participants and changes no other event or member. */
  lemma JoinChangesOnlyItsPair(rows: seq<Participation>, memberId: nat, eventId: nat, e: nat, m: nat)
    ensures ParticipantIds(Join(rows, memberId, eventId), eventId) == ParticipantIds(rows, eventId) + {memberId}
    ensures e != eventId ==> ParticipantIds(Join(rows, memberId, eventId), e) == ParticipantIds(rows, e)
    ensures m != memberId ==> EventIdsOf(Join(rows, memberId, eventId), m) == EventIdsOf(rows, m)
  {
  }

  /** Under the composite key a stored pair occurs in exactly one row. */
  lemma {:induction false} UniqueRowOccursOnce(rows: seq<Participation>, p: Participation)
    requires UniqueRows(rows) && p in rows
    ensures multiset(rows)[p] == 1
  {
    assert rows == [rows[0]] + rows[1..];
    if rows[0] == p {
      assert p !in rows[1..] by {
        forall k | 0 <= k < |rows| - 1 ensures rows[1..][k] != p {
          assert rows[1..][k] == rows[k + 1];
        }
      }
    } else {
      UniqueRowOccursOnce(rows[1..], p);
    }
  }
}
