/**
 * The database behind the route handlers of app.py, as one object whose tables are
 * sequences of rows. Each POST handler is a method that changes the tables the way
 * the handler's `db.session.add` / `participants.append` and `commit` do; each GET
 * handler is a method that only reads. Flash messages become an outcome tag, and
 * redirects and templates are not modelled.
 */
module Store {
  import opened Wrappers
  import opened Models
  import opened Queries
  import opened Upload

  /** The two `strptime` formats the events form accepts. */
  datatype DateFormat =
    | DateAndMinute  // '%Y-%m-%dT%H:%M', what an HTML datetime-local field sends
    | DateOnly       // '%Y-%m-%d'

  /**
   * The date of the events form: the minute format is tried first and the day
   * format only when it fails. `strptime(text, f)` is `None` where Python raises.
   */
  function ParseEventDate(strptime: (string, DateFormat) -> Option<DateTime>, text: string): (r: Option<DateTime>)
    ensures r.Some? <==> strptime(text, DateAndMinute).Some? || strptime(text, DateOnly).Some?
    ensures strptime(text, DateAndMinute).Some? ==> r == strptime(text, DateAndMinute)
    ensures r.Some? && r != strptime(text, DateAndMinute) ==> r == strptime(text, DateOnly)
  {
    match strptime(text, DateAndMinute)
    case Some(d) => Some(d)
    case None => strptime(text, DateOnly)
  }

  /** The flash of the members form. */
  datatype MemberOutcome = EmailExists | MemberAdded

  /** The flash of the events form. */
  datatype EventOutcome = InvalidDate | EventCreated

  /** What a POST to an event page did (the flash it shows, or the silent case). */
  datatype DetailOutcome =
    | EventNotFound   // get_or_404
    | PhotoUploaded
    | PhotoIgnored    // a photo part whose name is not an allowed image: no flash
    | MemberJoined
    | AlreadyJoined
    | NoSuchMember    // the id names no member: no flash
    | NoMemberGiven   // no `member_id` in the form, or an empty one: no flash

  class Club {
    var members: seq<Member>
    var events: seq<Event>
    var photos: seq<Photo>
    var participation: seq<Participation>
    // The next primary keys the database will hand out.
    var nextMemberId: nat
    var nextEventId: nat

    /** The constraints of the schema, and fresh keys for the next inserts. */
    ghost predicate Valid()
      reads this
      ensures Valid() ==> forall m1, m2 :: m1 in members && m2 in members && m1.email == m2.email ==> m1 == m2
      ensures Valid() ==> forall m1, m2 :: m1 in members && m2 in members && m1.id == m2.id ==> m1 == m2
    {
      && UniqueMemberIds(members)
      && UniqueEmails(members)
      && UniqueEventIds(events)
      && UniqueRows(participation)
      && RowsReferToStored(participation, members, events)
      && PhotosReferToEvents(photos, events)
      && (forall m :: m in members ==> m.id < nextMemberId)
      && (forall e :: e in events ==> e.id < nextEventId)
    }

    /** `db.create_all()` on an empty database. */
    constructor ()
      ensures Valid()
      ensures members == [] && events == [] && photos == [] && participation == []
    {
      members, events, photos, participation := [], [], [], [];
      nextMemberId, nextEventId := 1, 1;
    }

    /**
     * POST /members. `upload` is the name of the `profile_image` part when the form
     * has one; `savedName` is the name the accepted image is stored under.
     */
    method AddMember(name: string, email: string, upload: Option<string>, savedName: string)
      returns (outcome: MemberOutcome)
      requires Valid()
      modifies this
      ensures Valid()
      ensures events == old(events) && photos == old(photos) && participation == old(participation)
      ensures nextEventId == old(nextEventId)
      ensures outcome == EmailExists <==> exists m :: m in old(members) && m.email == email
      ensures outcome == EmailExists ==> members == old(members) && nextMemberId == old(nextMemberId)
      ensures outcome == MemberAdded ==>
                && members == old(members) + [Member(old(nextMemberId), name, email,
                                                     if upload.Some? && AllowedFile(upload.value)
                                                     then Some(savedName) else None)]
                && nextMemberId == old(nextMemberId) + 1
    {
      var existing := FirstWhere(members, (m: Member) => m.email == email);
      if existing.Some? {
        outcome := EmailExists;
        return;
      }
      var image: Option<string> := None;
      // An empty upload name is falsy in the source; it also fails AllowedFile.
      if upload.Some? && AllowedFile(upload.value) {
        image := Some(savedName);
      }
      ghost var before := members;
      members := members + [Member(nextMemberId, name, email, image)];
      nextMemberId := nextMemberId + 1;
      assert forall id :: HasMember(before, id) ==> HasMember(members, id) by {
        forall id | HasMember(before, id) ensures HasMember(members, id) {
          var m :| m in before && m.id == id;
          assert m in members;
        }
      }
      outcome := MemberAdded;
    }

    /** POST /events, with the parsing of the date as `strptime` gives it. */
    method CreateEvent(title: string, description: string, dateText: string,
                       strptime: (string, DateFormat) -> Option<DateTime>)
      returns (outcome: EventOutcome)
      requires Valid()
      modifies this
      ensures Valid()
      ensures members == old(members) && photos == old(photos) && participation == old(participation)
      ensures nextMemberId == old(nextMemberId)
      ensures outcome == InvalidDate <==> ParseEventDate(strptime, dateText).None?
      ensures outcome == InvalidDate ==> events == old(events) && nextEventId == old(nextEventId)
      ensures outcome == EventCreated ==>
                && events == old(events) + [Event(old(nextEventId), title, description,
                                                  ParseEventDate(strptime, dateText).value)]
                && nextEventId == old(nextEventId) + 1
    {
      var date := strptime(dateText, DateAndMinute);
      if date.None? {
        date := strptime(dateText, DateOnly);
        if date.None? {
          outcome := InvalidDate;
          return;
        }
      }
      ghost var before := events;
      events := events + [Event(nextEventId, title, description, date.value)];
      nextEventId := nextEventId + 1;
      assert forall id :: HasEvent(before, id) ==> HasEvent(events, id) by {
        forall id | HasEvent(before, id) ensures HasEvent(events, id) {
          var e :| e in before && e.id == id;
          assert e in events;
        }
      }
      outcome := EventCreated;
    }

    /**
     * POST /event/<eventId>. `photo` is the name of the `photo` part when the form
     * has one (`savedName` is the name it is stored under), `memberId` the
     * `member_id` field when it is present and not empty.
     */
    method EventDetailPost(eventId: nat, photo: Option<string>, savedName: string, memberId: Option<nat>)
      returns (outcome: DetailOutcome)
      requires Valid()
      modifies this
      ensures Valid()
      ensures members == old(members) && events == old(events)
      ensures nextMemberId == old(nextMemberId) && nextEventId == old(nextEventId)
      ensures outcome == EventNotFound <==> !HasEvent(events, eventId)
      ensures !HasEvent(events, eventId) ==> photos == old(photos) && participation == old(participation)
      // A photo part decides the request: participation is untouched.
      ensures HasEvent(events, eventId) && photo.Some? ==>
                && participation == old(participation)
                && (AllowedFile(photo.value) ==>
                      photos == old(photos) + [Photo(savedName, eventId)] && outcome == PhotoUploaded)
                && (!AllowedFile(photo.value) ==> photos == old(photos) && outcome == PhotoIgnored)
      // Otherwise the request joins a member, at most once.
      ensures HasEvent(events, eventId) && photo.None? ==>
                && photos == old(photos)
                && (memberId.None? ==> participation == old(participation) && outcome == NoMemberGiven)
                && (memberId.Some? && !HasMember(members, memberId.value) ==>
                      participation == old(participation) && outcome == NoSuchMember)
                && (memberId.Some? && HasMember(members, memberId.value) ==>
                      && participation == Join(old(participation), memberId.value, eventId)
                      && outcome == if IsParticipant(old(participation), memberId.value, eventId)
                                    then AlreadyJoined else MemberJoined)
    {
      var event := FirstWhere(events, (e: Event) => e.id == eventId);
      if event.None? {
        outcome := EventNotFound;
        return;
      }
      assert event.value in events;
      if photo.Some? {
        if AllowedFile(photo.value) {
          photos := photos + [Photo(savedName, eventId)];
          outcome := PhotoUploaded;
        } else {
          outcome := PhotoIgnored;
        }
        return;
      }
      if memberId.None? {
        outcome := NoMemberGiven;
        return;
      }
      var member := FirstWhere(members, (m: Member) => m.id == memberId.value);
      if member.Some? && !IsParticipant(participation, member.value.id, eventId) {
        assert member.value in members;
        participation := participation + [Participation(member.value.id, eventId)];
        outcome := MemberJoined;
      } else if member.Some? {
        outcome := AlreadyJoined;
      } else {
        outcome := NoSuchMember;
      }
    }

    /** GET /: the five most recent events and the number of members. */
    method Index() returns (recentEvents: seq<Event>, memberCount: nat)
      ensures recentEvents == RecentEvents(events)
      ensures memberCount == |members|
    {
      recentEvents := RecentEvents(events);
      memberCount := |members|;
    }

    /** GET /members. */
    method ListMembers() returns (all: seq<Member>)
      ensures all == members
    {
      all := members;
    }

    /** GET /events: every event, most recent first. */
    method ListEvents() returns (all: seq<Event>)
      ensures all == SortByDateDesc(events)
    {
      all := SortByDateDesc(events);
    }

    /** GET /event/<eventId>: the event, if stored, and the members who can still join it. */
    method EventDetail(eventId: nat) returns (event: Option<Event>, available: seq<Member>)
      ensures event.Some? <==> HasEvent(events, eventId)
      ensures event.Some? ==> event.value in events && event.value.id == eventId
      ensures available == AvailableMembers(members, participation, eventId)
    {
      event := FirstWhere(events, (e: Event) => e.id == eventId);
      available := AvailableMembers(members, participation, eventId);
    }
  }

  /** Sending the same join twice stores one participation row and reports the second as a repeat. */
  method JoinTwice(club: Club, eventId: nat, memberId: nat) returns (first: DetailOutcome, second: DetailOutcome)
    requires club.Valid()
    requires HasEvent(club.events, eventId) && HasMember(club.members, memberId)
    modifies club
    ensures club.Valid()
    ensures club.participation == Join(old(club.participation), memberId, eventId)
    ensures multiset(club.participation)[Participation(memberId, eventId)] == 1
    ensures second == AlreadyJoined
  {
    first := club.EventDetailPost(eventId, None, "", Some(memberId));
    second := club.EventDetailPost(eventId, None, "", Some(memberId));
    JoinIdempotent(old(club.participation), memberId, eventId);
    UniqueRowOccursOnce(club.participation, Participation(memberId, eventId));
  }
}
