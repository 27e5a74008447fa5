/**
 * The event routes: list and get (read-only views), create, update and
 * delete (organizer only, update and delete by the owning organizer only),
 * and the participant-registration workflow. The handlers that change the
 * store take the identity the guard chain established (`req.user`).
 */
module EventRoutes {
  import opened Common
  import opened Seqs
  import opened Validators
  import opened Database

  const EVENT_NOT_FOUND: string := "Event not found"
  const USER_NOT_FOUND: string := "User not found"
  const EVENT_FIELDS_REQUIRED: string := "Event name, date, and time are required"
  const BAD_DATE: string := "Event date must be a valid future date"
  const BAD_TIME: string := "Event time must be in HH:MM format"
  const NOT_OWNER_UPDATE: string := "Only the event organizer can update this event"
  const NOT_OWNER_DELETE: string := "Only the event organizer can delete this event"
  const ALREADY_REGISTERED: string := "User is already registered for this event"
  const AT_CAPACITY: string := "Event is at maximum capacity"
  const LISTED: string := "Events retrieved successfully"
  const FOUND: string := "Event retrieved successfully"
  const CREATED: string := "Event created successfully"
  const UPDATED: string := "Event updated successfully"
  const DELETED: string := "Event deleted successfully"
  const JOINED: string := "Successfully registered for event. Confirmation email sent."

  /** A numeric body field: absent (`undefined`), JSON `null`, or a number. */
  datatype NumberField = Undefined | Null | Number(n: int)

  /** The JSON body of create and update; None is an absent string field. */
  datatype EventBody = EventBody(
    name: Option<string>,
    description: Option<string>,
    date: Option<string>,
    time: Option<string>,
    location: Option<string>,
    maxParticipants: NumberField)

  /** An event as the API shows it: the record with `participantCount` merged in. */
  datatype EventView = EventView(event: Event, participantCount: nat)

  /** The answer of `GET /events`. */
  datatype EventList = EventList(events: seq<EventView>, total: nat)

  function View(e: Event): EventView {
    EventView(e, |e.participants|)
  }

  // ------------------------------------------------------------ capacity

  /** `event.maxParticipants` is truthy: set, and not zero. */
  predicate HasLimit(e: Event) {
    e.maxParticipants.Some? && e.maxParticipants.value != 0
  }

  /** The capacity test of the registration workflow. */
  predicate IsFull(e: Event) {
    HasLimit(e) && |e.participants| >= e.maxParticipants.value
  }

  /** The capacity invariant: with a limit set, the participants do not outnumber it. */
  predicate WithinCapacity(e: Event) {
    HasLimit(e) ==> |e.participants| <= e.maxParticipants.value
  }

  // ------------------------------------------------------------ read-only views

  /** `GET /events`: every stored event, in store order, with its participant
      count; the store is not touched. */
  function ListEvents(events: seq<Event>): (r: Reply<EventList>)
    ensures r.Ok? && r.status == 200 && r.message == LISTED
    ensures |r.body.events| == r.body.total == |events|
    ensures forall i :: 0 <= i < |events| ==>
              r.body.events[i].event == events[i] && r.body.events[i].participantCount == |events[i].participants|
  {
    var views := seq(|events|, i requires 0 <= i < |events| => View(events[i]));
    Ok(200, LISTED, EventList(views, |views|))
  }

  /** `GET /events/:id`: the first event with the identifier, with its
      participant count, or 404 when no event has it. */
  function GetEvent(events: seq<Event>, eventId: Option<int>): (r: Reply<EventView>)
    ensures r.Err? <==> eventId.None? || forall k :: 0 <= k < |events| ==> events[k].id != eventId.value
    ensures r.Err? ==> r == Err(404, EVENT_NOT_FOUND)
    ensures r.Ok? ==> exists k :: 0 <= k < |events| && eventId == Some(events[k].id)
                                  && r == Ok(200, FOUND, EventView(events[k], |events[k].participants|))
  {
    var k := EventIndex(events, eventId);
    if k == -1 then Err(404, EVENT_NOT_FOUND) else Ok(200, FOUND, View(events[k]))
  }

  // ------------------------------------------------------------ create

  /** The checks of event creation, in order: required fields, future date, time format. */
  function CreationCheck(body: EventBody, parse: string -> Option<int>, now: int): (r: Outcome<()>)
    ensures r == Reject(400, EVENT_FIELDS_REQUIRED)
            <==> !Truthy(body.name) || !Truthy(body.date) || !Truthy(body.time)
    ensures r == Reject(400, BAD_DATE)
            <==> Truthy(body.name) && Truthy(body.date) && Truthy(body.time)
                 && !IsValidDate(body.date.value, parse, now)
    ensures r == Reject(400, BAD_TIME)
            <==> Truthy(body.name) && Truthy(body.date) && Truthy(body.time)
                 && IsValidDate(body.date.value, parse, now) && !IsValidTime(body.time.value)
    ensures r.Accept? ==> parse(body.date.value).Some? && parse(body.date.value).value > now
    ensures r.Accept?
            <==> Truthy(body.name) && Truthy(body.date) && Truthy(body.time)
                 && IsValidDate(body.date.value, parse, now) && IsValidTime(body.time.value)
  {
    if !Truthy(body.name) || !Truthy(body.date) || !Truthy(body.time) then
      Reject(400, EVENT_FIELDS_REQUIRED)
    else if !IsValidDate(body.date.value, parse, now) then
      Reject(400, BAD_DATE)
    else if !IsValidTime(body.time.value) then
      Reject(400, BAD_TIME)
    else
      Accept(())
  }

  /** `field || ''` */
  function OrEmpty(field: Option<string>): string {
    if field.Some? then field.value else ""
  }

  /** `maxParticipants || null`: zero, null and absent all store null. */
  function LimitOnCreate(field: NumberField): Option<int> {
    if field.Number? && field.n != 0 then Some(field.n) else None
  }

  /** The record event creation stores. */
  function NewEvent(id: int, body: EventBody, organizer: Claims, now: int): Event
    requires Truthy(body.name) && Truthy(body.date) && Truthy(body.time)
  {
    Event(id, body.name.value, OrEmpty(body.description), body.date.value, body.time.value,
          OrEmpty(body.location), LimitOnCreate(body.maxParticipants),
          organizer.id, organizer.name, [], now, now)
  }

  /** A new event has no participants, belongs to the caller, has empty
      description and location when none were given, no limit when the limit
      was falsy, and respects any non-negative limit. */
  lemma NewEventDefaults(id: int, body: EventBody, organizer: Claims, now: int)
    requires Truthy(body.name) && Truthy(body.date) && Truthy(body.time)
    ensures var e := NewEvent(id, body, organizer, now);
            && e.id == id && e.participants == []
            && e.organizerId == organizer.id && e.organizer == organizer.name
            && (body.description.None? ==> e.description == "")
            && (body.location.None? ==> e.location == "")
            && (e.maxParticipants.None? <==> !body.maxParticipants.Number? || body.maxParticipants.n == 0)
            && (body.maxParticipants.Number? && body.maxParticipants.n >= 0 ==> WithinCapacity(e))
  {
  }

  /** `POST /events`. Rejected bodies change nothing; an accepted one takes
      the next event identifier and appends exactly one event. */
  method CreateEvent(db: Store, organizer: Claims, body: EventBody, parse: string -> Option<int>, now: int)
    returns (reply: Reply<EventView>)
    requires db.Valid()
    modifies db
    ensures db.Valid()
    ensures db.users == old(db.users)
    ensures db.userIdCounter == old(db.userIdCounter) && db.issuedUserIds == old(db.issuedUserIds)
    ensures var check := CreationCheck(body, parse, now);
            if check.Reject? then
              && reply == Refuse(check)
              && db.events == old(db.events)
              && db.eventIdCounter == old(db.eventIdCounter)
              && db.issuedEventIds == old(db.issuedEventIds)
            else
              var e := NewEvent(old(db.eventIdCounter), body, organizer, now);
              && db.events == old(db.events) + [e]
              && db.eventIdCounter == old(db.eventIdCounter) + 1
              && db.issuedEventIds == old(db.issuedEventIds) + [e.id]
              && reply == Ok(201, CREATED, View(e))
  {
    var check := CreationCheck(body, parse, now);
    if check.Reject? {
      return Refuse(check);
    }
    var id := db.GetNextEventId();
    var e := NewEvent(id, body, organizer, now);
    db.events := db.events + [e];
    reply := Ok(201, CREATED, View(e));
  }

  // ------------------------------------------------------------ update

  /** The checks of an update, in order: the event exists, the caller owns
      it, a supplied date is valid, a supplied time is valid. On success the
      index of the event. */
  function UpdateCheck(events: seq<Event>, caller: Claims, eventId: Option<int>, body: EventBody,
                       parse: string -> Option<int>, now: int): (r: Outcome<nat>)
    ensures r == Reject(404, EVENT_NOT_FOUND)
            <==> eventId.None? || forall k :: 0 <= k < |events| ==> events[k].id != eventId.value
    ensures r == Reject(403, NOT_OWNER_UPDATE)
            <==> EventIndex(events, eventId) >= 0 && events[EventIndex(events, eventId)].organizerId != caller.id
    ensures r == Reject(400, BAD_DATE)
            <==> EventIndex(events, eventId) >= 0 && events[EventIndex(events, eventId)].organizerId == caller.id
                 && Truthy(body.date) && !IsValidDate(body.date.value, parse, now)
    ensures r == Reject(400, BAD_TIME)
            <==> EventIndex(events, eventId) >= 0 && events[EventIndex(events, eventId)].organizerId == caller.id
                 && (Truthy(body.date) ==> IsValidDate(body.date.value, parse, now))
                 && Truthy(body.time) && !IsValidTime(body.time.value)
    ensures r.Accept? ==> r.value == EventIndex(events, eventId) && events[r.value].organizerId == caller.id
    ensures r.Accept?
            <==> EventIndex(events, eventId) >= 0 && events[EventIndex(events, eventId)].organizerId == caller.id
                 && (Truthy(body.date) ==> IsValidDate(body.date.value, parse, now))
                 && (Truthy(body.time) ==> IsValidTime(body.time.value))
  {
    var i := EventIndex(events, eventId);
    if i == -1 then Reject(404, EVENT_NOT_FOUND)
    else if events[i].organizerId != caller.id then Reject(403, NOT_OWNER_UPDATE)
    else if Truthy(body.date) && !IsValidDate(body.date.value, parse, now) then Reject(400, BAD_DATE)
    else if Truthy(body.time) && !IsValidTime(body.time.value) then Reject(400, BAD_TIME)
    else Accept(i)
  }

  /** The field assignments of an update: name, date and time when truthy;
      description, location and the limit whenever supplied (even when
      empty, zero or null); the update time always. */
  function ApplyUpdate(e: Event, body: EventBody, now: int): Event {
    e.(name := if Truthy(body.name) then body.name.value else e.name,
       description := if body.description.Some? then body.description.value else e.description,
       date := if Truthy(body.date) then body.date.value else e.date,
       time := if Truthy(body.time) then body.time.value else e.time,
       location := if body.location.Some? then body.location.value else e.location,
       maxParticipants := match body.maxParticipants
                          case Undefined => e.maxParticipants
                          case Null => None
                          case Number(n) => Some(n),
       updatedAt := now)
  }

  /** An update never touches the identifier, the owner, the name snapshot,
      the participants or the creation time, and an empty body changes
      nothing but the update time. */
  lemma UpdateKeepsIdentity(e: Event, body: EventBody, now: int)
    ensures var u := ApplyUpdate(e, body, now);
            && u.id == e.id && u.organizerId == e.organizerId && u.organizer == e.organizer
            && u.participants == e.participants && u.createdAt == e.createdAt && u.updatedAt == now
    ensures ApplyUpdate(e, EventBody(None, None, None, None, None, Undefined), now) == e.(updatedAt := now)
  {
  }

  /** An update may lower the limit below the current number of participants:
      the capacity invariant is kept by registration, not by update. */
  lemma UpdateMayBreakCapacity()
    ensures exists e: Event, body: EventBody, now: int ::
              WithinCapacity(e) && !WithinCapacity(ApplyUpdate(e, body, now))
  {
    var e := Event(1, "Meetup", "", "2030-01-01", "18:00", "", Some(5), 1, "Ann", [2, 3], 0, 0);
    var body := EventBody(None, None, None, None, None, Number(1));
    assert WithinCapacity(e) && !WithinCapacity(ApplyUpdate(e, body, 0));
  }

  /** Replacing an event by one with the same identifier and a participant
      list free of repetitions keeps the event list valid. */
  lemma ReplaceKeepsValid(events: seq<Event>, counter: int, i: int, e: Event)
    requires EventsValid(events, counter) && 0 <= i < |events|
    requires e.id == events[i].id && NoDuplicates(e.participants)
    ensures EventsValid(events[i := e], counter)
  {
    var after := events[i := e];
    forall j, k | 0 <= j < k < |after| ensures after[j].id != after[k].id {
      assert after[j].id == events[j].id && after[k].id == events[k].id;
    }
  }

  /** `PUT /events/:id`. Rejected requests change nothing; an accepted one
      rewrites the one event in place and leaves every other record alone. */
  method UpdateEvent(db: Store, caller: Claims, eventId: Option<int>, body: EventBody,
                     parse: string -> Option<int>, now: int)
    returns (reply: Reply<EventView>)
    requires db.Valid()
    modifies db
    ensures db.Valid()
    ensures db.users == old(db.users)
    ensures db.userIdCounter == old(db.userIdCounter) && db.eventIdCounter == old(db.eventIdCounter)
    ensures db.issuedUserIds == old(db.issuedUserIds) && db.issuedEventIds == old(db.issuedEventIds)
    ensures var check := UpdateCheck(old(db.events), caller, eventId, body, parse, now);
            if check.Reject? then
              reply == Refuse(check) && db.events == old(db.events)
            else
              var updated := ApplyUpdate(old(db.events)[check.value], body, now);
              && db.events == old(db.events)[check.value := updated]
              && reply == Ok(200, UPDATED, View(updated))
  {
    var check := UpdateCheck(db.events, caller, eventId, body, parse, now);
    if check.Reject? {
      return Refuse(check);
    }
    var i := check.value;
    var updated := ApplyUpdate(db.events[i], body, now);
    ReplaceKeepsValid(db.events, db.eventIdCounter, i, updated);
    db.events := db.events[i := updated];
    reply := Ok(200, UPDATED, View(updated));
  }

  // ------------------------------------------------------------ delete

  /** The checks of a deletion, in order: the event exists, the caller owns it. */
  function DeletionCheck(events: seq<Event>, caller: Claims, eventId: Option<int>): (r: Outcome<nat>)
    ensures r == Reject(404, EVENT_NOT_FOUND)
            <==> eventId.None? || forall k :: 0 <= k < |events| ==> events[k].id != eventId.value
    ensures r == Reject(403, NOT_OWNER_DELETE)
            <==> EventIndex(events, eventId) >= 0 && events[EventIndex(events, eventId)].organizerId != caller.id
    ensures r.Accept? ==> r.value == EventIndex(events, eventId) && events[r.value].organizerId == caller.id
    ensures r.Accept?
            <==> EventIndex(events, eventId) >= 0 && events[EventIndex(events, eventId)].organizerId == caller.id
  {
    var i := EventIndex(events, eventId);
    if i == -1 then Reject(404, EVENT_NOT_FOUND)
    else if events[i].organizerId != caller.id then Reject(403, NOT_OWNER_DELETE)
    else Accept(i)
  }

  /** `events.splice(i, 1)` */
  function RemoveAt(events: seq<Event>, i: int): seq<Event>
    requires 0 <= i < |events|
  {
    events[..i] + events[i + 1..]
  }

  /** Removing one event keeps the list valid, keeps the others in their
      order, and (identifiers being unique) leaves no event with the removed
      identifier. */
  lemma RemoveAtKeepsValid(events: seq<Event>, counter: int, i: int)
    requires EventsValid(events, counter) && 0 <= i < |events|
    ensures EventsValid(RemoveAt(events, i), counter)
    ensures |RemoveAt(events, i)| == |events| - 1
    ensures forall k :: 0 <= k < |events| - 1 ==>
              RemoveAt(events, i)[k] == if k < i then events[k] else events[k + 1]
    ensures forall k :: 0 <= k < |events| - 1 ==> RemoveAt(events, i)[k].id != events[i].id
  {
    var after := RemoveAt(events, i);
    assert forall k :: 0 <= k < |after| ==> after[k] == if k < i then events[k] else events[k + 1];
    forall j, k | 0 <= j < k < |after| ensures after[j].id != after[k].id {
      var j', k' := if j < i then j else j + 1, if k < i then k else k + 1;
      assert after[j] == events[j'] && after[k] == events[k'];
    }
  }

  /** `DELETE /events/:id`. Rejected requests change nothing; an accepted one
      removes exactly the found event and returns it. */
  method DeleteEvent(db: Store, caller: Claims, eventId: Option<int>) returns (reply: Reply<Event>)
    requires db.Valid()
    modifies db
    ensures db.Valid()
    ensures db.users == old(db.users)
    ensures db.userIdCounter == old(db.userIdCounter) && db.eventIdCounter == old(db.eventIdCounter)
    ensures db.issuedUserIds == old(db.issuedUserIds) && db.issuedEventIds == old(db.issuedEventIds)
    ensures var check := DeletionCheck(old(db.events), caller, eventId);
            if check.Reject? then
              reply == Refuse(check) && db.events == old(db.events)
            else
              && db.events == RemoveAt(old(db.events), check.value)
              && reply == Ok(200, DELETED, old(db.events)[check.value])
  {
    var check := DeletionCheck(db.events, caller, eventId);
    if check.Reject? {
      return Refuse(check);
    }
    var i := check.value;
    var removed := db.events[i];
    RemoveAtKeepsValid(db.events, db.eventIdCounter, i);
    db.events := RemoveAt(db.events, i);
    reply := Ok(200, DELETED, removed);
  }

  // ------------------------------------------------------------ registration

  /** The checks of the registration workflow, in order: the event exists,
      the user exists, the user is not yet a participant, the event is not
      full. On success the indices of the event and of the user. */
  function JoinCheck(events: seq<Event>, users: seq<User>, eventId: Option<int>, callerId: int): (r: Outcome<(nat, nat)>)
    ensures r == Reject(404, EVENT_NOT_FOUND)
            <==> eventId.None? || forall k :: 0 <= k < |events| ==> events[k].id != eventId.value
    ensures r == Reject(404, USER_NOT_FOUND)
            <==> EventIndex(events, eventId) >= 0 && forall k :: 0 <= k < |users| ==> users[k].id != callerId
    ensures r == Reject(400, ALREADY_REGISTERED)
            <==> EventIndex(events, eventId) >= 0 && UserIndex(users, callerId) >= 0
                 && callerId in events[EventIndex(events, eventId)].participants
    ensures r == Reject(400, AT_CAPACITY)
            <==> EventIndex(events, eventId) >= 0 && UserIndex(users, callerId) >= 0
                 && callerId !in events[EventIndex(events, eventId)].participants
                 && IsFull(events[EventIndex(events, eventId)])
    ensures r.Accept? ==> && r.value.0 == EventIndex(events, eventId) && r.value.1 == UserIndex(users, callerId)
                          && eventId == Some(events[r.value.0].id) && users[r.value.1].id == callerId
                          && callerId !in events[r.value.0].participants && !IsFull(events[r.value.0])
    ensures r.Accept?
            <==> EventIndex(events, eventId) >= 0 && UserIndex(users, callerId) >= 0
                 && callerId !in events[EventIndex(events, eventId)].participants
                 && !IsFull(events[EventIndex(events, eventId)])
  {
    var i := EventIndex(events, eventId);
    if i == -1 then Reject(404, EVENT_NOT_FOUND)
    else
      var u := UserIndex(users, callerId);
      if u == -1 then Reject(404, USER_NOT_FOUND)
      else if callerId in events[i].participants then Reject(400, ALREADY_REGISTERED)
      else if IsFull(events[i]) then Reject(400, AT_CAPACITY)
      else Accept((i, u))
  }

  /** `event.participants.push(id)` */
  function AddParticipant(e: Event, userId: int): Event {
    e.(participants := e.participants + [userId])
  }

  /** `user.registeredEvents.push(eventId)` */
  function AddRegistration(u: User, eventId: int): User {
    u.(registeredEvents := u.registeredEvents + [eventId])
  }

  /** A participant who passed the checks appears exactly once afterwards,
      and a limit that was not reached is at most met. */
  lemma JoinKeepsInvariants(e: Event, userId: int)
    requires NoDuplicates(e.participants) && userId !in e.participants && !IsFull(e)
    ensures NoDuplicates(AddParticipant(e, userId).participants)
    ensures multiset(AddParticipant(e, userId).participants)[userId] == 1
    ensures WithinCapacity(AddParticipant(e, userId))
  {
    AppendFresh(e.participants, userId);
    assert multiset(e.participants)[userId] == 0;
  }

  /** The two appends of a registration keep both sides in agreement: the
      new participant is enrolled in the event, and nobody loses an enrolment. */
  lemma JoinKeepsLinked(users: seq<User>, events: seq<Event>, i: int, u: int, userId: int)
    requires Linked(users, events)
    requires 0 <= i < |events| && 0 <= u < |users| && users[u].id == userId
    ensures Linked(users[u := AddRegistration(users[u], events[i].id)],
                   events[i := AddParticipant(events[i], userId)])
  {
    var users' := users[u := AddRegistration(users[u], events[i].id)];
    var events' := events[i := AddParticipant(events[i], userId)];
    forall j, p | 0 <= j < |events'| && p in events'[j].participants
      ensures Enrolled(users', p, events'[j].id)
    {
      if j == i && p == userId {
        assert users'[u].id == userId && events[i].id in users'[u].registeredEvents;
      } else {
        assert p in events[j].participants;
        var k :| 0 <= k < |users| && users[k].id == p && events[j].id in users[k].registeredEvents;
        assert users'[k].id == p && events'[j].id in users'[k].registeredEvents;
      }
    }
  }

  /** A one-seat event: the first attendee gets in and
      a second, different attendee is turned away as the event is full. */
  lemma OneSeatExample(e: Event, first: User, second: User)
    requires e.maxParticipants == Some(1) && e.participants == []
    requires first.id != second.id
    ensures JoinCheck([e], [first, second], Some(e.id), first.id) == Accept((0, 0))
    ensures JoinCheck([AddParticipant(e, first.id)], [first, second], Some(e.id), second.id)
            == Reject(400, AT_CAPACITY)
  {
    assert EventIndex([e], Some(e.id)) == 0;
    assert EventIndex([AddParticipant(e, first.id)], Some(e.id)) == 0;
    var users := [first, second];
    assert users[1].id == second.id && users[0].id != second.id;
    assert UserIndex(users, second.id) == 1;
  }

  /** `POST /events/:id/register`. Rejected requests change nothing; an
      accepted one appends the caller to the event's participants and the
      event to the caller's registered events, and changes nothing else. The
      confirmation e-mail is sent without waiting and cannot affect state or
      reply. */
  method RegisterForEvent(db: Store, caller: Claims, eventId: Option<int>) returns (reply: Reply<EventView>)
    requires db.Valid()
    modifies db
    ensures db.Valid()
    ensures db.userIdCounter == old(db.userIdCounter) && db.eventIdCounter == old(db.eventIdCounter)
    ensures db.issuedUserIds == old(db.issuedUserIds) && db.issuedEventIds == old(db.issuedEventIds)
    ensures var check := JoinCheck(old(db.events), old(db.users), eventId, caller.id);
            if check.Reject? then
              && reply == Refuse(check)
              && db.events == old(db.events) && db.users == old(db.users)
            else
              var (i, u) := check.value;
              var joined := AddParticipant(old(db.events)[i], caller.id);
              && db.events == old(db.events)[i := joined]
              && db.users == old(db.users)[u := AddRegistration(old(db.users)[u], eventId.value)]
              && reply == Ok(201, JOINED, View(joined))
              && WithinCapacity(joined)
  {
    var check := JoinCheck(db.events, db.users, eventId, caller.id);
    if check.Reject? {
      return Refuse(check);
    }
    var (i, u) := check.value;
    var joined := AddParticipant(db.events[i], caller.id);
    JoinKeepsInvariants(db.events[i], caller.id);
    ReplaceKeepsValid(db.events, db.eventIdCounter, i, joined);
    JoinKeepsLinked(db.users, db.events, i, u, caller.id);
    db.events := db.events[i := joined];
    db.users := db.users[u := AddRegistration(db.users[u], eventId.value)];
    reply := Ok(201, JOINED, View(joined));
  }
}
