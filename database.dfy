/**
 * The process-wide in-memory store: the `users` and `events` lists and the
 * two identifier counters, with the records they hold.
 */
module Database {
  import opened Common
  import opened Seqs

  /** A stored password: what the one-way hash made of it. The hash is
      modelled as injective on whole passwords; bcrypt itself reads only the
      first 72 bytes of the UTF-8 encoding, which this model does not. */
  datatype Credential = Hashed(secret: string)

  /** Whether a password is the one a stored credential was made from
      (what `bcrypt.compare` answers). */
  predicate Matches(password: string, stored: Credential) {
    stored.secret == password
  }

  /** A user record. `createdAt` is the clock reading at registration. */
  datatype User = User(
    id: int,
    email: string,
    password: Credential,
    name: string,
    role: string,
    createdAt: int,
    registeredEvents: seq<int>)

  /** An event record. `maxParticipants == None` is the stored `null`;
      `organizer` is the organizer's name as it was when the event was created. */
  datatype Event = Event(
    id: int,
    name: string,
    description: string,
    date: string,
    time: string,
    location: string,
    maxParticipants: Option<int>,
    organizerId: int,
    organizer: string,
    participants: seq<int>,
    createdAt: int,
    updatedAt: int)

  function UserIds(users: seq<User>): seq<int> {
    seq(|users|, i requires 0 <= i < |users| => users[i].id)
  }

  function UserEmails(users: seq<User>): seq<string> {
    seq(|users|, i requires 0 <= i < |users| => users[i].email)
  }

  function EventIds(events: seq<Event>): seq<int> {
    seq(|events|, i requires 0 <= i < |events| => events[i].id)
  }

  /** `users.find(u => u.id === id)`, as the index of the first match or -1. */
  function UserIndex(users: seq<User>, id: int): (r: int)
    ensures -1 <= r < |users|
    ensures r == -1 <==> forall k :: 0 <= k < |users| ==> users[k].id != id
    ensures 0 <= r ==> users[r].id == id && forall k :: 0 <= k < r ==> users[k].id != id
  {
    var r := IndexOf(UserIds(users), id);
    assert forall k :: 0 <= k < |users| ==> UserIds(users)[k] == users[k].id;
    assert 0 <= r ==> forall k :: 0 <= k < r ==> UserIds(users)[..r][k] == users[k].id;
    r
  }

  /** `users.find(u => u.email === email)`, compared with exact string equality. */
  function EmailIndex(users: seq<User>, email: string): (r: int)
    ensures -1 <= r < |users|
    ensures r == -1 <==> forall k :: 0 <= k < |users| ==> users[k].email != email
    ensures 0 <= r ==> users[r].email == email && forall k :: 0 <= k < r ==> users[k].email != email
  {
    var r := IndexOf(UserEmails(users), email);
    assert forall k :: 0 <= k < |users| ==> UserEmails(users)[k] == users[k].email;
    assert 0 <= r ==> forall k :: 0 <= k < r ==> UserEmails(users)[..r][k] == users[k].email;
    r
  }

  /** `events.find(e => e.id === parseInt(param))`. A parameter that is not a
      number (`None`, JavaScript's NaN) equals no identifier. */
  function EventIndex(events: seq<Event>, id: Option<int>): (r: int)
    ensures -1 <= r < |events|
    ensures r == -1 <==> id.None? || forall k :: 0 <= k < |events| ==> events[k].id != id.value
    ensures 0 <= r ==> id.Some? && events[r].id == id.value
                       && forall k :: 0 <= k < r ==> events[k].id != id.value
  {
    if id.None? then -1
    else
      var r := IndexOf(EventIds(events), id.value);
      assert forall k :: 0 <= k < |events| ==> EventIds(events)[k] == events[k].id;
      assert 0 <= r ==> forall k :: 0 <= k < r ==> EventIds(events)[..r][k] == events[k].id;
      r
  }

  /** Identifiers handed out since the counter was last set: strictly
      increasing and all below the counter's current value. */
  predicate Issued(ids: seq<int>, counter: int) {
    && (forall i, j :: 0 <= i < j < |ids| ==> ids[i] < ids[j])
    && (forall i :: 0 <= i < |ids| ==> ids[i] < counter)
  }

  /** Users carry positive identifiers below the user counter, pairwise
      distinct identifiers and pairwise distinct e-mails. */
  predicate UsersValid(users: seq<User>, counter: int) {
    && (forall i :: 0 <= i < |users| ==> 1 <= users[i].id < counter)
    && (forall i, j :: 0 <= i < j < |users| ==> users[i].id != users[j].id)
    && (forall i, j :: 0 <= i < j < |users| ==> users[i].email != users[j].email)
  }

  /** Events carry positive identifiers below the event counter, pairwise
      distinct identifiers, and participant lists without repetitions. */
  predicate EventsValid(events: seq<Event>, counter: int) {
    && (forall i :: 0 <= i < |events| ==> 1 <= events[i].id < counter)
    && (forall i, j :: 0 <= i < j < |events| ==> events[i].id != events[j].id)
    && (forall i :: 0 <= i < |events| ==> NoDuplicates(events[i].participants))
  }

  /** Some user with identifier `userId` lists `eventId` among the events it registered for. */
  ghost predicate Enrolled(users: seq<User>, userId: int, eventId: int) {
    exists k :: 0 <= k < |users| && users[k].id == userId && eventId in users[k].registeredEvents
  }

  /** The two sides of a registration agree: every participant of an event
      is a stored user whose registered events include that event. (The
      converse is not kept: deleting an event leaves its identifier in the
      users' lists.) */
  ghost predicate Linked(users: seq<User>, events: seq<Event>) {
    forall i, p :: 0 <= i < |events| && p in events[i].participants ==> Enrolled(users, p, events[i].id)
  }

  /** A new user takes no enrolment away. */
  lemma LinkedAfterNewUser(users: seq<User>, events: seq<Event>, u: User)
    requires Linked(users, events)
    ensures Linked(users + [u], events)
  {
    forall i, p | 0 <= i < |events| && p in events[i].participants
      ensures Enrolled(users + [u], p, events[i].id)
    {
      var k :| 0 <= k < |users| && users[k].id == p && events[i].id in users[k].registeredEvents;
      assert (users + [u])[k] == users[k];
    }
  }

  /** The shared store. Both lists start empty and both counters at 1; the
      counters are post-incremented by their getters. */
  class Store {
    var users: seq<User>
    var events: seq<Event>
    var userIdCounter: int
    var eventIdCounter: int
    /** The user identifiers returned since construction or the last reset. */
    ghost var issuedUserIds: seq<int>
    /** The event identifiers returned since construction or the last reset. */
    ghost var issuedEventIds: seq<int>

    ghost predicate Valid()
      reads this
    {
      && 1 <= userIdCounter && 1 <= eventIdCounter
      && Issued(issuedUserIds, userIdCounter) && Issued(issuedEventIds, eventIdCounter)
      && UsersValid(users, userIdCounter) && EventsValid(events, eventIdCounter)
      && Linked(users, events)
    }

    constructor ()
      ensures Valid()
      ensures users == [] && events == []
      ensures userIdCounter == 1 && eventIdCounter == 1
      ensures issuedUserIds == [] && issuedEventIds == []
    {
      users, events := [], [];
      userIdCounter, eventIdCounter := 1, 1;
      issuedUserIds, issuedEventIds := [], [];
    }

    /** `userIdCounter++`: answers the counter and advances it by one; the
        answer exceeds every identifier handed out before it. */
    method GetNextUserId() returns (id: int)
      modifies this`userIdCounter, this`issuedUserIds
      ensures id == old(userIdCounter) && userIdCounter == id + 1
      ensures issuedUserIds == old(issuedUserIds) + [id]
      ensures eventIdCounter == old(eventIdCounter) && issuedEventIds == old(issuedEventIds)
      ensures users == old(users) && events == old(events)
      ensures old(Valid()) ==> Valid()
    {
      id := userIdCounter;
      userIdCounter := userIdCounter + 1;
      issuedUserIds := issuedUserIds + [id];
    }

    /** `eventIdCounter++`, independent of the user counter. */
    method GetNextEventId() returns (id: int)
      modifies this`eventIdCounter, this`issuedEventIds
      ensures id == old(eventIdCounter) && eventIdCounter == id + 1
      ensures issuedEventIds == old(issuedEventIds) + [id]
      ensures userIdCounter == old(userIdCounter) && issuedUserIds == old(issuedUserIds)
      ensures users == old(users) && events == old(events)
      ensures old(Valid()) ==> Valid()
    {
      id := eventIdCounter;
      eventIdCounter := eventIdCounter + 1;
      issuedEventIds := issuedEventIds + [id];
    }

    /** Sets both counters back to 1 and leaves the lists alone. The store
        invariant then holds exactly when both lists are empty: with records
        present, the next identifiers handed out would repeat theirs. */
    method ResetCounters()
      modifies this`userIdCounter, this`eventIdCounter, this`issuedUserIds, this`issuedEventIds
      ensures userIdCounter == 1 && eventIdCounter == 1
      ensures issuedUserIds == [] && issuedEventIds == []
      ensures users == old(users) && events == old(events)
      ensures Valid() <==> users == [] && events == []
    {
      userIdCounter, eventIdCounter := 1, 1;
      issuedUserIds, issuedEventIds := [], [];
      if users != [] {
        assert !UsersValid(users, 1) by { assert !(1 <= users[0].id < 1); }
      }
      if events != [] {
        assert !EventsValid(events, 1) by { assert !(1 <= events[0].id < 1); }
      }
    }
  }
}
