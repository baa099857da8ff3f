/** The event registry of the events context (src/context/events-context.tsx): the
    list updates handed to `setEvents` by `addEvent`, `addParticipant` and
    `addExpense`, and the lookup `getEventById`. The fresh id that `generateId` would
    produce is a parameter, and so is `String.prototype.toLowerCase`. */
module EventRegistry {
  import opened Types

  // ---------------------------------------------------------------------------
  // Lookup.

  /** `events.find(event => event.id === id)`: the first event with that id. */
  function GetEventById(events: seq<Event>, id: string): (r: Option<Event>)
    ensures r.None? <==> forall i :: 0 <= i < |events| ==> events[i].id != id
    ensures r.Some? ==> exists i :: 0 <= i < |events| && events[i] == r.value && r.value.id == id &&
                                    forall j :: 0 <= j < i ==> events[j].id != id
  {
    if |events| == 0 then None
    else if events[0].id == id then Some(events[0])
    else
      var r := GetEventById(events[1..], id);
      assert forall i :: 1 <= i < |events| ==> events[i] == events[1..][i - 1];
      r
  }

  // ---------------------------------------------------------------------------
  // addEvent.

  /** The event `addEvent(name)` creates, with `id` standing for `generateId()`. */
  function NewEvent(id: string, name: string): Event
  {
    Event(id, name, [], [])
  }

  /** The updater of `addEvent`: the new event goes at the end. */
  function AddEvent(events: seq<Event>, name: string, freshId: string): (r: seq<Event>)
    ensures |r| == |events| + 1 && r[..|events|] == events
    ensures r[|events|].id == freshId && r[|events|].name == name
    ensures r[|events|].participants == [] && r[|events|].expenses == []
  {
    events + [NewEvent(freshId, name)]
  }

  /** After `addEvent`, a fresh id finds the new event, and every other id finds what
      it found before. */
  lemma AddEventLookup(events: seq<Event>, name: string, freshId: string, id: string)
    requires forall i :: 0 <= i < |events| ==> events[i].id != freshId
    ensures id == freshId ==> GetEventById(AddEvent(events, name, freshId), id) == Some(NewEvent(freshId, name))
    ensures id != freshId ==> GetEventById(AddEvent(events, name, freshId), id) == GetEventById(events, id)
  {
    var r := AddEvent(events, name, freshId);
    LookupPrefix(events, [NewEvent(freshId, name)], id);
    assert r == events + [NewEvent(freshId, name)];
  }

  /** A lookup in `a + b` finds what it finds in `a`, and otherwise what it finds in `b`. */
  lemma {:induction false} LookupPrefix(a: seq<Event>, b: seq<Event>, id: string)
    ensures GetEventById(a + b, id) == if GetEventById(a, id).Some? then GetEventById(a, id) else GetEventById(b, id)
  {
    if |a| > 0 {
      assert (a + b)[1..] == a[1..] + b;
      LookupPrefix(a[1..], b, id);
    } else {
      assert a + b == b;
    }
  }

  // ---------------------------------------------------------------------------
  // addParticipant.

  /** `participants.some(p => lower(p.name) === lower(name))`. */
  predicate NameTaken(participants: seq<Participant>, name: string, lower: string -> string)
  {
    exists p :: p in participants && lower(p.name) == lower(name)
  }

  /** No two participants of an event have the same name once lower-cased. */
  predicate NamesDistinct(participants: seq<Participant>, lower: string -> string)
  {
    forall i, j :: 0 <= i < j < |participants| ==> lower(participants[i].name) != lower(participants[j].name)
  }

  /** Every event of the list keeps its participant names distinct. */
  predicate AllNamesDistinct(events: seq<Event>, lower: string -> string)
  {
    forall i :: 0 <= i < |events| ==> NamesDistinct(events[i].participants, lower)
  }

  /** What the updater of `addParticipant` does to one matching event: nothing when
      the name is taken, otherwise append the new participant. */
  function WithParticipant(e: Event, name: string, freshId: string, lower: string -> string): (r: Event)
    ensures r.id == e.id && r.name == e.name && r.expenses == e.expenses
    ensures NameTaken(e.participants, name, lower) ==> r == e
    ensures !NameTaken(e.participants, name, lower) ==>
      r.participants == e.participants + [Participant(freshId, name)]
  {
    if NameTaken(e.participants, name, lower) then e
    else e.(participants := e.participants + [Participant(freshId, name)])
  }

  /** The updater of `addParticipant`: `events.map(...)`, changing only the events
      with id `eventId`. */
  function AddParticipantUpdate(events: seq<Event>, eventId: string, name: string, freshId: string,
                                lower: string -> string): (r: seq<Event>)
    ensures |r| == |events|
    ensures forall i :: 0 <= i < |events| ==>
      r[i] == if events[i].id == eventId then WithParticipant(events[i], name, freshId, lower) else events[i]
  {
    seq(|events|, i requires 0 <= i < |events| =>
      if events[i].id == eventId then WithParticipant(events[i], name, freshId, lower) else events[i])
  }

  /** An id no event carries leaves the list as it was. */
  lemma AddParticipantUnknown(events: seq<Event>, eventId: string, name: string, freshId: string,
                              lower: string -> string)
    requires GetEventById(events, eventId).None?
    ensures AddParticipantUpdate(events, eventId, name, freshId, lower) == events
  {
  }

  /** Adding a participant keeps the names in every event distinct ignoring case. */
  lemma AddParticipantKeepsNamesDistinct(events: seq<Event>, eventId: string, name: string, freshId: string,
                                         lower: string -> string)
    requires AllNamesDistinct(events, lower)
    ensures AllNamesDistinct(AddParticipantUpdate(events, eventId, name, freshId, lower), lower)
  {
    var r := AddParticipantUpdate(events, eventId, name, freshId, lower);
    forall k | 0 <= k < |r| ensures NamesDistinct(r[k].participants, lower) {
      var e := events[k];
      if e.id == eventId && !NameTaken(e.participants, name, lower) {
        var ps := r[k].participants;
        assert ps == e.participants + [Participant(freshId, name)];
        forall i, j | 0 <= i < j < |ps| ensures lower(ps[i].name) != lower(ps[j].name) {
          if j == |ps| - 1 {
            assert ps[i] in e.participants;
          } else {
            assert ps[i] == e.participants[i] && ps[j] == e.participants[j];
          }
        }
      }
    }
  }

  /** `addParticipant(eventId, name)`: the list after the updater has run, and the
      participant the updater stored in its outer variable (`undefined` when no event
      has that id or the name is taken there). */
  method AddParticipant(events: seq<Event>, eventId: string, name: string, freshId: string,
                        lower: string -> string)
    returns (updated: seq<Event>, added: Option<Participant>)
    ensures updated == AddParticipantUpdate(events, eventId, name, freshId, lower)
    ensures added.Some? <==> exists i :: 0 <= i < |events| && events[i].id == eventId &&
                                         !NameTaken(events[i].participants, name, lower)
    ensures added.Some? ==> added.value == Participant(freshId, name)
  {
    updated := [];
    added := None;
    for i := 0 to |events|
      invariant updated == AddParticipantUpdate(events[..i], eventId, name, freshId, lower)
      invariant added.Some? <==> exists k :: 0 <= k < i && events[k].id == eventId &&
                                            !NameTaken(events[k].participants, name, lower)
      invariant added.Some? ==> added.value == Participant(freshId, name)
    {
      var event := events[i];
      if event.id == eventId {
        if NameTaken(event.participants, name, lower) {
          updated := updated + [event];
        } else {
          var participant := Participant(freshId, name);
          added := Some(participant);
          updated := updated + [event.(participants := event.participants + [participant])];
        }
      } else {
        updated := updated + [event];
      }
    }
    assert events[..|events|] == events;
  }

  // ---------------------------------------------------------------------------
  // addExpense.

  /** The expense `addExpense` stores: the draft with the fresh id. */
  function NewExpense(draft: ExpenseDraft, id: string): Expense
  {
    Expense(id, draft.description, draft.amount, draft.payerId, draft.participantIds)
  }

  /** The updater of `addExpense`: the expense goes at the end of every event with id
      `eventId`, without any check of its fields; participants are left alone. */
  function AddExpenseUpdate(events: seq<Event>, eventId: string, draft: ExpenseDraft, freshId: string): (r: seq<Event>)
    ensures |r| == |events|
    ensures forall i :: 0 <= i < |events| ==>
      r[i].id == events[i].id && r[i].name == events[i].name && r[i].participants == events[i].participants
    ensures forall i :: 0 <= i < |events| ==>
      r[i].expenses == if events[i].id == eventId then events[i].expenses + [NewExpense(draft, freshId)] else events[i].expenses
  {
    seq(|events|, i requires 0 <= i < |events| =>
      var e := events[i];
      if e.id == eventId then e.(expenses := e.expenses + [NewExpense(draft, freshId)]) else e)
  }

  /** An id no event carries leaves the list as it was. */
  lemma AddExpenseUnknown(events: seq<Event>, eventId: string, draft: ExpenseDraft, freshId: string)
    requires GetEventById(events, eventId).None?
    ensures AddExpenseUpdate(events, eventId, draft, freshId) == events
  {
  }

  /** Adding an expense touches no participant list, so the names stay distinct. */
  lemma AddExpenseKeepsNamesDistinct(events: seq<Event>, eventId: string, draft: ExpenseDraft, freshId: string,
                                     lower: string -> string)
    requires AllNamesDistinct(events, lower)
    ensures AllNamesDistinct(AddExpenseUpdate(events, eventId, draft, freshId), lower)
  {
  }

  /** `addExpense(eventId, expenseData)`: the list after the updater has run, and the
      expense the updater stored in its outer variable (`undefined` when no event has
      that id). */
  method AddExpense(events: seq<Event>, eventId: string, draft: ExpenseDraft, freshId: string)
    returns (updated: seq<Event>, added: Option<Expense>)
    ensures updated == AddExpenseUpdate(events, eventId, draft, freshId)
    ensures added.Some? <==> GetEventById(events, eventId).Some?
    ensures added.Some? ==> added.value == NewExpense(draft, freshId)
  {
    updated := [];
    added := None;
    for i := 0 to |events|
      invariant updated == AddExpenseUpdate(events[..i], eventId, draft, freshId)
      invariant added.Some? <==> exists k :: 0 <= k < i && events[k].id == eventId
      invariant added.Some? ==> added.value == NewExpense(draft, freshId)
    {
      var event := events[i];
      if event.id == eventId {
        var expense := NewExpense(draft, freshId);
        added := Some(expense);
        updated := updated + [event.(expenses := event.expenses + [expense])];
      } else {
        updated := updated + [event];
      }
    }
    assert events[..|events|] == events;
  }

  // ---------------------------------------------------------------------------
  // Lookups after an update.

  /** The updaters of `addParticipant` and `addExpense` keep every event's id in its
      place, so a lookup by any id finds an event exactly when it did before, and for
      an id other than `eventId` finds the same event. */
  lemma UpdateLookup(events: seq<Event>, eventId: string, name: string, draft: ExpenseDraft, freshId: string,
                     lower: string -> string, id: string)
    ensures GetEventById(AddParticipantUpdate(events, eventId, name, freshId, lower), id).Some?
            == GetEventById(events, id).Some?
    ensures GetEventById(AddExpenseUpdate(events, eventId, draft, freshId), id).Some?
            == GetEventById(events, id).Some?
    ensures id != eventId ==>
      GetEventById(AddParticipantUpdate(events, eventId, name, freshId, lower), id) == GetEventById(events, id) &&
      GetEventById(AddExpenseUpdate(events, eventId, draft, freshId), id) == GetEventById(events, id)
  {
    var p := AddParticipantUpdate(events, eventId, name, freshId, lower);
    var x := AddExpenseUpdate(events, eventId, draft, freshId);
    if id != eventId {
      SameUntilFirst(events, p, id);
      SameUntilFirst(events, x, id);
    }
  }

  /** Two lists whose events carry the same ids, and agree on every event with id
      `id`, give the same lookup for `id`. */
  lemma {:induction false} SameUntilFirst(a: seq<Event>, b: seq<Event>, id: string)
    requires |a| == |b|
    requires forall i :: 0 <= i < |a| ==> a[i].id == b[i].id
    requires forall i :: 0 <= i < |a| && a[i].id == id ==> a[i] == b[i]
    ensures GetEventById(a, id) == GetEventById(b, id)
  {
    if |a| > 0 {
      SameUntilFirst(a[1..], b[1..], id);
    }
  }
}
