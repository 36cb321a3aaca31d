/** Events: admins create, update and delete them; everyone lists them by date. */
module Events {
  import opened Outcomes
  import opened Entities
  import opened AdminAuth
  import Tables

  /** The body of an event create or update request. */
  datatype EventInput = EventInput(title: string, date: int, shortInfo: string, coverUrl: Option<string>)

  /** The short-info validator: a value with a line break is refused. */
  function ValidateShortInfo(v: string): (r: Result<string>)
    ensures r.Ok? <==> SingleLine(v)
    ensures r.Ok? ==> r.value == v
    ensures r.Err? ==> r.error == Validation
  {
    if '\n' in v || '\r' in v then Err(Validation) else Ok(v)
  }

  /** Request-body validation: the length limit of the field, then the validator. */
  function ValidateEvent(input: EventInput): (r: Result<EventInput>)
    ensures r.Ok? <==> ShortInfoOk(input.shortInfo)
    ensures r.Ok? ==> r.value == input
    ensures r.Err? ==> r.error == Validation
  {
    if |input.shortInfo| > MaxShortInfoLength then Err(Validation)
    else
      match ValidateShortInfo(input.shortInfo)
      case Err(e) => Err(e)
      case Ok(_) => Ok(input)
  }

  function ToEvent(input: EventInput): Event {
    Event(input.title, input.date, input.shortInfo, input.coverUrl)
  }

  /** POST /admin/events. */
  function CreateEvent(s: State, key: Option<string>, input: EventInput): (r: Result<(State, nat)>)
    ensures r == Err(Unauthorized) <==> !IsAdmin(key)
    ensures r == Err(Validation) <==> IsAdmin(key) && !ShortInfoOk(input.shortInfo)
    ensures r.Ok? <==> IsAdmin(key) && ShortInfoOk(input.shortInfo)
    ensures r.Ok? ==>
      var (s', id) := r.value;
      && id == s.nextId
      && s'.events.Keys == s.events.Keys + {id}
      && s'.events[id] == Event(input.title, input.date, input.shortInfo, input.coverUrl)
      && (forall k :: k in s.events && k != id ==> s'.events[k] == s.events[k])
      && s' == s.(events := s'.events, nextId := s'.nextId)
  {
    if !IsAdmin(key) then Err(Unauthorized)
    else
      match ValidateEvent(input)
      case Err(e) => Err(e)
      case Ok(ev) =>
        var id := s.nextId;
        Ok((s.(events := s.events[id := ToEvent(ev)], nextId := id + 1), id))
  }

  /** PUT /admin/events/{id}: the body is validated before the event is looked up. */
  function UpdateEvent(s: State, key: Option<string>, eventId: nat, input: EventInput): (r: Result<State>)
    ensures r == Err(Unauthorized) <==> !IsAdmin(key)
    ensures r == Err(Validation) <==> IsAdmin(key) && !ShortInfoOk(input.shortInfo)
    ensures r == Err(NotFound) <==> IsAdmin(key) && ShortInfoOk(input.shortInfo) && eventId !in s.events
    ensures r.Ok? <==> IsAdmin(key) && ShortInfoOk(input.shortInfo) && eventId in s.events
    ensures r.Ok? ==>
      && r.value.events.Keys == s.events.Keys
      && r.value.events[eventId] == Event(input.title, input.date, input.shortInfo, input.coverUrl)
      && (forall k :: k in s.events && k != eventId ==> r.value.events[k] == s.events[k])
      && r.value == s.(events := r.value.events)
  {
    if !IsAdmin(key) then Err(Unauthorized)
    else
      match ValidateEvent(input)
      case Err(e) => Err(e)
      case Ok(ev) =>
        if eventId !in s.events then Err(NotFound)
        else Ok(s.(events := s.events[eventId := ToEvent(ev)]))
  }

  /** DELETE /admin/events/{id}. */
  function DeleteEvent(s: State, key: Option<string>, eventId: nat): (r: Result<State>)
    ensures r == Err(Unauthorized) <==> !IsAdmin(key)
    ensures r == Err(NotFound) <==> IsAdmin(key) && eventId !in s.events
    ensures r.Ok? <==> IsAdmin(key) && eventId in s.events
    ensures r.Ok? ==>
      && r.value.events.Keys == s.events.Keys - {eventId}
      && (forall k :: k in r.value.events ==> r.value.events[k] == s.events[k])
      && r.value == s.(events := r.value.events)
  {
    if !IsAdmin(key) then Err(Unauthorized)
    else if eventId !in s.events then Err(NotFound)
    else Ok(s.(events := s.events - {eventId}))
  }

  /** Ascending date becomes a descending sort key. */
  function DateKey(e: Event): int {
    -e.date
  }

  /** GET /events (and GET /admin/events behind the gate): every event, earliest date first. */
  function ListEvents(s: State): (r: seq<nat>)
    ensures forall id :: id in r <==> id in s.events
    ensures forall i :: 0 <= i < |r| ==> r[i] in s.events
    ensures forall i, j :: 0 <= i < j < |r| ==> r[i] != r[j] && s.events[r[i]].date <= s.events[r[j]].date
  {
    Tables.Ordered(s.events, s.events.Keys, DateKey)
  }

  function AdminListEvents(s: State, key: Option<string>): (r: Result<seq<nat>>)
    ensures r.Err? <==> !IsAdmin(key)
    ensures r.Err? ==> r.error == Unauthorized
    ensures r.Ok? ==> r.value == ListEvents(s)
  {
    if !IsAdmin(key) then Err(Unauthorized) else Ok(ListEvents(s))
  }

  /** Updating twice with the same body is the same as updating once. */
  lemma UpdateIdempotent(s: State, key: Option<string>, eventId: nat, input: EventInput)
    ensures var r := UpdateEvent(s, key, eventId, input);
            r.Ok? ==> UpdateEvent(r.value, key, eventId, input) == r
  {
    var r := UpdateEvent(s, key, eventId, input);
    if r.Ok? {
      assert r.value.events[eventId := ToEvent(input)] == r.value.events;
    }
  }

  /** Every stored event stays single-line and within the column width. */
  lemma CreateEventPreservesValid(s: State, key: Option<string>, input: EventInput)
    requires s.Valid()
    ensures var r := CreateEvent(s, key, input); r.Ok? ==> r.value.0.Valid()
  {
  }

  lemma UpdateEventPreservesValid(s: State, key: Option<string>, eventId: nat, input: EventInput)
    requires s.Valid()
    ensures var r := UpdateEvent(s, key, eventId, input); r.Ok? ==> r.value.Valid()
  {
  }

  lemma DeleteEventPreservesValid(s: State, key: Option<string>, eventId: nat)
    requires s.Valid()
    ensures var r := DeleteEvent(s, key, eventId); r.Ok? ==> r.value.Valid()
  {
  }
}
