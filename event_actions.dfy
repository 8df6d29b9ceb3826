/**
 * The server actions on events. The `events` table is a map from id to row held
 * by a class; the signed-in user is the identity provider's answer; what the
 * store replies to each call (success, an error with code and message, or a
 * thrown exception) is an input. Each action validates, then authenticates, then
 * checks ownership where it targets one row, then reads or writes, and stops at
 * the first failure.
 */
module EventActions {
  import opened Wrappers
  import opened Text
  import opened Schema
  import opened SafeAction
  import opened EventTypes
  import opened LikePattern

  /** An error the store returns instead of data. */
  datatype StoreError = StoreError(code: string, message: string)

  /** What a `catch` receives: an `Error` with its message, or some other value. */
  datatype Thrown = ErrorInstance(message: string) | NonErrorValue

  /** How one store call ends. */
  datatype StoreReply = Ok | Err(error: StoreError) | Throws(thrown: Thrown)

  const UnexpectedError := "An unexpected error occurred"
  const EditDenied := "Event not found or you don't have permission to edit it"
  const DeleteDenied := "Event not found or you don't have permission to delete it"
  const InvalidUuid := "Invalid uuid"
  /** The store's code for "a single row was requested and none matched". */
  const NoRowsCode := "PGRST116"

  /** The message an action's `catch` returns. */
  function CaughtMessage(t: Thrown): (m: string)
    ensures t.ErrorInstance? ==> m == t.message
    ensures t.NonErrorValue? ==> m == UnexpectedError
  {
    match t
    case ErrorInstance(message) => message
    case NonErrorValue => UnexpectedError
  }

  /** The failure an action returns when a store call does not succeed. */
  function StoreFailure<T>(reply: StoreReply): (r: ActionResult<T>)
    requires !reply.Ok?
    ensures r.Failure?
    ensures reply.Err? ==> r.error == reply.error.message
    ensures reply.Throws? ==> r.error == CaughtMessage(reply.thrown)
  {
    if reply.Err? then Failure(reply.error.message) else Failure(CaughtMessage(reply.thrown))
  }

  /** `description || null`: an absent or empty description is stored as null. */
  function StoredDescription(d: Option<string>): (r: Option<string>)
    ensures r.None? <==> d.None? || d.value == ""
    ensures r.Some? ==> r == d
  {
    if d.Some? && d.value != "" then d else None
  }

  /** The row holds the caller-supplied fields of the form. */
  predicate HoldsForm(e: Event, d: EventFormData) {
    && e.name == d.name
    && e.sport_type == d.sport_type
    && e.date_time == d.date_time
    && e.description == StoredDescription(d.description)
    && e.venues == d.venues
  }

  /** The row `createEvent` inserts; id and timestamps are the store's defaults. */
  function NewRow(d: EventFormData, owner: UserId, id: Id, now: string): (e: Event)
    ensures HoldsForm(e, d)
    ensures e.id == id && e.user_id == owner
    ensures e.created_at == now && e.updated_at == now
  {
    Event(id, owner, d.name, d.sport_type, d.date_time, StoredDescription(d.description), d.venues, now, now)
  }

  /** The row `updateEvent` writes: every form field replaced, `updated_at` refreshed. */
  function Revise(row: Event, d: EventFormData, now: string): (e: Event)
    ensures HoldsForm(e, d)
    ensures e.id == row.id && e.user_id == row.user_id && e.created_at == row.created_at
    ensures e.updated_at == now
  {
    row.(name := d.name, sport_type := d.sport_type, date_time := d.date_time,
         description := StoredDescription(d.description), venues := d.venues, updated_at := now)
  }

  /**
   * The ownership check of update and delete. The owner lookup's error is ignored
   * (its data is then null), so a failed lookup, a missing row and another user's
   * row all give the same denial. `None` means the action may go on.
   */
  function OwnerCheck(rows: map<Id, Event>, id: Id, uid: UserId, lookup: StoreReply, denial: string): (r: Option<string>)
    ensures r.None? <==> lookup.Ok? && id in rows && rows[id].user_id == uid
    ensures lookup.Throws? ==> r == Some(CaughtMessage(lookup.thrown))
    ensures !lookup.Throws? && r.Some? ==> r == Some(denial)
  {
    match lookup
    case Throws(t) => Some(CaughtMessage(t))
    case Err(_) => Some(denial)
    case Ok => if id in rows && rows[id].user_id == uid then None else Some(denial)
  }

  /** A missing id and another user's id cannot be told apart by the caller. */
  lemma MissingAndForeignLookAlike(mine: map<Id, Event>, theirs: map<Id, Event>, id: Id, uid: UserId, denial: string)
    requires id !in mine
    requires id in theirs && theirs[id].user_id != uid
    ensures OwnerCheck(mine, id, uid, Ok, denial) == OwnerCheck(theirs, id, uid, Ok, denial) == Some(denial)
  {
  }

  /** The id schema of `getEventById` (zod's default message). */
  function ParseEventId(id: string): (r: SafeParse<string>)
    ensures r.Parsed? <==> IsUuid(id)
  {
    FromIssues(id, Check(IsUuid(id), InvalidUuid))
  }

  /** The two optional filters of `getEvents`; an empty `search` and an empty or "all" `sport_type` filter nothing. */
  predicate MatchesFilter(e: Event, f: EventFilterData)
    ensures (f.search.None? || f.search.value == "") && (f.sport_type.None? || f.sport_type.value in {"", "all"})
      ==> MatchesFilter(e, f)
    ensures MatchesFilter(e, f) && f.sport_type.Some? && f.sport_type.value !in {"", "all"}
      ==> e.sport_type == f.sport_type.value
  {
    && (f.search.None? || f.search.value == "" || ILike(SearchPattern(f.search.value), e.name))
    && (f.sport_type.None? || f.sport_type.value == "" || f.sport_type.value == "all"
        || e.sport_type == f.sport_type.value)
  }

  /** Ascending by `date_time`. */
  predicate SortedByDateTime(s: seq<Event>) {
    forall i, j :: 0 <= i < j < |s| ==> StrLe(s[i].date_time, s[j].date_time)
  }

  /** No row appears twice. */
  predicate NoRepeats(s: seq<Event>) {
    forall i, j :: 0 <= i < j < |s| ==> s[i] != s[j]
  }

  /** Appending a row not yet listed, and not earlier than any listed, keeps the list sorted and free of repeats. */
  lemma AppendLatest(s: seq<Event>, e: Event)
    requires SortedByDateTime(s) && NoRepeats(s) && e !in s
    requires forall i :: 0 <= i < |s| ==> StrLe(s[i].date_time, e.date_time)
    ensures SortedByDateTime(s + [e]) && NoRepeats(s + [e])
  {
  }

  /** A row of a non-empty set whose `date_time` is not after any other's. */
  lemma {:induction false} Earliest(s: set<Event>) returns (m: Event)
    requires s != {}
    ensures m in s && forall x :: x in s ==> StrLe(m.date_time, x.date_time)
    decreases |s|
  {
    var y :| y in s;
    var others := s - {y};
    if others == {} {
      StrLeReflexive(y.date_time);
      assert s == {y};
      return y;
    }
    var n := Earliest(others);
    StrLeTotal(y.date_time, n.date_time);
    if StrLe(y.date_time, n.date_time) {
      StrLeReflexive(y.date_time);
      forall x | x in others
        ensures StrLe(y.date_time, x.date_time)
      {
        StrLeTransitive(y.date_time, n.date_time, x.date_time);
      }
      m := y;
    } else {
      m := n;
    }
  }

  lemma EarliestExists(s: set<Event>)
    requires s != {}
    ensures exists e :: e in s && forall x :: x in s ==> StrLe(e.date_time, x.date_time)
  {
    var m := Earliest(s);
  }

  /**
   * `order("date_time", { ascending: true })`: the selected rows, each once, in
   * ascending `date_time`; rows with equal `date_time` come in an unspecified order.
   */
  method OrderByDateTime(selected: set<Event>) returns (r: seq<Event>)
    ensures SortedByDateTime(r)
    ensures |r| == |selected|
    ensures forall e :: e in r <==> e in selected
    ensures NoRepeats(r)
  {
    r := [];
    var rest := selected;
    while rest != {}
      invariant rest <= selected
      invariant |r| + |rest| == |selected|
      invariant forall e :: e in r <==> e in selected && e !in rest
      invariant NoRepeats(r)
      invariant SortedByDateTime(r)
      invariant forall i, e :: 0 <= i < |r| && e in rest ==> StrLe(r[i].date_time, e.date_time)
      decreases |rest|
    {
      EarliestExists(rest);
      var e :| e in rest && forall x :: x in rest ==> StrLe(e.date_time, x.date_time);
      AppendLatest(r, e);
      r := r + [e];
      rest := rest - {e};
    }
  }

  /** The `events` table. */
  class EventsTable {
    var rows: map<Id, Event>

    /** Every row is stored under its own id, and ids are UUIDs. */
    ghost predicate Valid()
      reads this
    {
      forall id :: id in rows ==> rows[id].id == id && IsUuid(id)
    }

    constructor ()
      ensures Valid() && rows == map[]
    {
      rows := map[];
    }

    /** Two different rows of the table carry different ids. */
    lemma DistinctRowsDistinctIds(a: Event, b: Event)
      requires Valid() && a in rows.Values && b in rows.Values && a != b
      ensures a.id != b.id
    {
      var ka :| ka in rows && rows[ka] == a;
      var kb :| kb in rows && rows[kb] == b;
    }

    /**
     * `createEvent`. `newId` and `now` are the store's defaults for the new row:
     * a fresh UUID and the current time.
     */
    method CreateEvent(input: EventFormData, session: AuthResponse, newId: Id, now: string, insert: StoreReply)
      returns (r: ActionResult<Event>)
      requires Valid() && IsUuid(newId) && newId !in rows
      modifies this
      ensures Valid()
      ensures var v := ValidateInput(ParseEventForm, input);
        v.Failure? ==> r == Failure(v.error) && rows == old(rows)
      ensures var v, a := ValidateInput(ParseEventForm, input), GetAuthenticatedUser(session);
        v.Success? && a.Failure? ==> r == Failure(a.error) && rows == old(rows)
      ensures var v, a := ValidateInput(ParseEventForm, input), GetAuthenticatedUser(session);
        v.Success? && a.Success? && !insert.Ok? ==> r == StoreFailure(insert) && rows == old(rows)
      ensures r.Success? <==> FormValid(input) && GetAuthenticatedUser(session).Success? && insert.Ok?
      ensures r.Success? ==>
        && r.data == NewRow(input, GetAuthenticatedUser(session).data, newId, now)
        && rows == old(rows)[newId := r.data]
    {
      var v := ValidateInput(ParseEventForm, input);
      if v.Failure? {
        return Failure(v.error);
      }
      var a := GetAuthenticatedUser(session);
      if a.Failure? {
        return Failure(a.error);
      }
      if !insert.Ok? {
        return StoreFailure(insert);
      }
      var row := NewRow(v.data, a.data, newId, now);
      rows := rows[newId := row];
      r := Success(row);
    }

    /**
     * `updateEvent`. `lookup` is how the owner lookup ends, `write` how the update
     * ends, `now` the new `updated_at`.
     */
    method UpdateEvent(input: EventUpdateData, session: AuthResponse, lookup: StoreReply, write: StoreReply, now: string)
      returns (r: ActionResult<Event>)
      requires Valid()
      modifies this
      ensures Valid()
      ensures var v := ValidateInput(ParseEventUpdate, input);
        v.Failure? ==> r == Failure(v.error) && rows == old(rows)
      ensures var v, a := ValidateInput(ParseEventUpdate, input), GetAuthenticatedUser(session);
        v.Success? && a.Failure? ==> r == Failure(a.error) && rows == old(rows)
      ensures var v, a := ValidateInput(ParseEventUpdate, input), GetAuthenticatedUser(session);
        v.Success? && a.Success? && OwnerCheck(old(rows), input.id, a.data, lookup, EditDenied).Some? ==>
          r == Failure(OwnerCheck(old(rows), input.id, a.data, lookup, EditDenied).value) && rows == old(rows)
      ensures var v, a := ValidateInput(ParseEventUpdate, input), GetAuthenticatedUser(session);
        v.Success? && a.Success? && OwnerCheck(old(rows), input.id, a.data, lookup, EditDenied).None? && !write.Ok? ==>
          r == StoreFailure(write) && rows == old(rows)
      ensures r.Success? <==>
        && FormValid(input.form) && IsUuid(input.id)
        && GetAuthenticatedUser(session).Success? && lookup.Ok? && write.Ok?
        && input.id in old(rows) && old(rows)[input.id].user_id == GetAuthenticatedUser(session).data
      ensures r.Success? ==>
        && r.data == Revise(old(rows)[input.id], input.form, now)
        && rows == old(rows)[input.id := r.data]
    {
      var v := ValidateInput(ParseEventUpdate, input);
      if v.Failure? {
        return Failure(v.error);
      }
      var a := GetAuthenticatedUser(session);
      if a.Failure? {
        return Failure(a.error);
      }
      var id := v.data.id;
      var denial := OwnerCheck(rows, id, a.data, lookup, EditDenied);
      if denial.Some? {
        return Failure(denial.value);
      }
      if !write.Ok? {
        return StoreFailure(write);
      }
      var row := Revise(rows[id], v.data.form, now);
      rows := rows[id := row];
      r := Success(row);
    }

    /** `deleteEvent`: hard delete of an owned row, answering with its id. */
    method DeleteEvent(input: EventDeleteData, session: AuthResponse, lookup: StoreReply, write: StoreReply)
      returns (r: ActionResult<Id>)
      requires Valid()
      modifies this
      ensures Valid()
      ensures var v := ValidateInput(ParseEventDelete, input);
        v.Failure? ==> r == Failure(v.error) && rows == old(rows)
      ensures var v, a := ValidateInput(ParseEventDelete, input), GetAuthenticatedUser(session);
        v.Success? && a.Failure? ==> r == Failure(a.error) && rows == old(rows)
      ensures var v, a := ValidateInput(ParseEventDelete, input), GetAuthenticatedUser(session);
        v.Success? && a.Success? && OwnerCheck(old(rows), input.id, a.data, lookup, DeleteDenied).Some? ==>
          r == Failure(OwnerCheck(old(rows), input.id, a.data, lookup, DeleteDenied).value) && rows == old(rows)
      ensures var v, a := ValidateInput(ParseEventDelete, input), GetAuthenticatedUser(session);
        v.Success? && a.Success? && OwnerCheck(old(rows), input.id, a.data, lookup, DeleteDenied).None? && !write.Ok? ==>
          r == StoreFailure(write) && rows == old(rows)
      ensures r.Success? <==>
        && IsUuid(input.id) && GetAuthenticatedUser(session).Success? && lookup.Ok? && write.Ok?
        && input.id in old(rows) && old(rows)[input.id].user_id == GetAuthenticatedUser(session).data
      ensures r.Success? ==> r.data == input.id && rows == old(rows) - {input.id}
    {
      var v := ValidateInput(ParseEventDelete, input);
      if v.Failure? {
        return Failure(v.error);
      }
      var a := GetAuthenticatedUser(session);
      if a.Failure? {
        return Failure(a.error);
      }
      var id := v.data.id;
      var denial := OwnerCheck(rows, id, a.data, lookup, DeleteDenied);
      if denial.Some? {
        return Failure(denial.value);
      }
      if !write.Ok? {
        return StoreFailure(write);
      }
      rows := rows - {id};
      r := Success(id);
    }

    /**
     * `getEvents`: the caller's rows that pass both filters, each once, ascending
     * by `date_time`. `query` is how the select ends.
     */
    method GetEvents(filter: RawFilter, session: AuthResponse, query: StoreReply)
      returns (r: ActionResult<seq<Event>>)
      requires Valid()
      ensures var v := ValidateInput(ParseEventFilter, filter);
        v.Failure? ==> r == Failure(v.error)
      ensures var v, a := ValidateInput(ParseEventFilter, filter), GetAuthenticatedUser(session);
        v.Success? && a.Failure? ==> r == Failure(a.error)
      ensures var v, a := ValidateInput(ParseEventFilter, filter), GetAuthenticatedUser(session);
        v.Success? && a.Success? && !query.Ok? ==> r == StoreFailure(query)
      ensures r.Success? ==>
        var v, uid := ValidateInput(ParseEventFilter, filter), GetAuthenticatedUser(session).data;
        && v.Success? && GetAuthenticatedUser(session).Success? && query.Ok?
        && SortedByDateTime(r.data)
        && (forall e :: e in r.data <==> e in rows.Values && e.user_id == uid && MatchesFilter(e, v.data))
        && |r.data| == |set e | e in rows.Values && e.user_id == uid && MatchesFilter(e, v.data)|
        && (forall i, j :: 0 <= i < j < |r.data| ==> r.data[i].id != r.data[j].id)
      ensures !r.Success? ==> !(ValidateInput(ParseEventFilter, filter).Success? && GetAuthenticatedUser(session).Success? && query.Ok?)
    {
      var v := ValidateInput(ParseEventFilter, filter);
      if v.Failure? {
        return Failure(v.error);
      }
      var a := GetAuthenticatedUser(session);
      if a.Failure? {
        return Failure(a.error);
      }
      if !query.Ok? {
        return StoreFailure(query);
      }
      var selected := set e | e in rows.Values && e.user_id == a.data && MatchesFilter(e, v.data);
      var listing := OrderByDateTime(selected);
      forall i, j | 0 <= i < j < |listing|
        ensures listing[i].id != listing[j].id
      {
        assert listing[i] in selected && listing[j] in selected;
        DistinctRowsDistinctIds(listing[i], listing[j]);
      }
      r := Success(listing);
    }

    /**
     * `getEventById`: the caller's row with that id, or `null` when there is none
     * (the store's no-rows error is a success); other store errors are failures.
     */
    method GetEventById(id: string, session: AuthResponse, query: StoreReply)
      returns (r: ActionResult<Option<Event>>)
      requires Valid()
      ensures !IsUuid(id) ==> r == Failure(InvalidUuid)
      ensures IsUuid(id) && GetAuthenticatedUser(session).Failure? ==> r == Failure(Unauthorized)
      ensures IsUuid(id) && GetAuthenticatedUser(session).Success? ==>
        var uid := GetAuthenticatedUser(session).data;
        match query
        case Ok => r == Success(if id in rows && rows[id].user_id == uid then Some(rows[id]) else None)
          && (r.data.Some? ==> r.data.value.id == id && r.data.value.user_id == uid)
        case Err(e) => r == (if e.code == NoRowsCode then Success(None) else Failure(e.message))
        case Throws(t) => r == Failure(CaughtMessage(t))
    {
      var v := ValidateInput(ParseEventId, id);
      if v.Failure? {
        return Failure(v.error);
      }
      var a := GetAuthenticatedUser(session);
      if a.Failure? {
        return Failure(a.error);
      }
      match query {
        case Ok =>
          if id in rows && rows[id].user_id == a.data {
            r := Success(Some(rows[id]));
          } else {
            r := Success(None);
          }
        case Err(e) =>
          if e.code == NoRowsCode {
            r := Success(None);
          } else {
            r := Failure(e.message);
          }
        case Throws(t) =>
          r := Failure(CaughtMessage(t));
      }
    }
  }

  /**
   * Creating an event and then fetching it by its id, as the same user, gives back
   * the stored row: owned by the caller and holding every caller-supplied field.
   */
  method CreateThenFetch(table: EventsTable, input: EventFormData, session: AuthResponse, newId: Id, now: string)
    returns (created: ActionResult<Event>, fetched: ActionResult<Option<Event>>)
    requires table.Valid() && IsUuid(newId) && newId !in table.rows
    modifies table
    ensures created.Success? ==>
      && fetched == Success(Some(created.data))
      && HoldsForm(created.data, input)
      && session.user == Some(created.data.user_id)
  {
    created := table.CreateEvent(input, session, newId, now, Ok);
    fetched := table.GetEventById(newId, session, Ok);
  }
}
