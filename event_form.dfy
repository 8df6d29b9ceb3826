/**
 * The event form's client-side state: the venue list edited beside the other
 * fields, the loading flag toggled around a submission, and the rules that decide
 * whether a submission reaches the create or update action.
 */
module EventForm {
  import opened Wrappers
  import opened Text
  import opened SafeAction
  import opened EventTypes

  /** Whether the form creates a new event or edits the one with this id. */
  datatype Mode = Create | Edit(eventId: Id)

  /** The fields the form library validates (all but the venues). */
  datatype FormFields = FormFields(name: string, sport_type: string, date_time: string, description: string)

  /** What a submission does: stop with a message, or call one of the two actions with this input. */
  datatype SubmitRequest = NoVenue(message: string) | CreateCall(data: EventFormData) | UpdateCall(update: EventUpdateData)

  /** How the awaited action call ends: with a result, or by throwing. */
  datatype ActionReply = Returned(result: ActionResult<Event>) | Threw

  /** What the user sees afterwards: a success toast and a move to the dashboard, or an error toast. */
  datatype SubmitOutcome = Saved(message: string, destination: string) | ShowError(message: string)

  const NoVenueMessage := "Please add at least one venue"
  const Unexpected := "An unexpected error occurred"

  /** `initialVenues`: the event's venues when it has some, otherwise one empty entry. */
  function InitialVenues(event: Option<Event>): (r: seq<string>)
    ensures r != []
    ensures event.Some? && event.value.venues != [] ==> r == event.value.venues
    ensures event.None? || event.value.venues == [] ==> r == [""]
  {
    if event.Some? && |event.value.venues| > 0 then event.value.venues else [""]
  }

  /**
   * `venues.filter((v) => v.trim() !== "")`: the venues that are not blank, kept
   * as typed (not trimmed).
   */
  function FilledVenues(venues: seq<string>): (r: seq<string>)
    ensures |r| <= |venues|
    ensures forall x :: x in r <==> x in venues && Trim(x) != ""
  {
    if venues == [] then []
    else
      assert forall x :: x in venues <==> x == venues[0] || x in venues[1..];
      if Trim(venues[0]) != "" then [venues[0]] + FilledVenues(venues[1..])
      else FilledVenues(venues[1..])
  }

  /** Filtering keeps the order: it distributes over concatenation. */
  lemma {:induction false} FilledVenuesAppend(a: seq<string>, b: seq<string>)
    ensures FilledVenues(a + b) == FilledVenues(a) + FilledVenues(b)
  {
    if a == [] {
      assert a + b == b;
    } else {
      assert (a + b)[0] == a[0] && (a + b)[1..] == a[1..] + b;
      FilledVenuesAppend(a[1..], b);
    }
  }

  /** Filtering an already filtered list changes nothing. */
  lemma {:induction false} FilledVenuesIdempotent(venues: seq<string>)
    ensures FilledVenues(FilledVenues(venues)) == FilledVenues(venues)
  {
    if venues != [] {
      FilledVenuesIdempotent(venues[1..]);
      if Trim(venues[0]) != "" {
        var rest := FilledVenues(venues[1..]);
        assert ([venues[0]] + rest)[1..] == rest;
      }
    }
  }

  /** The venues that survive the filter satisfy the schema's venue rules whenever any survive. */
  lemma FilledVenuesPassSchema(venues: seq<string>)
    requires FilledVenues(venues) != []
    ensures VenuesValid(FilledVenues(venues))
  {
    var r := FilledVenues(venues);
    forall i | 0 <= i < |r|
      ensures |r[i]| >= 1
    {
      assert r[i] in r;
      assert Trim(r[i]) != "";
    }
  }

  /**
   * `hasValidVenue = venues.some((v) => v && v.trim() !== "")`. The truthiness
   * test adds nothing: the empty string already trims to "".
   */
  predicate HasValidVenue(venues: seq<string>)
    ensures HasValidVenue(venues) <==> exists i :: 0 <= i < |venues| && Trim(venues[i]) != ""
  {
    exists i :: 0 <= i < |venues| && venues[i] != "" && Trim(venues[i]) != ""
  }

  /** Some venue is valid exactly when the submit filter leaves at least one. */
  lemma HasValidVenueIffFilled(venues: seq<string>)
    ensures HasValidVenue(venues) <==> FilledVenues(venues) != []
  {
    if FilledVenues(venues) != [] {
      var x := FilledVenues(venues)[0];
      assert x in FilledVenues(venues);
      var i :| 0 <= i < |venues| && venues[i] == x;
      assert x != "";
    }
    if HasValidVenue(venues) {
      var i :| 0 <= i < |venues| && venues[i] != "" && Trim(venues[i]) != "";
      assert venues[i] in FilledVenues(venues);
    }
  }

  /** `canSubmit = isValid && hasValidVenue && !isLoading`. */
  predicate CanSubmit(isValid: bool, venues: seq<string>, isLoading: bool)
    ensures CanSubmit(isValid, venues, isLoading) ==> isValid && !isLoading && FilledVenues(venues) != []
  {
    HasValidVenueIffFilled(venues);
    isValid && HasValidVenue(venues) && !isLoading
  }

  /** An enabled submit button means the submission will reach an action with schema-valid venues. */
  lemma CanSubmitImpliesValidVenues(isValid: bool, venues: seq<string>, isLoading: bool)
    requires CanSubmit(isValid, venues, isLoading)
    ensures FilledVenues(venues) != [] && VenuesValid(FilledVenues(venues))
  {
    HasValidVenueIffFilled(venues);
    FilledVenuesPassSchema(venues);
  }

  /** `venues.filter((_, i) => i !== index)`: the entry at `index` removed; an index out of range removes nothing. */
  function WithoutIndex(venues: seq<string>, index: int): (r: seq<string>)
    ensures 0 <= index < |venues| ==>
      |r| == |venues| - 1 && forall i :: 0 <= i < |r| ==> r[i] == venues[if i < index then i else i + 1]
    ensures !(0 <= index < |venues|) ==> r == venues
  {
    if 0 <= index < |venues| then venues[..index] + venues[index + 1..] else venues
  }

  /**
   * The input the form sends: its fields and the filled venues. The description
   * is always sent, "" when left empty, and the action stores that as null.
   */
  function SubmittedData(fields: FormFields, venues: seq<string>): (d: EventFormData)
    ensures d.description == Some(fields.description) && d.venues == venues
    ensures d.name == fields.name && d.sport_type == fields.sport_type && d.date_time == fields.date_time
  {
    EventFormData(fields.name, fields.sport_type, fields.date_time, Some(fields.description), venues)
  }

  /** The action `onSubmit` calls for the mode: create, or update of the edited event's id. */
  function ActionCall(mode: Mode, fields: FormFields, venues: seq<string>): (req: SubmitRequest)
    ensures !req.NoVenue?
    ensures req.CreateCall? <==> mode.Create?
    ensures req.CreateCall? ==> req.data == SubmittedData(fields, venues)
    ensures req.UpdateCall? ==> req.update == EventUpdateData(mode.eventId, SubmittedData(fields, venues))
  {
    match mode
    case Create => CreateCall(SubmittedData(fields, venues))
    case Edit(id) => UpdateCall(EventUpdateData(id, SubmittedData(fields, venues)))
  }

  /** The toast and navigation after the action call ends. */
  function Outcome(mode: Mode, reply: ActionReply): (o: SubmitOutcome)
    ensures o.Saved? <==> reply.Returned? && reply.result.Success?
    ensures o.Saved? ==> o.destination == "/dashboard"
    ensures reply.Returned? && reply.result.Failure? ==> o == ShowError(reply.result.error)
    ensures reply.Threw? ==> o == ShowError(Unexpected)
  {
    match reply
    case Returned(Success(_)) =>
      Saved(if mode.Create? then "Event created successfully!" else "Event updated successfully!", "/dashboard")
    case Returned(Failure(e)) => ShowError(e)
    case Threw => ShowError(Unexpected)
  }

  /** The form's state. */
  class EventFormState {
    const mode: Mode
    var venues: seq<string>
    var isLoading: bool

    /** The venue list is never empty. */
    ghost predicate Valid()
      reads this
    {
      venues != []
    }

    constructor (mode: Mode, event: Option<Event>)
      ensures Valid()
      ensures this.mode == mode && venues == InitialVenues(event) && !isLoading
    {
      this.mode := mode;
      venues := InitialVenues(event);
      isLoading := false;
    }

    /** `addVenue`: one empty entry appended. */
    method AddVenue()
      requires Valid()
      modifies this
      ensures Valid()
      ensures venues == old(venues) + [""] && isLoading == old(isLoading)
    {
      venues := venues + [""];
    }

    /** `removeVenue`: the entry at `index` removed, unless it is the only one. */
    method RemoveVenue(index: int)
      requires Valid()
      modifies this
      ensures Valid()
      ensures venues == if |old(venues)| > 1 then WithoutIndex(old(venues), index) else old(venues)
      ensures isLoading == old(isLoading)
    {
      if |venues| > 1 {
        venues := WithoutIndex(venues, index);
      }
    }

    /** `updateVenue`: only the entry at `index` changes. */
    method UpdateVenue(index: nat, value: string)
      requires Valid() && index < |venues|
      modifies this
      ensures Valid()
      ensures |venues| == |old(venues)| && venues[index] == value
      ensures forall i :: 0 <= i < |venues| && i != index ==> venues[i] == old(venues)[i]
      ensures isLoading == old(isLoading)
    {
      var copy := venues;
      copy := copy[index := value];
      venues := copy;
    }

    /**
     * The first half of `onSubmit`: with no filled venue it stops with a message
     * and calls nothing; otherwise it sets the loading flag and calls the action
     * of its mode with the filled venues.
     */
    method BeginSubmit(fields: FormFields) returns (req: SubmitRequest)
      requires Valid()
      modifies this
      ensures Valid() && venues == old(venues)
      ensures FilledVenues(venues) == [] ==> req == NoVenue(NoVenueMessage) && isLoading == old(isLoading)
      ensures FilledVenues(venues) != [] ==> req == ActionCall(mode, fields, FilledVenues(venues)) && isLoading
    {
      var filled := FilledVenues(venues);
      if |filled| == 0 {
        return NoVenue(NoVenueMessage);
      }
      isLoading := true;
      req := ActionCall(mode, fields, filled);
    }

    /** The second half of `onSubmit`: the outcome shown, and the loading flag cleared (`finally`). */
    method FinishSubmit(reply: ActionReply) returns (outcome: SubmitOutcome)
      requires Valid()
      modifies this
      ensures Valid() && venues == old(venues) && !isLoading
      ensures outcome == Outcome(mode, reply)
    {
      outcome := Outcome(mode, reply);
      isLoading := false;
    }
  }

  /** Every call a submission makes carries venues the action's schema accepts. */
  lemma SubmittedVenuesPassSchema(mode: Mode, fields: FormFields, venues: seq<string>)
    requires FilledVenues(venues) != []
    ensures var req := ActionCall(mode, fields, FilledVenues(venues));
      && (req.CreateCall? ==> VenuesValid(req.data.venues))
      && (req.UpdateCall? ==> VenuesValid(req.update.form.venues))
  {
    FilledVenuesPassSchema(venues);
  }
}
