/**
 * The event record and the schemas that validate event input: the create/edit
 * form, update (form plus id), delete (id only) and the list filter.
 */
module EventTypes {
  import opened Wrappers
  import opened Schema
  import opened Text

  type Id = string
  type UserId = string

  /** A row of the `events` table. `description` is `None` for SQL null. */
  datatype Event = Event(
    id: Id,
    user_id: UserId,
    name: string,
    sport_type: string,
    date_time: string,
    description: Option<string>,
    venues: seq<string>,
    created_at: string,
    updated_at: string)

  /** The sports the form and the filter offer. The schema does not restrict `sport_type` to them. */
  const SportTypes: seq<string> := [
    "Soccer", "Basketball", "Tennis", "Baseball", "Football", "Hockey", "Golf",
    "Swimming", "Volleyball", "Cricket", "Rugby", "Boxing", "MMA", "Athletics", "Other"
  ]

  const NameRequired := "Event name is required"
  const NameTooLong := "Event name must be less than 100 characters"
  const SportRequired := "Sport type is required"
  const DateTimeRequired := "Date and time is required"
  const DescriptionTooLong := "Description must be less than 1000 characters"
  const VenueEmpty := "Venue cannot be empty"
  const VenuesRequired := "At least one venue is required"
  const InvalidEventId := "Invalid event ID"

  /** Input of create: what `eventFormSchema` describes. */
  datatype EventFormData = EventFormData(
    name: string,
    sport_type: string,
    date_time: string,
    description: Option<string>,
    venues: seq<string>)

  /** Input of update: the form fields plus the event's id. */
  datatype EventUpdateData = EventUpdateData(id: string, form: EventFormData)

  /** Input of delete. */
  datatype EventDeleteData = EventDeleteData(id: string)

  /** A raw query parameter as the list page receives it: absent, one string, or something else (an array). */
  datatype RawParam = Missing | Str(value: string) | NonString(received: string)

  /** Raw input of the list action. */
  datatype RawFilter = RawFilter(search: RawParam, sport_type: RawParam)

  /** Input of the list action once validated. */
  datatype EventFilterData = EventFilterData(search: Option<string>, sport_type: Option<string>)

  /**
   * The field rules of `eventFormSchema`, stated declaratively. Lengths are
   * JavaScript lengths, in UTF-16 code units; a minimum of 1 holds exactly when
   * the text is non-empty, whatever the unit.
   */
  predicate FormValid(d: EventFormData) {
    && 1 <= Utf16Length(d.name) <= 100
    && |d.sport_type| >= 1
    && |d.date_time| >= 1
    && (d.description.Some? ==> Utf16Length(d.description.value) <= 1000)
    && VenuesValid(d.venues)
  }

  /** At least one venue, and no venue is the empty string. */
  predicate VenuesValid(venues: seq<string>) {
    |venues| >= 1 && forall i :: 0 <= i < |venues| ==> |venues[i]| >= 1
  }

  /** One "Venue cannot be empty" issue per empty element, in element order. */
  function VenueElementIssues(venues: seq<string>): (issues: seq<string>)
    ensures issues == [] <==> forall i :: 0 <= i < |venues| ==> |venues[i]| >= 1
  {
    if venues == [] then []
    else Check(|venues[0]| >= 1, VenueEmpty) + VenueElementIssues(venues[1..])
  }

  /**
   * The issues `eventFormSchema` reports, field by field in declaration order:
   * name (min 1, max 100), sport_type (min 1), date_time (min 1), description
   * (max 1000 when present), venues (min 1 element, then each element min 1).
   */
  function FormIssues(d: EventFormData): (issues: seq<string>)
    ensures issues == [] <==> FormValid(d)
  {
    Check(Utf16Length(d.name) >= 1, NameRequired)
    + Check(Utf16Length(d.name) <= 100, NameTooLong)
    + Check(|d.sport_type| >= 1, SportRequired)
    + Check(|d.date_time| >= 1, DateTimeRequired)
    + (if d.description.Some? then Check(Utf16Length(d.description.value) <= 1000, DescriptionTooLong) else [])
    + Check(|d.venues| >= 1, VenuesRequired)
    + VenueElementIssues(d.venues)
  }

  /** `eventFormSchema.safeParse`. */
  function ParseEventForm(d: EventFormData): SafeParse<EventFormData> {
    FromIssues(d, FormIssues(d))
  }

  /** Digits and letters `a`-`f`, either case. */
  predicate IsHexDigit(c: char) {
    ('0' <= c <= '9') || ('a' <= c <= 'f') || ('A' <= c <= 'F')
  }

  /** The UUID shape: 8-4-4-4-12 hexadecimal digits separated by hyphens. */
  predicate IsUuid(s: string)
    ensures IsUuid(s) ==> forall i :: 0 <= i < |s| ==> s[i] == '-' || IsHexDigit(s[i])
  {
    && |s| == 36
    && forall i :: 0 <= i < 36 ==>
         if i == 8 || i == 13 || i == 18 || i == 23 then s[i] == '-' else IsHexDigit(s[i])
  }

  /** `eventUpdateSchema = eventFormSchema.extend({ id: uuid })`: the form issues, then the id's. */
  function UpdateIssues(d: EventUpdateData): (issues: seq<string>)
    ensures issues == [] <==> FormValid(d.form) && IsUuid(d.id)
  {
    FormIssues(d.form) + Check(IsUuid(d.id), InvalidEventId)
  }

  /** `eventUpdateSchema.safeParse`. */
  function ParseEventUpdate(d: EventUpdateData): SafeParse<EventUpdateData> {
    FromIssues(d, UpdateIssues(d))
  }

  /** `eventDeleteSchema`: only the id, which must be a UUID. */
  function DeleteIssues(d: EventDeleteData): (issues: seq<string>)
    ensures issues == [] <==> IsUuid(d.id)
  {
    Check(IsUuid(d.id), InvalidEventId)
  }

  /** `eventDeleteSchema.safeParse`. */
  function ParseEventDelete(d: EventDeleteData): SafeParse<EventDeleteData> {
    FromIssues(d, DeleteIssues(d))
  }

  /** An optional string field: absent or a string passes; anything else is a type issue. */
  function OptionalStringIssues(p: RawParam): (issues: seq<string>)
    ensures issues == [] <==> !p.NonString?
  {
    if p.NonString? then ["Expected string, received " + p.received] else []
  }

  function OptionalString(p: RawParam): Option<string> {
    if p.Str? then Some(p.value) else None
  }

  /** `eventFilterSchema.safeParse`: `search` and `sport_type` are each optional strings. */
  function ParseEventFilter(f: RawFilter): (r: SafeParse<EventFilterData>)
    ensures r.Parsed? <==> !f.search.NonString? && !f.sport_type.NonString?
    ensures r.Parsed? ==> r.data == EventFilterData(OptionalString(f.search), OptionalString(f.sport_type))
  {
    FromIssues(
      EventFilterData(OptionalString(f.search), OptionalString(f.sport_type)),
      OptionalStringIssues(f.search) + OptionalStringIssues(f.sport_type))
  }

  /**
   * The length bounds of `name` are inclusive and counted in UTF-16 units: 100
   * units pass, 101 give only the too-long issue, none gives only the required issue.
   */
  lemma NameBounds(d: EventFormData)
    requires |d.sport_type| >= 1 && |d.date_time| >= 1 && d.description.None? && d.venues == ["Arena"]
    ensures Utf16Length(d.name) == 100 ==> FormIssues(d) == []
    ensures Utf16Length(d.name) == 101 ==> FormIssues(d) == [NameTooLong]
    ensures Utf16Length(d.name) == 0 ==> FormIssues(d) == [NameRequired]
  {
    assert VenueElementIssues(d.venues) == [];
  }

  /**
   * A character outside the Basic Multilingual Plane (an emoji, say) counts twice:
   * 60 of them are too long a name, while 100 letters are not.
   */
  lemma AstralNameCountsTwice(d: EventFormData)
    requires |d.sport_type| >= 1 && |d.date_time| >= 1 && d.description.None? && d.venues == ["Arena"]
    requires |d.name| == 60 && forall i :: 0 <= i < |d.name| ==> d.name[i] as int >= 0x1_0000
    ensures FormIssues(d) == [NameTooLong]
  {
    Utf16LengthOfAstral(d.name);
    assert VenueElementIssues(d.venues) == [];
  }

  /** `sport_type` is free text: a sport outside `SportTypes` is accepted, with any short name. */
  lemma SportTypeIsFreeText(name: string)
    requires 1 <= |name| <= 50
    ensures "Quidditch" !in SportTypes
    ensures FormValid(EventFormData(name, "Quidditch", "2025-01-01T10:00", None, ["Arena"]))
  {
  }

  /**
   * Whitespace counts as content for the schema: a venue of one space, an empty
   * description and a date that is not a date are all accepted; an empty venue
   * list, an empty venue and an empty date are rejected.
   */
  lemma SchemaEdgeCases()
    ensures FormValid(EventFormData("Run", "Athletics", "not a date", Some(""), [" "]))
    ensures !FormValid(EventFormData("Run", "Athletics", "2025-01-01T10:00", None, []))
    ensures !FormValid(EventFormData("Run", "Athletics", "2025-01-01T10:00", None, [""]))
    ensures !FormValid(EventFormData("Run", "Athletics", "", None, ["Track"]))
  {
    assert |[" "][0]| >= 1;
    assert |[""][0]| == 0;
  }
}
