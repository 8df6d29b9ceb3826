# FastBreak event manager — a verified model of its core logic

FastBreak is a small web app where a signed-in user creates, lists, edits and deletes sports
events (name, sport, date and time, optional description, one or more venues). This project
models in Dafny the parts of it that make decisions:

- the zod schemas that validate event input, the `ActionResult` envelope, `validateInput`, and
  the check for a signed-in user (`EventTypes`, `Schema`, `SafeAction`);
- the server actions over the `events` table (`EventActions`). The table is a class holding a
  `map<Id, Event>`. Every action validates, then authenticates, then checks ownership when it
  targets one row, and only then reads or writes. It stops at the first failure;
- the Postgres `ILIKE` pattern that the name search becomes (`LikePattern`);
- the event form's venue editor, its submit rule and its loading flag (`EventForm`, a class
  whose methods replace the venue list);
- the search and sport filter above the list (`SearchFilter`). A class on a discrete
  millisecond clock models the 500 ms debounce, the navigation guard and `createQueryString`.
  `URLSearchParams` is an ordered list of name/value pairs (`UrlParams`);
- e-mail sign-in and sign-up validation and how each auth action dispatches the provider's
  reply (`AuthActions`);
- the OAuth callback route's choice of redirect (`AuthCallback`), with `encodeURIComponent`
  over UTF-8 (`UriEncoding`);
- the avatar initials in the header (`Header`).

Several things become parameters: the identity provider's answer, what each store call
returns (success, an error with code and message, or a thrown value), the environment
variables, fresh ids and timestamps. Redirects and navigations are returned as values. The
shared string helpers (JavaScript `trim`, `join`, ASCII case mapping, substring search,
lexicographic order) are in `Text`, and `Option` is in `Wrappers`.

Where a message and the code say different things, the model follows the code. One example:
the name rule's message says "less than 100 characters", but `max(100)` accepts exactly 100
(`EventTypes.NameBounds`).

## Model

| member | source | states |
|---|---|---|
| SafeAction.ValidateInput | src/lib/safe-action.ts:14-26 | succeeds exactly when the schema accepts the input, and then returns the parsed data; otherwise the error is every issue message, in order, joined with ", " |
| SafeAction.ValidationErrorListsEveryIssue | src/lib/safe-action.ts:19-23 | on failure the error starts with the first issue and contains every issue, not just the first |
| SafeAction.GetAuthenticatedUser | src/lib/safe-action.ts:31-45 | succeeds exactly when the provider reports no error and a user, and then returns that user's id; otherwise fails with "Unauthorized. Please sign in." |
| EventTypes.VenueElementIssues | src/types/event.types.ts:38 | no issue exactly when no venue is the empty string |
| EventTypes.FormIssues | src/types/event.types.ts:29-40 | no issue exactly when the name is 1..100 UTF-16 code units long, sport_type and date_time are non-empty, a present description is at most 1000 UTF-16 code units long, and there is at least one venue and none is empty |
| EventTypes.UpdateIssues | src/types/event.types.ts:57-59 | no issue exactly when the form rules (lengths in UTF-16 code units) hold and the id is a UUID |
| EventTypes.IsUuid | src/types/event.types.ts:58 | an accepted id holds only hexadecimal digits and hyphens |
| EventTypes.DeleteIssues | src/types/event.types.ts:66-68 | no issue exactly when the id is a UUID; nothing else is checked |
| EventTypes.OptionalStringIssues | src/types/event.types.ts:48-49 | an optional string field has an issue exactly when it is present and not a string |
| EventTypes.ParseEventFilter | src/types/event.types.ts:47-50 | the filter parses exactly when search and sport_type are each absent or a string, and the parsed data keeps the strings |
| EventTypes.NameBounds | src/types/event.types.ts:30-33 | a name of exactly 100 UTF-16 code units passes, one of 101 gives only the too-long issue, an empty one gives only the required issue |
| EventTypes.AstralNameCountsTwice | src/types/event.types.ts:33 | a name of 60 characters outside the Basic Multilingual Plane is 120 code units and gives exactly the too-long issue |
| EventTypes.SportTypeIsFreeText | src/types/event.types.ts:34 | a sport outside the fixed sport list is accepted |
| EventTypes.SchemaEdgeCases | src/types/event.types.ts:35-39 | a one-space venue, an empty description and a non-date date pass; an empty venue list, an empty venue and an empty date fail |
| EventActions.CaughtMessage | src/actions/event.actions.ts:52-57 | a caught Error gives its message, any other thrown value gives "An unexpected error occurred" |
| EventActions.StoreFailure | src/actions/event.actions.ts:46-48 | a store error is returned as a failure carrying its message verbatim; a throw becomes the caught message |
| EventActions.StoredDescription | src/actions/event.actions.ts:40 | the stored description is null exactly when the input one is absent or "", otherwise it is the input |
| EventActions.NewRow | src/actions/event.actions.ts:35-42 | the inserted row holds every form field (description empty-to-null), is owned by the signed-in user and carries the store's id and timestamps |
| EventActions.Revise | src/actions/event.actions.ts:92-99 | the updated row holds every form field and the new updated_at, and keeps id, user_id and created_at |
| EventActions.OwnerCheck | src/actions/event.actions.ts:77-88 | the action may go on exactly when the lookup succeeded and the row exists and belongs to the caller; a failed lookup, a missing row and a foreign row all give the same denial |
| EventActions.MissingAndForeignLookAlike | src/actions/event.actions.ts:83-88 | a missing id and another user's id produce the identical failure |
| EventActions.ParseEventId | src/actions/event.actions.ts:220 | the id parses exactly when it is a UUID |
| EventActions.MatchesFilter | src/actions/event.actions.ts:192-197 | with no search and no sport (absent, "" or "all") every row matches; a sport other than "" and "all" keeps only rows of exactly that sport |
| EventActions.OrderByDateTime | src/actions/event.actions.ts:185-189 | the result holds each selected row exactly once, ascending by date_time |
| EventActions.EventsTable.CreateEvent | src/actions/event.actions.ts:19-59 | validation failure, then authentication failure, then store failure are returned unchanged and leave the table as it was; success exactly when all three pass, and then the new row is added under its id and returned |
| EventActions.EventsTable.UpdateEvent | src/actions/event.actions.ts:60-118 | same order of failures plus the ownership denial, each leaving the table unchanged; on success only the target row changes, to the revised row |
| EventActions.EventsTable.DeleteEvent | src/actions/event.actions.ts:120-165 | same order of failures, each leaving the table unchanged; on success exactly the target id is removed, every other row is kept, and the id is returned |
| EventActions.EventsTable.GetEvents | src/actions/event.actions.ts:167-213 | on success the list holds exactly the caller's rows that pass both filters, each once and with distinct ids, sorted ascending by date_time; failures are the validation, authentication or store failure in that order |
| EventActions.EventsTable.GetEventById | src/actions/event.actions.ts:215-254 | a non-UUID id and a missing user fail first; the store's no-rows code gives success with null, other store errors fail with their message, a successful read gives the caller's row, whose id is the one asked for, or null |
| EventActions.CreateThenFetch | src/actions/event.actions.ts:232-237 | an event just created is fetched back by its id as the same row, owned by the caller and holding the submitted fields |
| LikePattern.SearchPattern | src/actions/event.actions.ts:193 | the search text between two '%', two longer than the text; a text without wildcards passes through unchanged |
| LikePattern.SurroundedLiteral | src/actions/event.actions.ts:193 | a pattern `%t%` with no wildcard in t matches exactly the texts that contain t |
| LikePattern.SearchIsCaseInsensitiveSubstring | src/actions/event.actions.ts:192-194 | for a search without wildcards, the name filter is a case-insensitive substring test |
| LikePattern.UnescapedWildcards | src/actions/event.actions.ts:193 | the search text is not escaped: "_" matches every non-empty name, "%" and "*" match every name |
| EventForm.InitialVenues | src/components/event-form.tsx:53 | the event's venues when it has some, otherwise one empty entry; never empty |
| EventForm.FilledVenues | src/components/event-form.tsx:90 | keeps exactly the venues that are not blank after trimming, untrimmed, never more than were given |
| EventForm.FilledVenuesAppend | src/components/event-form.tsx:90 | filtering keeps order: it distributes over concatenation |
| EventForm.FilledVenuesIdempotent | src/components/event-form.tsx:90 | filtering a filtered list changes nothing |
| EventForm.FilledVenuesPassSchema | src/components/event-form.tsx:90 | whenever some venue survives the filter, the survivors satisfy the schema's venue rules |
| EventForm.HasValidVenue | src/components/event-form.tsx:70 | true exactly when some venue is not blank after trimming; the truthiness test adds nothing |
| EventForm.CanSubmit | src/components/event-form.tsx:128 | an enabled button means the form is valid, nothing is loading and the submit filter leaves at least one venue |
| EventForm.HasValidVenueIffFilled | src/components/event-form.tsx:70 | some venue is valid exactly when the submit filter leaves at least one |
| EventForm.CanSubmitImpliesValidVenues | src/components/event-form.tsx:128 | an enabled submit button means a submission reaches an action with schema-valid venues |
| EventForm.WithoutIndex | src/components/event-form.tsx:78 | removes exactly the entry at the index and keeps the others in order; an out-of-range index removes nothing |
| EventForm.Outcome | src/components/event-form.tsx:110-124 | a successful action goes to the dashboard; a failed one shows its error; a throw shows "An unexpected error occurred" |
| EventForm.SubmittedData | src/components/event-form.tsx:100-103 | the submitted input carries the form's name, sport, date and description unchanged, and exactly the given venues |
| EventForm.ActionCall | src/components/event-form.tsx:105-108 | create mode calls the create action and edit mode the update action with the edited event's id, both with the submitted input |
| EventForm.EventFormState.constructor | src/components/event-form.tsx:50-54 | the form starts with the initial venues and not loading |
| EventForm.EventFormState.AddVenue | src/components/event-form.tsx:72-74 | appends one empty venue and changes nothing else |
| EventForm.EventFormState.RemoveVenue | src/components/event-form.tsx:76-80 | removes the entry at the index only when there is more than one entry, so the list never becomes empty |
| EventForm.EventFormState.UpdateVenue | src/components/event-form.tsx:82-86 | replaces only the entry at the index; length and the other entries are unchanged |
| EventForm.EventFormState.BeginSubmit | src/components/event-form.tsx:88-108 | with no filled venue no action is called and loading stays off; otherwise the mode's action is called with the filled venues and loading turns on |
| EventForm.EventFormState.FinishSubmit | src/components/event-form.tsx:105-125 | loading turns off whatever the reply, and the outcome is the one for that reply |
| EventForm.SubmittedVenuesPassSchema | src/components/event-form.tsx:100-108 | the create or update call made on submit carries venues the action's schema accepts |
| SearchFilter.UrlSearch | src/components/search-filter.tsx:50 | the URL's search parameter, or "" when it is absent |
| SearchFilter.CreateQueryString | src/components/search-filter.tsx:26-37 | the name is deleted when the value is "" or "all" and set to the value otherwise; every other name keeps its value, and apart from that name the pairs are unchanged |
| SearchFilter.ShouldNavigate | src/components/search-filter.tsx:50-51 | with no search parameter in the URL, the guard fires exactly when the debounced text is non-empty |
| SearchFilter.SearchNavigation | src/components/search-filter.tsx:49-58 | navigates exactly when the debounced text differs from the URL's search (absent read as ""), to a URL whose search is the debounced text, with "all" dropped |
| SearchFilter.SearchForAllKeepsDiffering | src/components/search-filter.tsx:29 | "all" typed as a search deletes the parameter, and the guard still sees a difference afterwards |
| SearchFilter.FilterController.constructor | src/components/search-filter.tsx:23-24 | search and debounced text both start from the URL's search or "", and a first timer is armed at 500 ms |
| SearchFilter.FilterController.SearchChanged | src/components/search-filter.tsx:60-62 | a new text replaces the pending timer with one due 500 ms later; the same text changes nothing |
| SearchFilter.FilterController.AdvanceTo | src/components/search-filter.tsx:40-46 | a due timer copies the search text into the debounced text and, when that changes it, runs the navigation guard; the debounced text never changes before 500 ms have passed since the last change |
| SearchFilter.FilterController.UrlChanged | src/components/search-filter.tsx:49-58 | a change of URL re-runs the navigation guard with the new parameters and changes no text or timer |
| SearchFilter.FilterController.SportChanged | src/components/search-filter.tsx:64-70 | a sport choice navigates at once with sport_type set, or deleted for "" and "all", and every other parameter kept |
| SearchFilter.ThreeKeystrokes | src/components/search-filter.tsx:39-58 | keystrokes at 0, 100 and 200 ms give no navigation at 699 ms, exactly one at 700 ms, and none after |
| AuthActions.IsEmail | src/actions/auth.actions.ts:8 | an accepted address contains '@' and neither starts nor ends with '.' |
| AuthActions.EmailOfParts | src/actions/auth.actions.ts:8 | a valid local part, '@', dot-separated labels and a top-level part of two or more letters is accepted as an e-mail |
| AuthActions.DotlessDomainRejected | src/actions/auth.actions.ts:8 | a domain without a dot is refused |
| AuthActions.LeadingDotRejected | src/actions/auth.actions.ts:8 | a local part starting with '.' is refused |
| AuthActions.NoAtRejected | src/actions/auth.actions.ts:8 | a text without '@' is refused |
| AuthActions.EmailHasOneAt | src/actions/auth.actions.ts:8 | an accepted address holds exactly one '@' |
| AuthActions.SignInIssues | src/actions/auth.actions.ts:7-10 | no issue exactly when the e-mail is valid and the password has at least 6 UTF-16 code units |
| AuthActions.AstralPasswordCountsTwice | src/actions/auth.actions.ts:9 | three characters outside the Basic Multilingual Plane meet the 6-unit minimum, three inside it do not |
| AuthActions.SignUpIssues | src/actions/auth.actions.ts:12-19 | no issue exactly when the e-mail and password rules (at least 6 UTF-16 code units) hold and the confirmation equals the password; a mismatch is always the last issue |
| AuthActions.SignInRequest | src/actions/auth.actions.ts:25-34 | the provider is asked, with the e-mail and password, exactly when validation passes |
| AuthActions.SignInWithEmail | src/actions/auth.actions.ts:21-41 | the first validation issue, else the provider's error verbatim, else a redirect to /dashboard |
| AuthActions.ShortPasswordNeverReachesProvider | src/actions/auth.actions.ts:25-28 | a password under 6 UTF-16 code units fails before the provider is asked, whatever it would answer |
| AuthActions.OnlyFirstIssueReported | src/actions/auth.actions.ts:27 | with a bad e-mail and a short password only the e-mail issue is reported |
| AuthActions.EmailRedirectTo | src/actions/auth.actions.ts:58 | the confirmation link target is the configured origin, or nothing, followed by /auth/callback |
| AuthActions.SignUpRequest | src/actions/auth.actions.ts:48-60 | the provider is asked exactly when validation passes, with the e-mail, password and confirmation link target |
| AuthActions.SignUpWithEmail | src/actions/auth.actions.ts:43-67 | the first validation issue, else the provider's error verbatim, else the confirmation message; never a redirect |
| AuthActions.MismatchReported | src/actions/auth.actions.ts:48-51 | with a valid e-mail and password, a differing confirmation fails with "Passwords don't match" and asks no provider |
| AuthActions.MismatchAlwaysFails | src/actions/auth.actions.ts:16-19 | a differing confirmation always fails sign-up and is always among the issues |
| AuthActions.GoogleRedirectTarget | src/actions/auth.actions.ts:75 | the configured site URL, or http://localhost:3000 when it is absent or empty, followed by /auth/callback |
| AuthActions.SignInWithGoogle | src/actions/auth.actions.ts:69-89 | a provider error is returned verbatim; otherwise it redirects exactly when the provider returned a non-empty URL, and returns nothing else |
| AuthActions.SignOut | src/actions/auth.actions.ts:91-95 | always redirects to /login, whatever the provider answers |
| AuthCallback.LoginError | src/app/auth/callback/route.ts:14-16 | the login page URL whose error parameter is the percent-encoded message |
| AuthCallback.LoginErrorIsOneParameter | src/app/auth/callback/route.ts:15 | the encoded message cannot add a parameter or a fragment |
| AuthCallback.NextPath | src/app/auth/callback/route.ts:9 | `next` falls back to /dashboard only when the parameter is absent; an empty one is kept |
| AuthCallback.RedirectBase | src/app/auth/callback/route.ts:29-39 | the base is origin in development, else the site URL, else https:// and the forwarded host, else origin |
| AuthCallback.HandleCallback | src/app/auth/callback/route.ts:4-52 | a code is exchanged exactly when there is a code and no error, and it is the query's code |
| AuthCallback.ErrorWinsOverCode | src/app/auth/callback/route.ts:12-17 | a non-empty error parameter redirects to login with the description, or the error, and no exchange is tried |
| AuthCallback.ExchangedRedirect | src/app/auth/callback/route.ts:31-41 | after a successful exchange the redirect is the base followed by `next` verbatim |
| AuthCallback.FailedExchange | src/app/auth/callback/route.ts:42-46 | a failed exchange redirects to login carrying the exchange's message |
| AuthCallback.NothingToDo | src/app/auth/callback/route.ts:51 | with neither code nor error, the redirect is the fixed "Could not authenticate user" login URL and nothing is exchanged |
| AuthCallback.OpenRedirect | src/app/auth/callback/route.ts:32 | with `next=@evil.example` the redirect lands on host evil.example, not the site's host |
| AuthCallback.SafeNextPath | src/app/auth/callback/route.ts:9 | the corrected `next` always starts with '/', and equals the given one whenever that does |
| AuthCallback.HandleCallbackSafe | src/app/auth/callback/route.ts:19-23 | the corrected route exchanges a code in exactly the cases the original does, with the same code |
| AuthCallback.SafeCallbackKeepsHost | src/app/auth/callback/route.ts:29-41 | the corrected route keeps the base's authority after a successful exchange, and agrees with the original for every `next` that is a path |
| Header.FirstTwo | src/components/header.tsx:34 | the longest start of the text that fits in 2 UTF-16 code units, never empty for a non-empty text |
| Header.FirstTwoOfBmp | src/components/header.tsx:34 | for text in the Basic Multilingual Plane, the first two characters, or the whole text when shorter |
| Header.Initials | src/components/header.tsx:31-36 | "U" for an absent or empty e-mail; otherwise the upper-cased start, at most 2 UTF-16 code units, of the text before the first '@' |
| Header.AstralFirstCharacter | src/components/header.tsx:34 | an e-mail starting with a character outside the Basic Multilingual Plane shows that character alone |
| Header.EmptyInitials | src/components/header.tsx:31-36 | the initials are empty exactly for an e-mail that starts with '@' |
| Header.OnlyLocalPartShows | src/components/header.tsx:33 | the domain never affects the initials |
| Header.InitialsShape | src/components/header.tsx:33-35 | the initials hold no '@' and no lower-case ASCII letter |
| Header.InitialsOfLocalPart | src/components/header.tsx:33-35 | for local@domain the initials are the start of local within 2 UTF-16 code units, upper-cased |

## Left out

- Supabase client calls, `revalidatePath`, `router.push` and `router.refresh`, `toast`,
  `redirect` and `console.error` are I/O. The store's and the identity provider's replies are
  parameters. Navigations and redirects are returned values. Toasts are the messages in
  `SubmitOutcome`.
- EventActions.EventsTable: only the store calls can throw in the model (`StoreReply`). A throw
  from `createClient()` or from `supabase.auth.getUser()` inside an action's `try` is not
  modelled; the source would catch it and return the caught message (`CaughtMessage`). The
  sign-in check (`SafeAction.AuthResponse`) always answers with a user or an error.
- The gap between the ownership check and the update or delete is a race between requests.
  It is concurrency and is not modelled.
- `new Date().toISOString()` and the database's defaults (a fresh UUID, `created_at`) are
  parameters. The form's date conversion (`toISOString().slice(0, 16)`) and date formatting
  depend on time zone and locale and are not modelled.
- The form library's `isValid` is an input of `CanSubmit`. The library's own validation of
  the other fields is not modelled.
- The form default values are not modelled (event-form.tsx lines 58-65). Without a date
  conversion they are only `|| ""` fallbacks.
- Serialising `URLSearchParams` to a query string and the `/dashboard?` prefix are not
  modelled. A navigation is the parameter list it goes to.
- `isPending`, `useTransition` and the input ref of the filter only affect rendering.
- `NextResponse.redirect` parses its URL, which turns the spaces of the fixed "Could not
  authenticate user" URL into `%20`. The model keeps the string as the route builds it.
- Auth form fields are strings. `formData.get` returning null for a missing field is not
  modelled.
- `signInWithOAuth`'s `prompt: select_account` option and the provider's `emailRedirectTo`
  processing are not modelled. Only the redirect targets are computed.
- The UUID check is the 8-4-4-4-12 hexadecimal shape. The e-mail check follows zod 3's
  e-mail pattern, written as predicates. Issue order is the schema's field order, and for
  sign-up the password refinement runs after the field checks.
- `getEvents` turns null `data` into `[]` (event.actions.ts:205). A successful store read
  always returns rows here, so that case does not arise.
- EventActions.EventsTable.GetEvents: rows with equal `date_time` come back in an order the
  model leaves open, because the store does not fix the order of ties. Dates compare as
  strings in code-point order.
- LikePattern.SearchIsCaseInsensitiveSubstring: only ASCII letters are case-folded, because
  the database's Unicode case folding is not modelled.
- Header.Initials: `slice(0, 2)` counts UTF-16 code units. When the second unit is the first
  half of a surrogate pair, JavaScript keeps that lone half; a Dafny `char` cannot hold it, so
  the model leaves it out. Only ASCII letters are upper-cased: `toUpperCase` can change or
  lengthen other letters ("ß" becomes "SS"), and that is not modelled.
- String lengths in the schemas (`min`, `max`) are counted in UTF-16 code units, as JavaScript's
  `length` does (`Text.Utf16Length`). A `string` here never holds a lone surrogate, which
  JavaScript strings can.
- EventCard and EventsList are presentational components and are not part of this model.

## Findings

| source | as written | input that shows it | evidently intended | confidence | as-written member | corrected member |
|---|---|---|---|---|---|---|
| src/app/auth/callback/route.ts:32 | the `next` query parameter is appended verbatim to the redirect base | `?code=c&next=@evil.example` on origin `https://app.example`, after a successful exchange, redirects to `https://app.example@evil.example`, whose host is `evil.example` | `next` is a path on this site: a value not starting with '/' falls back to /dashboard | medium, not executed | AuthCallback.OpenRedirect | AuthCallback.HandleCallbackSafe, AuthCallback.SafeCallbackKeepsHost |
