# Introflo facility referral app — Dafny model

Introflo is a web app where behavioural-health facilities find each other and
exchange referrals. Facilities swipe through a deck of cards, match, and chat.
This project models the app's server side and the state logic of its client
components:

- **Access control** (`Rbac`). `checkAccess` handles the session, the `users`
  row, and the role, ownership and organization checks. The service-area
  helpers are built on it.
- **Middleware** (`Middleware`). It handles the configuration fallback, JSON
  401 replies for `/api/*` with identity headers on a pass, and sign-in
  redirects for `/app/*`.
- **API routes**:
  - `/api/service-areas` (`ServiceAreasApi`): GET, and a replace-all POST
    made of a delete followed by an insert;
  - `/api/profile` (`ProfileApi`): GET, and a validated PUT;
  - `/api/matches` (`MatchesApi`): paging, org and facility filters,
    descending score order, and placeholder logos.
- **Client components**:
  - the filters panel (`Filters`);
  - the profile editor (`ProfileEditor`);
  - the dashboard's deck and match counter (`Dashboard`);
  - the chat input (`Chat`);
  - the service-area map's circle edits and save status (`AreaMap`);
  - the sidebar's time labels (`Sidebar`);
  - the facility card (`FacilityCard`).

The backing store is a snapshot passed in as a value. `Rbac.Store` maps a
table name to its rows, and a row maps a column to a string; a missing column
is a SQL null. A table the route writes is a class field that its methods
reassign. Sessions are `Option<string>`, the user id. Store failures become
parameters: the error message, or a flag. Clock readings become parameters
too (`now`).

Several JavaScript built-ins are written out:
- in `Text`: UTF-16 `length`, `trim`, `parseInt`, `String(n)`, `join` and
  `slice`;
- in `Lists`: `filter`/`includes` toggles and index removal;
- in `Uri`: `encodeURIComponent`.

React handlers are methods that change the component's state fields. Calls
to a parent callback or to `fetch` are appended to a sequence field:
`events`, `sent`, `saves`, `reported` and `posts`.

The route files and `lib/rbac.ts`, or the route code and what its tests
expect, disagree in these points; the model follows each file as written:
- The service-area POST admits the roles `ADMIN` and `OWNER`. `lib/rbac.ts`
  uses `admin` and `org_admin`. So the global admin of `lib/rbac.ts` is
  refused by the POST (`ServiceAreasApi.AdminIsForbidden`).
- When no single `users` row is found, the POST's role check is skipped
  altogether (`ServiceAreasApi.MissingUserRowIsNotForbidden`).
- The POST checks neither the facility's organization nor the geometry.
- Global admins do not bypass the organization comparison. The organization
  check compares the two `org_id` values as they are, so two nulls are equal.
- The POST replies `{ areas: inserted }`. Without `.select()` that is `null`.
  It is modelled as `Saved`.
- Only GET and POST exist on `/api/service-areas`. There is no PUT or DELETE.

## Model

| member | source | states |
|---|---|---|
| Rbac.Where | lib/rbac.ts:42-46 | the rows kept are exactly those that satisfy every equality filter |
| Rbac.SelectSingle | lib/rbac.ts:42-46 | `.single()` yields a row iff exactly one row matches; the row it yields is a matching row of the table |
| Rbac.Col | lib/rbac.ts:44 | a column reads as null iff the row lacks it, otherwise as its value |
| Rbac.LookupUser | lib/rbac.ts:42-50 | a user is found iff a single `users` row has the session's id, and that user carries the session's id and the row's role and org |
| Rbac.CheckAccess | lib/rbac.ts:29-99 | 401 iff there is no session or no single user row; 403 "Insufficient permissions" iff a role list is given that lacks the user's role; allowed iff the user is found and every given check passes; an allowed result is the looked-up user; no other denial occurs |
| Rbac.EmptyCheckIsNoCheck | lib/rbac.ts:52-98 | a check object with no parts decides like no check at all |
| Rbac.StricterCheck | lib/rbac.ts:55-96 | a request that passes a check with more parts gets the same answer from a check with a subset of those parts |
| Rbac.Owns | lib/rbac.ts:64-80 | ownership holds iff a single row of the table has the value in the field and the user as `owner_id`; with no such row it fails |
| Rbac.SameOrg | lib/rbac.ts:82-97 | the organization check passes iff a single row of the table has the id and its `org_id` equals the user's; with no row of that id it fails |
| Rbac.FacilityInOrg | lib/rbac.ts:116-127 | the facility lookup is the organization check on the `facilities` table, and it passes only for a stored facility of the user's org |
| Rbac.CanManageServiceAreas | lib/rbac.ts:104-132 | allowed iff the user has role `admin` or `org_admin` and, when a facility is named, that facility's org equals the user's; 403 insufficient permissions iff the user is found with another role; 403 facility-denied iff the user has one of the two roles and the named facility is not of the user's org |
| Rbac.CanViewServiceAreas | lib/rbac.ts:137-159 | allowed iff the user is found and the facility's org equals the user's; denials are 401 or 403 facility-denied |
| Rbac.ManageImpliesView | lib/rbac.ts:104-159 | whoever may manage a facility's areas may view them, with the same user |
| Rbac.ManageIsOrgScoped | lib/rbac.ts:115-128 | a manager of a facility belongs to that facility's organization |
| Rbac.PlainUserCannotManage | lib/rbac.ts:108-113 | a found user with role `user` is refused with 403 insufficient permissions |
| Middleware.IsConfigured | middleware.ts:10-14 | configured only with a URL that starts with `http` and a key holding a `.`; every `https://` URL with such a key is configured, and no URL that does not start with `h` is |
| Middleware.DevPreview | middleware.ts:88-90 | preview mode is on iff the environment is not production and `DEV_PREVIEW` is exactly `"true"` |
| Middleware.ApiHeaders | middleware.ts:78-80 | the headers are `x-user-id` and `x-user-role` from the user row, and `x-user-org` exactly when the org is a non-empty string |
| Middleware.Handle | middleware.ts:5-111 | unconfigured: 503 for `/api` outside production, a pass for pages, 500 in production; configured `/api`: the denial of `checkAccess` without checks or a pass with the user's headers; `/app`: sign-in redirect without a session unless preview mode is on, redirect with no user row, else a pass with `x-user-role`; any other path passes; only an authenticated pass carries headers |
| ServiceAreasApi.ForFacility | app/api/service-areas/route.ts:19-22 | the rows listed are exactly the stored rows of the facility (in storage order, see "## Left out") |
| ServiceAreasApi.Others | app/api/service-areas/route.ts:59-63 | the rows left by the delete are exactly those of other facilities |
| ServiceAreasApi.ToRow | app/api/service-areas/route.ts:69-77 | the inserted row belongs to the posted facility and holds exactly the submitted fields |
| ServiceAreasApi.ToRows | app/api/service-areas/route.ts:69-77 | one row per submitted area, in order, each of the posted facility and holding that area's fields |
| ServiceAreasApi.Unwrap | app/api/service-areas/route.ts:69-70 | with no null entry, the areas are the submitted entries in order |
| ServiceAreasApi.ReplacedForFacility | app/api/service-areas/route.ts:59-83 | after a replace-all, the facility's stored rows are exactly the submitted areas, in storage order |
| ServiceAreasApi.ReplacedKeepsOthers | app/api/service-areas/route.ts:59-83 | a replace-all leaves every other facility's rows as they were |
| ServiceAreasApi.ReplaceTwice | app/api/service-areas/route.ts:59-83 | a second replace-all of the same facility discards the first: only the last list counts |
| ServiceAreasApi.Forbidden | app/api/service-areas/route.ts:43-50 | the POST refuses iff a single user row is found and its role is neither `ADMIN` nor `OWNER` |
| ServiceAreasApi.AdminIsForbidden | app/api/service-areas/route.ts:41-50 | a user whose role is `admin` is refused by the POST even though `canManageServiceAreas` admits them |
| ServiceAreasApi.MissingUserRowIsNotForbidden | app/api/service-areas/route.ts:42-50 | with no single user row, the POST's role check passes, while `checkAccess` would answer 401 |
| ServiceAreasApi.ServiceAreasTable.Get | app/api/service-areas/route.ts:5-27 | 400 when `facilityId` is missing or empty, 500 with the store's message on a read error, else exactly the facility's rows |
| ServiceAreasApi.ServiceAreasTable.Post | app/api/service-areas/route.ts:29-86 | 401 without a session; 403 for a found user not `ADMIN`/`OWNER`; a body that is not JSON throws; 400 without a facility id or an areas array; a delete error is 500 with the table unchanged; after the delete, a null entry throws and an insert error is 500, both leaving the facility with no areas; otherwise the table is the replace-all; saved iff all of these checks pass |
| ProfileApi.Validate | app/api/profile/route.ts:48-63 | each error message is given iff its check is the first to fail: images not an array of at most 3, a string bio over 300 UTF-16 units, insurances not an array, services not an array; no error iff none fails |
| ProfileApi.AcceptedShapes | app/api/profile/route.ts:49-63 | an accepted body has a falsy or array images field of at most 3, falsy or array insurances and services, and a string bio of at most 300 units |
| ProfileApi.BioAtLimitAccepted | app/api/profile/route.ts:53-55 | a bio of exactly 300 units with at most 3 images is accepted |
| ProfileApi.Updates | app/api/profile/route.ts:66-74 | the update writes `updated_at` and exactly the body fields that are present, with their values, and no other column |
| ProfileApi.Patch | app/api/profile/route.ts:66-77 | the written columns take the update's values; every other column is as it was |
| ProfileApi.PatchKeepsOwner | app/api/profile/route.ts:75 | an update never changes who owns the row |
| ProfileApi.OwnedAfterPatch | app/api/profile/route.ts:66-77 | updating a row leaves the set of rows the user owns unchanged |
| ProfileApi.ProfileTable.Get | app/api/profile/route.ts:4-32 | 401 without a session; 500 "Failed to fetch profile" on a read error or when the user does not own exactly one facility; else that facility's row |
| ProfileApi.ProfileTable.Put | app/api/profile/route.ts:34-89 | 401 without a session; a body that is not JSON is a 500; a validation error is a 400 with its message and no change; a failed or non-single update is a 500 "Failed to update profile" with no change; else the owned row is patched and returned, and ownership is unchanged |
| MatchesApi.Page | app/api/matches/route.ts:18 | the page is at least 1, defaults to 1, is the given page when that is at least 1, and is 1 when the given page is below 1 |
| MatchesApi.PerPage | app/api/matches/route.ts:19-22 | the page size is within 1..100, defaults to 10, is the given size within range, 100 above it and 1 below it |
| MatchesApi.RangeShape | app/api/matches/route.ts:49 | the range starts at a non-negative offset and holds `perPage` positions, and each page starts where the previous one ends |
| MatchesApi.OrgFilter | app/api/matches/route.ts:23-26 | the `orgId` parameter wins when non-empty, then the `x-user-org` header, else no org filter |
| MatchesApi.Filtered | app/api/matches/route.ts:51-55 | the rows kept are exactly the stored rows of the org whose facility A or B is the filter, and there are no more of them than stored rows |
| MatchesApi.FilteredWithin | app/api/matches/route.ts:51-55 | filtering invents no row and duplicates none: the kept rows are a sub-multiset of the stored ones |
| MatchesApi.Insert | app/api/matches/route.ts:48 | inserting into a descending list keeps it descending and makes it one longer, with the new row or the old head first |
| MatchesApi.InsertPermutes | app/api/matches/route.ts:48 | inserting adds exactly the new row, as multisets |
| MatchesApi.SortDesc | app/api/matches/route.ts:48 | the result is in descending score order and as long as the input |
| MatchesApi.SortDescPermutes | app/api/matches/route.ts:48 | the sorted result is a permutation of the input |
| MatchesApi.Ranked | app/api/matches/route.ts:48-55 | the filtered rows in descending score order, as many as pass the filters |
| MatchesApi.Window | app/api/matches/route.ts:49 | `.range(from, to)` is the slice of positions `from..to`, clipped at the end, and empty beyond it |
| MatchesApi.PagesTileTheList | app/api/matches/route.ts:49 | the first k pages put together are exactly the first k*perPage rows: pages neither overlap nor skip rows |
| MatchesApi.WithLogo | app/api/matches/route.ts:65-80 | a facility keeps its id, name and industry, keeps a non-empty logo, and otherwise gets the avatar URL for its name or "Business"; the logo is always non-empty |
| MatchesApi.AvatarUrl | app/api/matches/route.ts:67-71 | the URL starts with the avatar service prefix and ends with `&background=random` |
| MatchesApi.AvatarUrlOfPlainName | app/api/matches/route.ts:67-71 | a name of unreserved characters appears between prefix and suffix as it is |
| MatchesApi.AvatarUrlInjective | app/api/matches/route.ts:67-71 | different names get different avatar URLs |
| MatchesApi.AvatarNameIsEscaped | app/api/matches/route.ts:69-71 | between prefix and suffix the URL holds only unreserved characters and `%` escapes |
| MatchesApi.Decorate | app/api/matches/route.ts:63-81 | a match keeps its own fields, and both facilities get logos |
| MatchesApi.DecorateAll | app/api/matches/route.ts:63 | one decorated match per fetched match, in order |
| MatchesApi.Listing | app/api/matches/route.ts:29-81 | the page is the slice from `(page-1)*perPage` to `page*perPage-1` of the filtered rows by descending score, decorated, clipped at the end; it holds exactly `perPage` matches, or what is left past the offset, or none beyond the end; in descending score order, each a decorated stored row that passes both filters |
| MatchesApi.ListingOfPage | app/api/matches/route.ts:18-49 | page k of a query is the decorated slice of the ranked rows from `(k-1)*perPage` to `k*perPage`, whatever page the query named |
| MatchesApi.ListingsTile | app/api/matches/route.ts:18-81 | pages 1 to k of a query, read in order and joined, are exactly the first `k*perPage` ranked rows, decorated: pages neither overlap nor skip a match |
| MatchesApi.DecorateKeepsOrder | app/api/matches/route.ts:63-81 | adding logos keeps the descending score order |
| MatchesApi.WindowOfSorted | app/api/matches/route.ts:48-49 | a page of a descending list is descending and holds only rows of the list |
| MatchesApi.Get | app/api/matches/route.ts:6-84 | a `checkAccess` denial is returned as it is; 500 with the store's message on a read error; else the listing for the query |
| Uri.EncodeURIComponent | app/api/matches/route.ts:69-71 | the encoding holds only unreserved characters and `%`, and is never shorter than its input |
| Uri.EncodeUnreserved | app/api/matches/route.ts:69-71 | a name of unreserved characters is left as it is |
| Uri.Utf8 | app/api/matches/route.ts:69-71 | one to four bytes each below 256, one byte iff the character is ASCII, and the first byte tells the length |
| Uri.Utf8Injective | app/api/matches/route.ts:69-71 | no two characters share a UTF-8 encoding |
| Uri.EncodeCharPrefix | app/api/matches/route.ts:69-71 | no character's encoding starts another's: encodings followed by anything agree only when the characters and what follows agree |
| Uri.EncodeInjective | app/api/matches/route.ts:69-71 | different texts have different encodings |
| Uri.EncodeGrows | app/api/matches/route.ts:69-71 | a name with a character to escape grows by at least two characters |
| Sidebar.TimeRemaining | components/ConversationsSidebar.tsx:35-49 | "Expired" when no time is left; else days and hours when at least a day is left, or hours, both in whole hours rounded down |
| Sidebar.ExpiredIffNoTimeLeft | components/ConversationsSidebar.tsx:40-42 | the label is "Expired" iff no time is left |
| Sidebar.RemainingDecomposes | components/ConversationsSidebar.tsx:38-47 | the shown days and hours add up to the whole hours left, within an hour of the exact time; a running match shows at most two days |
| Sidebar.TimeRemainingReadsBack | components/ConversationsSidebar.tsx:44-48 | the label's leading number parses back as the days, or the hours under a day |
| Sidebar.FormatTime | components/ConversationsSidebar.tsx:51-62 | "Just now" under an hour, "{h}h ago" under a day, "Yesterday" on the second day, "{d}d ago" after |
| Sidebar.YesterdayIffSecondDay | components/ConversationsSidebar.tsx:59-60 | the label is "Yesterday" iff the time is between one and two days ago |
| Sidebar.JustNowIffUnderAnHour | components/ConversationsSidebar.tsx:55-57 | the label is "Just now" iff the time is less than an hour ago, future times included |
| FacilityCard.DisplayImage | components/Card.tsx:22-33 | the first profile image when it is non-empty, else the single image when non-empty, else the placeholder, which is shown iff neither is a non-empty string |
| FacilityCard.Meta | components/Card.tsx:42-44 | the location line splits back into the city, ", " and the state, a missing part being empty |
| FacilityCard.ServicesLineShowsFirstFour | components/Card.tsx:47 | every service is shown when there are at most four; otherwise exactly the first four, the fourth after the first three |
| FacilityCard.InsuranceLine | components/Card.tsx:49-54 | the insurance line is shown iff the list is non-empty; it lists the first three and the suffix for the rest |
| FacilityCard.MoreSuffix | components/Card.tsx:53-54 | no suffix for at most three insurances, else " +N more" with N the count beyond three |
| FacilityCard.MoreCountReadsBack | components/Card.tsx:53-54 | the number in " +N more" parses back as the count of insurances beyond the third |
| FacilityCard.Card | components/Card.tsx:20-60 | the card shows the name, the badge iff verified is true, the bio iff it is non-empty, and the image, location, services and insurance lines |
| FacilityCard.SmokeTestCard | tests/ui.test.tsx:15-32 | the test facility's card shows "Test Facility", "Austin, TX", "Therapy • Counseling" and the badge |
| Filters.Distance | components/FiltersPanel.tsx:67-72 | the distance is the parsed number when there is one and it is not 0; else there is none |
| Filters.DistanceOfNumber | components/FiltersPanel.tsx:70 | typing a non-zero number gives that distance; an empty field gives none |
| Filters.Toggled | components/FiltersPanel.tsx:74-96 | the toggled value is in the list iff it was not in it before; every other value is in it iff it was before; a missing list counts as empty |
| Filters.ToggledTwice | components/FiltersPanel.tsx:74-79 | toggling an absent value twice restores the list |
| Filters.FiltersPanel.HandleLocationChange | components/FiltersPanel.tsx:63-65 | only the location changes, to the typed text |
| Filters.FiltersPanel.HandleDistanceChange | components/FiltersPanel.tsx:67-72 | only the distance changes, to the parsed distance |
| Filters.FiltersPanel.ToggleInsurance | components/FiltersPanel.tsx:74-80 | only the insurance list changes, toggled |
| Filters.FiltersPanel.ToggleAgeGroup | components/FiltersPanel.tsx:82-88 | only the age-group list changes, toggled |
| Filters.FiltersPanel.ToggleService | components/FiltersPanel.tsx:90-96 | only the service list changes, toggled |
| Filters.FiltersPanel.HandleApply | components/FiltersPanel.tsx:98-101 | the parent gets the local filters, then the close call, in that order |
| Filters.FiltersPanel.HandleClear | components/FiltersPanel.tsx:103-107 | the local filters become empty, and the empty filters are reported without closing |
| Lists.Without | components/FiltersPanel.tsx:77 | the value is removed everywhere, and every other value keeps its count |
| Lists.Toggle | components/FiltersPanel.tsx:75-78 | the value's membership flips; an absent value is appended at the end |
| Lists.ToggleTwiceAbsent | components/FiltersPanel.tsx:75-78 | toggling an absent value twice gives the list back |
| Lists.ToggleTwicePresent | components/FiltersPanel.tsx:75-78 | toggling a present value twice moves it, once, to the end |
| Lists.RemoveAt | app/app/profile/page.tsx:102 | removing index i drops exactly that element; an index out of range changes nothing |
| ProfileEditor.SaveWithinLimitsIsAccepted | app/app/profile/page.tsx:74-89 | a save from the page passes the profile route's validation iff the page holds at most 3 images and a bio of at most 300 units |
| ProfileEditor.ProfilePage.HandleImageUpload | app/app/profile/page.tsx:91-99 | with a file and fewer than 3 images, the new image is appended and the whole profile saved; otherwise nothing changes; the limits are kept |
| ProfileEditor.ProfilePage.RemoveImage | app/app/profile/page.tsx:101-105 | exactly the image at the index is removed, and the profile saved; the limits are kept |
| ProfileEditor.ProfilePage.ToggleInsurance | app/app/profile/page.tsx:107-113 | only the insurance selection changes, toggled, and the profile is saved |
| ProfileEditor.ProfilePage.ToggleService | app/app/profile/page.tsx:115-121 | only the service selection changes, toggled, and the profile is saved |
| ProfileEditor.ProfilePage.HandleBioChange | app/app/profile/page.tsx:123-132 | a bio of at most 300 units is taken and saved; a longer one changes nothing and saves nothing |
| Dashboard.Cut | app/dashboard/page.tsx:137-141 | the deck has three cards and starts with the facility at the index |
| Dashboard.CutIsPermutation | app/dashboard/page.tsx:12-36 | with three sample facilities, every deck shows each facility exactly once |
| Dashboard.CutRotates | app/dashboard/page.tsx:128-141 | the deck at the next index is the current deck rotated left by one |
| Dashboard.DashboardPage.constructor | app/dashboard/page.tsx:40-45 | the counter, index and deck key start at 0, with no match screen, chat or pending match |
| Dashboard.DashboardPage.OnMatch | app/dashboard/page.tsx:51-62 | the third match resets the counter and opens the match screen for that facility; earlier ones count up; the counter stays below three |
| Dashboard.DashboardPage.OnSkip | app/dashboard/page.tsx:64-66 | a skip changes nothing |
| Dashboard.DashboardPage.Continue | app/dashboard/page.tsx:125-131 | the match screen closes, the chat opens with the pending facility, the pending match clears, the deck key grows by one, and the index moves on modulo the sample, rotating the deck |
| Chat.Classify | components/ChatView.tsx:114-116 | a message is drawn as sent iff its sender is the current user |
| Chat.Sides | components/ChatView.tsx:111-116 | one side per message, in order, sent iff the current user wrote it |
| Chat.ChatView.SetText | components/ChatView.tsx:136 | typing replaces the text and sends nothing |
| Chat.ChatView.SendDisabled | components/ChatView.tsx:143 | the Send button is disabled iff the text is whitespace only |
| Chat.ChatView.HandleSend | components/ChatView.tsx:42-47 | a text that is not blank is handed over untrimmed and the box cleared; a blank one is neither sent nor cleared; nothing blank is ever sent |
| Chat.ChatView.HandleKeyPress | components/ChatView.tsx:49-54 | Enter without Shift is prevented and sends; any other key does nothing |
| AreaMap.Submitted | components/ServiceAreaMap.tsx:112 | a posted circle carries its id, center and radius, and no city or state |
| AreaMap.Body | components/ServiceAreaMap.tsx:109-113 | the POST body names the facility and carries one entry per circle, in order |
| AreaMap.FromRow | components/ServiceAreaMap.tsx:18-23 | a projection of the model's own, with no counterpart in the source, of a stored row onto the map's circle fields: defined iff the row has an id, center and radius, and then the circle posts as the row's fields |
| AreaMap.BodyIsWellFormed | components/ServiceAreaMap.tsx:106-113 | every save the map posts passes the route's body checks, has no null entry, and inserts the circles' fields |
| AreaMap.SavedCirclesReadBack | components/ServiceAreaMap.tsx:109-113 | after a save goes through, the facility's stored rows that GET selects are one per saved circle and carry its id, center and radius (as `radius_miles`); the model keeps them in storage order |
| AreaMap.ServiceAreaMap.constructor | components/ServiceAreaMap.tsx:43-46 | the circles start as the given areas, and the status as idle |
| AreaMap.ServiceAreaMap.SaveAreas | components/ServiceAreaMap.tsx:105-113 | without a facility, nothing changes; otherwise the status is saving and the whole list is posted |
| AreaMap.ServiceAreaMap.SaveFinished | components/ServiceAreaMap.tsx:114-124 | an ok response gives saved; a failed response or an exception gives error |
| AreaMap.ServiceAreaMap.TimerFired | components/ServiceAreaMap.tsx:120 | the timer after a save sets the status to idle |
| AreaMap.ServiceAreaMap.Publish | components/ServiceAreaMap.tsx:101-103 | the new list goes to the listener, if one is given, and to the save |
| AreaMap.ServiceAreaMap.HandleMapClick | components/ServiceAreaMap.tsx:90-104 | a click on a map that is not editable, or with no position, does nothing; otherwise exactly one 10-mile circle is appended at the click, with the clock reading as its id, and the whole list is reported and saved |
| AreaMap.ServiceAreaMap.HandleCircleCenterChange | components/ServiceAreaMap.tsx:75-88 | only the moved circle's center changes, and the whole list is reported and saved |
| AreaMap.ServiceAreaMap.HandleCircleRadiusChange | components/ServiceAreaMap.tsx:64-73 | only the circle's radius changes, to the meters converted to miles; the radius the map reports back leaves the list as it was; the whole list is reported and saved |
| Text.Trim | components/ChatView.tsx:43 | `trim` is empty iff the text is all whitespace; otherwise it starts and ends with a non-whitespace character and is a slice of the text |
| Text.JsLength | app/api/profile/route.ts:53 | the UTF-16 length lies between the number of code points and twice that |
| Text.ParseIntOfIntToString | components/FiltersPanel.tsx:70 | `parseInt` reads back any integer as `String` writes it |
| Text.ParseIntOfNumeralPrefix | components/ConversationsSidebar.tsx:47-48 | `parseInt` reads the leading numeral of a label and stops at the first non-digit |
| Text.JoinAppend | components/Card.tsx:47 | joining one more item adds one separator and the item |

## Left out

- Numbers in the matches query. `Number(...)` of `page` and `per_page` can be fractional or NaN. The model takes them as integers or absent. A NaN page size makes the range NaN, and that is not modelled.
- The `or` filter of the matches route is built by pasting the `facilityId` into text. The model treats it as the intended equality. Injection of further filter terms through that text is not modelled.
- Null scores, and the order of equal scores. A score is always a number here. Ties keep the order of the stored rows, while the store leaves that order unspecified.
- A page range past the end of the rows is modelled as an empty page. The store may answer with an error there instead.
- Concurrency: concurrent replace-all POSTs on one facility, a write between the service-area delete and insert, and out-of-order responses to overlapping saves from the map or the profile page.
- Row order of the service-area table. The table is a sequence, and a select returns its rows in storage order; the store promises no order without `.order(...)`, which the GET does not use. So the order in `ServiceAreasApi.ForFacility`, `ServiceAreasApi.ReplacedForFacility` and `AreaMap.SavedCirclesReadBack` is the model's, not the store's.
- Ids that the store assigns. An inserted area without an id keeps `None`.
- ProfileApi.ProfileTable.Put: an update that matches several rows is modelled as a 500 with the store unchanged. This assumes the store rolls the statement back.
- The middleware sets its identity headers on the response. The matches route reads `x-user-org` from the request. The model passes the header to the route as a parameter and does not link the two.
- `formatMessageTime` in the chat view. It is locale formatting of dates through foreign code.
- The scrolling and focus effects of the chat view, the map's `fitBounds` and the sign-in redirect URL are rendering and foreign calls.
- The one-second delay of the profile page's bio save. The save is recorded at once, with the bio that was typed. 1.2 seconds after a save, the map's idle timer is a separate step, `TimerFired`.
- Coordinates are exact reals. The meters↔miles conversion does no floating-point rounding.
- `Date` values are integers of milliseconds. Invalid dates (NaN) are not modelled.
- Service-area geometry is not validated. The route does no such validation.
- A `facilityId` that is a JSON value other than a string is read as absent.
- The DELETE test in `tests/service-areas.test.ts` calls a handler that the route file does not define.
- Marketing pages, the waitlist and layout pages, the navigation bar, the matches page, mock data, the Supabase client factory, scripts and Next.js configuration are outside this model.
