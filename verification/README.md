# workplace-frontend: a Dafny model of the dashboard's core logic

The modelled code is the logic that the workplace-frontend admin dashboard keeps outside its markup:

- the client-side table controller `useClientTable`: search, page count, page slice and the page reset;
- the numbered page window and the Prev/Next buttons of `Pagination`;
- the "Showing X to Y of N entries" line of `DataTableInfo`;
- the authorization predicates of `AuthService`;
- the two route gates, `src/proxy.ts` and `middleware.ts`;
- the selection list of the `MultiSelect` form element;
- the in-memory `SettingsService` store of banners, static pages and menu items;
- the decoding of a JWT payload (`parseJwt`) and the header's choice of name, e-mail and avatar;
- `getAssetUrl`.

There is one Dafny module per source file. `Wrappers` holds `Option` and `Result`. `Strings` holds prefix and substring tests and the ASCII lower-casing that the search and role checks use. `Http` holds the request URL and the gate decision shared by both gates.

Where the code holds state, the model does too:

- `ClientTable.Table` carries the hook's `data`, `currentPage`, `perPage` and `search` as fields.
- `MultiSelect.Selector` carries the component's `selected` list.
- `SettingsService.Settings` carries the three mutable tables.
- `Pagination.BuildPages` is the loop-and-push construction of the page window, proved equal to the function `Pagination.Window`.

Browser and platform services become parameters:

- cookies and `localStorage` are `Option<string>` arguments;
- `atob`, `decodeURIComponent` and `JSON.parse` are the fields of `UserInfo.Decoders`;
- `Date.now()` is the `newId` argument of each create;
- `process.env.NEXT_PUBLIC_ASSET_URL` is the `configured` argument.

## Where the model follows the code rather than its documentation

- **Empty `searchKeys` with a non-empty search.** `searchKeys` defaults to `[]`, and `[].some(...)` is false. So the filter removes every row (`ClientTable.NoKeysMatchNothing`). It does not leave the data unfiltered.
- **`setPerPage`** is the raw state setter. It does not move back to page 1.
- **`setCurrentPage`** stores any number. The only correction is the overflow reset: when `currentPage > totalPages` the page becomes 1, not the last page. A page below 1 is kept.
  - Changing 10 rows per page to 5 while on page 2 of 23 rows therefore keeps page 2, since there are now 5 pages.
  - `Array.slice` is modelled in full, negative indices included (`ClientTable.JsSlice`), so such pages have a defined content: page 0 is empty (`ClientTable.PageZeroIsEmpty`) and a negative page counts back from the end (`ClientTable.NegativePageCountsFromEnd`).
- **`canAccessApplication`** is documented as checking `access_app_<slug>`, but it checks `access_<slug>` (`Auth.AccessBySlugPermission`).
- **`getAssetUrl`'s comment** mentions a `/storage/` segment. The code joins the backend URL and the path with a single `/`.
- **The two gates protect different pages.** `src/proxy.ts` protects `/` and `/settings…`, and sends signed-in users from `/login…` and `/register…` to `/`. `middleware.ts` protects `/dashboard` and `/settings…`, and sends signed-in users from `/login` to `/dashboard`. `Proxy.DashboardNotGuarded` states that the proxy lets an anonymous request for `/dashboard` through.

## Model

| member | source | states |
|---|---|---|
| ClientTable.AnyKeyMatches | src/hooks/useClientTable.ts:25-28 | true exactly when some search key's field text, lower-cased, contains the needle |
| ClientTable.Keep | src/hooks/useClientTable.ts:24 | the kept rows all pass the test, form a sub-multiset of the data, and every passing row is kept as often as it occurs |
| ClientTable.KeepMatching | src/hooks/useClientTable.ts:24-29 | the filtered rows are a sub-multiset of the data, every kept row matches, and every matching row is kept as often as it occurs |
| ClientTable.FilterRows | src/hooks/useClientTable.ts:18-33 | an empty search returns the data unchanged; otherwise every kept row matches the lower-cased search, the result is a sub-multiset of the data, and every matching row is kept as often as it occurs |
| ClientTable.KeepAppend | src/hooks/useClientTable.ts:24 | filtering keeps order: filtering a concatenation is concatenating the filtered parts |
| ClientTable.KeepAll | src/hooks/useClientTable.ts:24 | when every row passes the test, filtering returns the data itself |
| ClientTable.KeepMatchingAppend | src/hooks/useClientTable.ts:24-29 | filtering keeps order: filtering a concatenation is concatenating the filtered parts |
| ClientTable.KeepMatchingAll | src/hooks/useClientTable.ts:24-29 | when every row matches, filtering returns the data itself |
| ClientTable.NoKeysMatchNothing | src/hooks/useClientTable.ts:12-29 | with the default empty key list, a non-empty search leaves no rows |
| ClientTable.SearchIgnoresCase | src/hooks/useClientTable.ts:22-27 | searches whose lower-case forms agree select the same rows |
| ClientTable.PageCount | src/hooks/useClientTable.ts:35 | at least 1; exactly 1 for no rows; otherwise the least page count whose pages hold every row |
| ClientTable.ClampIndex | src/hooks/useClientTable.ts:39 | a slice bound resolved as JavaScript does: a bound within 0..length is kept, one past the end becomes the length, a negative one counts from the end, and one before the start becomes 0 |
| ClientTable.JsSlice | src/hooks/useClientTable.ts:39 | the elements from the resolved start up to the resolved end, element by element, and none when they cross; in-range bounds give s[start..end] and an end past the length gives everything from start |
| ClientTable.PageZeroIsEmpty | src/hooks/useClientTable.ts:37-40 | page 0 asks for slice(-perPage, 0), which shows no rows |
| ClientTable.NegativePageCountsFromEnd | src/hooks/useClientTable.ts:37-40 | a page p of -1 or less shows the perPage rows starting perPage*(1-p) rows before the end, when that many rows exist |
| ClientTable.PageSlice | src/hooks/useClientTable.ts:37-40 | a page never holds more than perPage rows |
| ClientTable.PageSliceRange | src/hooks/useClientTable.ts:37-40 | page p of at least 1 is exactly the rows from (p-1)*perPage up to p*perPage, capped at the end |
| ClientTable.PageBeyondLastIsEmpty | src/hooks/useClientTable.ts:35-40 | a page after the last page shows no rows |
| ClientTable.PageInRangeIsNonEmpty | src/hooks/useClientTable.ts:35-40 | with rows present, every page from 1 to the page count shows at least one row |
| ClientTable.RowOnItsPage | src/hooks/useClientTable.ts:37-40 | row i appears on page i/perPage + 1 at position i mod perPage |
| ClientTable.Table.Filtered | src/hooks/useClientTable.ts:18-33 | with an empty search the filtered rows are the data; they are always a sub-multiset of the data |
| ClientTable.Table.TotalEntries | src/hooks/useClientTable.ts:60 | never more than the number of rows, and all of them with an empty search |
| ClientTable.Table.TotalPages | src/hooks/useClientTable.ts:35 | at least 1, exactly 1 without entries, and otherwise enough pages of perPage rows to hold every entry |
| ClientTable.Table.Rows | src/hooks/useClientTable.ts:37-40 | at most perPage rows; at least one on every page from 1 to the page count when any row matches; none past the last page |
| ClientTable.Table.constructor | src/hooks/useClientTable.ts:9-16 | a new table starts on page 1 with an empty search and the given rows per page |
| ClientTable.Table.WithDefaults | src/hooks/useClientTable.ts:9-16 | without options the table has no search keys, 10 rows per page, page 1 and an empty search |
| ClientTable.Table.SetData | src/hooks/useClientTable.ts:9-10 | replaces the rows and nothing else |
| ClientTable.Table.SetCurrentPage | src/hooks/useClientTable.ts:14 | stores the page as given, unclamped, and nothing else |
| ClientTable.Table.SetPerPage | src/hooks/useClientTable.ts:15 | stores the rows per page and keeps the current page |
| ClientTable.Table.HandleSearch | src/hooks/useClientTable.ts:47-50 | stores the search and returns to page 1, which is in range and non-empty whenever any row matches |
| ClientTable.Table.ResetOverflow | src/hooks/useClientTable.ts:42-45 | a page past the last becomes 1; any other page is kept; the page is then at most the page count |
| Pagination.Run | src/components/Pagination/Pagination.tsx:19-22 | the numbered buttons lo, lo+1, … up to but excluding hi |
| Pagination.Window | src/components/Pagination/Pagination.tsx:14-47 | at most 7 entries; for one page or more, the first entry is page 1 and the last is the last page; no entries without pages |
| Pagination.BuildPages | src/components/Pagination/Pagination.tsx:14-47 | the loop-and-push construction yields exactly the page window |
| Pagination.SmallWindowIsAllPages | src/components/Pagination/Pagination.tsx:19-22 | with at most 7 pages, every page 1..totalPages is shown, in order, with no gap |
| Pagination.LargeWindowShape | src/components/Pagination/Pagination.tsx:24-46 | with more than 7 pages, the window starts at page 1, ends at the last page and has 7 entries |
| Pagination.WindowWellFormed | src/components/Pagination/Pagination.tsx:14-47 | the numbers shown strictly increase, lie within 1..totalPages, and each gap hides at least one page |
| Pagination.WindowShowsCurrent | src/components/Pagination/Pagination.tsx:24-46 | the current page, when in range, is always one of the buttons |
| Pagination.WindowAccountsForEveryPage | src/components/Pagination/Pagination.tsx:24-46 | every page of 1..totalPages is either shown or hidden inside a gap |
| Pagination.NavigationStaysInRange | src/components/Pagination/Pagination.tsx:55-100 | Prev is disabled exactly on page 1 and Next exactly on the last page; an enabled button leads to a page in range |
| Pagination.PrevTarget | src/components/Pagination/Pagination.tsx:55 | Previous asks for the page one before the current one |
| Pagination.NextTarget | src/components/Pagination/Pagination.tsx:99 | Next asks for the page one after the current one |
| Pagination.PrevDisabled | src/components/Pagination/Pagination.tsx:56 | from a real page, Previous is disabled exactly when the page it would ask for is below 1 |
| Pagination.NextDisabled | src/components/Pagination/Pagination.tsx:100 | up to the last page, Next is disabled exactly when the page it would ask for is past the last page |
| DataTableInfo.End | src/components/Tables/DataTableInfo.tsx:15 | the last entry shown is the smaller of the page end and the entry count |
| DataTableInfo.Start | src/components/Tables/DataTableInfo.tsx:14 | 0 without entries; otherwise one more than a multiple of perPage, namely the first entry of page currentPage |
| DataTableInfo.StartZeroIffEmpty | src/components/Tables/DataTableInfo.tsx:14 | on a real page, the first entry shown is 0 exactly when there are no entries, and at least 1 otherwise |
| DataTableInfo.InfoMatchesPageSlice | src/components/Tables/DataTableInfo.tsx:14-15 | for a non-empty table on one of its pages, the printed range is exactly the rows the table controller shows |
| Auth.EntryName | src/services/auth.service.ts:29 | an object entry without a name counts as the empty name |
| Auth.AnyAdminRole | src/services/auth.service.ts:28-32 | true exactly when some role's lower-cased name is admin, super admin, super-admin or super_admin |
| Auth.AnyAdminPermission | src/services/auth.service.ts:34-37 | true exactly when some permission is named all-access or * |
| Auth.AnyPermissionNamed | src/services/auth.service.ts:47-50 | true exactly when some permission carries the wanted name |
| Auth.AnyAppMatches | src/services/auth.service.ts:66-69 | true exactly when some listed application has the app's id or slug |
| Auth.IsSuperAdmin | src/services/auth.service.ts:22-40 | false without a user; otherwise true exactly when an admin role or an admin permission is present |
| Auth.HasPermission | src/services/auth.service.ts:42-51 | true exactly for a super admin, or for a user whose permission list has an entry with exactly that name |
| Auth.CanAccessApplication | src/services/auth.service.ts:60-74 | true exactly for a super admin, for a user whose applications list has the app's id or slug, or, without such a list, for a user holding access_ followed by the slug |
| Auth.NoUserNoAccess | src/services/auth.service.ts:22-63 | with no stored user every check is false |
| Auth.SuperAdminMayDoAnything | src/services/auth.service.ts:42-61 | a super admin holds every permission and may open every application |
| Auth.PermissionIsExactName | src/services/auth.service.ts:42-51 | for anyone else, a permission is held exactly when an entry has that exact name |
| Auth.ApplicationsListDecides | src/services/auth.service.ts:60-70 | with an applications list, access is by id or slug and does not depend on permissions |
| Auth.AccessBySlugPermission | src/services/auth.service.ts:72-73 | without an applications list, access is the permission access_ followed by the slug |
| Auth.RoleNamesIgnoreCase | src/services/auth.service.ts:28-32 | roles with the same lower-case names decide super-admin status alike |
| Auth.RoleCaseIgnoredPermissionCaseKept | src/services/auth.service.ts:28-37 | the role ADMIN makes a super admin, but the permission ALL-ACCESS does not |
| Proxy.Decide | src/proxy.ts:10-45 | redirects exactly an anonymous request for a protected route (to /login) or a signed-in request for an auth route (to /), same origin and no query |
| Proxy.NoRedirectLoop | src/proxy.ts:18-41 | following a redirect with the same cookie is never redirected again |
| Proxy.RedirectTargets | src/proxy.ts:22-41 | a signed-in user is never sent to /login, an anonymous one never to / |
| Proxy.DashboardNotGuarded | src/proxy.ts:19-29 | an anonymous request for /dashboard passes the proxy |
| Middleware.WithPath | middleware.ts:17-25 | the cloned URL differs from the request only in its path |
| Middleware.Decide | middleware.ts:8-30 | redirects exactly an anonymous request for /dashboard or /settings… (to /login) or a signed-in request for /login (to /dashboard), keeping origin and query |
| Middleware.NoRedirectLoop | middleware.ts:13-27 | following a redirect with the same cookie is never redirected again |
| MultiSelect.Without | src/components/FormElements/MultiSelect.tsx:56-57 | drops every copy of the value and keeps every other value as often as it occurs |
| MultiSelect.Toggle | src/components/FormElements/MultiSelect.tsx:43-54 | the value's membership flips and every other value's membership is unchanged |
| MultiSelect.WithoutAppend | src/components/FormElements/MultiSelect.tsx:56-57 | removal keeps order: removing from a concatenation removes from each part |
| MultiSelect.ToggleAbsentAppends | src/components/FormElements/MultiSelect.tsx:44-49 | selecting an unselected value appends it at the end |
| MultiSelect.ToggleTwiceRestores | src/components/FormElements/MultiSelect.tsx:43-54 | selecting an unselected value twice gives back the original list |
| MultiSelect.WithoutKeepsNoDuplicates | src/components/FormElements/MultiSelect.tsx:56-60 | removal keeps a list free of duplicates |
| MultiSelect.ToggleKeepsNoDuplicates | src/components/FormElements/MultiSelect.tsx:43-54 | selection keeps a list free of duplicates |
| MultiSelect.ChipLabel | src/components/FormElements/MultiSelect.tsx:89-97 | the text of the first option with that value, or the value itself when no option has it |
| MultiSelect.Selector.constructor | src/components/FormElements/MultiSelect.tsx:26 | the selection starts as the default values |
| MultiSelect.Selector.ResetTo | src/components/FormElements/MultiSelect.tsx:31-33 | new default values replace the selection |
| MultiSelect.Selector.Select | src/components/FormElements/MultiSelect.tsx:43-54 | the stored selection is the toggled one, and onChange receives it |
| MultiSelect.Selector.Remove | src/components/FormElements/MultiSelect.tsx:56-60 | the stored selection loses the value, and onChange receives it |
| MultiSelect.Selector.Chips | src/components/FormElements/MultiSelect.tsx:89-97 | one chip per selected value, labelled by the value itself when no option offers it |
| SettingsService.MergeLaws | src/services/settings.service.ts:83 | merging an empty patch changes nothing, and merging the same patch twice is merging it once |
| SettingsService.MergeBanner | src/services/settings.service.ts:83 | a patch without id keeps the id, and the merge leaves the banner as it was exactly when every key the patch carries already has the stored value |
| SettingsService.MergePage | src/services/settings.service.ts:109 | a patch without id keeps the id, and the merge leaves the page as it was exactly when every key the patch carries already has the stored value |
| SettingsService.MergeMenu | src/services/settings.service.ts:135 | as for banners, and a patch whose parent_id is null or undefined leaves the item without a parent |
| SettingsService.FindIndex | src/services/settings.service.ts:81 | -1 exactly when no row has the id; otherwise the first row with it |
| SettingsService.RemoveId | src/services/settings.service.ts:89 | no row with the id remains; every other row remains as often as it occurred |
| SettingsService.RemoveIdAppend | src/services/settings.service.ts:89 | deletion keeps order: deleting from a concatenation deletes from each part |
| SettingsService.RemoveAbsentId | src/services/settings.service.ts:87-90 | deleting an id that is not present leaves the table as it was |
| SettingsService.RemoveIdIdempotent | src/services/settings.service.ts:87-90 | deleting the same id twice is deleting it once |
| SettingsService.UpdateKeepsLookup | src/services/settings.service.ts:81-84 | after replacing the first row with the id by a row with the same id, the lookup finds the same index, which holds the new row; the length and every other row are unchanged |
| SettingsService.UpdateBannerFoundAgain | src/services/settings.service.ts:79-85 | after updating a banner with a patch that carries no id, the lookup by id finds the same index, holding the merged banner |
| SettingsService.UpdatePageFoundAgain | src/services/settings.service.ts:105-111 | after updating a page with a patch that carries no id, the lookup by id finds the same index, holding the merged page |
| SettingsService.UpdateMenuCanClearParent | src/services/settings.service.ts:131-137 | updating a menu item with parent_id null makes it top-level, at the same index |
| SettingsService.Settings.constructor | src/services/settings.service.ts:5-60 | the store starts with the mock banners, pages and menu items |
| SettingsService.Settings.GetBanners | src/services/settings.service.ts:67-70 | returns the stored banners |
| SettingsService.Settings.CreateBanner | src/services/settings.service.ts:72-77 | appends the banner with the new id and returns it; other tables unchanged |
| SettingsService.Settings.UpdateBanner | src/services/settings.service.ts:79-85 | fails with "Banner not found" and no change when the id is absent; otherwise merges the patch into the first banner with the id and returns it |
| SettingsService.Settings.DeleteBanner | src/services/settings.service.ts:87-90 | keeps exactly the banners with another id |
| SettingsService.Settings.GetPages | src/services/settings.service.ts:93-96 | returns the stored pages |
| SettingsService.Settings.CreatePage | src/services/settings.service.ts:98-103 | appends the page with the new id and returns it; other tables unchanged |
| SettingsService.Settings.UpdatePage | src/services/settings.service.ts:105-111 | fails with "Page not found" and no change when the id is absent; otherwise merges the patch into the first page with the id |
| SettingsService.Settings.DeletePage | src/services/settings.service.ts:113-116 | keeps exactly the pages with another id |
| SettingsService.Settings.GetMenus | src/services/settings.service.ts:119-122 | returns the stored menu items |
| SettingsService.Settings.CreateMenu | src/services/settings.service.ts:124-129 | appends the menu item with the new id and returns it; other tables unchanged |
| SettingsService.Settings.UpdateMenu | src/services/settings.service.ts:131-137 | fails with "Menu item not found" and no change when the id is absent; otherwise merges the patch, which may clear parent_id with null, into the first item with the id |
| SettingsService.Settings.DeleteMenu | src/services/settings.service.ts:139-142 | keeps exactly the menu items with another id |
| UserInfo.Split | src/components/Layouts/header/user-info/index.tsx:19 | at least one part, and no part contains the separator |
| UserInfo.SplitJoin | src/components/Layouts/header/user-info/index.tsx:19 | joining the parts with the separator gives back the string |
| UserInfo.SplitHasTwoParts | src/components/Layouts/header/user-info/index.tsx:19-20 | there are two or more parts exactly when the separator occurs |
| UserInfo.ReplaceAll | src/components/Layouts/header/user-info/index.tsx:22 | the same length, with every occurrence of one character replaced |
| UserInfo.Normalize | src/components/Layouts/header/user-info/index.tsx:22 | the same length, with - turned into + and _ turned into / |
| UserInfo.NormalizeRoundTrip | src/components/Layouts/header/user-info/index.tsx:22 | a base64url segment becomes standard base64, and turning + and / back recovers the segment |
| UserInfo.Repeat | src/components/Layouts/header/user-info/index.tsx:24 | n copies of the character |
| UserInfo.Pad | src/components/Layouts/header/user-info/index.tsx:23-24 | a length divisible by 4 with at most three = appended, and no change when already divisible |
| UserInfo.HexDigit | src/components/Layouts/header/user-info/index.tsx:30 | a lower-case hexadecimal digit |
| UserInfo.ToHex | src/components/Layouts/header/user-info/index.tsx:30 | a string of lower-case hex digits whose value read in base 16 is n, with no leading zero; its last character is HexDigit(n % 16), from 16 up the one before is HexDigit((n/16) % 16), and it is one character exactly below 16 |
| UserInfo.PercentByte | src/components/Layouts/header/user-info/index.tsx:30 | each escape is three characters starting with % |
| UserInfo.PercentByteDigits | src/components/Layouts/header/user-info/index.tsx:30 | each character becomes % and two hex digits of its code, the low byte when the code exceeds 255 |
| UserInfo.PercentEncode | src/components/Layouts/header/user-info/index.tsx:26-32 | three output characters per input character |
| UserInfo.DecodeOneEscape | src/components/Layouts/header/user-info/index.tsx:26-33 | in the Latin-1 reading of the escapes, one escape of a character below 256 reads back as that character, followed by whatever the rest reads as |
| UserInfo.PercentRoundTrip | src/components/Layouts/header/user-info/index.tsx:26-33 | the %hh re-encoding loses nothing: for characters below 256, a Latin-1 reading of the escapes gives back the string (decodeURIComponent itself reads them as UTF-8 and is the decodeUri parameter) |
| UserInfo.PayloadSegment | src/components/Layouts/header/user-info/index.tsx:17-24 | present exactly when the token is non-empty and has a second segment; its length is divisible by 4 |
| UserInfo.PayloadIsSecondSegment | src/components/Layouts/header/user-info/index.tsx:19-24 | for header.payload and header.payload.signature, the decoded segment is the payload, normalized and padded |
| UserInfo.ParseJwt | src/components/Layouts/header/user-info/index.tsx:16-38 | no payload for a missing or empty token or without a payload segment; otherwise a payload exactly when atob, decodeURIComponent of the %hh re-encoding and JSON.parse all succeed in turn, and then it is what JSON.parse gives |
| UserInfo.ParseJwtDecodesPayload | src/components/Layouts/header/user-info/index.tsx:19-37 | for header.payload or header.payload.signature, the result is v exactly when atob of the padded payload gives some d, decodeURIComponent of d re-encoded gives some j, and JSON.parse of j gives v; a failure at any step gives null |
| UserInfo.FirstTruthy | src/components/Layouts/header/user-info/index.tsx:55-68 | the first non-empty candidate, or the final fallback when there is none |
| UserInfo.NameCandidate | src/components/Layouts/header/user-info/index.tsx:55-61 | a name is found exactly when name, fullName, username, user.name, user.fullName or email is non-empty |
| UserInfo.EmailCandidate | src/components/Layouts/header/user-info/index.tsx:63 | email when it is non-empty, otherwise user.email |
| UserInfo.ImgCandidate | src/components/Layouts/header/user-info/index.tsx:64-68 | avatar wins over picture over profile_picture over user.avatar |
| UserInfo.NamePrecedence | src/components/Layouts/header/user-info/index.tsx:55-61 | name wins over fullName over username over user.name over user.fullName, then the e-mail's part before @, which holds no @ and is absent without an e-mail |
| UserInfo.AbsentClaimsKeepPrevious | src/components/Layouts/header/user-info/index.tsx:55-74 | with a payload, each of name, e-mail and image takes its candidate when there is one and otherwise keeps its previous value |
| UserInfo.StoredUserFallback | src/components/Layouts/header/user-info/index.tsx:78-92 | without a payload, a parsable stored user supplies each field it has; otherwise nothing changes |
| UserInfo.Refresh | src/components/Layouts/header/user-info/index.tsx:49-93 | with no token cookie and no stored user, the profile stays as it was |
| UserInfo.Header.constructor | src/components/Layouts/header/user-info/index.tsx:43-47 | the header first shows John Smith, johnson@nextadmin.com and the user-03 image |
| UserInfo.Header.LoadUser | src/components/Layouts/header/user-info/index.tsx:49-93 | the mount effect sets the shown profile to the refreshed one |
| AssetUrl.BackendUrl | src/lib/utils.ts:11 | the configured URL when non-empty, otherwise http://localhost:8000 |
| AssetUrl.GetAssetUrl | src/lib/utils.ts:8-18 | the placeholder image for a missing or empty path, an http path as given, otherwise the backend URL, a slash and the path |
| AssetUrl.GetAssetUrlIdempotent | src/lib/utils.ts:11-17 | when the backend URL begins with http, resolving an already resolved non-empty path changes nothing |
| AssetUrl.DefaultBackendIsHttp | src/lib/utils.ts:11 | the default backend URL begins with http |

## Left out

- JavaScript `toLowerCase` is modelled on ASCII letters only (`Strings.LowerChar`). Other characters are left as they are.
- ClientTable.AnyKeyMatches: `String(item[key])` is an arbitrary caller-supplied function `fieldText`. The model does not reproduce JavaScript's stringification, such as a missing field becoming "undefined".
- ClientTable.Table: `perPage` is required to be at least 1. The page size selector only offers positive sizes, and a zero or negative size would make `Math.ceil` produce Infinity or NaN.
- ClientTable.Table.ResetOverflow: React's re-render is not modelled. The overflow reset that `useMemo` performs while rendering is a method the caller invokes after a state change.
- Auth: role or permission entries that are `null`, or objects whose `name` is not a string, are not modelled. `getUser()` and its JSON parsing are replaced by the `user` parameter.
- Auth.HasPermission: `permissions?.some` may yield `undefined`, which is modelled as false.
- Proxy.Decide: the unreachable fallback `NextResponse.next()` has no branch of its own. `console.log` and the `config.matcher` route filters of both gates are left out. `request.url`'s search part is dropped on redirect, as `new URL('/login', …)` does.
- UserInfo.ParseJwt: `atob`, `decodeURIComponent` and `JSON.parse` are supplied as partial functions in `Decoders`, so throwing is `None`. No signature is verified, and the source verifies none either.
- UserInfo.PayloadSegment: JavaScript strings are UTF-16 code units. The model treats a `char` as one such unit.
- UserInfo: claims whose value is a truthy non-string, such as a number or an object, are not modelled. `payload.email.split?.` on a non-string is therefore not modelled.
- UserInfo.Refresh: the cookie reads and the `localStorage` read are parameters. The effect runs once, as one call.
- SettingsService: the 500 ms delay and the promise are not modelled. `Date.now()` ids are the `newId` argument.
- SettingsService: the optional `created_at`/`updated_at` fields and `MenuItem.children` are not modelled.
- SettingsService: an optional patch field passed as `null` and one passed as `undefined` are both `Some(None)`, an empty field. The model does not distinguish a stored `null` from a stored `undefined`.
- SettingsService: aliasing is not modelled. The source returns the stored object itself from create and update. The model returns a value.
- MultiSelect: the open/close state, the outside-click listener and the markup are not modelled. Only the selection and the chip labels are modelled.
- AssetUrl: `cn` and `formatDate` in the same file are not part of this model. They are class-name joining and locale date formatting.
