# A verified model of the sevima-hackaton-frontend core

The modelled code is a Next.js/React front end for a classroom app that has teachers and students. This project models its logic in Dafny and proves properties about that model. The logic covered:

- **Login guard** (`LoggedArea.js`). It reads a cookie from `document.cookie` and decides whether a user counts as logged in. It then renders the page or redirects to `/login`.
- **Credentials reducer** (`authentication.js`). This is the reducer for the `credentials` slice of the store.
- **Error-message builder** (`httpClient.js`). This function turns an API error response into the text shown in a toast.
- **`BaseService`** (`Axios.js`). Every API service extends this class. It merges default headers and the bearer token into the request options.
- **Notification provider** (`Notification.js`). It covers:
  - the stored notification record;
  - show, clear and auto-dismiss;
  - `handleError`'s message rewriting.
- **Sidebar** (`Sidebar.js`). It covers:
  - the role-based menu;
  - the active-link test;
  - the persisted expanded flag;
  - the open and expanded toggles.
- **Generic `Table`** (`Table.js`). It covers:
  - the `text` column filter;
  - the empty-input conventions of the filter inputs;
  - the composed column list;
  - the page-jump input;
  - the CSV export projection;
  - the filter and bulk-remove buttons.

Shared modules:

- `Wrappers` holds `Option` and `Result`.
- `Strings` holds the JavaScript string operations the code uses:
  - `indexOf`;
  - `replace` with a string pattern, which replaces only the first occurrence;
  - `split` with a string separator;
  - `join`;
  - `startsWith`;
  - `toLowerCase`.
- `Json` holds the JavaScript values the code inspects:
  - truthiness;
  - `String(v)`;
  - property reads, including `length` and array indices;
  - `Object.keys`.

Each module follows the shape of its source:

- **Pure code becomes functions and lemmas.** This covers the reducer, the cookie lookup and the table helpers.
- **State changed in place becomes classes.** The notification record, the sidebar flags, the service's `endPoint` and the table's toggle each become a class with `modifies` clauses.
- **The error-message loop becomes a method.** `buildErrorMessage` is a method with a loop, proved equal to a specification function.

Some facts follow from the code but are easy to miss. The lemmas make each of them explicit:

- **`getCookie` needs exactly one match.** It returns `null` when the cookie name occurs twice (`GetCookieFromHeader`).
- **An empty token still counts.** A `token=` cookie with an empty value counts as logged in (`EmptyTokenIsPresent`).
- **`BaseService`'s constructor sets the wrong field.** It sets `endpoint`, not `endPoint`. So until a concrete service sets a path, item URLs start with `undefined/` (`Axios.UnsetEndPointUrl`).
- **Error arrays of strings get cut short.** `buildErrorMessage` shows only the first character of each string in an array of strings (`ArrayOfStringsFirstCharacters`).
- **Active-link matching uses substrings.** A link is active anywhere inside the path, not only as a path segment (`Sidebar.SubstringMatchNotSegment`).
- **Page 0 is not a page.** Typing `0` into the page-jump box asks for page index -1 (`Table.PageJumpZero`).

## Model

| member | source | states |
|---|---|---|
| Strings.IndexOf | components/utilities/Notification.js:80 | `indexOf` returns the first position where the pattern occurs; none means it occurs nowhere |
| Strings.ReplaceFirst | components/utilities/Notification.js:83 | `replace` with a string pattern rewrites only the first occurrence; a string without the pattern is unchanged |
| Strings.Split | components/layout/LoggedArea.js:7-8 | `split` with a non-empty separator gives at least one part. `Strings.JoinSplit`, `Strings.SplitPartsFree` and `Strings.SplitSingle` say what the parts are |
| Strings.Join | services/services/initial-services/httpClient.js:79 | `join` of no parts is `""`. Otherwise the result starts with the first part and ends with the last, and the separator follows the first part when more parts follow |
| Strings.JoinSplit | components/layout/LoggedArea.js:7 | splitting on a separator and joining with it gives back the input |
| Strings.SplitPartsFree | components/layout/LoggedArea.js:7-8 | no part of a split contains the separator |
| Strings.SplitSingle | components/layout/LoggedArea.js:7-9 | a split has one part exactly when the separator is absent, and that part is the input |
| Strings.Lower | components/utilities/Table.js:55-56 | lower-casing keeps the length and lower-cases each character |
| LoggedArea.GetCookie | components/layout/LoggedArea.js:5-10 | a found cookie value never contains `;` |
| LoggedArea.UseCookie | components/layout/LoggedArea.js:36-41 | `useCookie` is the same lookup as `getCookie` |
| LoggedArea.GetCookieFound | components/layout/LoggedArea.js:5-10 | for any cookie string, a found value follows the only occurrence of `"; name="` and runs up to the next `;` |
| LoggedArea.GetCookieAbsent | components/layout/LoggedArea.js:7-9 | a name whose separator does not occur gives `null` |
| LoggedArea.GetCookieFromHeader | components/layout/LoggedArea.js:5-10 | for a well-formed cookie header: the value of the pair with that name when exactly one pair has it; `null` when none or several do; a name that only ends with it does not match |
| LoggedArea.IsLoggedIn | components/layout/LoggedArea.js:27-34 | logged in iff a user is stored and the `token` cookie is found |
| LoggedArea.IsLoggedInFromHeader | components/layout/LoggedArea.js:27-34 | with a well-formed header: logged in iff a user is stored and exactly one `token` pair is present |
| LoggedArea.EmptyTokenIsPresent | components/layout/LoggedArea.js:29 | an empty `token=` value still counts as logged in |
| LoggedArea.Guard | components/layout/LoggedArea.js:12-23 | renders the children iff logged in; otherwise redirects to `/login` |
| LoggedArea.LogoutRedirects | components/layout/LoggedArea.js:14-21 | after the reducer handles `LOGOUT`, the guard redirects whatever the cookies are |
| LoggedArea.LoginShowsChildren | components/layout/LoggedArea.js:14-18 | after `LOGIN_SUCCESS` with a response, the guard shows the page iff the token cookie is found |
| Authentication.InitialState | redux/redux-reducers/authentication.js:1-4 | starts logged out with no user |
| Authentication.Auth | redux/redux-reducers/authentication.js:6-30 | a missing state starts from the initial one. `LOGIN_SUCCESS` logs in with the response. `LOGIN_FAIL` and `LOGOUT` log out and clear the user. Other actions return the state unchanged. Other fields are always kept |
| Authentication.LogoutIdempotent | redux/redux-reducers/authentication.js:21-26 | a second `LOGOUT` changes nothing |
| Authentication.FailIsLogout | redux/redux-reducers/authentication.js:15-26 | `LOGIN_FAIL` and `LOGOUT` lead to the same state |
| Authentication.Replay | redux/redux-reducers/authentication.js:6-30 | the store state after a sequence of actions. With no `LOGIN_SUCCESS` it is logged out with no user. After a final `LOGIN_SUCCESS` it is logged in with that action's response |
| Authentication.ReplayInvariant | redux/redux-reducers/authentication.js:6-30 | after any sequence of actions from the initial state, a logged-out state holds no user and no extra fields appear |
| Authentication.ReplayLastDecides | redux/redux-reducers/authentication.js:8-29 | the last login or logout action alone decides the flag and the user |
| Json.IndexKeyRoundTrip | services/services/initial-services/httpClient.js:67-68 | the key `Object.keys` gives for an array index reads back as that index |
| Json.Truthy | services/services/initial-services/httpClient.js:50 | a value is falsy iff it is `undefined`, `null`, `false`, `0` or `""` |
| Json.Get | services/services/initial-services/httpClient.js:54-69 | the `length` of a string or array is its size. Key `"0"` reads the first element or character, or `undefined` when there is none. A key an object lacks reads `undefined`, and so does any key of a number or boolean |
| Json.Keys | services/services/initial-services/httpClient.js:67 | `Object.keys` gives one key per array element or object entry; `Json.GetKeys` says what each key reads |
| Json.ToJsString | services/services/initial-services/Axios.js:47 | `String(v)` of a string is the string. A non-negative number's text reads back as that index. A one-element array is written as its element, and an empty array as `""` |
| Json.GetKeys | services/services/initial-services/httpClient.js:67-68 | reading each key of `Object.keys` visits the array elements or the object values in order |
| Json.JoinStrings | services/services/initial-services/httpClient.js:79 | joining an array of strings is joining the strings |
| HttpClient.GreaterThanZero | services/services/initial-services/httpClient.js:55 | `x > 0` holds only of truthy values, of a number iff it is positive, and never of `undefined` or `null` |
| HttpClient.MessageSource | services/services/initial-services/httpClient.js:49-63 | an empty body gives `""`. Otherwise the message is one of `data.data`, `data.values` and `data.message`; `HttpClient.SourcePrecedence` says which |
| HttpClient.FirstOrSelf | services/services/initial-services/httpClient.js:68-72 | a non-empty array contributes its first element, and a non-empty string its first character. An empty array or string, a number or a boolean contributes itself |
| HttpClient.FlashItem | services/services/initial-services/httpClient.js:68-72 | one loop step throws iff the value is `undefined` or `null`. A non-empty array gives its first element |
| HttpClient.FlashList | services/services/initial-services/httpClient.js:64-73 | if the loop throws, some key's value is `undefined` or `null`. Otherwise it collects one item per key, in key order, each the `FlashItem` of that key's value |
| HttpClient.ErrorMessageOf | services/services/initial-services/httpClient.js:48-84 | only an object-typed message can throw. The empty array is the only object it can return |
| HttpClient.ChooseMessage | services/services/initial-services/httpClient.js:49-63 | picks `data.data`, `data.values` or `data.message` by status and content, as `MessageSource` |
| HttpClient.CollectFlash | services/services/initial-services/httpClient.js:64-73 | the loop over `Object.keys` collects exactly `FlashList`, including the property-read error on an `undefined` or `null` value |
| HttpClient.BuildErrorMessage | services/services/initial-services/httpClient.js:48-84 | computes exactly `ErrorMessageOf`: the chosen message, flattened per key, joined with `<br/>` when the result is a non-empty array |
| HttpClient.FlashListErrPersists | services/services/initial-services/httpClient.js:67-73 | once a key throws, the loop's outcome is that error |
| HttpClient.NoDataNoMessage | services/services/initial-services/httpClient.js:49-50 | without a response body the message is the empty string |
| HttpClient.SourcePrecedence | services/services/initial-services/httpClient.js:51-62 | status 422 reads `data.data`. Any other status reads `data.data` when it is truthy with a positive length; otherwise truthy `data.values`; otherwise `data.message` |
| HttpClient.PlainMessageUnchanged | services/services/initial-services/httpClient.js:74-82 | a message that is not an object is returned unchanged |
| HttpClient.NullMessageThrows | services/services/initial-services/httpClient.js:66-67 | a `null` message passes the `typeof` test, so `Object.keys(null)` throws |
| HttpClient.FlashListInOrder | services/services/initial-services/httpClient.js:67-73 | over values that are all defined, the loop succeeds and collects one item per key, in key order |
| HttpClient.EmptyObjectGivesEmptyArray | services/services/initial-services/httpClient.js:66-82 | an empty object or array message yields an empty array, not a string |
| HttpClient.JoinedContributions | services/services/initial-services/httpClient.js:66-79 | when every key contributes a string, the message is those strings joined with `<br/>` |
| HttpClient.ValidationMessages | services/services/initial-services/httpClient.js:51-79 | a 422 response whose fields each carry a non-empty list of messages shows each field's first message, in field order, joined with `<br/>` |
| HttpClient.ArrayOfStringsFirstCharacters | services/services/initial-services/httpClient.js:68-69 | an array of non-empty strings contributes only the first character of each |
| Notification.DefaultState | components/utilities/Notification.js:7-13 | hidden, a 3000 ms timeout, type `success`, an empty message, no children |
| Notification.NotificationType | components/utilities/Notification.js:58 | a non-empty `level`; otherwise a non-empty `type`; otherwise `success`; never empty |
| Notification.ShowDelay | components/utilities/Notification.js:46-49 | the delay before storing the record is always positive. It is 150 ms exactly when a notification is on screen |
| Notification.Shown | components/utilities/Notification.js:55-66 | the stored record is shown, with the given message and children. Its timeout is the old one or a positive one. `ShownKeepsPositiveTimeout` states the type and the exact timeout |
| Notification.ShownKeepsPositiveTimeout | components/utilities/Notification.js:55-66 | the shown record carries the new message, children and `NotificationType` type and is shown. Its timeout is replaced only by a positive one, so it stays positive |
| Notification.AutoDismissDelay | components/utilities/Notification.js:31 | `dismissTimeout || 3000`: a non-zero timeout is used as it is, and 0 becomes 3000, so the delay is never 0 |
| Notification.NormalizeMessage | components/utilities/Notification.js:79-87 | a missing or empty message becomes the unknown-error text. One mentioning `Network error` becomes the network-error text. Otherwise the first `GraphQL error: ` is removed |
| Notification.GraphQLPrefixRemovedOnce | components/utilities/Notification.js:83 | a leading `GraphQL error: ` is stripped, leaving the rest |
| Notification.PlainMessageKept | components/utilities/Notification.js:82-83 | a message with neither marker is kept as it is |
| Notification.ErrorType | components/utilities/Notification.js:92 | the error's own non-empty type; a missing or empty one gives `danger` |
| Notification.NotificationCenter.constructor | components/utilities/Notification.js:20-22 | starts from the default record |
| Notification.NotificationCenter.ShowNotification | components/utilities/Notification.js:39-68 | waits 150 ms when a notification is on screen, else 1 ms. Then it stores the previous record with the new type, children and message, shown, and the timeout replaced only by a positive one |
| Notification.NotificationCenter.AutoDismiss | components/utilities/Notification.js:24-37 | a shown notification is hidden after `AutoDismissDelay`; with none shown, no timer is set |
| Notification.NotificationCenter.ClearNotifications | components/utilities/Notification.js:70-76 | hides the notification and keeps the rest of the record |
| Notification.NotificationCenter.HandleError | components/utilities/Notification.js:78-94 | rewrites the error's message as `NormalizeMessage` and shows it with the error's type or `danger` |
| Notification.HandledErrorType | components/utilities/Notification.js:89-93 | an error is shown as `danger` unless it names its own type |
| Sidebar.LinkActive | components/layout/Sidebar.js:8-11 | a link is active iff it occurs at some position of the path. This is `indexOf(link) >= 0`, by `Strings.ContainsIff` |
| Sidebar.LinkActiveOnExtension | components/layout/Sidebar.js:8-11 | a link is active on its own path and every path extending it |
| Sidebar.SubstringMatchNotSegment | components/layout/Sidebar.js:9 | `/teacher` is active under `/teacher-detail`: the match is by substring |
| Sidebar.ListMenu | components/layout/Sidebar.js:24-53 | four entries, none with an empty role |
| Sidebar.MatchingRole | components/layout/Sidebar.js:168 | finds a role iff the user has one and the item lists it; the role found is the user's |
| Sidebar.RenderItem | components/layout/Sidebar.js:167-171 | an item renders iff the user's role is non-empty and listed on the item. The entry is that item, active iff its link occurs in the path |
| Sidebar.MenuRenderer | components/layout/Sidebar.js:164-198 | one slot per item, in order. A slot is filled iff the user's non-empty role is among the item's roles. The entry is that item, marked active iff its link occurs in the path |
| Sidebar.MenuByRole | components/layout/Sidebar.js:24-53 | only a Teacher sees `Data Kelas`; Teachers and Students see the other three |
| Sidebar.OtherRoleSeesNothing | components/layout/Sidebar.js:166-170 | any other role, or no role, renders no entry |
| Sidebar.ParseExpanded | components/layout/Sidebar.js:17-20 | no stored value means expanded. Otherwise the sidebar is expanded iff the stored text is `true` |
| Sidebar.Persist | components/layout/Sidebar.js:65 | `setItem` stores the text `"true"` exactly when the sidebar is expanded, and `"false"` otherwise |
| Sidebar.PersistRoundTrip | components/layout/Sidebar.js:65 | the stored flag reads back as the same flag |
| Sidebar.SidebarState.constructor | components/layout/Sidebar.js:17-20 | starts from the stored flag, and the slot then holds the flag |
| Sidebar.SidebarState.KeyDown | components/layout/Sidebar.js:56-59 | Escape closes an open sidebar; any other key changes nothing. The stored slot still matches the expanded flag |
| Sidebar.SidebarState.ToggleOpen | components/layout/Sidebar.js:96 | flips the open flag only. The stored slot still matches the expanded flag |
| Sidebar.SidebarState.ToggleExpanded | components/layout/Sidebar.js:143 | flips the expanded flag, and the stored slot follows it |
| Sidebar.ReloadRestoresExpanded | components/layout/Sidebar.js:17-20 | after any toggles, reading the slot again restores the expanded flag |
| Axios.SetEntry | services/services/initial-services/Axios.js:27 | writing a key gives it the new value and leaves every other key as it was |
| Axios.SetEntryKeys | services/services/initial-services/Axios.js:27 | the keys after writing a key are the old keys plus that key |
| Axios.SetEntryDistinct | services/services/initial-services/Axios.js:27 | writing a key never repeats a key |
| Axios.Assign | services/services/initial-services/Axios.js:27 | `Object.assign` onto a target with distinct keys keeps the keys distinct. `Axios.AssignLookup` gives every key's value |
| Axios.AssignLookup | services/services/initial-services/Axios.js:27 | after `Object.assign`, a key of the source reads as the source has it, and any other key as the target has it |
| Axios.Authorization | services/services/initial-services/Axios.js:13-24 | `Bearer` plus the token's text when the token is truthy, else `Bearer null` |
| Axios.DefaultHeaders | services/services/initial-services/Axios.js:19-25 | four headers with distinct names: `no-cache`, JSON content type, JSON accept, and the token's bearer value |
| Axios.IncludeDefault | services/services/initial-services/Axios.js:12-28 | the merged options never repeat a key |
| Axios.IncludeDefaultLookup | services/services/initial-services/Axios.js:12-28 | every option passes through unchanged. `headers` is the caller's when given, else the four defaults with the token's bearer value |
| Axios.NoOptionsNoToken | services/services/initial-services/Axios.js:30-31 | with no options, only the default headers are sent, with `Bearer null` |
| Axios.ItemUrl | services/services/initial-services/Axios.js:45-52 | an item URL is the endpoint's text, then `/`, then the id's text, with nothing else |
| Axios.BaseService.constructor | services/services/initial-services/Axios.js:4-7 | sets `endpoint` to empty; `endPoint` stays undefined |
| Axios.BaseService.SetEndPoint | services/UserService.js:5 | a concrete service sets the request path |
| Axios.BaseService.Get | services/services/initial-services/Axios.js:30-34 | a GET to `endPoint` with the merged options |
| Axios.BaseService.Post | services/services/initial-services/Axios.js:36-39 | a POST of the data to `endPoint` with the merged options |
| Axios.BaseService.Put | services/services/initial-services/Axios.js:40-44 | a PUT of the data to `endPoint` with the merged options |
| Axios.BaseService.PutOne | services/services/initial-services/Axios.js:45-48 | a PUT to `endPoint/id` |
| Axios.BaseService.Delete | services/services/initial-services/Axios.js:49-52 | a DELETE to `endPoint/id` |
| Axios.UnsetEndPointUrl | services/services/initial-services/Axios.js:4-7 | before a path is set, item URLs start with `undefined/` |
| Axios.SetEndPointUrl | services/services/initial-services/Axios.js:47 | once a path is set, an item URL is the path, `/` and the id's text |
| Table.Keeps | components/utilities/Table.js:52-57 | a row with no value in the column is kept. Otherwise it is kept iff the lower-cased filter text is a prefix of the lower-cased cell text, so a case-insensitive exact match is always kept |
| Table.TextFilter | components/utilities/Table.js:50-58 | keeps exactly the rows with no value in the column, or whose lower-cased value starts with the lower-cased filter text |
| Table.TextFilterCounts | components/utilities/Table.js:51-58 | each kept row appears exactly as often as in the input; a dropped row does not appear |
| Table.TextFilterSubseq | components/utilities/Table.js:51 | the filter only drops rows and keeps their order |
| Table.TextFilterAll | components/utilities/Table.js:51-58 | no row is dropped iff every row passes |
| Table.TextFilterIdempotent | components/utilities/Table.js:50-58 | filtering again by the same value changes nothing |
| Table.EmptyFilterKeepsAll | components/utilities/Table.js:53-57 | an empty filter text keeps every row |
| Table.TextFilterNarrows | components/utilities/Table.js:53-57 | when the new text extends the old, filtering the old result equals filtering all rows |
| Table.TextFiltersCommute | components/utilities/Table.js:50-58 | filters on two columns commute |
| Table.AutoRemove | components/utilities/Table.js:746 | a string filter value is removed iff it is empty. `undefined` and `null` are removed. A removed value displays as `""` |
| Table.Displayed | components/utilities/Table.js:755 | a truthy filter value displays as itself and anything else as `""`. The displayed value is truthy iff the filter value is |
| Table.FilterInput | components/utilities/Table.js:757 | empty text becomes undefined, and only empty text does; other text is stored as it is |
| Table.FilterInputRoundTrip | components/utilities/Table.js:746 | clearing an input removes the filter, and nothing else does. The input then displays exactly what was typed |
| Table.ComposeColumns | components/utilities/Table.js:116-165 | the selection column, then the caller's columns in order. An options column is added last iff some row-action prop is given |
| Table.ComposeKeepsColumns | components/utilities/Table.js:117-132 | the caller's columns all come through, each once, in order |
| Table.RemoveAloneNoOptions | components/utilities/Table.js:133-141 | `onRemove` alone adds no options column |
| Table.PageJump | components/utilities/Table.js:466 | an empty input goes to index 0; a number `n` goes to `n - 1` |
| Table.PageJumpRoundTrip | components/utilities/Table.js:464-466 | submitting the displayed `pageIndex + 1` goes back to `pageIndex` |
| Table.PageJumpZero | components/utilities/Table.js:466 | `0` asks for index -1, while empty and `1` both ask for index 0 |
| Table.GetPath | components/utilities/Table.js:774 | an empty path gives the value itself. A step from `null` or `undefined` gives `undefined` rather than throwing. A one-key path reads that property |
| Table.GetPathConcat | components/utilities/Table.js:774 | reading along `p + q` is reading `q` from what `p` reaches |
| Table.LodashGet | components/utilities/Table.js:774 | reading from `null` or `undefined` gives `undefined`, whatever the accessor |
| Table.PlainAccessor | components/utilities/Table.js:774 | an accessor without a dot reads one property, and nothing from `null` or `undefined` |
| Table.LodashGetDotted | components/utilities/Table.js:774 | the accessor `a.b` reads `b` from what `a` reads |
| Table.CsvCell | components/utilities/Table.js:774-783 | with no formatter and a dotless accessor, the cell is the row object's own property, or `undefined` when there is no row object. With a formatter, the cell is the formatter applied to the looked-up value and the row |
| Table.CsvRow | components/utilities/Table.js:773-784 | one cell per column, each as `CsvCell` |
| Table.CsvData | components/utilities/Table.js:770-786 | the header line, then one line per row. Every line has one cell per column. A cell is the formatter's result when the column has one, else the looked-up value |
| Table.CsvDataAppend | components/utilities/Table.js:770-786 | exporting two batches gives both batches' lines after one header |
| Table.CsvFilename | components/utilities/Table.js:793 | the configured filename when truthy; a falsy one gives `data.csv` |
| Table.CsvSeparator | components/utilities/Table.js:796 | the configured separator when truthy; a falsy one gives `,` |
| Table.CsvDefaults | components/utilities/Table.js:793-796 | an empty configuration gives `data.csv` and `,` |
| Table.Originals | components/utilities/Table.js:208 | the original objects of the selected rows, in order |
| Table.TableView.ToggleFilter | components/utilities/Table.js:190-193 | flips the filter-row toggle only, and no removal payload becomes empty |
| Table.TableView.ClickRemove | components/utilities/Table.js:199-211 | with no rows selected the button is disabled and nothing happens. Otherwise `onRemove` receives the selected originals, so no payload is ever empty |

## Left out

- **Rendering.** JSX rendering, styling, animation and `document.body` class toggling are not modelled. `router.replace`, toasts, `console.warn` and `localStorage.clear` are left out too. These are effects on the page, not logic.
- **Network I/O.** The axios instance, its interceptors, the 3-minute timeout and the throttling adapter are not modelled. `BaseService` methods return the request they would send instead of sending it.
- **`document.cookie`, `localStorage` and the router pathname.** They become parameters or fields.
- **Timers.** `setTimeout` delays are returned as values rather than waited for.
- **`ShowNotification`: the flicker is not modelled.** When a notification is on screen, the source first sets an intermediate hidden record. That record is immediately superseded, so the model stores only the final record. The final record is built from the record at call time, as the source's closure does.
- **`HandleError`: only string messages are handled.** The message is taken to be a string or missing. A non-string `message` is not modelled.
- **react-table and match-sorter.** These cover sorting, pagination, row selection, fuzzy ranking, the fetch and selection-change effects, and the `IndeterminateCheckbox` components. They live inside those libraries, which are not part of this model.
- **`CSVLink`.** The writing of the CSV file by `CSVLink` is not part of this model; the model stops at the data, filename and separator handed to it.
- **`LodashGet`: only dot-separated paths.** Bracket paths are not modelled; every accessor in the repository is a plain key.
- **`PageJump`: whole numbers only.** The number input is read as empty or a whole number; fractional input is not modelled.
- **`Strings.Lower`: only ASCII letters are lower-cased.** `toLowerCase` beyond ASCII, that is Unicode case mapping, is not modelled.
- **Json numbers.** Numbers are integers.
- **Json objects.** An object is its own entries in key order. Prototype properties and the `length` of plain objects are not modelled.
- **`HttpClient.GreaterThanZero`: only numbers and booleans are compared.** A value of any other type counts as not greater than zero, although JavaScript would convert a numeric string. The value compared is a `length`, which the model reads as a number or `undefined`, except for an object that has its own `length` entry.
- **`Axios.IncludeDefault`: options are objects or omitted.** A `null` options argument, which would throw, is not modelled.
- **Login state.** `isLoggedIn` sees the stored `userLogin` only as present or absent. Any stored value counts as a user.
- **`Sidebar.MenuRenderer`: a missing stored user is not modelled.** With no stored user, reading `loggedUser.role` would throw. The model takes the role as given, with `None` for a missing role. The sidebar is only shown inside the logged-in area.
