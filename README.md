# Inventory dashboard: verified model of its business rules

The inventory and finance dashboard is a browser application. Almost all of
it fetches a list from the backend, renders a table and posts a form. A few
pieces of logic in it have behaviour that can be stated precisely, and this
project models those pieces in Dafny and proves their properties:

- **Creditors** (`creditors.dfy`, module `Creditors`):
  - The loader normalises every creditor sent by the backend. Amounts are coerced with `Number(x) || 0`, settlements are summed, the remaining balance is chosen by the `||` fallback rule, and the status is derived.
  - The helpers `getTotalPaid` and `getRemainingBalance`.
  - The guard and PATCH payload of "record payment", and the guard and POST body of "add creditor".
  - The status badge.
- **Threshold settings** (`thresholds.dfy`, module `Thresholds`):
  - The edit/save/cancel editor, a class `ThresholdEditor` with the rows, the id being edited and the form as fields.
  - The stock status rule applied on save: critical, then low, then normal.
  - `parseInt` and `toString` on stock figures: whole numbers (in exponent notation from 10^21 on), NaN, and a null or missing limit, on which `toString` throws.
  - The two counts shown above the table.
- **Procurement** (`procurement.dfy`, module `Procurement`):
  - Approve and reject as a class `ProcurementBoard` whose request list the methods replace.
  - The table's "pending only" guard on the row buttons.
  - The loader's normalisation of requests and items.
  - The total value shown for a request.
  - The guard and body of "add request".
- **Session cookie** (`session.dfy`, module `Session`):
  - `getCookie`, `getSessionEmail` and `isAuthenticated` on the browser's cookie header, which joins its name=value pairs with "; " (section 5.4 of RFC 6265).
  - The strings written by `setCookie` and `clearSession`.
  - `validateWithServer`'s "null on any failure" contract.
- **Route guard** (`route_guard.dfy`, module `RouteGuard`):
  - The `loading`/`authed`/`mounted` state machine of the guard, as a pure `Step` function with a class `ProtectedRoute` whose methods follow it.
  - The render decision.
- **JavaScript values** (`js_values.dfy`, module `JsValues`):
  - JSON field values as the backend sends them.
  - `Number(v)`, `|| 0`, NaN-contagious subtraction, and the `s || default` idiom on strings.

Amounts are exact reals and stock figures are unbounded integers. NaN is
modelled wherever the source can produce it.

Calls the model cannot see are parameters:
- `parseFloat` and `Number` on form text are functions `string -> JsNumber`.
- `decodeURIComponent` is `string -> Option<string>`, where None stands for a thrown `URIError`.
- `encodeURIComponent` is `string -> string`.
- "Today" is a string.
- What the server answered is a value.

Behaviour of the code worth knowing, which the model keeps:

- A creditor with amount 0 and no settlements comes out 'Fully Paid' although nothing was paid, because the rule at `CreditorsModule.tsx:72` looks only at the remaining balance (`ZeroCreditorIsFullyPaid`).
- A server `remainingBalance` that coerces to a non-zero number is kept, even when it is negative or disagrees with the settlements. The balance is therefore bounded below by 0 only when the server sent no balance (`NormalizeCreditor`, `RemainingIsClampedDifference`).
- `handleApprove`/`handleReject` do not check the prior status, so rejecting an approved request overwrites the decision (`RejectOverwritesApproval`). Decisions are one-way only because the table offers the buttons on pending rows alone (`Click`, `ClickIsOneWay`).
- A limit of 10^21 or more is written by `toString` in exponent notation, and `parseInt` reads back only its first digit, so editing and saving such a row turns `1e+21` into 1 (`LargeLimitSavesAsOne`).
- Saving an empty field stores NaN, which the persistence effect posts as `null`. A row reloaded that way makes the next edit throw at `toString` (`EmptyFieldBreaksNextEdit`).
- `validateWithServer` never throws, so the route guard's catch block runs only when `isAuthenticated()` throws, which happens on a cookie value that does not decode. The catch block then throws again. `authed` stays false and `finally` ends loading (`Resumed`).

## Model

| member | source | states |
|---|---|---|
| JsValues.ToNumber | src/components/modules/CreditorsModule.tsx:59 | `Number(v)` is NaN exactly for non-numeric text and a missing field; null reads as 0 and numeric values keep their value |
| JsValues.Coerce | src/components/modules/CreditorsModule.tsx:62 | `Number(v) \|\| 0` keeps the value of a numeric field and gives 0 for non-numeric text, null and a missing field |
| JsValues.Minus | src/components/modules/CreditorsModule.tsx:97 | a JavaScript subtraction is a number exactly when both operands are, and then adds back to the minuend |
| JsValues.TextOr | src/components/modules/ProcurementModule.tsx:80-81 | `s \|\| d` keeps a present non-empty string and otherwise gives the default |
| JsValues.NonEmpty | src/components/modules/CreditorsModule.tsx:99-100 | `s \|\| undefined` drops exactly the empty string and otherwise keeps the text |
| Creditors.NormalizeSettlement | src/components/modules/CreditorsModule.tsx:57-60 | a settlement's amount becomes `Number(amount) \|\| 0`; every other field is copied |
| Creditors.NormalizeHistory | src/components/modules/CreditorsModule.tsx:57-60 | the settlement list keeps its length and order, each entry normalised |
| Creditors.DeriveStatus | src/components/modules/CreditorsModule.tsx:72 | 'Fully Paid' iff the balance is 0; 'Partially Paid' iff it is not and something was paid; 'Unpaid' iff neither |
| Creditors.NormalizeCreditor | src/components/modules/CreditorsModule.tsx:56-74 | id, name and date kept; amount coerced; a non-zero server balance kept as coerced by `Number`, otherwise replaced by the non-negative `max(0, original - totalPaid)`; status derived from the final balance and total |
| Creditors.NormalizeCreditors | src/components/modules/CreditorsModule.tsx:56 | missing data gives the empty list; otherwise the list is mapped one-to-one in order |
| Creditors.TotalPaid | src/components/modules/CreditorsModule.tsx:63 | the sum starts from 0 for an empty history and is non-negative when every settlement is |
| Creditors.NormalizeIdempotent | src/components/modules/CreditorsModule.tsx:56-74 | normalising an already normalised creditor returns it unchanged |
| Creditors.StatusMeaning | src/components/modules/CreditorsModule.tsx:63-72 | without a server balance and with non-negative payments: 'Fully Paid' iff the payments cover the amount, 'Partially Paid' iff they cover part of it, 'Unpaid' iff nothing was paid and something is owed |
| Creditors.RemainingIsClampedDifference | src/components/modules/CreditorsModule.tsx:62-64 | without a server balance and for non-negative amounts the balance is `max(0, original - totalPaid)` and lies between 0 and the original amount |
| Creditors.ZeroCreditorIsFullyPaid | src/components/modules/CreditorsModule.tsx:64-72 | amount 0, no balance, no settlements: balance 0 and status 'Fully Paid' |
| Creditors.ScenarioPartiallyPaid | src/components/modules/CreditorsModule.tsx:56-74 | 10000 owed, 3000 and 2000 paid, no server balance: 5000 remaining, 'Partially Paid' |
| Creditors.ScenarioFullyPaid | src/components/modules/CreditorsModule.tsx:56-74 | an amount sent as numeric text, a null server balance and full settlement: balance 0, 'Fully Paid' |
| Creditors.GetTotalPaid | src/components/modules/CreditorsModule.tsx:81-84 | a creditor with no settlements has paid 0; with non-negative settlements the total paid is non-negative |
| Creditors.GetRemainingBalance | src/components/modules/CreditorsModule.tsx:81-88 | the remaining balance plus the total paid is the original amount, with no clamping |
| Creditors.RemainingBalanceCanBeNegative | src/components/modules/CreditorsModule.tsx:86-88 | overpaying makes `getRemainingBalance` negative |
| Creditors.RemainingBalanceAgrees | src/components/modules/CreditorsModule.tsx:81-88 | without a server balance and without overpayment, `getRemainingBalance` agrees with the loader's balance |
| Creditors.RecordPayment | src/components/modules/CreditorsModule.tsx:91-101 | nothing is sent iff no creditor is selected or the amount or method is empty; otherwise the payload carries the original amount, the method, the optional reference and notes, and a balance that is the selected balance less the amount (NaN when the amount does not parse) |
| Creditors.PayingInFullClearsBalance | src/components/modules/CreditorsModule.tsx:93-97 | paying exactly the outstanding balance sends a remaining balance of 0 |
| Creditors.AddCreditor | src/components/modules/CreditorsModule.tsx:142-155 | nothing is sent iff the name or amount is empty; otherwise the body holds the name, the parsed amount and today's date |
| Creditors.NewCreditorLoadsBack | src/components/modules/CreditorsModule.tsx:142-155 | a new creditor with a positive amount loads back 'Unpaid' owing that amount; one whose amount did not parse loads back 'Fully Paid' |
| Creditors.StatusBadge | src/components/modules/CreditorsModule.tsx:183-192 | green iff 'Fully Paid', yellow iff 'Partially Paid', red for anything else |
| Creditors.BadgeShowsStatus | src/components/modules/CreditorsModule.tsx:183-192 | the badge of every normalised creditor shows its status |
| Thresholds.IntToString | src/components/inventory/ThresholdSettings.tsx:50-52 | the text starts with '-' exactly for negative numbers and contains an 'e' exactly from 10^21 in magnitude on |
| Thresholds.Text | src/components/inventory/ThresholdSettings.tsx:50-52 | `toString` throws exactly on a null or missing limit; only a whole number from 10^21 on is written with an exponent |
| Thresholds.ParseInt | src/components/inventory/ThresholdSettings.tsx:64-66 | `parseInt` is NaN exactly when no digits follow the white space and sign |
| Thresholds.TextRoundTrip | src/components/inventory/ThresholdSettings.tsx:50-66 | `toString` throws exactly on a null or missing limit; otherwise `parseInt(x.toString())` is `ReadBack(x)`: NaN stays NaN, a whole number below 10^21 comes back unchanged, a larger one as its signed first digit |
| Thresholds.WholeRoundTrip | src/components/inventory/ThresholdSettings.tsx:50-66 | `parseInt` of the text of a whole number below 10^21 in magnitude is that number, negative ones included; from 10^21 on it is the number's first digit with its sign |
| Thresholds.ExponentialParse | src/components/inventory/ThresholdSettings.tsx:64-66 | on exponent notation `parseInt` stops after the first digit and reads that digit |
| Thresholds.ReadBackKeeps | src/components/inventory/ThresholdSettings.tsx:50-66 | a limit survives `toString` and `parseInt` iff it is NaN or a whole number below 10^21 in magnitude |
| Thresholds.LargeLimitSavesAsOne | src/components/inventory/ThresholdSettings.tsx:50-66 | 10^21 is written `1e+21` and reads back as 1 |
| Thresholds.NaNRoundTrip | src/components/inventory/ThresholdSettings.tsx:64-66 | the text "NaN" parses back to NaN |
| Thresholds.SignedParse | src/components/inventory/ThresholdSettings.tsx:64-66 | a leading '-' negates the digits that follow it; without a sign the digits are the number |
| Thresholds.PositiveParse | src/components/inventory/ThresholdSettings.tsx:64-66 | the decimal digits of n parse to n |
| Thresholds.NegativeParse | src/components/inventory/ThresholdSettings.tsx:64-66 | "-" followed by the digits of n parses to -n |
| Thresholds.EmptyFieldIsNaN | src/components/inventory/ThresholdSettings.tsx:64-66 | an empty form field saves as NaN |
| Thresholds.DecimalIsTruncated | src/components/inventory/ThresholdSettings.tsx:64-66 | "12.7" saves as 12 |
| Thresholds.DeriveStatus | src/components/inventory/ThresholdSettings.tsx:70-77 | critical iff stock is at most the minimum; low iff not critical and at most the reorder level; normal otherwise; a NaN limit never matches and a null one compares as 0 |
| Thresholds.StatusMonotone | src/components/inventory/ThresholdSettings.tsx:70-77 | less stock never gives a less severe status |
| Thresholds.CriticalWins | src/components/inventory/ThresholdSettings.tsx:71-74 | when both limits are reached the status is critical |
| Thresholds.ScenarioCritical | src/components/inventory/ThresholdSettings.tsx:70-77 | stock 2, minimum 5, reorder level 10: critical |
| Thresholds.FormOf | src/components/inventory/ThresholdSettings.tsx:49-54 | filling the form throws iff one of the three limits is null or missing; otherwise the alert flag is copied and each text field parses back to `ReadBack` of its limit |
| Thresholds.ApplyForm | src/components/inventory/ThresholdSettings.tsx:62-77 | the edited row keeps its id, name and stock, takes the three parsed limits and the alert flag from the form, and gets the status derived from them |
| Thresholds.SaveRows | src/components/inventory/ThresholdSettings.tsx:60-82 | the list keeps its length and order; exactly the rows with the edited id are rewritten from the form, every other row is identical |
| Thresholds.UnchangedEditKeepsRow | src/components/inventory/ThresholdSettings.tsx:47-82 | saving the form that editing filled in replaces each limit by its `ReadBack`, keeps the alert flag and recomputes the status; a row written in full keeps its four values and only the status is recomputed |
| Thresholds.Posted | src/components/inventory/ThresholdSettings.tsx:101 | `JSON.stringify` posts a whole number unchanged and NaN or a missing limit as `null` |
| Thresholds.EmptyFieldBreaksNextEdit | src/components/inventory/ThresholdSettings.tsx:50-101 | a row saved with an empty field and reloaded from what was posted makes the next edit throw |
| Thresholds.CountStatus | src/components/inventory/ThresholdSettings.tsx:123-124 | a filter-count never exceeds the number of rows |
| Thresholds.CountIsMultiplicity | src/components/inventory/ThresholdSettings.tsx:123-124 | a filter-count is the number of rows whose status equals the wanted one, its multiplicity among the statuses |
| Thresholds.CountsWithinTotal | src/components/inventory/ThresholdSettings.tsx:123-124 | critical plus low-stock items are at most the total |
| Thresholds.ThresholdEditor.constructor | src/components/inventory/ThresholdSettings.tsx:24-33 | no rows, nothing being edited, the empty form |
| Thresholds.ThresholdEditor.Load | src/components/inventory/ThresholdSettings.tsx:41 | the rows become the loaded list; editing state unchanged |
| Thresholds.ThresholdEditor.Edit | src/components/inventory/ThresholdSettings.tsx:47-55 | throws iff one of the row's limits is null or missing; the row's id is being edited either way; without a throw the form holds the row's values as text, with one it keeps its old value; rows unchanged |
| Thresholds.ThresholdEditor.SetForm | src/components/inventory/ThresholdSettings.tsx:193-228 | only the form changes |
| Thresholds.ThresholdEditor.Save | src/components/inventory/ThresholdSettings.tsx:57-86 | with nothing (or an empty id) being edited nothing changes; otherwise the rows become `SaveRows` of the old rows and editing ends |
| Thresholds.ThresholdEditor.CriticalItems | src/components/inventory/ThresholdSettings.tsx:123 | the number of rows whose status is 'critical', which together with the low-stock rows is at most the total |
| Thresholds.ThresholdEditor.LowStockItems | src/components/inventory/ThresholdSettings.tsx:124 | the number of rows whose status is 'low', which together with the critical rows is at most the total |
| Thresholds.ThresholdEditor.Cancel | src/components/inventory/ThresholdSettings.tsx:107-110 | editing ends and the form is reset to empty strings and false; rows unchanged |
| Thresholds.EditThenSave | src/components/inventory/ThresholdSettings.tsx:47-86 | the edit throws iff the row has a null or missing limit; without a throw, saving rewrites every row with that id with the edited row's `ReadBack` limits, alert flag and derived status and leaves the other rows as they were; with one, the save uses the form left from before; editing ends either way |
| Procurement.Decide | src/components/modules/ProcurementModule.tsx:45-59 | the list keeps length and order; each request with the id gets the status, approver 'Super Admin' and today's date; the others are unchanged |
| Procurement.DecideKeepsContent | src/components/modules/ProcurementModule.tsx:46-58 | a decision keeps every request's id, department, items, date and notes |
| Procurement.DecideUnknownId | src/components/modules/ProcurementModule.tsx:46-50 | an id no request carries leaves the list unchanged |
| Procurement.Offered | src/components/modules/ProcurementModule.tsx:275-287 | a row offers actions iff it is pending |
| Procurement.Click | src/components/modules/ProcurementModule.tsx:275-287 | a click on an offered button decides the pending row, which then offers nothing; rows with another id are untouched |
| Procurement.ClickIsOneWay | src/components/modules/ProcurementModule.tsx:275-287 | with unique ids a button click decides the pending request, which then offers no action, and changes no other request |
| Procurement.RejectOverwritesApproval | src/components/modules/ProcurementModule.tsx:53-59 | the reject handler on an approved request sets it to rejected |
| Procurement.DuplicateIdRedecides | src/components/modules/ProcurementModule.tsx:46-48 | with a duplicated id, approving one row re-decides a rejected row with the same id |
| Procurement.ProcurementBoard.constructor | src/components/modules/ProcurementModule.tsx:32 | the board starts with no requests |
| Procurement.ProcurementBoard.Load | src/components/modules/ProcurementModule.tsx:68-85 | the list becomes the normalised data |
| Procurement.ProcurementBoard.Approve | src/components/modules/ProcurementModule.tsx:45-51 | the list becomes the old list with the id approved |
| Procurement.ProcurementBoard.Reject | src/components/modules/ProcurementModule.tsx:53-59 | the list becomes the old list with the id rejected |
| Procurement.OptionalNumber | src/components/modules/ProcurementModule.tsx:72-74 | null and missing stay absent; anything else becomes `Number(v)` |
| Procurement.NormalizeItem | src/components/modules/ProcurementModule.tsx:69-75 | quantities and estimate coerced with missing as 0; approved quantity and adjusted cost stay absent when null |
| Procurement.NormalizeRequest | src/components/modules/ProcurementModule.tsx:68-83 | items mapped one-to-one in order; status defaults to 'Pending' and the date to today; other fields kept |
| Procurement.NormalizeRequests | src/components/modules/ProcurementModule.tsx:68 | missing data gives the empty list; otherwise the list is mapped one-to-one |
| Procurement.EffectiveCost | src/components/modules/ProcurementModule.tsx:212 | a truthy adjusted cost is used, otherwise (absent, 0 or NaN) the estimate |
| Procurement.TotalValue | src/components/modules/ProcurementModule.tsx:212 | the total of no items is 0, and it is non-negative when every effective cost is |
| Procurement.TotalValueAppend | src/components/modules/ProcurementModule.tsx:212 | the total of a concatenation is the sum of the totals |
| Procurement.TotalValueNonNegative | src/components/modules/ProcurementModule.tsx:212 | non-negative costs give a non-negative total |
| Procurement.UnadjustedTotalIsEstimate | src/components/modules/ProcurementModule.tsx:212 | with no adjusted costs the total is the sum of the estimates |
| Procurement.ZeroAdjustmentFallsBack | src/components/modules/ProcurementModule.tsx:212 | an adjusted cost of 0 falls back to the estimate |
| Procurement.AddRequest | src/components/modules/ProcurementModule.tsx:93-106 | nothing is sent iff department, item, quantity or cost is empty; otherwise the body holds exactly one item built from the form and today's date |
| Procurement.NewRequestLoadsBack | src/components/modules/ProcurementModule.tsx:68-106 | a new request loads back pending with its date, one unadjusted item valued at the estimate, and the three row actions offered |
| Session.EscapeRegex | src/lib/session.ts:12 | escaping never shortens the name |
| Session.EscapedNameIsLiteral | src/lib/session.ts:12 | the escaped name is a pattern that matches exactly the name |
| Session.FindName | src/lib/session.ts:13 | the regular expression's search finds the leftmost position, at the beginning or right after "; ", where `name=` is written, and finds nothing only when there is no such position |
| Session.UpToSemicolonIsPrefix | src/lib/session.ts:13 | `[^;]*` takes the longest prefix without ';' and stops at a ';' or the end |
| Session.GetCookie | src/lib/session.ts:11-16 | getCookie is null iff `name=` starts no pair, at the beginning or after "; " |
| Session.GetCookieFound | src/lib/session.ts:11-16 | when `name=` first starts a pair at some position, getCookie is the text after it up to the next ';', decoded, or a throw when decoding fails |
| Session.GetSessionEmail | src/lib/session.ts:22-24 | the session email is null iff `session_email=` starts no pair |
| Session.IsAuthenticated | src/lib/session.ts:22-34 | true iff the session cookie holds a non-empty value; throws iff its value does not decode |
| Session.HeaderMatches | src/lib/session.ts:13-14 | in a header of well-formed pairs `name=` stands first at the start of the first pair called `name`, and nowhere when none is |
| Session.HeaderLookup | src/lib/session.ts:11-16 | getCookie on a header of well-formed pairs agrees with reading the list of pairs directly: the first pair with that name, decoded, and null when there is none |
| Session.LongerNameDoesNotMatch | src/lib/session.ts:13 | a cookie `xsession_email` is not the session cookie |
| Session.LeftmostWins | src/lib/session.ts:13-15 | with two session pairs the first is read |
| Session.CookiePair | src/lib/session.ts:7 | the pair a browser takes from the written string is exactly `name=encoded value` |
| Session.SetCookieString | src/lib/session.ts:7 | for a well-formed name and encoded value, the browser takes the pair `name=encode(value)` from the string setCookie writes |
| Session.ClearSessionString | src/lib/session.ts:28 | the browser takes the pair `session_email=` with an empty value from the string clearSession writes |
| Session.SessionRoundTrip | src/lib/session.ts:7-24 | a stored email reads back unchanged when no earlier pair has the session name and decode undoes encode; isAuthenticated is then true iff the email is non-empty |
| Session.ClearedSessionIsSignedOut | src/lib/session.ts:26-34 | a cleared session reads as signed out, whether the empty pair is kept or dropped |
| Session.ValidateWithServer | src/lib/session.ts:57-75 | the user data is returned iff the request succeeded with an OK status and a truthy JSON body, and it is that body; null otherwise |
| RouteGuard.Render | src/components/ProtectedRoute.tsx:47-50 | placeholder iff loading; redirect iff done and not authenticated; the page iff done and authenticated |
| RouteGuard.Resumed | src/components/ProtectedRoute.tsx:19-39 | unmounted: nothing visible changes; mounted: loading ends, a server user authenticates, otherwise the cookie's verdict is copied, and a throwing cookie read leaves `authed` as it was |
| RouteGuard.Step | src/components/ProtectedRoute.tsx:13-45 | unmounting clears only the flag; the check's continuation runs once |
| RouteGuard.SettleDecides | src/components/ProtectedRoute.tsx:19-50 | after the check on a mounted guard the page renders iff the server or the cookie vouches for the user, and the guard redirects otherwise |
| RouteGuard.AccessNeedsVouching | src/components/ProtectedRoute.tsx:22-36 | `authed` becomes true only through an event that vouches for the user |
| RouteGuard.ChildrenNeedVouching | src/components/ProtectedRoute.tsx:11-50 | from mounting, the page renders only after a vouching event |
| RouteGuard.UnmountFreezes | src/components/ProtectedRoute.tsx:20-44 | after unmounting neither `loading` nor `authed` changes |
| RouteGuard.SettledIsFinal | src/components/ProtectedRoute.tsx:13-45 | once the check has run, loading never returns and the decision never changes |
| RouteGuard.InvPreserved | src/components/ProtectedRoute.tsx:10-45 | every event keeps: loading implies not authenticated, an unfinished check implies loading, a mounted finished guard is not loading |
| RouteGuard.ReachableStates | src/components/ProtectedRoute.tsx:10-50 | every state reached from mounting satisfies the invariant, and a mounted guard whose check has run never shows the placeholder |
| RouteGuard.ProtectedRoute.View | src/components/ProtectedRoute.tsx:47-50 | the component renders `Render` of its state |
| RouteGuard.ProtectedRoute.constructor | src/components/ProtectedRoute.tsx:10-14 | loading, not authenticated, mounted, check pending |
| RouteGuard.ProtectedRoute.Resume | src/components/ProtectedRoute.tsx:16-40 | the state after the asynchronous body is `Step` with the server's answer and the cookie at that moment |
| RouteGuard.ProtectedRoute.Unmount | src/components/ProtectedRoute.tsx:42-44 | the cleanup clears only the mounted flag |

## Left out

- Network I/O is not modelled: every `fetch`, response status and JSON parse. Server answers are parameters, and the reloads after a mutation are not modelled.
- `setCreditors(data)` after a mutation stores the reloaded list without normalising it (`CreditorsModule.tsx:124`, `:169`). Only the loader's normalised path is modelled.
- The threshold persistence effect (`ThresholdSettings.tsx:88-105`) fires DELETE and POST calls without awaiting them. Only the JSON form of the posted limits is modelled (`Posted`, with NaN written as `null`), not the calls.
- JSX, dialogs, badges as markup and `toLocaleString` formatting are not modelled. The threshold table's badge (`ThresholdSettings.tsx:112-121`) is markup only.
- React scheduling is not modelled: effect re-runs, `refreshItems` toggles, strict-mode double mounting, and interleavings beyond the single `mounted` flag.
- The receivables module, the login page, the dashboard header and the URL constants are not part of this model. They chain network calls and navigation with literal payloads.
- IEEE-754 doubles are not modelled. Amounts are exact reals, and NaN is modelled where the source produces it.
- Thresholds.ParseInt: integers are unbounded, so the rounding of digit runs above 2^53 is not modelled, and `parseInt("-0")` gives 0 rather than -0. Of the Unicode space separators it skips, only U+00A0 is listed.
- Stock figures are whole numbers, NaN, or null or missing. Fractional values, whose `toString()` contains a '.', are not modelled.
- Thresholds.IntToString: from 10^21 on, the exponent form lists the number's exact decimal digits, whereas JavaScript writes the shortest digits that identify the double. The two differ for numbers a double cannot hold exactly, all of them above 2^53. The first digit, all that `parseInt` reads back, agrees unless rounding carries into it.
- Thresholds.ThresholdEditor.Edit: when `toString` throws, the model assumes React still applies the `setEditingId` update queued on the line before, and the form keeps its old value. The error escapes the click handler, which the model reports as `threw`.
- `Date` is not modelled: today's date and the cookie expiry are strings passed in.
- `encodeURIComponent` and `decodeURIComponent` are abstract functions. The round trip assumes that decoding undoes encoding and that an encoded value holds no ';'.
- The regular expression engine is not modelled. The escaped pattern's meaning is given by `LiteralText`, and the match it performs by `GetCookie`'s leftmost search.
- Session.HeaderLookup: stated for headers of well-formed pairs, meaning names without '=' or ';' and values without ';'.
- The assignment to `document.cookie` and the browser's cookie jar are not modelled. The model states the string written and the pair a browser takes from it.
- The `localStorage` helpers for the business name (`session.ts:37-54`) are storage side effects with no computation.
- RouteGuard.Resumed: assumes both cookie reads in the try and catch blocks see the same cookie, so a failing decode throws in both.
- The unhandled rejection of the guard's asynchronous body is not modelled.
