# Customer 360 dashboard: search, totals and display rules in Dafny

This project models the logic of a single-page banking dashboard. A relationship manager types one or
more customer identifiers. The page posts them to the customer service and shows each returned
customer's profile. The model covers three parts:

- **The search state machine** (`handleSearch` and the customer pills in `src/App.jsx`).
  - `class App` holds the page's five `useState` fields.
  - `StartSearch` runs the blank-input guard, sets `loading` and parses the identifiers.
  - `FinishSearch` settles the request's outcome: success, "No customers found", or an exception with
    the server's message or the generic one. Its `finally` clears `loading`.
  - `HandleSearch` composes the two, with the HTTP call passed in as a `server` function.
  - Every method keeps the page invariant: either there are no results and no selection, or the
    selection is one of the results.
- **The identifier parser** `split(',').map(trim).filter(id => id)` (`Search.ParseIds`). It is built
  on a model of JavaScript's `trim`, one-character `split` and first-occurrence `replace`
  (module `JsString`).
- **What `CustomerProfile` derives from a record** (module `Profile`):
  - the account count and the four money totals, proved equal to a reference "sum of the amounts
    that are present";
  - the segment label, which upper-cases the text and turns only its *first* underscore into a space;
  - the gender label, the investment return badge and `InfoRow`'s `value || '-'` fallback.
- **The helpers of `src/lib/utils.js`** (module `Utils`): the falsy-input branches of the three
  formatters and the three lookup tables with their defaults.

Module `Js` models the JavaScript semantics these expressions depend on:
- truthiness;
- `x >= 0` for a field that is absent, `null` or a number;
- reading a property from an object literal, where inherited `Object.prototype` members are visible.

Optional chains (`a?.b?.c`) are modelled as `Option` fields: `None` means a link was null or
undefined. Money amounts are `int`.

The emptiness guard of `handleSearch` (`src/App.jsx:24`) tests the trimmed raw input string, not
the list of identifiers parsed from it at line 33. The model follows the code:
- `Search.BlankInputHasNoIds` proves that every input the guard rejects would parse to no identifiers;
- `Search.GuardAdmitsEmptyIdList` proves the converse fails: `" , "` passes the guard yet parses to
  `[]`, so a request with an empty identifier list is sent.

## Model

| member | source | states |
|---|---|---|
| Utils.FormatCurrency | src/lib/utils.js:8-16 | 0 or a missing amount gives "Rp 0"; any other amount gives the locale formatter's rendering of that amount |
| Utils.FormatDate | src/lib/utils.js:18-25 | a missing or empty date gives "-"; any other date gives the locale's long-date rendering |
| Utils.FormatNumber | src/lib/utils.js:27-30 | 0 or a missing number gives "0"; any other number gives the locale's grouped rendering |
| Utils.ZeroAmountsRenderAlike | src/lib/utils.js:9-28 | zero and missing inputs render the same whatever number formatter or date locale is passed in |
| Utils.Lookup | src/lib/utils.js:39 | a key in the table (with a non-empty entry) yields its entry; a key not in the table yields the fallback |
| Utils.LookupAsWritten | src/lib/utils.js:39 | a key naming an Object.prototype member that the table lacks yields exactly that inherited member, not the fallback |
| Utils.LookupAgreesOutsidePrototype | src/lib/utils.js:39 | for every key other than an Object.prototype member name, the JavaScript lookup equals the own-entries lookup |
| Js.ReadProperty | src/lib/utils.js:39 | reading `table[key]` gives an own entry exactly when the key is in the table, an inherited member exactly when it is a prototype name missing from the table, else undefined |
| Utils.GetSegmentBadgeColor | src/lib/utils.js:32-40 | (intended lookup; see ## Findings) the result is always one of the four table values and never empty; a known segment gets its entry; any other or missing segment gets the `mass` entry |
| Utils.GetAccountTypeIcon | src/lib/utils.js:42-50 | (intended lookup; see ## Findings) the result is always one of the four glyphs; a known type gets its glyph; any other or missing type gets the savings glyph |
| Utils.GetProductStatusColor | src/lib/utils.js:52-62 | (intended lookup; see ## Findings) the result is always one of the table values and never empty; a known status gets its entry; any other or missing status gets the `inactive` entry |
| Utils.UnknownSegmentIsMass | src/lib/utils.js:39 | an unknown or missing segment is styled exactly like `mass` |
| Utils.StatusColorClasses | src/lib/utils.js:54-61 | `closed` and `blocked` share the red classes, `active` and `current` the green ones, and an unknown or missing status is styled like `inactive` |
| Utils.UnknownAccountTypeIsSavings | src/lib/utils.js:49 | an unknown or missing account type gets the same glyph as `savings` |
| Utils.SegmentColorInheritedKey | src/lib/utils.js:39 | as written, the segment "toString" yields `Object.prototype.toString`; the intended lookup gives the `mass` classes |
| Utils.AccountIconInheritedKey | src/lib/utils.js:49 | as written, the type "constructor" yields the `Object` constructor; the intended lookup gives the savings glyph |
| Utils.StatusColorInheritedKey | src/lib/utils.js:61 | as written, the status "valueOf" yields `Object.prototype.valueOf`; the intended lookup gives the `inactive` classes |
| Utils.SegmentBadgeColorAsWritten | src/lib/utils.js:39 | `colors[segment] \|\| colors.mass` as evaluated: the intended styling for every key except an Object.prototype member name, which yields that member |
| Utils.AccountTypeIconAsWritten | src/lib/utils.js:49 | `icons[type] \|\| '💰'` as evaluated: the intended glyph for every key except an Object.prototype member name, which yields that member |
| Utils.ProductStatusColorAsWritten | src/lib/utils.js:61 | `colors[status] \|\| colors.inactive` as evaluated: the intended styling for every key except an Object.prototype member name, which yields that member |
| Js.Truthy | src/App.jsx:688 | ToBoolean: a value is falsy exactly when it is undefined, null, false, 0 or "" |
| Js.PropertyTruthy | src/lib/utils.js:39 | the property read that `\|\|` tests is falsy exactly when it is undefined or an empty own entry; inherited members are truthy |
| Js.AtLeastZero | src/App.jsx:511-512 | `x >= 0` holds exactly when ToNumber of `x` is a number at least 0, so `undefined` (NaN) fails and `null` (0) passes |
| JsString.Trim | src/App.jsx:24 | neither end of the trimmed string is ECMAScript white space |
| JsString.TrimEmptyIff | src/App.jsx:24 | a string trims to "" exactly when it consists only of white space |
| JsString.TrimAddsNothing | src/App.jsx:33 | trimming introduces no character, so a comma-free piece stays comma-free |
| JsString.TrimIdempotent | src/App.jsx:33 | trimming a trimmed string changes nothing |
| JsString.TrimKeepsClean | src/App.jsx:33 | a string whose ends are not white space is its own trim |
| JsString.TrimSkipsLeading | src/App.jsx:33 | leading white space does not change the trim |
| JsString.TrimStartDrops | src/App.jsx:24 | the start-trimmed string is a suffix of its input, and everything dropped is white space |
| JsString.TrimEndDrops | src/App.jsx:24 | the end-trimmed string is a prefix of its input, and everything dropped is white space |
| JsString.TrimStart | src/App.jsx:24 | the start-trimmed string is empty or does not begin with white space |
| JsString.TrimEnd | src/App.jsx:24 | the end-trimmed string is empty or does not end with white space |
| JsString.TrimDrops | src/App.jsx:24 | the trim is one slice of the input, and only white space lies before and after it |
| JsString.SplitCount | src/App.jsx:33 | `split(',')` yields exactly one more piece than there are commas |
| JsString.Split | src/App.jsx:33 | `split(',')` never yields an empty list (`"".split(',')` is `[""]`); the count, content and round trip of its pieces are the lemmas around it |
| JsString.SplitPiecesLackSeparator | src/App.jsx:33 | no piece of a split contains the separator |
| JsString.JoinSplit | src/App.jsx:33 | joining the pieces with the separator gives back the input |
| JsString.SplitJoin | src/App.jsx:33 | splitting a join of separator-free pieces gives back the pieces |
| JsString.SplitAround | src/App.jsx:33 | a separator in the input cuts the piece list there: `split(a + sep + b)` is `split(a)` followed by `split(b)` |
| JsString.SplitWhiteSpace | src/App.jsx:33 | splitting white space yields only white-space pieces |
| JsString.ReplaceFirstAt | src/App.jsx:201 | `replace` changes only the first occurrence and keeps the text before and after it |
| JsString.ReplaceFirstAbsent | src/App.jsx:201 | without an occurrence, `replace` returns the string unchanged |
| JsString.ReplaceFirstCount | src/App.jsx:201 | `replace` removes exactly one occurrence of the pattern and adds one of the replacement |
| JsString.ReplaceFirst | src/App.jsx:201 | `replace('_', ' ')` keeps the length of the string; which character changes is stated by the three lemmas before it |
| JsString.ToUpperCase | src/App.jsx:201 | the result has the same length and each character is upper-cased |
| JsString.UpperCaseHasNoLower | src/App.jsx:201 | no lower-case ASCII letter is left, and every other character is unchanged |
| JsString.UpperCaseConcat | src/App.jsx:201 | upper-casing distributes over concatenation |
| Search.ParseIds | src/App.jsx:33 | every parsed identifier is non-empty, has no comma and no white space at either end; there are at most one more identifiers than commas |
| Search.DropEmpty | src/App.jsx:33 | the filter keeps no empty string and never lengthens the list; that it keeps every non-empty string, in order, is `DropEmptyOfNonEmpty` and `DropEmptyAppend` |
| Search.DropEmptyKeeps | src/App.jsx:33 | every string the filter keeps comes from its input |
| Search.DropEmptyAppend | src/App.jsx:33 | the filter keeps order: filtering a concatenation concatenates the filtered halves |
| Search.DropEmptyOfNonEmpty | src/App.jsx:33 | the filter keeps every non-empty string: a list with no empty string passes unchanged |
| Search.TrimEachAt | src/App.jsx:33 | the k-th trimmed piece is the trim of the k-th piece |
| Search.TrimEachAppend | src/App.jsx:33 | the trimming map distributes over concatenation |
| Search.TrimEach | src/App.jsx:33 | `map(id => id.trim())` gives one trimmed piece per piece |
| Search.ParseIdsAround | src/App.jsx:33 | the identifiers before a comma precede those after it: input order is preserved |
| Search.ParseIdsPiece | src/App.jsx:33 | a comma-free input gives its trimmed text as the only identifier, or nothing when that is empty |
| Search.ParseIdsOfJoin | src/App.jsx:33 | well-formed identifiers joined by commas parse back to the same list, with nothing lost, added or reordered |
| Search.ParseIdsSpacedPair | src/App.jsx:33 | "A, B" with a space after the comma parses to [A, B] |
| Search.BlankInputHasNoIds | src/App.jsx:24-33 | every input the guard rejects would parse to no identifiers |
| Search.GuardAdmitsEmptyIdList | src/App.jsx:24-33 | " , " passes the guard but parses to the empty list |
| Search.ErrorMessage | src/App.jsx:47 | the server's message when present and non-empty, otherwise "Failed to fetch customer data"; never empty |
| Search.Settle | src/App.jsx:38-49 | the error is absent exactly when the response is a success with non-empty data, and then the results are the data with the first one selected. `success: false` or empty data gives "No customers found". A success without data gives the generic fetch error (reading `.length` throws). An exception gives its message. Every error clears the results and the selection, and every outcome leaves them consistent |
| Search.ExactlySelectedPillHighlighted | src/App.jsx:131-137 | with unique identifiers and a consistent selection, a pill is highlighted exactly when its customer is the selected one |
| Search.Highlighted | src/App.jsx:136 | the selected customer's own pill is highlighted, and no pill is highlighted when nothing is selected |
| Search.App.constructor | src/App.jsx:17-21 | the initial state: empty input, not loading, no results, no error, no selection; the invariant holds |
| Search.App.SetCustomerIds | src/App.jsx:95 | typing replaces the input text and changes nothing else |
| Search.App.StartSearch | src/App.jsx:24-33 | a blank input only sets "Please enter at least one customer ID" and sends nothing. Any other input sets `loading`, clears the error and sends the parsed identifiers. The invariant is kept |
| Search.App.FinishSearch | src/App.jsx:38-52 | the results, selection and error become those `Settle` gives for the outcome, `loading` is false whichever branch ran, and the invariant is kept |
| Search.App.HandleSearch | src/App.jsx:23-53 | blank input: only the validation error changes and no request is made. Otherwise the parsed identifiers are sent, `loading` ends false and the state is what the server's outcome settles to. The invariant is kept |
| Search.App.SelectCustomer | src/App.jsx:134 | clicking a pill of a listed customer selects exactly that customer and keeps the invariant |
| Profile.TotalAccounts | src/App.jsx:175 | the number of accounts, or 0 when the list is missing |
| Profile.AmountOrZero | src/App.jsx:176-179 | `amount \|\| 0` is the amount when present and 0 when missing |
| Profile.ReduceIsSumOfPresent | src/App.jsx:176-179 | the `reduce` with `amount \|\| 0` equals the sum of the present amounts |
| Profile.ReduceAppend | src/App.jsx:176-179 | totals are additive over concatenation of the lists |
| Profile.Reduce | src/App.jsx:176-179 | the left fold with `amount \|\| 0` totals 0 when every amount is missing |
| Profile.Total | src/App.jsx:176-179 | `xs?.reduce(...) \|\| 0` equals the sum of the present amounts, and 0 for a missing list |
| Profile.TotalBalance | src/App.jsx:176 | the sum of the account balances that are present |
| Profile.TotalLoans | src/App.jsx:177 | the sum of the loans' outstanding balances that are present |
| Profile.TotalCards | src/App.jsx:178 | the sum of the cards' outstanding balances that are present |
| Profile.TotalInvestments | src/App.jsx:179 | the sum of the investments' current values that are present |
| Profile.EmptyListsTotalZero | src/App.jsx:175-179 | a missing or empty list gives a count of 0 and money totals of 0 |
| Profile.TotalBalanceSkipsMissing | src/App.jsx:176 | balances 100000, missing and 50000 total 150000 over 3 accounts |
| Profile.SumAppend | src/App.jsx:176-179 | the reference sum is additive over concatenation |
| Profile.PresentValuesAppend | src/App.jsx:176-179 | the present amounts of a concatenation are those of each part, in order |
| Profile.SegmentLabel | src/App.jsx:201 | a missing segment stays missing; otherwise the label has the segment's length |
| Profile.SegmentLabelFirstUnderscoreOnly | src/App.jsx:201 | only the first underscore becomes a space; the text on both sides is upper-cased, later underscores included |
| Profile.SegmentLabelNoUnderscore | src/App.jsx:541 | a segment without underscores is only upper-cased |
| Profile.MassAffluentLabel | src/App.jsx:541 | "mass_affluent" is shown as "MASS AFFLUENT" |
| Profile.HighNetWorthLabel | src/App.jsx:201 | "high_net_worth" is shown as "HIGH NET_WORTH" (the second underscore stays) |
| Profile.TextRow | src/App.jsx:688 | a text field shown through `InfoRow` gives "-" when missing or empty, and the text itself otherwise |
| Profile.FullNameRow | src/App.jsx:266 | the "Full Name" row shows the name, or "-" when it is missing or empty |
| Profile.GenderRow | src/App.jsx:267 | the "Gender" row shows "Male" exactly when the record's gender is "M", and "Female" otherwise, missing included |
| Profile.CurrentSegmentRow | src/App.jsx:541 | the "Current Segment" row shows "-" for a missing or empty segment, and the segment's label otherwise |
| Profile.PotentialSegmentRow | src/App.jsx:542 | the "Potential Segment" row shows "-" for a missing or empty segment, and the segment's label otherwise |
| Profile.AccountTypeRow | src/App.jsx:348 | an account's "Type" row shows its type, or "-" when it is missing or empty |
| Profile.AccountStatusClass | src/App.jsx:337 | (intended lookup; see ## Findings) an account's status badge has the status table's classes for its status, `inactive` for an unknown or missing one, and is never empty |
| Profile.LoanStatusClass | src/App.jsx:418 | (intended lookup; see ## Findings) a loan's status badge has the status table's classes for its status, `inactive` for an unknown or missing one, and is never empty |
| Profile.SegmentBadgeClass | src/App.jsx:199 | (intended lookup; see ## Findings) the header badge's class is the colour entry of this customer's segment (the `mass` entry for an unknown or missing one) followed by " border" |
| Profile.GenderLabel | src/App.jsx:267 | "Male" exactly when the gender is "M"; anything else, missing included, shows "Female" |
| Profile.ReturnBadge | src/App.jsx:511-512 | the green style goes with the "+" sign and the red style with no sign. A number gets green exactly when it is at least 0. An absent percentage gets red; a `null` one gets green |
| Profile.InfoRowValue | src/App.jsx:688 | a falsy value (undefined, null, false, 0, "") shows "-"; a truthy value shows itself; the shown value is always truthy |

## Left out

- The locale formatting inside `formatCurrency`, `formatDate` and `formatNumber` (`Intl.NumberFormat`,
  `toLocaleDateString`). Its output depends on the runtime's locale data, so each formatter takes it as
  a function parameter; only the early-return branches are defined.
- The HTTP POST and its endpoint. The request's result is a value of type `Search.Outcome`, produced
  by the `server` parameter of `HandleSearch` from the identifiers sent.
- `Search.App.HandleSearch`: overlapping searches are not modelled. The model runs one search as one
  step, split into `StartSearch` and `FinishSearch` so that the `loading` state in between is visible.
  Pressing Enter while a search is pending (the button is disabled, the key handler is not) would
  start a second request whose completion order is up to the network.
- JSX layout, styling classes other than those the rules select, the `cn` helper (a wrapper around
  clsx and tailwind-merge) and the markup of the helper components.
- The campaign response percentage `(rate * 100).toFixed(0)`: floating-point formatting.
- vite.config.js, which configures the build and the development server only.
- JsString.ToUpperCase: maps only ASCII letters. JavaScript's full Unicode case mapping (for example
  "ß" to "SS", which changes the length) is not modelled; segment names are ASCII.
- Profile.Reduce: amounts are integers. A field holding a string would make `+` concatenate. A float
  sum would round. A `NaN` total would fall back to 0 through `|| 0`. A `null` element in `accounts`,
  `loans`, `cards` or `investments` makes reading its amount throw during rendering. None of these is
  modelled.
- Js.Truthy: `NaN` is not a value of the model, since JSON cannot carry it.
- Utils.PropertyKey: a missing key is looked up as the property "undefined". A `null` key (looked up
  as "null") is not distinguished from a missing one; neither name is in any table.
- Search.ResponseBody: `success` is a boolean, and `data` is a list or missing. Truthy non-boolean
  flags and non-list `data` values are not modelled. Nor is a `null` response body, whose
  `success` read throws a TypeError inside the `try`, so the generic "Failed to fetch customer
  data" is shown.

## Findings

| source | as written | input that shows it | evidently intended | confidence | as-written member | corrected member |
|---|---|---|---|---|---|---|
| src/lib/utils.js:39 | `colors[segment] \|\| colors.mass` reads inherited members of the object literal | segment "toString" yields the function `Object.prototype.toString` as the class string | any segment outside the table gets the `mass` classes | not executed | Utils.SegmentColorInheritedKey | Utils.GetSegmentBadgeColor |
| src/lib/utils.js:49 | `icons[type] \|\| '💰'` reads inherited members of the object literal | account type "constructor" yields the `Object` constructor instead of a glyph | any type outside the table gets the savings glyph | not executed | Utils.AccountIconInheritedKey | Utils.GetAccountTypeIcon |
| src/lib/utils.js:61 | `colors[status] \|\| colors.inactive` reads inherited members of the object literal | status "valueOf" yields `Object.prototype.valueOf` as the class string | any status outside the table gets the `inactive` classes | not executed | Utils.StatusColorInheritedKey | Utils.GetProductStatusColor |
