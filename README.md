# Credit-report XML normaliser, modelled in Dafny

The backend turns an uploaded XML credit report into a JSON record with `parseCreditReportXML`. There are two copies of this function:

- `backend/utils/xmlParser.js`, the live one;
- `backend/util/xmlParser.js`, an older one.

Both read the tree that xml2js builds with `explicitArray: false` through two helpers:

- `safeGet`, a defaulting path lookup;
- `asArray`, which coerces a value to a list.

They extract the following from the `INProfileResponse` root:

- basic details: the name, the mobile number, the PAN from the first account, and the bureau score;
- seven numeric summary fields, each read through `parseInt(…, 10)`;
- the credit cards: one entry per account whose `Account_Type` is `'10'`, in order;
- the addresses: one per distinct trimmed address-line key, in first-seen order, with whitespace runs collapsed in `fullAddress`.

The two copies differ in how they handle a missing root and errors:

- The live copy returns `{isGeneric: true, genericData}` for a document without a truthy root. It turns every failure into one "malformed" error.
- The older copy rejects such a document with a missing-root error. It keeps each failure's own message.

The model is split into these modules:

- `JsStrings` (`js_strings.dfy`): the runtime's string operations. These are the ECMAScript whitespace class, `trim`, `replace(/\s+/g, ' ')`, `split('.')` and `join`, and decimal digit strings.
- `JsValues` (`js_values.dfy`): the parsed tree as a JavaScript value (`null`, string, number, object, array). It covers truthiness, `v?.[key]`, `String(v)` and `parseInt`. NaN is kept as a distinct result, `IntOrNaN`.
- `SafeAccess` (`safe_access.dfy`): both `safeGet`s as loops proved against a path walk, and `asArray`.
- `KeyedTable` (`keyed_table.dfy`): the insertion-ordered `Map` filled with `if (k && !m.has(k)) m.set(k, v)`, specified as first-seen de-duplication.
- `FilterBuild` (`filter_build.dfy`): a loop that pushes one built entry for every accepted element, where building may throw.
- `ReportModel` (`report_model.dfy`): the output records, the field extraction, and the account loop, written as a method with loop invariants.
- `ReportParser` (`report_parser.dfy`) and `LegacyReportParser` (`legacy_report_parser.dfy`): the two top-level functions. A lemma relates the two on every input.

In these places the code behaves in ways a reader might not expect, and the model follows the code:

- A counter that is present but not numeric parses to NaN, not 0.
- A numeric field can be negative.
- The report root is accepted when it is truthy. It need not be a mapping, so a non-empty string root passes.
- Addresses are de-duplicated on the trimmed but uncollapsed key. Two entries can therefore share a `fullAddress` (`ReportModel.TwoAccounts`).
- A type-'10' account whose `Subscriber_Name` is not a string makes `.trim()` throw a TypeError. This is a second failure besides an unparsable document: the live copy reports it as "malformed", the older copy as itself. A third failure, converting an element that has a child named `toString` to a string, is not modelled (see `JsValues.ToJsString` under "## Left out").
- The entry's field is `state`, not a state code.

## Model

| member | source | states |
|---|---|---|
| JsValues.Truthy | backend/utils/xmlParser.js:32 | Defines JavaScript truthiness on tree values: `null`, `''` and `0` are falsy, and every object and array, even an empty one, is truthy. |
| JsStrings.IsSpace | backend/utils/xmlParser.js:44 | Defines the one whitespace class that `trim` (:44, :82), the regular expression class `\s` (:87) and `parseInt` (:51) all use: the ECMAScript WhiteSpace and LineTerminator code points. |
| JsValues.Member | backend/utils/xmlParser.js:9 | Defines `v?.[key]`. An object gives the value of its own key. An array gives the element a canonical decimal key names, if it is in range. Anything else, and a missing key, is undefined (`None`). |
| JsValues.ArrayIndex | backend/utils/xmlParser.js:48 | Defines which property keys index an array: a non-empty all-digit key with no leading zero, or `'0'`, names the element its digits denote; every other key names none. |
| JsValues.ToJsString | backend/utils/xmlParser.js:82 | Defines `String(v)`. `null` gives `"null"`, a string itself, a number its decimal form, and an object `"[object Object]"`. An array gives its elements' strings joined with `,`, with `''` for a `null` element. |
| JsStrings.Join | backend/utils/xmlParser.js:82 | Defines `Array.prototype.join`, which `String(array)` applies with `,`: the pieces with the separator between each two, `''` for no pieces. |
| JsStrings.IntToDecimal | backend/utils/xmlParser.js:51 | Defines `String` of a number: the decimal digits of its magnitude, after `-` when it is negative. |
| JsValues.ParseInt | backend/utils/xmlParser.js:51 | Defines `parseInt(s, 10)`. It skips leading whitespace, takes one optional sign, then the longest digit run. The result is NaN when that run is empty. |
| JsValues.ParseIntValue | backend/utils/xmlParser.js:55-62 | `parseInt` applied to any tree value, through `String(v)`. |
| JsStrings.TrimStart | backend/utils/xmlParser.js:82 | The leading-whitespace cut of `trim`: a suffix of the input that does not start with whitespace. |
| JsStrings.TrimEnd | backend/utils/xmlParser.js:82 | The trailing-whitespace cut of `trim`: a prefix of the input that does not end with whitespace. |
| JsStrings.Trim | backend/utils/xmlParser.js:44 | Defines `String.prototype.trim` as both cuts. |
| JsStrings.CollapseWhitespace | backend/utils/xmlParser.js:87 | Defines `replace(/\s+/g, ' ')`, which turns each maximal whitespace run into one space. The result is never longer than the input. |
| JsStrings.Split | backend/utils/xmlParser.js:6 | Defines `path.split('.')`: the pieces between dots, always at least one. |
| SafeAccess.KeysOf | backend/utils/xmlParser.js:6 | Defines the keys a `safeGet` path stands for: an array of keys (`Path.Keys`) as it is, a string (`Path.Dotted`) split at its dots. |
| SafeAccess.Walk | backend/utils/xmlParser.js:7-13 | Follows the keys one property access at a time. It fails at the first step that yields undefined or `null`, and the empty path gives the start value. |
| SafeAccess.LookupLegacy | backend/util/xmlParser.js:4-14 | Defines what the older `safeGet` returns: the end of the walk, or `default` when the walk fails. |
| SafeAccess.Lookup | backend/utils/xmlParser.js:4-15 | Defines what the newer `safeGet` returns: `default` for a falsy object, otherwise what the older one returns. |
| FilterBuild.Filter | backend/utils/xmlParser.js:69-70 | The elements the test accepts, in order. |
| FilterBuild.BuiltBelow | backend/utils/xmlParser.js:69-78 | The list after the first `n` elements: the entries built so far, or the first error thrown. |
| KeyedTable.Dedup | backend/utils/xmlParser.js:85-91 | The values a first-seen keyed table ends with: the value at each position that first carries its key, in position order. |
| KeyedTable.TableAfter | backend/utils/xmlParser.js:67-91 | The state of the `addresses` Map after the first `n` accounts: its key order and contents are exactly the keys and values of the positions that first carry a key, in position order, and it holds every key seen so far and no other. It is the loop invariant of `ReportModel.CollectAccounts`. |
| ReportModel.Applicant | backend/utils/xmlParser.js:43 | The applicant-details node, read along its three-key path with default `null`. |
| ReportModel.NameOf | backend/utils/xmlParser.js:44 | `First_Name`, a space and `Last_Name` of the applicant, each defaulting to `''`, converted to strings and trimmed. |
| ReportModel.AccountsOf | backend/utils/xmlParser.js:47 | The account list at `CAIS_Account.CAIS_Account_DETAILS`, defaulting to `[]` and coerced to a list. |
| ReportModel.PanOf | backend/utils/xmlParser.js:48-49 | `Income_TAX_PAN` of `CAIS_Holder_Details` of account `'0'`, read in two steps with default `null`. |
| ReportModel.CounterAt | backend/utils/xmlParser.js:55 | `parseInt(safeGet(obj, path, 0), 10)`. |
| ReportModel.BasicDetailsOf | backend/utils/xmlParser.js:43-51 | The basic details: the name, the applicant's `MobilePhoneNumber` (default `null`), the PAN and the bureau score counter. |
| ReportModel.SummaryOf | backend/utils/xmlParser.js:54-63 | The seven counters. Three are read from the `summary` node, three from its `balance` node, and the enquiry count from the report root. |
| ReportModel.IsCreditCard | backend/utils/xmlParser.js:70 | `safeGet(account, 'Account_Type') === '10'`, a strict equality with the string `'10'`. |
| ReportModel.SubscriberName | backend/utils/xmlParser.js:73 | `Subscriber_Name` of an account, defaulting to `''`. |
| ReportModel.CardOf | backend/utils/xmlParser.js:71-77 | The card entry of an account. It fails with the TypeError when `Subscriber_Name` is not a string. |
| ReportModel.CardsBelow | backend/utils/xmlParser.js:66-78 | The card list after the first `n` accounts, or the first TypeError. |
| ReportModel.AddressNode | backend/utils/xmlParser.js:80 | `CAIS_Holder_Address_Details` of an account, default `null`. |
| ReportModel.JoinedLines | backend/utils/xmlParser.js:82 | The three address lines, each defaulting to `''`, converted to strings and joined by single spaces. |
| ReportModel.AddressKey | backend/utils/xmlParser.js:82 | `full`: the joined lines, trimmed. |
| ReportModel.AddressOf | backend/utils/xmlParser.js:86-91 | The entry stored for an address node: the collapsed key, and city, state and zip with default `null`. |
| ReportModel.KeyOf | backend/utils/xmlParser.js:80-85 | The key an account offers the Map. It is absent when the address node is falsy or `full` is `''`. |
| ReportModel.UniqueAddresses | backend/utils/xmlParser.js:114 | `Array.from(addresses.values())`: the first-seen de-duplication of the accounts' entries by their keys. |
| ReportModel.AccountsSpec | backend/utils/xmlParser.js:66-94 | What the account loop ends with: the first TypeError, or the card list and the unique addresses. |
| ReportModel.Extract | backend/utils/xmlParser.js:42-116 | The record built from a report root: the basic details, the summary and the account sections, or the loop's TypeError. |
| ReportParser.RootOf | backend/utils/xmlParser.js:29 | `safeGet(result, 'INProfileResponse')`. |
| ReportParser.ParseSpec | backend/utils/xmlParser.js:23-123 | The live function. An unparsable text is "malformed". A falsy root gives the generic result carrying the tree. Otherwise it gives the extraction, with any error turned into "malformed". |
| LegacyReportParser.ParseSpec | backend/util/xmlParser.js:22-120 | The older function. An unparsable text is the XML syntax error. A falsy tree, or an absent or falsy root, is the missing-root error. Otherwise it gives the extraction of the root, with its error kept. |
| SafeAccess.SafeGet | backend/utils/xmlParser.js:4-15 | The guarded `safeGet` returns `default` for a falsy object. Otherwise it follows the keys and returns `default` at the first undefined or null step, else the value reached. |
| SafeAccess.SafeGetLegacy | backend/util/xmlParser.js:4-14 | The unguarded `safeGet`. It does the same walk from any object, and returns the object itself on an empty path. |
| SafeAccess.WalkConcat | backend/utils/xmlParser.js:8-13 | Walking a path `a + b` is walking `a`, then walking `b` from where `a` ended. |
| SafeAccess.WalkNeverEndsOnNull | backend/utils/xmlParser.js:9-12 | A walk of at least one step never yields `null`. |
| SafeAccess.WalkStopsAtMissingStep | backend/utils/xmlParser.js:9-12 | If one step yields undefined or null, the whole walk fails. |
| SafeAccess.WalkSucceedsThroughEveryStep | backend/utils/xmlParser.js:8-13 | A successful walk took a defined, non-null step at every key. |
| SafeAccess.LookupResult | backend/utils/xmlParser.js:4-15 | `safeGet` answers either `default` or the end of the walk. It answers `default` when the walk fails, and it gives `null` on a non-empty path only when the default is `null`. |
| SafeAccess.LegacyLookupAgrees | backend/util/xmlParser.js:4-14 | The two `safeGet`s agree on every non-empty path. On the empty path the older one returns the object and the newer one returns the object if truthy, else the default. |
| SafeAccess.LookupChain | backend/utils/xmlParser.js:54-62 | For non-empty paths `a` and `b`, reading `b` from the result of reading `a` with default `null` is reading the whole path `a + b`. This holds for both `safeGet`s. |
| SafeAccess.AsArray | backend/utils/xmlParser.js:17-21 | A falsy value gives the empty list and an array gives its elements. Any other value gives a list of one. |
| JsValues.ArrayIndexIsDecimal | backend/utils/xmlParser.js:48 | A property key names array element `i` exactly when it is the decimal form of `i`, as `'0'` is for the first account. |
| JsValues.MemberOfArray | backend/utils/xmlParser.js:48 | `arr?.[String(i)]` is element `i`. |
| JsValues.ToJsStringOfShortArrays | backend/utils/xmlParser.js:82 | In a template literal an empty array reads as `''`, and a one-element array reads as its element, or `''` for `null`. |
| JsValues.ParseIntOfDecimal | backend/utils/xmlParser.js:51 | `parseInt` reads back the decimal form of every integer. |
| JsValues.ParseIntStopsAtNonDigit | backend/utils/xmlParser.js:55 | `parseInt` reads the digit run and ignores whatever follows it. |
| JsValues.ParseIntSkipsSpace | backend/utils/xmlParser.js:60 | Leading whitespace never changes what `parseInt` reads. |
| JsValues.ParseIntUnpadded | backend/utils/xmlParser.js:51 | On a string starting with a digit or a sign, `parseInt` gives NaN when no digit follows. Otherwise it gives the digit run, negated after `-`. |
| JsValues.ParseIntNoDigits | backend/utils/xmlParser.js:55-57 | A string that starts with neither whitespace, a sign nor a digit parses to NaN. |
| JsValues.ParseIntValueOfScalars | backend/utils/xmlParser.js:51 | `parseInt` of the default `0` is 0. `parseInt` of `null` or of an object is NaN. |
| JsValues.DigitPrefix | backend/utils/xmlParser.js:51 | The digit run `parseInt` reads is the longest all-digit prefix. |
| JsStrings.TrimStartDropsSpace | backend/utils/xmlParser.js:44 | Everything trimmed from the front is whitespace. |
| JsStrings.TrimEndDropsSpace | backend/utils/xmlParser.js:44 | Everything trimmed from the back is whitespace. |
| JsStrings.TrimSlice | backend/utils/xmlParser.js:44 | `trim` keeps one contiguous slice of its input. |
| JsStrings.TrimCutsOnlySpace | backend/utils/xmlParser.js:44 | What `trim` cuts on either side of that slice is whitespace only. |
| JsStrings.TrimEdges | backend/utils/xmlParser.js:82 | A trimmed string neither starts nor ends with whitespace. |
| JsStrings.TrimEmptyIffAllSpace | backend/utils/xmlParser.js:82-85 | `trim` gives `''` exactly when the input is all whitespace, which is when `full &&` rejects it. |
| JsStrings.TrimOfUnpadded | backend/utils/xmlParser.js:44 | A string without whitespace at either end is unchanged by `trim`. |
| JsStrings.CollapseShape | backend/utils/xmlParser.js:87 | `replace(/\s+/g, ' ')` leaves no two adjacent whitespace characters and no whitespace but U+0020. It is empty only for `''`, and it starts and ends with whitespace exactly when its input does. |
| JsStrings.CollapseKeepsText | backend/utils/xmlParser.js:87 | Collapsing keeps every non-whitespace character, in order. |
| JsStrings.CollapseOfTrimmed | backend/utils/xmlParser.js:82-87 | A trimmed non-empty key collapses to a non-empty string. The result has no whitespace at either end, single plain spaces inside, and the same text. |
| JsStrings.CollapseSpaceRun | backend/utils/xmlParser.js:87 | A whitespace run of any length becomes one space. |
| JsStrings.CollapseAfterChar | backend/utils/xmlParser.js:87 | A character followed by a whitespace run collapses to that character and one space. |
| JsStrings.CollapseIgnoresRunLength | backend/utils/xmlParser.js:85-87 | Two different keys that differ only in the length of one whitespace run, after any prefix that does not end in whitespace (such as `'12  Elm St'` and `'12 Elm St'`), collapse to the same `fullAddress`. |
| JsStrings.CollapseSplitsAfterText | backend/utils/xmlParser.js:87 | Collapsing a string cut after a non-whitespace character is collapsing the two parts separately: no run crosses the cut. |
| JsStrings.TrimStartSkipsSpace | backend/utils/xmlParser.js:60 | Leading whitespace has no effect on `trimStart`. |
| JsStrings.NonSpaceConcat | backend/utils/xmlParser.js:87 | The non-whitespace text of a concatenation is the concatenation of the texts. |
| JsStrings.FirstDot | backend/utils/xmlParser.js:6 | The position `split('.')` cuts at holds the first dot, and there is no dot before it. |
| JsStrings.JoinSplit | backend/utils/xmlParser.js:6 | Joining the pieces of `split('.')` with `.` gives the path back. |
| JsStrings.SplitDotFree | backend/utils/xmlParser.js:6 | No piece of a split path holds a dot. |
| JsStrings.SplitJoin | backend/utils/xmlParser.js:6 | Splitting the dot-join of dot-free keys gives the keys back. |
| JsStrings.NatToDecimal | backend/utils/xmlParser.js:48 | `String(n)` of a natural number is all digits, with no leading zero unless `n` is 0. |
| JsStrings.NatToDecimalValue | backend/utils/xmlParser.js:51 | The decimal form of `n` denotes `n`. |
| JsStrings.CanonicalDecimal | backend/utils/xmlParser.js:48 | A digit string without a leading zero, or `'0'`, is the decimal form of its value. |
| KeyedTable.TableAdd | backend/utils/xmlParser.js:85-91 | Setting a key the Map lacks appends that key and its value. The Map then holds the first-seen values of one more position. |
| KeyedTable.TableSkip | backend/utils/xmlParser.js:85 | A position without a key, or with a key the Map already has, leaves the Map unchanged. |
| KeyedTable.TableValues | backend/utils/xmlParser.js:114 | `Array.from(m.values())` after the last position is the first-seen de-duplication. |
| KeyedTable.FirstIndicesAreFirst | backend/utils/xmlParser.js:85 | Every kept position carries a key that no earlier position carries. |
| KeyedTable.FirstIndicesIncrease | backend/utils/xmlParser.js:114 | Kept positions are in increasing order, which is insertion order. |
| KeyedTable.FirstIndicesCover | backend/utils/xmlParser.js:85-91 | Every position with a key is matched, at or before it, by a kept position with the same key. |
| KeyedTable.DedupProperties | backend/utils/xmlParser.js:80-93 | There is one value per distinct key, taken from its earliest position, in position order, with distinct keys. Every key that occurs is represented. |
| KeyedTable.DedupOfTwo | backend/utils/xmlParser.js:85-91 | Two different keys keep both values. A repeated key keeps only the first value. |
| FilterBuild.ErrorPersists | backend/utils/xmlParser.js:69-78 | An error thrown inside the loop is what the whole loop ends with. |
| FilterBuild.FailsIff | backend/utils/xmlParser.js:69-78 | The loop throws exactly when building some accepted element throws, and it throws that element's error. |
| FilterBuild.FollowsFilter | backend/utils/xmlParser.js:69-78 | A loop that does not throw pushes one entry per accepted element, in order, each built from that element. |
| FilterBuild.FilterSelect | backend/utils/xmlParser.js:70 | The filter keeps every accepted element as often as it occurs, and no other element. |
| FilterBuild.FilterConcat | backend/utils/xmlParser.js:69-70 | The filter of a concatenation is the concatenation of the filters, which keeps source order. |
| ReportModel.DottedPaths | backend/utils/xmlParser.js:43-63 | Each of the nine multi-key dotted literal paths (:43, :47, :48, :51, :54, :55, :56, :57, :63) splits into exactly the keys it spells. |
| ReportModel.RootPath | backend/utils/xmlParser.js:29 | `'INProfileResponse'`, used as a path, is the single key `INProfileResponse`. |
| ReportModel.DottedPath | backend/utils/xmlParser.js:43-63 | Splitting the dot-join of any of the nine fixed multi-key paths gives the path back. |
| ReportModel.CounterAbsent | backend/utils/xmlParser.js:55-62 | A counter whose path is absent is 0, the parsed default. |
| ReportModel.CounterDecimal | backend/utils/xmlParser.js:55-62 | A counter reads back the integer written in decimal at its path, negative ones included. |
| ReportModel.CounterNoDigits | backend/utils/xmlParser.js:55-62 | A counter whose text is empty or starts with a letter is NaN, not 0. |
| ReportModel.AbsentNumbersAreZero | backend/utils/xmlParser.js:51-63 | Each of the eight numeric fields is 0 when its whole path from the report root is absent. |
| ReportModel.SummaryReadsWholePaths | backend/utils/xmlParser.js:54-62 | Each summary field, read through the `summary` and `balance` nodes, is the counter at its whole path from the root. |
| ReportModel.NameProperties | backend/utils/xmlParser.js:43-44 | The name has no whitespace at either end. It is `''` when both parts are absent. It is `first + ' ' + last` for two unpadded non-empty string parts. |
| ReportModel.PanFromFirstAccount | backend/utils/xmlParser.js:47-49 | The PAN is `null` for an empty account list. Otherwise it is `Income_TAX_PAN` of the first account's holder details. |
| ReportModel.AddressKeyAt | backend/utils/xmlParser.js:80-85 | The key of account `i` is that account's own key: its trimmed joined address lines, present only when its address node is truthy and the trimmed lines are non-empty. |
| ReportModel.AddressEntryAt | backend/utils/xmlParser.js:86-91 | The candidate entry of account `i` is the entry built from that account's address node. |
| ReportModel.CollectAccounts | backend/utils/xmlParser.js:66-94 | The account loop returns the cards of the type-'10' accounts and the first-seen de-duplicated addresses. It returns the first TypeError if one is thrown. |
| ReportModel.CardsFailIff | backend/utils/xmlParser.js:69-78 | The card list fails exactly when some type-'10' account has a non-string `Subscriber_Name`, and then with that TypeError. |
| ReportModel.CardEntry | backend/utils/xmlParser.js:71-77 | A card has type `'10'` and the trimmed `Subscriber_Name`. Its amounts are 0 when absent. |
| ReportModel.AddressesDeduplicated | backend/utils/xmlParser.js:80-93 | The stored addresses are the entries of the accounts that first carry a non-empty key. They are in account order, and no two of those accounts share a key. |
| ReportModel.AddressesCoverKeys | backend/utils/xmlParser.js:80-93 | Every account with a key is represented by the earliest account with that key. No earlier account carries a kept key. |
| ReportModel.AddressKeyEdges | backend/utils/xmlParser.js:82 | The address key has no whitespace at either end. |
| ReportModel.AddressEntryNormalised | backend/utils/xmlParser.js:82-87 | `fullAddress` is non-empty, has no whitespace at either end and no whitespace run, uses only plain spaces, and keeps the key's text. |
| ReportModel.AddressEntryFields | backend/utils/xmlParser.js:83-90 | A city, state or zip present in a truthy address node is copied verbatim. An absent one is `null`. A non-null field is always the value found at its key. |
| ReportModel.AddressesNormalised | backend/utils/xmlParser.js:80-92 | Every stored address comes from a truthy address node with a non-empty key. |
| ReportModel.TwoAccounts | backend/utils/xmlParser.js:85-87 | Two accounts with different keys both store an entry, even when their `fullAddress`es coincide. With the same key, only the first is stored. |
| ReportModel.ExtractFails | backend/utils/xmlParser.js:69-78 | Extraction fails only with the TypeError. It fails exactly when a type-'10' account has a non-string `Subscriber_Name`. |
| ReportModel.ExtractSections | backend/utils/xmlParser.js:97-116 | A successful record holds the cards of the type-'10' filter, in order, each built from its account. It also holds the de-duplicated addresses and the first account's PAN. |
| ReportParser.ParseCreditReportXml | backend/utils/xmlParser.js:23-123 | The live function gives generic data for a falsy root, the extracted record otherwise, and "malformed" for every failure. |
| ReportParser.RootOfTree | backend/utils/xmlParser.js:29-32 | The root is missing exactly when the tree is falsy or its `INProfileResponse` member is absent or falsy. Otherwise the root is that member. |
| ReportParser.GenericIffNoRoot | backend/utils/xmlParser.js:29-38 | The result is generic exactly when the root is missing. The generic data is then the whole tree, unchanged. |
| ReportParser.OnlyMalformed | backend/utils/xmlParser.js:119-122 | The only error is "malformed". It arises exactly for an unparsable text, or for a present root with a type-'10' account whose `Subscriber_Name` is not a string. |
| ReportParser.ReportIsExtraction | backend/utils/xmlParser.js:40-118 | A non-generic result is the extraction of the truthy `INProfileResponse` member, and every successful extraction of it gives one. |
| LegacyReportParser.ParseCreditReportXml | backend/util/xmlParser.js:22-120 | The older function gives a missing-root error for a falsy tree or root, and otherwise the extracted record. It keeps the XML-syntax and TypeError errors as they are. |
| LegacyReportParser.MissingRootIff | backend/util/xmlParser.js:29-31 | The missing-root error arises exactly when the tree is falsy or its `INProfileResponse` member is absent or falsy. |
| LegacyReportParser.LegacyMatchesLive | backend/util/xmlParser.js:115-118 | The two copies agree except in how they report trouble. The older copy's syntax error is an unparsable text. Its missing-root error is the live copy's generic result. Its other errors are the live copy's "malformed". Both produce the same records. |

## Left out

- xml2js itself is not modelled. The parse is a parameter, `ParseOutcome`: a tree or a rejection.
- `async`/`await` is not modelled. The functions take the settled outcome.
- The `console.error` logging is not modelled.
- Error messages are modelled as error kinds, not text: `XmlSyntax`, `MissingRoot`, `NotAString` and `Malformed`.
- The older copy falls back to 'Failed to parse XML file.' when a message is empty. This cannot happen for the errors modelled, so it is not modelled.
- JsValues.ParseIntValue: numbers are unbounded integers. Double-precision rounding of very long digit runs is not modelled, and neither is parseInt's `-0`, which is modelled as 0.
- Numbers in the tree are modelled as integers only. xml2js yields strings, objects and arrays, and `null` for a blank document. The numbers the normaliser handles are its own integer defaults.
- JsValues.ToJsString: `String(obj)` is `"[object Object]"` for every object. In JavaScript the conversion throws a TypeError when the object has its own `toString` key, because that key is not callable and `valueOf` returns the object itself. xml2js creates such a key for a child element named `toString`. Such an element at a counter path, a name part or an address line, or inside an array there, makes `parseInt` (backend/utils/xmlParser.js:51-63, 75-76), the name template (:44) or the address template (:82) throw. The live copy then reports "malformed" (:119-121) and the older copy reports the TypeError. The model returns a record instead. So `ReportModel.ExtractFails`, `ReportParser.OnlyMalformed` and `LegacyReportParser.LegacyMatchesLive` are exact only for trees without an own `toString` key on the values converted to strings.
- JsValues.Member: property access reaches an object's own keys and an array's element indices only.
  - Prototype properties such as `length` or `toString` are absent.
  - Indexing into a string is treated as undefined. This is exact for this code: every key asked of a value is an XML element name, which is neither an index nor a string property, and `'0'` is asked only of the array `asArray` returns (backend/utils/xmlParser.js:47-48).
- Whitespace is the ECMAScript WhiteSpace and LineTerminator set for one fixed Unicode version. Later additions to the space separator category are not tracked.
- The extraction shared by both copies is written with the guarded lookup. `SafeAccess.LegacyLookupAgrees` shows it is the older lookup on every non-empty path, and every path read there is non-empty.
- The controllers, routes, database models, server set-up and frontend are not part of this model.
