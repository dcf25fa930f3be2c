# AoE IV taunt guide: catalog filter and tactical-scout transcript

This project models the two pieces of logic in the Age of Empires IV taunt guide front end.

- **The catalog filter.** The taunt list shows the catalog records that match the search box and the selected category tab, in catalog order. A record matches the search when the decimal string of its id contains the search text, or its lower-cased text contains the lower-cased search text. It matches the tab when the tab is "All" or the record's category value equals the tab's. Module `Catalog` models this as the pure function `Filter`. Module `Text` models the JavaScript string operations the filter uses: `toString` of an integer, `toLowerCase` and `includes`.
- **The tactical-scout panel.** The panel keeps a transcript of chat bubbles, the text field and a loading flag. Module `Assistant` models `handleSend` in two parts, split at its one suspension point (the provider call):
  - `BeginSend` ignores a blank field or a send made while loading. Otherwise it appends the trimmed text as a user bubble, clears the field, sets loading and hands the prompt to the provider.
  - `CompleteSend` takes the provider's outcome, appends exactly one model bubble and clears loading. The bubble holds the response text, or "Tactical scouting failed." when that text is empty, or "Connection to command lost." when the call failed.

  The pure step functions `Begin` and `Complete` on a `ChatState` value specify the class `AssistantModal`. The class holds the component's three state variables as fields.
- **The records.** Module `Types` holds the five-member category enumeration with its string values, a taunt record and a chat message.

The provider call is an input to the model. Its outcome, a response whose text may be absent or a failure, is the parameter of `CompleteSend`. The catalog constant is a parameter of `Filter`.

The `CompleteSend` method requires `isLoading`. In the program, the code after the `await` only runs after an accepted send, and an accepted send has already set loading.

## Model

| member | source | states |
|---|---|---|
| Types.CategoryValue | types.ts:2-8 | each category stands for a non-empty, capitalised string value |
| Types.ParseCategory | types.ts:2-8 | a specification inverse of the enumeration's values (the enumeration itself has no reverse mapping): it gives category c exactly when c's value is the string |
| Types.Categories | types.ts:2-8 | the enumeration is a closed set of exactly five pairwise distinct members, listed in declaration order |
| Types.CategoryValueInjective | types.ts:3-7 | two categories have equal string values if and only if they are the same member |
| Types.RoleValue | types.ts:17-20 | a message role is the string "user" or "model" and nothing else |
| Text.Decimal | App.tsx:167 | the decimal numeral of an id is non-empty, all digits, and has no leading zero unless it is "0" |
| Text.IdString | App.tsx:167 | an id's string starts with '-' exactly when the id is negative, and the rest is digits |
| Text.DecimalRoundTrip | App.tsx:167 | reading back the decimal numeral of n gives n |
| Text.DecimalOfParse | App.tsx:167 | every canonical numeral is the decimal form of the number it denotes (the converse round trip) |
| Text.DecimalInjective | App.tsx:167 | distinct natural numbers have distinct decimal numerals |
| Text.IdStringInjective | App.tsx:167 | distinct ids have distinct id strings |
| Text.Lower | App.tsx:167 | lower-casing keeps the length, maps each upper-case ASCII letter to its lower-case letter (code point plus 32) and keeps every other character |
| Text.LowerIdempotent | App.tsx:167 | lower-casing twice is lower-casing once |
| Text.LowerSlice | App.tsx:167 | lower-casing commutes with taking a slice |
| Text.Contains | App.tsx:167 | `includes`: a prefix of the string is always contained, and a contained string is never longer than the string it is in (ContainsIff ties it to an occurrence at some index) |
| Text.ContainsIff | App.tsx:167 | `includes` holds exactly when the search text occurs in the string at some index |
| Text.LowerKeepsOccurrence | App.tsx:167 | a case-sensitive occurrence is still found after lower-casing both sides |
| Text.IsWhitespace | App.tsx:66-68 | the characters `trim` removes: exactly TAB, VT, FF, ZWNBSP, the Zs space separators (SP, NBSP, U+1680, U+2000-U+200A, U+202F, U+205F, U+3000), LF, CR, LS and PS, all of them in the Basic Multilingual Plane |
| Text.SkipBlanksForward | App.tsx:66 | from a start index, the scan passes only whitespace and stops at the first non-whitespace character or the end |
| Text.SkipBlanksBackward | App.tsx:66 | from an end index, the scan passes only whitespace and stops just after the last non-whitespace character or at the lower bound |
| Text.Trim | App.tsx:66-68 | the trimmed text is empty exactly when the input is all whitespace, and it starts and ends with non-whitespace |
| Text.TrimIsInfix | App.tsx:68 | the trimmed text is a contiguous piece of the input with only whitespace on either side |
| Text.TrimmedIsFixpoint | App.tsx:68 | a string without whitespace at its ends is left unchanged by trim |
| Text.TrimIdempotent | App.tsx:68 | trimming twice is trimming once |
| Catalog.Tabs | App.tsx:163 | the tabs are "All" followed by the five categories in declaration order: six distinct tabs, every category present |
| Catalog.Filter | App.tsx:165-171 | the visible list is no longer than the catalog, and every record in it is a catalog record that passes both rules |
| Catalog.SubsequenceShorter | App.tsx:166 | a subsequence is never longer than the list it is taken from |
| Catalog.MatchesSearch | App.tsx:167 | the search rule holds exactly when the search text occurs at some index of the id string, or the lower-cased search occurs at some index of the lower-cased text |
| Catalog.MatchesCategory | App.tsx:168 | the category rule holds exactly when the tab is "All" or the record is of the tab's category; comparing the string values is comparing the members |
| Catalog.Keep | App.tsx:169 | a record is kept exactly when it passes the search rule and the tab is "All" or of the record's category |
| Catalog.FilterMembership | App.tsx:166-169 | a record is shown exactly when it is in the catalog and (id string contains the search, or lower-cased text contains the lower-cased search) and the category rule holds |
| Catalog.FilterIsSubsequence | App.tsx:166 | the visible list is an order-preserving subsequence of the catalog |
| Catalog.FilterNoDuplicates | App.tsx:166 | as a multiset the visible list is contained in the catalog, so no record is duplicated or invented |
| Catalog.FilterCons | App.tsx:166 | a list's first record is shown first exactly when it passes both rules, followed by the filtered rest |
| Catalog.FilterConcat | App.tsx:166 | filtering a concatenation is the concatenation of the filtered parts |
| Catalog.FilterKeepsAll | App.tsx:166-169 | a list whose every record passes both rules is shown unchanged |
| Catalog.FilterEmptySearchAll | App.tsx:165-171 | an empty search on the "All" tab shows the whole catalog, in order |
| Catalog.FilterIdempotent | App.tsx:165-171 | filtering the visible list again with the same search and tab returns it unchanged |
| Catalog.FilterOnlyRefinesAll | App.tsx:168 | a category tab shows the "All" result for the same search, restricted to that category |
| Catalog.FilterCategoryNarrows | App.tsx:168 | a category tab shows only that category, as a subsequence of the "All" result, so never more records |
| Catalog.SearchFindsRecord | App.tsx:167 | searching for any text that equals a piece of a record's text up to ASCII letter case, or for any piece of its id string, shows that record on "All" |
| Catalog.GoodGameFoundByText | App.tsx:167 | taunt 7 "Good game" is found by "good" and by "GOOD" through the lower-cased text and search |
| Catalog.GoodGameFoundById | App.tsx:167 | taunt 7 is found by "7" through its id string |
| Catalog.GoodGameNotFoundByOther | App.tsx:167 | taunt 7 "Good game" is not found by "xyz" |
| Assistant.ReplyText | App.tsx:84-87 | the model bubble's text is never empty: the response text when present and non-empty, else "Tactical scouting failed.", and "Connection to command lost." on failure |
| Assistant.Begin | App.tsx:66-71 | a send is accepted exactly when not loading and the field is not all whitespace; rejected, nothing changes and no prompt goes out; accepted, exactly one user bubble with the trimmed text is appended, the field is cleared, loading is set, and the prompt is that trimmed text |
| Assistant.Complete | App.tsx:84-90 | completion appends exactly one model bubble whose text is the reply text for the outcome (never empty), keeps the field and clears loading |
| Assistant.AppendKeepsWellFormed | App.tsx:69 | appending a non-empty bubble of the role whose turn it is keeps the transcript invariant and flips the loading parity |
| Assistant.BeginPreservesWellFormed | App.tsx:65-71 | the first half of a send keeps the transcript invariant (alternating roles, loading exactly when a user bubble is unanswered, no empty bubble, user bubbles trimmed) |
| Assistant.CompletePreservesWellFormed | App.tsx:84-90 | completing an outstanding send keeps the transcript invariant |
| Assistant.AlternatingCounts | App.tsx:69 | in an alternating transcript, user bubbles outnumber model bubbles by one exactly when it ends with an unanswered user bubble, and are equal otherwise |
| Assistant.SingleFlight | App.tsx:66 | in a well-formed state, at most one request is outstanding and one is exactly while loading; a send made while loading changes nothing and issues no request |
| Assistant.RejectedSendIsNoOp | App.tsx:66 | a send with an all-whitespace field or made while loading changes nothing and issues no request |
| Assistant.AcceptedSendCycle | App.tsx:65-91 | a whole accepted send appends exactly [user bubble with the trimmed input, model bubble with the reply], leaves the field empty and loading cleared, and keeps the invariant |
| Assistant.AssistantModal.constructor | App.tsx:54-56 | a newly opened panel has an empty transcript, an empty field and is not loading, and satisfies the invariant |
| Assistant.AssistantModal.SetInput | App.tsx:141-142 | typing replaces the field's text and nothing else, also while loading |
| Assistant.AssistantModal.BeginSend | App.tsx:66-71 | the fields change exactly as Begin says, the returned prompt is Begin's, and the invariant is kept |
| Assistant.AssistantModal.CompleteSend | App.tsx:73-90 | the transcript gains exactly the one model bubble for the outcome, loading is cleared, the field is untouched, and the invariant is kept |

## Left out

- The provider call is not modelled: building the client from the environment key, the model name, the system instruction and the temperature 0.7. It is a foreign network library call, so only its outcome is modelled, as the parameter of CompleteSend.
- Text.Lower: lower-cases ASCII letters only. JavaScript's `toLowerCase` also maps non-ASCII letters, and full Unicode case mapping is not modelled.
- Text.IdString: formats integer ids exactly, as unbounded integers. Three outputs of `Number.prototype.toString` on a double are not modelled: the decimal forms of non-integral numbers; integers above 2^53 (`Number.MAX_SAFE_INTEGER`), which print their shortest round-trip digits (`2**64` prints as "18446744073709552000", where the model gives "18446744073709551616"); and exponent notation for magnitudes of 1e21 and above. The catalog's ids are small command numbers, far below 2^53.
- Strings are sequences of Unicode scalar values, not UTF-16 code units. Every character the trim rule treats as whitespace lies in the Basic Multilingual Plane, so trimming is unaffected.
- React's state hooks, the memoisation of the visible list and the real asynchronous scheduling are not modelled. The state is three plain fields, and a send is two explicit steps. Two sends raced from stale closures before a re-render fall outside the model.
- The catalog data (`TAUNTS` in `constants`) is not part of this model. `Filter` takes the catalog as a parameter.
- Rendering is not modelled: the category icons, the card colour map, the empty-result message, the loading dots and scroll-to-bottom. All of it is presentation with no state logic.
- The Taunt record's optional colour tag is carried but never interpreted. It only selects a card border.
