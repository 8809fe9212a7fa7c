# Veterans directory filter: a verified model

This project models the filtering and formatting core of a single-page
directory browser (`app.js`). The page loads a dataset of organization
records once. Each record maps field names to strings. The user picks a
category with a button and may then tick assistance types as checkboxes.

The page does three things with the selection:

- It lists the assistance types offered under the chosen category. These are
  the comma-separated pieces of each matching record's `Types of Assistance`
  field, trimmed, with blanks and repeats dropped, sorted.
- It filters the records. A record is kept when its `Categories` field
  contains the category, ignoring case. When types are ticked, at least one
  of them must also occur in its `Types of Assistance` field.
- It renders one block per kept record. The heading is the record's name in
  title case. Each non-blank field of a fixed list gets a line
  `"<field> – <value>"`. Web, mail, phone and address values are links.

Modules, in dependency order:

- `Wrappers`: the `Option` type, for the selected category that is `null`
  until a button is clicked.
- `Seqs`: elements, no-repeat and subsequence vocabulary.
- `Strings`: the JavaScript string built-ins the page relies on. These are
  ASCII `toLowerCase`/`toUpperCase`, `includes`, `trim` (ECMAScript
  whitespace), `split` on one character, and the sort.
- `Records`: records, and the `org[field] || ''` lookup.
- `TitleCase`: `toTitleCase`, stated as the regular-expression replace it is.
  It is proved equal to an independent one-character-at-a-time scanner.
- `Filtering`: the filter predicate as a function, with the source's loop and
  early returns as methods proved equal to it.
- `AssistanceTypes`: the derivation of the offered types, as the source's two
  nested loops plus the sort.
- `Rendering`: the view model of the results panel, which is a list of blocks
  with headings, ordered lines, link targets and a visibility flag.
- `App`: the page state as a class `Directory`. Its methods are the event
  handlers. Its invariant `Valid` ties the checkbox list to the selected
  category and the results panel to the current selection.
- `Scenarios` and `Walkthrough`: a one-record example dataset, browsed and
  proved. The record has with name "acme house", categories "Housing
  Support" and types "Rent, Utilities".

## Model

| member | source | states |
|---|---|---|
| `Strings.CaseMappingKeepsWhitespace` | app.js:198 | upper- and lower-casing one character keeps whitespace as whitespace; each mapping is idempotent; lower-casing an upper-cased character equals lower-casing it directly |
| `Strings.LowerIdempotent` | app.js:38 | lower-casing twice is lower-casing once |
| `Strings.IncludesIff` | app.js:38 | the left-to-right `includes` search succeeds exactly when the needle occurs at some position of the haystack |
| `Strings.IncludesEmpty` | app.js:38 | every string includes the empty string |
| `Strings.EmptyIncludesOnlyEmpty` | app.js:37-38 | the empty string, which a missing field reads as, includes only the empty string |
| `Strings.IncludesNeedsFirstChar` | app.js:94 | a string lacking the needle's first character does not include it |
| `Strings.TrimStartSpec` | app.js:41 | trimming the start removes the longest whitespace prefix: the result is a suffix, the dropped part is all whitespace, and the result does not start with whitespace |
| `Strings.TrimEndSpec` | app.js:41 | trimming the end removes the longest whitespace suffix, symmetrically |
| `Strings.TrimSpec` | app.js:41 | `trim` returns a contiguous part of its input between a whitespace prefix and a whitespace suffix, and that part neither starts nor ends with whitespace |
| `Strings.TrimIdempotent` | app.js:41 | trimming a trimmed string changes nothing |
| `Strings.TrimEmptyIff` | app.js:138 | `trim` yields the empty string exactly when the input is all whitespace |
| `Strings.Split` | app.js:40 | `split` always yields at least one piece |
| `Strings.SplitWithoutSeparator` | app.js:40 | a string without the separator splits into itself alone |
| `Strings.SplitAfterPiece` | app.js:40 | a separator-free piece followed by the separator is split off as the first piece |
| `Strings.SplitPiecesLackSeparator` | app.js:40 | no piece contains the separator |
| `Strings.SplitJoin` | app.js:40 | joining the pieces with the separator gives back the input, so splitting loses nothing |
| `Strings.LessEqTotal` | app.js:46 | the sort comparison relates any two strings in at least one direction |
| `Strings.LessEqAntisymmetric` | app.js:46 | strings related both ways are equal |
| `Strings.LessEqTransitive` | app.js:46 | the comparison is transitive |
| `Strings.Insert` | app.js:46 | inserting into a sorted list gives a sorted list with one more occurrence of the element and nothing else changed; it adds no repeat of a new element |
| `Strings.Sort` | app.js:46 | the result is sorted and a permutation of the input, and it is repeat-free when the input was |
| `Strings.StrictlySortedUnique` | app.js:46 | two sorted repeat-free lists with the same elements are equal, so the sorted type list is determined by its set of types |
| `TitleCase.WordCharIsNotWhitespace` | app.js:197 | a `\w` character is never whitespace, and case mapping keeps a character's `\w` status |
| `TitleCase.NonSpaceRun` | app.js:197 | the greedy `\S*` stops at the first whitespace character or at the end, and covers only non-whitespace |
| `TitleCase.Scan` | app.js:196-200 | the reference scanner writes one character per input character |
| `TitleCase.ScanAt` | app.js:196-200 | each output character of the scanner is decided by that input character and the scan state just before it |
| `TitleCase.TitleCaseIsScan` | app.js:196-200 | the global `\w\S*` replace with first-upper, rest-lower equals the one-character scanner on every string |
| `TitleCase.ScanChangesCaseOnly` | app.js:198 | the scanner keeps the length, the lower-cased text and the position of every whitespace character |
| `TitleCase.ScanIdempotent` | app.js:196-200 | scanning twice is scanning once |
| `TitleCase.TitleCaseChangesCaseOnly` | app.js:196-200 | `toTitleCase` changes nothing but letter case: same length, same lower-cased text, whitespace in place |
| `TitleCase.TitleCaseIdempotent` | app.js:196-200 | title-casing a title-cased heading changes nothing |
| `TitleCase.TitleCaseStartsMatch` | app.js:197-198 | a word character at the start or after whitespace is upper-cased |
| `TitleCase.TitleCaseContinuesMatch` | app.js:197-198 | a non-whitespace character after a word character is lower-cased |
| `TitleCase.TitleCaseKeepsWhitespace` | app.js:197 | whitespace is copied unchanged |
| `TitleCase.TitleCaseExample` | app.js:112 | "acme house" becomes "Acme House" |
| `Filtering.FilterMembership` | app.js:85-97 | a record is in the output exactly when it is in the data, its categories (missing = "") contain the category ignoring case, and either no type is selected or some selected type occurs in its types field (missing = "") ignoring case |
| `Filtering.FilterConcat` | app.js:85 | filtering a concatenation filters each part, so the filter never reorders |
| `Filtering.FilterIsSubsequence` | app.js:85 | the output is a subsequence of the data, with an explicit increasing index map |
| `Filtering.FilterLength` | app.js:85 | the output is no longer than the data |
| `Filtering.FilterIdempotent` | app.js:85-97 | filtering the output again with the same selection changes nothing |
| `Filtering.FilterTypesMonotone` | app.js:89-95 | once at least one type is ticked, ticking more never hides a record; and every record shown under a selection is also shown with no type ticked |
| `Filtering.MissingFieldMatchesOnlyEmpty` | app.js:86-94 | a record without `Categories` matches only the empty category, and one without `Types of Assistance` matches only the empty type, since a missing field reads as "" |
| `Filtering.EmptyCategoryMatchesAll` | app.js:87 | the empty category matches every record |
| `Filtering.AnyTypeIncluded` | app.js:93-96 | the `for … of` loop with its early return answers whether some selected type occurs in the field |
| `Filtering.KeepRecord` | app.js:85-97 | the arrow function with its early returns computes exactly the filter predicate |
| `Filtering.FilterRecords` | app.js:85-97 | one pass appending each kept record yields exactly the filter's output |
| `AssistanceTypes.TypeSetMembership` | app.js:36-44 | a type is collected exactly when some record whose categories contain the category lists it among its trimmed non-blank comma pieces |
| `AssistanceTypes.OfferedTypeIsTrimmedPiece` | app.js:36-44 | every offered type is non-empty and already trimmed, and is the trimmed form of a comma piece of a matching record's types field |
| `AssistanceTypes.OfferedTypeHasNoComma` | app.js:40-41 | no offered type contains a comma |
| `AssistanceTypes.TrimIsSlice` | app.js:41 | every character of a trimmed piece comes from the piece |
| `AssistanceTypes.OfferedTypesDetermined` | app.js:46 | any two sorted repeat-free lists of the offered types are the same list |
| `AssistanceTypes.MissingTypesOfferNothing` | app.js:39-42 | a record without `Types of Assistance` offers no type: the field reads as "", whose one piece is blank |
| `AssistanceTypes.PieceTypesSnoc` | app.js:40-42 | one more piece adds its trimmed form, if not blank, and nothing else |
| `AssistanceTypes.AddPieces` | app.js:40-42 | the inner `forEach` adds exactly the trimmed non-blank pieces to the set and keeps it free of repeats |
| `AssistanceTypes.CollectTypes` | app.js:34-46 | the outer scan and the sort produce a sorted, repeat-free list whose elements are exactly the offered types |
| `Rendering.RenderContent` | app.js:150-177 | the visible text is always the value; it is a link exactly for the six link fields; Website links to the value and Address to the maps-search prefix followed by the encoded value, both in a new context; Email and Contact Email link to `mailto:` + value and Phone and Contact Phone to `tel:` + value, in the same context |
| `Rendering.FieldLinesMembership` | app.js:136-138 | a line is written for a field exactly when it is in the list and the record has it with a value that is not all whitespace |
| `Rendering.FieldLineContents` | app.js:137-144 | each line's title is the field name followed by space, en dash, space, and its content shows the untrimmed value as `RenderContent` presents it |
| `Rendering.FieldLinesInOrder` | app.js:117-136 | the lines' fields are a subsequence of the fixed field list |
| `Rendering.RenderAll` | app.js:106 | one block per kept record |
| `Rendering.RenderBlocks` | app.js:106-186 | the render loop appends, for each kept record in order, that record's block |
| `Rendering.ShowResultsSpec` | app.js:76-103 | the panel is shown exactly when a non-empty category is selected, and is empty when hidden; it shows the message exactly when no record passes the filter; otherwise it shows one block per kept record, and a record has a block exactly when it passes the filter |
| `App.Directory.constructor` | app.js:3-5 | nothing loaded, no category, no type ticked, both containers hidden |
| `App.Directory.Load` | app.js:14-19 | the records are stored and the category buttons become live, with nothing else changed |
| `App.Directory.SelectCategory` | app.js:21-30 | a click after loading selects the category, unticks every type, offers exactly the category's types sorted without repeats (the container shown exactly when there is one) and hides the results; the data is unchanged; a click before loading changes nothing |
| `App.Directory.DisplayTypesOfAssistance` | app.js:32-54 | the checkbox list becomes the category's offered types, sorted without repeats, and is shown exactly when it is not empty |
| `App.Directory.ClearResults` | app.js:191-194 | the results list is emptied and hidden |
| `App.Directory.ToggleType` | app.js:64-68 | ticking adds exactly that type and unticking removes exactly it, the rest of the selection and the lists stay, and the panel then shows what the new selection yields |
| `App.Directory.FilterAndDisplayResults` | app.js:76-189 | the panel and its visibility become exactly what the selection yields, and it is empty whenever hidden |
| `Scenarios.AcmeIsHousing` | app.js:38 | "Housing Support" contains "Housing", ignoring case |
| `Scenarios.AcmePieces` | app.js:40 | "Rent, Utilities" splits into "Rent" and " Utilities" |
| `Scenarios.AcmeRecordTypes` | app.js:39-42 | the example record offers exactly "Rent" and "Utilities" |
| `Scenarios.AcmeTypeSet` | app.js:34-44 | under "Housing" the example offers exactly "Rent" and "Utilities" |
| `Scenarios.AcmeAvailableTypes` | app.js:46 | any sorted repeat-free list of those types is ["Rent", "Utilities"], so the checkbox list is exactly that |
| `Scenarios.AcmeShownWithoutTypes` | app.js:85-112 | with no type ticked the panel shows the one record, headed "Acme House" |
| `Scenarios.AcmeLines` | app.js:117-138 | the example's block has a line for `Types of Assistance` and for no other field |
| `Scenarios.AcmeShownAsRent` | app.js:93-94 | ticking "Rent" keeps the record |
| `Scenarios.AcmeFoodNotFound` | app.js:93-102 | ticking "Food" leaves only the "No organizations found." message, shown |
| `Scenarios.WebsiteLine` | app.js:152-157 | a Website line exists exactly when the value is not blank, and it links to the value itself, in a new context |
| `Walkthrough.AcmeSession` | app.js:24-67 | load the example, click "Housing", tick "Rent", click "Housing" again: the types offered are ["Rent", "Utilities"], the panel then shows one block headed "Acme House", and the second click leaves it hidden and empty |

## Left out

- Fetching and parsing the dataset (app.js:13-19): network I/O and the JSON parser. `Load` takes the parsed records as a sequence. A failed fetch leaves the page unloaded, which is the model's state before `Load`. Nothing further is modelled.
- Non-string JSON values. Records are maps from strings to strings. A falsy value (`0`, `false`, `null`) reads as `''` through `|| ''` (app.js:37, 39, 86, 91, 112) or is skipped by `content &&` (app.js:138), which is what the model does for a missing field. A truthy non-string (a non-zero number, `true`, an object) would reach `.toLowerCase`, `.split`, `.trim` or `.replace` and throw; the model has no such values.
- DOM construction, `innerHTML`, `style.display` and handler wiring (app.js:7-11, 49-73, 106-114, 139-185). These are reduced to a view model: heading, ordered lines with titles, link text, `href` and new-context flag, and visibility booleans. The message is literal HTML (`<p>…</p>`) in the source and plain text in the model. The page's initial visibility comes from its markup, which is not part of this model; the model assumes both containers start hidden.
- A category button without a `data-category` attribute. `selectedCategory` would then be `undefined`, and the types derivation would throw as soon as it reaches a record, since `selectedCategory.toLowerCase()` runs once per record (app.js:36-38); with no records loaded nothing throws. The model's `SelectCategory` takes a string.
- `encodeURIComponent` (app.js:168), a host built-in. It is the `encode` parameter, stored in the `Directory`. Only "the maps prefix followed by the encoded value" is stated.
- `Strings.Lower`: the JavaScript case mappings are modelled on ASCII letters only. Full Unicode case mapping depends on tables and can change a string's length. The same restriction applies to `UpperChar` in `toTitleCase` (app.js:198).
- `Strings.Sort`: `localeCompare` (app.js:46) is locale-dependent. The model sorts by code-point lexicographic order, a total order, so "sorted" means sorted under that order. `AssistanceTypes.CollectTypes` carries the same restriction.
- `Strings.Sort`: the engine's sorting algorithm is not modelled. An insertion sort stands in for it. All sorts agree here, because the list sorted is repeat-free and the order is total and antisymmetric.
- `TitleCase.IsWordChar`: `\w` is the ASCII class `[A-Za-z0-9_]`, which is what a JavaScript regular expression without the `u` and `i` flags matches.
- The JavaScript `Set` of collected types keeps insertion order. It is modelled as a repeat-free sequence built by appending. Ticked types are modelled as a `set`, since the filter only asks whether some ticked type matches.
- The `else contentSpan.textContent = content` branch inside the link case (app.js:174) cannot be reached. Each of the six link fields sets `link`. The model has no such branch, and `RenderContent` states that every link field yields a link.
- The field list is the one at app.js:117-134, which starts with `Veteran Resources`.
