# Identifier cross-reference for the Skitscript editor extension

This project models the two editor providers of the Skitscript VS Code
extension (`index.ts`) and proves what they promise. Both work over the
identifier instances that the Skitscript parser reports for a document.

- The **rename provider** has two requests. `provideRenameEdits` trims the new
  name and refuses it unless it is a valid identifier. It then parses the
  document and finds the instance under the cursor. Last, it records one
  replacement in a `WorkspaceEdit` for every instance with the same `type` and
  `normalized`. `prepareRename` returns the range and verbatim text of the
  instance under the cursor.
- The **reference provider** returns the group of the instance under the
  cursor. With `includeDeclaration` it returns the whole group. Without it, it
  returns two buckets: the implicit declarations after the first, then the
  references.

Modules, one file each:

- `Wrappers` (`wrappers.dfy`): `Option`. `None` stands for the providers' `null`.
- `Seqs` (`seqs.dfy`): `filter`, `map` and `slice(1)` as functions on sequences, with what they keep and in what order.
- `Text` (`text.dfy`): `String.prototype.trim` over the ECMAScript whitespace and line-terminator characters.
- `Occurrences` (`occurrences.dfy`): the identifier instances (`Occ`), the parse result, the editor's positions, ranges and locations. It also holds the three shared pieces: the cursor locator, the identity grouping and the range conversion.
- `Rename` (`rename.dfy`): `provideRenameEdits`, as a method whose loop fills a `WorkspaceEdit` object, and `prepareRename`, as a function.
- `References` (`references.dfy`): `provideReferences`, as a function.
- `Consistency` (`consistency.dfy`): how the rename and reference answers relate.
- `Scenarios` (`scenarios.dfy`): the expected answers of the unit tests, on the documents those tests use.

Naming: the parser's `type` field is `kind` here, because `type` is a Dafny
keyword. Its `context` field is `role`.

The parser (`parse`) and the validity check (`identifierIsValid`) are foreign
calls to the Skitscript parser package. They are parameters of type
`string -> Parsed` and `string -> bool`, so every property holds for any parser
and any validity check. The document's text and URI are parameters too. The
URI is passed through unchanged.

The cursor locator: a 0-based cursor `(line, character)`
touches an instance when `line + 1` is its line and its inclusive 1-based span
`fromColumn..toColumn` contains `character + 1`. The locator has no slack at
either edge: `fromColumn <= column && toColumn >= column` (index.ts:47-48).
The tests at unit.ts:335-360 and 588-614 expect `null` one column past the end.

## Model

| member | source | states |
|---|---|---|
| `Occurrences.Touches` | index.ts:44-49 | No ensures. It is the `find` callback: same line, and `fromColumn <= column <= toColumn`. Its properties are in `Occurrences.Locate`, `Occurrences.LocateFindsFirst` and `Occurrences.RangeMatchesTouches`. |
| `Occurrences.Locate` | index.ts:41-49 | The result is `None` exactly when no instance is under the cursor. Otherwise it is the first instance in document order under the cursor: on line `pos.line + 1`, with `fromColumn <= pos.character + 1 <= toColumn`. |
| `Occurrences.LocateFindsFirst` | index.ts:98-106 | The converse: if instance `i` is under the cursor and no earlier one is, the locator returns instance `i`. |
| `Occurrences.Group` | index.ts:153-157 | No ensures. It is the filter on `type` and `normalized`, which the rename loop applies at index.ts:57-61. Its properties are in `Occurrences.GroupMultiplicity`, `Occurrences.GroupStep` and `Occurrences.GroupOfMember`. |
| `Occurrences.GroupMultiplicity` | index.ts:56-61 | An instance is in the group iff it shares the target's `type` and `normalized`. It appears there exactly as often as in the document, and instances with a different `type` or `normalized` never appear. |
| `Occurrences.GroupStep` | index.ts:153-157 | Grouping a suffix of the document takes the next instance iff it shares the target's identity, and so keeps document order. |
| `Occurrences.GroupOfMember` | index.ts:153-157 | Grouping is closed: every member of a group has that same group. |
| `Occurrences.LocatedInOwnGroup` | index.ts:44-61 | The instance found under the cursor is in its own group. |
| `Occurrences.ToRange` | index.ts:62-72 | The 0-based range of a span starts and ends on line `line - 1`. Its width is `toColumn - fromColumn + 1`. |
| `Occurrences.RangeMatchesTouches` | index.ts:111-117 | A cursor touches an instance iff it sits on the converted range's line at a character in `[start, end)`. The cursor just before the range and the one at its exclusive end touch nothing. |
| `Seqs.Filter` | index.ts:153-157 | `filter` keeps exactly the elements that satisfy the predicate, each as often as in the input. |
| `Seqs.FilterConcat` | index.ts:162-169 | `filter` keeps order: the filter of a concatenation is the concatenation of the filters. |
| `Seqs.FilterHead` | index.ts:162-166 | The first element a filter keeps is the earliest element of the input that satisfies the predicate. |
| `Seqs.DropFirst` | index.ts:166 | `slice(1)`: the input without its first element, and empty stays empty. Each element's count drops by one for the first element only. |
| `Seqs.Map` | index.ts:173-188 | `map` gives one result per element, position by position. |
| `Text.Trim` | index.ts:35 | No ensures. It is `newName.trim()`. Its properties are in `Text.TrimIsWhitespaceStripped`, `Text.TrimIdempotent` and `Text.TrimRemovesPadding`. |
| `Text.TrimStart` | index.ts:35 | The result is the suffix that starts at the first non-whitespace character. Everything dropped is whitespace. |
| `Text.TrimEnd` | index.ts:35 | The result is the prefix that ends at the last non-whitespace character. Everything dropped is whitespace. |
| `Text.TrimIsWhitespaceStripped` | index.ts:35 | `trim` returns a contiguous piece of the input. Only whitespace is cut away on either side, and the result neither starts nor ends with whitespace. |
| `Text.TrimIdempotent` | index.ts:35 | Trimming twice is the same as trimming once. |
| `Text.TrimStartDropsPadding` | index.ts:35 | Leading whitespace before a text that does not start with whitespace is exactly what the start trim removes. |
| `Text.TrimEndDropsPadding` | index.ts:35 | Trailing whitespace after a text that does not end with whitespace is exactly what the end trim removes. |
| `Text.TrimRemovesPadding` | index.ts:35 | Whitespace padding around a text with non-whitespace ends is exactly what `trim` removes. |
| `Rename.RenameEdits` | index.ts:27-86 | No ensures. It is the replacements `provideRenameEdits` records, or `None` for `null`, as a function. Its properties are in `Rename.RenameRejectsInvalidName`, `Rename.RenameNullCases`, `Rename.RenameEditsComplete` and `Rename.RenameNameIsTrimmed`. `Rename.ProvideRenameEdits` is proved against it. |
| `Rename.ScannedEditsAreGroupEdits` | index.ts:56-76 | Scanning the instances in order and recording a replacement for each group member gives exactly one replacement per group member, in document order. |
| `Rename.WorkspaceEdit.constructor` | index.ts:54 | A new workspace edit holds no replacements. |
| `Rename.WorkspaceEdit.Replace` | index.ts:64-74 | `replace` appends one replacement and touches nothing else. |
| `Rename.BuildEdit` | index.ts:54-78 | The loop returns a fresh workspace edit that holds one replacement per group member of the target, in document order. Each replacement covers the member's converted range and carries the name. |
| `Rename.ProvideRenameEdits` | index.ts:27-86 | The method returns `None` exactly when the rename specification does. Otherwise it returns a fresh edit whose replacements are the specified ones. |
| `Rename.RenameRejectsInvalidName` | index.ts:35-37 | If the trimmed name is invalid, the result is `null` whatever the parse and the cursor. |
| `Rename.RenameNullCases` | index.ts:37-85 | Edits are produced iff the trimmed name is valid, the parse is valid and an instance is under the cursor. |
| `Rename.RenameEditsComplete` | index.ts:56-76 | There is one replacement per group member of the target, in document order. Each has that member's converted range, the URI and the trimmed name. Every replacement covers an instance of the target's identity, and the target's own span is among them. |
| `Rename.RenameNameIsTrimmed` | index.ts:35 | Every replacement carries the trimmed name, which has no whitespace at either end. |
| `Rename.PrepareRename` | index.ts:88-124 | No ensures. It is `prepareRename`, with `None` for `null`. Its properties are in `Rename.PrepareRenameSpec` and `Rename.PrepareAgreesWithRename`. |
| `Rename.PrepareRenameSpec` | index.ts:95-123 | `prepareRename` answers iff the parse is valid and an instance is under the cursor. It returns that instance's converted range, which contains the cursor, and its `verbatim` text. |
| `Rename.PrepareAgreesWithRename` | index.ts:37-123 | Whenever the rename yields edits, `prepareRename` answers too, and its range is one of the replaced ranges. |
| `References.ProvideReferences` | index.ts:128-193 | No ensures. It is `provideReferences`, with `None` for `null`. Its properties are in `References.ReferencesNullCases`, `References.ReferencesWithDeclaration` and `References.ReferencesWithoutDeclaration`. |
| `References.Selection` | index.ts:159-171 | No ensures. It is the choice of instances: the whole group, or the two buckets. Its properties are in `References.SelectionPartition`, `References.SelectionDropsEarliestImplicit`, `References.SelectionLength` and `References.SelectionIsNotDocumentOrder`. |
| `References.ReferencesNullCases` | index.ts:137-151 | The provider answers iff the parse is valid and an instance is under the cursor. |
| `References.ReferencesWithDeclaration` | index.ts:153-157 | With `includeDeclaration`, the answer is one location per group member, in document order, and includes the target's own location. |
| `References.ReferencesWithoutDeclaration` | index.ts:159-188 | Without `includeDeclaration`, the answer has `max(#implicit - 1, 0) + #reference` locations. Each location is a group member's converted range, and no member is a declaration. |
| `References.SelectionPartition` | index.ts:159-171 | Without `includeDeclaration`, the selection keeps every reference and every implicit declaration but the first, each exactly as often as in the group. It drops every declaration. |
| `References.SelectionDropsEarliestImplicit` | index.ts:162-166 | The implicit declaration that is dropped is the earliest one in document order. |
| `References.SelectionLength` | index.ts:160-170 | The selection has `max(#implicit - 1, 0) + #reference` elements. |
| `References.SelectionIsNotDocumentOrder` | index.ts:160-170 | The two buckets are concatenated, not merged: a later implicit declaration comes before an earlier reference. |
| `Consistency.ReferencesMatchRenameRanges` | index.ts:56-76 | When a rename yields edits, find-references with declarations on the same cursor lists exactly the replaced ranges, in the same order. |
| `Scenarios.TrimmedNewName` | unit.ts:379 | The test's new name trims to `Example Identifier C`. |
| `Scenarios.RenameCursorOnBackgroundB` | unit.ts:456-501 | On the rename test document, every cursor from the first character `(4, 10)` to the last `(4, 29)` of the background B on line 5 locates it. The last one fixes the inclusive right edge. |
| `Scenarios.RenameOnBackgroundB` | unit.ts:362-501 | The cursors `(4, 10)`, `(4, 24)` and `(4, 29)`, and every one between them, give the three replacements the tests expect. The character of the same name is left alone. |
| `Scenarios.RenameJustOutsideIdentifier` | unit.ts:308-360 | The cursors `(4, 9)` and `(4, 30)`, one before and one after the span, give `null`, for both rename requests. |
| `Scenarios.RenameUnparsable` | unit.ts:281-306 | A document that does not parse gives `null`, for both rename requests. |
| `Scenarios.RenameInvalidName` | unit.ts:503-528 | An invalid name gives `null`, even with the cursor on an identifier. |
| `Scenarios.PrepareOnBackgroundB` | unit.ts:616-709 | `prepareRename` at `(4, 10)`, `(4, 24)` or `(4, 29)`, or any cursor between them, offers the range `(4, 10)-(4, 30)` and the placeholder `Example Identifier B`. |
| `Scenarios.ReferencesOnDeclaration` | unit.ts:836-872 | On the declaration of label A, the answer is its two references without declarations, and all three instances with them (unit.ts:1255-1295). |
| `Scenarios.ReferencesOnImplicitDeclaration` | unit.ts:1064-1096 | On the first implicit declaration of emote A, the answer is only the later implicit declaration without declarations, and both instances with them (unit.ts:1507-1543). |

## Left out

- `activate` and provider registration (index.ts:196-206), the document selector (index.ts:21-24) and the optional loading of the `vscode` module (index.ts:16-19) are host plumbing.
- `parse` and `identifierIsValid` are foreign calls. They are function parameters with no properties assumed.
- The cancellation token and the reference context's other fields are never used (index.ts:33, 93, 134-135). The model takes only `includeDeclaration`.
- The host's `Range`, `Position`, `Location` and `WorkspaceEdit` are reduced to the data the providers put in them. `WorkspaceEdit` is a class holding a list of replacements.
- `Text.Trim` covers the ECMAScript WhiteSpace and LineTerminator characters as listed in `Text.IsWhitespace`. No Unicode database is consulted.
- JavaScript numbers are unbounded integers here. Lines and columns never come near 2^53.
- Go-to-definition is not modelled. The unit tests exercise a definition provider and expect three registered providers (unit.ts:236-246, 1624-2066). `index.ts` registers two and defines no definition provider, so there is no code to model.
- `index.ts` defines only the rename and reference providers.
- The scenario documents are given as the identifier instances they are read to parse to, because the parser is not part of this model. Each normalized key is reduced to the letter that tells the identifiers apart.
