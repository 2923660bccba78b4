# Java file icons: a verified model of the classifier and the theme reconciler

The VS Code extension gives each Java file an icon by its declaration kind.
It has two parts, both modelled here:

1. **Classifier.** `determineJavaFileType` removes comments with a single
   global regular-expression replace. It then tests four keyword patterns in
   a fixed order: `\binterface\s+\w+`, `\benum\s+\w+`,
   `\babstract\s+class\s+\w+` and `\bclass\s+\w+`. The first pattern that
   matches decides the kind. If none matches, the kind is UNKNOWN.
2. **Reconciler.** The extension keeps three path→icon mappings in the icon
   theme file: the default `fileNames`, `light.fileNames` and
   `highContrast.fileNames`.
   - The full rebuild (`updateJavaFileIcons` with `updateIconThemeFile`)
     classifies every Java file and replaces all three mappings at once.
   - The single-file update (`updateJavaFileIcon`) sets one path in all
     three mappings, creating a missing mapping first.

The project has these modules:

- `Patterns` (patterns.dfy)
  - Defines the character classes `\w`, `\s` and the line terminators.
  - Gives each keyword pattern twice. `MatchesAt`/`Matches` state what the
    regular expression accepts, with the backtracking of `\s+` written as an
    existential. `MatchAt`/`Test` are a greedy scanner, proved to agree
    with them.
- `Comments` (comments.dfy): the left-to-right comment removal. A block
  comment is a shortest match and may span lines. A line comment runs up
  to, but not including, the line terminator.
- `Classifier` (classifier.dfy): the `JavaFileType` datatype, the
  classifier, and lemmas on the order of the tests and on comments.
- `Icons` (icons.dfy): the kind→icon table. Both update paths use this
  one table.
- `Theme` (theme.dfy): the theme document and its two rewrites, one
  wholesale and one single-path.
- `Reconciler` (reconciler.dfy)
  - The rebuild loop (`BuildMappings`) and the specifications of the two
    operations.
  - The class `ThemeFile`, which holds the theme file on disk and offers
    the extension's three operations as methods.
- `Wrappers` (wrappers.dfy): `Option` and `Result`.

The following parts of the environment become explicit inputs:

- Each Java file is a `JavaFile`: its workspace-relative path and its read
  outcome (`Read(text)` or `Unreadable`).
- Whether a workspace folder is open is the flag `hasWorkspace`.
- The theme file is `Parsed(doc)` or `Unparsable`.
- The final write is a `WriteResult`. It either completes (`WriteDone`) or
  fails. If it fails before the file is opened (`WriteRefused`), the file
  is unchanged. If it fails after the file was truncated (`WriteTorn`),
  what remains is a proper prefix of the JSON text, which does not parse.

The theme document keeps its other members, and the other members of
`light` and `highContrast`, as pass-through JSON values.

Behaviours of the code worth noting:

- The single-file update writes the default class icon for an UNKNOWN
  file. It does not skip the file.
- A missing `light` or `highContrast` section is not repaired. Reading or
  assigning its `fileNames` throws, the exception is caught, and nothing is written. Only a
  missing `fileNames` inside a present section is created empty.
- The rebuild walks a list of files, not a set. When two files have the
  same path, the later one wins.
- When no workspace folder is open, the rebuild skips every file but still
  writes three empty mappings. The single-file update writes nothing in
  that case.

## Model

| member | source | states |
|---|---|---|
| `Patterns.MatchAt` | src/extension.ts:182-198 | The greedy scan of `k1\s+…\s+\w+` at an index succeeds exactly when the regular expression, with `\s+` backtracking, matches there |
| `Patterns.Test` | src/extension.ts:182-198 | `test` on the comment-free text is true exactly when some position has a `\b` word boundary followed by a match of the pattern |
| `Patterns.SkipSpaces` | src/extension.ts:182 | `\s+` scans to the end of the longest whitespace run; the character after it, if any, is not whitespace |
| `Patterns.TailPatternMatches` | src/extension.ts:192-197 | Where `abstract\s+class\s+\w+` matches, `class\s+\w+` matches too, with a word boundary before `class` |
| `Comments.FindClose` | src/extension.ts:179 | The lazy block-comment match stops at the first star-slash after the opening slash-star, which cannot be reused |
| `Comments.LineEnd` | src/extension.ts:179 | A line comment's `.*` stops at the first line terminator (LF, CR, U+2028, U+2029) or at the end of the text |
| `Comments.PlainPrefixKept` | src/extension.ts:179 | Text without a slash passes through comment removal unchanged, whatever follows it |
| `Comments.BlockCommentRemoved` | src/extension.ts:179 | A block comment is removed up to its first star-slash, line breaks included |
| `Comments.LineCommentRemoved` | src/extension.ts:179 | A line comment is removed up to, but not including, its line terminator |
| `Comments.StripComments` | src/extension.ts:179 | Comment removal never makes the text longer; what it removes is stated by the lemmas around it (weaker, see Left out) |
| `Comments.UnclosedBlockKept` | src/extension.ts:179 | A slash-star that is never closed is not a comment: it is kept, and comment removal carries on with the text after it |
| `Comments.LoneSlashKept` | src/extension.ts:179 | A slash followed by a character other than a star or a slash is kept, and comment removal carries on from that character |
| `Comments.FinalSlashKept` | src/extension.ts:179 | A slash at the end of the text is kept |
| `Classifier.DetermineFileType` | src/extension.ts:177-202 | The kind is the first of interface, enum, abstract class, class whose pattern matches the comment-free text, else UNKNOWN; each kind is characterised by an if-and-only-if |
| `Classifier.AbstractMatchIsClassMatch` | src/extension.ts:192-198 | Every text that the abstract-class pattern matches is also matched by the class pattern |
| `Classifier.AbstractNeverClass` | src/extension.ts:192-198 | A file whose comment-free text holds an abstract class declaration is INTERFACE, ENUM or ABSTRACT_CLASS, never CLASS |
| `Classifier.InterfaceDeclarationWins` | src/extension.ts:182-184 | A whole-word `interface`, whitespace and a word character make the file INTERFACE, whatever follows (any number of `class` declarations) |
| `Classifier.AbstractDeclarationWins` | src/extension.ts:192-194 | An `abstract class Name` declaration makes the file ABSTRACT_CLASS when the interface and enum patterns do not match |
| `Classifier.BlockCommentIgnored` | src/extension.ts:179-201 | Adding a block comment, whatever keywords it holds, does not change the kind |
| `Classifier.LineCommentIgnored` | src/extension.ts:179-201 | Adding a line comment, whatever keywords it holds, does not change the kind |
| `Classifier.CommentOnlyIsUnknown` | src/extension.ts:179-201 | A file that is one block comment is UNKNOWN, whatever declarations the comment holds |
| `Icons.IconFor` | src/extension.ts:71-89 | INTERFACE gives `_java_interface`, ENUM `_java_enum`, ABSTRACT_CLASS `_java_abstract`; CLASS and UNKNOWN, and only they, give `_java_class`; no other icon is ever produced |
| `Icons.IconsDistinguishKinds` | src/extension.ts:130-148 | Two kinds share an icon exactly when they are equal or both are CLASS/UNKNOWN |
| `Theme.ReplaceFileNames` | src/extension.ts:224-226 | The wholesale assignment fails exactly when `light` or `highContrast` is missing; otherwise the three mappings are the given ones and every other member is unchanged |
| `Theme.SetFileName` | src/extension.ts:151-164 | Fails exactly when a section is missing; otherwise all three mappings exist, the path maps to the icon in each, every other path is as before, and every other member is unchanged |
| `Theme.SetFileNameIdempotent` | src/extension.ts:162-164 | Setting the same path to the same icon twice gives the same document as once |
| `Theme.SetFileNameKeepsLockstep` | src/extension.ts:162-164 | If the three mappings were equal before the single-path update, they are equal after it |
| `Theme.SetFileNameInitialisesMissing` | src/extension.ts:151-159 | A missing `fileNames` in a present section is created; that variant then holds exactly the new entry |
| `Theme.ReplaceIdempotent` | src/extension.ts:224-226 | Replacing the mappings again with the same ones changes nothing |
| `Theme.ReplaceForgetsPrior` | src/extension.ts:224-226 | The result of the wholesale replace does not depend on the mappings the document had before |
| `Reconciler.IconMapping` | src/extension.ts:53-94 | The mappings the rebuild loop fills: empty when no workspace folder is open, and every value is one of the four icons |
| `Reconciler.IconMappingKeys` | src/extension.ts:58-99 | The rebuilt mapping's keys are exactly the paths of the files that were read; there are none when no workspace folder is open |
| `Reconciler.IconMappingValues` | src/extension.ts:71-94 | Each such path maps to its file's icon, unless a later file with the same path was also read |
| `Reconciler.UnreadableFileSkipped` | src/extension.ts:59-60 | A file that cannot be read is omitted from the rebuild as if it were absent; the rest of the rebuild goes on |
| `Reconciler.BuildMappings` | src/extension.ts:53-99 | The loop builds three equal mappings, each equal to the rebuild mapping of the files |
| `Reconciler.Replaced` | src/extension.ts:211-226 | An unparsable theme file aborts with ThemeUnreadable and a missing section with MissingSection; otherwise the result is the wholesale replace |
| `Reconciler.Rebuilt` | src/extension.ts:49-103 | A successful rebuild leaves the three mappings equal to the rebuild mapping and keeps every other member; the failures are the theme read and the missing section |
| `Reconciler.Upserted` | src/extension.ts:106-164 | The single-file update fails in source order (file read, theme read, workspace, section); on success it sets the path to the file's icon in every variant and leaves the rest as it was |
| `Reconciler.RebuildExact` | src/extension.ts:53-102 | After a rebuild, every variant maps exactly the paths of the files that were read, so earlier entries are dropped; each path carries its last file's icon |
| `Reconciler.RebuildIdempotent` | src/extension.ts:224-226 | Rebuilding again from the same files writes the same document |
| `Reconciler.UpsertIdempotent` | src/extension.ts:151-164 | Applying the same single-file update twice writes what applying it once writes |
| `Reconciler.UpsertKeepsLockstep` | src/extension.ts:162-164 | A single-file update on a document whose three mappings are equal keeps them equal |
| `Reconciler.ThemeFile.UpdateIconThemeFile` | src/extension.ts:205-236 | The stored document becomes the replaced one when the write completes. It becomes unparsable when the write fails after truncating the file. On every other failure it is unchanged. The outcome is Written exactly when the replace succeeded and the write completed. It is WriteFailed for a failed write, and otherwise the first failure, ThemeUnreadable or MissingSection |
| `Reconciler.ThemeFile.UpdateJavaFileIcons` | src/extension.ts:49-103 | The full rebuild writes the rebuilt document, leaves the stored one untouched, or leaves it unparsable after a torn write. The outcome is Written exactly when the rebuild succeeded and the write completed. It is WriteFailed for a failed write, and otherwise ThemeUnreadable or MissingSection |
| `Reconciler.ThemeFile.UpdateJavaFileIcon` | src/extension.ts:106-174 | The single-file update writes the updated document, leaves the stored one untouched, or leaves it unparsable after a torn write. The outcome is Written exactly when the update succeeded and the write completed. It is WriteFailed for a failed write, and otherwise the first failure in source order |

## Left out

- `activate`, `deactivate`, command registration, the file-system watcher
  and the subscriptions (src/extension.ts:18-46): these are editor glue.
  A deleted file is not observed; its entry remains until the next rebuild.
- `vscode.workspace.findFiles`, file reads, `path.relative`/`path.join`,
  `JSON.parse`, `JSON.stringify` and the file write are replaced by inputs.
  These inputs are the file list with read outcomes, the `hasWorkspace`
  flag, the parsed or unparsable theme file, and the write result.
  A written document is assumed to parse back to itself; member order in
  the written JSON is not modelled.
- The `workbench.action.refreshWindowTitle` command and console logging:
  these are advisory side effects with no effect on the state.
- `async`/`await` scheduling and concurrent watcher events: each operation
  is one sequential read-modify-write.
- JSON values of unexpected types are not modelled. `fileNames` is either
  absent or falsy (modelled as None) or a string-to-string mapping. A
  section is either an object or unusable (None). A `fileNames` that is a
  non-empty string, or a section that is an array, is outside the model.
- Text is a sequence of Unicode code points, whereas JavaScript strings are
  UTF-16 code units. Surrogates are neither word, whitespace nor
  line-terminator characters, so the patterns and the comment removal
  treat both representations alike.
- `Comments.StripComments`: its own contract states only that the text does
  not grow. The lemmas `PlainPrefixKept`, `BlockCommentRemoved`,
  `UnclosedBlockKept`, `LineCommentRemoved`, `LoneSlashKept` and
  `FinalSlashKept` each state one step of the left-to-right scan. Together
  they cover every way the remaining text can begin: empty, with text up to
  the next slash, with a closed or unclosed block comment, with a line
  comment, or with a slash that starts no comment.
- `Classifier.BlockCommentIgnored`: stated for a comment preceded by text
  without slashes. Text before it that has an unclosed comment, or ends in
  a slash, can change where the comment starts.
- `Classifier.LineCommentIgnored`: stated for a comment preceded by text
  without slashes, for the same reason.
- The sample files under test-java/ are not modelled as concrete inputs.
  `Classifier.InterfaceDeclarationWins` and
  `Classifier.AbstractDeclarationWins` cover the shapes of the declaration
  lines of `MyInterface.java` and `AbstractShape.java`.
