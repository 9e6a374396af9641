# laravel-semver-helper: changelog store and version bumper

This project models the core of laravel-semver-helper. The package keeps a JSON
changelog that maps version labels to lists of change descriptions, with the
pseudo-version `develop` holding the changes not yet released. Its `tag` console
command also bumps the version recorded in the `.semver` file.

The model has five modules:

- `ChangelogStore` (`changelog.dfy`) is the `Changelog` class.
  - The state is a `Log`: a map from label to list, plus the key order. A PHP array is both of these.
  - Pure step functions (`AddVersionOp`, `AddOp`, `TagOp`, `SortOp`) say what each operation does to a `Log`.
  - The class `Changelog` has the fields `entries` and `order`. Its methods update them in place, and each method's `ensures` ties the new state to the step function of the old state.
  - Composer's `VersionParser::normalize` and its version comparison are injected into the class as the consts `validVersion` and `versionLe`, as the PHP constructor injects them.
- `VersionSort` (`version_sort.dfy`) models Composer's `Semver::rsort`. It is a stable insertion sort over an abstract total preorder on labels.
- `VersionBumper` (`version_bumper.dfy`) models the pure parts of `TagVersionCommand`:
  - the allowed types;
  - the next version record;
  - PHP's `empty()`, under which "0" counts as empty;
  - the dotted form;
  - the `.semver` document, with readers that recover the record from both the dotted form and the document.
- `TagVersion` (`tag_version.dfy`) models `handle`.
  - `Release` is the whole run as a function, with the prompt's answers given in advance.
  - The method `Handle` performs it on a `Changelog` object and is proved equal to `Release`.
- `Decimal`, `Text` and `Wrappers` are helpers: decimal rendering of naturals, first index and line splitting, and `Option`.

### How `tag` merges

The docblock of `tag` (src/Changelog.php:93) says it tags the develop changes to a version, which reads like an append. Line 107, however, is `$this->changelog[$version] += $this->changelog['develop']`, and on PHP lists `+=` is a union by index, not an append. The model follows line 107 (`ListUnion`).

So tagging `develop = ["c"]` into a label that already holds `["x"]` leaves `["x"]`, and the pending change is lost. `ChangelogStore.TagIntoExistingLabel` proves this case. For a label that is new, or empty, the union equals the append.

## Model

| member | source | states |
|---|---|---|
| ChangelogStore.ListUnion | src/Changelog.php:107 | PHP list `+=`: the result is as long as the longer list; index i holds the left list's entry where it has one, otherwise the right list's |
| ChangelogStore.Remove | src/Changelog.php:108 | deleting a key from the key order: exactly the other keys remain, still distinct; a missing key changes nothing |
| ChangelogStore.RemoveAt | src/Changelog.php:108 | deleting a key at index k of distinct keys leaves the keys before and after it in their order |
| ChangelogStore.AddVersionOp | src/Changelog.php:131-139 | it succeeds iff the label is present, is "develop", or is a valid version; on success the label exists; a new label gets an empty list, goes last in the key order, and nothing else changes; on rejection the log is unchanged |
| ChangelogStore.AddOp | src/Changelog.php:84-90 | the same acceptance condition as addVersion; on success the change becomes the last entry of the label's list (a new label starts empty and goes last), and every other label keeps its list; on rejection the log is unchanged |
| ChangelogStore.FoldDevelop | src/Changelog.php:107-108 | once the label is present: "develop" is gone, the label holds the union of its list and the develop list, the other labels are untouched, and "develop" leaves the key order |
| ChangelogStore.TagOp | src/Changelog.php:98-111 | NoDevelop iff there is no "develop" (log unchanged); rejection iff develop exists and the label is new, not "develop" and not a valid version (log unchanged); otherwise "develop" is deleted, the label holds the union of its prior list and the develop list, other labels are unchanged, and the key order is the old one (plus the new label) without "develop" |
| ChangelogStore.SortedKeys | src/Changelog.php:146-156 | the new key order is a permutation of the old one with no duplicates, "develop" first when present, and the other labels never ascending under the comparator |
| ChangelogStore.SortOp | src/Changelog.php:144-158 | sort keeps every label's list, permutes the key order, puts "develop" first and the rest from highest to lowest version |
| ChangelogStore.Listed | src/Changelog.php:118-123 | the array `changelog()` returns and `save` encodes: each label of the key order paired with its list, in key order (ListedDecoded and DecodedListed relate it to load) |
| ChangelogStore.Decoded | src/Changelog.php:58-64 | load: the store holds exactly the file's labels, each with its list, in the file's order |
| ChangelogStore.ListedDecoded | src/Changelog.php:58-64 | listing a loaded changelog gives back the file's labels and lists in file order |
| ChangelogStore.DecodedListed | src/Changelog.php:71-75 | the listing written by save has distinct labels, and loading it gives back the same log |
| ChangelogStore.SaveLoadRoundTrip | src/Changelog.php:58-75 | save followed by load gives the sorted log, with the same labels and lists as before the save |
| ChangelogStore.SortIdempotent | src/Changelog.php:144-158 | sorting a sorted changelog changes nothing, so the repeated sorts in changelog() and save agree |
| ChangelogStore.TagTwiceWarns | src/Changelog.php:98-111 | after a successful tag there is no "develop", so a second tag only warns and leaves the log as it is |
| ChangelogStore.TagIntoExistingLabel | src/Changelog.php:106-108 | a label holding ["x"] tagged with develop ["c"] ends with ["x"], and the key order loses "develop" |
| ChangelogStore.TagDevelopDiscards | src/Changelog.php:106-108 | tagging "develop" itself deletes the develop list and changes nothing else |
| ChangelogStore.Changelog.constructor | src/Changelog.php:44-49 | a new store is empty and keeps the injected parser and comparator |
| ChangelogStore.Changelog.Load | src/Changelog.php:58-64 | the store's contents are replaced by the decoded file |
| ChangelogStore.Changelog.HasDevelop | src/Changelog.php:163-166 | true iff "develop" is a label of the store |
| ChangelogStore.Changelog.AddVersion | src/Changelog.php:131-139 | the status and the new fields are those of AddVersionOp on the old fields |
| ChangelogStore.Changelog.Add | src/Changelog.php:84-90 | the status and the new fields are those of AddOp on the old fields |
| ChangelogStore.Changelog.Tag | src/Changelog.php:98-111 | the status and the new fields are those of TagOp on the old fields |
| ChangelogStore.Changelog.Sort | src/Changelog.php:144-158 | the new fields are SortOp of the old fields |
| ChangelogStore.Changelog.Contents | src/Changelog.php:118-123 | changelog() sorts the store, then returns the sorted store's listing |
| ChangelogStore.Changelog.Save | src/Changelog.php:71-75 | save sorts the store, then hands over the sorted listing to be encoded |
| VersionSort.RSort | src/Changelog.php:148 | rsort returns a permutation of its input that keeps distinctness |
| VersionSort.RSortDescending | src/Changelog.php:148 | under a total preorder, rsort's output is never ascending |
| VersionSort.RSortOfDescending | src/Changelog.php:148 | an input that is already never ascending comes back unchanged, because the sort is stable |
| VersionSort.RSortIdempotent | src/Changelog.php:148 | sorting twice equals sorting once |
| Decimal.NatToDecimal | src/Console/TagVersionCommand.php:172 | an interpolated number is a non-empty run of decimal digits with no leading zero |
| Decimal.DecimalRoundTrip | src/Console/TagVersionCommand.php:159-161 | reading back a rendered number gives the number |
| VersionBumper.AllowedTypesNamed | src/Console/TagVersionCommand.php:10-15 | the allowed types are four, and exactly the names of the bump types major, minor, patch and dev |
| VersionBumper.PhpEmpty | src/Console/TagVersionCommand.php:174-178 | PHP's `empty()` on a string option: true for "" and for "0" |
| VersionBumper.ValidateType | src/Console/TagVersionCommand.php:200-205 | accepted iff the argument is one of major, minor, patch, dev; each accepted argument names exactly its bump type |
| VersionBumper.MakeVersion | src/Console/TagVersionCommand.php:217-226 | the record holds the three numbers, with "" in place of a null pre-release or metadata |
| VersionBumper.DevMetadata | src/Console/TagVersionCommand.php:144 | "develop" when the meta option is null, "" or "0"; otherwise the option followed by ".develop" |
| VersionBumper.TargetVersion | src/Console/TagVersionCommand.php:106-150 | major: +1 and minor and patch reset; minor: +1 and patch reset; patch: +1; dev: the same numbers. The new numbers are strictly greater iff the type is not dev. The pre-release is the option; the metadata is the option, or the develop metadata for dev |
| VersionBumper.Dotted | src/Console/TagVersionCommand.php:169-183 | dottedVersion: the three numbers joined by dots, then "-" and the pre-release and "+" and the metadata, each only when not `empty()` (DottedRoundTrip and DottedStartsWithDigit state what it means) |
| VersionBumper.DottedRoundTrip | src/Console/TagVersionCommand.php:169-183 | parsing the dotted form gives the record back, with a pre-release or metadata of "0" shown as "" (hidden by `empty()`), for a pre-release without '+' |
| VersionBumper.DottedStartsWithDigit | src/Console/TagVersionCommand.php:172 | a dotted version starts with a digit, so it is never the label "develop" |
| VersionBumper.SemverDocument | src/Console/TagVersionCommand.php:158-163 | the text saveVersion writes: "---", then the major, minor and patch numbers and the quoted pre-release and metadata, one per line (SemverDocumentLines and SemverDocumentRoundTrip state what it means) |
| VersionBumper.SemverDocumentLines | src/Console/TagVersionCommand.php:158-163 | the document is the six fixed lines, each ended by PHP_EOL, and splitting it gives exactly those lines |
| VersionBumper.SemverDocumentRoundTrip | src/Console/TagVersionCommand.php:158-163 | reading the `.semver` document gives back the record it was built from, when the pre-release and metadata hold no line feed |
| TagVersion.AddAll | src/Console/TagVersionCommand.php:95-100 | the prompt loop fails iff there are changes and the label is new, not "develop" and invalid; on failure, or with no changes, the log is unchanged; otherwise all changes are appended in order under the label and nothing else changes |
| TagVersion.Release | src/Console/TagVersionCommand.php:74-104 | handle as a function of the loaded changelog, the current record, the arguments and the prompt's answers: an invalid type aborts, otherwise it publishes the target version (Handle is proved equal to it; the lemmas below state its outcomes) |
| TagVersion.Publish | src/Console/TagVersionCommand.php:79-103 | everything after the type check: tag with the dotted version (a rejected label aborts), list, add the answers (a rejected label aborts), save the sorted changelog and build the `.semver` document |
| TagVersion.AddChanges | src/Console/TagVersionCommand.php:95-100 | the loop of add calls leaves the store and status that AddAll gives for the old store |
| TagVersion.Handle | src/Console/TagVersionCommand.php:74-104 | handle on the store gives the outcome of Release, and the saved listing is the store's final contents. An invalid type leaves the store untouched |
| TagVersion.UnknownTypeRejected | src/Console/TagVersionCommand.php:200-205 | a type argument outside the allowed types aborts with an invalid-type error |
| TagVersion.ReleaseOfType | src/Console/TagVersionCommand.php:76-79 | an accepted type goes on to publish the target version, with no changes when `--no-changes` is set |
| TagVersion.NoChangesSavesSortedTag | src/Console/TagVersionCommand.php:83-103 | with `--no-changes`, the saved changelog is the loaded one tagged with the new dotted version and sorted |
| TagVersion.AddAllToPresentLabel | src/Console/TagVersionCommand.php:96-99 | answers added under a label already present all succeed and are appended in order |
| TagVersion.TagThenSort | src/Console/TagVersionCommand.php:84-86 | tagging and then listing folds the develop list into the new label by union |
| TagVersion.FoldDevelopSteps | src/Console/TagVersionCommand.php:84-102 | after tag, listing, the adds and save, the labels are the old ones plus the new label minus "develop"; the new label holds the union followed by the answers, and other labels keep their lists |
| TagVersion.PublishSucceeds | src/Console/TagVersionCommand.php:83-103 | with pending changes and an accepted label, every step succeeds and the saved listing is the sorted result of the adds |
| TagVersion.ReleaseFoldsDevelop | src/Console/TagVersionCommand.php:83-103 | the run succeeds and writes the new version's document; loading the saved changelog gives exactly the old labels plus the new one, without "develop"; the new label holds the union of its prior list and the develop list followed by the answers, and every other label is unchanged |
| TagVersion.PublishWritesVersion | src/Console/TagVersionCommand.php:103 | a successful run writes a `.semver` document that reads back as the tagged version |
| TagVersion.ReleaseWritesTarget | src/Console/TagVersionCommand.php:74-104 | after a successful run, the `.semver` file reads back as the target version computed from the current one |

## Left out

- File access (`Filesystem::get`, `put`, `\File::put`, `config`, `base_path`) is not modelled. Load takes the decoded contents, and save returns the listing it would encode. JSON encoding and decoding are not modelled.
- A missing changelog file is not modelled. `Filesystem::get` throws for it (src/Changelog.php:56), and `handle` calls `load` without checking that the file exists (src/Console/TagVersionCommand.php:83), so the command then aborts. Invalid JSON is not modelled either: `json_decode` returns null and the store then holds null.
- ChangelogStore.Changelog.Load: requires distinct labels. JSON text may repeat a key, but `json_decode` keeps a single entry for it, so a decoded changelog never holds a label twice.
- The default label `'develop'` of `add` (src/Changelog.php:84) is not modelled: `AddOp` and `Changelog.Add` always take the label, and a caller passes `Develop` for the default.
- Composer's `VersionParser::normalize` is the parameter `validVersion`, because Composer is not part of this model. Its exception is the status `InvalidVersion`. Composer's comparison is the parameter `versionLe`, assumed to be a total preorder. `rsort`'s own normalisation, and its exception on a loaded label that is not a version, are not modelled.
- VersionSort.RSort: models `Semver::rsort` as a stable insertion sort over the comparator. Composer's own algorithm is not modelled, only its result for a total preorder.
- PHP's integer-like string keys and loose `==` comparison of keys are not modelled. Labels are plain strings.
- `\Log::warning` in `tag` is the status `NoDevelop`; the log message is not modelled.
- Console I/O is not modelled: `info`, the listing shown before the prompt, `confirm` and `ask`. The answers to the prompt are a parameter, and the listing call, which sorts the store, is kept.
- Reading the current `.semver` file through the YAML parser is not modelled. The current version is the parameter `current`. The model's reader of the document is a line reader of the fixed format, not a YAML parser.
- PHP_EOL is taken to be "\n".
- Integer overflow of PHP's 64-bit integers on `+ 1` is not modelled: version numbers are unbounded naturals.
- The `default` branch of `targetVersion`, which throws, is unreachable once `validateOptions` has passed, so bump types are a datatype with four values.
- VersionBumper.DottedRoundTrip: holds only for a pre-release without '+'. The dotted form cannot be split back otherwise, since '+' starts the metadata.
- VersionBumper.SemverDocumentRoundTrip: holds only for a pre-release and metadata without a line feed, since a line feed would break the six-line format.
- `ChangesListCommand`, `ChangesMakeCommand` and `ServiceProvider` are not part of this model. They are callers and wiring around the core.
