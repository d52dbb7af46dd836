# copy-file-util, modelled in Dafny

copy-file-util copies or moves one file. Its core is the transfer
resolver `copyFile.cp(sourceFile, options)` in dist/copy-file.js. It takes
a source path and a settings bag (`cd`, `targetFile`, `targetFolder`,
`fileExtension`, `move`) and:

1. normalises the source and target paths;
2. derives the target folder, borrowing the source's file name when only a
   folder is given;
3. creates that folder with every missing parent;
4. picks at most one error from a fixed chain of checks and throws it with
   the tag `[copy-file-util] `;
5. otherwise copies or renames the file and returns
   `{ origin, dest, moved }`.

The command-line front end in bin/cli.js runs its own chain of argument
checks. It then fills the `{{pkg.<field>}}` placeholders of the target
from the package manifest. The target is passed as `targetFolder` when
`--folder` is given and as `targetFile` otherwise, and `cp` is called.

## Modules

- `values.dfy` (`Values`): optional values. This covers JavaScript
  truthiness for strings, and the text `null` or `undefined` takes when
  concatenated.
- `strings.dfy` (`Strings`): `split` and `join` on one separator
  character, with their round trips.
- `paths.dfy` (`Paths`): `path.normalize`, then `slash`, then the
  removal of one trailing '/'. Also `path.basename` and `path.dirname`. All
  of them work on '/'-separated segments.
- `copy_file.dfy` (`CopyFile`): the disk, the settings and the plan
  (`Resolve`). Also the error chain (`FirstFailure`), the specification
  function `Transfer` of one call, and `class FileSystem`, whose method
  `Cp` updates the disk in place and is proved equal to `Transfer`.
- `templates.dfy` (`Templates`): the manifest as a JSON tree, the dotted
  lookup, and the placeholder scan (`Tokenize`), with `Substitute` built
  on it.
- `cli.dfy` (`Cli`): the parsed arguments, the front end's error chain,
  the options it builds, and the method `Run` for the whole command.

The disk is a map from normalised path strings to entries: a file with
its bytes, or a directory. `cp` reads it through the existence and
file-type probes. It writes to it through the recursive `mkdir`, the copy
and the rename.

## Behaviour of the code that the model keeps

- `cp` has no overwrite option: its settings are `cd`, `targetFile`,
  `targetFolder`, `fileExtension` and `move` (dist/copy-file.js:10-16). A
  copy or move always replaces the target. The test suite runs the CLI
  with `--no-overwrite` (spec/mocha.spec.js:131-141), which bin/cli.js
  does not accept.
- The tag `[copy-file-util] ` is put in front of every error by `cp`
  itself (dist/copy-file.js:43), and by the CLI for its own argument
  errors (bin/cli.js:60-61).
- The CLI accepts only the flags `cd`, `folder`, `note` and `quiet`
  (bin/cli.js:32). It never passes `move` (bin/cli.js:63-66), so `Run`
  always copies. The test suite runs the CLI with `--move`
  (spec/mocha.spec.js:119-129), which bin/cli.js does not accept.
- The folder is created before the checks run (dist/copy-file.js:31-32).
  A call that then fails can leave new directories behind.
  `TransferFailure` states that these are the only change.

## Edge behaviours the proofs make explicit

- With no `cd`, a target file directly under the root, such as `/x`,
  has the dirname `/`, and `/` normalises to the empty string. The empty target folder
  counts as unwritable, so `cp` throws "Target folder cannot be written
  to: " with an empty folder name (`TransferRootTarget`).
- A target that is a single placeholder naming a manifest field that holds
  the empty string reaches `cp` as an empty target. `cp` then reports
  "Must specify a target file or folder.", although the CLI's own check
  had seen a target (`EmptyFieldLosesTarget`).
- A source path that normalises to "" is treated like a missing source by
  the existence probe. The error reported is "Source file does not
  exist: " followed by an empty name (`TransferRootSource`).
- An empty target file next to a target folder, as in
  `cp(src, { targetFile: '', targetFolder: 'x' })`, passes every check:
  both checks test truthiness (dist/copy-file.js:19-20). But `??` keeps
  the empty string (dist/copy-file.js:29), so the target is the start
  folder itself. With no `cd` that is the empty path, and the model
  records the copy there (`TransferEmptyTargetFile`). Node's
  `copyFileSync` would throw on that path instead; file-system errors are
  not modelled.

## Model

| member | source | states |
|---|---|---|
| Strings.SplitPieces | dist/copy-file.js:21 | no piece of a split holds the separator |
| Strings.JoinSplit | dist/copy-file.js:21 | joining the pieces of a split with the separator gives back the string |
| Strings.SplitNoSep | dist/copy-file.js:21 | a string without the separator splits into itself alone |
| Strings.SplitConcat | dist/copy-file.js:21 | splitting distributes over an occurrence of the separator |
| Strings.SplitJoin | dist/copy-file.js:21 | splitting a join of separator-free pieces gives back the pieces |
| Strings.JoinSnoc | dist/copy-file.js:21 | joining one more piece puts a separator and that piece at the end |
| Strings.Split | dist/copy-file.js:21 | JavaScript's `split` on one character: always at least one piece; its pieces and its inverse are stated by SplitPieces, JoinSplit and SplitJoin |
| Strings.Join | dist/copy-file.js:21 | JavaScript's `join` on one character; the inverse of Split by JoinSplit and SplitJoin |
| Paths.Normalize | dist/copy-file.js:21 | the normalised path never ends in '/', and is empty only for the empty or an absolute root-only path |
| Paths.NormalizeIdempotent | dist/copy-file.js:21 | normalising twice is normalising once |
| Paths.NormalizeEmpty | dist/copy-file.js:21 | the result is empty exactly for the empty path or a '/'-led path with no kept segment |
| Paths.NormalizeSkips | dist/copy-file.js:21 | a trailing "/" or "/." does not change the normalised path |
| Paths.NormalizeChild | dist/copy-file.js:21 | normalising `folder/name` puts the name inside the normalised folder |
| Paths.KeepNames | dist/copy-file.js:21 | the segments normalisation keeps are all names |
| Paths.KeepOfNames | dist/copy-file.js:21 | a sequence of names is kept whole |
| Paths.KeepConcat | dist/copy-file.js:21 | segment filtering distributes over concatenation |
| Paths.Keep | dist/copy-file.js:21 | the segments `path.normalize` keeps: empty and "." segments are dropped; never longer than its input, and stated by KeepNames, KeepOfNames and KeepConcat |
| Paths.JoinNames | dist/copy-file.js:21 | a join of names splits back into them and does not end in '/' |
| Paths.StripTrailing | dist/copy-file.js:26-27 | the result is a prefix of the path and keeps no trailing '/' beyond the first character |
| Paths.Basename | dist/copy-file.js:26 | the base name holds no '/' |
| Paths.Dirname | dist/copy-file.js:27 | the folder part is never empty ("." with no separator) |
| Paths.RootChild | dist/copy-file.js:27-28 | a name under the root has dirname "/", and "/" normalises to "" |
| Paths.InFolderParts | dist/copy-file.js:26-29 | an entry placed in a folder has that base name and that folder as its dirname |
| Paths.BasenameOfNormalized | dist/copy-file.js:26 | a normalised path other than "" and "." ends in a name |
| CopyFile.StartFolder | dist/copy-file.js:22 | the prefix is empty exactly when `cd` is not truthy, and otherwise ends in '/' |
| CopyFile.Defaults | dist/copy-file.js:10-16 | the defaults: no `cd`, target file, target folder or file extension, and `move` false; the CLI builds its options over them (OptionsTarget) |
| CopyFile.MissingTarget | dist/copy-file.js:19 | neither target key is truthy; used as the fifth check of the chain |
| CopyFile.AmbiguousTarget | dist/copy-file.js:20 | both target keys are truthy; used as the sixth check of the chain |
| CopyFile.Resolve | dist/copy-file.js:23-30 | the plan's existence and file-type flags agree with the disk, and there is no source without a truthy source file |
| CopyFile.ResolveSameSource | dist/copy-file.js:23-30 | the plan depends on the disk only through the entry at the source |
| CopyFile.Writable | dist/copy-file.js:33 | the negation of `badTargetFolder`: the target folder is truthy and exists after mkdir |
| CopyFile.MadeWritable | dist/copy-file.js:31-33 | after mkdir the target folder is writable exactly when it is truthy |
| CopyFile.FirstFailure | dist/copy-file.js:34-41 | the error reported is the first check in chain order that fails; there is none exactly when every check passes |
| CopyFile.Message | dist/copy-file.js:34-41 | the text of each check's error, with the source or the folder appended where the code appends them; TransferFailure ties it to the thrown message |
| CopyFile.MakeDirsEffect | dist/copy-file.js:31-32 | the recursive mkdir keeps every entry, makes the folder and all its parents, and adds only directories |
| CopyFile.MakeDirsKeeps | dist/copy-file.js:31-32 | creating the target folder keeps every existing entry |
| CopyFile.FolderInAncestors | dist/copy-file.js:31-32 | a non-empty folder is among the folders the recursive mkdir makes |
| CopyFile.MakeDirs | dist/copy-file.js:31-32 | `mkdirSync(folder, { recursive: true })`: its effect is stated by MakeDirsEffect |
| CopyFile.AfterMkdir | dist/copy-file.js:31-32 | the folder is made only when a target folder was derived; MakeDirsKeeps states that it keeps every entry |
| CopyFile.CopyTo | dist/copy-file.js:47 | `copyFileSync`: the target gets the source's entry; its effect inside `cp` is stated by TransferSuccess and TransferFrame |
| CopyFile.MoveTo | dist/copy-file.js:45 | `renameSync`: the target gets the source's entry and the source is gone; stated inside `cp` by TransferSuccess and TransferFrame |
| CopyFile.Execute | dist/copy-file.js:31-53 | every thrown message starts with the tag, and a successful call reports `moved` as asked and leaves an entry at the target |
| CopyFile.Transfer | dist/copy-file.js:9-54 | one call of `cp`: every thrown message starts with the tag, and a successful call reports `moved` as asked and leaves an entry at the target |
| CopyFile.ExecuteSucceeds | dist/copy-file.js:31-47 | for any plan that agrees with the disk, the call succeeds iff no extension is asked for, the source is an existing file, exactly one target is given and a folder was derived |
| CopyFile.TransferSucceeds | dist/copy-file.js:19-47 | `cp` succeeds iff no extension is asked for, the source names an existing regular file, exactly one target is given and a target folder was derived |
| CopyFile.TransferFailure | dist/copy-file.js:31-43 | a thrown message is the tag plus the first failing check's message; every entry is kept and only directories are added |
| CopyFile.TransferMakesFolders | dist/copy-file.js:31-32 | the target folder and its parents exist as directories afterwards, even when a check then fails |
| CopyFile.TransferSuccess | dist/copy-file.js:44-53 | when `cp` succeeds, the record names the source and the target, the target holds the source's content, a copy keeps the source and a move removes it |
| CopyFile.TransferFrame | dist/copy-file.js:31-47 | no path other than the source, the target and the folders made changes |
| CopyFile.ExecuteAgain | dist/copy-file.js:31-47 | a successful copy for a plan that agrees with the disk, run again on its own result, gives the same outcome and changes nothing |
| CopyFile.CopyIdempotent | dist/copy-file.js:44-47 | repeating a successful copy gives the same record and leaves the disk as it is |
| CopyFile.TransferNoTarget | spec/mocha.spec.js:99-104 | with an existing source file and no target key, `cp` throws "[copy-file-util] Must specify a target file or folder." |
| CopyFile.TransferNoSource | spec/mocha.spec.js:93-97 | without a source file, `cp` throws "[copy-file-util] Must specify the source file." |
| CopyFile.TransferRootTarget | dist/copy-file.js:27-40 | a target file `/name` throws "Target folder cannot be written to: " with an empty folder and leaves the disk unchanged |
| CopyFile.TransferRootSource | dist/copy-file.js:23-36 | the source "/" normalises to "" and `cp` throws "Source file does not exist: " with an empty name |
| CopyFile.TransferEmptyTargetFile | dist/copy-file.js:19-30 | an empty target file next to a target folder passes every check and copies to the empty path |
| CopyFile.NormalizeName | dist/copy-file.js:21 | a plain name, and ".", normalise to themselves |
| CopyFile.FolderModeTarget | dist/copy-file.js:26-30 | with only a target folder, the target is the source's base name inside the normalised folder, with that folder as its dirname |
| CopyFile.FileModeTarget | dist/copy-file.js:27-30 | with a target file ending in a name, the target is that name inside the normalised folder part of the target file |
| CopyFile.StartChild | dist/copy-file.js:22-30 | the start folder followed by a file path normalises to the base name inside the normalised folder part |
| CopyFile.StartChildOfName | dist/copy-file.js:22-30 | a target file without a '/' lands in the start folder |
| CopyFile.StartChildOfPath | dist/copy-file.js:22-30 | a target file `d/name` lands in the folder `d` under the start folder |
| CopyFile.InFolderNormalized | dist/copy-file.js:26-27 | an entry placed in a normalised folder has the name as its base name and the folder as its dirname |
| CopyFile.FileSystem.Cp | dist/copy-file.js:9-54 | the outcome and the new disk are those of `Transfer` on the old disk; a thrown call keeps every entry |
| Templates.BraceFreePrefix | bin/cli.js:65 | the brace-free prefix ends at the end of the text or at a brace |
| Templates.PrefixBraceFree | bin/cli.js:65 | that prefix holds no brace |
| Templates.TokenAt | bin/cli.js:65 | a token found starts with "{{" and its closing "}}" lies within the text |
| Templates.TokenAtBraceFree | bin/cli.js:65 | the expression of a found token holds no brace |
| Templates.TokenAtFinds | bin/cli.js:65 | "{{e}}" with a brace-free `e` at the front is found as a token ending after `e` |
| Templates.Tokenize | bin/cli.js:65 | the scan of `replace(/{{[^{}]*}}/g, …)`: its leftmost order is stated by TokenizeScan, the loss of no text by TokenizeRoundTrip |
| Templates.TokenizeScan | bin/cli.js:65 | each piece starts where the text of the pieces before it ends; a plain character is taken exactly where no match of `{{[^{}]*}}` starts, and a token exactly where one starts, ending at its first closing "}}" |
| Templates.Render | bin/cli.js:65 | the pieces with each token replaced by the value of its expression; it distributes over concatenation (RenderAppend) |
| Templates.Substitute | bin/cli.js:65 | the filled-in target: stated by SubstituteToken, SubstitutePlain and SubstituteNoToken |
| Templates.TokensBraceFree | bin/cli.js:65 | every token the scan yields has a brace-free expression |
| Templates.FirstPieceText | bin/cli.js:65 | the text is the first piece's text followed by the rest |
| Templates.TokenizeRoundTrip | bin/cli.js:65 | putting the scanned pieces back together gives the original text |
| Templates.SubstituteToken | bin/cli.js:39-65 | a leading token is replaced by its field value and the rest is substituted |
| Templates.RenderAppend | bin/cli.js:65 | rendering distributes over concatenation of pieces |
| Templates.RenderOfLits | bin/cli.js:65 | plain characters render as themselves |
| Templates.RenderLits | bin/cli.js:65 | plain characters in front render as themselves before the rest |
| Templates.TokenizePlain | bin/cli.js:65 | text without '{' is scanned character by character |
| Templates.SubstitutePlain | bin/cli.js:65 | text without '{' in front is kept as it is |
| Templates.TokenizeNoToken | bin/cli.js:65 | a text where no match of `{{[^{}]*}}` starts, even one holding "{{", is scanned character by character |
| Templates.SubstituteNoToken | bin/cli.js:65 | a text where no match of `{{[^{}]*}}` starts, such as "{{pkg.name}.html", is left unchanged by the replace |
| Templates.UnclosedNoMatch | bin/cli.js:65 | "{{e}" with a brace-free `e` opens with "{{" yet has no match, so it too is left unchanged |
| Templates.FieldOfPkg | bin/cli.js:39-40 | `pkg.<name>` reads the manifest's field `name`; null and undefined give the sentinel |
| Templates.FieldOutsidePkg | bin/cli.js:39-40 | an expression that does not start at `pkg` gives the sentinel "MISSING-FIELD-ERROR" |
| Templates.Get | bin/cli.js:39-40 | one step of the walk, `data[key]`: undefined unless `data` is an object holding `key`; stated by FieldOfPkg and FieldOutsidePkg |
| Templates.Lookup | bin/cli.js:39-40 | the dotted-path walk of the template library over `{ pkg: manifest }`, where null or undefined stops the walk; stated by FieldOfPkg and FieldOutsidePkg |
| Templates.Field | bin/cli.js:39-40 | `getPackageField`: the looked-up value as text, or "MISSING-FIELD-ERROR" for null or undefined; stated by FieldOfPkg and FieldOutsidePkg |
| Templates.FieldOfPkgText | bin/cli.js:39-40 | a text field of the manifest is read by `pkg.<name>` |
| Templates.SubstituteTextToken | bin/cli.js:65 | plain text, then a token, then the rest: the text is kept and the token replaced |
| Templates.SubstituteThree | bin/cli.js:65 | three tokens between plain texts are each replaced by their field values |
| Templates.ExampleShape | spec/mocha.spec.js:113 | for any manifest, the test's template becomes its three fields in place, with the text between them kept |
| Templates.ExampleTarget | spec/mocha.spec.js:112-116 | the test's target resolves to `target/module/copy-file-util-v<version>.html` |
| Cli.CliFailure | bin/cli.js:53-59 | the error reported is the first CLI check in order that fails; there is none exactly when all pass |
| Cli.CliMessage | bin/cli.js:53-59 | the text of each CLI error, with an absent third parameter shown as "undefined"; Run throws it with the tag |
| Cli.CliPasses | bin/cli.js:53-59 | when no CLI check fails, no flag is invalid, at most two parameters are counted, and the source and target are non-empty |
| Cli.CliOptions | bin/cli.js:62-66 | the options handed to `cp`; stated by OptionsTarget and PlainTargetKept |
| Cli.OptionsTarget | bin/cli.js:62-66 | the options carry `cd` and exactly one target key, chosen by `--folder`, so the target is never ambiguous and is missing only when the filled-in target is empty |
| Cli.PlainTargetKept | bin/cli.js:62-66 | a target where no match of the placeholder pattern starts reaches `cp` unchanged and is never missing |
| Cli.EmptyFieldLosesTarget | bin/cli.js:65 | a target that is a single placeholder for an empty manifest field makes `cp` throw "Must specify a target file or folder." |
| Cli.Run | bin/cli.js:53-67 | a failing CLI check throws the tag plus its message and leaves the disk alone; otherwise the outcome and disk are those of `cp` on the source and the built options |

## Left out

- Reporting (`reporter`, `printReport`, chalk colours, fancy-log) and the
  `--quiet` and `--note` flags are left out: they only print.
- The `duration` field and `Date.now()` are left out: clocks are not
  modelled, so `CopyResult` has no duration.
- Argument parsing by cli-argv-util is left out. Its output (`invalidFlag`,
  `invalidFlagMsg`, `paramCount`, `params`, `flagOn.folder`, `flagMap.cd`)
  is a parameter, `CliArgs`.
- Reading and parsing package.json is left out. The manifest is a
  parameter, a `Json` tree in which numbers and booleans are already text
  and arrays are objects keyed by index.
- Field lookup is modelled as a dotted path walk; anything the template
  library's `value` function does beyond that walk is left out.
- Templates.Get: properties inherited from `Object.prototype` are not
  modelled. `{{constructor}}` and `{{pkg.constructor}}` give
  "function Object() { [native code] }" in JavaScript, and
  `{{pkg.__proto__}}` gives "[object Object]"; the model gives the
  missing-field text for all of them.
- Templates.Get: a property of a text or array value, such as
  `pkg.name.length` or `pkg.keywords.length`, is not modelled. Arrays are
  objects keyed by index, so the lookup gives the missing-field text
  where JavaScript gives the length.
- Paths.Dirname: a path with exactly two leading slashes and one segment,
  such as "//a", has the dirname "/" in the model and "//" in Node's
  POSIX `path.dirname`. Both normalise to the same folder once the start
  folder is prepended, so `cp` does not see the difference.
- Templates.Field: an array field renders as "[object Object]", because
  arrays are modelled as objects. JavaScript joins an array's elements
  with ','.
- Paths.Normalize: ".." segments are kept literally, where
  `path.normalize` removes the folder before them. Backslashes are not
  turned into '/', which `slash` does. The model does neither.
- Paths.NormalizeChild, CopyFile.FileModeTarget and CopyFile.FolderModeTarget
  accept ".." as a name, since the model keeps ".." as a segment. So
  `d/..` is placed inside `d`, where Node gives ".".
- File-system exceptions are left out: permissions, a target inside a
  file, `mkdir` over an existing file, cross-device renames. Every `mkdir`,
  copy and rename succeeds in the model.
- Symbolic links, and the disk as a tree (a path whose parent is missing
  or is a file), are left out. The disk is a flat map from normalised
  paths.
- The `--move` and `--no-overwrite` flags that the test suite passes
  (spec/mocha.spec.js:119-141) are left out, because bin/cli.js does not
  accept them; an overwrite option does not exist in the code.
- Cli.Run: requires that an invalid flag comes with a non-empty message,
  as the argument parser always provides one. With an empty message no
  error is thrown: the chain's value is the empty string, the later checks
  are skipped, and the script goes on to call `cp`.
- CopyFile.TransferMakesFolders: does not state the case where a folder
  to be made is the target path itself. With `targetFile: "d/."` the
  target and the target folder are both "d". In the model the copy or
  move then replaces the directory "d" with a file. Node's `copyFileSync`
  and `renameSync` throw EISDIR there instead.
- CopyFile.TransferSuccess: does not state what a move does when the
  source and the target are the same path.
- CopyFile.CopyIdempotent: covers copies only. A successful move cannot
  be repeated, because its source is gone.
