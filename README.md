# kebab-ify-files, modelled in Dafny

`kebab-ify` renames the files and folders of a JavaScript source tree from
camelCase and PascalCase to kebab-case. It then rewrites the module paths in
`import`, `from` and `require(` references to match. One run of `cli.js` does
four things:

1. **Status gate** (cli.js:58-86). It asks `git status` for the working
   tree.
   - An error that does not mention "not a git repository" aborts the run.
   - That one error switches git mode off.
   - Any row that is a rename or copy (`from` set), or that has work-tree
     status `M`, makes the tree dirty and aborts the run.
2. **Pass 1, the rename plan** (cli.js:89-130). It walks every file and
   pushes `mv` commands onto `gitcommands`, remembering each directory it
   moved in the `paths` object:
   - each ancestor directory whose own name has an upper-case letter is
     lower-cased, once, in one direct move;
   - the file's directory is moved once, from its `fixpath` form to the
     kebab form of its whole path;
   - the file is moved to its kebab name inside the kebab directory.

   A move of the file's directory or of the file whose destination has no
   `-` goes through a `.temp-rename` name; an ancestor move is always one
   direct move. `!paths[k]` is modelled as JavaScript evaluates it, so the names
   every object inherits from `Object.prototype` (`constructor`,
   `toString`, …) count as already known.
3. **The script** (cli.js:139-156). The header and every command are
   prefixed with `git ` in git mode. The run aborts with "No files or
   folders to rename" when nothing beyond the header was planned.
4. **Pass 2, the reference rewrite** (cli.js:162-185). Every line is matched
   against `/(import\s+|from\s+|require\()['"](.*)['"]/`:
   - the match is leftmost, and `.*` is greedy up to the last quote before
     a line terminator;
   - the line is rewritten, and the file marked dirty, when `m[1]` differs
     from the kebab form of `m[2]`, exactly as line 173 compares them;
   - a dirty file is written back and recorded in `fixedfiles`.

The modules follow that structure:

- `Text`: ASCII letter classes, `toLowerCase`, and JavaScript
  `split`/`join` on one separator, with their round trips.
- `Naming`: `camelCaseToKebab`, `splitpath` and `fixpath`, with lemmas on
  the normal form they produce.
- `Failures`: the three ways a run aborts, and `Result`/`Option`.
- `GitStatus`: the dirty-row filter, a loop, and the status gate.
- `Planner`: the plan state as a value. `Step` is one file and `PlanAll`
  the walk.
  - The class `RenamePlanner` holds the mutable `paths` object (its keys
    in insertion order) and `gitcommands`.
  - Its methods are proved to compute exactly `Step` and `PlanAll`.
- `PlannerFacts` and `PlanProperties`: what the plan promises.
  - The state invariant.
  - Which ancestors are moved, and in which order.
  - The one-or-two-move rule.
  - First-seen-wins.
  - When the run has nothing to rename.
  - The shape of the script.
- `Rewriter`: an explicit matcher for the regular expression, proved
  against a declarative statement of what the expression matches. Also the
  line rewrite, the text rewrite and the loop over the source files, each
  as a method proved equal to its specification function.
- `Kebabify`: one run, with the gate, pass 1, the script and pass 2 in
  sequence.

Dafny states each quirk of the code as it behaves:
- the ancestor move is a plain lower-casing;
- the directory's `-` test looks at the whole new path, ancestors
  included;
- the directory move starts from `fixpath(path)`;
- `import`/`from` references are always rewritten, because `m[1]` ends in
  whitespace and a kebab name never holds any.

## Model

| member | source | states |
|---|---|---|
| Naming.CamelCaseToKebab | cli.js:9-12 | the kebab form holds no upper-case letter and no whitespace |
| Naming.KebabFixpoint | cli.js:9-12 | a name is left unchanged exactly when it has no upper-case letter and no whitespace |
| Naming.KebabIdempotent | cli.js:9-12 | normalising a kebab name again changes nothing |
| Naming.KebabHyphen | cli.js:9-12 | the kebab form holds `-` exactly when the input holds `-`, whitespace, or a lower-case letter followed by an upper-case one |
| Naming.KebabEmpty | cli.js:9-12 | the kebab form is empty exactly when the input is |
| Naming.KebabSeam | cli.js:9-12 | cut outside a whitespace run, the two halves are normalised on their own and joined by `-` exactly when a lower-case letter meets an upper-case one at the cut |
| Naming.KebabExample | cli.test.js:78-80 | `MyWidget.js` becomes `my-widget.js` |
| Naming.SplitPath | cli.js:14-19 | the file part holds no `/`; with a `/`, directory + `/` + file restores the input; without one, the directory is empty and the file is the whole input |
| Naming.FixPath | cli.js:21-24 | the text up to the last `/` is lower-cased and the file name kept, same length; a path without `/` gets a leading `/` |
| Text.JoinSplit | cli.js:15-17 | joining the pieces of a split restores the string |
| Text.SplitJoin | cli.js:165-180 | splitting the join of separator-free pieces restores the pieces |
| Text.SplitCount | cli.js:15-17 | the separator occurs exactly when the split has two or more pieces |
| GitStatus.DirtyPathsMembers | cli.js:68-75 | a path is reported exactly when some dirty row (`from` set or `y` is `M`) carries it |
| GitStatus.DirtyPathsEmpty | cli.js:68-76 | nothing is reported exactly when no row is dirty, and never more paths than rows |
| GitStatus.CollectDirty | cli.js:68-75 | the loop collects the `to` path of every dirty row in row order, and none when there is no report |
| GitStatus.CheckStatus | cli.js:58-86 | an error not mentioning "not a git repository" aborts with that error; otherwise any dirty row aborts with the dirty paths; the run goes ahead exactly when no row is dirty, in git mode exactly when there was no error |
| Planner.RenamePlanner.constructor | cli.js:36-43 | `paths` starts empty except for its inherited names, and `gitcommands` holds only the header |
| Planner.RenamePlanner.Put | cli.js:102 | `paths[k] = v`: the key is added at the end of the key order when new, and its value replaced |
| Planner.RenamePlanner.VisitAncestors | cli.js:94-106 | the ancestor loop leaves exactly the state `Ancestors` describes |
| Planner.RenamePlanner.MoveParent | cli.js:107-118 | returns the kebab path and leaves exactly the state `ParentStage` describes |
| Planner.RenamePlanner.ProcessFile | cli.js:93-129 | one file leaves exactly the state `Step` describes |
| Planner.RenamePlanner.PlanFiles | cli.js:92-130 | the walk leaves exactly the state `PlanAll` describes |
| PlannerFacts.InitValid | cli.js:36-43 | the initial state satisfies the invariant: header first, only moves after it, keys listed once, no empty value |
| PlannerFacts.AncestorsSound | cli.js:97-106 | every move the ancestor loop adds lower-cases a directory above the accumulator whose own name has an upper-case letter and that was not known, and sources get longer (outermost first) |
| PlannerFacts.AncestorsComplete | cli.js:97-106 | every directory the loop visits with an upper-case name that was not known gets its lower-casing move |
| PlannerFacts.AncestorsCover | cli.js:97-106 | after the loop every visited directory with an upper-case name is known |
| PlannerFacts.AncestorsIdle | cli.js:99-101 | when every directory the loop would move is known, the loop changes nothing |
| PlanProperties.DirsOf | cli.js:94-98 | the names the loop visits hold no `/`, and the accumulator is a prefix of the file's directory |
| PlanProperties.AncestorKey | cli.js:94-100 | every ancestor of the directory is reached by the loop, which tests that ancestor's last segment |
| PlanProperties.ParentStageFacts | cli.js:109-118 | the directory stage keeps the invariant, appends exactly the directory moves, and leaves a changed directory known |
| PlanProperties.StepFacts | cli.js:93-129 | one file keeps the invariant, extends the plan, and appends its ancestor moves, then its directory's moves, then its own moves |
| PlanProperties.AncestorMovesSound | cli.js:97-106 | each ancestor move of a file is a direct lower-casing of a directory strictly above the file's directory, with an upper-case last segment, not known before; outermost first |
| PlanProperties.AncestorMovesComplete | cli.js:97-106 | every such directory above the file's directory gets its lower-casing move |
| PlanProperties.ParentMovesRule | cli.js:109-118 | there are directory moves exactly when the path changes and is not known; they chain from `fixpath(path)` to the kebab path; two moves, the first to `<newpath>.temp-rename`, exactly when the whole path has no `-`, no whitespace and no lower-to-upper boundary; a new path with `-` gets the single move `mv fixpath(path) newpath` |
| PlanProperties.FileMovesRule | cli.js:120-129 | there are file moves exactly when the name changes; they chain from the old to the new name inside the kebab directory; two moves, the first to `<newpath>/<newfile>.temp-rename`, exactly when the name has no `-`, no whitespace and no lower-to-upper boundary; a new name with `-` gets the single move `mv newpath/file newpath/newfile` |
| PlanProperties.StepCovers | cli.js:97-118 | after a file, every directory on its path the plan moves is known |
| PlanProperties.SameDirectory | cli.js:101-109 | a second file in a directory already handled adds only its own file moves (first seen wins) |
| PlanProperties.PlanAllFacts | cli.js:92-130 | over the walk the invariant holds and the plan only grows: the header stays first, commands are only appended, recorded directories keep their first value |
| PlanProperties.QuietStep | cli.js:93-129 | a file whose name and directory are already in kebab form leaves the plan unchanged |
| PlanProperties.PlanAllQuiet | cli.js:92-130 | a walk of such files leaves the plan unchanged |
| PlanProperties.PlanAllGrows | cli.js:92-130 | from an empty `paths`, a walk with a file that is not quiet adds commands |
| PlanProperties.NothingToRenameIff | cli.js:139-156 | the run aborts with "No files or folders to rename" exactly when every file of the walk is quiet |
| PlanProperties.ScriptShape | cli.js:139-151 | a script exists exactly when a move was planned; it is the header line then the moves, one per line; in git mode every line, the header included, starts with `git ` |
| Rewriter.KeywordEndIff | cli.js:45 | the first group followed by a quote is found at a start exactly when `import\s+`, `from\s+` or `require(` spans up to a quote there |
| Rewriter.MatchAtIff | cli.js:45 | a match is found at a start exactly when the expression matches there, and it is the one with the last closing quote before a line terminator |
| Rewriter.FindReferenceCorrect | cli.js:45 | no match is found exactly when the expression does not match the line; a found match matches, starts leftmost, and is greedy |
| Rewriter.Replace | cli.js:174 | the text before the match and `m[1]` are kept, then the name in single quotes, then the text after the closing quote |
| Rewriter.UnmatchedLineKept | cli.js:169-178 | a line the expression does not match is returned unchanged and leaves `dirty` alone |
| Rewriter.RewriteLineShape | cli.js:171-176 | a rewritten line is its prefix and `m[1]`, the kebab form of `m[2]` in single quotes, and its suffix; a line not flagged is unchanged |
| Rewriter.ImportFromAlwaysDirty | cli.js:172-175 | an `import` or `from` match always sets `dirty` |
| Rewriter.RequireKebabStillDirty | cli.js:172-175 | a `require('…')` line whose name is already in kebab form comes back unchanged yet still sets `dirty`, so its file is written back and listed |
| Rewriter.RewriteLineNoNewline | cli.js:165-180 | a rewritten line never gains a line feed, so the line split is kept |
| Rewriter.MapLinesEach | cli.js:167-179 | the map goes line by line, and the shared flag is set exactly when some line set it |
| Rewriter.RewriteTextLines | cli.js:165-180 | the new text has as many lines, line `i` is line `i` rewritten, it is dirty exactly when some line set the flag, and a text that is not dirty is unchanged |
| Rewriter.ImportFromFileDirty | cli.js:165-184 | a file with an `import` or `from` reference on some line is always dirty |
| Rewriter.FixLine | cli.js:168-179 | the map callback computes exactly the rewrite of one line and whether it set `dirty` |
| Rewriter.RewriteSource | cli.js:165-180 | the loop over the lines computes exactly the text rewrite and its `dirty` flag |
| Rewriter.RewriteAll | cli.js:164-185 | pass 2 keeps the set of files |
| Rewriter.RewriteAllFacts | cli.js:164-185 | exactly the dirty files are recorded, once each in walk order; each holds its rewritten text and every other file is untouched |
| Rewriter.RewriteFiles | cli.js:164-185 | the loop over the source files computes exactly the new contents and `fixedfiles` |
| Kebabify.Run | cli.js:58-185 | the status error, the dirty tree and the empty plan abort in that order; otherwise the run goes ahead: the script is the plan of the walk, in git mode exactly when git reported no error, and pass 2 rewrites the source files |

## Left out

- The command-line target and its existence check (cli.js:47-54) are not
  modelled.
- The directory walk `recursive-readdir` and the `setupTests.*` skip-list
  (cli.js:31, 90, 162) are not modelled. Both file lists are inputs.
  Walk errors are not modelled either: the code does not test the
  callbacks' `err` (cli.js:90-92, 162-164).
- The `git-status` library call is not modelled. Its error text and rows
  are inputs: no error is the empty string, and a null `from` is the empty
  string.
- `ABORT` is modelled as an `Abort` value. The banner text, `console`
  output (cli.js:108, 154) and `process.exit` are not modelled. The dirty
  abort carries the list of paths, not the formatted message.
- Not modelled from pass 1's end (cli.js:135-152):
  - writing the script file and its mode;
  - running it with `execFileSync`.

  The script text is the output. Pass 2 reads the tree the script leaves,
  so its walk and file contents are inputs.
- Not modelled in the text handling:
  - non-ASCII text: `toLowerCase`, `\s`, `[a-z]` and `[A-Z]` are taken
    over ASCII only;
  - the regular expression's `.` excludes `\n` and `\r`, but not U+2028
    and U+2029.
- Rewriter.Replace: `$` patterns in the replacement string of cli.js:174
  are not interpreted. A name containing `$&` or `$1` is inserted
  literally.
- Rewriter.RewriteAllFacts: stated for walks that list each file once,
  which is what a directory walk returns. `RewriteAll` itself accepts any
  list.
- The report file `kebab-ify.log` (cli.js:186-205) is not modelled.
- The asynchronous callbacks are not modelled. The run is taken as the
  sequence they execute in.
- The dirty-row test follows the code. A row is dirty when `from` is
  set or its work-tree status is `M` (cli.js:71). That is not the same as
  "modified in place": a renamed or copied row is dirty too.
