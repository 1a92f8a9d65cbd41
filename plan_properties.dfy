/** The rename plan for one file and for the whole walk, stated in terms of
    the file's path: which moves are appended and in what order, when a
    move goes through `.temp-rename`, what a second file in the same
    directory adds, and exactly when the run ends with "No files or folders
    to rename". */
module PlanProperties {
  import opened Text
  import opened Naming
  import opened Failures
  import opened Planner
  import opened PlannerFacts

  // ---------------------------------------------------------------------
  // Directory names of a path

  /** The directory reached after all names is their join. */
  lemma {:induction false} KeyOfJoin(dirs: seq<String>)
    requires |dirs| >= 1
    ensures KeyOf(dirs, |dirs|) == Join(dirs, '/')
  {
    var n := |dirs|;
    if n > 1 {
      var init := dirs[..n - 1];
      KeyOfJoin(init);
      assert Tp(init) == KeyOf(init, n - 1) + "/";
      assert init + [dirs[n - 1]] == dirs;
      JoinAppend(init, [dirs[n - 1]], '/');
    }
  }

  /** The names the ancestor loop visits hold no `/`, and the accumulator
      they build is the directory part of `path` up to its last `/`. */
  lemma DirsOf(path: String)
    ensures forall d | d in Dirs(path) :: '/' !in d
    ensures |Tp(Dirs(path))| <= |path| && path[..|Tp(Dirs(path))|] == Tp(Dirs(path))
  {
    var all := Split(path, '/');
    var dirs := Dirs(path);
    assert forall d | d in dirs :: d in all;
    JoinSplit(path, '/');
    if |all| >= 2 {
      var n := |all|;
      KeyOfJoin(dirs);
      assert dirs + [all[n - 1]] == all;
      JoinAppend(dirs, [all[n - 1]], '/');
      assert Tp(dirs) == Join(dirs, '/') + "/";
    }
  }

  /** Every ancestor of `path` is a directory the ancestor loop reaches, and
      the name the loop tests there is the ancestor's last segment. */
  lemma AncestorKey(path: String, t: String)
    requires IsAncestor(t, path)
    ensures exists k | 1 <= k <= |Dirs(path)| :: KeyOf(Dirs(path), k) == t && Dirs(path)[k - 1] == LastSegment(t)
  {
    var rest := path[|t| + 1..];
    assert path == t + ['/'] + rest;
    SplitAppend(t, '/', rest);
    var st := Split(t, '/');
    var k := |st|;
    var dirs := Dirs(path);
    assert dirs[..k] == st;
    assert dirs[..k - 1] == st[..k - 1];
    KeyOfJoin(st);
    JoinSplit(t, '/');
    assert KeyOf(dirs, k) == t;
  }

  // ---------------------------------------------------------------------
  // One file

  /** Appending moves after the header keeps the invariant and extends the plan. */
  lemma AppendMoves(p: Plan, moves: seq<Command>)
    requires Valid(p) && forall i | 0 <= i < |moves| :: moves[i].Mv?
    ensures Valid(p.(commands := p.commands + moves)) && Extends(p, p.(commands := p.commands + moves))
  {
    var q := p.(commands := p.commands + moves);
    assert q.commands[..|p.commands|] == p.commands;
    forall i | 1 <= i < |q.commands| ensures q.commands[i].Mv? {
      if i >= |p.commands| {
        assert q.commands[i] == moves[i - |p.commands|];
      }
    }
  }

  /** The parent stage keeps the invariant and appends exactly the parent moves. */
  lemma ParentStageFacts(p: Plan, path: String)
    requires Valid(p)
    ensures Valid(ParentStage(p, path)) && Extends(p, ParentStage(p, path))
    ensures ParentStage(p, path).commands == p.commands + ParentMoves(p, path)
    ensures path != CamelCaseToKebab(path) ==> Known(ParentStage(p, path), path)
  {
    var newpath := CamelCaseToKebab(path);
    if path != newpath && !Known(p, path) {
      KebabEmpty(path);
      RecordValid(p, path, newpath, ParentMoves(p, path));
    }
  }

  /** The ancestor loop and the directory move together: the invariant
      holds and the plan grows by the ancestor moves, then the directory's. */
  lemma StageFacts(p: Plan, path: String)
    requires Valid(p)
    ensures var b := ParentStage(Ancestors(p, Dirs(path)), path);
      && Valid(b) && Extends(p, b)
      && b.commands == p.commands + AncestorMoves(p, path) + ParentMoves(Ancestors(p, Dirs(path)), path)
  {
    var a := Ancestors(p, Dirs(path));
    AncestorsExtend(p, Dirs(path));
    assert a.commands == p.commands + AncestorMoves(p, path);
    ParentStageFacts(a, path);
    ExtendsTrans(p, a, ParentStage(a, path));
  }

  /** For each file the plan grows by its ancestor moves, then the moves of
      its directory, then the moves of the file itself (cli.js:97-129), and
      the invariant holds throughout. */
  lemma StepFacts(p: Plan, filename: String)
    requires Valid(p)
    ensures var path, file := SplitPath(filename).0, SplitPath(filename).1;
      && Valid(Step(p, filename)) && Extends(p, Step(p, filename))
      && Step(p, filename).commands ==
         p.commands + AncestorMoves(p, path) + ParentMoves(Ancestors(p, Dirs(path)), path) + FileMoves(path, file)
  {
    var path, file := SplitPath(filename).0, SplitPath(filename).1;
    StageFacts(p, path);
    var b := ParentStage(Ancestors(p, Dirs(path)), path);
    FileMovesAreMoves(path, file);
    AppendMoves(b, FileMoves(path, file));
    StepUnfold(p, filename);
    ExtendsTrans(p, b, Step(p, filename));
  }

  /** The file's moves are all `mv` commands. */
  lemma FileMovesAreMoves(path: String, file: String)
    ensures forall i | 0 <= i < |FileMoves(path, file)| :: FileMoves(path, file)[i].Mv?
  {
  }

  /** `Step` unfolded, with the two halves of `splitpath` taken apart. */
  lemma StepUnfold(p: Plan, filename: String)
    ensures var path, file := SplitPath(filename).0, SplitPath(filename).1;
      var b := ParentStage(Ancestors(p, Dirs(path)), path);
      Step(p, filename) == b.(commands := b.commands + FileMoves(path, file))
  {
  }

  /** Each ancestor move of a file lower-cases a directory above the file's
      directory whose own name has an upper-case letter and that was not
      yet known, in a single direct move; they come outermost first
      (cli.js:97-106). */
  lemma AncestorMovesSound(p: Plan, filename: String)
    requires Valid(p)
    ensures var path := SplitPath(filename).0;
      && (forall c | c in AncestorMoves(p, path) ::
            c.Mv? && c.dst == Lower(c.src) && IsAncestor(c.src, path)
            && HasUpper(LastSegment(c.src)) && !Known(p, c.src))
      && Outward(AncestorMoves(p, path))
  {
    var path := SplitPath(filename).0;
    DirsOf(path);
    AncestorsSound(p, Dirs(path));
    var tp := Tp(Dirs(path));
    forall c | c in AncestorMoves(p, path) ensures IsAncestor(c.src, path) {
      assert AncestorMove(p, c, tp);
      assert path[..|c.src| + 1] == tp[..|c.src| + 1];
    }
  }

  /** Every directory above the file's directory whose own name has an
      upper-case letter and that was not yet known gets its lower-casing
      move (cli.js:97-106). */
  lemma AncestorMovesComplete(p: Plan, filename: String)
    requires Valid(p)
    ensures var path := SplitPath(filename).0;
      forall t | IsAncestor(t, path) && HasUpper(LastSegment(t)) && !Known(p, t) ::
        Mv(t, Lower(t)) in AncestorMoves(p, path)
  {
    var path := SplitPath(filename).0;
    AncestorsComplete(p, Dirs(path));
    forall t | IsAncestor(t, path) && HasUpper(LastSegment(t)) && !Known(p, t)
      ensures Mv(t, Lower(t)) in AncestorMoves(p, path)
    {
      AncestorKey(path, t);
    }
  }

  /** The directory move (cli.js:109-118): there is one exactly when the
      path changes and is not known yet; it takes the `fixpath` form of the
      path to the kebab form of the whole path, in two steps exactly when
      the whole path, ancestors included, has no `-`, no whitespace and no
      lower-to-upper boundary. */
  lemma ParentMovesRule(p: Plan, path: String)
    ensures var moves, newpath := ParentMoves(p, path), CamelCaseToKebab(path);
      && (moves != [] <==> path != newpath && !Known(p, path))
      && (moves != [] ==> Chain(moves, FixPath(path), newpath))
      && (|moves| == 2 <==> path != newpath && !Known(p, path) && '-' !in path && NoSpace(path) && !HasBoundary(path))
      && (|moves| == 2 ==> moves[0].dst == newpath + TempSuffix)
      && (moves != [] && '-' in newpath ==> moves == [Mv(FixPath(path), newpath)])
  {
    KebabHyphen(path);
  }

  /** The file move (cli.js:120-129): there is one exactly when the name
      changes; it stays inside the kebab directory, and it takes two steps
      exactly when the name has no `-`, no whitespace and no lower-to-upper
      boundary, that is when only letter case changes. */
  lemma FileMovesRule(path: String, file: String)
    ensures var moves, dir, newfile := FileMoves(path, file), CamelCaseToKebab(path), CamelCaseToKebab(file);
      && (moves != [] <==> file != newfile)
      && (moves != [] ==> Chain(moves, dir + "/" + file, dir + "/" + newfile))
      && (forall c | c in moves :: c.Mv? && IsAncestor(dir, c.src) && IsAncestor(dir, c.dst))
      && (|moves| == 2 <==> file != newfile && '-' !in file && NoSpace(file) && !HasBoundary(file))
      && (|moves| == 2 ==> moves[0].dst == dir + "/" + newfile + TempSuffix)
      && (moves != [] && '-' in newfile ==> moves == [Mv(dir + "/" + file, dir + "/" + newfile)])
  {
    var dir, newfile := CamelCaseToKebab(path), CamelCaseToKebab(file);
    KebabHyphen(file);
    var moves := FileMoves(path, file);
    if moves != [] {
      assert (dir + "/" + file)[..|dir| + 1] == dir + "/";
      assert (dir + "/" + newfile)[..|dir| + 1] == dir + "/";
      assert (dir + "/" + newfile + TempSuffix)[..|dir| + 1] == dir + "/";
    }
  }

  /** After a file, every directory on its path that the plan moves is
      known: the ancestors with an upper-case name, and the directory itself
      when it is not in kebab form. */
  lemma StepCovers(p: Plan, filename: String)
    requires Valid(p)
    ensures var path := SplitPath(filename).0;
      && (forall k | 1 <= k <= |Dirs(path)| && HasUpper(Dirs(path)[k - 1]) :: Known(Step(p, filename), KeyOf(Dirs(path), k)))
      && (path != CamelCaseToKebab(path) ==> Known(Step(p, filename), path))
  {
    var path, file := SplitPath(filename).0, SplitPath(filename).1;
    StageCovers(p, path);
    var b := ParentStage(Ancestors(p, Dirs(path)), path);
    assert Step(p, filename) == b.(commands := b.commands + FileMoves(path, file));
  }

  lemma StageCovers(p: Plan, path: String)
    requires Valid(p)
    ensures var b := ParentStage(Ancestors(p, Dirs(path)), path);
      && (forall k | 1 <= k <= |Dirs(path)| && HasUpper(Dirs(path)[k - 1]) :: Known(b, KeyOf(Dirs(path), k)))
      && (path != CamelCaseToKebab(path) ==> Known(b, path))
  {
    var dirs := Dirs(path);
    var a := Ancestors(p, dirs);
    AncestorsExtend(p, dirs);
    AncestorsCover(p, dirs);
    ParentStageFacts(a, path);
    var b := ParentStage(a, path);
    forall k | 1 <= k <= |dirs| && HasUpper(dirs[k - 1]) ensures Known(b, KeyOf(dirs, k)) {
      KnownStays(a, b, KeyOf(dirs, k));
    }
  }

  /** A second file in a directory already handled adds only its own file
      moves: every directory on its path was recorded by the first file
      (cli.js:101, 109). */
  lemma SameDirectory(p: Plan, first: String, second: String)
    requires Valid(p) && SplitPath(first).0 == SplitPath(second).0
    ensures var q, path := Step(p, first), SplitPath(first).0;
      Step(q, second) == q.(commands := q.commands + FileMoves(path, SplitPath(second).1))
  {
    var path := SplitPath(first).0;
    var q := Step(p, first);
    StepCovers(p, first);
    AncestorsIdle(q, Dirs(path));
  }

  // ---------------------------------------------------------------------
  // The whole walk

  /** Over the whole walk the invariant holds and the plan only grows: the
      header stays first, commands are only appended, and a recorded
      directory keeps its first value (cli.js:43, 101, 109). */
  lemma {:induction false} PlanAllFacts(p: Plan, files: seq<String>)
    requires Valid(p)
    ensures Valid(PlanAll(p, files)) && Extends(p, PlanAll(p, files))
  {
    if files != [] {
      var init := files[..|files| - 1];
      PlanAllFacts(p, init);
      StepFacts(PlanAll(p, init), files[|files| - 1]);
      ExtendsTrans(p, PlanAll(p, init), PlanAll(p, files));
    }
  }

  /** A file that plans nothing: its name is already in kebab form, and so is
      its directory or the directory is a name the `paths` object inherits. */
  predicate Quiet(proto: set<String>, filename: String)
  {
    var path, file := SplitPath(filename).0, SplitPath(filename).1;
    file == CamelCaseToKebab(file) && (path == CamelCaseToKebab(path) || path in proto)
  }

  /** The ancestor loop does nothing over names without upper case. */
  lemma {:induction false} AncestorsLowerIdle(p: Plan, dirs: seq<String>)
    requires forall d | d in dirs :: NoUpper(d)
    ensures Ancestors(p, dirs) == p
  {
    if dirs != [] {
      var init := dirs[..|dirs| - 1];
      assert forall d | d in init :: d in dirs;
      assert dirs[|dirs| - 1] in dirs;
      AncestorsLowerIdle(p, init);
    }
  }

  /** A path without upper case has directory names without upper case. */
  lemma DirsNoUpper(path: String)
    requires NoUpper(path)
    ensures forall d | d in Dirs(path) :: NoUpper(d)
  {
    forall d | d in Dirs(path) ensures NoUpper(d) {
      assert d in Split(path, '/');
      forall c | c in d ensures !IsUpper(c) {
        SplitChars(path, '/', d, c);
      }
    }
  }

  /** A quiet file leaves the plan as it is. */
  lemma QuietStep(p: Plan, filename: String)
    requires Valid(p) && Quiet(p.proto, filename)
    ensures Step(p, filename) == p
  {
    var path, file := SplitPath(filename).0, SplitPath(filename).1;
    if path == CamelCaseToKebab(path) {
      KebabFixpoint(path);
      DirsNoUpper(path);
    } else {
      SplitNoSep(path, '/');
    }
    AncestorsLowerIdle(p, Dirs(path));
  }

  /** A file that is not quiet adds commands, provided its directory is not
      recorded yet. */
  lemma StepGrows(p: Plan, filename: String)
    requires Valid(p) && !Quiet(p.proto, filename) && SplitPath(filename).0 !in p.paths
    ensures |Step(p, filename).commands| > |p.commands|
  {
    var path, file := SplitPath(filename).0, SplitPath(filename).1;
    var dirs := Dirs(path);
    var a := Ancestors(p, dirs);
    StepFacts(p, filename);
    if file == CamelCaseToKebab(file) {
      AncestorsExtend(p, dirs);
      DirsOf(path);
      assert !Known(a, path);
      ParentMovesRule(a, path);
    } else {
      FileMovesRule(path, file);
    }
  }

  /** A walk of quiet files leaves the plan untouched. */
  lemma {:induction false} PlanAllQuiet(p: Plan, files: seq<String>)
    requires Valid(p) && forall f | f in files :: Quiet(p.proto, f)
    ensures PlanAll(p, files) == p
  {
    if files != [] {
      var init := files[..|files| - 1];
      assert forall f | f in init :: f in files;
      assert files[|files| - 1] in files;
      PlanAllQuiet(p, init);
      QuietStep(p, files[|files| - 1]);
    }
  }

  /** A plan that has grown stays grown for one more file. */
  lemma GrowsLater(p: Plan, init: seq<String>, last: String)
    requires Valid(p) && |PlanAll(p, init).commands| > |p.commands|
    ensures |PlanAll(p, init + [last]).commands| > |p.commands|
  {
    PlanAllFacts(p, init);
    assert (init + [last])[..|init|] == init;
    StepFacts(PlanAll(p, init), last);
  }

  /** Quiet files and then one that is not: the last one adds commands. */
  lemma GrowsAtLast(p: Plan, init: seq<String>, last: String)
    requires Valid(p) && p.paths == map[]
    requires (forall f | f in init :: Quiet(p.proto, f)) && !Quiet(p.proto, last)
    ensures |PlanAll(p, init + [last]).commands| > |p.commands|
  {
    assert (init + [last])[..|init|] == init;
    PlanAllQuiet(p, init);
    StepGrows(p, last);
  }

  /** From a plan with nothing recorded, a walk with a file that is not
      quiet plans at least one move. */
  lemma {:induction false} PlanAllGrows(p: Plan, files: seq<String>)
    requires Valid(p) && p.paths == map[]
    requires exists f | f in files :: !Quiet(p.proto, f)
    ensures |PlanAll(p, files).commands| > |p.commands|
  {
    var n := |files|;
    var init, last := files[..n - 1], files[n - 1];
    assert files == init + [last];
    if exists f | f in init :: !Quiet(p.proto, f) {
      PlanAllGrows(p, init);
      GrowsLater(p, init, last);
    } else {
      GrowsAtLast(p, init, last);
    }
  }

  /** cli.js:139-156: the run stops with "No files or folders to rename"
      exactly when every file of the walk is quiet. */
  lemma NothingToRenameIff(files: seq<String>, git: bool)
    ensures Script(PlanAll(Init(), files), git) == Err(NothingToRename) <==>
      forall f | f in files :: Quiet(InheritedNames, f)
  {
    var p := Init();
    InitValid();
    if forall f | f in files :: Quiet(p.proto, f) {
      PlanAllQuiet(p, files);
    } else {
      PlanAllGrows(p, files);
    }
  }

  /** The script (cli.js:139-151): its first line is the header, in git
      mode every line, the header included, starts with `git `, and
      otherwise every line is the bare command. */
  lemma ScriptShape(p: Plan, git: bool)
    requires Valid(p)
    ensures Script(p, git).Ok? <==> |p.commands| > 1
    ensures Script(p, git).Ok? ==>
      Script(p, git).value == (if git then "git " else "") + Shebang + "\n" + Join(ScriptLines(p.commands[1..], git), '\n')
    ensures |ScriptLines(p.commands, git)| == |p.commands|
    ensures git ==> forall line | line in ScriptLines(p.commands, git) :: |line| >= 4 && line[..4] == "git "
  {
    var lines := ScriptLines(p.commands, git);
    if |p.commands| > 1 {
      assert lines[1..] == ScriptLines(p.commands[1..], git);
    }
    if git {
      forall line | line in lines ensures |line| >= 4 && line[..4] == "git " {
        var i :| 0 <= i < |lines| && lines[i] == line;
      }
    }
  }
}
