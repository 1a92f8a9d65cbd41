/** The first pass of cli.js (cli.js:89-156): every file the directory walk
    returns is turned into `mv` commands for a shell script. Three kinds of
    move are planned for a file, in this order:
      - each ancestor directory (above the file's own directory) whose
        name has an upper-case letter is moved, once, to its lower-cased
        spelling (cli.js:97-106);
      - the file's directory is moved, once, to the kebab form of its whole
        path (cli.js:107-118);
      - the file is moved to the kebab form of its name inside the kebab
        directory (cli.js:120-129).
    A directory is recorded in the `paths` object the first time it is
    moved and never moved again. A move of the file's directory or of the
    file whose destination has no `-` goes through a temporary name, so that
    a change of letter case alone also works on a case-insensitive file
    system; an ancestor move is always one direct move.

    The state of the pass (the `paths` object, with its insertion order,
    and the `gitcommands` array) is a `Plan`; `Step` is what one file does
    to it and `PlanAll` is the whole walk. The class `RenamePlanner` is the
    imperative original, proved to compute exactly `Step` and `PlanAll`. */
module Planner {
  import opened Text
  import opened Naming
  import opened Failures

  const Shebang: String := "#!/bin/bash"
  const TempSuffix: String := ".temp-rename"

  /** One line of the generated script: its header, or `mv 'src' 'dst'`. */
  datatype Command = Header | Mv(src: String, dst: String)

  /** The names an empty JavaScript object already answers with a truthy
      value: the properties of `Object.prototype`. `!paths[k]` is false for
      them although nothing was recorded. */
  const InheritedNames: set<String> := {
    "constructor", "hasOwnProperty", "isPrototypeOf", "propertyIsEnumerable",
    "toString", "toLocaleString", "valueOf", "__proto__",
    "__defineGetter__", "__defineSetter__", "__lookupGetter__", "__lookupSetter__"
  }

  /** The `paths` object is its prototype's names `proto` plus its own
      entries `paths`, whose keys `order` lists in insertion order (the
      order JavaScript keeps for string keys); `commands` is `gitcommands`. */
  datatype Plan = Plan(proto: set<String>, order: seq<String>, paths: map<String, String>, commands: seq<Command>)

  /** The state before the walk (cli.js:36, 43). */
  function Init(): Plan
  {
    Plan(InheritedNames, [], map[], [Header])
  }

  /** The state invariant: the header is the first command and only moves
      follow it, `order` lists each key of `paths` once, no recorded value
      is empty, and no inherited name holds a `/`. */
  ghost predicate Valid(p: Plan)
  {
    && (forall k | k in p.proto :: '/' !in k)
    && |p.commands| >= 1 && p.commands[0] == Header
    && (forall i | 1 <= i < |p.commands| :: p.commands[i].Mv?)
    && (forall k :: k in p.paths <==> k in p.order)
    && (forall i, j | 0 <= i < j < |p.order| :: p.order[i] != p.order[j])
    && (forall k | k in p.paths :: p.paths[k] != [])
  }

  /** `!paths[k]` negated: the key has a truthy value, recorded or inherited. */
  predicate Known(p: Plan, k: String)
  {
    k in p.proto || (k in p.paths && p.paths[k] != [])
  }

  /** `paths[k] = v` followed by pushing `moves` onto `gitcommands`. */
  function Record(p: Plan, k: String, v: String, moves: seq<Command>): Plan
  {
    Plan(p.proto, if k in p.paths then p.order else p.order + [k], p.paths[k := v], p.commands + moves)
  }

  /** `dir.match(/[A-Z]/)`. */
  predicate HasUpper(s: String)
  {
    !NoUpper(s)
  }

  /** `tp.replace(/\/$/, '')`: one trailing `/` removed. */
  function TrimSlash(tp: String): String
  {
    if |tp| > 0 && tp[|tp| - 1] == '/' then tp[..|tp| - 1] else tp
  }

  /** The accumulator `tp` of cli.js:98 after the given directory names. */
  function Tp(dirs: seq<String>): String
  {
    if dirs == [] then [] else Tp(dirs[..|dirs| - 1]) + dirs[|dirs| - 1] + "/"
  }

  /** The directory names the ancestor loop visits (cli.js:94-95): the
      segments of the file's directory without the last one. */
  function Dirs(path: String): seq<String>
  {
    var ds := Split(path, '/');
    ds[..|ds| - 1]
  }

  /** One round of the ancestor loop (cli.js:98-105), with `tp` already extended by `dir`. */
  function Visit(p: Plan, tp: String, dir: String): Plan
  {
    if HasUpper(dir) then
      var t := TrimSlash(tp);
      if !Known(p, t) then Record(p, t, Lower(t), [Mv(t, Lower(t))]) else p
    else p
  }

  /** The ancestor loop over the given directory names. */
  function Ancestors(p: Plan, dirs: seq<String>): Plan
  {
    if dirs == [] then p
    else Visit(Ancestors(p, dirs[..|dirs| - 1]), Tp(dirs), dirs[|dirs| - 1])
  }

  /** cli.js:111-116 and 122-127: a destination without `-` is reached
      through `<dst>.temp-rename`, any other in one move. */
  function SafeMoves(src: String, dst: String, direct: bool): seq<Command>
  {
    if direct then [Mv(src, dst)]
    else [Mv(src, dst + TempSuffix), Mv(dst + TempSuffix, dst)]
  }

  /** The moves of the file's directory (cli.js:109-118): from its `fixpath`
      form to the kebab form of the whole path, unless the path is already
      in kebab form or `paths` knows it. The `-` test looks at the whole new
      path. */
  function ParentMoves(p: Plan, path: String): seq<Command>
  {
    var newpath := CamelCaseToKebab(path);
    if path != newpath && !Known(p, path) then SafeMoves(FixPath(path), newpath, '-' in newpath)
    else []
  }

  function ParentStage(p: Plan, path: String): Plan
  {
    var newpath := CamelCaseToKebab(path);
    if path != newpath && !Known(p, path) then Record(p, path, newpath, ParentMoves(p, path))
    else p
  }

  /** The moves of the file itself (cli.js:120-129), inside the kebab
      directory, with the `-` test on the new file name alone. */
  function FileMoves(path: String, file: String): seq<Command>
  {
    var newpath, newfile := CamelCaseToKebab(path), CamelCaseToKebab(file);
    if file != newfile then SafeMoves(newpath + "/" + file, newpath + "/" + newfile, '-' in newfile)
    else []
  }

  /** The body of `files.forEach` (cli.js:93-129) for one file. */
  function Step(p: Plan, filename: String): Plan
  {
    var (path, file) := SplitPath(filename);
    var q := ParentStage(Ancestors(p, Dirs(path)), path);
    q.(commands := q.commands + FileMoves(path, file))
  }

  /** The whole walk (cli.js:92-130), files in the order the walk returns them. */
  function PlanAll(p: Plan, files: seq<String>): Plan
  {
    if files == [] then p else Step(PlanAll(p, files[..|files| - 1]), files[|files| - 1])
  }

  /** One script line (cli.js:103, 113-127), with the `git ` prefix in git mode (cli.js:144). */
  function Render(c: Command, git: bool): String
  {
    var line := match c
      case Header => Shebang
      case Mv(src, dst) => "mv '" + src + "' '" + dst + "'";
    if git then "git " + line else line
  }

  function ScriptLines(commands: seq<Command>, git: bool): seq<String>
  {
    seq(|commands|, i requires 0 <= i < |commands| => Render(commands[i], git))
  }

  /** cli.js:139-156: the script text when something beyond the header was
      planned, and the "No files or folders to rename" abort otherwise. */
  function Script(p: Plan, git: bool): Result<String>
  {
    if |p.commands| > 1 then Ok(Join(ScriptLines(p.commands, git), '\n'))
    else Err(NothingToRename)
  }

  /** The `paths` object and the `gitcommands` array of cli.js:36 and 43,
      updated in place by the walk. */
  class RenamePlanner {
    var proto: set<String>
    var order: seq<String>
    var paths: map<String, String>
    var commands: seq<Command>

    function State(): Plan
      reads this
    {
      Plan(proto, order, paths, commands)
    }

    constructor()
      ensures State() == Init()
    {
      proto := InheritedNames;
      order := [];
      paths := map[];
      commands := [Header];
    }

    /** `paths[k] = v` on the object. */
    method Put(k: String, v: String)
      modifies this
      ensures State() == Record(old(State()), k, v, [])
    {
      if k !in paths {
        order := order + [k];
      }
      paths := paths[k := v];
    }

    /** The ancestor loop of cli.js:94-106 over the given directory names. */
    method VisitAncestors(dirs: seq<String>)
      modifies this
      ensures State() == Ancestors(old(State()), dirs)
    {
      var tp: String := [];
      for i := 0 to |dirs|
        invariant tp == Tp(dirs[..i])
        invariant State() == Ancestors(old(State()), dirs[..i])
      {
        assert dirs[..i + 1][..i] == dirs[..i];
        var dir := dirs[i];
        tp := tp + dir + "/";
        if HasUpper(dir) {
          var trimtp := TrimSlash(tp);
          if !Known(State(), trimtp) {
            Put(trimtp, Lower(trimtp));
            commands := commands + [Mv(trimtp, Lower(trimtp))];
          }
        }
      }
      assert dirs[..|dirs|] == dirs;
    }

    /** cli.js:107-118: the move of the file's own directory. */
    method MoveParent(path: String) returns (newpath: String)
      modifies this
      ensures newpath == CamelCaseToKebab(path)
      ensures State() == ParentStage(old(State()), path)
    {
      newpath := CamelCaseToKebab(path);
      if path != newpath && !Known(State(), path) {
        var source := FixPath(path);
        Put(path, newpath);
        if '-' !in newpath {
          var tmppath := newpath + TempSuffix;
          commands := commands + [Mv(source, tmppath)];
          commands := commands + [Mv(tmppath, newpath)];
        } else {
          commands := commands + [Mv(source, newpath)];
        }
      }
    }

    /** One file of the walk (cli.js:93-129). */
    method ProcessFile(filename: String)
      modifies this
      ensures State() == Step(old(State()), filename)
    {
      var path, file := SplitPath(filename).0, SplitPath(filename).1;
      VisitAncestors(Dirs(path));
      var newpath := MoveParent(path);
      var newfile := CamelCaseToKebab(file);
      if file != newfile {
        if '-' !in newfile {
          var tmpfile := newfile + TempSuffix;
          assert newpath + "/" + tmpfile == newpath + "/" + newfile + TempSuffix;
          commands := commands + [Mv(newpath + "/" + file, newpath + "/" + tmpfile)];
          commands := commands + [Mv(newpath + "/" + tmpfile, newpath + "/" + newfile)];
        } else {
          commands := commands + [Mv(newpath + "/" + file, newpath + "/" + newfile)];
        }
      }
    }

    /** `files.forEach(...)` (cli.js:92-130). */
    method PlanFiles(files: seq<String>)
      modifies this
      ensures State() == PlanAll(old(State()), files)
    {
      for i := 0 to |files|
        invariant State() == PlanAll(old(State()), files[..i])
      {
        assert files[..i + 1][..i] == files[..i];
        ProcessFile(files[i]);
      }
      assert files[..|files|] == files;
    }
  }
}
