/** One run of the tool (cli.js:58-185): the git status gate, the first
    pass that plans the renames and builds the script, and the second pass
    that rewrites module references. The git status report, the two
    directory walks and the file contents the second pass reads are
    inputs; the second walk and the contents are those of the tree after
    the script ran, which is not modelled. */
module Kebabify {
  import opened Text
  import opened Failures
  import opened GitStatus
  import opened Planner
  import opened PlanProperties
  import opened Rewriter

  /** What a run leaves behind: the script text, the source files after
      pass 2, and `fixedfiles`. */
  datatype Outcome = Outcome(script: String, disk: map<String, String>, fixedfiles: seq<String>)

  /** The gitStatus callback followed by `pass1` and pass 2. A status error
      other than "not a git repository" aborts first, then any dirty row,
      then a walk that plans nothing; otherwise the run goes ahead: the
      script is the plan of the walk, in git mode exactly when git reported
      no error, and pass 2 runs over the source files. */
  method Run(err: String, data: Option<seq<StatusRow>>, files: seq<String>, disk: map<String, String>, srcfiles: seq<String>)
    returns (r: Result<Outcome>)
    requires forall f | f in srcfiles :: f in disk
    ensures err != "" && !MentionsNotARepo(err) ==> r == Err(StatusFailed(err))
    ensures (err == "" || MentionsNotARepo(err)) && DirtyPaths(Rows(data)) != [] ==>
      r == Err(DirtyTree(DirtyPaths(Rows(data))))
    ensures (err == "" || MentionsNotARepo(err)) && DirtyPaths(Rows(data)) == [] ==>
      (r == Err(NothingToRename) <==> forall f | f in files :: Quiet(InheritedNames, f))
    ensures ((err == "" || MentionsNotARepo(err)) && DirtyPaths(Rows(data)) == []
             && !(forall f | f in files :: Quiet(InheritedNames, f))) ==> r.Ok?
    ensures r.Ok? ==>
      && Script(PlanAll(Init(), files), err == "") == Ok(r.value.script)
      && (r.value.disk, r.value.fixedfiles) == RewriteAll(disk, srcfiles)
  {
    var status := CheckStatus(err, data);
    DirtyPathsEmpty(Rows(data));
    if status.Err? {
      return Err(status.error);
    }
    var git := status.value;
    var planner := new RenamePlanner();
    planner.PlanFiles(files);
    var script := Script(planner.State(), git);
    NothingToRenameIff(files, git);
    if script.Err? {
      return Err(script.error);
    }
    var written, fixedfiles := RewriteFiles(disk, srcfiles);
    return Ok(Outcome(script.value, written, fixedfiles));
  }
}
