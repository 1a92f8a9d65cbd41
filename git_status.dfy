/** The working-tree check run before anything is renamed (cli.js:58-86).
    The `git-status` library is not modelled: its error text and its rows
    are inputs. An absent error is the empty string, and an absent `from`
    (null in the library's rows) is the empty string too, since both are
    tested only for truthiness. */
module GitStatus {
  import opened Text
  import opened Failures

  /** One row of `git status --porcelain` as the library reports it:
      the two status letters, the path and, for a rename, the old path. */
  datatype StatusRow = StatusRow(x: String, y: String, to: String, from: String)

  /** cli.js:71: a row counts as dirty when it is a rename or copy (`from`
      is set) or its work-tree status is `M`. */
  predicate IsDirty(row: StatusRow)
  {
    row.from != "" || row.y == "M"
  }

  /** The `to` paths of the dirty rows, in row order. */
  function DirtyPaths(rows: seq<StatusRow>): seq<String>
  {
    if rows == [] then []
    else
      var last := rows[|rows| - 1];
      DirtyPaths(rows[..|rows| - 1]) + (if IsDirty(last) then [last.to] else [])
  }

  /** A path is reported exactly when some dirty row carries it. */
  lemma {:induction false} DirtyPathsMembers(rows: seq<StatusRow>, f: String)
    ensures f in DirtyPaths(rows) <==> exists row | row in rows :: IsDirty(row) && row.to == f
  {
    if rows != [] {
      var init, last := rows[..|rows| - 1], rows[|rows| - 1];
      DirtyPathsMembers(init, f);
      assert rows == init + [last];
      if exists row | row in init :: IsDirty(row) && row.to == f {
        var row :| row in init && IsDirty(row) && row.to == f;
        assert row in rows;
      }
      if exists row | row in rows :: IsDirty(row) && row.to == f {
        var row :| row in rows && IsDirty(row) && row.to == f;
        if row != last {
          assert row in init;
        }
      }
    }
  }

  /** No path is reported exactly when no row is dirty, and never more paths than rows. */
  lemma {:induction false} DirtyPathsEmpty(rows: seq<StatusRow>)
    ensures |DirtyPaths(rows)| <= |rows|
    ensures DirtyPaths(rows) == [] <==> forall row | row in rows :: !IsDirty(row)
  {
    if rows != [] {
      var init, last := rows[..|rows| - 1], rows[|rows| - 1];
      DirtyPathsEmpty(init);
      assert rows == init + [last];
    }
  }

  /** The `data.forEach` loop of cli.js:68-75: collects the `to` path of
      every dirty row; no rows at all (`data` unset) yields none. */
  method CollectDirty(data: Option<seq<StatusRow>>) returns (dirty: seq<String>)
    ensures data.None? ==> dirty == []
    ensures data.Some? ==> dirty == DirtyPaths(data.value)
  {
    dirty := [];
    if data.Some? {
      var rows := data.value;
      for i := 0 to |rows|
        invariant dirty == DirtyPaths(rows[..i])
      {
        assert rows[..i + 1][..i] == rows[..i];
        if IsDirty(rows[i]) {
          dirty := dirty + [rows[i].to];
        }
      }
      assert rows[..|rows|] == rows;
    }
  }

  const NotARepo: String := "not a git repository"

  /** `err.match(/not a git repository/i)`: the phrase occurs in the error,
      compared without regard to ASCII letter case. */
  predicate MentionsNotARepo(err: String)
  {
    exists i | 0 <= i <= |err| - |NotARepo| :: MentionsAt(err, i)
  }

  predicate MentionsAt(err: String, i: int)
    requires 0 <= i <= |err| - |NotARepo|
  {
    Lower(err[i..i + |NotARepo|]) == NotARepo
  }

  /** The rows of the status report, if there is one. */
  function Rows(data: Option<seq<StatusRow>>): seq<StatusRow>
  {
    if data.Some? then data.value else []
  }

  /** The gitStatus callback (cli.js:58-86). Any error other than "not a
      git repository" aborts with that error; any dirty row aborts with the
      list of dirty paths; otherwise the run goes ahead, in git mode exactly
      when there was no error at all. */
  method CheckStatus(err: String, data: Option<seq<StatusRow>>) returns (r: Result<bool>)
    ensures err != "" && !MentionsNotARepo(err) ==> r == Err(StatusFailed(err))
    ensures (err == "" || MentionsNotARepo(err)) ==>
      (r.Ok? <==> forall row | row in Rows(data) :: !IsDirty(row))
    ensures (err == "" || MentionsNotARepo(err)) && r.Err? ==>
      r.error.DirtyTree? && r.error.files == DirtyPaths(Rows(data)) && r.error.files != []
    ensures r.Ok? ==> r.value == (err == "")
  {
    if err != "" && !MentionsNotARepo(err) {
      return Err(StatusFailed(err));
    }
    var dirty := CollectDirty(data);
    DirtyPathsEmpty(Rows(data));
    if |dirty| > 0 {
      return Err(DirtyTree(dirty));
    }
    return Ok(err == "");
  }
}
