/** What the rename planner promises: the plan only grows and never
    rewrites a recorded directory, ancestor moves are exactly the
    lower-casing moves of the not yet recorded ancestors with an upper-case
    name, outermost first, the two-step rule through `.temp-rename`, and
    the "nothing to rename" abort. */
module PlannerFacts {
  import opened Text
  import opened Naming
  import opened Failures
  import opened Planner

  /** `q` is `p` with things appended: commands and keys only added at the
      end, and every recorded value kept. */
  ghost predicate Extends(p: Plan, q: Plan)
  {
    && q.proto == p.proto
    && |p.commands| <= |q.commands| && q.commands[..|p.commands|] == p.commands
    && |p.order| <= |q.order| && q.order[..|p.order|] == p.order
    && (forall k | k in p.paths :: k in q.paths && q.paths[k] == p.paths[k])
  }

  /** The commands `q` has beyond those of `p`. */
  function NewCommands(p: Plan, q: Plan): seq<Command>
  {
    if |p.commands| <= |q.commands| then q.commands[|p.commands|..] else []
  }

  /** `t` names a directory strictly above the end of `path`: `t + "/"` starts `path`. */
  predicate IsAncestor(t: String, path: String)
  {
    |t| < |path| && path[..|t| + 1] == t + "/"
  }

  /** The last `/`-segment of a path. */
  function LastSegment(t: String): String
  {
    SplitPath(t).1
  }

  /** The directory the ancestor loop has reached after `k` names: `tp` without its trailing `/`. */
  function KeyOf(dirs: seq<String>, k: int): String
    requires 1 <= k <= |dirs|
  {
    Tp(dirs[..k - 1]) + dirs[k - 1]
  }

  /** The moves the ancestor loop appends for a file in directory `path`. */
  function AncestorMoves(p: Plan, path: String): seq<Command>
  {
    NewCommands(p, Ancestors(p, Dirs(path)))
  }

  /** A chain of moves taking `src` to `dst`, each starting where the previous one ended. */
  predicate Chain(moves: seq<Command>, src: String, dst: String)
  {
    && |moves| >= 1
    && (forall i | 0 <= i < |moves| :: moves[i].Mv?)
    && moves[0].src == src && moves[|moves| - 1].dst == dst
    && (forall i | 0 <= i < |moves| - 1 :: moves[i].dst == moves[i + 1].src)
  }

  // ---------------------------------------------------------------------
  // The plan only grows

  lemma ExtendsTrans(p: Plan, q: Plan, r: Plan)
    requires Extends(p, q) && Extends(q, r)
    ensures Extends(p, r)
  {
    assert r.commands[..|p.commands|] == r.commands[..|q.commands|][..|p.commands|];
    assert r.order[..|p.order|] == r.order[..|q.order|][..|p.order|];
  }

  /** A key with a truthy value keeps it as the plan grows. */
  lemma KnownStays(p: Plan, q: Plan, k: String)
    requires Extends(p, q) && Known(p, k)
    ensures Known(q, k)
  {
  }

  lemma InitValid()
    ensures Valid(Init())
  {
  }

  /** Recording a new key with a non-empty value and appending moves keeps the invariant. */
  lemma RecordValid(p: Plan, k: String, v: String, moves: seq<Command>)
    requires Valid(p) && !Known(p, k) && v != []
    requires forall i | 0 <= i < |moves| :: moves[i].Mv?
    ensures Valid(Record(p, k, v, moves)) && Extends(p, Record(p, k, v, moves))
    ensures Record(p, k, v, moves).commands == p.commands + moves
  {
    var q := Record(p, k, v, moves);
    assert k !in p.order;
    assert q.order == p.order + [k];
    assert q.order[..|p.order|] == p.order;
    assert q.commands[..|p.commands|] == p.commands;
    forall i | 1 <= i < |q.commands| ensures q.commands[i].Mv? {
      if i >= |p.commands| {
        assert q.commands[i] == moves[i - |p.commands|];
      }
    }
  }

  /** The accumulator ends in `/`; cutting it off leaves the directory reached. */
  lemma TpTrim(dirs: seq<String>)
    requires |dirs| >= 1
    ensures TrimSlash(Tp(dirs)) == KeyOf(dirs, |dirs|)
    ensures |Tp(dirs)| == |KeyOf(dirs, |dirs|)| + 1
  {
    var t := KeyOf(dirs, |dirs|);
    assert Tp(dirs) == t + "/";
    assert (t + "/")[..|t|] == t;
  }

  /** The ancestor loop keeps the invariant, only appends, and records only
      keys shorter than its accumulator. */
  lemma {:induction false} AncestorsExtend(p: Plan, dirs: seq<String>)
    requires Valid(p)
    ensures Valid(Ancestors(p, dirs)) && Extends(p, Ancestors(p, dirs))
    ensures forall k | k in Ancestors(p, dirs).paths && k !in p.paths :: |k| < |Tp(dirs)|
  {
    if dirs != [] {
      var n := |dirs|;
      var init, d := dirs[..n - 1], dirs[n - 1];
      var cur := Ancestors(p, init);
      AncestorsExtend(p, init);
      TpTrim(dirs);
      var t := KeyOf(dirs, n);
      if HasUpper(d) && !Known(cur, t) {
        assert d != [];
        RecordValid(cur, t, Lower(t), [Mv(t, Lower(t))]);
        ExtendsTrans(p, cur, Ancestors(p, dirs));
      }
    }
  }

  /** The segment after the last `/` of `tp + d` is `d`. */
  lemma LastSegmentOf(dirs: seq<String>, d: String)
    requires '/' !in d
    ensures LastSegment(Tp(dirs) + d) == d
  {
    if dirs == [] {
      SplitNoSep(d, '/');
    } else {
      var a := Tp(dirs[..|dirs| - 1]) + dirs[|dirs| - 1];
      assert Tp(dirs) + d == a + ['/'] + d;
      SplitAppend(a, '/', d);
      SplitNoSep(d, '/');
    }
  }

  /** A move the ancestor loop may append when the accumulator is `under`:
      it lower-cases a directory above `under` whose own name has an
      upper-case letter and which `p` does not know. */
  predicate AncestorMove(p: Plan, c: Command, under: String)
  {
    && c.Mv? && c.dst == Lower(c.src)
    && IsAncestor(c.src, under)
    && HasUpper(LastSegment(c.src))
    && !Known(p, c.src)
  }

  /** Moves whose sources get strictly longer: outer directories first. */
  predicate Outward(moves: seq<Command>)
  {
    forall i, j | 0 <= i < j < |moves| :: moves[i].Mv? && moves[j].Mv? && |moves[i].src| < |moves[j].src|
  }

  /** The last round of the ancestor loop, unfolded once: it appends at most
      the one move of the directory it reaches. */
  lemma AncestorsLast(p: Plan, dirs: seq<String>)
    requires Valid(p) && |dirs| >= 1
    ensures var init, d := dirs[..|dirs| - 1], dirs[|dirs| - 1];
      var cur, q, t := Ancestors(p, init), Ancestors(p, dirs), KeyOf(dirs, |dirs|);
      var extra := if HasUpper(d) && !Known(cur, t) then [Mv(t, Lower(t))] else [];
      && Valid(cur) && Extends(p, cur) && Valid(q) && Extends(cur, q)
      && Tp(dirs) == t + "/" && |Tp(init)| <= |t|
      && q.commands == cur.commands + extra
      && NewCommands(p, q) == NewCommands(p, cur) + extra
      && (extra == [] ==> q == cur)
      && (extra != [] ==> q.paths == cur.paths[t := Lower(t)])
  {
    var n := |dirs|;
    var init, d := dirs[..n - 1], dirs[n - 1];
    var cur, q := Ancestors(p, init), Ancestors(p, dirs);
    AncestorsExtend(p, init);
    TpTrim(dirs);
    var t := KeyOf(dirs, n);
    if HasUpper(d) && !Known(cur, t) {
      assert d != [];
      RecordValid(cur, t, Lower(t), [Mv(t, Lower(t))]);
    }
    NewCommandsAppend(p, cur, q, if HasUpper(d) && !Known(cur, t) then [Mv(t, Lower(t))] else []);
  }

  lemma NewCommandsAppend(p: Plan, cur: Plan, q: Plan, extra: seq<Command>)
    requires |p.commands| <= |cur.commands| && q.commands == cur.commands + extra
    ensures NewCommands(p, q) == NewCommands(p, cur) + extra
  {
    var a, b := NewCommands(p, q), NewCommands(p, cur) + extra;
    assert |a| == |b|;
    forall i | 0 <= i < |a| ensures a[i] == b[i] {
      if i < |cur.commands| - |p.commands| {
        assert a[i] == cur.commands[|p.commands| + i];
      }
    }
  }

  /** Growing the accumulator keeps a move above it. */
  lemma AncestorMoveWiden(p: Plan, c: Command, a: String, b: String)
    requires AncestorMove(p, c, a) && |a| <= |b| && b[..|a|] == a
    ensures AncestorMove(p, c, b)
  {
    assert b[..|c.src| + 1] == a[..|c.src| + 1];
  }

  /** The move the last round of the ancestor loop may append is an ancestor move. */
  lemma AncestorsLastMove(p: Plan, dirs: seq<String>)
    requires Valid(p) && |dirs| >= 1 && '/' !in dirs[|dirs| - 1]
    requires HasUpper(dirs[|dirs| - 1]) && !Known(Ancestors(p, dirs[..|dirs| - 1]), KeyOf(dirs, |dirs|))
    ensures AncestorMove(p, Mv(KeyOf(dirs, |dirs|), Lower(KeyOf(dirs, |dirs|))), Tp(dirs))
  {
    var n := |dirs|;
    var init := dirs[..n - 1];
    var t := KeyOf(dirs, n);
    AncestorsExtend(p, init);
    TpTrim(dirs);
    LastSegmentOf(init, dirs[n - 1]);
    if Known(p, t) {
      KnownStays(p, Ancestors(p, init), t);
    }
  }

  /** The moves of earlier rounds stay above the grown accumulator. */
  lemma AncestorsWiden(p: Plan, dirs: seq<String>, before: seq<Command>)
    requires |dirs| >= 1
    requires forall c | c in before :: AncestorMove(p, c, Tp(dirs[..|dirs| - 1]))
    ensures forall c | c in before :: AncestorMove(p, c, Tp(dirs)) && |c.src| < |Tp(dirs[..|dirs| - 1])|
  {
    var init := dirs[..|dirs| - 1];
    assert Tp(dirs)[..|Tp(init)|] == Tp(init);
    forall c | c in before ensures AncestorMove(p, c, Tp(dirs)) {
      AncestorMoveWiden(p, c, Tp(init), Tp(dirs));
    }
  }

  /** The part of `AncestorsLast` about the moves appended since `p`. */
  lemma AncestorsLastNew(p: Plan, dirs: seq<String>)
    requires Valid(p) && |dirs| >= 1
    ensures var init, t := dirs[..|dirs| - 1], KeyOf(dirs, |dirs|);
      var cur := Ancestors(p, init);
      && NewCommands(p, Ancestors(p, dirs)) ==
        NewCommands(p, cur) + (if HasUpper(dirs[|dirs| - 1]) && !Known(cur, t) then [Mv(t, Lower(t))] else [])
      && |Tp(init)| <= |t|
  {
    AncestorsLast(p, dirs);
  }

  /** One round of the induction of `AncestorsSound`. */
  lemma AncestorsSoundStep(p: Plan, dirs: seq<String>)
    requires Valid(p) && |dirs| >= 1 && '/' !in dirs[|dirs| - 1]
    requires var before := NewCommands(p, Ancestors(p, dirs[..|dirs| - 1]));
      (forall c | c in before :: AncestorMove(p, c, Tp(dirs[..|dirs| - 1]))) && Outward(before)
    ensures var moves := NewCommands(p, Ancestors(p, dirs));
      (forall c | c in moves :: AncestorMove(p, c, Tp(dirs))) && Outward(moves)
  {
    var n := |dirs|;
    var init, d := dirs[..n - 1], dirs[n - 1];
    var cur := Ancestors(p, init);
    var t := KeyOf(dirs, n);
    AncestorsLastNew(p, dirs);
    var before := NewCommands(p, cur);
    AncestorsWiden(p, dirs, before);
    if HasUpper(d) && !Known(cur, t) {
      AncestorsLastMove(p, dirs);
      OutwardAppend(before, Mv(t, Lower(t)), |Tp(init)|);
    }
  }

  /** A move whose source is at least as long as all earlier ones keeps the order outward. */
  lemma OutwardAppend(before: seq<Command>, c: Command, bound: int)
    requires Outward(before) && c.Mv? && |c.src| >= bound
    requires forall x | x in before :: x.Mv? && |x.src| < bound
    ensures Outward(before + [c])
  {
    var moves := before + [c];
    forall i, j | 0 <= i < j < |moves| ensures moves[i].Mv? && moves[j].Mv? && |moves[i].src| < |moves[j].src| {
      assert moves[i] == before[i];
      if j < |before| {
        assert moves[j] == before[j];
      }
    }
  }

  /** Every move the ancestor loop appends lower-cases a directory that lies
      above the accumulator, whose own name has an upper-case letter and
      that was not known before; the moves come outermost first. */
  lemma {:induction false} AncestorsSound(p: Plan, dirs: seq<String>)
    requires Valid(p)
    requires forall d | d in dirs :: '/' !in d
    ensures var moves := NewCommands(p, Ancestors(p, dirs));
      (forall c | c in moves :: AncestorMove(p, c, Tp(dirs))) && Outward(moves)
  {
    if dirs != [] {
      var init := dirs[..|dirs| - 1];
      assert dirs[|dirs| - 1] in dirs;
      assert forall x | x in init :: x in dirs;
      AncestorsSound(p, init);
      AncestorsSoundStep(p, dirs);
    }
  }

  /** Distinct numbers of names give distinct directories. */
  lemma KeyOfPrefix(dirs: seq<String>, k: int)
    requires 1 <= k < |dirs|
    ensures KeyOf(dirs[..|dirs| - 1], k) == KeyOf(dirs, k)
  {
    assert dirs[..|dirs| - 1][..k - 1] == dirs[..k - 1];
  }

  lemma {:induction false} TpLength(dirs: seq<String>, k: int)
    requires 1 <= k <= |dirs|
    ensures |KeyOf(dirs, k)| < |Tp(dirs)|
  {
    if k < |dirs| {
      var init := dirs[..|dirs| - 1];
      KeyOfPrefix(dirs, k);
      TpLength(init, k);
    }
  }

  /** One round of the induction of `AncestorsComplete`. */
  lemma AncestorsCompleteStep(p: Plan, dirs: seq<String>)
    requires Valid(p) && |dirs| >= 1
    requires var init := dirs[..|dirs| - 1];
      forall k | 1 <= k <= |init| && HasUpper(init[k - 1]) && !Known(p, KeyOf(init, k)) ::
        Mv(KeyOf(init, k), Lower(KeyOf(init, k))) in NewCommands(p, Ancestors(p, init))
    ensures forall k | 1 <= k <= |dirs| && HasUpper(dirs[k - 1]) && !Known(p, KeyOf(dirs, k)) ::
      Mv(KeyOf(dirs, k), Lower(KeyOf(dirs, k))) in NewCommands(p, Ancestors(p, dirs))
  {
    var n := |dirs|;
    var init := dirs[..n - 1];
    var cur := Ancestors(p, init);
    var t := KeyOf(dirs, n);
    AncestorsLast(p, dirs);
    AncestorsExtend(p, init);
    forall k | 1 <= k <= n && HasUpper(dirs[k - 1]) && !Known(p, KeyOf(dirs, k))
      ensures Mv(KeyOf(dirs, k), Lower(KeyOf(dirs, k))) in NewCommands(p, Ancestors(p, dirs))
    {
      if k < n {
        KeyOfPrefix(dirs, k);
      } else {
        assert t !in cur.paths || t in p.paths;
      }
    }
  }

  /** The ancestor loop moves every directory above the accumulator whose
      name has an upper-case letter and that was not known before. */
  lemma {:induction false} AncestorsComplete(p: Plan, dirs: seq<String>)
    requires Valid(p)
    ensures forall k | 1 <= k <= |dirs| && HasUpper(dirs[k - 1]) && !Known(p, KeyOf(dirs, k)) ::
      Mv(KeyOf(dirs, k), Lower(KeyOf(dirs, k))) in NewCommands(p, Ancestors(p, dirs))
  {
    if dirs != [] {
      AncestorsComplete(p, dirs[..|dirs| - 1]);
      AncestorsCompleteStep(p, dirs);
    }
  }

  /** After the ancestor loop every directory it visits with an upper-case name is known. */
  lemma {:induction false} AncestorsCover(p: Plan, dirs: seq<String>)
    requires Valid(p)
    ensures forall k | 1 <= k <= |dirs| && HasUpper(dirs[k - 1]) :: Known(Ancestors(p, dirs), KeyOf(dirs, k))
  {
    if dirs != [] {
      var n := |dirs|;
      var init := dirs[..n - 1];
      var cur, q := Ancestors(p, init), Ancestors(p, dirs);
      AncestorsCover(p, init);
      AncestorsLastKnown(p, dirs);
      forall k | 1 <= k < n && HasUpper(dirs[k - 1]) ensures Known(q, KeyOf(dirs, k)) {
        KeyOfPrefix(dirs, k);
        KnownStays(cur, q, KeyOf(dirs, k));
      }
    }
  }

  /** One round of the ancestor loop keeps what was known and leaves the
      directory it visits known when its name has an upper-case letter. */
  lemma AncestorsLastKnown(p: Plan, dirs: seq<String>)
    requires Valid(p) && |dirs| >= 1
    ensures Extends(Ancestors(p, dirs[..|dirs| - 1]), Ancestors(p, dirs))
    ensures HasUpper(dirs[|dirs| - 1]) ==> Known(Ancestors(p, dirs), KeyOf(dirs, |dirs|))
  {
    AncestorsLast(p, dirs);
  }

  /** When every directory the loop would move is already known, the loop changes nothing. */
  lemma {:induction false} AncestorsIdle(p: Plan, dirs: seq<String>)
    requires forall k | 1 <= k <= |dirs| && HasUpper(dirs[k - 1]) :: Known(p, KeyOf(dirs, k))
    ensures Ancestors(p, dirs) == p
  {
    if dirs != [] {
      var n := |dirs|;
      var init := dirs[..n - 1];
      forall k | 1 <= k <= |init| && HasUpper(init[k - 1]) ensures Known(p, KeyOf(init, k)) {
        KeyOfPrefix(dirs, k);
      }
      AncestorsIdle(p, init);
      TpTrim(dirs);
    }
  }
}
