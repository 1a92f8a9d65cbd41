/** The three string helpers at the top of cli.js: `camelCaseToKebab`, which
    turns a name (or a whole path) into kebab-case, and `splitpath` and
    `fixpath`, which separate the last `/`-segment of a path from its
    directory part. All three are total functions on strings. */
module Naming {
  import opened Text

  /** The whitespace run at the front of `s` removed. */
  function SkipSpaces(s: String): (r: String)
    ensures |r| <= |s| && r == s[|s| - |r|..]
    ensures r == [] || !IsSpace(r[0])
  {
    if s != [] && IsSpace(s[0]) then SkipSpaces(s[1..]) else s
  }

  /** `s.replace(/\s+/g, '-')`: each maximal whitespace run becomes one `-`. */
  function DashSpaces(s: String): String
    decreases |s|
  {
    if s == [] then []
    else if IsSpace(s[0]) then "-" + DashSpaces(SkipSpaces(s))
    else [s[0]] + DashSpaces(s[1..])
  }

  /** A lower-case letter directly followed by an upper-case one somewhere in `s`. */
  predicate HasBoundary(s: String)
  {
    exists i :: 0 <= i < |s| - 1 && IsLower(s[i]) && IsUpper(s[i + 1])
  }

  /** `s.replace(/([a-z])([A-Z])/g, '$1-$2')`. Matches cannot overlap (the
      second letter of a match is upper case and cannot start another), so
      this is "a `-` at every lower/upper boundary". */
  function Hyphenate(s: String): String
  {
    if |s| < 2 then s
    else if IsLower(s[0]) && IsUpper(s[1]) then [s[0], '-'] + Hyphenate(s[1..])
    else [s[0]] + Hyphenate(s[1..])
  }

  /** `camelCaseToKebab` (cli.js:9-12). The result never holds an upper-case
      letter or whitespace. */
  function CamelCaseToKebab(s: String): (r: String)
    ensures NoUpper(r) && NoSpace(r)
  {
    var d := DashSpaces(s);
    var h := Hyphenate(d);
    DashSpacesNoSpaceOut(s);
    HyphenateChars(d);
    LowerNoUpper(h);
    LowerNoSpace(h);
    Lower(h)
  }

  /** Everything `SkipSpaces` drops is whitespace. */
  lemma {:induction false} SkipSpacesDropped(s: String)
    ensures forall i :: 0 <= i < |s| - |SkipSpaces(s)| ==> IsSpace(s[i])
  {
    if s != [] && IsSpace(s[0]) {
      SkipSpacesDropped(s[1..]);
      assert forall i :: 1 <= i < |s| ==> s[i] == s[1..][i - 1];
    }
  }

  /** `DashSpaces` leaves no whitespace. */
  lemma {:induction false} DashSpacesNoSpaceOut(s: String)
    ensures NoSpace(DashSpaces(s))
    decreases |s|
  {
    if s != [] {
      if IsSpace(s[0]) {
        DashSpacesNoSpaceOut(SkipSpaces(s));
      } else {
        DashSpacesNoSpaceOut(s[1..]);
      }
    }
  }

  /** `Hyphenate` only adds `-` characters. */
  lemma {:induction false} HyphenateChars(s: String)
    ensures forall c | c in Hyphenate(s) :: c == '-' || c in s
  {
    if |s| >= 2 {
      HyphenateChars(s[1..]);
      assert forall c | c in s[1..] :: c in s;
    }
  }

  lemma SkipAllSpaces(w: String)
    requires forall c | c in w :: IsSpace(c)
    ensures SkipSpaces(w) == []
  {
  }

  lemma {:induction false} SkipSpacesAppend(p: String, q: String)
    ensures SkipSpaces(p + q) == if SkipSpaces(p) == [] then SkipSpaces(q) else SkipSpaces(p) + q
  {
    if p == [] {
      assert p + q == q;
    } else if IsSpace(p[0]) {
      assert (p + q)[1..] == p[1..] + q;
      SkipSpacesAppend(p[1..], q);
    }
  }

  /** `DashSpaces` works piece by piece as long as no whitespace run is cut in two. */
  lemma {:induction false} DashSpacesAppend(p: String, q: String)
    requires p == [] || q == [] || !IsSpace(p[|p| - 1]) || !IsSpace(q[0])
    ensures DashSpaces(p + q) == DashSpaces(p) + DashSpaces(q)
    decreases |p|
  {
    if p == [] {
      assert p + q == q;
    } else if !IsSpace(p[0]) {
      assert (p + q)[1..] == p[1..] + q;
      DashSpacesAppend(p[1..], q);
    } else {
      var t := SkipSpaces(p);
      if t != [] {
        assert t[|t| - 1] == p[|p| - 1];
        DashSpacesAppend(t, q);
      }
      DashSpacesAppendRun(p, q);
    }
  }

  /** A leading whitespace run becomes one `-`. */
  lemma DashSpacesLead(s: String)
    requires s != [] && IsSpace(s[0])
    ensures DashSpaces(s) == "-" + DashSpaces(SkipSpaces(s))
  {
  }

  /** The step of `DashSpacesAppend` for a leading whitespace run, given the
      claim for what follows the run. */
  lemma DashSpacesAppendRun(p: String, q: String)
    requires p != [] && IsSpace(p[0])
    requires q == [] || !IsSpace(p[|p| - 1]) || !IsSpace(q[0])
    requires SkipSpaces(p) != [] ==> DashSpaces(SkipSpaces(p) + q) == DashSpaces(SkipSpaces(p)) + DashSpaces(q)
    ensures DashSpaces(p + q) == DashSpaces(p) + DashSpaces(q)
  {
    var t := SkipSpaces(p);
    SkipSpacesAppend(p, q);
    assert (p + q)[0] == p[0];
    DashSpacesLead(p + q);
    DashSpacesLead(p);
    if t == [] {
      SkipSpacesDropped(p);
      assert IsSpace(p[|p| - 1]);
      assert SkipSpaces(q) == q;
      assert DashSpaces(t) == [];
      assert DashSpaces(p) == "-";
    } else {
      var a, b := DashSpaces(t), DashSpaces(q);
      assert DashSpaces(p + q) == "-" + (a + b);
      ConcatAssoc("-", a, b);
    }
  }

  /** A string without whitespace is left alone by `DashSpaces`. */
  lemma {:induction false} DashSpacesNoSpace(s: String)
    requires NoSpace(s)
    ensures DashSpaces(s) == s
  {
    if s != [] {
      assert s[0] in s;
      DashSpacesNoSpace(s[1..]);
    }
  }

  lemma ConcatAssoc(x: String, y: String, z: String)
    ensures x + (y + z) == (x + y) + z
  {
  }

  /** A leading whitespace run becomes one `-`. */
  lemma DashSpacesLeadingRun(w: String, q: String)
    requires |w| > 0 && forall c | c in w :: IsSpace(c)
    requires q == [] || !IsSpace(q[0])
    ensures DashSpaces(w + q) == "-" + DashSpaces(q)
  {
    var wq := w + q;
    assert wq[0] == w[0] && w[0] in w;
    SkipAllSpaces(w);
    SkipSpacesAppend(w, q);
    assert SkipSpaces(wq) == q;
  }

  /** Each whitespace run, between text that is not whitespace, becomes
      exactly one `-`; with `DashSpacesNoSpace` this determines `DashSpaces`. */
  lemma DashSpacesRun(p: String, w: String, q: String)
    requires p == [] || !IsSpace(p[|p| - 1])
    requires |w| > 0 && forall c | c in w :: IsSpace(c)
    requires q == [] || !IsSpace(q[0])
    ensures DashSpaces(p + (w + q)) == DashSpaces(p) + ("-" + DashSpaces(q))
  {
    DashSpacesAppend(p, w + q);
    DashSpacesLeadingRun(w, q);
  }

  /** `DashSpaces` produces a `-` exactly where the input had one or had whitespace. */
  lemma {:induction false} DashSpacesHyphen(s: String)
    ensures '-' in DashSpaces(s) <==> '-' in s || !NoSpace(s)
    decreases |s|
  {
    if s != [] {
      if IsSpace(s[0]) {
        assert s[0] in s;
      } else {
        DashSpacesHyphen(s[1..]);
        assert s == [s[0]] + s[1..];
        assert forall c | c in s[1..] :: c in s;
      }
    }
  }

  /** `Hyphenate` works piece by piece, adding one `-` at the seam exactly
      when a lower-case letter meets an upper-case one there. */
  lemma {:induction false} HyphenateAppend(p: String, q: String)
    requires |p| >= 1 && |q| >= 1
    ensures Hyphenate(p + q) ==
      Hyphenate(p) + (if IsLower(p[|p| - 1]) && IsUpper(q[0]) then "-" else "") + Hyphenate(q)
  {
    if |p| >= 2 {
      assert (p + q)[1..] == p[1..] + q;
      HyphenateAppend(p[1..], q);
    } else {
      assert (p + q)[1..] == q;
    }
  }

  /** Without a lower/upper boundary `Hyphenate` changes nothing. */
  lemma {:induction false} HyphenateNoBoundary(s: String)
    requires !HasBoundary(s)
    ensures Hyphenate(s) == s
  {
    if |s| >= 2 {
      assert !(IsLower(s[0]) && IsUpper(s[1]));
      assert !HasBoundary(s[1..]) by {
        forall i | 0 <= i < |s[1..]| - 1 ensures !(IsLower(s[1..][i]) && IsUpper(s[1..][i + 1])) {
          assert s[1..][i] == s[i + 1] && s[1..][i + 1] == s[i + 2];
        }
      }
      HyphenateNoBoundary(s[1..]);
    }
  }

  /** `Hyphenate` produces a `-` exactly where the input had one or had a boundary. */
  lemma {:induction false} HyphenateHyphen(s: String)
    ensures '-' in Hyphenate(s) <==> '-' in s || HasBoundary(s)
  {
    if |s| >= 2 {
      HyphenateHyphen(s[1..]);
      assert s == [s[0]] + s[1..];
      assert HasBoundary(s[1..]) ==> HasBoundary(s) by {
        if HasBoundary(s[1..]) {
          var i :| 0 <= i < |s[1..]| - 1 && IsLower(s[1..][i]) && IsUpper(s[1..][i + 1]);
          assert IsLower(s[i + 1]) && IsUpper(s[i + 2]);
        }
      }
      assert HasBoundary(s) ==> (IsLower(s[0]) && IsUpper(s[1])) || HasBoundary(s[1..]) by {
        if HasBoundary(s) {
          var i :| 0 <= i < |s| - 1 && IsLower(s[i]) && IsUpper(s[i + 1]);
          if i > 0 {
            assert s[1..][i - 1] == s[i] && s[1..][i] == s[i + 1];
          }
        }
      }
    } else if |s| == 1 {
      assert !HasBoundary(s);
    }
  }

  /** `camelCaseToKebab` leaves a string unchanged exactly when it has no
      upper-case letter and no whitespace. */
  lemma KebabFixpoint(s: String)
    ensures CamelCaseToKebab(s) == s <==> NoUpper(s) && NoSpace(s)
  {
    if NoUpper(s) && NoSpace(s) {
      DashSpacesNoSpace(s);
      HyphenateNoBoundary(s);
      LowerFixpoint(s);
    }
  }

  /** Normalising an already normalised name changes nothing. */
  lemma KebabIdempotent(s: String)
    ensures CamelCaseToKebab(CamelCaseToKebab(s)) == CamelCaseToKebab(s)
  {
    KebabFixpoint(CamelCaseToKebab(s));
  }

  /** The kebab form holds a `-` exactly when the input holds a `-`, any
      whitespace, or a lower-case letter followed by an upper-case one.
      This is the test cli.js:111 and cli.js:122 apply to choose between a
      direct and a two-step move. */
  lemma KebabHyphen(s: String)
    ensures '-' in CamelCaseToKebab(s) <==> '-' in s || !NoSpace(s) || HasBoundary(s)
  {
    var d := DashSpaces(s);
    var h := Hyphenate(d);
    LowerKeepsOthers(h, '-');
    HyphenateHyphen(d);
    DashSpacesHyphen(s);
    if NoSpace(s) {
      DashSpacesNoSpace(s);
    }
  }

  /** The kebab form is empty exactly when the input is. */
  lemma KebabEmpty(s: String)
    ensures CamelCaseToKebab(s) == [] <==> s == []
  {
    if s != [] {
      var d := DashSpaces(s);
      assert d != [];
      assert |Hyphenate(d)| >= 1 by {
        if |d| >= 2 { assert Hyphenate(d)[0] == d[0]; }
      }
    }
  }

  /** `DashSpaces` keeps a last character that is not whitespace. */
  lemma DashSpacesLast(p: String)
    requires |p| >= 1 && !IsSpace(p[|p| - 1])
    ensures |DashSpaces(p)| >= 1 && DashSpaces(p)[|DashSpaces(p)| - 1] == p[|p| - 1]
  {
    var n := |p|;
    var init, c := p[..n - 1], [p[n - 1]];
    assert p == init + c;
    DashSpacesAppend(init, c);
    DashSpacesHead(c);
    assert DashSpaces(c) == c;
    LastOfConcat(DashSpaces(init), c);
  }

  /** `DashSpaces` unfolded once at a character that is not whitespace. */
  lemma DashSpacesHead(s: String)
    requires s != [] && !IsSpace(s[0])
    ensures DashSpaces(s) == [s[0]] + DashSpaces(s[1..])
  {
  }

  /** The last character of a concatenation with a non-empty right part. */
  lemma LastOfConcat(a: String, b: String)
    requires |b| >= 1
    ensures |a + b| >= 1 && (a + b)[|a + b| - 1] == b[|b| - 1]
  {
  }

  /** `camelCaseToKebab` works piece by piece: cut anywhere outside a
      whitespace run, the two halves are normalised on their own and a `-`
      joins them exactly when a lower-case letter meets an upper-case one at
      the cut. */
  lemma KebabSeam(p: String, q: String)
    requires |p| >= 1 && |q| >= 1
    requires !IsSpace(p[|p| - 1]) && !IsSpace(q[0])
    ensures CamelCaseToKebab(p + q) ==
      CamelCaseToKebab(p) + (if IsLower(p[|p| - 1]) && IsUpper(q[0]) then "-" else "") + CamelCaseToKebab(q)
  {
    SeamSteps(p, q);
  }

  /** `KebabSeam` on the three steps of `camelCaseToKebab` written out. */
  lemma SeamSteps(p: String, q: String)
    requires |p| >= 1 && |q| >= 1
    requires !IsSpace(p[|p| - 1]) && !IsSpace(q[0])
    ensures Lower(Hyphenate(DashSpaces(p + q))) ==
      Lower(Hyphenate(DashSpaces(p))) + (if IsLower(p[|p| - 1]) && IsUpper(q[0]) then "-" else "") +
      Lower(Hyphenate(DashSpaces(q)))
  {
    var dp, dq := DashSpaces(p), DashSpaces(q);
    DashSpacesAppend(p, q);
    DashSpacesLast(p);
    DashSpacesHead(q);
    var seam := if IsLower(p[|p| - 1]) && IsUpper(q[0]) then "-" else "";
    HyphenateAppend(dp, dq);
    LowerSeam(Hyphenate(dp), seam, Hyphenate(dq));
  }

  /** Lowercasing three pieces when the middle one is `-` or empty. */
  lemma LowerSeam(a: String, seam: String, b: String)
    requires seam == "-" || seam == ""
    ensures Lower(a + seam + b) == Lower(a) + seam + Lower(b)
  {
    LowerAppend(a + seam, b);
    LowerAppend(a, seam);
    assert Lower(seam) == seam;
  }

  /** A single character that is not whitespace is only lowercased. */
  lemma KebabChar(c: char)
    requires !IsSpace(c)
    ensures CamelCaseToKebab([c]) == [LowerChar(c)]
  {
    assert [c][1..] == [];
    assert DashSpaces([c]) == [c] + DashSpaces([]);
  }

  /** The renamed file of the end-to-end scenario (cli.test.js:79):
      `MyWidget.js` becomes `my-widget.js`. The name is given in two pieces
      so that the proof goes through `KebabSeam` instead of evaluating the
      function character by character. */
  lemma KebabExample(my: String, widget: String)
    requires my == "My" && widget == "Widget.js"
    ensures CamelCaseToKebab(my + widget) == "my-widget.js"
  {
    KebabSeam(my, widget);
    ExampleMy("M", "y");
    ExampleWidget("W", "idget.js");
  }

  lemma ExampleMy(m: String, y: String)
    requires m == "M" && y == "y"
    ensures CamelCaseToKebab(m + y) == "my"
  {
    KebabSeam(m, y);
    KebabChar('M');
    KebabFixpoint(y);
  }

  lemma ExampleWidget(w: String, t: String)
    requires w == "W" && t == "idget.js"
    ensures CamelCaseToKebab(w + t) == "widget.js"
  {
    assert CamelCaseToKebab(t) == t by {
      assert NoUpper(t) && NoSpace(t);
      KebabFixpoint(t);
    }
    KebabChar('W');
    KebabSeam(w, t);
  }

  /** `splitpath` (cli.js:14-19): the text after the last `/` and the text
      before it; a path without `/` is all file name, with an empty directory. */
  function SplitPath(filepath: String): (r: (String, String))
    ensures '/' !in r.1
    ensures '/' in filepath ==> r.0 + "/" + r.1 == filepath
    ensures '/' !in filepath ==> r.0 == [] && r.1 == filepath
  {
    var parts := Split(filepath, '/');
    var n := |parts|;
    assert parts[n - 1] in parts;
    JoinSplit(filepath, '/');
    SplitCount(filepath, '/');
    if n >= 2 then
      JoinAppend(parts[..n - 1], [parts[n - 1]], '/');
      assert parts[..n - 1] + [parts[n - 1]] == parts;
      (Join(parts[..n - 1], '/'), parts[n - 1])
    else
      (Join(parts[..n - 1], '/'), parts[n - 1])
  }

  /** `fixpath` (cli.js:21-24): lowercases the input up to and including its
      last `/` and keeps the file name verbatim; a path without `/` gets a
      leading `/`. */
  function FixPath(p: String): (r: String)
    ensures '/' in p ==> |r| == |p|
    ensures '/' in p ==> var n := |p| - |SplitPath(p).1|; r == Lower(p[..n]) + p[n..]
    ensures '/' !in p ==> r == "/" + p
  {
    var (path, file) := SplitPath(p);
    if '/' in p then
      var n := |p| - |file|;
      assert p[..n] == path + "/" && p[n..] == file;
      LowerAppend(path, "/");
      Lower(path) + "/" + file
    else
      Lower(path) + "/" + file
  }
}
