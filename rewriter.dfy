/** The second pass of cli.js (cli.js:162-185): every line of every source
    file is searched for a module reference, written with the regular
    expression of cli.js:45,
        (import\s+|from\s+|require\()['"](.*)['"]
    and the first reference found is rewritten to the kebab form of the
    quoted name. The regular expression is modelled as an explicit matcher,
    `FindReference`, proved to return the match JavaScript's backtracking
    engine returns: the leftmost start, and for it the last quote before
    the end of the line (`.*` is greedy and stops at a line terminator). */
module Rewriter {
  import opened Text
  import opened Naming
  import opened Failures

  predicate IsQuote(c: char) { c == '\'' || c == '"' }

  /** The characters `.` does not match: the ASCII line terminators. */
  predicate IsTerminator(c: char) { c == '\n' || c == '\r' }

  /** A non-empty run of `\s`. */
  predicate IsSpaceRun(s: String)
  {
    |s| > 0 && forall k | 0 <= k < |s| :: IsSpace(s[k])
  }

  /** The first group `(import\s+|from\s+|require\()` matches `w` exactly. */
  predicate IsKeyword(w: String)
  {
    || w == "require("
    || (|w| > 6 && w[..6] == "import" && IsSpaceRun(w[6..]))
    || (|w| > 4 && w[..4] == "from" && IsSpaceRun(w[4..]))
  }

  /** The pattern matches `line` from `start` with the first group ending at
      the opening quote `open` and the second group ending at the closing
      quote `close`. */
  predicate IsMatch(line: String, start: int, open: int, close: int)
  {
    && 0 <= start < open < close < |line|
    && IsKeyword(line[start..open])
    && IsQuote(line[open]) && IsQuote(line[close])
    && forall k | open < k < close :: !IsTerminator(line[k])
  }

  /** A match: `line[start..open]` is m[1] and `line[open + 1..close]` is m[2]. */
  datatype Reference = Reference(start: nat, open: nat, close: nat)

  // ---------------------------------------------------------------------
  // The matcher

  /** The end of the `\s` run that begins at `i`. */
  function SpaceEnd(line: String, i: nat): (j: nat)
    requires i <= |line|
    ensures i <= j <= |line|
    decreases |line| - i
  {
    if i < |line| && IsSpace(line[i]) then SpaceEnd(line, i + 1) else i
  }

  lemma {:induction false} SpaceEndIff(line: String, i: nat, j: nat)
    requires i <= j <= |line|
    ensures SpaceEnd(line, i) == j <==> (forall k | i <= k < j :: IsSpace(line[k])) && (j == |line| || !IsSpace(line[j]))
    decreases |line| - i
  {
    if i < |line| && IsSpace(line[i]) {
      if i < j {
        SpaceEndIff(line, i + 1, j);
      } else {
        assert SpaceEnd(line, i) >= i + 1;
      }
    }
  }

  /** An opening quote at `o`. */
  function QuoteAt(line: String, o: nat): Option<nat>
  {
    if o < |line| && IsQuote(line[o]) then Some(o) else None
  }

  /** `word` occurs in `line` at `s`. */
  predicate WordAt(line: String, s: nat, word: String)
  {
    s + |word| <= |line| && line[s..s + |word|] == word
  }

  /** The position of the opening quote when the first group matches at `s`. */
  function KeywordEnd(line: String, s: nat): (r: Option<nat>)
    requires s <= |line|
    ensures r.Some? ==> s < r.value < |line|
  {
    if WordAt(line, s, "import") then
      var e := SpaceEnd(line, s + 6);
      if e > s + 6 then QuoteAt(line, e) else None
    else if WordAt(line, s, "from") then
      var e := SpaceEnd(line, s + 4);
      if e > s + 4 then QuoteAt(line, e) else None
    else if WordAt(line, s, "require(") then QuoteAt(line, s + 8)
    else None
  }

  lemma SliceOfSlice(line: String, s: nat, k: nat, o: nat)
    requires s + k <= o <= |line|
    ensures line[s..o][..k] == line[s..s + k] && line[s..o][k..] == line[s + k..o]
  {
  }

  /** A slice is a `\s` run exactly when it is non-empty and all spaces. */
  lemma SpaceRunSlice(line: String, i: nat, j: nat)
    requires i <= j <= |line|
    ensures IsSpaceRun(line[i..j]) <==> i < j && forall k | i <= k < j :: IsSpace(line[k])
  {
    if forall k | i <= k < j :: IsSpace(line[k]) {
      forall k | 0 <= k < j - i ensures IsSpace(line[i..j][k]) {
        assert line[i..j][k] == line[i + k];
      }
    }
    if IsSpaceRun(line[i..j]) {
      forall k | i <= k < j ensures IsSpace(line[k]) {
        assert line[k] == line[i..j][k - i];
      }
    }
  }

  /** The `import\s+` or `from\s+` alternative: `word` at `s`, then a
      space run up to a quote at `o`. */
  lemma SpacedKeywordIff(line: String, s: nat, word: String, o: int)
    requires s + |word| <= |line| && line[s..s + |word|] == word
    ensures (var e := SpaceEnd(line, s + |word|); e > s + |word| && QuoteAt(line, e) == Some(o)) <==>
      s + |word| < o < |line| && IsSpaceRun(line[s + |word|..o]) && IsQuote(line[o])
  {
    var i := s + |word|;
    var e := SpaceEnd(line, i);
    SpaceEndIff(line, i, e);
    if i < o < |line| {
      SpaceRunSlice(line, i, o);
      if IsSpaceRun(line[i..o]) && IsQuote(line[o]) {
        SpaceEndIff(line, i, o);
      }
    }
    if e > i && QuoteAt(line, e) == Some(o) {
      SpaceRunSlice(line, i, o);
    }
  }

  /** The first group followed by a quote matches at `s` exactly when
      `KeywordEnd` finds it. */
  lemma KeywordEndIff(line: String, s: nat, o: int)
    requires s <= |line|
    ensures KeywordEnd(line, s) == Some(o) <==> s < o < |line| && IsKeyword(line[s..o]) && IsQuote(line[o])
  {
    if WordAt(line, s, "import") {
      if s < o < |line| {
        KeywordAtImport(line, s, o);
      }
      SpacedKeywordIff(line, s, "import", o);
    } else if WordAt(line, s, "from") {
      if s < o < |line| {
        KeywordAtFrom(line, s, o);
      }
      SpacedKeywordIff(line, s, "from", o);
    } else if s < o < |line| {
      KeywordAt(line, s, o);
    }
  }

  /** After `import` only the `import\s+` alternative can match. */
  lemma KeywordAtImport(line: String, s: nat, o: nat)
    requires s < o <= |line| && WordAt(line, s, "import")
    ensures IsKeyword(line[s..o]) <==> s + 6 < o && IsSpaceRun(line[s + 6..o])
  {
    KeywordAt(line, s, o);
    assert line[s] == line[s..s + 6][0] == 'i';
    assert line[s..o][0] == 'i';
    assert !WordAt(line, s, "from") by {
      assert s + 4 <= |line| ==> line[s..s + 4][0] == 'i';
    }
  }

  /** After `from` only the `from\s+` alternative can match. */
  lemma KeywordAtFrom(line: String, s: nat, o: nat)
    requires s < o <= |line| && WordAt(line, s, "from")
    ensures IsKeyword(line[s..o]) <==> s + 4 < o && IsSpaceRun(line[s + 4..o])
  {
    KeywordAt(line, s, o);
    assert line[s] == line[s..s + 4][0] == 'f';
    assert line[s..o][0] == 'f';
    assert !WordAt(line, s, "import") by {
      assert s + 6 <= |line| ==> line[s..s + 6][0] == 'f';
    }
  }

  /** `IsKeyword` on a slice, stated with positions in the line. */
  lemma KeywordAt(line: String, s: nat, o: nat)
    requires s < o <= |line|
    ensures IsKeyword(line[s..o]) <==>
      || line[s..o] == "require("
      || (s + 6 < o && WordAt(line, s, "import") && IsSpaceRun(line[s + 6..o]))
      || (s + 4 < o && WordAt(line, s, "from") && IsSpaceRun(line[s + 4..o]))
  {
    if s + 6 < o {
      SliceOfSlice(line, s, 6, o);
    }
    if s + 4 < o {
      SliceOfSlice(line, s, 4, o);
    }
  }

  /** The first line terminator at or after `i`, or the end of the line. */
  function TerminatorFrom(line: String, i: nat): (j: nat)
    requires i <= |line|
    ensures i <= j <= |line| && (j == |line| || IsTerminator(line[j]))
    ensures forall k | i <= k < j :: !IsTerminator(line[k])
    decreases |line| - i
  {
    if i == |line| || IsTerminator(line[i]) then i else TerminatorFrom(line, i + 1)
  }

  /** The last quote strictly between `lo` and `hi`. */
  function LastQuote(line: String, lo: nat, hi: nat): (r: Option<nat>)
    requires hi <= |line|
    ensures r.Some? ==> lo < r.value < hi && IsQuote(line[r.value])
    ensures r.Some? ==> forall c | r.value < c < hi :: !IsQuote(line[c])
    ensures r.None? ==> forall c | lo < c < hi :: !IsQuote(line[c])
    decreases hi
  {
    if hi <= lo + 1 then None
    else if IsQuote(line[hi - 1]) then Some(hi - 1)
    else LastQuote(line, lo, hi - 1)
  }

  /** The match that starts at `s`, if any: the opening quote right after
      the first group, and the last quote before the line ends. */
  function MatchAt(line: String, s: nat): (r: Option<Reference>)
    requires s <= |line|
    ensures r.Some? ==> r.value.start == s < r.value.open < r.value.close < |line|
  {
    match KeywordEnd(line, s)
    case None => None
    case Some(o) =>
      match LastQuote(line, o, TerminatorFrom(line, o + 1))
      case None => None
      case Some(c) => Some(Reference(s, o, c))
  }

  /** `MatchAt` finds a match at `s` exactly when there is one, and then the
      one with the last closing quote. */
  lemma MatchAtIff(line: String, s: nat)
    requires s <= |line|
    ensures MatchAt(line, s).Some? ==>
      var m := MatchAt(line, s).value;
      && IsMatch(line, s, m.open, m.close)
      && forall o, c | IsMatch(line, s, o, c) :: o == m.open && c <= m.close
    ensures MatchAt(line, s).None? ==> forall o, c :: !IsMatch(line, s, o, c)
  {
    forall o, c | IsMatch(line, s, o, c)
      ensures KeywordEnd(line, s) == Some(o)
      ensures c < TerminatorFrom(line, o + 1)
    {
      KeywordEndIff(line, s, o);
    }
    if KeywordEnd(line, s).Some? {
      var o := KeywordEnd(line, s).value;
      KeywordEndIff(line, s, o);
    }
  }

  /** The leftmost match starting at or after `i`. */
  function FindFrom(line: String, i: nat): (r: Option<Reference>)
    requires i <= |line|
    ensures r.Some? ==> i <= r.value.start < r.value.open < r.value.close < |line|
    decreases |line| - i
  {
    if i == |line| then None
    else
      match MatchAt(line, i)
      case Some(m) => Some(m)
      case None => FindFrom(line, i + 1)
  }

  /** `m` is the match the regular expression returns among the starts at or after `i`. */
  ghost predicate FirstFrom(line: String, i: nat, m: Reference)
  {
    && IsMatch(line, m.start, m.open, m.close)
    && forall s, o, c | i <= s && IsMatch(line, s, o, c) :: m.start <= s && (s == m.start ==> o == m.open && c <= m.close)
  }

  /** No match starts at or after `i`. */
  ghost predicate NoneFrom(line: String, i: nat)
  {
    forall s, o, c | i <= s :: !IsMatch(line, s, o, c)
  }

  lemma {:induction false} FindFromIff(line: String, i: nat)
    requires i <= |line|
    ensures FindFrom(line, i).Some? ==> FirstFrom(line, i, FindFrom(line, i).value)
    ensures FindFrom(line, i).None? ==> NoneFrom(line, i)
    decreases |line| - i
  {
    if i < |line| {
      MatchAtIff(line, i);
      if MatchAt(line, i).None? {
        FindFromIff(line, i + 1);
        FindFromStep(line, i, FindFrom(line, i + 1));
      }
    }
  }

  /** No match at `i`: what holds from `i + 1` holds from `i`. */
  lemma FindFromStep(line: String, i: nat, r: Option<Reference>)
    requires forall o, c :: !IsMatch(line, i, o, c)
    requires r.Some? ==> FirstFrom(line, i + 1, r.value)
    requires r.None? ==> NoneFrom(line, i + 1)
    ensures r.Some? ==> FirstFrom(line, i, r.value)
    ensures r.None? ==> NoneFrom(line, i)
  {
  }

  /** `line.match(reg)`. */
  function FindReference(line: String): (r: Option<Reference>)
    ensures r.Some? ==> r.value.start < r.value.open < r.value.close < |line|
  {
    FindFrom(line, 0)
  }

  /** The matcher returns what the regular expression matches: a match when
      there is one and none otherwise; the leftmost one, and for its start
      the one with the last closing quote. */
  lemma FindReferenceCorrect(line: String)
    ensures FindReference(line).None? <==> forall s, o, c :: !IsMatch(line, s, o, c)
    ensures FindReference(line).Some? ==>
      var m := FindReference(line).value;
      && IsMatch(line, m.start, m.open, m.close)
      && forall s, o, c | IsMatch(line, s, o, c) :: m.start <= s && (s == m.start ==> o == m.open && c <= m.close)
  {
    FindFromIff(line, 0);
    if FindReference(line).Some? {
      assert FirstFrom(line, 0, FindReference(line).value);
    }
  }

  // ---------------------------------------------------------------------
  // One line

  /** m[1] of the match `m`. */
  function Keyword(line: String, m: Reference): String
    requires m.start <= m.open <= |line|
  {
    line[m.start..m.open]
  }

  /** m[2] of the match `m`. */
  function Name(line: String, m: Reference): String
    requires m.open < m.close <= |line|
  {
    line[m.open + 1..m.close]
  }

  /** ``line.replace(reg, `${m[1]}'${name}'`)`` for the match `m`: the text
      before the match and m[1] are kept, then `name` in single quotes, then
      the text after the closing quote. */
  function Replace(line: String, m: Reference, name: String): (r: String)
    requires m.start <= m.open < m.close < |line|
    ensures |r| == m.open + |name| + 2 + (|line| - m.close - 1)
    ensures r[..m.open] == line[..m.open]
    ensures r[m.open..m.open + |name| + 2] == "'" + name + "'"
    ensures r[m.open + |name| + 2..] == line[m.close + 1..]
  {
    var pre := line[..m.start] + Keyword(line, m);
    assert pre == line[..m.open];
    pre + ("'" + name + "'") + line[m.close + 1..]
  }

  /** The `lines.map` callback of cli.js:168-179: the new line and whether it
      set `dirty`. The rewrite happens when m[1], the keyword part, differs
      from the kebab form of m[2]. */
  function RewriteLine(line: String): (String, bool)
  {
    match FindReference(line)
    case None => (line, false)
    case Some(m) =>
      var newfile := CamelCaseToKebab(Name(line, m));
      if Keyword(line, m) != newfile then (Replace(line, m, newfile), true) else (line, false)
  }

  /** A line without a reference is returned as it is and does not set `dirty`. */
  lemma UnmatchedLineKept(line: String)
    requires forall s, o, c :: !IsMatch(line, s, o, c)
    ensures RewriteLine(line) == (line, false)
  {
    FindReferenceCorrect(line);
  }

  /** A rewritten line keeps the text before the match, m[1] included, and
      the text after the closing quote, and in between carries the kebab
      name of m[2] in single quotes; a line left alone is unchanged. */
  lemma RewriteLineShape(line: String)
    ensures !RewriteLine(line).1 ==> RewriteLine(line).0 == line
    ensures RewriteLine(line).1 ==> FindReference(line).Some?
    ensures RewriteLine(line).1 ==>
      var m := FindReference(line).value;
      var r, tail := RewriteLine(line).0, line[m.close + 1..];
      var newfile := CamelCaseToKebab(line[m.open + 1..m.close]);
      && |r| == m.open + |newfile| + 2 + |tail|
      && r[..m.open] == line[..m.open]
      && r[m.open..m.open + |newfile| + 2] == "'" + newfile + "'"
      && r[m.open + |newfile| + 2..] == tail
  {
  }

  /** A reference after `import` or `from` always sets `dirty`: m[1] ends in
      whitespace and the kebab form never holds any, so cli.js:173 always
      finds them different. */
  lemma ImportFromAlwaysDirty(line: String)
    requires FindReference(line).Some?
    requires var m := FindReference(line).value; line[m.start..m.open] != "require("
    ensures RewriteLine(line).1
  {
    FindReferenceCorrect(line);
    var m := FindReference(line).value;
    var keyword := Keyword(line, m);
    var newfile := CamelCaseToKebab(Name(line, m));
    var n := if |keyword| > 6 && keyword[..6] == "import" then 6 else 4;
    assert IsSpaceRun(keyword[n..]);
    var x := keyword[n..][|keyword| - n - 1];
    assert x == keyword[|keyword| - 1];
    assert IsSpace(x) && x in keyword && x !in newfile;
  }

  /** A `require('…')` reference whose name is already in kebab form comes
      back unchanged, yet still sets `dirty`: m[1] is `require(`, never the
      name itself, so cli.js:173 rewrites the line to the same text and the
      file is written back and listed. */
  lemma RequireKebabStillDirty(line: String, m: Reference)
    requires FindReference(line) == Some(m) && Keyword(line, m) == "require("
    requires line[m.open] == '\'' && line[m.close] == '\''
    requires NoUpper(Name(line, m)) && NoSpace(Name(line, m)) && Name(line, m) != "require("
    ensures RewriteLine(line) == (line, true)
  {
    var name := Name(line, m);
    KebabFixpoint(name);
    QuotedSlice(line, m.open, m.close);
    SameSlices(Replace(line, m, name), line, m.open, m.close + 1);
  }

  /** A single-quoted slice is its contents between two quotes. */
  lemma QuotedSlice(line: String, o: nat, c: nat)
    requires o < c < |line| && line[o] == '\'' && line[c] == '\''
    ensures line[o..c + 1] == "'" + line[o + 1..c] + "'"
  {
    var q, name := line[o..c + 1], line[o + 1..c];
    forall i | 0 <= i < |q| ensures q[i] == ("'" + name + "'")[i] {
      if 0 < i < |q| - 1 {
        assert q[i] == line[o + i] == name[i - 1];
      }
    }
  }

  /** Two sequences that agree on the three slices at `i` and `j` are equal. */
  lemma SameSlices(r: String, line: String, i: nat, j: nat)
    requires i <= j <= |line| && |r| == |line|
    requires r[..i] == line[..i] && r[i..j] == line[i..j] && r[j..] == line[j..]
    ensures r == line
  {
    ThreeParts(r, i, j);
    ThreeParts(line, i, j);
  }

  /** A line without `\n` stays without one. */
  lemma RewriteLineNoNewline(line: String)
    requires '\n' !in line
    ensures '\n' !in RewriteLine(line).0
  {
    if RewriteLine(line).1 {
      var m := FindReference(line).value;
      var newfile := CamelCaseToKebab(Name(line, m));
      var r := RewriteLine(line).0;
      var k := m.open + |newfile| + 2;
      ThreeParts(r, m.open, k);
      SliceNoChar(line, '\n', 0, m.open);
      SliceNoChar(line, '\n', m.close + 1, |line|);
      QuotedNoNewline(newfile);
      NoCharConcat(r[..m.open], r[m.open..k], r[k..], '\n');
    }
  }

  /** A sequence is the concatenation of its three slices at `i` and `j`. */
  lemma ThreeParts(r: String, i: nat, j: nat)
    requires i <= j <= |r|
    ensures r == r[..i] + r[i..j] + r[j..]
  {
  }

  /** A name without whitespace, in quotes, holds no line feed. */
  lemma QuotedNoNewline(name: String)
    requires NoSpace(name)
    ensures '\n' !in "'" + name + "'"
  {
    assert IsSpace('\n');
    var q := "'" + name + "'";
    forall k | 0 <= k < |q| ensures q[k] != '\n' {
      if 1 <= k < |q| - 1 { assert q[k] == name[k - 1]; }
    }
  }

  /** A character missing from three sequences is missing from their concatenation. */
  lemma NoCharConcat(a: String, b: String, c: String, x: char)
    requires x !in a && x !in b && x !in c
    ensures x !in a + b + c
  {
  }

  /** A character missing from a line is missing from each of its slices. */
  lemma SliceNoChar(line: String, x: char, i: nat, j: nat)
    requires x !in line && i <= j <= |line|
    ensures x !in line[i..j]
  {
    forall k | 0 <= k < j - i ensures line[i..j][k] != x {
      assert line[i..j][k] == line[i + k];
    }
  }

  // ---------------------------------------------------------------------
  // One file

  /** `lines.map(f)` with a flag shared by the calls, set when some call
      sets it. */
  function MapLines(f: String -> (String, bool), lines: seq<String>): (seq<String>, bool)
  {
    if lines == [] then ([], false)
    else
      var prev := MapLines(f, lines[..|lines| - 1]);
      var last := f(lines[|lines| - 1]);
      (prev.0 + [last.0], prev.1 || last.1)
  }

  /** The map is line by line: line `i` of the result is `f` of line `i`,
      and the flag is set exactly when some call set it. */
  lemma {:induction false} MapLinesEach(f: String -> (String, bool), lines: seq<String>)
    ensures var r := MapLines(f, lines);
      && |r.0| == |lines|
      && (forall i | 0 <= i < |lines| :: r.0[i] == f(lines[i]).0)
      && (r.1 <==> exists i | 0 <= i < |lines| :: f(lines[i]).1)
  {
    if lines != [] {
      var n := |lines|;
      var init := lines[..n - 1];
      MapLinesEach(f, init);
      var r := MapLines(f, lines);
      forall i | 0 <= i < n - 1 ensures r.0[i] == f(lines[i]).0 {
        assert init[i] == lines[i];
      }
      if r.1 && !f(lines[n - 1]).1 {
        var i :| 0 <= i < n - 1 && f(init[i]).1;
        assert init[i] == lines[i];
      }
      if exists i | 0 <= i < n :: f(lines[i]).1 {
        var i :| 0 <= i < n && f(lines[i]).1;
        if i < n - 1 {
          assert init[i] == lines[i];
        }
      }
    }
  }

  /** `fs.readFileSync(f).split(/\n/).map(...).join('\n')` and the `dirty`
      flag (cli.js:165-180). */
  function RewriteText(content: String): (String, bool)
  {
    var r := MapLines(RewriteLine, Split(content, '\n'));
    (Join(r.0, '\n'), r.1)
  }

  /** The rewritten text has as many lines as the original, its line `i` is
      line `i` rewritten, it is dirty exactly when some line set the flag, and
      a text that is not dirty comes back as it was. */
  lemma RewriteTextLines(content: String)
    ensures var lines, r := Split(content, '\n'), RewriteText(content);
      && |Split(r.0, '\n')| == |lines|
      && (forall i | 0 <= i < |lines| :: Split(r.0, '\n')[i] == RewriteLine(lines[i]).0)
      && (r.1 <==> exists i | 0 <= i < |lines| :: RewriteLine(lines[i]).1)
      && (!r.1 ==> r.0 == content)
  {
    var lines := Split(content, '\n');
    MapLinesEach(RewriteLine, lines);
    var out := MapLines(RewriteLine, lines).0;
    forall p | p in out ensures '\n' !in p {
      var i :| 0 <= i < |lines| && out[i] == p;
      assert lines[i] in lines;
      RewriteLineNoNewline(lines[i]);
    }
    SplitJoin(out, '\n');
    if !RewriteText(content).1 {
      forall i | 0 <= i < |lines| ensures out[i] == lines[i] {
        RewriteLineShape(lines[i]);
      }
      assert out == lines;
      JoinSplit(content, '\n');
    }
  }

  /** A file with an `import` or `from` reference on some line is always
      dirty, and so written back. */
  lemma ImportFromFileDirty(content: String, i: nat)
    requires i < |Split(content, '\n')|
    requires var line := Split(content, '\n')[i];
      FindReference(line).Some? && line[FindReference(line).value.start..FindReference(line).value.open] != "require("
    ensures RewriteText(content).1
  {
    var lines := Split(content, '\n');
    MapLinesEach(RewriteLine, lines);
    ImportFromAlwaysDirty(lines[i]);
  }

  /** The `map` callback of cli.js:168-179 for one line, in the callback's
      own statement form: `newline` starts as the line and is replaced, and
      `dirty` set, only inside the two `if`s. `RewriteLine` is the same
      callback as a value, the form the line lemmas are stated on; the
      ensures ties the two. */
  method FixLine(line: String) returns (newline: String, changed: bool)
    ensures (newline, changed) == RewriteLine(line)
  {
    newline, changed := line, false;
    var m := FindReference(line);
    if m.Some? {
      var newfile := CamelCaseToKebab(Name(line, m.value));
      if Keyword(line, m.value) != newfile {
        newline := Replace(line, m.value, newfile);
        changed := true;
      }
    }
  }

  /** `lines.map(...)` with the shared `dirty` flag, then the `join`
      (cli.js:165-180). */
  method RewriteSource(content: String) returns (newbuf: String, dirty: bool)
    ensures (newbuf, dirty) == RewriteText(content)
  {
    var lines := Split(content, '\n');
    var out: seq<String> := [];
    dirty := false;
    for i := 0 to |lines|
      invariant (out, dirty) == MapLines(RewriteLine, lines[..i])
    {
      assert lines[..i + 1][..i] == lines[..i];
      var newline, changed := FixLine(lines[i]);
      out := out + [newline];
      dirty := dirty || changed;
    }
    assert lines[..|lines|] == lines;
    newbuf := Join(out, '\n');
  }

  // ---------------------------------------------------------------------
  // All files

  /** `srcfiles.forEach` (cli.js:164-185) over the file contents `disk`: the
      new contents and `fixedfiles`. Each file is read as it is at its turn
      and written back, and recorded, only when dirty. */
  function RewriteAll(disk: map<String, String>, srcfiles: seq<String>): (r: (map<String, String>, seq<String>))
    requires forall f | f in srcfiles :: f in disk
    ensures r.0.Keys == disk.Keys
  {
    if srcfiles == [] then (disk, [])
    else
      var f := srcfiles[|srcfiles| - 1];
      var prev := RewriteAll(disk, srcfiles[..|srcfiles| - 1]);
      var text := RewriteText(prev.0[f]);
      if text.1 then (prev.0[f := text.0], prev.1 + [f]) else prev
  }

  /** `r` is what pass 2 leaves after the files `done`, each read once:
      exactly the dirty ones recorded, once each, and holding their
      rewritten text, every other file untouched. */
  ghost predicate Rewritten(disk: map<String, String>, done: seq<String>, r: (map<String, String>, seq<String>))
    requires forall f | f in done :: f in disk
  {
    && r.0.Keys == disk.Keys
    && (forall f | f in disk :: r.0[f] == if f in done && RewriteText(disk[f]).1 then RewriteText(disk[f]).0 else disk[f])
    && (forall f :: f in r.1 <==> f in done && RewriteText(disk[f]).1)
    && (forall i, j | 0 <= i < j < |r.1| :: r.1[i] != r.1[j])
  }

  /** For a walk that lists each file once: exactly the dirty files are
      recorded, in walk order; each of them holds its rewritten text and every
      other file is untouched. */
  lemma {:induction false} RewriteAllFacts(disk: map<String, String>, srcfiles: seq<String>)
    requires forall f | f in srcfiles :: f in disk
    requires forall i, j | 0 <= i < j < |srcfiles| :: srcfiles[i] != srcfiles[j]
    ensures Rewritten(disk, srcfiles, RewriteAll(disk, srcfiles))
  {
    if srcfiles != [] {
      var n := |srcfiles|;
      var init, f := srcfiles[..n - 1], srcfiles[n - 1];
      DistinctLast(srcfiles);
      RewriteAllFacts(disk, init);
      RewriteOneMore(disk, init, f, RewriteAll(disk, init));
    }
  }

  /** In a list without repeats the last element is not among the others,
      and the others have no repeats either. */
  lemma DistinctLast(s: seq<String>)
    requires |s| > 0 && forall i, j | 0 <= i < j < |s| :: s[i] != s[j]
    ensures var init := s[..|s| - 1];
      && s == init + [s[|s| - 1]]
      && s[|s| - 1] !in init
      && (forall g | g in init :: g in s)
      && (forall i, j | 0 <= i < j < |init| :: init[i] != init[j])
  {
    var n := |s|;
    var init := s[..n - 1];
    forall i | 0 <= i < |init| ensures init[i] != s[n - 1] {
      assert init[i] == s[i];
    }
  }

  lemma RewriteOneMore(disk: map<String, String>, done: seq<String>, f: String, prev: (map<String, String>, seq<String>))
    requires (forall g | g in done :: g in disk) && f in disk && f !in done
    requires Rewritten(disk, done, prev)
    ensures var text := RewriteText(prev.0[f]);
      Rewritten(disk, done + [f], if text.1 then (prev.0[f := text.0], prev.1 + [f]) else prev)
  {
    assert prev.0[f] == disk[f];
    assert forall g :: g in done + [f] <==> g in done || g == f;
  }

  /** The pass-2 loop, with `fixedfiles` and the file writes. */
  method RewriteFiles(disk: map<String, String>, srcfiles: seq<String>) returns (written: map<String, String>, fixedfiles: seq<String>)
    requires forall f | f in srcfiles :: f in disk
    ensures (written, fixedfiles) == RewriteAll(disk, srcfiles)
  {
    written, fixedfiles := disk, [];
    for i := 0 to |srcfiles|
      invariant (written, fixedfiles) == RewriteAll(disk, srcfiles[..i])
    {
      assert srcfiles[..i + 1][..i] == srcfiles[..i];
      var f := srcfiles[i];
      var newbuf, dirty := RewriteSource(written[f]);
      if dirty {
        fixedfiles := fixedfiles + [f];
        written := written[f := newbuf];
      }
    }
    assert srcfiles[..|srcfiles|] == srcfiles;
  }
}
