/** ASCII character classes and the string operations the rename tool is
    built from: JavaScript's `toLowerCase`, the regular-expression classes
    `\s` and `[A-Z]`, and `split`/`join` on a single separator character.
    Only ASCII is modelled: `\s` is space, tab, line feed, vertical tab,
    form feed and carriage return, and lowercasing maps A-Z to a-z. */
module Text {

  type String = seq<char>

  predicate IsUpper(c: char) { 'A' <= c <= 'Z' }

  predicate IsLower(c: char) { 'a' <= c <= 'z' }

  /** `\s` over ASCII: ' ', '\t', '\n', '\v', '\f', '\r' (codes 32 and 9-13). */
  predicate IsSpace(c: char) { c == ' ' || '\t' <= c <= '\r' }

  function LowerChar(c: char): char
  {
    if IsUpper(c) then (c as int + 32) as char else c
  }

  predicate NoUpper(s: String) { forall c | c in s :: !IsUpper(c) }

  predicate NoSpace(s: String) { forall c | c in s :: !IsSpace(c) }

  /** `s.toLowerCase()` restricted to ASCII. */
  function Lower(s: String): String
  {
    seq(|s|, i requires 0 <= i < |s| => LowerChar(s[i]))
  }

  /** Lowercasing leaves no upper-case letter. */
  lemma LowerNoUpper(s: String)
    ensures NoUpper(Lower(s))
  {
    var r := Lower(s);
    forall c | c in r ensures !IsUpper(c) {
      var i :| 0 <= i < |r| && r[i] == c;
    }
  }

  /** Lowercasing keeps every character that is not a letter where it was. */
  lemma LowerKeepsOthers(s: String, c: char)
    requires !IsUpper(c) && !IsLower(c)
    ensures c in Lower(s) <==> c in s
  {
    var r := Lower(s);
    if c in r {
      var i :| 0 <= i < |r| && r[i] == c;
      assert s[i] == c;
    }
    if c in s {
      var i :| 0 <= i < |s| && s[i] == c;
      assert r[i] == c;
    }
  }

  lemma LowerNoSpace(s: String)
    requires NoSpace(s)
    ensures NoSpace(Lower(s))
  {
    forall c | c in Lower(s) ensures !IsSpace(c) {
      var i :| 0 <= i < |s| && Lower(s)[i] == c;
      assert s[i] in s;
    }
  }

  /** Lowercasing is the identity exactly on strings without upper-case letters. */
  lemma LowerFixpoint(s: String)
    ensures NoUpper(s) <==> Lower(s) == s
  {
    if Lower(s) == s {
      LowerNoUpper(s);
    }
    if NoUpper(s) {
      forall i | 0 <= i < |s| ensures Lower(s)[i] == s[i] {
        assert s[i] in s;
      }
    }
  }

  lemma LowerAppend(a: String, b: String)
    ensures Lower(a + b) == Lower(a) + Lower(b)
  {
    var l, r := Lower(a + b), Lower(a) + Lower(b);
    assert |l| == |r|;
    forall i | 0 <= i < |l| ensures l[i] == r[i] {
      if i < |a| { assert (a + b)[i] == a[i]; } else { assert (a + b)[i] == b[i - |a|]; }
    }
  }

  /** JavaScript's `s.split(sep)` for a one-character separator: the pieces
      between separators, empty pieces included, and always at least one. */
  function Split(s: String, sep: char): (parts: seq<String>)
    ensures |parts| >= 1
    ensures forall p | p in parts :: sep !in p
  {
    if s == [] then [[]]
    else
      var rest := Split(s[1..], sep);
      if s[0] == sep then [[]] + rest
      else [[s[0]] + rest[0]] + rest[1..]
  }

  /** JavaScript's `parts.join(sep)`: the empty list joins to the empty string. */
  function Join(parts: seq<String>, sep: char): String
  {
    if |parts| == 0 then []
    else if |parts| == 1 then parts[0]
    else parts[0] + [sep] + Join(parts[1..], sep)
  }

  /** Joining the pieces of a split restores the string. */
  lemma {:induction false} JoinSplit(s: String, sep: char)
    ensures Join(Split(s, sep), sep) == s
  {
    if s != [] {
      var rest := Split(s[1..], sep);
      JoinSplit(s[1..], sep);
      if s[0] == sep {
        assert Split(s, sep) == [[]] + rest;
        assert ([[]] + rest)[1..] == rest;
      } else if |rest| == 1 {
        assert Split(s, sep) == [[s[0]] + rest[0]];
      } else {
        var parts := [[s[0]] + rest[0]] + rest[1..];
        assert parts[1..] == rest[1..];
        assert Join(rest, sep) == rest[0] + [sep] + Join(rest[1..], sep);
        assert s == [s[0]] + s[1..];
      }
    }
  }

  /** A string without the separator splits into itself alone. */
  lemma {:induction false} SplitNoSep(s: String, sep: char)
    requires sep !in s
    ensures Split(s, sep) == [s]
  {
    if s != [] {
      SplitNoSep(s[1..], sep);
      assert [s[0]] + s[1..] == s;
    }
  }

  /** Splitting `p + [sep] + t` peels off `p` when `p` holds no separator. */
  lemma {:induction false} SplitCons(p: String, sep: char, t: String)
    requires sep !in p
    ensures Split(p + [sep] + t, sep) == [p] + Split(t, sep)
  {
    if p == [] {
      assert p + [sep] + t == [sep] + t;
      assert ([sep] + t)[1..] == t;
    } else {
      var s := p + [sep] + t;
      assert s[1..] == p[1..] + [sep] + t;
      SplitCons(p[1..], sep, t);
      assert [p[0]] + p[1..] == p;
    }
  }

  /** Splitting at one occurrence of the separator splits both sides on their own. */
  lemma {:induction false} SplitAppend(a: String, sep: char, b: String)
    ensures Split(a + [sep] + b, sep) == Split(a, sep) + Split(b, sep)
  {
    if a == [] {
      assert a + [sep] + b == [sep] + b;
      assert ([sep] + b)[1..] == b;
    } else {
      assert (a + [sep] + b)[1..] == a[1..] + [sep] + b;
      SplitAppend(a[1..], sep, b);
    }
  }

  /** Splitting the join of separator-free pieces restores the pieces. */
  lemma {:induction false} SplitJoin(parts: seq<String>, sep: char)
    requires |parts| >= 1
    requires forall p | p in parts :: sep !in p
    ensures Split(Join(parts, sep), sep) == parts
  {
    if |parts| == 1 {
      SplitNoSep(parts[0], sep);
    } else {
      assert parts[0] in parts;
      assert forall p | p in parts[1..] :: p in parts;
      SplitJoin(parts[1..], sep);
      SplitCons(parts[0], sep, Join(parts[1..], sep));
      assert [parts[0]] + parts[1..] == parts;
    }
  }

  /** The separator occurs in `s` exactly when the split has two or more pieces. */
  lemma SplitCount(s: String, sep: char)
    ensures sep in s <==> |Split(s, sep)| >= 2
  {
    if sep !in s {
      SplitNoSep(s, sep);
    } else {
      JoinSplit(s, sep);
    }
  }

  /** Joining two non-empty lists puts one separator between their joins. */
  lemma {:induction false} JoinAppend(a: seq<String>, b: seq<String>, sep: char)
    requires |a| >= 1 && |b| >= 1
    ensures Join(a + b, sep) == Join(a, sep) + [sep] + Join(b, sep)
  {
    if |a| == 1 {
      assert (a + b)[1..] == b;
    } else {
      assert (a + b)[1..] == a[1..] + b;
      JoinAppend(a[1..], b, sep);
    }
  }

  /** Every character of a joined string comes from a piece or is the separator. */
  lemma {:induction false} JoinChars(parts: seq<String>, sep: char, c: char)
    requires c in Join(parts, sep)
    ensures c == sep || exists p :: p in parts && c in p
  {
    if |parts| >= 2 {
      var rest := Join(parts[1..], sep);
      if c in parts[0] {
        assert parts[0] in parts;
      } else if c != sep {
        assert c in rest;
        JoinChars(parts[1..], sep, c);
        var p :| p in parts[1..] && c in p;
        assert p in parts;
      }
    } else if |parts| == 1 {
      assert parts[0] in parts;
    }
  }

  /** Every piece of a split is made of characters of the input. */
  lemma SplitChars(s: String, sep: char, p: String, c: char)
    requires p in Split(s, sep) && c in p
    ensures c in s
  {
    var parts := Split(s, sep);
    JoinSplit(s, sep);
    var k :| 0 <= k < |parts| && parts[k] == p;
    JoinSlice(parts, sep, k);
  }

  /** Each piece occurs inside the join. */
  lemma {:induction false} JoinSlice(parts: seq<String>, sep: char, k: nat)
    requires k < |parts|
    ensures forall c | c in parts[k] :: c in Join(parts, sep)
  {
    if k > 0 {
      JoinSlice(parts[1..], sep, k - 1);
      assert parts[1..][k - 1] == parts[k];
    }
  }
}
