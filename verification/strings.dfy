/**
 The parts of Go's `strings` package that the adapter relies on: `Split` with a
 one-character separator, `Join`, `Replace` of a one-character pattern with
 `n = -1`, and `Trim` with a cut set. Each is given a recursive definition and
 the laws that tie it to its partner (`Split` and `Join` are mutually inverse).
 */
module Strings {

  /** Number of occurrences of `c` in `s` (Go's `strings.Count` for one character). */
  function Count(s: string, c: char): nat
    decreases |s|
  {
    if s == [] then 0 else (if s[0] == c then 1 else 0) + Count(s[1..], c)
  }

  /** `strings.Join`: the parts with `sep` between neighbours. */
  function Join(parts: seq<string>, sep: string): string
    decreases |parts|
  {
    if |parts| == 0 then ""
    else if |parts| == 1 then parts[0]
    else parts[0] + sep + Join(parts[1..], sep)
  }

  /**
   `strings.Split(s, string(sep))`: the maximal `sep`-free pieces of `s`, in
   order. There is always one more piece than there are separators, so the
   empty string splits into one empty piece.
   */
  function Split(s: string, sep: char): (parts: seq<string>)
    ensures |parts| == Count(s, sep) + 1
    ensures forall i :: 0 <= i < |parts| ==> sep !in parts[i]
    ensures Join(parts, [sep]) == s
    decreases |s|
  {
    if s == [] then [[]]
    else
      var rest := Split(s[1..], sep);
      if s[0] == sep then
        assert s == [sep] + s[1..];
        [[]] + rest
      else
        var parts := [[s[0]] + rest[0]] + rest[1..];
        assert parts[1..] == rest[1..];
        assert Join(parts, [sep]) == [s[0]] + Join(rest, [sep]) by {
          if |rest| > 1 {
            assert rest == [rest[0]] + rest[1..];
          }
        }
        assert s == [s[0]] + s[1..];
        parts
  }

  /** A string without the separator splits into itself alone. */
  lemma {:induction false} SplitNoSeparator(s: string, sep: char)
    requires sep !in s
    ensures Split(s, sep) == [s]
    decreases |s|
  {
    if s != [] {
      SplitNoSeparator(s[1..], sep);
    }
  }

  /** Splitting a separator-free head off a string. */
  lemma {:induction false} SplitCons(p: string, sep: char, t: string)
    requires sep !in p
    ensures Split(p + [sep] + t, sep) == [p] + Split(t, sep)
    decreases |p|
  {
    var s := p + [sep] + t;
    if p == [] {
      assert s[1..] == t;
    } else {
      assert s[1..] == p[1..] + [sep] + t;
      SplitCons(p[1..], sep, t);
      assert [p[0]] + p[1..] == p;
    }
  }

  /** Split is a left inverse of Join on non-empty lists of separator-free pieces. */
  lemma {:induction false} SplitJoin(parts: seq<string>, sep: char)
    requires |parts| > 0
    requires forall i :: 0 <= i < |parts| ==> sep !in parts[i]
    ensures Split(Join(parts, [sep]), sep) == parts
    decreases |parts|
  {
    if |parts| == 1 {
      SplitNoSeparator(parts[0], sep);
    } else {
      SplitJoin(parts[1..], sep);
      SplitCons(parts[0], sep, Join(parts[1..], [sep]));
      assert [parts[0]] + parts[1..] == parts;
    }
  }

  /** A string has exactly two pieces iff it holds exactly one separator. */
  lemma SplitTwo(s: string, sep: char)
    ensures |Split(s, sep)| == 2 <==> Count(s, sep) == 1
  {
  }

  /**
   `strings.Replace(s, string(pat), repl, -1)`: every occurrence of `pat` is
   replaced by `repl`; the inserted text is not scanned again.
   */
  function ReplaceAll(s: string, pat: char, repl: string): string
    decreases |s|
  {
    if s == [] then [] else (if s[0] == pat then repl else [s[0]]) + ReplaceAll(s[1..], pat, repl)
  }

  lemma {:induction false} ReplaceAllAppend(a: string, b: string, pat: char, repl: string)
    ensures ReplaceAll(a + b, pat, repl) == ReplaceAll(a, pat, repl) + ReplaceAll(b, pat, repl)
    decreases |a|
  {
    if a != [] {
      assert (a + b)[1..] == a[1..] + b;
      ReplaceAllAppend(a[1..], b, pat, repl);
    } else {
      assert a + b == b;
    }
  }

  lemma {:induction false} ReplaceAllAbsent(s: string, pat: char, repl: string)
    requires pat !in s
    ensures ReplaceAll(s, pat, repl) == s
    decreases |s|
  {
    if s != [] {
      ReplaceAllAbsent(s[1..], pat, repl);
      assert [s[0]] + s[1..] == s;
    }
  }

  /** Replacing the separator of a join re-joins the same pieces with the replacement text. */
  lemma {:induction false} ReplaceAllJoin(parts: seq<string>, pat: char, repl: string)
    requires forall i :: 0 <= i < |parts| ==> pat !in parts[i]
    ensures ReplaceAll(Join(parts, [pat]), pat, repl) == Join(parts, repl)
    decreases |parts|
  {
    if |parts| == 1 {
      ReplaceAllAbsent(parts[0], pat, repl);
    } else if |parts| > 1 {
      var rest := Join(parts[1..], [pat]);
      ReplaceAllAppend(parts[0] + [pat], rest, pat, repl);
      ReplaceAllAppend(parts[0], [pat], pat, repl);
      ReplaceAllAbsent(parts[0], pat, repl);
      assert ReplaceAll([pat], pat, repl) == repl by {
        assert [pat][1..] == [];
      }
      ReplaceAllJoin(parts[1..], pat, repl);
    }
  }

  /** `strings.TrimLeft`: drop leading characters that belong to the cut set. */
  function TrimLeft(s: string, cutset: set<char>): string
    decreases |s|
  {
    if s != [] && s[0] in cutset then TrimLeft(s[1..], cutset) else s
  }

  /** `strings.TrimRight`: drop trailing characters that belong to the cut set. */
  function TrimRight(s: string, cutset: set<char>): string
    decreases |s|
  {
    if s != [] && s[|s| - 1] in cutset then TrimRight(s[..|s| - 1], cutset) else s
  }

  /** `strings.Trim`: trim the left end, then the right end. */
  function Trim(s: string, cutset: set<char>): string
  {
    TrimRight(TrimLeft(s, cutset), cutset)
  }

  /**
   Trimming a string wrapped in one cut character on each side gives back the
   wrapped text, provided its own ends are not cut characters.
   */
  lemma TrimWrapped(open: char, x: string, close: char, cutset: set<char>)
    requires open in cutset && close in cutset
    requires x != [] ==> x[0] !in cutset && x[|x| - 1] !in cutset
    ensures Trim([open] + x + [close], cutset) == x
  {
    var s := [open] + x + [close];
    assert s[1..] == x + [close];
    if x == [] {
      assert TrimLeft([close], cutset) == [] by {
        assert [close][1..] == [];
      }
    } else {
      assert TrimLeft(s, cutset) == x + [close];
      assert (x + [close])[..|x|] == x;
      assert TrimRight(x + [close], cutset) == TrimRight(x, cutset);
    }
  }

  /** The first character of a join is the first character of its first piece. */
  lemma JoinFirst(parts: seq<string>, sep: string)
    requires |parts| > 0 && parts[0] != []
    ensures Join(parts, sep) != [] && Join(parts, sep)[0] == parts[0][0]
  {
  }

  /** The last character of a join is the last character of its last piece. */
  lemma {:induction false} JoinLast(parts: seq<string>, sep: string)
    requires |parts| > 0 && parts[|parts| - 1] != []
    ensures var j := Join(parts, sep); j != [] && j[|j| - 1] == parts[|parts| - 1][|parts[|parts| - 1]| - 1]
    decreases |parts|
  {
    if |parts| > 1 {
      JoinLast(parts[1..], sep);
    }
  }
}
