/**
 The three Python string operations the commands rely on, with Python's
 semantics: `str.strip()` with no argument, `str.split(sep)` with an explicit
 one-character separator, and `os.path.basename` on POSIX paths.
 */
module PyStr {

  /** Python's `str.isspace()` on one character. */
  predicate IsSpace(c: char)
  {
    || c == ' '
    || ('\t' <= c <= '\r')
    || ('\U{1C}' <= c <= '\U{1F}')
    || c == '\U{85}' || c == '\U{A0}' || c == '\U{1680}'
    || ('\U{2000}' <= c <= '\U{200A}')
    || c == '\U{2028}' || c == '\U{2029}' || c == '\U{202F}' || c == '\U{205F}' || c == '\U{3000}'
  }

  predicate AllSpace(s: string)
  {
    forall i | 0 <= i < |s| :: IsSpace(s[i])
  }

  /** `s.lstrip()`: the longest suffix of s that does not start with whitespace. */
  function LStrip(s: string): (r: string)
    ensures |r| <= |s| && r == s[|s| - |r|..]
    ensures AllSpace(s[..|s| - |r|])
    ensures r == [] || !IsSpace(r[0])
  {
    if s != [] && IsSpace(s[0]) then
      var r := LStrip(s[1..]);
      assert s[..|s| - |r|] == [s[0]] + s[1..][..|s| - 1 - |r|];
      r
    else s
  }

  /** `s.rstrip()`: the longest prefix of s that does not end with whitespace. */
  function RStrip(s: string): (r: string)
    ensures |r| <= |s| && r == s[..|r|]
    ensures AllSpace(s[|r|..])
    ensures r == [] || !IsSpace(r[|r| - 1])
  {
    if s != [] && IsSpace(s[|s| - 1]) then
      var r := RStrip(s[..|s| - 1]);
      assert s[|r|..] == s[..|s| - 1][|r|..] + [s[|s| - 1]];
      r
    else s
  }

  /** `s.strip()`: s without its leading and trailing whitespace. */
  function Strip(s: string): (r: string)
    ensures r == [] || (!IsSpace(r[0]) && !IsSpace(r[|r| - 1]))
    ensures r == [] <==> AllSpace(s)
  {
    var l := LStrip(s);
    var r := RStrip(l);
    assert r == [] ==> AllSpace(s) by {
      if r == [] {
        assert s == s[..|s| - |l|] + l;
        assert l == l[|r|..];
      }
    }
    r
  }

  lemma {:induction false} LStripPadded(w: string, x: string)
    requires AllSpace(w)
    requires x == [] || !IsSpace(x[0])
    ensures LStrip(w + x) == x
    decreases |w|
  {
    if w == [] {
      assert w + x == x;
    } else {
      assert (w + x)[1..] == w[1..] + x;
      LStripPadded(w[1..], x);
    }
  }

  lemma {:induction false} RStripPadded(x: string, w: string)
    requires AllSpace(w)
    requires x == [] || !IsSpace(x[|x| - 1])
    ensures RStrip(x + w) == x
    decreases |w|
  {
    if w == [] {
      assert x + w == x;
    } else {
      assert (x + w)[..|x + w| - 1] == x + w[..|w| - 1];
      RStripPadded(x, w[..|w| - 1]);
    }
  }

  /** Strip removes exactly the whitespace around a string whose ends are
      not whitespace, so together with Strip's contract it pins the result. */
  lemma StripPadded(lead: string, x: string, trail: string)
    requires AllSpace(lead) && AllSpace(trail)
    requires x == [] || (!IsSpace(x[0]) && !IsSpace(x[|x| - 1]))
    ensures Strip(lead + x + trail) == x
  {
    if x == [] {
      assert lead + x + trail == lead + trail;
      assert AllSpace(lead + trail);
    } else {
      assert lead + x + trail == lead + (x + trail);
      LStripPadded(lead, x + trail);
      RStripPadded(x, trail);
    }
  }

  /** Number of occurrences of c in s. */
  function Count(s: string, c: char): nat
  {
    if s == [] then 0 else (if s[0] == c then 1 else 0) + Count(s[1..], c)
  }

  /** `sep.join(fields)`. */
  function Join(fields: seq<string>, sep: char): string
    requires |fields| >= 1
  {
    if |fields| == 1 then fields[0] else fields[0] + [sep] + Join(fields[1..], sep)
  }

  /** `s.split(sep)`: keeps empty fields, so there is always one more field
      than there are separators, and no field holds the separator. */
  function Split(s: string, sep: char): (fields: seq<string>)
    ensures |fields| == Count(s, sep) + 1
    ensures forall f | f in fields :: sep !in f
  {
    if s == [] then [[]]
    else
      var rest := Split(s[1..], sep);
      if s[0] == sep then [[]] + rest
      else [[s[0]] + rest[0]] + rest[1..]
  }

  /** One half of the round trip: joining the fields gives s back. */
  lemma {:induction false} JoinSplit(s: string, sep: char)
    ensures Join(Split(s, sep), sep) == s
    decreases |s|
  {
    if s != [] {
      var rest := Split(s[1..], sep);
      JoinSplit(s[1..], sep);
      if s[0] == sep {
        assert [sep] + s[1..] == s;
      } else {
        var fields := [[s[0]] + rest[0]] + rest[1..];
        assert Join(fields, sep) == [s[0]] + Join(rest, sep) by {
          if |rest| > 1 {
            assert fields[1..] == rest[1..];
          }
        }
        assert [s[0]] + s[1..] == s;
      }
    }
  }

  lemma {:induction false} SplitPrefix(f: string, t: string, sep: char)
    requires sep !in f
    ensures Split(f + t, sep) == [f + Split(t, sep)[0]] + Split(t, sep)[1..]
    decreases |f|
  {
    if f == [] {
      var fs := Split(t, sep);
      assert f + t == t;
      assert f + fs[0] == fs[0];
      assert fs == [fs[0]] + fs[1..];
    } else {
      assert (f + t)[1..] == f[1..] + t;
      SplitPrefix(f[1..], t, sep);
      assert [f[0]] + (f[1..] + Split(t, sep)[0]) == f + Split(t, sep)[0];
    }
  }

  /** The other half of the round trip: splitting a join of separator-free
      fields gives the fields back. */
  lemma {:induction false} SplitJoin(fields: seq<string>, sep: char)
    requires |fields| >= 1
    requires forall f | f in fields :: sep !in f
    ensures Split(Join(fields, sep), sep) == fields
    decreases |fields|
  {
    if |fields| == 1 {
      SplitPrefix(fields[0], [], sep);
      assert fields[0] + [] == fields[0];
    } else {
      var rest := Join(fields[1..], sep);
      SplitJoin(fields[1..], sep);
      assert fields[0] + [sep] + rest == fields[0] + ([sep] + rest);
      SplitPrefix(fields[0], [sep] + rest, sep);
      assert ([sep] + rest)[1..] == rest;
      assert Split([sep] + rest, sep) == [[]] + fields[1..];
      assert fields[0] + [] == fields[0];
    }
  }

  /** `p.rfind('/', 0, n)`: the index of the last '/' before position n, or -1. */
  function LastSlash(p: string, n: nat): (k: int)
    requires n <= |p|
    ensures -1 <= k < n
    ensures k >= 0 ==> p[k] == '/'
    ensures forall j | k < j < n :: p[j] != '/'
  {
    if n == 0 then -1 else if p[n - 1] == '/' then n - 1 else LastSlash(p, n - 1)
  }

  /** `os.path.basename(p)`: what follows the last '/' of p, or p itself
      when it has none. */
  function Basename(p: string): (r: string)
    ensures '/' !in r
    ensures |r| <= |p| && r == p[|p| - |r|..]
    ensures |r| < |p| ==> p[|p| - |r| - 1] == '/'
  {
    p[LastSlash(p, |p|) + 1..]
  }

  /** The base name of `dir/name` is name, whatever dir holds. */
  lemma BasenameOfJoin(dir: string, name: string)
    requires '/' !in name
    ensures Basename(dir + "/" + name) == name
  {
    var p := dir + "/" + name;
    var k := LastSlash(p, |p|);
    assert p[|dir|] == '/';
    assert forall j | |dir| < j < |p| :: p[j] == name[j - |dir| - 1];
    assert p[|dir| + 1..] == name;
  }
}
