/**
 * Python's line and field handling over `seq<char>`: `"".join`, `f.readlines()` on a
 * text file, and `str.split(sep)` with a one-character separator. The newline
 * translation of text mode ("\r\n" and "\r" read as "\n") is not modelled.
 */
module Lines {

  /** `"".join(parts)`. */
  function Join(parts: seq<string>): string {
    if parts == [] then [] else parts[0] + Join(parts[1..])
  }

  lemma {:induction false} JoinAppend(a: seq<string>, b: seq<string>)
    ensures Join(a + b) == Join(a) + Join(b)
  {
    if a != [] {
      JoinAppend(a[1..], b);
      assert (a + b)[1..] == a[1..] + b;
      assert a + b != [] && (a + b)[0] == a[0];
      assert Join(a + b) == a[0] + Join(a[1..] + b);
      assert Join(a) == a[0] + Join(a[1..]);
    } else {
      assert a + b == b;
    }
  }

  /** The position of the first `c` in `s`. */
  function IndexOf(s: string, c: char): (i: nat)
    requires c in s
    ensures i < |s| && s[i] == c && c !in s[..i]
  {
    if s[0] == c then 0
    else
      var j := IndexOf(s[1..], c);
      assert s[..j + 1] == [s[0]] + s[1..][..j];
      j + 1
  }

  /** `f.readlines()` on a file whose content is `s`: each line keeps its "\n", and a last
      line without one is returned as it is. Joining the lines gives the content back. */
  function ReadLines(s: string): (lines: seq<string>)
    ensures Join(lines) == s
    ensures forall i :: 0 <= i < |lines| ==> lines[i] != []
    decreases |s|
  {
    if s == [] then []
    else if '\n' !in s then [s]
    else
      var i := IndexOf(s, '\n');
      assert s == s[..i + 1] + s[i + 1..];
      [s[..i + 1]] + ReadLines(s[i + 1..])
  }

  /** A line that ends at the first "\n" is the first line read. */
  lemma ReadLinesCons(c: string, rest: string)
    requires '\n' !in c
    ensures ReadLines(c + "\n" + rest) == [c + "\n"] + ReadLines(rest)
  {
    var s := c + "\n" + rest;
    assert s[|c|] == '\n';
    assert s[..|c|] == c;
    assert IndexOf(s, '\n') == |c|;
    assert s[..|c| + 1] == c + "\n";
    assert s[|c| + 1..] == rest;
  }

  /** `s.split(sep)`: the pieces between separators, at least one, none of them holding `sep`. */
  function Split(s: string, sep: char): (parts: seq<string>)
    ensures |parts| >= 1
    ensures forall i :: 0 <= i < |parts| ==> sep !in parts[i]
    decreases |s|
  {
    if s == [] then [""]
    else
      var rest := Split(s[1..], sep);
      if s[0] == sep then [""] + rest else [[s[0]] + rest[0]] + rest[1..]
  }

  /** `sep.join(parts)`. */
  function JoinWith(parts: seq<string>, sep: char): string {
    if parts == [] then []
    else if |parts| == 1 then parts[0]
    else parts[0] + [sep] + JoinWith(parts[1..], sep)
  }

  /** Splitting loses nothing: joining the pieces with the separator gives the text back. */
  lemma {:induction false} JoinSplit(s: string, sep: char)
    ensures JoinWith(Split(s, sep), sep) == s
    decreases |s|
  {
    if s != [] {
      JoinSplit(s[1..], sep);
      var rest := Split(s[1..], sep);
      if s[0] == sep {
        assert Split(s, sep) == [""] + rest;
      } else {
        var parts := [[s[0]] + rest[0]] + rest[1..];
        if |rest| > 1 {
          assert rest == [rest[0]] + rest[1..];
          assert JoinWith(rest, sep) == rest[0] + [sep] + JoinWith(rest[1..], sep);
          assert JoinWith(parts, sep) == [s[0]] + rest[0] + [sep] + JoinWith(parts[1..], sep);
          assert parts[1..] == rest[1..];
        }
        assert s == [s[0]] + s[1..];
      }
    }
  }

  /** A text with no separator is one piece. */
  lemma {:induction false} SplitNoSeparator(c: string, sep: char)
    requires sep !in c
    ensures Split(c, sep) == [c]
    decreases |c|
  {
    if c != [] {
      SplitNoSeparator(c[1..], sep);
      assert c == [c[0]] + c[1..];
    }
  }

  /** A separator ends the first piece. */
  lemma {:induction false} SplitAtSeparator(c: string, sep: char, rest: string)
    requires sep !in c
    ensures Split(c + [sep] + rest, sep) == [c] + Split(rest, sep)
    decreases |c|
  {
    var s := c + [sep] + rest;
    if c == [] {
      assert s[1..] == rest;
    } else {
      SplitAtSeparator(c[1..], sep, rest);
      assert s[1..] == c[1..] + [sep] + rest;
      assert c == [c[0]] + c[1..];
    }
  }

  /** Joining fields that hold no separator and splitting again gives the same fields. */
  lemma {:induction false} SplitJoin(parts: seq<string>, sep: char)
    requires |parts| >= 1
    requires forall i :: 0 <= i < |parts| ==> sep !in parts[i]
    ensures Split(JoinWith(parts, sep), sep) == parts
  {
    if |parts| == 1 {
      SplitNoSeparator(parts[0], sep);
    } else {
      SplitJoin(parts[1..], sep);
      SplitAtSeparator(parts[0], sep, JoinWith(parts[1..], sep));
    }
  }
}
