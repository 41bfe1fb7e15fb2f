/**
 * The string primitives monitor.go relies on: bufio's ReadString('\n'),
 * strings.Split on a one-character separator, and the character classes and
 * greedy runs its two regular expressions are built from.
 */
module Text {
  import opened Wrappers
  import Strconv

  /**
   * ReadString('\n'): the shortest prefix of s that ends in a newline. When s
   * holds no newline the read fails (io.EOF) and the monitor discards the
   * partial text.
   */
  function ReadLine(s: string): (r: Option<string>)
    ensures r.None? <==> '\n' !in s
    ensures r.Some? ==> 0 < |r.value| <= |s| && r.value == s[..|r.value|]
    ensures r.Some? ==> r.value[|r.value| - 1] == '\n' && '\n' !in r.value[..|r.value| - 1]
  {
    if |s| == 0 then None
    else if s[0] == '\n' then Some("\n")
    else match ReadLine(s[1..])
      case None => None
      case Some(l) => Some([s[0]] + l)
  }

  /** The complete lines of s, one ReadLine after another; a last line without a newline is dropped. */
  function Lines(s: string): (lines: seq<string>)
    ensures forall i :: 0 <= i < |lines| ==> |lines[i]| > 0 && lines[i][|lines[i]| - 1] == '\n'
    decreases |s|
  {
    match ReadLine(s)
    case None => []
    case Some(l) => [l] + Lines(s[|l|..])
  }

  /** One step of Lines: no lines without a newline, else the first line and the lines after it. */
  lemma LinesUnfold(s: string)
    ensures ReadLine(s).None? ==> Lines(s) == []
    ensures ReadLine(s).Some? ==> Lines(s) == [ReadLine(s).value] + Lines(s[|ReadLine(s).value|..])
  {
  }

  /** The lines one after another. */
  function Concat(lines: seq<string>): string
  {
    if |lines| == 0 then "" else lines[0] + Concat(lines[1..])
  }

  /** A complete line: it ends in its only newline. */
  predicate IsLine(l: string)
  {
    |l| > 0 && l[|l| - 1] == '\n' && '\n' !in l[..|l| - 1]
  }

  lemma ConcatCons(l: string, rs: seq<string>)
    ensures Concat([l] + rs) == l + Concat(rs)
  {
    assert ([l] + rs)[1..] == rs;
  }

  /** Every line the read loop delivers is a complete line. */
  lemma {:induction false} LinesComplete(s: string)
    ensures forall i :: 0 <= i < |Lines(s)| ==> IsLine(Lines(s)[i])
    decreases |s|
  {
    if ReadLine(s).Some? {
      var l := ReadLine(s).value;
      var rs := Lines(s[|l|..]);
      LinesComplete(s[|l|..]);
      var ls := Lines(s);
      assert ls == [l] + rs;
      forall i | 0 <= i < |ls| ensures IsLine(ls[i]) {
        if i > 0 {
          assert ls[i] == rs[i - 1];
        }
      }
    }
  }

  /** What the read loop leaves unread: the partial last line it drops, free of newlines. */
  function Rest(s: string): (rest: string)
    ensures '\n' !in rest
    decreases |s|
  {
    match ReadLine(s)
    case None => s
    case Some(l) => Rest(s[|l|..])
  }

  /** One read: the first line, then the lines and the remainder of what follows it. */
  lemma LinesStep(s: string, l: string)
    requires ReadLine(s) == Some(l)
    ensures s == l + s[|l|..]
    ensures Lines(s) == [l] + Lines(s[|l|..]) && Rest(s) == Rest(s[|l|..])
  {
  }

  /** The lines the read loop delivers, followed by the dropped remainder, give back the text. */
  lemma {:induction false} LinesCover(s: string)
    ensures Concat(Lines(s)) + Rest(s) == s
    decreases |s|
  {
    if ReadLine(s).Some? {
      var l := ReadLine(s).value;
      var t := s[|l|..];
      LinesStep(s, l);
      LinesCover(t);
      ConcatCons(l, Lines(t));
      assert l + Concat(Lines(t)) + Rest(t) == l + (Concat(Lines(t)) + Rest(t));
    }
  }

  /** Text that ends in a newline is used up: nothing is dropped. */
  lemma LinesUseUp(s: string)
    requires |s| > 0 && s[|s| - 1] == '\n'
    ensures Rest(s) == "" && Concat(Lines(s)) == s
  {
    LinesCover(s);
  }

  /** Conversely, complete lines followed by text without a newline read back as exactly those lines. */
  lemma {:induction false} LinesOf(ls: seq<string>, rest: string)
    requires forall i :: 0 <= i < |ls| ==> IsLine(ls[i])
    requires '\n' !in rest
    ensures Lines(Concat(ls) + rest) == ls
    decreases |ls|
  {
    var s := Concat(ls) + rest;
    if |ls| == 0 {
      assert s == rest;
    } else {
      var l := ls[0];
      var a := l[..|l| - 1];
      var x := Concat(ls[1..]) + rest;
      assert l == a + "\n";
      assert s == a + "\n" + x;
      ReadLineOf(a, x);
      assert s[|l|..] == x;
      forall i | 0 <= i < |ls[1..]| ensures IsLine(ls[1..][i]) {
        assert ls[1..][i] == ls[i + 1];
      }
      LinesOf(ls[1..], rest);
      ConcatCons(l, ls[1..]);
      assert ls == [l] + ls[1..];
    }
  }

  /** Parts joined with the separator between neighbours (strings.Join). */
  function Join(parts: seq<string>, sep: char): string
  {
    if |parts| == 0 then ""
    else if |parts| == 1 then parts[0]
    else parts[0] + [sep] + Join(parts[1..], sep)
  }

  /**
   * strings.Split(s, string(sep)): the pieces between separators, so one more
   * piece than s has separators, none of them holding the separator, and
   * joining them back gives s.
   */
  function Split(s: string, sep: char): (parts: seq<string>)
    ensures |parts| >= 1
    ensures forall i :: 0 <= i < |parts| ==> sep !in parts[i]
    ensures Join(parts, sep) == s
    decreases |s|
  {
    if |s| == 0 then [""]
    else
      var rest := Split(s[1..], sep);
      if s[0] == sep then
        assert ([""] + rest)[1..] == rest;
        [""] + rest
      else
        var parts := [[s[0]] + rest[0]] + rest[1..];
        assert parts[1..] == rest[1..];
        assert |rest| > 1 ==> Join(rest, sep) == rest[0] + [sep] + Join(rest[1..], sep);
        parts
  }

  lemma {:induction false} SplitNoSep(a: string, sep: char)
    requires sep !in a
    ensures Split(a, sep) == [a]
    decreases |a|
  {
    if |a| > 0 {
      SplitNoSep(a[1..], sep);
      assert [a[0]] + a[1..] == a;
    }
  }

  lemma {:induction false} SplitCons(a: string, b: string, sep: char)
    requires sep !in a
    ensures Split(a + [sep] + b, sep) == [a] + Split(b, sep)
    decreases |a|
  {
    var s := a + [sep] + b;
    if |a| == 0 {
      assert s[1..] == b;
    } else {
      assert s[1..] == a[1..] + [sep] + b;
      SplitCons(a[1..], b, sep);
      assert [a[0]] + a[1..] == a;
    }
  }

  /** Split undoes Join when no part holds the separator. */
  lemma {:induction false} SplitJoin(parts: seq<string>, sep: char)
    requires |parts| >= 1
    requires forall i :: 0 <= i < |parts| ==> sep !in parts[i]
    ensures Split(Join(parts, sep), sep) == parts
  {
    if |parts| == 1 {
      SplitNoSep(parts[0], sep);
    } else {
      SplitJoin(parts[1..], sep);
      SplitCons(parts[0], Join(parts[1..], sep), sep);
      assert [parts[0]] + parts[1..] == parts;
    }
  }

  /** A character absent from the parts and different from the separator is absent from the join. */
  lemma {:induction false} JoinAvoids(parts: seq<string>, sep: char, c: char)
    requires c != sep
    requires forall i :: 0 <= i < |parts| ==> c !in parts[i]
    ensures c !in Join(parts, sep)
  {
    if |parts| > 1 {
      JoinAvoids(parts[1..], sep, c);
    }
  }

  /** Appending to the joined string is appending to its last part. */
  lemma {:induction false} JoinAppendLast(parts: seq<string>, sep: char, tail: string)
    requires |parts| >= 1
    ensures Join(parts, sep) + tail == Join(parts[..|parts| - 1] + [parts[|parts| - 1] + tail], sep)
  {
    var q := parts[..|parts| - 1] + [parts[|parts| - 1] + tail];
    if |parts| > 1 {
      JoinAppendLast(parts[1..], sep, tail);
      assert q[1..] == parts[1..][..|parts| - 2] + [parts[|parts| - 1] + tail];
    }
  }

  /** Reading past a character that is not a newline. */
  lemma ReadLineCons(c: char, t: string)
    requires c != '\n'
    ensures ReadLine([c] + t) == if ReadLine(t).None? then None else Some([c] + ReadLine(t).value)
  {
    assert ([c] + t)[0] == c && ([c] + t)[1..] == t;
  }

  /** A line of text followed by more text reads back as that line. */
  lemma {:induction false} ReadLineOf(a: string, rest: string)
    requires '\n' !in a
    ensures ReadLine(a + "\n" + rest) == Some(a + "\n")
    decreases |a|
  {
    if |a| > 0 {
      var b := a[1..];
      assert a == [a[0]] + b;
      assert a + "\n" + rest == [a[0]] + (b + "\n" + rest);
      ReadLineOf(b, rest);
      ReadLineCons(a[0], b + "\n" + rest);
      assert [a[0]] + (b + "\n") == a + "\n";
    } else {
      assert (a + "\n" + rest)[0] == '\n';
    }
  }

  /** The character classes of Go's regular expression syntax used by the monitor. */
  datatype CharClass =
    | Space     // \s, that is [\t\n\f\r ]
    | Word      // \w, that is [0-9A-Za-z_]
    | Digit     // \d, that is [0-9]
    | ListChar  // the bracket class [\d+\-?\d+?\,?], that is digits and + - ? ,

  predicate InClass(c: char, cls: CharClass)
  {
    match cls
    case Space => c == ' ' || c == '\t' || c == '\n' || c == '\r' || c as int == 0x0C
    case Word => Strconv.IsDigit(c) || ('a' <= c <= 'z') || ('A' <= c <= 'Z') || c == '_'
    case Digit => Strconv.IsDigit(c)
    case ListChar => Strconv.IsDigit(c) || c == '+' || c == '-' || c == '?' || c == ','
  }

  /** No character is in both classes. */
  ghost predicate Disjoint(a: CharClass, b: CharClass)
  {
    forall c :: InClass(c, a) ==> !InClass(c, b)
  }

  lemma ClassesDisjoint()
    ensures Disjoint(Space, Word) && Disjoint(Word, Space) && Disjoint(Digit, Space)
  {
  }

  /** A run of one class followed by anything starts outside a disjoint class. */
  lemma FirstNotIn(run: string, post: string, cls: CharClass, other: CharClass)
    requires |run| > 0 && AllIn(run, cls) && Disjoint(cls, other)
    ensures !InClass((run + post)[0], other)
  {
    assert (run + post)[0] == run[0];
  }

  predicate AllIn(s: string, cls: CharClass)
  {
    forall i :: 0 <= i < |s| ==> InClass(s[i], cls)
  }

  /**
   * The end of the greedy run of class characters starting at i: what a
   * pattern `cls+` or `cls*` consumes from there.
   */
  function Span(s: string, i: nat, cls: CharClass): (j: nat)
    requires i <= |s|
    ensures i <= j <= |s|
    ensures forall k :: i <= k < j ==> InClass(s[k], cls)
    ensures j < |s| ==> !InClass(s[j], cls)
    decreases |s| - i
  {
    if i < |s| && InClass(s[i], cls) then Span(s, i + 1, cls) else i
  }

  /** The run is determined by where the class characters stop. */
  lemma SpanUnique(s: string, i: nat, j: nat, cls: CharClass)
    requires i <= j <= |s|
    requires forall k :: i <= k < j ==> InClass(s[k], cls)
    requires j < |s| ==> !InClass(s[j], cls)
    ensures Span(s, i, cls) == j
  {
  }

  /**
   * The greedy run of class characters at the front of s and what follows
   * it: how a pattern `cls+` or `cls*` splits the rest of a line.
   */
  function Run(s: string, cls: CharClass): (string, string)
  {
    var j := Span(s, 0, cls);
    (s[..j], s[j..])
  }

  /** The run and the rest put back together are the string; the run is in the class and the rest starts outside it. */
  lemma RunSplits(s: string, cls: CharClass)
    ensures var (run, rest) := Run(s, cls);
      && run + rest == s && AllIn(run, cls)
      && (|rest| > 0 ==> !InClass(rest[0], cls))
  {
    var j := Span(s, 0, cls);
    assert s[..j] + s[j..] == s;
  }

  /** The run of a string spelled as a class run followed by a non-class character is that run. */
  lemma RunOf(run: string, post: string, cls: CharClass)
    requires AllIn(run, cls) && (|post| > 0 ==> !InClass(post[0], cls))
    ensures Run(run + post, cls) == (run, post)
  {
    var s := run + post;
    assert s[..|run|] == run;
    SpanOver(s, 0, run, cls);
    assert s[|run|..] == post;
  }

  /** A run spelled out at i: the greedy run is exactly it when the next character is outside the class. */
  lemma SpanOver(s: string, i: nat, run: string, cls: CharClass)
    requires i + |run| <= |s| && s[i..i + |run|] == run && AllIn(run, cls)
    requires i + |run| < |s| ==> !InClass(s[i + |run|], cls)
    ensures Span(s, i, cls) == i + |run|
  {
    forall k | i <= k < i + |run| ensures InClass(s[k], cls) {
      assert s[k] == run[k - i];
    }
    SpanUnique(s, i, i + |run|, cls);
  }
}
