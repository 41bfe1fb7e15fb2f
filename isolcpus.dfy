/**
 * The isolated-CPU list of the boot command line: the pattern
 * `\s(isolcpus|rcu_nocbs)=([\d+\-?\d+?\,?]+)` as a hand-written recogniser,
 * and the expansion of its captured list into CPU numbers.
 */
module IsolCpus {
  import opened Wrappers
  import opened Text
  import opened Strconv

  const IsolcpusKey: string := "isolcpus="
  const RcuNocbsKey: string := "rcu_nocbs="

  predicate HasAt(s: string, i: nat, w: string)
  {
    i + |w| <= |s| && s[i..i + |w|] == w
  }

  /** Where the list starts when a parameter name follows position i + 1, if one does. */
  function ListStart(line: string, i: nat): (j: Option<nat>)
    ensures j.Some? ==> j.value <= |line|
  {
    if HasAt(line, i + 1, IsolcpusKey) then Some(i + 1 + |IsolcpusKey|)
    else if HasAt(line, i + 1, RcuNocbsKey) then Some(i + 1 + |RcuNocbsKey|)
    else None
  }

  /**
   * The list the pattern captures when its match starts at position i: a
   * whitespace character, a parameter name and '=', then the longest
   * non-empty run of list characters.
   */
  function ListAt(line: string, i: nat): (r: Option<string>)
    ensures r.Some? ==> i < |line| && InClass(line[i], Space) && ListStart(line, i).Some?
    ensures r.Some? ==>
      var j := ListStart(line, i).value;
      |r.value| > 0 && HasAt(line, j, r.value) && AllIn(r.value, ListChar) &&
      (j + |r.value| < |line| ==> !InClass(line[j + |r.value|], ListChar))
  {
    if i < |line| && InClass(line[i], Space) && ListStart(line, i).Some? then
      var j := ListStart(line, i).value;
      var e := Span(line, j, ListChar);
      if e == j then None else Some(line[j..e])
    else None
  }

  /** The leftmost position at or after i where the pattern matches. */
  function FindList(line: string, i: nat): (r: Option<nat>)
    ensures r.Some? ==> i <= r.value < |line| && ListAt(line, r.value).Some?
    ensures r.Some? ==> forall k :: i <= k < r.value ==> ListAt(line, k).None?
    ensures r.None? ==> forall k :: i <= k < |line| ==> ListAt(line, k).None?
    decreases |line| - i
  {
    if i >= |line| then None
    else if ListAt(line, i).Some? then Some(i)
    else FindList(line, i + 1)
  }

  /** The second submatch of the pattern's first match in the line, if it matches. */
  function IsolList(line: string): Option<string>
  {
    match FindList(line, 0)
    case None => None
    case Some(k) => ListAt(line, k)
  }

  /** from, from + 1, ..., to; nothing when from > to. */
  function Range(from: int, to: int): seq<int>
  {
    seq(if from <= to then to - from + 1 else 0, k => from + k)
  }

  /**
   * One comma-separated token: split on '-', a token with more than one
   * piece is the range from its first to its second piece, any other token a
   * single CPU. Pieces go through Atoi, so a malformed piece counts as 0.
   */
  function TokenCpus(token: string): seq<int>
  {
    var cs := Split(token, '-');
    if |cs| > 1 then Range(Atoi(cs[0]), Atoi(cs[1])) else [Atoi(cs[0])]
  }

  /** The CPUs of the tokens, token after token. */
  function ExpandTokens(tokens: seq<string>): seq<int>
  {
    if |tokens| == 0 then [] else ExpandTokens(tokens[..|tokens| - 1]) + TokenCpus(tokens[|tokens| - 1])
  }

  function ListCpus(list: string): seq<int>
  {
    ExpandTokens(Split(list, ','))
  }

  /** What parsing one boot line appends to the isolated CPUs. */
  function BootLineCpus(line: string): seq<int>
  {
    match IsolList(line)
    case None => []
    case Some(list) => ListCpus(list)
  }

  lemma RangeMembers(from: int, to: int)
    ensures |Range(from, to)| == if from <= to then to - from + 1 else 0
    ensures forall k :: 0 <= k < |Range(from, to)| ==> Range(from, to)[k] == from + k
    ensures forall x :: x in Range(from, to) <==> from <= x <= to
  {
    var r := Range(from, to);
    forall x | from <= x <= to
      ensures x in r
    {
      assert r[x - from] == x;
    }
  }

  /** A range grows by its next number at the top. */
  lemma RangeSnoc(from: int, to: int)
    requires from <= to + 1
    ensures Range(from, to + 1) == Range(from, to) + [to + 1]
  {
    var a, b := Range(from, to + 1), Range(from, to) + [to + 1];
    assert |a| == |b|;
    forall k | 0 <= k < |a| ensures a[k] == b[k] {
      if k < |a| - 1 {
        assert b[k] == Range(from, to)[k];
      }
    }
  }

  /** The tokens contribute in order: one more token appends its CPUs after the others'. */
  lemma ExpandTokensSnoc(ts: seq<string>, t: string)
    ensures ExpandTokens(ts + [t]) == ExpandTokens(ts) + TokenCpus(t)
  {
    assert (ts + [t])[..|ts|] == ts;
  }

  lemma CpusAppendAssoc(a: seq<int>, b: seq<int>, c: seq<int>)
    ensures a + (b + c) == (a + b) + c
  {
  }

  /** The same, for a growing prefix of one token list. */
  lemma ExpandTokensPrefix(ts: seq<string>, t: nat)
    requires t < |ts|
    ensures ExpandTokens(ts[..t + 1]) == ExpandTokens(ts[..t]) + TokenCpus(ts[t])
  {
    assert ts[..t + 1] == ts[..t] + [ts[t]];
    ExpandTokensSnoc(ts[..t], ts[t]);
  }

  /** Every CPU the expansion produces comes from one of the tokens. */
  lemma {:induction false} ExpandTokensFrom(tokens: seq<string>, x: int)
    requires x in ExpandTokens(tokens)
    ensures exists i :: 0 <= i < |tokens| && x in TokenCpus(tokens[i])
  {
    var init, last := tokens[..|tokens| - 1], tokens[|tokens| - 1];
    if x in ExpandTokens(init) {
      ExpandTokensFrom(init, x);
      var i :| 0 <= i < |init| && x in TokenCpus(init[i]);
      assert tokens[i] == init[i];
    } else {
      assert x in TokenCpus(tokens[|tokens| - 1]);
    }
  }

  /** Every CPU of every token is in the expansion. */
  lemma {:induction false} ExpandTokensCovers(tokens: seq<string>, i: nat, x: int)
    requires i < |tokens| && x in TokenCpus(tokens[i])
    ensures x in ExpandTokens(tokens)
  {
    var init, last := tokens[..|tokens| - 1], tokens[|tokens| - 1];
    assert ExpandTokens(tokens) == ExpandTokens(init) + TokenCpus(last);
    if i < |init| {
      assert init[i] == tokens[i];
      ExpandTokensCovers(init, i, x);
      assert x in ExpandTokens(init);
    } else {
      assert i == |tokens| - 1 && tokens[i] == last;
    }
  }

  /** A CPU is produced exactly when one of the tokens produces it. */
  lemma ExpandTokensMembers(tokens: seq<string>, x: int)
    ensures x in ExpandTokens(tokens) <==> exists i :: 0 <= i < |tokens| && x in TokenCpus(tokens[i])
  {
    if x in ExpandTokens(tokens) {
      ExpandTokensFrom(tokens, x);
    }
    if exists i :: 0 <= i < |tokens| && x in TokenCpus(tokens[i]) {
      var i :| 0 <= i < |tokens| && x in TokenCpus(tokens[i]);
      ExpandTokensCovers(tokens, i, x);
    }
  }

  /** No piece of a token holds '-', so the parser never produces a negative CPU. */
  lemma TokenCpusNonNegative(token: string)
    ensures forall x :: x in TokenCpus(token) ==> x >= 0
  {
    var cs := Split(token, '-');
    assert '-' !in cs[0];
    if |cs| > 1 {
      assert '-' !in cs[1];
      RangeMembers(Atoi(cs[0]), Atoi(cs[1]));
    }
  }

  lemma {:induction false} ListCpusNonNegative(list: string)
    ensures forall x :: x in ListCpus(list) ==> x >= 0
  {
    var tokens := Split(list, ',');
    forall x | x in ListCpus(list)
      ensures x >= 0
    {
      ExpandTokensMembers(tokens, x);
      var i :| 0 <= i < |tokens| && x in TokenCpus(tokens[i]);
      TokenCpusNonNegative(tokens[i]);
    }
  }

  /** A parameter that is present is found: the pattern matches where the line spells it out. */
  lemma ListAtSpelled(pre: string, ws: char, key: string, list: string, rest: string)
    requires InClass(ws, Space)
    requires key == IsolcpusKey || key == RcuNocbsKey
    requires |list| > 0 && AllIn(list, ListChar)
    requires |rest| > 0 ==> !InClass(rest[0], ListChar)
    ensures ListAt(pre + [ws] + key + list + rest, |pre|) == Some(list)
  {
    var line := pre + [ws] + key + list + rest;
    var i := |pre|;
    var j := i + 1 + |key|;
    assert line[i] == ws;
    assert line[i + 1..j] == key;
    if key == RcuNocbsKey {
      assert line[i + 1] == 'r';
      assert !HasAt(line, i + 1, IsolcpusKey);
    }
    assert ListStart(line, i) == Some(j);
    forall k | j <= k < j + |list|
      ensures InClass(line[k], ListChar)
    {
      assert line[k] == list[k - j];
    }
    assert j + |list| < |line| ==> line[j + |list|] == rest[0];
    SpanUnique(line, j, j + |list|, ListChar);
    assert line[j..j + |list|] == list;
  }

  /**
   * The line yields a list exactly when the pattern matches somewhere, and the
   * list is the one at the leftmost match: later occurrences are ignored.
   */
  lemma IsolListFirstMatch(line: string, k: nat)
    requires k < |line| && ListAt(line, k).Some?
    requires forall i :: 0 <= i < k ==> ListAt(line, i).None?
    ensures IsolList(line) == ListAt(line, k)
  {
  }

  lemma IsolListAbsent(line: string)
    ensures IsolList(line).None? <==> forall k :: 0 <= k < |line| ==> ListAt(line, k).None?
    ensures IsolList(line).None? ==> BootLineCpus(line) == []
  {
    if IsolList(line).None? {
      assert FindList(line, 0).None?;
    }
  }
}
