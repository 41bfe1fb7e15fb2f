/** Worked inputs of the isolated-CPU list parser. */
module IsolCpusCases {
  import opened Text
  import opened Strconv
  import opened IsolCpus

  lemma ListTokensExample()
    ensures Split("0,2,4-6", ',') == ["0", "2", "4-6"]
  {
    assert "0,2,4-6" == "0" + [','] + "2,4-6";
    assert "2,4-6" == "2" + [','] + "4-6";
    SplitCons("0", "2,4-6", ',');
    SplitCons("2", "4-6", ',');
    SplitNoSep("4-6", ',');
  }

  lemma RangeTokenExample()
    ensures TokenCpus("4-6") == [4, 5, 6]
  {
    assert "4-6" == "4" + ['-'] + "6";
    SplitCons("4", "6", '-');
    SplitNoSep("6", '-');
    assert Atoi("4") == 4 && Atoi("6") == 6;
    assert Range(4, 6) == [4, 5, 6];
  }

  /** A leading dash is a range from the empty piece, that is from CPU 0. */
  lemma LeadingDashExample()
    ensures TokenCpus("-3") == [0, 1, 2, 3]
  {
    assert "-3" == "" + ['-'] + "3";
    SplitCons("", "3", '-');
    SplitNoSep("3", '-');
    assert Atoi("") == 0 && Atoi("3") == 3;
    assert Range(0, 3) == [0, 1, 2, 3];
  }

  /** Only the first two pieces of a token count. */
  lemma ExtraPieceExample()
    ensures TokenCpus("4-6-8") == [4, 5, 6]
  {
    assert "4-6-8" == "4" + ['-'] + "6-8";
    assert "6-8" == "6" + ['-'] + "8";
    SplitCons("4", "6-8", '-');
    SplitCons("6", "8", '-');
    SplitNoSep("8", '-');
    assert Atoi("4") == 4 && Atoi("6") == 6;
    assert Range(4, 6) == [4, 5, 6];
  }

  /** A range whose start is above its end contributes nothing. */
  lemma EmptyRangeExample()
    ensures TokenCpus("6-4") == []
  {
    assert "6-4" == "6" + ['-'] + "4";
    SplitCons("6", "4", '-');
    SplitNoSep("4", '-');
    assert Atoi("6") == 6 && Atoi("4") == 4;
  }

  /** A token without a dash is one CPU. */
  lemma SingleToken(t: string)
    requires '-' !in t
    ensures TokenCpus(t) == [Atoi(t)]
  {
    SplitNoSep(t, '-');
  }

  lemma SinglesExample()
    ensures ExpandTokens(["0", "2"]) == [0, 2]
  {
    SingleToken("0");
    SingleToken("2");
    assert Atoi("0") == 0 && Atoi("2") == 2;
    ExpandTokensSnoc([], "0");
    assert ["0"] + ["2"] == ["0", "2"];
    ExpandTokensSnoc(["0"], "2");
  }

  lemma TokensExample()
    ensures ExpandTokens(["0", "2", "4-6"]) == [0, 2, 4, 5, 6]
  {
    RangeTokenExample();
    SinglesExample();
    assert ["0", "2"] + ["4-6"] == ["0", "2", "4-6"];
    ExpandTokensSnoc(["0", "2"], "4-6");
  }

  /** The list "0,2,4-6" names CPUs 0, 2 and 4 to 6, in that order. */
  lemma ListExample()
    ensures ListCpus("0,2,4-6") == [0, 2, 4, 5, 6]
  {
    ListTokensExample();
    TokensExample();
  }

  /** A trailing comma yields an empty token, which Atoi reads as CPU 0. */
  lemma MalformedExample()
    ensures ListCpus("1,") == [1, 0]
  {
    assert "1," == "1" + [','] + "";
    SplitCons("1", "", ',');
    SingleToken("1");
    SingleToken("");
    assert Atoi("1") == 1 && Atoi("") == 0;
    ExpandTokensSnoc([], "1");
    ExpandTokensSnoc(["1"], "");
  }

  /** The list of a parameter at the start of the line, after its leading blank. */
  lemma LeadingParameter(list: string, rest: string)
    requires |list| > 0 && AllIn(list, ListChar)
    requires |rest| > 0 ==> !InClass(rest[0], ListChar)
    ensures BootLineCpus(" isolcpus=" + list + rest) == ListCpus(list)
  {
    var line := " isolcpus=" + list + rest;
    assert line == "" + [' '] + IsolcpusKey + list + rest;
    ListAtSpelled("", ' ', IsolcpusKey, list, rest);
    IsolListFirstMatch(line, 0);
  }

  /** A boot line naming isolcpus=0,2,4-6 isolates CPUs 0, 2, 4, 5 and 6. */
  lemma BootLineExample()
    ensures BootLineCpus(" isolcpus=0,2,4-6 quiet\n") == [0, 2, 4, 5, 6]
  {
    assert " isolcpus=0,2,4-6 quiet\n" == " isolcpus=" + "0,2,4-6" + " quiet\n";
    LeadingParameter("0,2,4-6", " quiet\n");
    ListExample();
  }

  /**
   * The list ends at the first character outside the bracket class, so
   * isolcpus=1,x,3 captures "1," and isolates CPUs 1 and 0; the 3 is never read.
   */
  lemma BootLineMalformedExample()
    ensures BootLineCpus(" isolcpus=1,x,3\n") == [1, 0]
  {
    assert " isolcpus=1,x,3\n" == " isolcpus=" + "1," + "x,3\n";
    LeadingParameter("1,", "x,3\n");
    MalformedExample();
  }
}
