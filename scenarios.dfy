/**
 The unit tests of minigrep's library, as lemmas: `search` over the test
 text, whose lines after the first are indented by nine spaces that the
 result no longer has.
 */
module Scenarios {
  import opened Text
  import opened MiniGrep

  /** `n` spaces. */
  function Spaces(n: nat): (r: string)
    ensures |r| == n
  {
    seq(n, _ => ' ')
  }

  /** Leading spaces are what `TrimStart` removes. */
  lemma {:induction false} TrimStartSpaces(n: nat, w: string)
    requires w == [] || !IsWhitespace(w[0])
    ensures TrimStart(Spaces(n) + w) == w
  {
    if n > 0 {
      assert (Spaces(n) + w)[1..] == Spaces(n - 1) + w;
      TrimStartSpaces(n - 1, w);
    }
  }

  const Line0: string := "Rust:"
  const Line1: string := "         safe, fast, productive."
  const Line2: string := "         Pick three."
  const Line3: string := "         Rust rocks."
  const Line4: string := "         Duct tape."

  /** The test text of the unit tests: its five lines, with a line feed
      between each two. */
  const Contents: string := Joined([Line0, Line1, Line2, Line3, Line4])

  /** The test text has five lines, all but the first indented. */
  lemma ContentsLines()
    ensures Lines(Contents) == [Line0, Line1, Line2, Line3, Line4]
  {
    LinesOfJoined([Line0, Line1, Line2, Line3, Line4]);
  }

  /** The fold over five lines, one line at a time. */
  lemma KeptFive(keep: string -> bool, l0: string, l1: string, l2: string, l3: string, l4: string)
    ensures Kept(keep, [l0, l1, l2, l3, l4])
         == Kept(keep, [l0]) + Kept(keep, [l1]) + Kept(keep, [l2]) + Kept(keep, [l3]) + Kept(keep, [l4])
  {
    assert [l0, l1, l2, l3, l4] == [l0] + [l1] + [l2] + [l3] + [l4];
    KeptAppend(keep, [l0] + [l1] + [l2] + [l3], [l4]);
    KeptAppend(keep, [l0] + [l1] + [l2], [l3]);
    KeptAppend(keep, [l0] + [l1], [l2]);
    KeptAppend(keep, [l0], [l1]);
  }

  /** The fold over one line that does not pass. */
  lemma KeptDropped(keep: string -> bool, l: string)
    requires !keep(l)
    ensures Kept(keep, [l]) == []
  {
    assert [l][..0] == [];
  }

  /** The fold over one line that passes. */
  lemma KeptPassing(keep: string -> bool, l: string)
    requires keep(l)
    ensures Kept(keep, [l]) == [Trim(l)]
  {
    assert [l][..0] == [];
  }

  /** The fold over five lines none of which passes. */
  lemma KeptNoneOfFive(keep: string -> bool, l0: string, l1: string, l2: string, l3: string, l4: string)
    requires !keep(l0) && !keep(l1) && !keep(l2) && !keep(l3) && !keep(l4)
    ensures Kept(keep, [l0, l1, l2, l3, l4]) == []
  {
    KeptFive(keep, l0, l1, l2, l3, l4);
    KeptDropped(keep, l0);
    KeptDropped(keep, l1);
    KeptDropped(keep, l2);
    KeptDropped(keep, l3);
    KeptDropped(keep, l4);
  }

  /** No line contains an underscore, so none contains the query of
      `zero_results`. */
  lemma NotExistingLines(q: string)
    requires '_' in q
    ensures !Contains(Line0, q) && !Contains(Line1, q) && !Contains(Line2, q)
    ensures !Contains(Line3, q) && !Contains(Line4, q)
  {
    NotContainsByChar(Line0, q, '_');
    NotContainsByChar(Line1, q, '_');
    NotContainsByChar(Line2, q, '_');
    NotContainsByChar(Line3, q, '_');
    NotContainsByChar(Line4, q, '_');
  }

  /** `zero_results`: a query that no line contains finds nothing. */
  lemma ZeroResults()
    ensures SearchResult("not_exisiting_part", Contents, false) == []
  {
    ContentsLines();
    NotExistingLines("not_exisiting_part");
    KeptNoneOfFive(Matcher("not_exisiting_part", false), Line0, Line1, Line2, Line3, Line4);
  }

  /** The fold over five lines of which only the second passes. */
  lemma KeptOnlySecond(keep: string -> bool, l0: string, l1: string, l2: string, l3: string, l4: string)
    requires !keep(l0) && keep(l1) && !keep(l2) && !keep(l3) && !keep(l4)
    ensures Kept(keep, [l0, l1, l2, l3, l4]) == [Trim(l1)]
  {
    KeptFive(keep, l0, l1, l2, l3, l4);
    KeptDropped(keep, l0);
    KeptPassing(keep, l1);
    KeptDropped(keep, l2);
    KeptDropped(keep, l3);
    KeptDropped(keep, l4);
  }

  /** The fold over five lines of which the first and the fourth pass. */
  lemma KeptFirstAndFourth(keep: string -> bool, l0: string, l1: string, l2: string, l3: string, l4: string)
    requires keep(l0) && !keep(l1) && !keep(l2) && keep(l3) && !keep(l4)
    ensures Kept(keep, [l0, l1, l2, l3, l4]) == [Trim(l0), Trim(l3)]
  {
    KeptFive(keep, l0, l1, l2, l3, l4);
    KeptPassing(keep, l0);
    KeptDropped(keep, l1);
    KeptDropped(keep, l2);
    KeptPassing(keep, l3);
    KeptDropped(keep, l4);
  }

  /** Which lines contain "duct" verbatim: only the second. */
  lemma DuctLines()
    ensures !Contains(Line0, "duct") && Contains(Line1, "duct") && !Contains(Line2, "duct")
    ensures !Contains(Line3, "duct") && !Contains(Line4, "duct")
  {
    NotContainsByChar(Line0, "duct", 'd');
    assert OccursAt(Line1, "duct", 24);
    NotContainsByChar(Line2, "duct", 'd');
    NotContainsByChar(Line3, "duct", 'd');
    NotContainsByChar(Line4, "duct", 'd');
  }

  /** The first line has nothing to trim. */
  lemma TrimLine0()
    ensures Trim(Line0) == "Rust:"
  {
    assert TrimStart(Line0) == Line0;
  }

  /** The second line loses its indentation when trimmed. */
  lemma TrimLine1()
    ensures Trim(Line1) == "safe, fast, productive."
  {
    assert Line1 == Spaces(9) + "safe, fast, productive.";
    TrimIndented("safe, fast, productive.");
  }

  /** The fourth line loses its indentation when trimmed. */
  lemma TrimLine3()
    ensures Trim(Line3) == "Rust rocks."
  {
    assert Line3 == Spaces(9) + "Rust rocks.";
    TrimIndented("Rust rocks.");
  }

  /** `case_sensitive_one_result`: "duct" is found verbatim only inside
      "productive"; "Duct" in the last line has the wrong case. */
  lemma CaseSensitiveOneResult()
    ensures SearchResult("duct", Contents, false) == ["safe, fast, productive."]
  {
    ContentsLines();
    DuctLines();
    KeptOnlySecond(Matcher("duct", false), Line0, Line1, Line2, Line3, Line4);
    TrimLine1();
  }

  /** A line indented by nine spaces loses them when trimmed. */
  lemma TrimIndented(w: string)
    requires w != [] && !IsWhitespace(w[0]) && !IsWhitespace(w[|w| - 1])
    ensures Trim(Spaces(9) + w) == w
  {
    TrimStartSpaces(9, w);
  }

  /** The first line, lowercased, starts with "rust". */
  lemma LowerLine0()
    ensures Contains(Lower(Line0), "rust")
  {
    assert Lower(Line0) == "rust:";
    assert OccursAt(Lower(Line0), "rust", 0);
  }

  /** The second line holds an "r" only in "productive", where no "rust"
      follows. */
  lemma LowerLine1()
    ensures !Contains(Lower(Line1), "rust")
  {
    var a, b := "         safe, fast, p", "roductive.";
    assert Lower(Line1) == Line1 == a + b;
    NotContainsByChar(b, "rust", 's');
    NotContainsAfter(a, b, "rust");
  }

  /** The third line, lowercased, has no "u". */
  lemma LowerLine2()
    ensures !Contains(Lower(Line2), "rust")
  {
    assert Lower(Line2) == "         pick three.";
    NotContainsByChar(Lower(Line2), "rust", 'u');
  }

  /** The fourth line, lowercased, has "rust" after its indentation. */
  lemma LowerLine3()
    ensures Contains(Lower(Line3), "rust")
  {
    assert Lower(Line3) == "         rust rocks.";
    assert OccursAt(Lower(Line3), "rust", 9);
  }

  /** The fifth line, lowercased, has no "r". */
  lemma LowerLine4()
    ensures !Contains(Lower(Line4), "rust")
  {
    assert Lower(Line4) == "         duct tape.";
    NotContainsByChar(Lower(Line4), "rust", 'r');
  }

  /** `case_insensitive_two_results`: "rUsT", lowercased, is found in the
      lowercased first and fourth lines. */
  lemma CaseInsensitiveTwoResults()
    ensures SearchResult("rUsT", Contents, true) == ["Rust:", "Rust rocks."]
  {
    assert Lower("rUsT") == "rust";
    ContentsLines();
    LowerLine0();
    LowerLine1();
    LowerLine2();
    LowerLine3();
    LowerLine4();
    KeptFirstAndFourth(Matcher("rUsT", true), Line0, Line1, Line2, Line3, Line4);
    TrimLine0();
    TrimLine3();
  }
}
