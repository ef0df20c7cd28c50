/**
 minigrep's library: argument validation (`Config::build`) and the line
 filter (`search`). The environment lookup of `Config::build` is its
 parameter `envHasIgnoreCase`; reading the file and printing (`run`) are
 not modelled.
 */
module MiniGrep {
  import opened Text

  datatype Result<T, E> = Ok(value: T) | Err(error: E)

  /** What one invocation searches for, and where. */
  datatype Config = Config(query: string, filePath: string, ignoreCase: bool)

  /** The error `Config::build` returns when an argument is missing
      (spelled as the program spells it). */
  const NotEnoughArguments: string := "not enough argumenrts"

  /** The marker a fourth argument must contain to switch case off. */
  const IgnoreCaseMarker: string := "IGNORE_CASE"

  // ---------------------------------------------------------------------------
  // Config::build
  // ---------------------------------------------------------------------------

  /** `Config::build(args)`: `args[0]` is the program name; query and file
      path are the next two arguments. Case is ignored when a fourth
      argument holds the marker, or, when there is no fourth argument, when
      the environment variable `IGNORE_CASE` can be read
      (`envHasIgnoreCase`). */
  function Build(args: seq<string>, envHasIgnoreCase: bool): (r: Result<Config, string>)
    ensures r.Err? <==> |args| < 3
    ensures r.Err? ==> r.error == NotEnoughArguments
    ensures r.Ok? ==> r.value.query == args[1] && r.value.filePath == args[2]
    ensures r.Ok? && |args| > 3 ==> (r.value.ignoreCase <==> Contains(args[3], IgnoreCaseMarker))
    ensures r.Ok? && |args| == 3 ==> r.value.ignoreCase == envHasIgnoreCase
  {
    if |args| < 3 then Err(NotEnoughArguments)
    else
      var ignoreCase := if |args| > 3 then Contains(args[3], IgnoreCaseMarker) else envHasIgnoreCase;
      Ok(Config(args[1], args[2], ignoreCase))
  }

  /** The environment is consulted only when there is no fourth argument:
      with too few arguments, or with a fourth one, the outcome is the same
      whatever the environment says. */
  lemma BuildEnvironmentIrrelevant(args: seq<string>, env1: bool, env2: bool)
    requires |args| != 3
    ensures Build(args, env1) == Build(args, env2)
  {
  }

  /** Arguments after the fourth are ignored. */
  lemma BuildIgnoresExtraArguments(args: seq<string>, extra: seq<string>, env: bool)
    requires |args| >= 4
    ensures Build(args + extra, env) == Build(args, env)
  {
    assert (args + extra)[1] == args[1] && (args + extra)[2] == args[2] && (args + extra)[3] == args[3];
  }

  // ---------------------------------------------------------------------------
  // search: the specification
  // ---------------------------------------------------------------------------

  /** Whether `search` keeps `line`: it contains the query, compared
      verbatim, or after lowercasing both when case is ignored. */
  predicate Matches(query: string, line: string, ignoreCase: bool)
  {
    if ignoreCase then Contains(Lower(line), Lower(query)) else Contains(line, query)
  }

  /** `Matches` for one query and one setting, as a test on lines. */
  function Matcher(query: string, ignoreCase: bool): string -> bool
  {
    line => Matches(query, line, ignoreCase)
  }

  /** The lines of `ls` that pass `keep`, trimmed, in order: the value of
      the fold of `search` once it has gone over `ls`. */
  function Kept(keep: string -> bool, ls: seq<string>): (r: seq<string>)
    ensures |r| <= |ls|
  {
    if ls == [] then []
    else
      var last := ls[|ls| - 1];
      Kept(keep, ls[..|ls| - 1]) + (if keep(last) then [Trim(last)] else [])
  }

  /** What `search(query, contents, ignore_case)` returns. */
  function SearchResult(query: string, contents: string, ignoreCase: bool): seq<string>
  {
    Kept(Matcher(query, ignoreCase), Lines(contents))
  }

  // ---------------------------------------------------------------------------
  // search: the implementation
  // ---------------------------------------------------------------------------

  /** `search`: the query is lowercased once; then the lines are folded into
      the result, each line that matches pushed trimmed on its end. */
  method Search(query: string, contents: string, ignoreCase: bool) returns (result: seq<string>)
    ensures result == SearchResult(query, contents, ignoreCase)
  {
    var lowercasedQuery := Lower(query);
    var lines := Lines(contents);
    result := [];
    for i := 0 to |lines|
      invariant result == Kept(Matcher(query, ignoreCase), lines[..i])
    {
      var line := lines[i];
      if ignoreCase && Contains(Lower(line), lowercasedQuery) {
        result := result + [Trim(line)];
      } else if !ignoreCase && Contains(line, query) {
        result := result + [Trim(line)];
      }
      assert lines[..i + 1][..i] == lines[..i];
    }
    assert lines[..|lines|] == lines;
  }

  // ---------------------------------------------------------------------------
  // The fold: which lines it keeps, and in which order
  // ---------------------------------------------------------------------------

  /** `r` is the trimmed lines of `ls` that pass `keep`, in document order,
      and `idx` says where each came from: `r[k]` is `ls[idx[k]]` trimmed,
      the indices increase, each names a line that passes, and every line
      that passes is named. */
  ghost predicate IndexedBy(r: seq<string>, idx: seq<nat>, keep: string -> bool, ls: seq<string>)
  {
    && |idx| == |r|
    && (forall k :: 0 <= k < |idx| ==> idx[k] < |ls| && keep(ls[idx[k]]) && r[k] == Trim(ls[idx[k]]))
    && (forall k, m :: 0 <= k < m < |idx| ==> idx[k] < idx[m])
    && (forall j :: 0 <= j < |ls| && keep(ls[j]) ==> j in idx)
  }

  /** The fold keeps the trimmed lines that pass, in document order, one
      per line that passes (equal lines are all kept). */
  lemma {:induction false} KeptIndexed(keep: string -> bool, ls: seq<string>) returns (idx: seq<nat>)
    ensures IndexedBy(Kept(keep, ls), idx, keep, ls)
  {
    if ls == [] {
      idx := [];
    } else {
      var n := |ls| - 1;
      var init := ls[..n];
      var r := Kept(keep, ls);
      var prev := KeptIndexed(keep, init);
      var rp := Kept(keep, init);
      if keep(ls[n]) {
        idx := prev + [n];
        assert r == rp + [Trim(ls[n])];
        forall k | 0 <= k < |idx|
          ensures idx[k] < |ls| && keep(ls[idx[k]]) && r[k] == Trim(ls[idx[k]])
        {
          if k < |prev| {
            assert idx[k] == prev[k] && ls[prev[k]] == init[prev[k]];
          }
        }
        forall k, m | 0 <= k < m < |idx| ensures idx[k] < idx[m] {
          if m == |prev| {
            assert idx[k] == prev[k] < n;
          }
        }
        forall j | 0 <= j < |ls| && keep(ls[j]) ensures j in idx {
          if j < n {
            assert init[j] == ls[j];
          }
        }
      } else {
        idx := prev;
        assert r == rp;
        forall k | 0 <= k < |idx|
          ensures idx[k] < |ls| && keep(ls[idx[k]]) && r[k] == Trim(ls[idx[k]])
        {
          assert ls[prev[k]] == init[prev[k]];
        }
        forall j | 0 <= j < |ls| && keep(ls[j]) ensures j in idx {
          assert j < n ==> init[j] == ls[j];
        }
      }
    }
  }

  /** Conversely, a sequence of trimmed lines that names every line that
      passes once, in document order, is what the fold returns: `Kept` is
      the only such sequence. */
  lemma {:induction false} IndexedKept(r: seq<string>, idx: seq<nat>, keep: string -> bool, ls: seq<string>)
    requires IndexedBy(r, idx, keep, ls)
    ensures r == Kept(keep, ls)
  {
    if ls == [] {
      IndexedLength(r, idx, keep, ls);
    } else {
      var n := |ls| - 1;
      var init := ls[..n];
      if keep(ls[n]) {
        var last := IndexedDropPassing(r, idx, keep, ls);
        IndexedKept(r[..last], idx[..last], keep, init);
        assert r == r[..last] + [r[last]];
      } else {
        IndexedDropOther(r, idx, keep, ls);
        IndexedKept(r, idx, keep, init);
      }
    }
  }

  /** Increasing indices are at least their position. */
  lemma {:induction false} IncreasingAbove(idx: seq<nat>, k: nat)
    requires forall i, j :: 0 <= i < j < |idx| ==> idx[i] < idx[j]
    requires k < |idx|
    ensures k <= idx[k]
  {
    if k > 0 {
      IncreasingAbove(idx, k - 1);
    }
  }

  /** An indexing names no more lines than there are. */
  lemma IndexedLength(r: seq<string>, idx: seq<nat>, keep: string -> bool, ls: seq<string>)
    requires IndexedBy(r, idx, keep, ls)
    ensures |r| <= |ls|
  {
    if idx != [] {
      IncreasingAbove(idx, |idx| - 1);
    }
  }

  /** In increasing indices below `n + 1`, `n` can only come last. */
  lemma LastNamed(idx: seq<nat>, n: nat)
    requires forall i, j :: 0 <= i < j < |idx| ==> idx[i] < idx[j]
    requires forall k :: 0 <= k < |idx| ==> idx[k] <= n
    requires n in idx
    ensures idx != [] && idx[|idx| - 1] == n
  {
    var p :| 0 <= p < |idx| && idx[p] == n;
    assert idx[|idx| - 1] <= n;
  }

  /** When the last line passes, it is the last one named, and the rest of
      `r` is indexed by the rest of `idx` in the other lines. */
  lemma IndexedDropPassing(r: seq<string>, idx: seq<nat>, keep: string -> bool, ls: seq<string>)
    returns (last: nat)
    requires IndexedBy(r, idx, keep, ls)
    requires ls != [] && keep(ls[|ls| - 1])
    ensures last == |idx| - 1 && idx[last] == |ls| - 1 && r[last] == Trim(ls[|ls| - 1])
    ensures IndexedBy(r[..last], idx[..last], keep, ls[..|ls| - 1])
  {
    var n := |ls| - 1;
    var init := ls[..n];
    LastNamed(idx, n);
    last := |idx| - 1;
    var r', idx' := r[..last], idx[..last];
    forall k | 0 <= k < |idx'|
      ensures idx'[k] < |init| && keep(init[idx'[k]]) && r'[k] == Trim(init[idx'[k]])
    {
      assert idx'[k] == idx[k] < idx[last] == n;
      assert init[idx[k]] == ls[idx[k]];
    }
    forall j | 0 <= j < |init| && keep(init[j]) ensures j in idx' {
      assert ls[j] == init[j];
      assert j in idx;
      var q :| 0 <= q < |idx| && idx[q] == j;
      assert q != last;
      assert idx'[q] == j;
    }
  }

  /** When the last line does not pass, it is not named, and `r` is
      indexed by `idx` in the other lines. */
  lemma IndexedDropOther(r: seq<string>, idx: seq<nat>, keep: string -> bool, ls: seq<string>)
    requires IndexedBy(r, idx, keep, ls)
    requires ls != [] && !keep(ls[|ls| - 1])
    ensures IndexedBy(r, idx, keep, ls[..|ls| - 1])
  {
    var n := |ls| - 1;
    var init := ls[..n];
    forall k | 0 <= k < |idx|
      ensures idx[k] < |init| && keep(init[idx[k]]) && r[k] == Trim(init[idx[k]])
    {
      assert idx[k] != n;
      assert init[idx[k]] == ls[idx[k]];
    }
    forall j | 0 <= j < |init| && keep(init[j]) ensures j in idx {
      assert ls[j] == init[j];
    }
  }

  /** Folding over two runs of lines one after the other gives the two
      results one after the other: each line is judged alone, and nothing
      is merged across lines. */
  lemma {:induction false} KeptAppend(keep: string -> bool, a: seq<string>, b: seq<string>)
    ensures Kept(keep, a + b) == Kept(keep, a) + Kept(keep, b)
    decreases |b|
  {
    if b == [] {
      assert a + b == a;
    } else {
      var n := |b| - 1;
      assert (a + b)[..|a + b| - 1] == a + b[..n];
      assert (a + b)[|a + b| - 1] == b[n];
      KeptAppend(keep, a, b[..n]);
    }
  }

  /** A test every line passes keeps every line, trimmed. */
  lemma {:induction false} KeptAll(keep: string -> bool, ls: seq<string>)
    requires forall l :: keep(l)
    ensures |Kept(keep, ls)| == |ls|
    ensures forall k :: 0 <= k < |ls| ==> Kept(keep, ls)[k] == Trim(ls[k])
  {
    if ls != [] {
      KeptAll(keep, ls[..|ls| - 1]);
    }
  }

  /** `a` is `b` with some elements left out, the rest in their order. */
  predicate IsSubsequence<T(==)>(a: seq<T>, b: seq<T>)
    decreases |b|
  {
    if b == [] then a == []
    else
      (a != [] && a[|a| - 1] == b[|b| - 1] && IsSubsequence(a[..|a| - 1], b[..|b| - 1]))
      || IsSubsequence(a, b[..|b| - 1])
  }

  /** A weaker test keeps more: every line the stricter test keeps is kept
      by the weaker one, in the same order. */
  lemma {:induction false} KeptWeaker(strict: string -> bool, weak: string -> bool, ls: seq<string>)
    requires forall l :: strict(l) ==> weak(l)
    ensures IsSubsequence(Kept(strict, ls), Kept(weak, ls))
  {
    if ls != [] {
      var n := |ls| - 1;
      var a := Kept(strict, ls[..n]);
      var b := Kept(weak, ls[..n]);
      KeptWeaker(strict, weak, ls[..n]);
      var t := Trim(ls[n]);
      if strict(ls[n]) {
        assert (a + [t])[..|a|] == a && (b + [t])[..|b|] == b;
      } else if weak(ls[n]) {
        assert Kept(strict, ls) == a + [] == a;
        assert (b + [t])[..|b|] == b;
      } else {
        assert Kept(strict, ls) == a + [] == a;
        assert Kept(weak, ls) == b + [] == b;
      }
    }
  }

  /** The fold's result is the trim of each line of a subsequence of the
      lines, each of which passes. */
  lemma {:induction false} KeptFromSubsequence(keep: string -> bool, ls: seq<string>)
    returns (kept: seq<string>)
    ensures IsSubsequence(kept, ls)
    ensures |kept| == |Kept(keep, ls)|
    ensures forall k :: 0 <= k < |kept| ==> keep(kept[k]) && Kept(keep, ls)[k] == Trim(kept[k])
  {
    if ls == [] {
      kept := [];
    } else {
      var n := |ls| - 1;
      var prev := KeptFromSubsequence(keep, ls[..n]);
      if keep(ls[n]) {
        kept := prev + [ls[n]];
        assert kept[..|prev|] == prev;
      } else {
        kept := prev;
      }
    }
  }

  // ---------------------------------------------------------------------------
  // search: what its result is
  // ---------------------------------------------------------------------------

  /** The result of `search` is the trimmed lines of `contents` that match
      (containing the query verbatim, or after lowercasing both when case
      is ignored), in document order, one entry per matching line. */
  lemma SearchIndexed(query: string, contents: string, ignoreCase: bool) returns (idx: seq<nat>)
    ensures IndexedBy(SearchResult(query, contents, ignoreCase), idx, Matcher(query, ignoreCase), Lines(contents))
  {
    idx := KeptIndexed(Matcher(query, ignoreCase), Lines(contents));
  }

  /** Any list of trimmed matching lines that names each matching line of
      `contents` once, in document order, is the result of `search`. */
  lemma SearchUnique(r: seq<string>, idx: seq<nat>, query: string, contents: string, ignoreCase: bool)
    requires IndexedBy(r, idx, Matcher(query, ignoreCase), Lines(contents))
    ensures r == SearchResult(query, contents, ignoreCase)
  {
    IndexedKept(r, idx, Matcher(query, ignoreCase), Lines(contents));
  }

  /** The result is the trim map applied to a subsequence of the lines of
      `contents`, all of them matching. */
  lemma SearchFromSubsequence(query: string, contents: string, ignoreCase: bool) returns (kept: seq<string>)
    ensures IsSubsequence(kept, Lines(contents))
    ensures |kept| == |SearchResult(query, contents, ignoreCase)|
    ensures |kept| <= |Lines(contents)|
    ensures forall k :: 0 <= k < |kept| ==>
      Matches(query, kept[k], ignoreCase) && SearchResult(query, contents, ignoreCase)[k] == Trim(kept[k])
  {
    kept := KeptFromSubsequence(Matcher(query, ignoreCase), Lines(contents));
  }

  /** The empty query matches every line: `search` returns all the lines,
      trimmed. */
  lemma SearchEmptyQuery(contents: string, ignoreCase: bool)
    ensures |SearchResult("", contents, ignoreCase)| == |Lines(contents)|
    ensures forall k :: 0 <= k < |Lines(contents)| ==>
      SearchResult("", contents, ignoreCase)[k] == Trim(Lines(contents)[k])
  {
    forall l ensures Matcher("", ignoreCase)(l) {
      assert Lower("") == "";
      ContainsEmpty(l);
      ContainsEmpty(Lower(l));
    }
    KeptAll(Matcher("", ignoreCase), Lines(contents));
  }

  /** A line that contains the query verbatim also matches when case is ignored. */
  lemma MatchesIgnoringCase(query: string, line: string)
    requires Matches(query, line, false)
    ensures Matches(query, line, true)
  {
    ContainsLower(line, query);
  }

  /** Ignoring case only adds lines: the case-sensitive result is a
      subsequence of the case-insensitive one. */
  lemma SearchIgnoringCaseKeepsMore(query: string, contents: string)
    ensures IsSubsequence(SearchResult(query, contents, false), SearchResult(query, contents, true))
  {
    forall l | Matcher(query, false)(l) ensures Matcher(query, true)(l) {
      MatchesIgnoringCase(query, l);
    }
    KeptWeaker(Matcher(query, false), Matcher(query, true), Lines(contents));
  }
}
