/**
 The string operations of Rust's standard library that minigrep's search is
 built from, as functions on `string` (a sequence of Unicode scalar values):

 - `Lines`    models `str::lines`,
 - `Contains` models `str::contains` with a string pattern,
 - `Lower`    models `str::to_lowercase`, restricted to ASCII letters,
 - `Trim`     models `str::trim`, with the full Unicode White_Space set.

 Each comes with the lemmas that say what it means, independently of how it
 is computed.
 */
module Text {

  // ---------------------------------------------------------------------------
  // Substring containment (`str::contains`)
  // ---------------------------------------------------------------------------

  /** `q` occurs in `s` starting at index `i`. */
  predicate OccursAt(s: string, q: string, i: nat)
  {
    i + |q| <= |s| && s[i..i + |q|] == q
  }

  /** `s.contains(q)` for a string pattern `q`: some window of `s` equals `q`. */
  predicate Contains(s: string, q: string)
  {
    exists i: nat :: i <= |s| && OccursAt(s, q, i)
  }

  /** The empty pattern is contained in every string, the empty one included. */
  lemma ContainsEmpty(s: string)
    ensures Contains(s, "")
  {
    assert OccursAt(s, "", 0);
  }

  /** A pattern holding a character that the text lacks is not contained in it. */
  lemma NotContainsByChar(s: string, q: string, c: char)
    requires c in q && c !in s
    ensures !Contains(s, q)
  {
    var k :| 0 <= k < |q| && q[k] == c;
    forall i: nat | i <= |s| ensures !OccursAt(s, q, i) {
      assert i + |q| <= |s| ==> s[i + k] in s && s[i..i + |q|][k] == s[i + k];
    }
  }

  /** An occurrence starts with the pattern's first character; when the
      text's first part `a` lacks that character, every occurrence lies in
      the rest `b`. */
  lemma NotContainsAfter(a: string, b: string, q: string)
    requires q != [] && q[0] !in a && !Contains(b, q)
    ensures !Contains(a + b, q)
  {
    var s := a + b;
    forall i: nat | i <= |s| ensures !OccursAt(s, q, i) {
      if i < |a| {
        assert i + |q| <= |s| ==> s[i..i + |q|][0] == a[i];
      } else {
        assert i + |q| <= |s| ==> s[i..i + |q|] == b[i - |a|..i - |a| + |q|];
        assert !OccursAt(b, q, i - |a|);
      }
    }
  }

  // ---------------------------------------------------------------------------
  // Lowercasing (`str::to_lowercase`, ASCII part)
  // ---------------------------------------------------------------------------

  /** Lowercase of one character: `A`..`Z` become `a`..`z`, every other
      character is left as it is. */
  function LowerChar(c: char): (r: char)
    ensures 'A' <= c <= 'Z' ==> 'a' <= r <= 'z' && r as int - c as int == 'a' as int - 'A' as int
    ensures !('A' <= c <= 'Z') ==> r == c
  {
    if 'A' <= c <= 'Z' then (c as int - 'A' as int + 'a' as int) as char else c
  }

  /** Lowercase of a string, character by character. */
  function Lower(s: string): (r: string)
  {
    seq(|s|, i requires 0 <= i < |s| => LowerChar(s[i]))
  }

  /** Lowercasing commutes with taking a window. */
  lemma LowerSlice(s: string, i: nat, j: nat)
    requires i <= j <= |s|
    ensures Lower(s)[i..j] == Lower(s[i..j])
  {
    assert forall k :: 0 <= k < j - i ==> Lower(s)[i..j][k] == Lower(s[i..j])[k];
  }

  /** Lowercasing both sides keeps an exact match: whatever `contains` finds
      verbatim it also finds between the lowercased strings. */
  lemma ContainsLower(s: string, q: string)
    requires Contains(s, q)
    ensures Contains(Lower(s), Lower(q))
  {
    var i: nat :| i <= |s| && OccursAt(s, q, i);
    LowerSlice(s, i, i + |q|);
    assert OccursAt(Lower(s), Lower(q), i);
  }

  // ---------------------------------------------------------------------------
  // Trimming (`str::trim`)
  // ---------------------------------------------------------------------------

  /** `char::is_whitespace`: the Unicode White_Space property. */
  predicate IsWhitespace(c: char)
  {
    var n := c as int;
    (0x09 <= n <= 0x0D) || n == 0x20 || n == 0x85 || n == 0xA0 || n == 0x1680
    || (0x2000 <= n <= 0x200A) || n == 0x2028 || n == 0x2029 || n == 0x202F
    || n == 0x205F || n == 0x3000
  }

  /** `s` with its leading whitespace removed. */
  function TrimStart(s: string): (r: string)
    ensures |r| <= |s|
  {
    if s != [] && IsWhitespace(s[0]) then TrimStart(s[1..]) else s
  }

  /** `TrimStart(s)` is a suffix of `s` that is empty or starts with a
      character that is not whitespace, and everything before it is
      whitespace. */
  lemma {:induction false} TrimStartSpec(s: string)
    ensures TrimStart(s) == s[|s| - |TrimStart(s)|..]
    ensures forall i :: 0 <= i < |s| - |TrimStart(s)| ==> IsWhitespace(s[i])
    ensures TrimStart(s) != [] ==> !IsWhitespace(TrimStart(s)[0])
  {
    if s != [] && IsWhitespace(s[0]) {
      TrimStartSpec(s[1..]);
    }
  }

  /** `s` with its trailing whitespace removed. */
  function TrimEnd(s: string): (r: string)
    ensures |r| <= |s|
  {
    if s != [] && IsWhitespace(s[|s| - 1]) then TrimEnd(s[..|s| - 1]) else s
  }

  /** `TrimEnd(s)` is a prefix of `s` that is empty or ends with a
      character that is not whitespace, and everything after it is
      whitespace. */
  lemma {:induction false} TrimEndSpec(s: string)
    ensures TrimEnd(s) == s[..|TrimEnd(s)|]
    ensures forall i :: |TrimEnd(s)| <= i < |s| ==> IsWhitespace(s[i])
    ensures TrimEnd(s) != [] ==> !IsWhitespace(TrimEnd(s)[|TrimEnd(s)| - 1])
  {
    if s != [] && IsWhitespace(s[|s| - 1]) {
      TrimEndSpec(s[..|s| - 1]);
    }
  }

  /** `s.trim()`: leading and trailing whitespace removed. */
  function Trim(s: string): (r: string)
    ensures |r| <= |s|
  {
    TrimEnd(TrimStart(s))
  }

  /** The trimmed string is the window `s[a..b]` of `s` that is left once
      all leading and all trailing whitespace is removed: outside the window
      there is only whitespace, and the window is empty or starts and ends
      with a character that is not whitespace. */
  lemma TrimIsWindow(s: string) returns (a: nat, b: nat)
    ensures a <= b <= |s| && Trim(s) == s[a..b]
    ensures forall i :: 0 <= i < a ==> IsWhitespace(s[i])
    ensures forall i :: b <= i < |s| ==> IsWhitespace(s[i])
    ensures a < b ==> !IsWhitespace(s[a]) && !IsWhitespace(s[b - 1])
  {
    var t := TrimStart(s);
    TrimStartSpec(s);
    TrimEndSpec(t);
    a := |s| - |t|;
    b := a + |Trim(s)|;
    assert t[..|Trim(s)|] == s[a..b];
    forall i | b <= i < |s| ensures IsWhitespace(s[i]) {
      assert s[i] == t[i - a];
    }
  }

  /** Trimming is idempotent. */
  lemma TrimIdempotent(s: string)
    ensures Trim(Trim(s)) == Trim(s)
  {
    var t := Trim(s);
    TrimStartSpec(s);
    TrimEndSpec(TrimStart(s));
    assert TrimStart(t) == t;
    assert TrimEnd(t) == t;
  }

  // ---------------------------------------------------------------------------
  // Line splitting (`str::lines`)
  // ---------------------------------------------------------------------------

  /** Index of the first line feed in `s`, or `|s|` when there is none. */
  function LineEnd(s: string): (i: nat)
    ensures i <= |s|
    ensures forall j :: 0 <= j < i ==> s[j] != '\n'
    ensures i < |s| ==> s[i] == '\n'
  {
    if s == [] || s[0] == '\n' then 0 else 1 + LineEnd(s[1..])
  }

  /** `l` ends with a carriage return. */
  predicate EndsWithCR(l: string)
  {
    l != [] && l[|l| - 1] == '\r'
  }

  /** A line that was terminated by a line feed loses one carriage return
      before it (a `\r\n` line ending). */
  function StripCR(l: string): (r: string)
    ensures EndsWithCR(l) ==> r == l[..|l| - 1]
    ensures !EndsWithCR(l) ==> r == l
  {
    if EndsWithCR(l) then l[..|l| - 1] else l
  }

  /** `s.lines()`: `s` is cut after every line feed; each piece loses its
      line feed and, when one precedes it, a carriage return. A last piece
      without a line feed is a line of its own if it is not empty, and is
      kept as it is; so a final line ending adds no empty line. No line
      holds a line feed, and there are at most as many lines as characters. */
  function Lines(s: string): (ls: seq<string>)
    ensures forall k :: 0 <= k < |ls| ==> '\n' !in ls[k]
    ensures |ls| <= |s|
    decreases |s|
  {
    if s == [] then []
    else
      var i := LineEnd(s);
      if i == |s| then [s] else [StripCR(s[..i])] + Lines(s[i + 1..])
  }

  /** Every line followed by a line feed: the inverse of `Lines`. */
  function Terminated(ls: seq<string>): (s: string)
  {
    if ls == [] then [] else ls[0] + "\n" + Terminated(ls[1..])
  }

  /** The first line of a text that begins with a line `l` and a line feed. */
  lemma LineEndOfLine(l: string, rest: string)
    requires '\n' !in l
    ensures LineEnd(l + "\n" + rest) == |l|
  {
    var s := l + "\n" + rest;
    assert s[|l|] == '\n';
    assert forall j :: 0 <= j < |l| ==> s[j] == l[j];
  }

  /** Splitting a text of terminated lines gives back those lines, provided
      no line holds a line feed or ends with a carriage return (those would
      be read as part of the line ending). */
  lemma {:induction false} LinesOfTerminated(ls: seq<string>)
    requires forall k :: 0 <= k < |ls| ==> PlainLine(ls[k])
    ensures Lines(Terminated(ls)) == ls
  {
    if ls != [] {
      var s := Terminated(ls);
      var rest := Terminated(ls[1..]);
      assert s == ls[0] + "\n" + rest;
      LineEndOfLine(ls[0], rest);
      assert s[..|ls[0]|] == ls[0];
      assert s[|ls[0]| + 1..] == rest;
      LinesOfTerminated(ls[1..]);
      assert ls == [ls[0]] + ls[1..];
    }
  }

  /** A first line and a line feed followed by `rest`: `Lines` takes the
      first line off and goes on with `rest`. */
  lemma LinesCons(l: string, rest: string)
    requires '\n' !in l
    ensures Lines(l + "\n" + rest) == [StripCR(l)] + Lines(rest)
  {
    var s := l + "\n" + rest;
    LineEndOfLine(l, rest);
    assert s[..|l|] == l;
    assert s[|l| + 1..] == rest;
  }

  /** A final line feed adds no empty line: a text that does not already
      end with a line ending has the same lines with one added. */
  lemma {:induction false} LinesFinalNewline(s: string)
    requires s != [] && s[|s| - 1] != '\n' && s[|s| - 1] != '\r'
    ensures Lines(s + "\n") == Lines(s)
    decreases |s|
  {
    var i := LineEnd(s);
    var t := s + "\n";
    if i == |s| {
      assert '\n' !in s;
      LinesCons(s, "");
      assert t == s + "\n" + "";
    } else {
      var rest := s[i + 1..];
      assert s == s[..i] + "\n" + rest;
      assert '\n' !in s[..i];
      assert t == s[..i] + "\n" + (rest + "\n");
      LinesCons(s[..i], rest + "\n");
      assert rest != [] && rest[|rest| - 1] == s[|s| - 1];
      LinesFinalNewline(rest);
    }
  }

  /** A line that `Lines` gives back as it is: no line feed in it, and no
      carriage return at its end. */
  predicate PlainLine(l: string)
  {
    '\n' !in l && !EndsWithCR(l)
  }

  /** The lines of `ls` with a line feed between each two. */
  function Joined(ls: seq<string>): string
  {
    if |ls| <= 1 then (if ls == [] then "" else ls[0]) else ls[0] + "\n" + Joined(ls[1..])
  }

  /** Plain lines joined by line feeds, the last one not empty, are split
      back into those lines. */
  lemma {:induction false} LinesOfJoined(ls: seq<string>)
    requires ls != [] && ls[|ls| - 1] != []
    requires forall k :: 0 <= k < |ls| ==> PlainLine(ls[k])
    ensures Lines(Joined(ls)) == ls
  {
    if |ls| == 1 {
      assert LineEnd(ls[0]) == |ls[0]|;
    } else {
      LinesOfJoined(ls[1..]);
      LinesCons(ls[0], Joined(ls[1..]));
      assert ls == [ls[0]] + ls[1..];
    }
  }
}
