/** The JavaScript string operations the scanner and the import mapping rely on:
    `trim`, `split(/\r?\n/)`, `split(c)[0]`, `split(c)[1]` and `startsWith`. */
module JsText {
  import opened Common

  /** WhiteSpace and LineTerminator code points of ECMAScript, the ones that
      `String.prototype.trim` and `parseInt` strip. */
  predicate IsWhiteSpace(c: char) {
    var n := c as int;
    n == 0x09 || n == 0x0A || n == 0x0B || n == 0x0C || n == 0x0D || n == 0x20 ||
    n == 0xA0 || n == 0x1680 || (0x2000 <= n <= 0x200A) || n == 0x2028 ||
    n == 0x2029 || n == 0x202F || n == 0x205F || n == 0x3000 || n == 0xFEFF
  }

  /** Removes leading white space: the result is the longest suffix of `s`
      that does not start with white space. */
  function TrimStart(s: string): (r: string)
    ensures |r| <= |s| && r == s[|s| - |r|..]
    ensures forall i :: 0 <= i < |s| - |r| ==> IsWhiteSpace(s[i])
    ensures r == [] || !IsWhiteSpace(r[0])
  {
    if |s| > 0 && IsWhiteSpace(s[0]) then TrimStart(s[1..]) else s
  }

  /** Removes trailing white space: the longest prefix of `s` that does not
      end with white space. */
  function TrimEnd(s: string): (r: string)
    ensures |r| <= |s| && r == s[..|r|]
    ensures forall i :: |r| <= i < |s| ==> IsWhiteSpace(s[i])
    ensures r == [] || !IsWhiteSpace(r[|r| - 1])
  {
    if |s| > 0 && IsWhiteSpace(s[|s| - 1]) then TrimEnd(s[..|s| - 1]) else s
  }

  /** `String.prototype.trim`. */
  function Trim(s: string): string {
    TrimEnd(TrimStart(s))
  }

  /** A trimmed string is the middle of `s` with only white space cut off on
      either side, and it neither starts nor ends with white space. */
  lemma TrimIsStrippedInfix(s: string)
    ensures var i := |s| - |TrimStart(s)|;
            var j := i + |Trim(s)|;
            0 <= i <= j <= |s| && Trim(s) == s[i..j] &&
            (forall k :: 0 <= k < i ==> IsWhiteSpace(s[k])) &&
            (forall k :: j <= k < |s| ==> IsWhiteSpace(s[k]))
    ensures Trim(s) == [] || (!IsWhiteSpace(Trim(s)[0]) && !IsWhiteSpace(Trim(s)[|Trim(s)| - 1]))
  {
    LeadingCut(s);
    TrailingCut(s);
    TrimIsUnpadded(s);
  }

  lemma LeadingCut(s: string)
    ensures var i := |s| - |TrimStart(s)|;
            0 <= i <= |s| && (forall k :: 0 <= k < i ==> IsWhiteSpace(s[k]))
  {
  }

  lemma TrailingCut(s: string)
    ensures var i := |s| - |TrimStart(s)|;
            var j := i + |Trim(s)|;
            0 <= i <= j <= |s| && Trim(s) == s[i..j] &&
            (forall k :: j <= k < |s| ==> IsWhiteSpace(s[k]))
  {
    var t := TrimStart(s);
    var i := |s| - |t|;
    assert t == s[i..];
    TrailingWhiteSpace(s, i, TrimEnd(t));
  }

  /** What `TrimEnd` cuts off the suffix `s[i..]` is white space of `s`. */
  lemma TrailingWhiteSpace(s: string, i: nat, e: string)
    requires i <= |s| && e == TrimEnd(s[i..])
    ensures i + |e| <= |s| && e == s[i..i + |e|]
    ensures forall k :: i + |e| <= k < |s| ==> IsWhiteSpace(s[k])
  {
    var t := s[i..];
    forall k | i + |e| <= k < |s|
      ensures IsWhiteSpace(s[k])
    {
      assert s[k] == t[k - i];
    }
  }

  /** A trimmed string neither starts nor ends with white space. */
  lemma TrimIsUnpadded(s: string)
    ensures Trim(s) == [] || (!IsWhiteSpace(Trim(s)[0]) && !IsWhiteSpace(Trim(s)[|Trim(s)| - 1]))
  {
    var t := TrimStart(s);
    if Trim(s) != [] {
      assert Trim(s)[0] == t[0];
    }
  }

  /** A string that neither starts nor ends with white space is its own trim. */
  lemma TrimOfUnpadded(s: string)
    requires s == [] || (!IsWhiteSpace(s[0]) && !IsWhiteSpace(s[|s| - 1]))
    ensures Trim(s) == s
  {
    assert TrimStart(s) == s;
    assert TrimEnd(s) == s;
  }

  /** Trimming is idempotent. */
  lemma TrimIdempotent(s: string)
    ensures Trim(Trim(s)) == Trim(s)
  {
    TrimIsUnpadded(s);
    TrimOfUnpadded(Trim(s));
  }

  /** A leading space or tab never changes what `trim` returns. */
  lemma TrimIgnoresLeadingBlank(c: char, s: string)
    requires c == ' ' || c == '\t'
    ensures Trim([c] + s) == Trim(s)
  {
    assert ([c] + s)[1..] == s;
  }

  /** Index of the first occurrence of `c` in `s`, or `|s|` when there is none. */
  function FirstIndex(s: string, c: char): (k: nat)
    ensures k <= |s|
    ensures forall i :: 0 <= i < k ==> s[i] != c
    ensures k < |s| ==> s[k] == c
  {
    if |s| == 0 then 0
    else if s[0] == c then 0
    else
      var k := 1 + FirstIndex(s[1..], c);
      assert s[..k] == [s[0]] + s[1..][..k - 1];
      k
  }

  /** `s.split(c)[0]`: the text before the first `c` (all of `s` without one). */
  function FieldBefore(s: string, c: char): (r: string)
    ensures r <= s
    ensures c !in r
    ensures |r| < |s| ==> s[|r|] == c
  {
    s[..FirstIndex(s, c)]
  }

  /** `s.split(c)[1]`: the text between the first and the second `c`, or up to
      the end when there is no second one; `None` (undefined) without any `c`. */
  function FieldAfterFirst(s: string, c: char): (r: Option<string>)
    ensures r.None? <==> c !in s
    ensures r.Some? ==> c !in r.value
  {
    var k := FirstIndex(s, c);
    if k == |s| then None
    else Some(FieldBefore(s[k + 1..], c))
  }

  /** Splitting `a + [c] + b` at `c`, where `a` contains no `c`, gives back `a`. */
  lemma FieldBeforeOfJoin(a: string, c: char, b: string)
    requires c !in a
    ensures FieldBefore(a + [c] + b, c) == a
  {
    var s := a + [c] + b;
    assert s[|a|] == c;
    assert forall i :: 0 <= i < |a| ==> s[i] == a[i];
    assert s[..|a|] == a;
  }

  /** Whatever precedes the first `c` is skipped, and the field ends at the next
      `c` or at the end of the string. */
  lemma FieldAfterFirstOfJoin(prefix: string, c: char, token: string, rest: string)
    requires c !in prefix && c !in token
    requires rest == [] || rest[0] == c
    ensures FieldAfterFirst(prefix + [c] + token + rest, c) == Some(token)
  {
    var s := prefix + [c] + token + rest;
    FieldBeforeOfJoin(prefix, c, token + rest);
    assert s == prefix + [c] + (token + rest);
    var k := FirstIndex(s, c);
    assert k == |prefix|;
    assert s[k + 1..] == token + rest;
    if rest == [] {
      assert token + rest == token;
      assert FirstIndex(token, c) == |token|;
    } else {
      FieldBeforeOfJoin(token, c, rest[1..]);
      assert token + rest == token + [c] + rest[1..];
    }
  }

  /** The line pieces of `split(/\r?\n/)`: cut at each line feed, and drop the
      carriage return just before it. */
  function SplitLines(s: string): (r: seq<string>)
    ensures |r| >= 1
    ensures forall i :: 0 <= i < |r| ==> '\n' !in r[i]
  {
    var k := FirstIndex(s, '\n');
    if k == |s| then [s]
    else
      var piece := s[..k];
      var line := if |piece| > 0 && piece[|piece| - 1] == '\r' then piece[..|piece| - 1] else piece;
      [line] + SplitLines(s[k + 1..])
  }

  /** Number of occurrences of `c` in `s`. */
  function Count(s: string, c: char): nat {
    if s == [] then 0 else (if s[0] == c then 1 else 0) + Count(s[1..], c)
  }

  /** Joins lines with a line feed between each two. */
  function JoinLines(lines: seq<string>): string
    requires |lines| >= 1
  {
    if |lines| == 1 then lines[0] else lines[0] + "\n" + JoinLines(lines[1..])
  }

  lemma CountAppend(a: string, b: string, c: char)
    ensures Count(a + b, c) == Count(a, c) + Count(b, c)
  {
    if a != [] {
      assert (a + b)[0] == a[0];
      assert (a + b)[1..] == a[1..] + b;
      CountAppend(a[1..], b, c);
    } else {
      assert a + b == b;
    }
  }

  lemma CountAbsent(s: string, c: char)
    requires c !in s
    ensures Count(s, c) == 0
  {
    if s != [] {
      CountAbsent(s[1..], c);
    }
  }

  /** Splitting yields one more line than there are line feeds. */
  lemma {:induction false} SplitLinesCount(s: string)
    ensures |SplitLines(s)| == Count(s, '\n') + 1
    decreases |s|
  {
    var k := FirstIndex(s, '\n');
    if k == |s| {
      assert s[..k] == s;
      CountAbsent(s, '\n');
    } else {
      SplitLinesCount(s[k + 1..]);
      assert s == s[..k] + [s[k]] + s[k + 1..];
      CountAppend(s[..k] + [s[k]], s[k + 1..], '\n');
      CountAppend(s[..k], [s[k]], '\n');
      CountAbsent(s[..k], '\n');
    }
  }

  /** On text without carriage returns, joining the lines with line feeds gives
      back the text: nothing is lost but the separators. */
  lemma FirstIndexOfJoin(a: string, c: char, b: string)
    requires c !in a
    ensures FirstIndex(a + [c] + b, c) == |a|
  {
    var s := a + [c] + b;
    assert s[|a|] == c;
    assert forall i :: 0 <= i < |a| ==> s[i] == a[i];
  }

  /** Splitting at a first line feed: the piece before it (without a
      carriage return, as there is none), then the split of the rest. */
  lemma SplitLinesOfPair(a: string, rest: string)
    requires '\n' !in a && '\r' !in a
    ensures SplitLines(a + "\n" + rest) == [a] + SplitLines(rest)
  {
    var s := a + "\n" + rest;
    FirstIndexOfJoin(a, '\n', rest);
    assert s[..|a|] == a;
    assert s[|a| + 1..] == rest;
    if |a| > 0 {
      assert a[|a| - 1] in a;
    }
  }

  /** Splitting lines that were joined with line feeds gives them back, as
      long as none of them holds a line feed or a carriage return. */
  lemma {:induction false} SplitLinesOfJoin(lines: seq<string>)
    requires |lines| >= 1
    requires forall i :: 0 <= i < |lines| ==> '\n' !in lines[i] && '\r' !in lines[i]
    ensures SplitLines(JoinLines(lines)) == lines
    decreases |lines|
  {
    if |lines| == 1 {
      assert FirstIndex(lines[0], '\n') == |lines[0]|;
    } else {
      SplitLinesOfPair(lines[0], JoinLines(lines[1..]));
      assert forall i :: 0 <= i < |lines| - 1 ==> lines[1..][i] == lines[i + 1];
      SplitLinesOfJoin(lines[1..]);
      assert lines == [lines[0]] + lines[1..];
    }
  }

  /** A text with a line feed and no carriage return splits at that line feed. */
  lemma SplitLinesAtFirst(s: string)
    requires '\r' !in s && '\n' in s
    ensures var k := FirstIndex(s, '\n');
            s == s[..k] + "\n" + s[k + 1..] && SplitLines(s) == [s[..k]] + SplitLines(s[k + 1..])
  {
    var k := FirstIndex(s, '\n');
    assert k < |s|;
    var piece := s[..k];
    if |piece| > 0 {
      assert piece[|piece| - 1] == s[k - 1];
    }
    assert s == s[..k] + [s[k]] + s[k + 1..];
  }

  /** Joining the lines of a text without carriage returns gives it back. */
  lemma {:induction false} SplitLinesJoin(s: string)
    requires '\r' !in s
    ensures JoinLines(SplitLines(s)) == s
    decreases |s|
  {
    var k := FirstIndex(s, '\n');
    if k < |s| {
      SplitLinesAtFirst(s);
      SplitLinesJoin(s[k + 1..]);
    }
  }
}
