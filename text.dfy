/**
 * The few `java.lang.String` and `java.io.BufferedReader` operations the relay
 * relies on, as functions on `seq<char>`.
 */
module Text {

  /** `pat` occurs in `s` starting at index `k`. */
  ghost predicate OccursAt(s: string, pat: string, k: int)
  {
    0 <= k && k + |pat| <= |s| && s[k..k + |pat|] == pat
  }

  /** `String.contains`: tries every start position from the left. */
  predicate Contains(s: string, pat: string)
    decreases |s|
  {
    pat <= s || (|s| > 0 && Contains(s[1..], pat))
  }

  /** `Contains` finds exactly the occurrences there are. */
  lemma {:induction false} ContainsIff(s: string, pat: string)
    ensures Contains(s, pat) <==> exists k :: OccursAt(s, pat, k)
    decreases |s|
  {
    if pat <= s {
      assert OccursAt(s, pat, 0);
    } else if |s| > 0 {
      ContainsIff(s[1..], pat);
      if Contains(s[1..], pat) {
        var k :| OccursAt(s[1..], pat, k);
        assert s[k + 1..k + 1 + |pat|] == s[1..][k..k + |pat|];
        assert OccursAt(s, pat, k + 1);
      }
      if k :| OccursAt(s, pat, k) {
        assert k != 0;
        assert s[1..][k - 1..k - 1 + |pat|] == s[k..k + |pat|];
        assert OccursAt(s[1..], pat, k - 1);
      }
    }
  }

  /** An occurrence at a known position is found by `Contains`. */
  lemma ContainsAt(s: string, pat: string, k: int)
    requires OccursAt(s, pat, k)
    ensures Contains(s, pat)
  {
    ContainsIff(s, pat);
  }

  /** `String.endsWith`. */
  predicate EndsWith(s: string, suffix: string)
  {
    |suffix| <= |s| && s[|s| - |suffix|..] == suffix
  }

  /** `String.indexOf(char)`: the first index holding `c`, or -1. */
  function IndexOf(s: string, c: char): (r: int)
    ensures -1 <= r < |s|
    ensures r == -1 <==> c !in s
    ensures 0 <= r ==> s[r] == c && c !in s[..r]
    decreases |s|
  {
    if s == [] then -1
    else if s[0] == c then 0
    else
      var k := IndexOf(s[1..], c);
      if k == -1 then -1 else k + 1
  }

  /** The characters on which `BufferedReader.readLine` ends a line. */
  predicate IsLineBreak(ch: char)
  {
    ch == '\n' || ch == '\r'
  }

  /** A string `readLine` can return: it holds no line break. */
  predicate IsLine(s: string)
  {
    forall k :: 0 <= k < |s| ==> !IsLineBreak(s[k])
  }

  /** Joining strings without line breaks gives a string without line breaks. */
  lemma LineConcat(a: string, b: string)
    requires IsLine(a) && IsLine(b)
    ensures IsLine(a + b)
  {
    assert forall k :: 0 <= k < |a + b| ==> (a + b)[k] == if k < |a| then a[k] else b[k - |a|];
  }

  /** The index of the first line break in `w`, or `|w|` when there is none. */
  function LineEnd(w: string): (k: nat)
    ensures k <= |w|
    ensures forall j :: 0 <= j < k ==> !IsLineBreak(w[j])
    ensures k < |w| ==> IsLineBreak(w[k])
    decreases |w|
  {
    if w == [] || IsLineBreak(w[0]) then 0 else LineEnd(w[1..]) + 1
  }

  /**
   * The lines successive `readLine` calls return on the stream `w` before
   * the first `null`: a line ends at `\n`, at `\r` or at `\r\n`, and
   * characters left after the last break form one more line.
   */
  function ReadLines(w: string): (lines: seq<string>)
    ensures forall k :: 0 <= k < |lines| ==> IsLine(lines[k])
    decreases |w|
  {
    if w == [] then []
    else
      var k := LineEnd(w);
      if k == |w| then [w]
      else
        var next := if w[k] == '\r' && k + 1 < |w| && w[k + 1] == '\n' then k + 2 else k + 1;
        [w[..k]] + ReadLines(w[next..])
  }

  /** What writing each line followed by `'\n'` puts on a stream. */
  function Serialize(lines: seq<string>): string
  {
    if lines == [] then "" else lines[0] + "\n" + Serialize(lines[1..])
  }

  /** A line and its terminator come back as that line. */
  lemma ReadLinesFirst(line: string, rest: string)
    requires IsLine(line)
    ensures ReadLines(line + "\n" + rest) == [line] + ReadLines(rest)
  {
    var w := line + "\n" + rest;
    var k := LineEnd(w);
    assert w[|line|] == '\n';
    assert forall j :: 0 <= j < |line| ==> w[j] == line[j];
    assert k == |line|;
    assert w[..k] == line;
    assert w[k + 1..] == rest;
  }

  /** A line ended by `\r\n` comes back as that line; the pair is one terminator. */
  lemma ReadLinesCRLF(line: string, rest: string)
    requires IsLine(line)
    ensures ReadLines(line + "\r\n" + rest) == [line] + ReadLines(rest)
  {
    var w := line + "\r\n" + rest;
    var k := LineEnd(w);
    assert w[|line|] == '\r' && w[|line| + 1] == '\n';
    assert forall j :: 0 <= j < |line| ==> w[j] == line[j];
    assert k == |line|;
    assert w[..k] == line;
    assert w[k + 2..] == rest;
  }

  /** A line ended by a lone `\r` comes back as that line, when no `\n` follows the `\r`. */
  lemma ReadLinesCR(line: string, rest: string)
    requires IsLine(line)
    requires rest == [] || rest[0] != '\n'
    ensures ReadLines(line + "\r" + rest) == [line] + ReadLines(rest)
  {
    var w := line + "\r" + rest;
    var k := LineEnd(w);
    assert w[|line|] == '\r';
    assert forall j :: 0 <= j < |line| ==> w[j] == line[j];
    assert k == |line|;
    assert w[..k] == line;
    assert w[k + 1..] == rest;
  }

  /** Reading back what was written line by line gives the same lines. */
  lemma {:induction false} ReadSerialized(lines: seq<string>)
    requires forall k :: 0 <= k < |lines| ==> IsLine(lines[k])
    ensures ReadLines(Serialize(lines)) == lines
    decreases |lines|
  {
    if lines != [] {
      ReadSerialized(lines[1..]);
      ReadLinesFirst(lines[0], Serialize(lines[1..]));
      assert Serialize(lines) == lines[0] + "\n" + Serialize(lines[1..]);
      assert lines == [lines[0]] + lines[1..];
    }
  }

}
