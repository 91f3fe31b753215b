/** The pieces of Go's `strings` package that the chunker and the utilities rely on:
    `unicode.IsSpace` (restricted to single-byte characters), `strings.TrimSpace`
    and `strings.Fields`. A Go string is modelled as a sequence of characters,
    one character per byte. */
module GoStrings {

  /** White space as `unicode.IsSpace` classifies a single-byte character:
      tab, line feed, vertical tab, form feed, carriage return and space. */
  predicate IsSpace(c: char) {
    c == ' ' || c == '\t' || c == '\n' || c == '\r' || c == '\U{0B}' || c == '\U{0C}'
  }

  predicate AllSpace(s: string) {
    forall k :: 0 <= k < |s| ==> IsSpace(s[k])
  }

  predicate NoSpace(s: string) {
    forall k :: 0 <= k < |s| ==> !IsSpace(s[k])
  }

  /** Length of the run of white space that starts `s`. */
  function LeadingSpaces(s: string): (n: nat)
    ensures n <= |s|
    ensures forall k :: 0 <= k < n ==> IsSpace(s[k])
    ensures n < |s| ==> !IsSpace(s[n])
  {
    if s == [] || !IsSpace(s[0]) then 0
    else 1 + LeadingSpaces(s[1..])
  }

  /** Length of the run of white space that ends `s`. */
  function TrailingSpaces(s: string): (n: nat)
    ensures n <= |s|
    ensures forall k :: |s| - n <= k < |s| ==> IsSpace(s[k])
    ensures n < |s| ==> !IsSpace(s[|s| - n - 1])
  {
    if s == [] || !IsSpace(s[|s| - 1]) then 0
    else 1 + TrailingSpaces(s[..|s| - 1])
  }

  /** `strings.TrimSpace`: drop leading and trailing white space. */
  function TrimSpace(s: string): (r: string)
    ensures |r| <= |s|
    ensures r != [] ==> !IsSpace(r[0]) && !IsSpace(r[|r| - 1])
    ensures r == [] <==> AllSpace(s)
  {
    var a := LeadingSpaces(s);
    var t := s[a..];
    var b := TrailingSpaces(t);
    assert a < |s| ==> t[0] == s[a] && b < |t|;
    t[..|t| - b]
  }

  /** `TrimSpace(s)` is `s` with a prefix and a suffix of white space cut off. */
  lemma TrimSpaceSplit(s: string) returns (a: nat)
    ensures a + |TrimSpace(s)| <= |s|
    ensures s[a..a + |TrimSpace(s)|] == TrimSpace(s)
    ensures AllSpace(s[..a]) && AllSpace(s[a + |TrimSpace(s)|..])
  {
    a := LeadingSpaces(s);
    var t := s[a..];
    var b := TrailingSpaces(t);
    assert TrimSpace(s) == t[..|t| - b];
    assert s[a + |TrimSpace(s)|..] == t[|t| - b..];
  }

  /** Trimming a non-empty string that ends in white space makes it strictly shorter. */
  lemma TrimSpaceDropsTrailingSpace(s: string)
    requires s != [] && IsSpace(s[|s| - 1])
    ensures |TrimSpace(s)| < |s|
  {
    var a := TrimSpaceSplit(s);
    var r := TrimSpace(s);
  }

  /** Trimming is idempotent. */
  lemma TrimSpaceIdempotent(s: string)
    ensures TrimSpace(TrimSpace(s)) == TrimSpace(s)
  {
    var r := TrimSpace(s);
    if r != [] {
      assert LeadingSpaces(r) == 0;
      assert TrailingSpaces(r) == 0;
    }
  }

  /** Length of the run of non-space characters that starts `s`. */
  function WordLength(s: string): (n: nat)
    ensures n <= |s|
    ensures NoSpace(s[..n])
    ensures n < |s| ==> IsSpace(s[n])
  {
    if s == [] || IsSpace(s[0]) then 0
    else
      var m := WordLength(s[1..]);
      assert s[..m + 1] == [s[0]] + s[1..][..m];
      1 + m
  }

  /** `strings.Fields`: the maximal runs of non-space characters, in order. */
  function Fields(s: string): (ws: seq<string>)
    ensures forall i :: 0 <= i < |ws| ==> ws[i] != [] && NoSpace(ws[i])
    decreases |s|
  {
    if s == [] then []
    else if IsSpace(s[0]) then Fields(s[1..])
    else
      var n := WordLength(s);
      [s[..n]] + Fields(s[n..])
  }

  /** An independent count of words: the positions holding a non-space character
      whose predecessor is white space or the start of the text. */
  function WordStarts(s: string, afterSpace: bool): nat
  {
    if s == [] then 0
    else (if afterSpace && !IsSpace(s[0]) then 1 else 0) + WordStarts(s[1..], IsSpace(s[0]))
  }

  lemma {:induction false} WordStartsSkipWord(t: string, m: nat)
    requires m <= |t| && NoSpace(t[..m])
    requires m < |t| ==> IsSpace(t[m])
    requires m > 0
    ensures WordStarts(t[1..], false) == WordStarts(t[m..], true)
  {
    if m == 1 {
      if |t| > 1 {
        assert WordStarts(t[1..], false) == WordStarts(t[1..][1..], true);
        assert WordStarts(t[1..], true) == WordStarts(t[1..][1..], true);
      }
    } else {
      assert t[1..][..m - 1] == t[..m][1..];
      WordStartsSkipWord(t[1..], m - 1);
      assert !IsSpace(t[1]) by { assert t[..m][1] == t[1]; }
      assert t[1..][1..] == t[2..];
      assert t[1..][m - 1..] == t[m..];
    }
  }

  /** The number of fields is the number of word starts. */
  lemma {:induction false} FieldsCount(s: string)
    ensures |Fields(s)| == WordStarts(s, true)
    decreases |s|
  {
    if s == [] {
    } else if IsSpace(s[0]) {
      FieldsCount(s[1..]);
    } else {
      var n := WordLength(s);
      FieldsCount(s[n..]);
      WordStartsSkipWord(s, n);
    }
  }

  /** Number of non-space characters. */
  function NonSpaceCount(s: string): nat
  {
    if s == [] then 0 else (if IsSpace(s[0]) then 0 else 1) + NonSpaceCount(s[1..])
  }

  /** Total length of a sequence of strings. */
  function TotalLength(ws: seq<string>): nat
  {
    if ws == [] then 0 else |ws[0]| + TotalLength(ws[1..])
  }

  lemma {:induction false} NonSpaceCountAppend(a: string, b: string)
    ensures NonSpaceCount(a + b) == NonSpaceCount(a) + NonSpaceCount(b)
  {
    if a != [] {
      assert (a + b)[0] == a[0];
      assert (a + b)[1..] == a[1..] + b;
      NonSpaceCountAppend(a[1..], b);
      assert NonSpaceCount(a + b) == (if IsSpace(a[0]) then 0 else 1) + NonSpaceCount(a[1..] + b);
    } else {
      assert a + b == b;
    }
  }

  lemma {:induction false} NonSpaceCountOfWord(w: string)
    requires NoSpace(w)
    ensures NonSpaceCount(w) == |w|
  {
    if w != [] {
      assert !IsSpace(w[0]);
      NonSpaceCountOfWord(w[1..]);
    }
  }

  /** The fields hold exactly the non-space characters of the text. */
  lemma {:induction false} FieldsTotalLength(s: string)
    ensures TotalLength(Fields(s)) == NonSpaceCount(s)
    decreases |s|
  {
    if s == [] {
    } else if IsSpace(s[0]) {
      FieldsTotalLength(s[1..]);
    } else {
      var n := WordLength(s);
      FieldsTotalLength(s[n..]);
      assert s == s[..n] + s[n..];
      NonSpaceCountAppend(s[..n], s[n..]);
      NonSpaceCountOfWord(s[..n]);
      assert ([s[..n]] + Fields(s[n..]))[1..] == Fields(s[n..]);
    }
  }
}
