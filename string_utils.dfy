/** The string helpers of shared/utils/utils.go: truncation with an ellipsis,
    slugs, membership, HTML tag removal and domain extraction. The regular
    expressions of the source are written out as the recursive functions that
    Go's leftmost-first matcher computes for them. */
module StringUtils {
  import opened Wrappers

  // ---------------------------------------------------------------------------
  // TruncateText

  /** Cut `text` to `maxLength` characters, the last three of which become "...".
      Go slices `text[:maxLength-3]`, which panics unless `maxLength >= 3` once
      the text is too long; that is the precondition. */
  function TruncateText(text: string, maxLength: int): (r: string)
    requires |text| <= maxLength || maxLength >= 3
    ensures |text| <= maxLength ==> r == text
    ensures |text| > maxLength ==>
      |r| == maxLength && r[..maxLength - 3] == text[..maxLength - 3] && r[maxLength - 3..] == "..."
    ensures |r| <= |text|
  {
    if |text| <= maxLength then text else text[..maxLength - 3] + "..."
  }

  /** Truncating twice to the same length is truncating once. */
  lemma TruncateTextIdempotent(text: string, maxLength: int)
    requires |text| <= maxLength || maxLength >= 3
    ensures |TruncateText(text, maxLength)| <= maxLength
    ensures TruncateText(TruncateText(text, maxLength), maxLength) == TruncateText(text, maxLength)
  {
  }

  // ---------------------------------------------------------------------------
  // Slugify: lower-case, spaces to '-', drop everything but [a-z0-9-],
  // collapse runs of '-', trim '-' at both ends.

  predicate IsLowerAlnum(c: char) {
    'a' <= c <= 'z' || '0' <= c <= '9'
  }

  predicate IsSlugChar(c: char) {
    IsLowerAlnum(c) || c == '-'
  }

  predicate AllSlugChars(s: string) {
    forall i :: 0 <= i < |s| ==> IsSlugChar(s[i])
  }

  predicate NoDoubleHyphen(s: string) {
    forall i :: 0 <= i < |s| - 1 ==> !(s[i] == '-' && s[i + 1] == '-')
  }

  /** A well-formed slug: the three shape guarantees `Slugify` gives. */
  predicate IsSlug(s: string) {
    AllSlugChars(s) && NoDoubleHyphen(s) && (s != [] ==> s[0] != '-' && s[|s| - 1] != '-')
  }

  function LowerChar(c: char): char {
    if 'A' <= c <= 'Z' then (c as int - 'A' as int + 'a' as int) as char else c
  }

  /** `strings.ToLower`, for ASCII letters. */
  function ToLowerAscii(s: string): (r: string)
    ensures |r| == |s| && forall i :: 0 <= i < |s| ==> r[i] == LowerChar(s[i])
  {
    seq(|s|, i requires 0 <= i < |s| => LowerChar(s[i]))
  }

  /** `strings.ReplaceAll(text, " ", "-")`. */
  function ReplaceSpaces(s: string): (r: string)
    ensures |r| == |s| && forall i :: 0 <= i < |s| ==> r[i] == (if s[i] == ' ' then '-' else s[i])
  {
    seq(|s|, i requires 0 <= i < |s| => if s[i] == ' ' then '-' else s[i])
  }

  /** Replacing `[^a-z0-9\-]` by the empty string. */
  function KeepSlugChars(s: string): (r: string)
    ensures AllSlugChars(r)
  {
    if s == [] then []
    else (if IsSlugChar(s[0]) then [s[0]] else []) + KeepSlugChars(s[1..])
  }

  /** Replacing every maximal run `-+` by a single '-'. */
  function CollapseHyphens(s: string): (r: string)
    ensures NoDoubleHyphen(r)
    ensures s != [] ==> r != [] && r[0] == s[0]
    ensures forall c :: c in r ==> c in s
  {
    if |s| <= 1 then s
    else if s[0] == '-' && s[1] == '-' then CollapseHyphens(s[1..])
    else
      var rest := CollapseHyphens(s[1..]);
      assert forall c :: c in rest ==> c in s by {
        forall c | c in rest ensures c in s { assert c in s[1..]; }
      }
      [s[0]] + rest
  }

  function TrimLeftHyphens(s: string): (r: string)
    ensures |r| <= |s| && r == s[|s| - |r|..]
    ensures r != [] ==> r[0] != '-'
  {
    if s != [] && s[0] == '-' then TrimLeftHyphens(s[1..]) else s
  }

  function TrimRightHyphens(s: string): (r: string)
    ensures |r| <= |s| && r == s[..|r|]
    ensures r != [] ==> r[|r| - 1] != '-'
  {
    if s != [] && s[|s| - 1] == '-' then TrimRightHyphens(s[..|s| - 1]) else s
  }

  /** `strings.Trim(text, "-")`. */
  function TrimHyphens(s: string): string {
    TrimRightHyphens(TrimLeftHyphens(s))
  }

  lemma SuffixKeepsShape(s: string, a: nat)
    requires a <= |s|
    requires AllSlugChars(s) && NoDoubleHyphen(s)
    ensures AllSlugChars(s[a..]) && NoDoubleHyphen(s[a..])
  {
    assert forall i :: 0 <= i < |s| - a ==> s[a..][i] == s[a + i];
  }

  lemma PrefixKeepsShape(s: string, b: nat)
    requires b <= |s|
    requires AllSlugChars(s) && NoDoubleHyphen(s)
    ensures AllSlugChars(s[..b]) && NoDoubleHyphen(s[..b])
  {
    assert forall i :: 0 <= i < b ==> s[..b][i] == s[i];
  }

  lemma TrimHyphensShape(s: string)
    requires AllSlugChars(s) && NoDoubleHyphen(s)
    ensures IsSlug(TrimHyphens(s))
  {
    var t := TrimLeftHyphens(s);
    SuffixKeepsShape(s, |s| - |t|);
    var r := TrimRightHyphens(t);
    PrefixKeepsShape(t, |r|);
    if r != [] {
      assert r[0] == t[0];
    }
  }

  function Slugify(text: string): (r: string)
    ensures IsSlug(r)
  {
    var kept := KeepSlugChars(ReplaceSpaces(ToLowerAscii(text)));
    var collapsed := CollapseHyphens(kept);
    assert AllSlugChars(collapsed) by {
      forall i | 0 <= i < |collapsed| ensures IsSlugChar(collapsed[i]) {
        assert collapsed[i] in kept;
      }
    }
    TrimHyphensShape(collapsed);
    TrimHyphens(collapsed)
  }

  /** Each stage of the pipeline leaves a well-formed slug as it is. */
  lemma {:induction false} KeepSlugCharsFixes(s: string)
    requires AllSlugChars(s)
    ensures KeepSlugChars(s) == s
  {
    if s != [] {
      KeepSlugCharsFixes(s[1..]);
    }
  }

  lemma {:induction false} CollapseHyphensFixes(s: string)
    requires NoDoubleHyphen(s)
    ensures CollapseHyphens(s) == s
  {
    if |s| > 1 {
      CollapseHyphensFixes(s[1..]);
    }
  }

  lemma SlugifyFixesSlugs(s: string)
    requires IsSlug(s)
    ensures Slugify(s) == s
  {
    assert ToLowerAscii(s) == s;
    assert ReplaceSpaces(s) == s;
    KeepSlugCharsFixes(s);
    CollapseHyphensFixes(s);
    assert TrimLeftHyphens(s) == s;
    assert TrimRightHyphens(s) == s;
  }

  /** `Slugify` is idempotent. */
  lemma SlugifyIdempotent(text: string)
    ensures Slugify(Slugify(text)) == Slugify(text)
  {
    SlugifyFixesSlugs(Slugify(text));
  }

  /** The letters and digits of a string, in order. */
  function Alnums(s: string): string {
    if s == [] then [] else (if IsLowerAlnum(s[0]) then [s[0]] else []) + Alnums(s[1..])
  }

  lemma {:induction false} AlnumsAppend(a: string, b: string)
    ensures Alnums(a + b) == Alnums(a) + Alnums(b)
  {
    if a == [] {
      assert a + b == b;
    } else {
      assert (a + b)[0] == a[0] && (a + b)[1..] == a[1..] + b;
      var h := if IsLowerAlnum(a[0]) then [a[0]] else [];
      assert Alnums(a + b) == h + Alnums(a[1..] + b);
      AlnumsAppend(a[1..], b);
      assert h + (Alnums(a[1..]) + Alnums(b)) == (h + Alnums(a[1..])) + Alnums(b);
    }
  }

  lemma {:induction false} KeepSlugCharsAlnums(s: string)
    ensures Alnums(KeepSlugChars(s)) == Alnums(s)
  {
    if s != [] {
      KeepSlugCharsAlnums(s[1..]);
      AlnumsAppend(if IsSlugChar(s[0]) then [s[0]] else [], KeepSlugChars(s[1..]));
    }
  }

  lemma {:induction false} CollapseHyphensAlnums(s: string)
    ensures Alnums(CollapseHyphens(s)) == Alnums(s)
  {
    if |s| > 1 {
      CollapseHyphensAlnums(s[1..]);
      if !(s[0] == '-' && s[1] == '-') {
        AlnumsAppend([s[0]], CollapseHyphens(s[1..]));
      }
    }
  }

  lemma {:induction false} TrimLeftHyphensAlnums(s: string)
    ensures Alnums(TrimLeftHyphens(s)) == Alnums(s)
  {
    if s != [] && s[0] == '-' {
      TrimLeftHyphensAlnums(s[1..]);
    }
  }

  lemma {:induction false} TrimRightHyphensAlnums(s: string)
    ensures Alnums(TrimRightHyphens(s)) == Alnums(s)
  {
    if s != [] && s[|s| - 1] == '-' {
      TrimRightHyphensAlnums(s[..|s| - 1]);
      assert s == s[..|s| - 1] + [s[|s| - 1]];
      AlnumsAppend(s[..|s| - 1], [s[|s| - 1]]);
    }
  }

  lemma {:induction false} ReplaceSpacesAlnums(s: string)
    ensures Alnums(ReplaceSpaces(s)) == Alnums(s)
  {
    if s != [] {
      assert ReplaceSpaces(s)[1..] == ReplaceSpaces(s[1..]);
      ReplaceSpacesAlnums(s[1..]);
    }
  }

  /** Nothing but hyphens and dropped punctuation is lost: every letter and digit
      of the lower-cased text survives, in order. */
  lemma SlugifyKeepsAlnums(text: string)
    ensures Alnums(Slugify(text)) == Alnums(ToLowerAscii(text))
  {
    var lowered := ToLowerAscii(text);
    var replaced := ReplaceSpaces(lowered);
    var kept := KeepSlugChars(replaced);
    var collapsed := CollapseHyphens(kept);
    ReplaceSpacesAlnums(lowered);
    KeepSlugCharsAlnums(replaced);
    CollapseHyphensAlnums(kept);
    TrimLeftHyphensAlnums(collapsed);
    TrimRightHyphensAlnums(TrimLeftHyphens(collapsed));
  }

  // ---------------------------------------------------------------------------
  // ContainsAny

  /** Whether some entry of `slice` equals some entry of `elements`: the nested
      loops of the source, returning as soon as a match is seen. */
  method ContainsAny(slice: seq<string>, elements: seq<string>) returns (found: bool)
    ensures found <==> exists i, j :: 0 <= i < |slice| && 0 <= j < |elements| && slice[i] == elements[j]
    ensures slice == [] || elements == [] ==> !found
  {
    for i := 0 to |slice|
      invariant forall i', j :: 0 <= i' < i && 0 <= j < |elements| ==> slice[i'] != elements[j]
    {
      for j := 0 to |elements|
        invariant forall j' :: 0 <= j' < j ==> slice[i] != elements[j']
      {
        if slice[i] == elements[j] {
          return true;
        }
      }
    }
    return false;
  }

  // ---------------------------------------------------------------------------
  // RemoveHTMLTags: replacing every match of `<[^>]*>` by the empty string.

  /** `a` can be obtained from `b` by deleting characters. */
  predicate IsSubsequence(a: string, b: string)
    decreases |b|
  {
    if a == [] then true
    else if b == [] then false
    else (a[0] == b[0] && IsSubsequence(a[1..], b[1..])) || IsSubsequence(a, b[1..])
  }

  lemma {:induction false} SubsequenceOfSuffix(a: string, b: string, k: nat)
    requires k <= |b| && IsSubsequence(a, b[k..])
    ensures IsSubsequence(a, b)
  {
    if k > 0 {
      assert b[k - 1..][1..] == b[k..];
      SubsequenceOfSuffix(a, b, k - 1);
    }
  }

  /** Position of the first occurrence of `c`. */
  function FirstIndex(s: string, c: char): (k: nat)
    requires c in s
    ensures k < |s| && s[k] == c && c !in s[..k]
  {
    if s[0] == c then 0
    else
      var k := FirstIndex(s[1..], c);
      assert s[..k + 1] == [s[0]] + s[1..][..k];
      k + 1
  }

  /** A '<' that has a '>' somewhere after it opens a tag that runs to the first
      such '>'; the matcher removes it and resumes after it. A '<' with no '>'
      after it is kept, like every other character. */
  function RemoveHTMLTags(html: string): (r: string)
    ensures IsSubsequence(r, html)
    ensures forall c :: c in r ==> c in html
    ensures '<' !in html ==> r == html
    decreases |html|
  {
    if html == [] then []
    else if html[0] == '<' && '>' in html then
      var k := FirstIndex(html, '>');
      var r := RemoveHTMLTags(html[k + 1..]);
      SubsequenceOfSuffix(r, html, k + 1);
      r
    else
      var rest := RemoveHTMLTags(html[1..]);
      assert ([html[0]] + rest)[1..] == rest;
      assert forall c :: c in [html[0]] + rest ==> c in html by {
        forall c | c in [html[0]] + rest ensures c in html {
          if c != html[0] { assert c in rest; assert c in html[1..]; }
        }
      }
      assert '<' !in html ==> html == [html[0]] + html[1..];
      [html[0]] + rest
  }

  /** No '<' is followed, anywhere later, by a '>'. */
  predicate NoCompleteTag(s: string) {
    forall i, j :: 0 <= i < j < |s| && s[i] == '<' ==> s[j] != '>'
  }

  lemma {:induction false} RemoveHTMLTagsLeavesNoTag(html: string)
    ensures NoCompleteTag(RemoveHTMLTags(html))
    decreases |html|
  {
    if html == [] {
    } else if html[0] == '<' && '>' in html {
      RemoveHTMLTagsLeavesNoTag(html[FirstIndex(html, '>') + 1..]);
    } else {
      var rest := RemoveHTMLTags(html[1..]);
      RemoveHTMLTagsLeavesNoTag(html[1..]);
      var r := [html[0]] + rest;
      forall i, j | 0 <= i < j < |r| && r[i] == '<' ensures r[j] != '>' {
        if i == 0 {
          assert '>' !in html;
          assert '>' !in html[1..] by {
            assert forall x :: x in html[1..] ==> x in html;
          }
          assert r[j] in rest;
        } else {
          assert rest[i - 1] == '<' && r[j] == rest[j - 1];
        }
      }
    }
  }

  /** Removing tags a second time changes nothing. */
  lemma {:induction false} RemoveHTMLTagsIdempotent(html: string)
    ensures RemoveHTMLTags(RemoveHTMLTags(html)) == RemoveHTMLTags(html)
  {
    RemoveHTMLTagsLeavesNoTag(html);
    TagFreeUnchanged(RemoveHTMLTags(html));
  }

  lemma {:induction false} TagFreeUnchanged(s: string)
    requires NoCompleteTag(s)
    ensures RemoveHTMLTags(s) == s
    decreases |s|
  {
    if s != [] {
      if s[0] == '<' {
        assert '>' !in s by {
          forall j | 0 <= j < |s| ensures s[j] != '>' {
            if j > 0 { assert s[0] == '<'; }
          }
        }
      }
      assert NoCompleteTag(s[1..]) by {
        forall i, j | 0 <= i < j < |s[1..]| && s[1..][i] == '<' ensures s[1..][j] != '>' {
          assert s[i + 1] == '<';
        }
      }
      TagFreeUnchanged(s[1..]);
      assert s == [s[0]] + s[1..];
    }
  }

  // ---------------------------------------------------------------------------
  // ExtractDomain: the first submatch of
  //   ^(?:https?://)?(?:[^@\n]+@)?(?:www\.)?([^:/\n]+)
  // Go's matcher picks, among the ways to match, the one a backtracking search
  // finds first: each optional group is tried present before absent, and the
  // last group takes the longest run it can.

  predicate IsHostChar(c: char) {
    c != ':' && c != '/' && c != '\n'
  }

  /** End of the maximal run of host characters that starts at `p`. */
  function HostEnd(s: string, p: nat): (q: nat)
    requires p <= |s|
    ensures p <= q <= |s|
    ensures forall k :: p <= k < q ==> IsHostChar(s[k])
    ensures q < |s| ==> !IsHostChar(s[q])
    decreases |s| - p
  {
    if p == |s| || !IsHostChar(s[p]) then p else HostEnd(s, p + 1)
  }

  /** First position at or after `p` holding '@' or a line feed, or `|s|`. */
  function UserInfoStop(s: string, p: nat): (q: nat)
    requires p <= |s|
    ensures p <= q <= |s|
    ensures q < |s| ==> s[q] == '@' || s[q] == '\n'
    decreases |s| - p
  {
    if p == |s| || s[p] == '@' || s[p] == '\n' then p else UserInfoStop(s, p + 1)
  }

  /** `(?:www\.)?([^:/\n]+)` at `p`: the span of the captured host, if any. */
  function HostSpan(s: string, p: nat): (span: Option<(nat, nat)>)
    requires p <= |s|
    ensures span.Some? ==> p <= span.value.0 < span.value.1 <= |s|
    ensures span.Some? ==> span.value.1 == HostEnd(s, span.value.0)
    ensures span.None? <==> p == |s| || !IsHostChar(s[p])
  {
    if p + 4 < |s| && s[p..p + 4] == "www." && IsHostChar(s[p + 4]) then Some((p + 4, HostEnd(s, p + 4)))
    else if p < |s| && IsHostChar(s[p]) then Some((p, HostEnd(s, p)))
    else None
  }

  /** `(?:[^@\n]+@)?` at `p`, followed by the host: the user-info group is taken
      when it matches and the host after it matches too. */
  function AfterSchemeSpan(s: string, p: nat): (span: Option<(nat, nat)>)
    requires p <= |s|
    ensures span.Some? ==> p <= span.value.0 < span.value.1 <= |s|
    ensures span.Some? ==> span.value.1 == HostEnd(s, span.value.0)
    ensures p < |s| && IsHostChar(s[p]) ==> span.Some?
  {
    var q := UserInfoStop(s, p);
    if q > p && q < |s| && s[q] == '@' && HostSpan(s, q + 1).Some? then HostSpan(s, q + 1)
    else HostSpan(s, p)
  }

  /** Where the optional `https?://` ends, when it is present. */
  function SchemeEnd(s: string): (e: Option<nat>)
    ensures e.Some? ==> e.value <= |s|
  {
    if |s| >= 8 && s[..8] == "https://" then Some(8)
    else if |s| >= 7 && s[..7] == "http://" then Some(7)
    else None
  }

  function DomainSpan(url: string): (span: Option<(nat, nat)>)
    ensures span.Some? ==> span.value.0 < span.value.1 <= |url|
    ensures span.Some? ==> span.value.1 == HostEnd(url, span.value.0)
    ensures url != [] && IsHostChar(url[0]) ==> span.Some?
  {
    var e := SchemeEnd(url);
    if e.Some? && AfterSchemeSpan(url, e.value).Some? then AfterSchemeSpan(url, e.value)
    else AfterSchemeSpan(url, 0)
  }

  function ExtractDomain(url: string): (r: string)
    ensures forall k :: 0 <= k < |r| ==> r[k] != ':' && r[k] != '/' && r[k] != '\n'
    ensures url == [] ==> r == []
    ensures url != [] && IsHostChar(url[0]) ==> r != []
  {
    match DomainSpan(url)
    case Some((a, b)) =>
      assert forall k :: 0 <= k < b - a ==> url[a..b][k] == url[a + k];
      url[a..b]
    case None => []
  }

  /** The domain is a maximal run of host characters cut out of the URL. */
  lemma ExtractDomainIsMaximalRun(url: string) returns (a: nat)
    ensures a + |ExtractDomain(url)| <= |url|
    ensures url[a..a + |ExtractDomain(url)|] == ExtractDomain(url)
    ensures ExtractDomain(url) != [] && a + |ExtractDomain(url)| < |url| ==>
      !IsHostChar(url[a + |ExtractDomain(url)|])
  {
    match DomainSpan(url)
    case Some((a', b)) => a := a';
    case None => a := 0;
  }

  /** A URL with a scheme, a `www.` prefix and a path: the domain is the host
      without the prefix. */
  const ExampleUrl: string := "https://www.ab.io/x"

  lemma ExampleUrlHasNoUserInfo()
    ensures UserInfoStop(ExampleUrl, 8) == 19
  {
    var s := ExampleUrl;
    assert |s| == 19;
    assert UserInfoStop(s, 19) == 19;
    assert UserInfoStop(s, 18) == 19;
    assert UserInfoStop(s, 17) == 19;
    assert UserInfoStop(s, 16) == 19;
    assert UserInfoStop(s, 15) == 19;
    assert UserInfoStop(s, 14) == 19;
    assert UserInfoStop(s, 13) == 19;
    assert UserInfoStop(s, 12) == 19;
    assert UserInfoStop(s, 11) == 19;
    assert UserInfoStop(s, 10) == 19;
    assert UserInfoStop(s, 9) == 19;
  }

  lemma ExampleUrlHostEnd()
    ensures HostEnd(ExampleUrl, 12) == 17
  {
    var s := ExampleUrl;
    assert HostEnd(s, 17) == 17;
    assert HostEnd(s, 16) == 17;
    assert HostEnd(s, 15) == 17;
    assert HostEnd(s, 14) == 17;
    assert HostEnd(s, 13) == 17;
  }

  lemma ExtractDomainExample()
    ensures ExtractDomain(ExampleUrl) == "ab.io"
  {
    var s := ExampleUrl;
    assert s[..8] == "https://";
    assert SchemeEnd(s) == Some(8);
    ExampleUrlHasNoUserInfo();
    ExampleUrlHostEnd();
    assert s[8..12] == "www.";
    assert HostSpan(s, 8) == Some((12, 17));
    assert AfterSchemeSpan(s, 8) == Some((12, 17));
    assert s[12..17] == "ab.io";
  }

  /** A run of host characters ending at the end of the URL or at a non-host
      character is exactly what `HostEnd` measures. */
  lemma {:induction false} HostEndOfRun(s: string, a: nat, b: nat)
    requires a <= b <= |s|
    requires forall k :: a <= k < b ==> IsHostChar(s[k])
    requires b == |s| || !IsHostChar(s[b])
    ensures HostEnd(s, a) == b
    decreases b - a
  {
    if a < b {
      HostEndOfRun(s, a + 1, b);
    }
  }

  predicate StartsWithScheme(url: string) {
    (|url| >= 7 && url[..7] == "http://") || (|url| >= 8 && url[..8] == "https://")
  }

  /** The optional scheme group is taken exactly when the URL starts with one. */
  lemma SchemeEndOf(scheme: string, tail: string)
    requires scheme == "" || scheme == "http://" || scheme == "https://"
    requires scheme == "" ==> !StartsWithScheme(tail)
    ensures SchemeEnd(scheme + tail) == if scheme == "" then None else Some(|scheme|)
  {
    var url := scheme + tail;
    if scheme == "https://" {
      assert url[..8] == scheme;
    } else if scheme == "http://" {
      assert url[..7] == scheme;
      assert url[4] == ':';
    } else {
      assert url == tail;
    }
  }

  /** Where the parts of a URL sit in it. */
  lemma UrlParts(scheme: string, www: string, host: string, rest: string)
    ensures scheme + www + host + rest == scheme + (www + host + rest)
    ensures (scheme + www + host + rest)[|scheme|..] == www + host + rest
    ensures (scheme + www + host + rest)[|scheme| + |www|..|scheme| + |www| + |host|] == host
  {
    var url := scheme + www + host + rest;
    assert url[|scheme| + |www|..|scheme| + |www| + |host|] == (www + host + rest)[|www|..|www| + |host|];
  }

  /** Without an '@' the user-info group never matches. */
  lemma NoUserInfo(s: string, p: nat)
    requires p <= |s| && '@' !in s
    ensures AfterSchemeSpan(s, p) == HostSpan(s, p)
  {
    var q := UserInfoStop(s, p);
    assert q < |s| ==> s[q] in s;
  }

  /** `www.` or nothing, then a non-empty host, then nothing or a character
      that ends the host. When `www.` is left out, the host must not itself
      begin with `www.`, since the pattern would strip it. */
  predicate PlainHost(www: string, host: string, rest: string) {
    (www == "" || www == "www.")
    && (www == "" ==> !(|host| > 4 && host[..4] == "www."))
    && host != [] && (forall k :: 0 <= k < |host| ==> IsHostChar(host[k]))
    && (rest == [] || !IsHostChar(rest[0]))
  }

  /** After `www.`, or with no `www.` to strip, the captured span is the host. */
  lemma HostSpanAt(s: string, p: nat, www: string, host: string, rest: string)
    requires p <= |s| && s[p..] == www + host + rest
    requires PlainHost(www, host, rest)
    ensures HostSpan(s, p) == Some((p + |www|, p + |www| + |host|))
  {
    var a, b := p + |www|, p + |www| + |host|;
    forall k | a <= k < b ensures IsHostChar(s[k]) {
      assert s[k] == s[p..][k - p] == host[k - a];
    }
    assert b < |s| ==> s[b] == s[p..][b - p] == rest[0];
    HostEndOfRun(s, a, b);
    if www == "www." {
      assert s[p..p + 4] == s[p..][..4] == "www.";
      assert s[p + 4] == s[p..][4] == host[0];
    } else if |host| >= 4 {
      assert s[p..p + 4] == s[p..][..4] == host[..4];
    } else if p + 4 <= |s| {
      assert s[p..p + 4][|host|] == s[b];
    }
  }

  /** For a URL without user info, made of an optional scheme, an optional
      `www.` and a host followed by a port, a path or nothing, the domain is
      the host. */
  lemma ExtractDomainOfHost(scheme: string, www: string, host: string, rest: string)
    requires scheme == "" || scheme == "http://" || scheme == "https://"
    requires scheme == "" ==> !StartsWithScheme(www + host + rest)
    requires PlainHost(www, host, rest)
    requires '@' !in scheme + www + host + rest
    ensures ExtractDomain(scheme + www + host + rest) == host
  {
    var url := scheme + www + host + rest;
    UrlParts(scheme, www, host, rest);
    SchemeEndOf(scheme, www + host + rest);
    ExtractDomainAt(url, |scheme|, www, host, rest);
  }

  /** The same, for the part of a URL that follows its scheme. */
  lemma ExtractDomainAt(url: string, p: nat, www: string, host: string, rest: string)
    requires p <= |url| && url[p..] == www + host + rest
    requires SchemeEnd(url) == (if p == 0 then None else Some(p))
    requires PlainHost(www, host, rest)
    requires '@' !in url
    ensures ExtractDomain(url) == url[p + |www|..p + |www| + |host|]
  {
    NoUserInfo(url, p);
    HostSpanAt(url, p, www, host, rest);
    ExtractDomainOfSpan(url, p, p + |www|, p + |www| + |host|);
  }

  /** The domain is the host span found after the scheme, when the scheme
      group matches, or from the start otherwise. */
  lemma ExtractDomainOfSpan(url: string, p: nat, a: nat, b: nat)
    requires p <= |url| && SchemeEnd(url) == (if p == 0 then None else Some(p))
    requires AfterSchemeSpan(url, p) == Some((a, b))
    ensures a <= b <= |url| && ExtractDomain(url) == url[a..b]
  {
    assert DomainSpan(url) == Some((a, b));
  }
}
