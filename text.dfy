/**
 * The string predicates the validators use, written out instead of a regular
 * expression engine: `/^\w+$/i`, `String.prototype.trim`, `String.prototype.length`
 * (UTF-16 code units), `split(',')` and the reference-link URL pattern.
 */
module Text {

  import opened Common

  // ---------------------------------------------------------------------------
  // /^\w+$/i : a non-empty run of [A-Za-z0-9_]. The `i` flag changes nothing for `\w`.

  predicate IsWordChar(c: char) {
    'A' <= c <= 'Z' || 'a' <= c <= 'z' || '0' <= c <= '9' || c == '_'
  }

  /** The test `/^\w+$/i.test(s)` used for tag names, filter names and tag sources. */
  predicate IsWord(s: string) {
    |s| > 0 && forall i :: 0 <= i < |s| ==> IsWordChar(s[i])
  }

  /** A word never contains the list separator, so a comma-joined list of words splits back. */
  lemma WordHasNoComma(s: string)
    requires IsWord(s)
    ensures ',' !in s
  {
  }

  // ---------------------------------------------------------------------------
  // String.prototype.trim: strips ECMAScript WhiteSpace and LineTerminator code points.

  predicate IsJsSpace(c: char) {
    || c == '\t' || c == '\n' || c == '\r' || c == ' '
    || c == '\U{000B}' || c == '\U{000C}' || c == '\U{00A0}' || c == '\U{1680}'
    || ('\U{2000}' <= c <= '\U{200A}')
    || c == '\U{2028}' || c == '\U{2029}' || c == '\U{202F}' || c == '\U{205F}'
    || c == '\U{3000}' || c == '\U{FEFF}'
  }

  predicate AllSpace(s: string) {
    forall i :: 0 <= i < |s| ==> IsJsSpace(s[i])
  }

  function TrimStart(s: string): (r: string)
    ensures |r| <= |s| && r == s[|s| - |r|..]
    ensures r == [] || !IsJsSpace(r[0])
    ensures AllSpace(s[..|s| - |r|])
  {
    if s != [] && IsJsSpace(s[0]) then TrimStart(s[1..]) else s
  }

  function TrimEnd(s: string): (r: string)
    ensures |r| <= |s| && r == s[..|r|]
    ensures r == [] || !IsJsSpace(r[|r| - 1])
    ensures AllSpace(s[|r|..])
  {
    if s != [] && IsJsSpace(s[|s| - 1]) then TrimEnd(s[..|s| - 1]) else s
  }

  function Trim(s: string): string {
    TrimEnd(TrimStart(s))
  }

  /** `!s.trim()` holds exactly when every code point of `s` is white space. */
  lemma TrimEmptyIffAllSpace(s: string)
    ensures Trim(s) == [] <==> AllSpace(s)
  {
    var t := TrimStart(s);
    if Trim(s) == [] {
      assert t[0..] == t;
      assert AllSpace(t);
      assert t == [];
      assert s[..|s|] == s;
    }
  }

  // ---------------------------------------------------------------------------
  // String.prototype.length counts UTF-16 code units: a code point above U+FFFF
  // is a surrogate pair and counts twice.

  function Utf16Length(s: string): (n: nat)
    ensures |s| <= n <= 2 * |s|
  {
    if s == [] then 0 else (if s[0] as int > 0xFFFF then 2 else 1) + Utf16Length(s[1..])
  }

  // ---------------------------------------------------------------------------
  // s.split(',') and the `'' ? [] : split` idiom of the query-string validators.

  /** `s.split(sep)` for a one-character separator: the pieces between separators, empty ones kept. */
  function Split(s: string, sep: char): (parts: seq<string>)
    ensures |parts| >= 1
    ensures forall k :: 0 <= k < |parts| ==> sep !in parts[k]
  {
    if s == [] then [[]]
    else
      var rest := Split(s[1..], sep);
      if s[0] == sep then [[]] + rest else [[s[0]] + rest[0]] + rest[1..]
  }

  /** `parts.join(sep)`. */
  function Join(parts: seq<string>, sep: char): string
    requires |parts| >= 1
  {
    if |parts| == 1 then parts[0] else parts[0] + [sep] + Join(parts[1..], sep)
  }

  /** Splitting loses nothing: joining the pieces gives back the original string. */
  lemma {:induction false} JoinSplit(s: string, sep: char)
    ensures Join(Split(s, sep), sep) == s
  {
    if s != [] {
      var rest := Split(s[1..], sep);
      JoinSplit(s[1..], sep);
      if s[0] != sep {
        if |rest| == 1 {
          assert Split(s, sep) == [[s[0]] + rest[0]];
        } else {
          assert Split(s, sep)[1..] == rest[1..];
        }
      }
    }
  }

  /** Pieces free of the separator split back exactly: `Join` is a right inverse of `Split`. */
  lemma {:induction false} SplitJoin(parts: seq<string>, sep: char)
    requires |parts| >= 1
    requires forall k :: 0 <= k < |parts| ==> sep !in parts[k]
    ensures Split(Join(parts, sep), sep) == parts
    decreases |parts|, |parts[0]|
  {
    var p := parts[0];
    if |parts| == 1 {
      SplitNoSep(p, sep);
    } else if p == [] {
      SplitJoin(parts[1..], sep);
      assert Join(parts, sep) == [sep] + Join(parts[1..], sep);
      assert ([sep] + Join(parts[1..], sep))[1..] == Join(parts[1..], sep);
    } else {
      var tail := [p[1..]] + parts[1..];
      assert tail[1..] == parts[1..];
      assert p[0] in p;
      forall k | 0 <= k < |tail| ensures sep !in tail[k] {
        if k == 0 {
          assert forall c :: c in p[1..] ==> c in p;
        } else {
          assert tail[k] == parts[k];
        }
      }
      SplitJoin(tail, sep);
      var joined := Join(parts, sep);
      assert joined == [p[0]] + Join(tail, sep);
      assert joined[0] == p[0] != sep;
      assert joined[1..] == Join(tail, sep);
      assert Split(joined, sep) == [[p[0]] + tail[0]] + tail[1..];
      assert [p[0]] + p[1..] == p;
      assert parts == [p] + parts[1..];
    }
  }

  lemma {:induction false} SplitNoSep(s: string, sep: char)
    requires sep !in s
    ensures Split(s, sep) == [s]
  {
    if s != [] {
      SplitNoSep(s[1..], sep);
      assert [s[0]] + s[1..] == s;
    }
  }

  /** `q === '' ? [] : q.split(',')`, the list a query parameter such as `?tags=a,b` stands for. */
  function ParseList(q: string): (r: seq<string>)
    ensures q == "" <==> r == []
    ensures forall k :: 0 <= k < |r| ==> ',' !in r[k]
    ensures r != [] ==> Join(r, ',') == q
  {
    if q == "" then [] else JoinSplit(q, ','); Split(q, ',')
  }

  /**
   * A list of `^\w+$` names survives being sent as a comma-separated query:
   * joining it with `,` and parsing the result gives the same list back.
   */
  lemma {:induction false} WordListRoundTrip(words: seq<string>)
    requires |words| >= 1
    requires forall k :: 0 <= k < |words| ==> IsWord(words[k])
    ensures Join(words, ',') != ""
    ensures ParseList(Join(words, ',')) == words
  {
    forall k | 0 <= k < |words|
      ensures ',' !in words[k]
    {
      WordHasNoComma(words[k]);
    }
    SplitJoin(words, ',');
    assert |Join(words, ',')| >= |words[0]| > 0;
  }

  // ---------------------------------------------------------------------------
  // The reference-link pattern /(http|https):\/\/(www.)?[a-zA-Z0-9.\-/]{2,256}/,
  // unanchored: it only has to match somewhere inside the link.

  predicate IsUrlChar(c: char) {
    'a' <= c <= 'z' || 'A' <= c <= 'Z' || '0' <= c <= '9' || c == '.' || c == '-' || c == '/'
  }

  /** Where the text after `http://` or `https://` starts, when one of them begins at `i`. */
  function SchemeEnd(s: string, i: nat): (j: Option<nat>)
    ensures j.Some? ==> i < j.value <= |s|
  {
    if i + 7 <= |s| && s[i..i + 7] == "http://" then Some(i + 7)
    else if i + 8 <= |s| && s[i..i + 8] == "https://" then Some(i + 8)
    else None
  }

  /** At least two URL characters at `j` (the `{2,256}` run; a longer run only makes the match longer). */
  predicate UrlRunAt(s: string, j: nat) {
    j + 2 <= |s| && IsUrlChar(s[j]) && IsUrlChar(s[j + 1])
  }

  /** The pattern as written matches at `i`, with or without its optional `www.` group. */
  predicate PatternMatchesAt(s: string, i: nat) {
    var e := SchemeEnd(s, i);
    e.Some? &&
      (UrlRunAt(s, e.value) ||
       (e.value + 4 <= |s| && s[e.value..e.value + 3] == "www" && UrlRunAt(s, e.value + 4)))
  }

  /** `urlRegex.test(link)`. */
  predicate IsValidUrl(link: string) {
    exists i :: 0 <= i <= |link| && PatternMatchesAt(link, i)
  }

  /**
   * The optional `www.` group never decides a match: the link passes exactly when some
   * `http://` or `https://` is followed by two characters of `[A-Za-z0-9./-]`.
   */
  lemma UrlPatternSimplified(link: string)
    ensures IsValidUrl(link) <==>
      exists i :: 0 <= i <= |link| && SchemeEnd(link, i).Some? && UrlRunAt(link, SchemeEnd(link, i).value)
  {
    if IsValidUrl(link) {
      var i :| 0 <= i <= |link| && PatternMatchesAt(link, i);
      assert SchemeEnd(link, i).Some? && UrlRunAt(link, SchemeEnd(link, i).value);
    } else {
      forall i | 0 <= i <= |link| && SchemeEnd(link, i).Some?
        ensures !UrlRunAt(link, SchemeEnd(link, i).value)
      {
        assert !PatternMatchesAt(link, i);
      }
    }
  }

  /** A slice of `s` reads the same inside `pre + s + post`. */
  lemma SliceInside(s: string, pre: string, post: string, a: nat, b: nat)
    requires a <= b <= |s|
    ensures (pre + s + post)[|pre| + a..|pre| + b] == s[a..b]
  {
    var t := pre + s + post;
    assert forall k :: a <= k < b ==> t[|pre| + k] == s[k];
  }

  lemma SchemeEndInside(s: string, pre: string, post: string, i: nat)
    requires SchemeEnd(s, i).Some?
    ensures SchemeEnd(pre + s + post, |pre| + i) == Some(|pre| + SchemeEnd(s, i).value)
  {
    if i + 7 <= |s| && s[i..i + 7] == "http://" {
      SliceInside(s, pre, post, i, i + 7);
    } else {
      SliceInside(s, pre, post, i, i + 8);
      SliceInside(s, pre, post, i, i + 7);
    }
  }

  lemma UrlRunInside(s: string, pre: string, post: string, j: nat)
    requires UrlRunAt(s, j)
    ensures UrlRunAt(pre + s + post, |pre| + j)
  {
    var t := pre + s + post;
    assert t[|pre| + j] == s[j] && t[|pre| + j + 1] == s[j + 1];
  }

  /** The pattern is unanchored: text before or after a valid link keeps it valid. */
  lemma IsValidUrlInside(link: string, pre: string, post: string)
    requires IsValidUrl(link)
    ensures IsValidUrl(pre + link + post)
  {
    var t := pre + link + post;
    UrlPatternSimplified(link);
    var i :| 0 <= i <= |link| && SchemeEnd(link, i).Some? && UrlRunAt(link, SchemeEnd(link, i).value);
    var e := SchemeEnd(link, i).value;
    SchemeEndInside(link, pre, post, i);
    UrlRunInside(link, pre, post, e);
    assert PatternMatchesAt(t, |pre| + i);
  }
}
