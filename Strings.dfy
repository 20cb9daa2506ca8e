/** The pieces of Python's `str` methods and of its `re` module that the
    dictation code relies on: `strip()`, the `[^\w\s-]` filter, slicing,
    `replace`, `split(sep, maxsplit)`, `sep.join` and the MULTILINE
    substitution of the first `^# .+$` line. Strings are sequences of
    Unicode code points, as Python's `str` is. */
module Strings {
  import opened Wrappers

  // ---------------------------------------------------------------------
  // Character classes
  // ---------------------------------------------------------------------

  /** Python's `str.isspace()`; `str.strip()` and the regex class `\s`
      use this same set of code points. */
  predicate IsSpace(c: char) {
    var n := c as int;
    (9 <= n <= 13) || (28 <= n <= 32) || n == 0x85 || n == 0xA0 || n == 0x1680
    || (0x2000 <= n <= 0x200A) || n == 0x2028 || n == 0x2029 || n == 0x202F
    || n == 0x205F || n == 0x3000
  }

  /** The regex class `\w`, restricted to ASCII: letters, digits and `_`. */
  predicate IsWordChar(c: char) {
    ('a' <= c <= 'z') || ('A' <= c <= 'Z') || ('0' <= c <= '9') || c == '_'
  }

  /** The characters that survive `re.sub(r'[^\w\s-]', '', s)`. */
  predicate IsTitleChar(c: char) {
    IsWordChar(c) || IsSpace(c) || c == '-'
  }

  predicate AllSpace(s: string) {
    forall i :: 0 <= i < |s| ==> IsSpace(s[i])
  }

  /** No leading and no trailing whitespace. */
  predicate Stripped(s: string) {
    s == [] || (!IsSpace(s[0]) && !IsSpace(s[|s| - 1]))
  }

  predicate AllTitleChars(s: string) {
    forall i :: 0 <= i < |s| ==> IsTitleChar(s[i])
  }

  // ---------------------------------------------------------------------
  // Prefixes and suffixes
  // ---------------------------------------------------------------------

  predicate HasPrefix(prefix: string, s: string) {
    |prefix| <= |s| && s[..|prefix|] == prefix
  }

  predicate HasSuffix(suffix: string, s: string) {
    |suffix| <= |s| && s[|s| - |suffix|..] == suffix
  }

  lemma SuffixOfAppend(a: string, b: string)
    ensures HasSuffix(b, a + b)
  {
    assert (a + b)[|a|..] == b;
  }

  lemma PrefixOfAppend(p: string, c: string, x: string)
    requires HasPrefix(p, c)
    ensures HasPrefix(p, c + x)
  {
    assert (c + x)[..|p|] == c[..|p|];
  }

  lemma NewlineAfter(t: string, r: string)
    requires |r| > 0 && r[0] == '\n'
    ensures HasPrefix(t + "\n", t + r)
  {
    assert (t + r)[..|t| + 1] == t + "\n";
  }

  /** A prefix `t + r` of `c` splits `c` after `t`, and what follows still
      opens with `r`. */
  lemma PrefixSplit(t: string, r: string, c: string)
    requires HasPrefix(t + r, c)
    ensures c == t + c[|t|..]
    ensures HasPrefix(r, c[|t|..])
  {
    assert c[..|t|] == (t + r)[..|t|] == t;
    assert c[|t|..][..|r|] == c[..|t| + |r|][|t|..] == r;
  }

  lemma PrefixJoin(t: string, r: string, b: string)
    requires HasPrefix(r, b)
    ensures HasPrefix(t + r, t + b)
    ensures (t + b)[|t|..] == b
  {
    assert (t + b)[..|t + r|] == t + b[..|r|];
  }

  // ---------------------------------------------------------------------
  // str.strip()
  // ---------------------------------------------------------------------

  lemma AllSpaceCons(c: char, t: string)
    requires IsSpace(c) && AllSpace(t)
    ensures AllSpace([c] + t)
  {
    forall i | 0 <= i < |[c] + t| ensures IsSpace(([c] + t)[i]) {
      if i > 0 { assert ([c] + t)[i] == t[i - 1]; }
    }
  }

  lemma AllSpaceSnoc(t: string, c: char)
    requires AllSpace(t) && IsSpace(c)
    ensures AllSpace(t + [c])
  {
    forall i | 0 <= i < |t + [c]| ensures IsSpace((t + [c])[i]) {
      if i < |t| { assert (t + [c])[i] == t[i]; }
    }
  }

  lemma AllSpaceAppend(a: string, b: string)
    requires AllSpace(a) && AllSpace(b)
    ensures AllSpace(a + b)
  {
    forall i | 0 <= i < |a + b| ensures IsSpace((a + b)[i]) {
      if i < |a| { assert (a + b)[i] == a[i]; } else { assert (a + b)[i] == b[i - |a|]; }
    }
  }

  /** A suffix of `a + c` that starts inside `a`. */
  lemma SliceOfAppend(a: string, c: string, k: nat)
    requires k <= |a|
    ensures (a + c)[k..] == a[k..] + c
  {
  }

  /** `s.lstrip()`: what is removed is whitespace, what remains is a suffix. */
  function TrimLeft(s: string): (r: string)
    ensures |r| <= |s| && r == s[|s| - |r|..]
    ensures AllSpace(s[..|s| - |r|])
    ensures r == [] || !IsSpace(r[0])
  {
    if s != [] && IsSpace(s[0]) then
      var r := TrimLeft(s[1..]);
      assert s[..|s| - |r|] == [s[0]] + s[1..][..|s| - 1 - |r|];
      assert s[|s| - |r|..] == s[1..][|s| - 1 - |r|..];
      AllSpaceCons(s[0], s[1..][..|s| - 1 - |r|]);
      r
    else s
  }

  /** `s.rstrip()`: what is removed is whitespace, what remains is a prefix. */
  function TrimRight(s: string): (r: string)
    ensures |r| <= |s| && r == s[..|r|]
    ensures AllSpace(s[|r|..])
    ensures r == [] || !IsSpace(r[|r| - 1])
  {
    if s != [] && IsSpace(s[|s| - 1]) then
      var r := TrimRight(s[..|s| - 1]);
      assert s[|r|..] == s[..|s| - 1][|r|..] + [s[|s| - 1]];
      assert s[..|r|] == s[..|s| - 1][..|r|];
      AllSpaceSnoc(s[..|s| - 1][|r|..], s[|s| - 1]);
      r
    else s
  }

  /** `s.strip()`: it has no outer whitespace, and it is empty exactly when
      `s` is all whitespace. */
  function Strip(s: string): (r: string)
    ensures Stripped(r)
    ensures r == [] <==> AllSpace(s)
  {
    StripEmpty(s);
    TrimLeft(TrimRight(s))
  }

  lemma StripEmpty(s: string)
    ensures TrimLeft(TrimRight(s)) == [] <==> AllSpace(s)
  {
    var t := TrimRight(s);
    var r := TrimLeft(t);
    if r == [] {
      assert t[..|t|] == t;
      AllSpaceAppend(t, s[|t|..]);
      assert s == t + s[|t|..];
    } else {
      var j := |t| - |r|;
      assert r[0] == t[j] == s[j];
      assert !IsSpace(s[j]);
    }
  }

  /** What `strip()` removes is whitespace: `s` is whitespace, then
      `Strip(s)`, then whitespace. */
  lemma StripInfix(s: string) returns (i: nat)
    ensures i + |Strip(s)| <= |s| && Strip(s) == s[i..i + |Strip(s)|]
    ensures AllSpace(s[..i]) && AllSpace(s[i + |Strip(s)|..])
  {
    var t := TrimRight(s);
    var r := TrimLeft(t);
    i := |t| - |r|;
    assert s[..i] == t[..i];
    assert s[i + |r|..] == s[|t|..];
  }

  /** Stripping a string that has no outer whitespace changes nothing. */
  lemma StripStripped(s: string)
    requires Stripped(s)
    ensures Strip(s) == s
  {
  }

  /** `strip()` is idempotent. */
  lemma StripIdempotent(s: string)
    ensures Strip(Strip(s)) == Strip(s)
  {
    StripStripped(Strip(s));
  }

  // ---------------------------------------------------------------------
  // re.sub(r'[^\w\s-]', '', s), slicing and str.replace
  // ---------------------------------------------------------------------

  /** `re.sub(r'[^\w\s-]', '', s)`: keeps exactly the word, whitespace and
      hyphen characters, in order. */
  function KeepTitleChars(s: string): (r: string)
    ensures |r| <= |s|
    ensures AllTitleChars(r)
    ensures AllTitleChars(s) ==> r == s
  {
    if s == [] then []
    else (if IsTitleChar(s[0]) then [s[0]] else []) + KeepTitleChars(s[1..])
  }

  /** The filter works character by character: a single character is kept
      exactly when it is a word, whitespace or hyphen character, and the
      filtered concatenation is the concatenation of the filtered parts.
      Together these fix the result for every string. */
  lemma KeepTitleCharsOne(c: char)
    ensures KeepTitleChars([c]) == (if IsTitleChar(c) then [c] else [])
  {
    assert [c][1..] == [];
  }

  lemma {:induction false} KeepTitleCharsAppend(a: string, b: string)
    ensures KeepTitleChars(a + b) == KeepTitleChars(a) + KeepTitleChars(b)
  {
    if a != [] {
      assert (a + b)[0] == a[0];
      assert (a + b)[1..] == a[1..] + b;
      KeepTitleCharsAppend(a[1..], b);
    } else {
      assert a + b == b;
    }
  }

  /** The slice `s[:n]`. */
  function Take(s: string, n: nat): (r: string)
    ensures |r| <= n && |r| <= |s|
    ensures r == s[..|r|]
    ensures |s| <= n ==> r == s
    ensures n <= |s| ==> |r| == n
  {
    if |s| <= n then s else s[..n]
  }

  /** `s.replace(a, b)` for single characters `a` and `b`. */
  function ReplaceChar(s: string, a: char, b: char): (r: string)
    ensures |r| == |s|
    ensures forall i :: 0 <= i < |s| ==> r[i] == (if s[i] == a then b else s[i])
  {
    if s == [] then [] else [if s[0] == a then b else s[0]] + ReplaceChar(s[1..], a, b)
  }

  /** `s.replace(pat, rep)` for a non-empty `pat`: occurrences are found from
      left to right and do not overlap. */
  function ReplaceAll(s: string, pat: string, rep: string): string
    requires pat != []
    decreases |s|
  {
    if |s| < |pat| then s
    else if s[..|pat|] == pat then rep + ReplaceAll(s[|pat|..], pat, rep)
    else [s[0]] + ReplaceAll(s[1..], pat, rep)
  }

  /** When the first character of `pat` does not occur in `s`, the only
      occurrence of `pat` in `s + pat` is the final one. */
  lemma {:induction false} ReplaceAllTrailing(s: string, pat: string, rep: string)
    requires pat != []
    requires pat[0] !in s
    ensures ReplaceAll(s + pat, pat, rep) == s + rep
    decreases |s|
  {
    var t := s + pat;
    if s == [] {
      assert t[..|pat|] == pat && t[|pat|..] == [];
    } else {
      assert t[..|pat|] != pat by {
        assert t[..|pat|][0] == s[0] != pat[0];
      }
      assert t[1..] == s[1..] + pat;
      ReplaceAllTrailing(s[1..], pat, rep);
      calc {
        ReplaceAll(t, pat, rep);
        [s[0]] + ReplaceAll(s[1..] + pat, pat, rep);
        [s[0]] + (s[1..] + rep);
        { assert [s[0]] + s[1..] == s; }
        s + rep;
      }
    }
  }

  // ---------------------------------------------------------------------
  // Reading a file in text mode: universal newlines
  // ---------------------------------------------------------------------

  /** What `open(path, "r").read()` returns for stored text `s`: every
      `"\r\n"` and every lone `"\r"` becomes `"\n"`. */
  function TranslateNewlines(s: string): (r: string)
    ensures '\r' !in r
    ensures |r| <= |s|
    decreases |s|
  {
    if s == [] then []
    else if s[0] == '\r' then "\n" + TranslateNewlines(if |s| >= 2 && s[1] == '\n' then s[2..] else s[1..])
    else [s[0]] + TranslateNewlines(s[1..])
  }

  /** Text without a carriage return reads back as it was stored. */
  lemma {:induction false} TranslateNewlinesPlain(s: string)
    requires '\r' !in s
    ensures TranslateNewlines(s) == s
    decreases |s|
  {
    if s != [] {
      assert s[0] in s;
      assert forall c :: c in s[1..] ==> c in s;
      TranslateNewlinesPlain(s[1..]);
    }
  }

  /** Reading translates a concatenation part by part, unless the first
      part ends with the `"\r"` of a `"\r\n"` the second part completes. */
  lemma {:induction false} TranslateNewlinesAppend(a: string, b: string)
    requires a == [] || a[|a| - 1] != '\r'
    ensures TranslateNewlines(a + b) == TranslateNewlines(a) + TranslateNewlines(b)
    decreases |a|
  {
    if a == [] {
      assert a + b == b;
    } else if a[0] == '\r' {
      assert |a| >= 2 && (a + b)[1] == a[1];
      if a[1] == '\n' {
        assert (a + b)[2..] == a[2..] + b;
        TranslateNewlinesAppend(a[2..], b);
      } else {
        assert (a + b)[1..] == a[1..] + b;
        TranslateNewlinesAppend(a[1..], b);
      }
    } else {
      assert (a + b)[0] == a[0];
      assert (a + b)[1..] == a[1..] + b;
      TranslateNewlinesAppend(a[1..], b);
    }
  }

  /** Reading what was read and written back changes nothing more. */
  lemma TranslateNewlinesIdempotent(s: string)
    ensures TranslateNewlines(TranslateNewlines(s)) == TranslateNewlines(s)
  {
    TranslateNewlinesPlain(TranslateNewlines(s));
  }

  /** Both Windows and old Mac line ends read as `"\n"`. */
  lemma TranslateNewlinesExample()
    ensures TranslateNewlines("a\r\nb") == "a\nb"
    ensures TranslateNewlines("a\rb") == "a\nb"
    ensures TranslateNewlines("a\r\r\nb") == "a\n\nb"
  {
    assert TranslateNewlines("b") == "b";
    assert TranslateNewlines("\nb") == "\nb";
    assert TranslateNewlines("\r\nb") == "\nb";
  }

  // ---------------------------------------------------------------------
  // str.split(sep, maxsplit) and sep.join(parts)
  // ---------------------------------------------------------------------

  /** The first index of `c` in `s`, if any. */
  function IndexOf(s: string, c: char): (r: Option<nat>)
    ensures r.Some? ==> r.value < |s| && s[r.value] == c && c !in s[..r.value]
    ensures r.None? ==> c !in s
  {
    if s == [] then None
    else if s[0] == c then Some(0)
    else match IndexOf(s[1..], c)
      case None => None
      case Some(i) => Some(i + 1)
  }

  /** `sep.join(parts)`. */
  function Join(sep: string, parts: seq<string>): string {
    if |parts| == 0 then ""
    else if |parts| == 1 then parts[0]
    else parts[0] + sep + Join(sep, parts[1..])
  }

  /** `s.split(sep, maxsplit)` for a one-character separator: at most
      `maxsplit` cuts, at the first occurrences of `sep`; joining the parts
      back with `sep` gives `s`, no part but the last contains `sep`, and the
      last contains it only when all `maxsplit` cuts were made. */
  function Split(s: string, sep: char, maxsplit: nat): (parts: seq<string>)
    ensures 1 <= |parts| <= maxsplit + 1
    ensures Join([sep], parts) == s
    ensures forall k :: 0 <= k < |parts| - 1 ==> sep !in parts[k]
    ensures |parts| <= maxsplit ==> sep !in parts[|parts| - 1]
  {
    if maxsplit == 0 then [s]
    else match IndexOf(s, sep)
      case None => [s]
      case Some(i) =>
        var rest := Split(s[i + 1..], sep, maxsplit - 1);
        assert s == s[..i] + [sep] + s[i + 1..];
        [s[..i]] + rest
  }

  /** The first `sep` of `a + [sep] + rest`, when `a` has none, is the one
      right after `a`. */
  lemma {:induction false} IndexOfAfter(a: string, sep: char, rest: string)
    requires sep !in a
    ensures IndexOf(a + [sep] + rest, sep) == Some(|a|)
  {
    if a != [] {
      assert (a + [sep] + rest)[1..] == a[1..] + [sep] + rest;
      IndexOfAfter(a[1..], sep, rest);
    }
  }

  /** Splitting cuts first at the first separator. */
  lemma SplitFirst(a: string, sep: char, rest: string, maxsplit: nat)
    requires sep !in a && maxsplit > 0
    ensures Split(a + [sep] + rest, sep, maxsplit) == [a] + Split(rest, sep, maxsplit - 1)
  {
    var s := a + [sep] + rest;
    IndexOfAfter(a, sep, rest);
    assert s[..|a|] == a && s[|a| + 1..] == rest;
  }

  /** How many times `c` occurs in `s`. */
  function Count(s: string, c: char): (n: nat)
    ensures n <= |s|
    ensures n == 0 <==> c !in s
  {
    if s == [] then 0 else (if s[0] == c then 1 else 0) + Count(s[1..], c)
  }

  lemma {:induction false} CountAppend(a: string, b: string, c: char)
    ensures Count(a + b, c) == Count(a, c) + Count(b, c)
  {
    if a != [] {
      assert (a + b)[1..] == a[1..] + b;
      CountAppend(a[1..], b, c);
    } else {
      assert a + b == b;
    }
  }

  /** Joining parts free of `sep` except the last puts exactly one `sep`
      between each two. */
  lemma {:induction false} CountJoin(sep: char, parts: seq<string>)
    requires |parts| >= 1
    requires forall k :: 0 <= k < |parts| - 1 ==> sep !in parts[k]
    ensures Count(Join([sep], parts), sep) == |parts| - 1 + Count(parts[|parts| - 1], sep)
  {
    if |parts| > 1 {
      CountJoin(sep, parts[1..]);
      CountAppend(parts[0], [sep], sep);
      CountAppend(parts[0] + [sep], Join([sep], parts[1..]), sep);
    }
  }

  /** `s.split(sep, 2)` gives three parts exactly when `s` holds at least
      two separators. */
  lemma SplitTwiceParts(s: string, sep: char)
    ensures |Split(s, sep, 2)| == 3 <==> Count(s, sep) >= 2
  {
    CountJoin(sep, Split(s, sep, 2));
  }

  /** Replacing a character that does not occur changes nothing. */
  lemma ReplaceCharAbsent(s: string, a: char, b: char)
    requires a !in s
    ensures ReplaceChar(s, a, b) == s
  {
    var r := ReplaceChar(s, a, b);
    assert forall i :: 0 <= i < |s| ==> r[i] == s[i];
  }

  // ---------------------------------------------------------------------
  // re.sub(r'^# .+$', line, s, count=1, flags=re.MULTILINE)
  // ---------------------------------------------------------------------

  /** `^# .+$` matches at index `i` under MULTILINE: `i` starts a line, the
      line begins with `# ` and has at least one more character before its
      newline (`.` matches everything except a newline). */
  predicate HeadingAt(s: string, i: nat) {
    i + 2 < |s| && (i == 0 || s[i - 1] == '\n')
    && s[i] == '#' && s[i + 1] == ' ' && s[i + 2] != '\n'
  }

  /** The index of the newline that ends the line containing `i`, or `|s|`;
      this is where the greedy `.+` stops and `$` matches. */
  function LineEnd(s: string, i: nat): (k: nat)
    requires i <= |s|
    ensures i <= k <= |s| && (k == |s| || s[k] == '\n')
    ensures forall j :: i <= j < k ==> s[j] != '\n'
    decreases |s| - i
  {
    if i == |s| || s[i] == '\n' then i else LineEnd(s, i + 1)
  }

  /** The leftmost match of `^# .+$` at or after `from`. */
  function FirstHeading(s: string, from: nat): (r: Option<nat>)
    requires from <= |s|
    ensures r.Some? ==> from <= r.value < |s| && HeadingAt(s, r.value)
                        && forall j :: from <= j < r.value ==> !HeadingAt(s, j)
    ensures r.None? ==> forall j :: from <= j < |s| ==> !HeadingAt(s, j)
    decreases |s| - from
  {
    if from == |s| then None
    else if HeadingAt(s, from) then Some(from)
    else FirstHeading(s, from + 1)
  }

  /** `re.sub(r'^# .+$', line, s, count=1, flags=re.MULTILINE)`, with a
      replacement that holds no backslash and is therefore taken literally. */
  function SubFirstHeading(s: string, line: string): (r: string)
    ensures (forall j :: 0 <= j < |s| ==> !HeadingAt(s, j)) ==> r == s
  {
    match FirstHeading(s, 0)
    case None => s
    case Some(h) => s[..h] + line + s[LineEnd(s, h)..]
  }

  /** Only the first `# ...` line is replaced: the text before it holds no
      such line and is kept, and so is everything from its newline on. */
  lemma SubFirstHeadingOneLine(s: string, line: string, i: nat)
    requires i < |s| && HeadingAt(s, i)
    ensures var h := FirstHeading(s, 0).value;
            var k := LineEnd(s, h);
            h <= i && h < k && '\n' !in s[h..k]
            && SubFirstHeading(s, line) == s[..h] + line + s[k..]
  {
    FirstHeadingBefore(s, 0, i);
    var h := FirstHeading(s, 0).value;
    var k := LineEnd(s, h);
    assert s[h] == '#';
    NoNewlineBefore(s, h, k);
  }

  /** A match at `i` means the leftmost match from `from <= i` is at `i` or
      before it. */
  lemma {:induction false} FirstHeadingBefore(s: string, from: nat, i: nat)
    requires from <= i < |s| && HeadingAt(s, i)
    ensures FirstHeading(s, from).Some? && FirstHeading(s, from).value <= i
    decreases i - from
  {
    if !HeadingAt(s, from) {
      FirstHeadingBefore(s, from + 1, i);
    }
  }

  /** The text from `i` up to the end of its line holds no newline. */
  lemma NoNewlineBefore(s: string, i: nat, k: nat)
    requires i <= |s| && k == LineEnd(s, i)
    ensures '\n' !in s[i..k]
  {
    assert forall j :: 0 <= j < k - i ==> s[i..k][j] == s[i + j];
  }

  /** When the text opens with a `# ` line, that very line is the one
      replaced and everything after it is kept. */
  lemma SubFirstHeadingAtStart(title: string, rest: string, line: string)
    requires title != [] && '\n' !in title
    requires rest == [] || rest[0] == '\n'
    ensures SubFirstHeading("# " + title + rest, line) == line + rest
  {
    var s := "# " + title + rest;
    var k := 2 + |title|;
    HeadingLineAtStart(title, rest);
    assert SubFirstHeading(s, line) == s[..0] + line + s[k..];
    assert s[..0] == [] && s[k..] == rest;
  }

  /** A text opening with `# <title>` has its first match at 0, and the
      matched line ends where the title does. */
  lemma HeadingLineAtStart(title: string, rest: string)
    requires title != [] && '\n' !in title
    requires rest == [] || rest[0] == '\n'
    ensures FirstHeading("# " + title + rest, 0) == Some(0)
    ensures LineEnd("# " + title + rest, 0) == 2 + |title|
  {
    var s := "# " + title + rest;
    assert s[2] == title[0];
    assert HeadingAt(s, 0);
    assert s[0..2 + |title|] == "# " + title;
    LineEndAt(s, 0, 2 + |title|);
  }

  /** The line containing `i` ends at `k` when `k` is the next newline (or
      the end of the text). */
  lemma {:induction false} LineEndAt(s: string, i: nat, k: nat)
    requires i <= k <= |s|
    requires '\n' !in s[i..k]
    requires k == |s| || s[k] == '\n'
    ensures LineEnd(s, i) == k
    decreases k - i
  {
    if i < k {
      assert s[i] == s[i..k][0];
      assert s[i + 1..k] == s[i..k][1..];
      LineEndAt(s, i + 1, k);
    }
  }
}
