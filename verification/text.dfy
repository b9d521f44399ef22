/** The JavaScript string operations the application relies on, over `seq<char>`. */
module Text {

  /** `toLowerCase` of one character; only ASCII letters are mapped. */
  function LowerChar(c: char): char {
    if 'A' <= c <= 'Z' then (c as int + 32) as char else c
  }

  /** `String.prototype.toLowerCase`, character by character. */
  function ToLower(s: string): string {
    seq(|s|, i requires 0 <= i < |s| => LowerChar(s[i]))
  }

  predicate EndsWith(s: string, suffix: string) {
    |suffix| <= |s| && s[|s| - |suffix|..] == suffix
  }

  /** `part` occurs in `s` starting at index `i`. */
  predicate OccursAt(s: string, part: string, i: int) {
    0 <= i && i + |part| <= |s| && s[i..i + |part|] == part
  }

  /** `String.prototype.includes`. */
  predicate Includes(s: string, part: string) {
    exists i :: 0 <= i <= |s| - |part| && OccursAt(s, part, i)
  }

  lemma IncludesEmpty(s: string)
    ensures Includes(s, "")
  {
    assert OccursAt(s, "", 0);
  }

  /** An occurrence survives putting text on either side. */
  lemma {:induction false} IncludesInContext(a: string, part: string, b: string, s: string)
    requires Includes(s, part)
    ensures Includes(a + s + b, part)
  {
    var i :| 0 <= i <= |s| - |part| && OccursAt(s, part, i);
    var t := a + s + b;
    assert t[|a| + i..|a| + i + |part|] == s[i..i + |part|];
    assert OccursAt(t, part, |a| + i);
  }

  lemma IncludesSelf(s: string)
    ensures Includes(s, s)
  {
    assert OccursAt(s, s, 0);
  }

  /** The last element of `s.split(sep)`: the text after the last `sep`, or all
      of `s` when `sep` does not occur in it. */
  function AfterLast(s: string, sep: char): (r: string)
    ensures EndsWith(s, r)
    ensures sep !in r
    ensures |r| == |s| || s[|s| - |r| - 1] == sep
  {
    if s == [] then []
    else if s[|s| - 1] == sep then []
    else
      var init := s[..|s| - 1];
      var r' := AfterLast(init, sep);
      assert s == init + [s[|s| - 1]];
      assert s[|init| - |r'|..] == init[|init| - |r'|..] + [s[|s| - 1]];
      r' + [s[|s| - 1]]
  }

  /** A suffix free of `sep` and preceded by `sep` is exactly the last segment. */
  lemma AfterLastIsLastSegment(s: string, sep: char, t: string)
    requires EndsWith(s, t) && sep !in t
    requires |t| < |s| && s[|s| - |t| - 1] == sep
    ensures AfterLast(s, sep) == t
  {
  }

  /** Without any `sep`, splitting yields the whole string as its last segment. */
  lemma AfterLastWithoutSeparator(s: string, sep: char)
    requires sep !in s
    ensures AfterLast(s, sep) == s
  {
  }

  /** `filename.split('.').pop()?.toLowerCase() || ''`: the lower-cased text
      after the last dot, the whole lower-cased name when it has no dot. */
  function FileExtension(filename: string): (ext: string)
    ensures |ext| <= |filename|
    ensures '.' !in ext
  {
    ToLower(AfterLast(filename, '.'))
  }

  /** With a dot at `i` and none after it, the extension is the lower-cased
      text after that dot. */
  lemma {:induction false} FileExtensionAfterLastDot(filename: string, i: nat)
    requires i < |filename| && filename[i] == '.' && '.' !in filename[i + 1..]
    ensures FileExtension(filename) == ToLower(filename[i + 1..])
  {
    AfterLastIsLastSegment(filename, '.', filename[i + 1..]);
  }

  /** Without a dot the extension is the whole lower-cased name, and the
      empty name has the empty extension. */
  lemma {:induction false} FileExtensionWithoutDot(filename: string)
    requires '.' !in filename
    ensures FileExtension(filename) == ToLower(filename)
    ensures filename == "" ==> FileExtension(filename) == ""
  {
    AfterLastWithoutSeparator(filename, '.');
  }

  /** If the lower-cased name ends in `.` followed by a dot-free `ext`, that
      `ext` is the file extension. */
  lemma {:induction false} ExtensionOfDottedSuffix(filename: string, ext: string)
    requires '.' !in ext
    requires EndsWith(ToLower(filename), "." + ext)
    ensures FileExtension(filename) == ext
  {
    var n := |filename|;
    var tail := filename[n - |ext|..];
    assert LowerChar(filename[n - |ext| - 1]) == ToLower(filename)[n - |ext| - 1] == '.';
    forall c | c in tail ensures c != '.' {
      var k :| 0 <= k < |tail| && tail[k] == c;
      assert ToLower(filename)[n - |ext| + k] == ext[k];
    }
    AfterLastIsLastSegment(filename, '.', tail);
    assert ToLower(tail) == ToLower(filename)[n - |ext|..];
  }

  /** The index of the first `c` in `s`, or `|s|` when there is none. */
  function FirstIndexOf(s: string, c: char): (i: nat)
    ensures i <= |s|
    ensures i == |s| || s[i] == c
    ensures c !in s[..i]
  {
    if s == [] || s[0] == c then 0
    else
      var i := 1 + FirstIndexOf(s[1..], c);
      assert s[..i] == [s[0]] + s[1..][..i - 1];
      i
  }

  /** In `prefix + [c] + rest`, with `c` not in `prefix`, the first `c` ends the prefix. */
  lemma {:induction false} FirstIndexAfterPrefix(prefix: string, c: char, rest: string)
    requires c !in prefix
    ensures FirstIndexOf(prefix + [c] + rest, c) == |prefix|
  {
    if prefix != [] {
      FirstIndexAfterPrefix(prefix[1..], c, rest);
      assert (prefix + [c] + rest)[1..] == prefix[1..] + [c] + rest;
    }
  }

  /** Characters matched by `\s` and removed by `trim()` in JavaScript. */
  predicate IsWhitespace(c: char) {
    c == ' ' || c == '\t' || c == '\n' || c == '\r' || c == '\U{B}' || c == '\U{C}'
    || c == '\U{A0}' || c == '\U{1680}' || ('\U{2000}' <= c <= '\U{200A}')
    || c == '\U{2028}' || c == '\U{2029}' || c == '\U{202F}' || c == '\U{205F}'
    || c == '\U{3000}' || c == '\U{FEFF}'
  }

  /** Every character is whitespace (the empty string included). */
  predicate IsBlank(s: string) {
    forall i :: 0 <= i < |s| ==> IsWhitespace(s[i])
  }

  /** `trimStart`: drops the leading whitespace and nothing else. */
  function TrimStart(s: string): (r: string)
    ensures EndsWith(s, r)
    ensures r == [] || !IsWhitespace(r[0])
    ensures IsBlank(s[..|s| - |r|])
  {
    if s != [] && IsWhitespace(s[0]) then
      var r := TrimStart(s[1..]);
      assert s[..|s| - |r|] == [s[0]] + s[1..][..|s| - 1 - |r|];
      r
    else s
  }

  /** `trimEnd`: drops the trailing whitespace and nothing else. */
  function TrimEnd(s: string): (r: string)
    ensures |r| <= |s| && r == s[..|r|]
    ensures r == [] || !IsWhitespace(r[|r| - 1])
    ensures IsBlank(s[|r|..])
  {
    if s != [] && IsWhitespace(s[|s| - 1]) then
      var init := s[..|s| - 1];
      var r := TrimEnd(init);
      assert s == init + [s[|s| - 1]];
      assert s[|r|..] == init[|r|..] + [s[|s| - 1]];
      r
    else s
  }

  /** `String.prototype.trim`: the result neither starts nor ends with whitespace. */
  function Trim(s: string): (r: string)
    ensures r == [] || (!IsWhitespace(r[0]) && !IsWhitespace(r[|r| - 1]))
  {
    var e := TrimEnd(s);
    var r := TrimStart(e);
    assert r != [] ==> r[|r| - 1] == e[|e| - 1];
    r
  }

  /** `trim()` removes whitespace from the two ends and nothing else: the
      result is a slice of the input with only whitespace before and after it. */
  lemma TrimCutsOnlyWhitespace(s: string)
    ensures exists i, j :: 0 <= i <= j <= |s| && Trim(s) == s[i..j] && IsBlank(s[..i]) && IsBlank(s[j..])
  {
    var e := TrimEnd(s);
    var r := TrimStart(e);
    var i, j := |e| - |r|, |e|;
    assert s[i..j] == e[i..];
    assert s[..i] == e[..i];
  }

  /** `!s.trim()` holds exactly for the strings made only of whitespace. */
  lemma TrimEmptyIffBlank(s: string)
    ensures Trim(s) == [] <==> IsBlank(s)
  {
    var e := TrimEnd(s);
    if Trim(s) == [] {
      assert IsBlank(e[..|e|]);
      assert s[|e|..] == s;
    }
  }

  function DigitChar(d: nat): char
    requires d < 10
  {
    "0123456789"[d]
  }

  /** The decimal rendering of a natural number, as JavaScript's `${n}`. */
  function Decimal(n: nat): (r: string)
    ensures |r| > 0
    ensures forall i :: 0 <= i < |r| ==> '0' <= r[i] <= '9'
  {
    if n < 10 then [DigitChar(n)] else Decimal(n / 10) + [DigitChar(n % 10)]
  }

  /** `Array.prototype.join(sep)`. */
  function Join(parts: seq<string>, sep: string): string {
    if |parts| == 0 then ""
    else if |parts| == 1 then parts[0]
    else parts[0] + sep + Join(parts[1..], sep)
  }

  /** Every element of the list appears in the joined text. */
  lemma {:induction false} JoinIncludesEach(parts: seq<string>, sep: string, k: nat)
    requires k < |parts|
    ensures Includes(Join(parts, sep), parts[k])
  {
    if |parts| == 1 {
      IncludesSelf(parts[0]);
    } else if k == 0 {
      IncludesSelf(parts[0]);
      IncludesInContext("", parts[0], sep + Join(parts[1..], sep), parts[0]);
      assert "" + parts[0] + (sep + Join(parts[1..], sep)) == Join(parts, sep);
    } else {
      JoinIncludesEach(parts[1..], sep, k - 1);
      IncludesInContext(parts[0] + sep, parts[k], "", Join(parts[1..], sep));
      assert parts[0] + sep + Join(parts[1..], sep) + "" == Join(parts, sep);
    }
  }
}
