/** String operations with the exact behaviour of the Python and C library calls the
    backend uses: `str.strip`, `str.split`, `str.startswith`, slicing with a negative
    end, `str.replace`, and rendering integers as `printf("%d")` or an f-string does. */
module Text {

  /** Python's `str.isspace` for one character: the characters `str.strip()` removes. */
  predicate IsSpace(c: char) {
    || c == ' ' || '\t' <= c <= '\r' || '\U{1C}' <= c <= '\U{1F}'
    || c == '\U{85}' || c == '\U{A0}' || c == '\U{1680}' || '\U{2000}' <= c <= '\U{200A}'
    || c == '\U{2028}' || c == '\U{2029}' || c == '\U{202F}' || c == '\U{205F}' || c == '\U{3000}'
  }

  /** Removes leading whitespace. */
  function TrimLeft(s: string): (r: string)
    ensures |r| <= |s| && r == s[|s| - |r|..]
    ensures r == [] || !IsSpace(r[0])
    ensures forall i :: 0 <= i < |s| - |r| ==> IsSpace(s[i])
  {
    if s != [] && IsSpace(s[0]) then TrimLeft(s[1..]) else s
  }

  /** Removes trailing whitespace. */
  function TrimRight(s: string): (r: string)
    ensures |r| <= |s| && r == s[..|r|]
    ensures r == [] || !IsSpace(r[|r| - 1])
    ensures forall i :: |r| <= i < |s| ==> IsSpace(s[i])
  {
    if s != [] && IsSpace(s[|s| - 1]) then TrimRight(s[..|s| - 1]) else s
  }

  /** Python's `s.strip()`. */
  function Strip(s: string): string {
    TrimRight(TrimLeft(s))
  }

  /** `strip()` of a text followed by one newline gives the text back, when the text
      neither starts nor ends with whitespace. */
  lemma StripFinalNewline(s: string)
    requires s != [] && !IsSpace(s[0]) && !IsSpace(s[|s| - 1])
    ensures Strip(s + "\n") == s
  {
    var t := s + "\n";
    assert TrimLeft(t) == t;
    assert t[..|t| - 1] == s;
    assert TrimRight(t) == TrimRight(s);
  }

  /** The first position of `c` in `s`. */
  function IndexOf(s: string, c: char): (i: nat)
    requires c in s
    ensures i < |s| && s[i] == c && c !in s[..i]
  {
    if s[0] == c then 0 else 1 + IndexOf(s[1..], c)
  }

  /** Text-mode reading with universal newlines, as `subprocess.run(..., text=True)`
      reads a child's output: every "\r\n" and every other '\r' becomes '\n'. */
  function UniversalNewlines(s: string): (t: string)
    ensures '\r' !in t
    decreases |s|
  {
    if s == [] then []
    else if s[0] == '\r' then "\n" + UniversalNewlines(if |s| > 1 && s[1] == '\n' then s[2..] else s[1..])
    else [s[0]] + UniversalNewlines(s[1..])
  }

  /** A text without '\r' is read back as it was written. */
  lemma {:induction false} UniversalNewlinesKeep(s: string)
    requires '\r' !in s
    ensures UniversalNewlines(s) == s
    decreases |s|
  {
    if s != [] {
      assert '\r' !in s[1..];
      UniversalNewlinesKeep(s[1..]);
    }
  }

  /** A lone '\r' inside a line is read as a line break. */
  lemma CarriageReturnBreaksLine()
    ensures UniversalNewlines("a\rb") == "a\nb"
  {
    assert UniversalNewlines("b") == "b";
    assert UniversalNewlines("\rb") == "\nb";
  }

  /** Python's `s.split(sep)` for a one-character separator: the pieces between the
      separators, always at least one. */
  function Split(s: string, sep: char): (parts: seq<string>)
    ensures |parts| >= 1
    ensures forall i :: 0 <= i < |parts| ==> sep !in parts[i]
    decreases |s|
  {
    if sep in s then
      var i := IndexOf(s, sep);
      [s[..i]] + Split(s[i + 1..], sep)
    else
      [s]
  }

  /** Python's `sep.join(parts)`. */
  function Join(parts: seq<string>, sep: char): string {
    if |parts| == 0 then ""
    else if |parts| == 1 then parts[0]
    else parts[0] + [sep] + Join(parts[1..], sep)
  }

  /** Splitting a joined text gives the pieces back, as long as none of them
      contains the separator. */
  lemma {:induction false} SplitJoin(parts: seq<string>, sep: char)
    requires |parts| >= 1
    requires forall i :: 0 <= i < |parts| ==> sep !in parts[i]
    ensures Split(Join(parts, sep), sep) == parts
  {
    if |parts| > 1 {
      var s := Join(parts, sep);
      var tail := Join(parts[1..], sep);
      assert s == parts[0] + [sep] + tail;
      assert sep in s by { assert s[|parts[0]|] == sep; }
      IndexOfAfter(parts[0], sep, tail);
      assert s[..|parts[0]|] == parts[0];
      assert s[|parts[0]| + 1..] == tail;
      SplitJoin(parts[1..], sep);
    }
  }

  lemma IndexOfAfter(a: string, c: char, b: string)
    requires c !in a
    ensures c in a + [c] + b && IndexOf(a + [c] + b, c) == |a|
  {
    var s := a + [c] + b;
    assert s[|a|] == c;
    assert s[..|a|] == a;
    assert s[..|a| + 1] == a + [c];
    var i := IndexOf(s, c);
    assert i <= |a| by {
      assert s[..|a| + 1] <= s[..i] || s[..i] <= s[..|a| + 1];
    }
  }

  predicate StartsWith(s: string, prefix: string) {
    |prefix| <= |s| && s[..|prefix|] == prefix
  }

  predicate EndsWith(s: string, suffix: string) {
    |suffix| <= |s| && s[|s| - |suffix|..] == suffix
  }

  /** Python's slice `s[start:-fromEnd]` for `fromEnd >= 1`: both bounds are clamped
      to the string, and a start at or after the end gives the empty string. */
  function SliceToEnd(s: string, start: nat, fromEnd: nat): (r: string)
    requires fromEnd >= 1
    ensures start + fromEnd <= |s| ==> r == s[start..|s| - fromEnd]
    ensures start + fromEnd >= |s| ==> r == ""
  {
    var stop := if fromEnd <= |s| then |s| - fromEnd else 0;
    if start < stop then s[start..stop] else ""
  }

  /** Python's `s.split('=', 1)` for a line that contains '=': the text before the
      first '=' and the text after it. */
  function SplitAtFirst(s: string, sep: char): (kv: (string, string))
    requires sep in s
    ensures sep !in kv.0
    ensures s == kv.0 + [sep] + kv.1
  {
    var i := IndexOf(s, sep);
    (s[..i], s[i + 1..])
  }

  /** Only the first separator splits: a key free of it is recovered exactly, and the
      value keeps any later separators. */
  lemma SplitAtFirstOfKey(key: string, sep: char, value: string)
    requires sep !in key
    ensures sep in key + [sep] + value
    ensures SplitAtFirst(key + [sep] + value, sep) == (key, value)
  {
    IndexOfAfter(key, sep, value);
    var s := key + [sep] + value;
    assert s[..|key|] == key;
    assert s[|key| + 1..] == value;
  }

  // ---- occurrences and Python's str.replace ----

  predicate IsAt(s: string, p: string, i: nat) {
    i + |p| <= |s| && s[i..i + |p|] == p
  }

  /** An occurrence in a suffix is an occurrence in the whole text, shifted. */
  lemma IsAtShift(s: string, d: nat, p: string, k: nat)
    requires d <= |s|
    ensures IsAt(s[d..], p, k) <==> IsAt(s, p, d + k)
  {
    if d + k + |p| <= |s| {
      assert s[d..][k..k + |p|] == s[d + k..d + k + |p|];
    }
  }

  /** Python's `p in s` for strings. */
  predicate Contains(s: string, p: string) {
    exists i: nat :: i <= |s| && IsAt(s, p, i)
  }

  /** Python's `s.replace(p, r)`: scanning from the left, every occurrence of `p` that
      does not overlap one already replaced is replaced by `r`. */
  function Replace(s: string, p: string, r: string): string
    requires |p| > 0
    decreases |s|
  {
    if |s| < |p| then s
    else if s[..|p|] == p then r + Replace(s[|p|..], p, r)
    else [s[0]] + Replace(s[1..], p, r)
  }

  /** A text without the pattern is left as it is. */
  lemma {:induction false} ReplaceAbsent(s: string, p: string, r: string)
    requires |p| > 0 && !Contains(s, p)
    ensures Replace(s, p, r) == s
    decreases |s|
  {
    if |s| >= |p| {
      assert !IsAt(s, p, 0);
      forall i: nat | i <= |s[1..]| ensures !IsAt(s[1..], p, i) {
        IsAtShift(s, 1, p, i);
        assert !IsAt(s, p, 1 + i);
      }
      ReplaceAbsent(s[1..], p, r);
    }
  }

  /** Dropping the first character moves the first occurrence one place to the left. */
  lemma FirstOccurrenceShift(s: string, p: string, i: nat)
    requires 0 < i && IsAt(s, p, i)
    requires forall k: nat :: k < i ==> !IsAt(s, p, k)
    ensures IsAt(s[1..], p, i - 1)
    ensures forall k: nat :: k < i - 1 ==> !IsAt(s[1..], p, k)
  {
    IsAtShift(s, 1, p, i - 1);
    forall k: nat | k < i - 1 ensures !IsAt(s[1..], p, k) {
      IsAtShift(s, 1, p, k);
      assert !IsAt(s, p, 1 + k);
    }
  }

  /** At an occurrence, the replacement is emitted and the scan skips the pattern. */
  lemma ReplaceHit(s: string, p: string, r: string)
    requires |p| > 0 && IsAt(s, p, 0)
    ensures Replace(s, p, r) == r + Replace(s[|p|..], p, r)
  {
    assert s[..|p|] == s[0..|p|];
  }

  /** Away from an occurrence, the first character is kept and the scan moves on. */
  lemma ReplaceSkip(s: string, p: string, r: string)
    requires 0 < |p| <= |s| && !IsAt(s, p, 0)
    ensures Replace(s, p, r) == [s[0]] + Replace(s[1..], p, r)
  {
    assert s[..|p|] == s[0..|p|];
  }

  /** Keeping the first character in front of a text that keeps its first `i - 1`
      characters keeps the first `i` characters. */
  lemma KeptPrefix(s: string, i: nat, r: string, whole: string, tail: string, rest: string)
    requires 0 < i <= |s|
    requires whole == [s[0]] + tail
    requires tail == s[1..][..i - 1] + r + rest
    ensures whole == s[..i] + r + rest
  {
    assert [s[0]] + s[1..][..i - 1] == s[..i];
  }

  /** The first occurrence, at `i`, is replaced, the text before it is kept, and the
      scan resumes right after it. */
  lemma {:induction false} ReplaceFirst(s: string, p: string, r: string, i: nat)
    requires |p| > 0 && IsAt(s, p, i)
    requires forall k: nat :: k < i ==> !IsAt(s, p, k)
    ensures Replace(s, p, r) == s[..i] + r + Replace(s[i + |p|..], p, r)
    decreases i
  {
    if i == 0 {
      ReplaceHit(s, p, r);
      assert s[..0] == [];
    } else {
      var t := s[1..];
      FirstOccurrenceShift(s, p, i);
      ReplaceFirst(t, p, r, i - 1);
      ReplaceSkip(s, p, r);
      assert t[i - 1 + |p|..] == s[i + |p|..];
      KeptPrefix(s, i, r, Replace(s, p, r), Replace(t, p, r), Replace(s[i + |p|..], p, r));
    }
  }

  /** A text with exactly one occurrence of the pattern gets that occurrence replaced
      and nothing else changed. */
  lemma ReplaceSingle(s: string, p: string, r: string, i: nat)
    requires |p| > 0 && IsAt(s, p, i)
    requires forall k: nat :: k != i ==> !IsAt(s, p, k)
    ensures Replace(s, p, r) == s[..i] + r + s[i + |p|..]
  {
    ReplaceFirst(s, p, r, i);
    var rest := s[i + |p|..];
    forall k: nat | k <= |rest| ensures !IsAt(rest, p, k) {
      IsAtShift(s, i + |p|, p, k);
      assert !IsAt(s, p, i + |p| + k);
    }
    ReplaceAbsent(rest, p, r);
  }

  // ---- decimal rendering ----

  predicate IsDigit(c: char) {
    '0' <= c <= '9'
  }

  function DigitChar(d: nat): (c: char)
    requires d < 10
    ensures IsDigit(c) && c as int - '0' as int == d
  {
    ('0' as int + d) as char
  }

  /** The decimal digits of `n`, without leading zeros: `%d` and `str()` of a natural. */
  function NatToString(n: nat): (s: string)
    ensures |s| >= 1
    ensures forall i :: 0 <= i < |s| ==> IsDigit(s[i])
  {
    if n < 10 then [DigitChar(n)] else NatToString(n / 10) + [DigitChar(n % 10)]
  }

  /** The number a string of decimal digits denotes. */
  function DigitsValue(s: string): nat
    requires forall i :: 0 <= i < |s| ==> IsDigit(s[i])
  {
    if s == [] then 0
    else
      assert IsDigit(s[|s| - 1]);
      DigitsValue(s[..|s| - 1]) * 10 + (s[|s| - 1] as int - '0' as int)
  }

  /** Reading the digits back gives the number: the rendering loses nothing. */
  lemma {:induction false} NatToStringValue(n: nat)
    ensures DigitsValue(NatToString(n)) == n
  {
    if n >= 10 {
      var s := NatToString(n);
      assert s[..|s| - 1] == NatToString(n / 10);
      NatToStringValue(n / 10);
    }
  }

  /** Different numbers render as different strings. */
  lemma NatToStringInjective(a: nat, b: nat)
    requires NatToString(a) == NatToString(b)
    ensures a == b
  {
    NatToStringValue(a);
    NatToStringValue(b);
  }

  /** `printf("%d", x)` and `str(x)`: a minus sign before the digits of a negative number. */
  function IntToString(x: int): (s: string)
    ensures |s| >= 1 && IsDigit(s[|s| - 1])
    ensures '\n' !in s && '\r' !in s
  {
    if x < 0 then "-" + NatToString(-x) else NatToString(x)
  }

  /** Dropping the last element of a longer prefix leaves the shorter prefix. */
  lemma PrefixOfPrefix<T>(s: seq<T>, i: nat)
    requires i < |s|
    ensures s[..i + 1][..i] == s[..i]
  {
  }

  /** Concatenation is associative. */
  lemma ConcatAssoc<T>(x: seq<T>, y: seq<T>, z: seq<T>)
    ensures (x + y) + z == x + (y + z)
  {
  }
}
