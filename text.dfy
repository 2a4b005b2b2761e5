/** The Python string operations the modelled code relies on: strip, split,
    join, replace, substring tests, str() and int() of integers, left
    justification and posixpath.dirname. Strings are sequences of Unicode
    code points, as Python 3 strings are. */
module Text {
  import opened Wrappers

  /** The characters for which Python's str.isspace() holds; str.strip()
      without an argument removes exactly these from both ends. */
  predicate IsSpace(c: char) {
    || c == ' ' || c == '\t' || c == '\n' || c == '\r' || c == '\U{b}' || c == '\U{c}'
    || ('\U{1c}' <= c <= '\U{1f}')
    || c == '\U{85}' || c == '\U{a0}' || c == '\U{1680}'
    || ('\U{2000}' <= c <= '\U{200a}')
    || c == '\U{2028}' || c == '\U{2029}' || c == '\U{202f}' || c == '\U{205f}' || c == '\U{3000}'
  }

  predicate IsDigit(c: char) {
    '0' <= c <= '9'
  }

  function DigitValue(c: char): nat
    requires IsDigit(c)
  {
    c as int - '0' as int
  }

  function DigitChar(d: nat): (c: char)
    requires d < 10
    ensures IsDigit(c) && DigitValue(c) == d
  {
    ('0' as int + d) as char
  }

  // ---------------------------------------------------------------------
  // strip

  /** s with its leading whitespace removed (str.lstrip()). */
  function LStrip(s: string): (r: string)
    ensures |r| <= |s|
  {
    if s != [] && IsSpace(s[0]) then LStrip(s[1..]) else s
  }

  /** lstrip() keeps a suffix that does not begin with a space and removes
      only spaces. */
  lemma {:induction false} LStripSuffix(s: string)
    ensures var r := LStrip(s);
      && r == s[|s| - |r|..]
      && (r == [] || !IsSpace(r[0]))
      && (forall i :: 0 <= i < |s| - |r| ==> IsSpace(s[i]))
  {
    if s != [] && IsSpace(s[0]) {
      LStripSuffix(s[1..]);
    }
  }

  /** s with its trailing whitespace removed (str.rstrip()). */
  function RStrip(s: string): (r: string)
    ensures |r| <= |s|
  {
    if s != [] && IsSpace(s[|s| - 1]) then RStrip(s[..|s| - 1]) else s
  }

  /** rstrip() keeps a prefix that does not end with a space and removes
      only spaces. */
  lemma {:induction false} RStripPrefix(s: string)
    ensures var r := RStrip(s);
      && r == s[..|r|]
      && (r == [] || !IsSpace(r[|r| - 1]))
      && (forall i :: |r| <= i < |s| ==> IsSpace(s[i]))
  {
    if s != [] && IsSpace(s[|s| - 1]) {
      RStripPrefix(s[..|s| - 1]);
    }
  }

  /** str.strip(): both ends. */
  function Strip(s: string): string {
    RStrip(LStrip(s))
  }

  /** The result of strip is a contiguous slice of the input, begins and
      ends with a non-space character, and everything cut off was space. */
  lemma {:induction false} StripIsMaximalSlice(s: string)
    ensures var i, r := |s| - |LStrip(s)|, Strip(s);
      && i + |r| <= |s| && r == s[i..i + |r|]
      && (forall j :: 0 <= j < i ==> IsSpace(s[j]))
      && (forall j :: i + |r| <= j < |s| ==> IsSpace(s[j]))
  {
    var l := LStrip(s);
    var r := RStrip(l);
    LStripSuffix(s);
    RStripPrefix(l);
    var i := |s| - |l|;
    assert r == s[i..i + |r|];
    forall j | i + |r| <= j < |s| ensures IsSpace(s[j]) {
      assert s[j] == l[j - i];
    }
  }

  /** A non-empty result of strip begins and ends with a non-space character. */
  lemma {:induction false} StripEndsAreNonSpace(s: string)
    ensures var r := Strip(s); r == [] || (!IsSpace(r[0]) && !IsSpace(r[|r| - 1]))
  {
    var l := LStrip(s);
    var r := RStrip(l);
    LStripSuffix(s);
    RStripPrefix(l);
    if r != [] {
      assert l != [] && r[0] == l[0];
    }
  }

  lemma {:induction false} LStripOfNonSpaceStart(s: string)
    requires s == [] || !IsSpace(s[0])
    ensures LStrip(s) == s
  {
  }

  lemma {:induction false} RStripOfNonSpaceEnd(s: string)
    requires s == [] || !IsSpace(s[|s| - 1])
    ensures RStrip(s) == s
  {
  }

  /** Stripping twice is stripping once. */
  lemma {:induction false} StripIdempotent(s: string)
    ensures Strip(Strip(s)) == Strip(s)
  {
    var r := Strip(s);
    StripEndsAreNonSpace(s);
    LStripOfNonSpaceStart(r);
    RStripOfNonSpaceEnd(r);
  }

  // ---------------------------------------------------------------------
  // split and join on a one-character separator

  /** s.split(sep) for a one-character separator: the maximal runs of
      non-separator text, always at least one (''.split(',') == ['']). */
  function Split(s: string, sep: char): (r: seq<string>)
    ensures |r| >= 1
  {
    if s == [] then
      [""]
    else
      var rest := Split(s[1..], sep);
      if s[0] == sep then [""] + rest else [[s[0]] + rest[0]] + rest[1..]
  }

  /** No piece of a split contains the separator. */
  lemma {:induction false} SplitPiecesLackSeparator(s: string, sep: char)
    ensures forall i :: 0 <= i < |Split(s, sep)| ==> sep !in Split(s, sep)[i]
  {
    if s != [] {
      SplitPiecesLackSeparator(s[1..], sep);
      var rest := Split(s[1..], sep);
      if s[0] != sep {
        var r := [[s[0]] + rest[0]] + rest[1..];
        forall i | 0 <= i < |r| ensures sep !in r[i] {
          if i > 0 {
            assert r[i] == rest[i];
          }
        }
      }
    }
  }

  /** sep.join(xs) for a non-empty separator or an empty one. */
  function Join(xs: seq<string>, sep: string): string {
    if |xs| == 0 then ""
    else if |xs| == 1 then xs[0]
    else xs[0] + sep + Join(xs[1..], sep)
  }

  /** Joining the pieces of a split with the separator gives the string back. */
  lemma {:induction false} JoinSplit(s: string, sep: char)
    ensures Join(Split(s, sep), [sep]) == s
  {
    if s != [] {
      JoinSplit(s[1..], sep);
      var rest := Split(s[1..], sep);
      if s[0] == sep {
        assert Join([""] + rest, [sep]) == "" + [sep] + Join(rest, [sep]);
      } else {
        var parts := [[s[0]] + rest[0]] + rest[1..];
        if |rest| == 1 {
          assert Join(parts, [sep]) == [s[0]] + rest[0];
        } else {
          assert parts[1..] == rest[1..];
          assert Join(rest, [sep]) == rest[0] + [sep] + Join(rest[1..], [sep]);
        }
      }
    }
  }

  /** Splitting a join of separator-free pieces gives the pieces back. */
  lemma {:induction false} SplitJoin(xs: seq<string>, sep: char)
    requires |xs| >= 1
    requires forall i :: 0 <= i < |xs| ==> sep !in xs[i]
    ensures Split(Join(xs, [sep]), sep) == xs
  {
    if |xs| == 1 {
      SplitWithoutSeparator(xs[0], sep);
    } else {
      SplitJoin(xs[1..], sep);
      SplitConcat(xs[0], Join(xs[1..], [sep]), sep);
      assert Join(xs, [sep]) == xs[0] + [sep] + Join(xs[1..], [sep]);
      assert [xs[0]] + xs[1..] == xs;
    }
  }

  lemma {:induction false} SplitWithoutSeparator(s: string, sep: char)
    requires sep !in s
    ensures Split(s, sep) == [s]
  {
    if s != [] {
      SplitWithoutSeparator(s[1..], sep);
      assert [s[0]] + s[1..] == s;
    }
  }

  /** A separator-free prefix followed by the separator splits off as one piece. */
  lemma {:induction false} SplitConcat(a: string, b: string, sep: char)
    requires sep !in a
    ensures Split(a + [sep] + b, sep) == [a] + Split(b, sep)
  {
    if a == [] {
      assert a + [sep] + b == [sep] + b;
      assert ([sep] + b)[1..] == b;
    } else {
      SplitConcat(a[1..], b, sep);
      assert (a + [sep] + b)[1..] == a[1..] + [sep] + b;
      assert [a[0]] + a[1..] == a;
    }
  }

  /** The last piece of a join is a suffix of it. */
  lemma {:induction false} JoinEndsWithLast(xs: seq<string>, sep: string)
    requires |xs| >= 1
    ensures EndsWith(Join(xs, sep), xs[|xs| - 1])
  {
    if |xs| > 1 {
      JoinEndsWithLast(xs[1..], sep);
      var j := Join(xs[1..], sep);
      var w := xs[|xs| - 1];
      assert xs[0] + sep + j == (xs[0] + sep) + j;
      assert (xs[0] + sep + j)[|xs[0] + sep + j| - |w|..] == j[|j| - |w|..];
    }
  }

  /** Joining two non-empty lists joins their joins with one separator. */
  lemma {:induction false} JoinAppend(xs: seq<string>, ys: seq<string>, sep: string)
    requires |xs| >= 1 && |ys| >= 1
    ensures Join(xs + ys, sep) == Join(xs, sep) + sep + Join(ys, sep)
  {
    if |xs| == 1 {
      assert (xs + ys)[1..] == ys;
    } else {
      JoinAppend(xs[1..], ys, sep);
      assert (xs + ys)[1..] == xs[1..] + ys;
    }
  }

  // ---------------------------------------------------------------------
  // prefixes, suffixes, substrings

  predicate StartsWith(s: string, prefix: string) {
    |prefix| <= |s| && s[..|prefix|] == prefix
  }

  predicate EndsWith(s: string, suffix: string) {
    |suffix| <= |s| && s[|s| - |suffix|..] == suffix
  }

  /** `sub in s`: sub occurs at some position of s. */
  predicate Contains(s: string, sub: string)
  {
    StartsWith(s, sub) || (s != [] && Contains(s[1..], sub))
  }

  // ---------------------------------------------------------------------
  // replace

  /** s.replace(pattern, replacement): every occurrence of pattern, found left to right
      without overlapping, is replaced by replacement; an empty pattern inserts replacement
      before every character and at the end. */
  function Replace(s: string, pattern: string, replacement: string): string
    decreases |s|, |pattern|
  {
    if pattern == [] then
      if s == [] then replacement else replacement + [s[0]] + Replace(s[1..], pattern, replacement)
    else if |s| < |pattern| then
      s
    else if s[..|pattern|] == pattern then
      replacement + Replace(s[|pattern|..], pattern, replacement)
    else
      [s[0]] + Replace(s[1..], pattern, replacement)
  }

  /** Replacing a single character c by text that does not contain c leaves
      no c behind, and every other character is kept in order. */
  lemma {:induction false} ReplaceCharRemovesIt(s: string, c: char, replacement: string)
    requires c !in replacement
    ensures c !in Replace(s, [c], replacement)
    ensures replacement == [] ==> Replace(s, [c], replacement) == Without(s, c)
  {
    if s != [] {
      ReplaceCharRemovesIt(s[1..], c, replacement);
      if s[0] == c {
        assert s[..1] == [c];
      } else {
        assert s[..1] != [c];
      }
    }
  }

  /** s with every occurrence of c deleted. */
  function Without(s: string, c: char): (r: string)
    ensures c !in r && |r| <= |s|
  {
    if s == [] then [] else (if s[0] == c then [] else [s[0]]) + Without(s[1..], c)
  }

  /** Replacing text that does not occur changes nothing. */
  lemma {:induction false} ReplaceAbsent(s: string, pattern: string, replacement: string)
    requires pattern != [] && !Contains(s, pattern)
    ensures Replace(s, pattern, replacement) == s
  {
    if |s| >= |pattern| {
      ReplaceAbsent(s[1..], pattern, replacement);
      assert [s[0]] + s[1..] == s;
    }
  }

  /** A character found neither in s nor in the replacement does not appear
      after replacing. */
  lemma {:induction false} ReplaceKeepsCharOut(s: string, pattern: string, replacement: string, c: char)
    requires c !in s && c !in replacement
    ensures c !in Replace(s, pattern, replacement)
    decreases |s|
  {
    if pattern == [] {
      if s != [] {
        ReplaceKeepsCharOut(s[1..], pattern, replacement, c);
      }
    } else if |s| >= |pattern| {
      if s[..|pattern|] == pattern {
        ReplaceKeepsCharOut(s[|pattern|..], pattern, replacement, c);
      } else {
        ReplaceKeepsCharOut(s[1..], pattern, replacement, c);
      }
    }
  }

  // ---------------------------------------------------------------------
  // str() and int() of integers

  /** The decimal digits of n, most significant first, without leading zeros. */
  function NatToString(n: nat): (r: string)
    ensures |r| >= 1 && (forall i :: 0 <= i < |r| ==> IsDigit(r[i]))
    ensures DecimalValue(r) == n
  {
    if n < 10 then [DigitChar(n)]
    else
      var r := NatToString(n / 10) + [DigitChar(n % 10)];
      assert r[..|r| - 1] == NatToString(n / 10);
      r
  }

  /** str(i) for a Python int. */
  function IntToString(i: int): string {
    if i < 0 then "-" + NatToString(-i) else NatToString(i)
  }

  /** The value of a string of decimal digits, ignoring '_' separators. */
  function DecimalValue(d: string): nat
    requires forall i :: 0 <= i < |d| ==> IsDigit(d[i]) || d[i] == '_'
  {
    if d == [] then 0
    else if d[|d| - 1] == '_' then DecimalValue(d[..|d| - 1])
    else 10 * DecimalValue(d[..|d| - 1]) + DigitValue(d[|d| - 1])
  }

  /** The digit strings int() accepts: digits, with single underscores only
      between two digits. */
  predicate WellFormedDigits(d: string) {
    && |d| > 0 && IsDigit(d[0]) && IsDigit(d[|d| - 1])
    && (forall i :: 0 <= i < |d| ==> IsDigit(d[i]) || d[i] == '_')
    && (forall i :: 0 <= i < |d| - 1 ==> d[i] == '_' ==> d[i + 1] != '_')
  }

  /** int(s) on a str: surrounding whitespace, an optional sign, then
      well-formed ASCII digits; any other text is None here, standing for
      ValueError. Python also accepts the other Unicode decimal digits,
      which this definition rejects. */
  function ParseInt(s: string): (r: Option<int>)
    ensures r.Some? ==> exists t :: t == Strip(s) && |t| > 0
  {
    var t := Strip(s);
    if |t| > 0 && (t[0] == '-' || t[0] == '+') then
      var d := t[1..];
      if WellFormedDigits(d) then
        var n: int := DecimalValue(d);
        Some(if t[0] == '-' then -n else n)
      else None
    else if WellFormedDigits(t) then Some(DecimalValue(t))
    else None
  }

  /** int(str(i)) == i. */
  lemma IntToStringRoundTrip(i: int)
    ensures ParseInt(IntToString(i)) == Some(i)
  {
    var s := IntToString(i);
    IntToStringIsStripped(i);
    if i < 0 {
      assert s[1..] == NatToString(-i);
      NatToStringIsWellFormed(-i);
    } else {
      NatToStringIsWellFormed(i);
    }
  }

  /** A non-empty run of decimal digits, as `[0-9]+` matches. */
  predicate DigitRun(s: string) {
    |s| > 0 && forall i :: 0 <= i < |s| ==> IsDigit(s[i])
  }

  /** int() accepts a run of digits and reads it as its decimal value. */
  lemma DigitRunParses(s: string)
    requires DigitRun(s)
    ensures ParseInt(s) == Some(DecimalValue(s))
  {
    assert IsDigit(s[0]) && IsDigit(s[|s| - 1]);
    LStripOfNonSpaceStart(s);
    RStripOfNonSpaceEnd(s);
  }

  /** str(i) has no surrounding whitespace. */
  lemma IntToStringIsStripped(i: int)
    ensures Strip(IntToString(i)) == IntToString(i)
  {
    var s := IntToString(i);
    assert !IsSpace(s[0]) && !IsSpace(s[|s| - 1]);
    LStripOfNonSpaceStart(s);
    RStripOfNonSpaceEnd(s);
  }

  /** str(n) of a natural number is digits that int() accepts. */
  lemma NatToStringIsWellFormed(n: nat)
    ensures WellFormedDigits(NatToString(n))
  {
  }

  // ---------------------------------------------------------------------
  // formatting and paths

  function Spaces(n: nat): (r: string)
    ensures |r| == n && forall i :: 0 <= i < n ==> r[i] == ' '
  {
    if n == 0 then "" else " " + Spaces(n - 1)
  }

  /** format(s, "<w"): s padded on the right with spaces to width w; a longer
      s is kept whole. */
  function LeftJustify(s: string, width: nat): (r: string)
    ensures |r| == if |s| < width then width else |s|
    ensures r[..|s|] == s
    ensures forall i :: |s| <= i < |r| ==> r[i] == ' '
  {
    if |s| < width then s + Spaces(width - |s|) else s
  }

  /** s with trailing occurrences of c removed (str.rstrip(c)). */
  function RStripChar(s: string, c: char): (r: string)
    ensures |r| <= |s|
  {
    if s != [] && s[|s| - 1] == c then RStripChar(s[..|s| - 1], c) else s
  }

  /** s.rstrip(c) keeps a prefix that does not end in c and removes only c. */
  lemma {:induction false} RStripCharPrefix(s: string, c: char)
    ensures var r := RStripChar(s, c);
      && r == s[..|r|]
      && (r == [] || r[|r| - 1] != c)
      && (forall i :: |r| <= i < |s| ==> s[i] == c)
  {
    if s != [] && s[|s| - 1] == c {
      RStripCharPrefix(s[..|s| - 1], c);
    }
  }

  /** The index just after the last '/' of p, or 0 when there is none
      (p.rfind('/') + 1). */
  function AfterLastSlash(p: string): (i: nat)
    ensures i <= |p|
  {
    if p == [] then 0
    else if p[|p| - 1] == '/' then |p|
    else AfterLastSlash(p[..|p| - 1])
  }

  /** The index follows a '/' and no '/' comes after it. */
  lemma {:induction false} AfterLastSlashIsLast(p: string)
    ensures var i := AfterLastSlash(p);
      && (i > 0 ==> p[i - 1] == '/')
      && (forall j :: i <= j < |p| ==> p[j] != '/')
  {
    if p != [] && p[|p| - 1] != '/' {
      AfterLastSlashIsLast(p[..|p| - 1]);
    }
  }

  /** posixpath.dirname(p): everything before the last '/', with trailing
      slashes dropped unless the head consists of slashes only. */
  function Dirname(p: string): (r: string)
    ensures |r| <= |p|
  {
    var head := p[..AfterLastSlash(p)];
    if head != [] && exists j :: 0 <= j < |head| && head[j] != '/' then RStripChar(head, '/') else head
  }

  /** The directory is a prefix of the path, what follows it is slashes and
      then a name without a slash, and it ends in '/' only when it is all
      slashes. */
  lemma DirnameSplitsPath(p: string)
    ensures var r := Dirname(p);
      && StartsWith(p, r)
      && BaseAfterSlashes(p[|r|..])
      && (r != [] && r[|r| - 1] == '/' ==> forall j :: 0 <= j < |r| ==> r[j] == '/')
  {
    DirnameIsPrefix(p);
    DirnameLeavesBase(p);
    DirnameEndsInSlashOnlyWhenAllSlashes(p);
  }

  lemma DirnameIsPrefix(p: string)
    ensures StartsWith(p, Dirname(p))
  {
    var head := p[..AfterLastSlash(p)];
    if head != [] && exists j :: 0 <= j < |head| && head[j] != '/' {
      RStripCharPrefix(head, '/');
    }
  }

  lemma DirnameLeavesBase(p: string)
    ensures BaseAfterSlashes(p[|Dirname(p)|..])
  {
    AfterLastSlashIsLast(p);
    var i := AfterLastSlash(p);
    var head := p[..i];
    if head != [] && exists j :: 0 <= j < |head| && head[j] != '/' {
      var r := RStripChar(head, '/');
      RStripCharPrefix(head, '/');
      assert forall j :: |r| <= j < i ==> p[j] == head[j];
      SlashesThenName(p, |r|, i);
    } else {
      SlashesThenName(p, i, i);
    }
  }

  /** From a, slashes up to b and no slash after b. */
  lemma SlashesThenName(p: string, a: nat, b: nat)
    requires a <= b <= |p|
    requires forall j :: a <= j < b ==> p[j] == '/'
    requires forall j :: b <= j < |p| ==> p[j] != '/'
    ensures BaseAfterSlashes(p[a..])
  {
    var s := p[a..];
    forall j | 0 <= j < |s| && s[j] != '/'
      ensures '/' !in s[j..]
    {
      assert forall m :: 0 <= m < |s[j..]| ==> s[j..][m] == p[a + j + m];
    }
  }

  lemma DirnameEndsInSlashOnlyWhenAllSlashes(p: string)
    ensures var r := Dirname(p);
      r != [] && r[|r| - 1] == '/' ==> forall j :: 0 <= j < |r| ==> r[j] == '/'
  {
    var head := p[..AfterLastSlash(p)];
    if head != [] && exists j :: 0 <= j < |head| && head[j] != '/' {
      RStripCharPrefix(head, '/');
      var r := RStripChar(head, '/');
      var k :| 0 <= k < |head| && head[k] != '/';
      assert k < |r|;
    }
  }

  /** s is a run of slashes followed by a name containing no slash. */
  predicate BaseAfterSlashes(s: string) {
    forall j :: 0 <= j < |s| && s[j] != '/' ==> '/' !in s[j..]
  }

  /** os.path.join(a, b) for a relative b: b itself when a is empty, a + b
      when a already ends with '/', a + '/' + b otherwise. */
  function PathJoin(a: string, b: string): (r: string)
    requires b == [] || b[0] != '/'
    ensures EndsWith(r, b) && StartsWith(r, a)
  {
    if a == [] then b
    else if a[|a| - 1] == '/' then a + b
    else a + "/" + b
  }
}
