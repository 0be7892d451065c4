/**
  The string library calls the command relies on, as PHP 8 defines them on
  byte strings: character classes of PCRE without the `u` flag, ASCII case
  folding, `explode`, `trim`, `str_replace`, integer-to-string conversion and
  the truthiness of strings.
*/
module Text {

  /// Character classes (PCRE `\w`, `\s`, `\d`, ASCII letters)

  predicate IsWordChar(c: char) {
    ('a' <= c <= 'z') || ('A' <= c <= 'Z') || ('0' <= c <= '9') || c == '_'
  }

  predicate IsLetter(c: char) {
    ('a' <= c <= 'z') || ('A' <= c <= 'Z')
  }

  predicate IsDigit(c: char) {
    '0' <= c <= '9'
  }

  /** PCRE2's `\s`: space, tab, line feed, vertical tab, form feed, carriage return. */
  predicate IsSpace(c: char) {
    c == ' ' || c == '\t' || c == '\n' || c == '\U{B}' || c == '\U{C}' || c == '\r'
  }

  predicate IsWord(s: string) {
    |s| > 0 && forall i :: 0 <= i < |s| ==> IsWordChar(s[i])
  }

  predicate IsDigits(s: string) {
    |s| > 0 && forall i :: 0 <= i < |s| ==> IsDigit(s[i])
  }

  /** PHP's notion of an "empty" string: `""` and `"0"` are both falsy. */
  predicate PhpEmpty(s: string) {
    s == "" || s == "0"
  }

  /// Runs of one character class, as a greedy PCRE quantifier consumes them

  /** The classes `\w`, `\s`, `\d` and `\S`. */
  datatype CharClass = Word | Space | Digit | NonSpace

  predicate InClass(c: char, k: CharClass) {
    match k
    case Word => IsWordChar(c)
    case Space => IsSpace(c)
    case Digit => IsDigit(c)
    case NonSpace => !IsSpace(c)
  }

  /** Length of the longest run of `inClass` characters starting at `i`. */
  function RunLength(s: string, i: nat, inClass: CharClass): (n: nat)
    requires i <= |s|
    ensures i + n <= |s|
    ensures i + n == |s| || !InClass(s[i + n], inClass)
    decreases |s| - i
  {
    if i < |s| && InClass(s[i], inClass) then 1 + RunLength(s, i + 1, inClass) else 0
  }

  /** Every character of a run is in the class (kept apart from `RunLength` so that it is used only where needed). */
  lemma {:induction false} RunLengthClass(s: string, i: nat, inClass: CharClass)
    requires i <= |s|
    ensures forall k :: i <= k < i + RunLength(s, i, inClass) ==> InClass(s[k], inClass)
    decreases |s| - i
  {
    if i < |s| && InClass(s[i], inClass) {
      RunLengthClass(s, i + 1, inClass);
    }
  }

  /** A maximal run is determined by its two ends. */
  lemma {:induction false} RunLengthExact(s: string, i: nat, inClass: CharClass, n: nat)
    requires i + n <= |s|
    requires forall k :: i <= k < i + n ==> InClass(s[k], inClass)
    requires i + n == |s| || !InClass(s[i + n], inClass)
    ensures RunLength(s, i, inClass) == n
    decreases n
  {
    if n > 0 {
      assert InClass(s[i], inClass);
      RunLengthExact(s, i + 1, inClass, n - 1);
    }
  }

  /// ASCII case folding (PHP 8 `strtoupper`, PCRE's `i` flag)

  function Upper(c: char): (u: char)
    ensures IsLetter(c) ==> 'A' <= u <= 'Z'
    ensures !('a' <= c <= 'z') ==> u == c
  {
    if 'a' <= c <= 'z' then (c as int - 32) as char else c
  }

  function UpperStr(s: string): (r: string)
    ensures |r| == |s|
    ensures forall i :: 0 <= i < |s| ==> r[i] == Upper(s[i])
  {
    seq(|s|, i requires 0 <= i < |s| => Upper(s[i]))
  }

  /**
    `strtoupper` leaves no lower-case letter, keeps every other character,
    and changes nothing the second time.
  */
  lemma {:induction false} UpperStrIdempotent(s: string)
    ensures forall i :: 0 <= i < |s| ==> !('a' <= UpperStr(s)[i] <= 'z')
    ensures forall i :: 0 <= i < |s| && !('a' <= s[i] <= 'z') ==> UpperStr(s)[i] == s[i]
    ensures UpperStr(UpperStr(s)) == UpperStr(s)
  {
    var u := UpperStr(s);
    var v := UpperStr(u);
    forall i | 0 <= i < |s| ensures v[i] == u[i] {
      assert !('a' <= u[i] <= 'z');
    }
  }

  /** `pat` occurs at position `i` of `s`, ignoring ASCII case. */
  predicate MatchesCIAt(s: string, i: nat, pat: string) {
    i + |pat| <= |s| && UpperStr(s[i..i + |pat|]) == UpperStr(pat)
  }

  /** `pat` occurs anywhere in `s`, ignoring ASCII case. */
  predicate ContainsCI(s: string, pat: string) {
    exists i :: 0 <= i <= |s| - |pat| && MatchesCIAt(s, i, pat)
  }

  /** An occurrence of a longer word contains an occurrence of its tail. */
  lemma MatchesCIAtTail(s: string, i: nat, pat: string, j: nat)
    requires j <= |pat|
    requires MatchesCIAt(s, i, pat)
    ensures MatchesCIAt(s, i + j, pat[j..])
  {
    var a := UpperStr(s[i + j..i + j + |pat[j..]|]);
    var b := UpperStr(pat[j..]);
    forall k | 0 <= k < |b| ensures a[k] == b[k] {
      assert UpperStr(s[i..i + |pat|])[j + k] == UpperStr(pat)[j + k];
    }
  }

  /// `explode` and `implode` on one separator character

  /** PHP `explode(sep, s)` for a one-character separator. */
  function Split(s: string, sep: char): (parts: seq<string>)
    ensures |parts| >= 1
    ensures forall i :: 0 <= i < |parts| ==> sep !in parts[i]
    decreases |s|
  {
    if s == [] then [[]]
    else
      var rest := Split(s[1..], sep);
      if s[0] == sep then [[]] + rest
      else [[s[0]] + rest[0]] + rest[1..]
  }

  /** PHP `implode(sep, parts)`. */
  function Join(parts: seq<string>, sep: char): string
    decreases |parts|
  {
    if parts == [] then []
    else if |parts| == 1 then parts[0]
    else parts[0] + [sep] + Join(parts[1..], sep)
  }

  /** Joining the pieces of `explode` gives the text back. */
  lemma {:induction false} JoinSplit(s: string, sep: char)
    ensures Join(Split(s, sep), sep) == s
    decreases |s|
  {
    if s != [] {
      var rest := Split(s[1..], sep);
      JoinSplit(s[1..], sep);
      if s[0] == sep {
        assert Split(s, sep)[1..] == rest;
      } else {
        var parts := Split(s, sep);
        if |rest| == 1 {
          assert parts == [[s[0]] + rest[0]];
        } else {
          assert parts[1..] == rest[1..];
          assert Join(rest, sep) == rest[0] + [sep] + Join(rest[1..], sep);
          assert Join(parts, sep) == [s[0]] + rest[0] + [sep] + Join(rest[1..], sep);
        }
      }
    }
  }

  lemma {:induction false} SplitNoSeparator(s: string, sep: char)
    requires sep !in s
    ensures Split(s, sep) == [s]
    decreases |s|
  {
    if s != [] {
      assert sep !in s[1..];
      SplitNoSeparator(s[1..], sep);
      assert [s[0]] + s[1..] == s;
    }
  }

  lemma {:induction false} SplitAfterPiece(p: string, sep: char, t: string)
    requires sep !in p
    ensures Split(p + [sep] + t, sep) == [p] + Split(t, sep)
    decreases |p|
  {
    if p == [] {
      assert (p + [sep] + t)[1..] == t;
    } else {
      assert (p + [sep] + t)[1..] == p[1..] + [sep] + t;
      assert sep !in p[1..];
      SplitAfterPiece(p[1..], sep, t);
      assert [p[0]] + p[1..] == p;
    }
  }

  /** Splitting a joined list of separator-free pieces gives the pieces back. */
  lemma {:induction false} SplitJoin(parts: seq<string>, sep: char)
    requires |parts| >= 1
    requires forall i :: 0 <= i < |parts| ==> sep !in parts[i]
    ensures Split(Join(parts, sep), sep) == parts
    decreases |parts|
  {
    if |parts| == 1 {
      SplitNoSeparator(parts[0], sep);
    } else {
      SplitJoin(parts[1..], sep);
      SplitAfterPiece(parts[0], sep, Join(parts[1..], sep));
      assert [parts[0]] + parts[1..] == parts;
    }
  }

  /// `trim`

  /** The characters `trim` removes by default, plus the comma (line 229). */
  const LineTrimChars: set<char> := {',', ' ', '\t', '\n', '\r', '\0', '\U{B}'}

  /** Where the run of characters of `cs` that starts at `i` ends. */
  function LeadEnd(s: string, cs: set<char>, i: nat): (j: nat)
    requires i <= |s|
    ensures i <= j <= |s| && (j == |s| || s[j] !in cs)
    decreases |s| - i
  {
    if i < |s| && s[i] in cs then LeadEnd(s, cs, i + 1) else i
  }

  /** Every character of that run is in `cs`. */
  lemma {:induction false} LeadEndIn(s: string, cs: set<char>, i: nat)
    requires i <= |s|
    ensures forall k :: i <= k < LeadEnd(s, cs, i) ==> s[k] in cs
    decreases |s| - i
  {
    if i < |s| && s[i] in cs {
      LeadEndIn(s, cs, i + 1);
    }
  }

  /** Where the run of characters of `cs` that ends at `j` starts. */
  function TrailStart(s: string, cs: set<char>, j: nat): (i: nat)
    requires j <= |s|
    ensures i <= j && (i == 0 || s[i - 1] !in cs)
    decreases j
  {
    if j > 0 && s[j - 1] in cs then TrailStart(s, cs, j - 1) else j
  }

  /** Every character of that run is in `cs`. */
  lemma {:induction false} TrailStartIn(s: string, cs: set<char>, j: nat)
    requires j <= |s|
    ensures forall k :: TrailStart(s, cs, j) <= k < j ==> s[k] in cs
    decreases j
  {
    if j > 0 && s[j - 1] in cs {
      TrailStartIn(s, cs, j - 1);
    }
  }

  function TrimLeft(s: string, cs: set<char>): (r: string)
    ensures |r| <= |s| && r == s[|s| - |r|..]
    ensures forall k :: 0 <= k < |s| - |r| ==> s[k] in cs
    ensures r == [] || r[0] !in cs
  {
    LeadEndIn(s, cs, 0);
    s[LeadEnd(s, cs, 0)..]
  }

  function TrimRight(s: string, cs: set<char>): (r: string)
    ensures |r| <= |s| && r == s[..|r|]
    ensures forall k :: |r| <= k < |s| ==> s[k] in cs
    ensures r == [] || r[|r| - 1] !in cs
  {
    TrailStartIn(s, cs, |s|);
    s[..TrailStart(s, cs, |s|)]
  }

  /** PHP `trim(s, cs)`: the longest infix of `s` that neither starts nor ends with a character of `cs`. */
  function Trim(s: string, cs: set<char>): (r: string)
  {
    TrimRight(TrimLeft(s, cs), cs)
  }

  /** What `trim` keeps is a piece of its input whose surroundings are all trimmed characters. */
  lemma TrimIsInfix(s: string, cs: set<char>) returns (start: nat)
    ensures start + |Trim(s, cs)| <= |s|
    ensures Trim(s, cs) == s[start..start + |Trim(s, cs)|]
    ensures forall k :: 0 <= k < start ==> s[k] in cs
    ensures forall k :: start + |Trim(s, cs)| <= k < |s| ==> s[k] in cs
  {
    var l := TrimLeft(s, cs);
    var r := TrimRight(l, cs);
    assert Trim(s, cs) == r;
    start := |s| - |l|;
    PrefixOfSuffix(s, l, r, cs);
  }

  /** A prefix `r` of a suffix `l` of `s` is an infix of `s`, with what `l` drops after it. */
  lemma PrefixOfSuffix(s: string, l: string, r: string, cs: set<char>)
    requires |l| <= |s| && l == s[|s| - |l|..]
    requires |r| <= |l| && r == l[..|r|]
    requires forall k :: |r| <= k < |l| ==> l[k] in cs
    ensures r == s[|s| - |l|..|s| - |l| + |r|]
    ensures forall k :: |s| - |l| + |r| <= k < |s| ==> s[k] in cs
  {
    var start := |s| - |l|;
    forall k | start + |r| <= k < |s|
      ensures s[k] in cs
    {
      assert s[k] == l[k - start];
    }
  }

  /** What `trim` keeps neither starts nor ends with a trimmed character. */
  lemma TrimEnds(s: string, cs: set<char>)
    ensures Trim(s, cs) == [] || (Trim(s, cs)[0] !in cs && Trim(s, cs)[|Trim(s, cs)| - 1] !in cs)
  {
    var l := TrimLeft(s, cs);
    var r := TrimRight(l, cs);
    if r != [] {
      assert r[0] == l[0];
    }
  }

  /// `str_replace` with one search string

  /** `pat` occurs at position `i` of `s`. */
  predicate OccursAt(s: string, i: nat, pat: string) {
    i + |pat| <= |s| && s[i..i + |pat|] == pat
  }

  /**
    PHP `str_replace(pat, rep, s)`: every occurrence of `pat`, found left to
    right without overlap, is replaced by `rep`. An empty `pat` leaves `s` alone.
  */
  function ReplaceAll(s: string, pat: string, rep: string): string
    decreases |s|
  {
    if |pat| == 0 || |s| < |pat| then s
    else if s[..|pat|] == pat then rep + ReplaceAll(s[|pat|..], pat, rep)
    else [s[0]] + ReplaceAll(s[1..], pat, rep)
  }

  /** Replacing a string by itself changes nothing. */
  lemma {:induction false} ReplaceAllSelf(s: string, pat: string)
    ensures ReplaceAll(s, pat, pat) == s
    decreases |s|
  {
    if |pat| == 0 || |s| < |pat| {
    } else if s[..|pat|] == pat {
      ReplaceAllSelf(s[|pat|..], pat);
      assert s[..|pat|] + s[|pat|..] == s;
    } else {
      ReplaceAllSelf(s[1..], pat);
      assert [s[0]] + s[1..] == s;
    }
  }

  /** Text holding no first character of `pat` is copied unchanged. */
  lemma {:induction false} ReplaceAllKeepsPrefix(a: string, b: string, pat: string, rep: string)
    requires |pat| > 0 && pat[0] !in a
    ensures ReplaceAll(a + b, pat, rep) == a + ReplaceAll(b, pat, rep)
    decreases |a|
  {
    if a == [] {
      assert a + b == b;
    } else if |a + b| >= |pat| {
      var s := a + b;
      assert s[0] == a[0] && a[0] in a;
      assert s[..|pat|] != pat by {
        assert s[..|pat|][0] == a[0];
      }
      assert ReplaceAll(s, pat, rep) == [s[0]] + ReplaceAll(s[1..], pat, rep);
      assert s[1..] == a[1..] + b;
      assert pat[0] !in a[1..] by {
        forall c | c in a[1..] ensures c in a { }
      }
      ReplaceAllKeepsPrefix(a[1..], b, pat, rep);
      assert [a[0]] + a[1..] == a;
    } else {
      assert |b| < |pat|;
    }
  }

  /// `//` markers

  /** No two consecutive slashes. */
  predicate NoDoubleSlash(s: string) {
    forall i :: 0 <= i < |s| - 1 ==> !(s[i] == '/' && s[i + 1] == '/')
  }

  lemma NoDoubleSlashAppend(x: string, y: string)
    requires NoDoubleSlash(x) && NoDoubleSlash(y)
    requires x == [] || y == [] || x[|x| - 1] != '/' || y[0] != '/'
    ensures NoDoubleSlash(x + y)
  {
    var s := x + y;
    forall i | 0 <= i < |s| - 1
      ensures !(s[i] == '/' && s[i + 1] == '/')
    {
      if i + 1 < |x| {
        assert s[i] == x[i] && s[i + 1] == x[i + 1];
      } else if i >= |x| {
        assert s[i] == y[i - |x|] && s[i + 1] == y[i - |x| + 1];
      }
    }
  }

  /** Replacing every `//` by `;` leaves no `//` behind (line 318). */
  lemma {:induction false} ReplaceSlashesLeavesNone(s: string)
    ensures NoDoubleSlash(ReplaceAll(s, "//", ";"))
    ensures |ReplaceAll(s, "//", ";")| > 0 && ReplaceAll(s, "//", ";")[0] == '/' ==>
              |s| > 0 && s[0] == '/' && (|s| == 1 || s[1] != '/')
    decreases |s|
  {
    var r := ReplaceAll(s, "//", ";");
    if |s| < 2 {
    } else if s[..2] == "//" {
      ReplaceSlashesLeavesNone(s[2..]);
      NoDoubleSlashAppend(";", ReplaceAll(s[2..], "//", ";"));
    } else {
      var t := ReplaceAll(s[1..], "//", ";");
      ReplaceSlashesLeavesNone(s[1..]);
      if s[0] == '/' {
        assert s[1] != '/';
      }
      NoDoubleSlashAppend([s[0]], t);
    }
  }

  /**
    A replacement that brings in no slash, and is never empty, cannot create
    a `//` where there was none (the table-name rewrite of line 193).
  */
  lemma {:induction false} ReplaceAllKeepsNoDoubleSlash(s: string, pat: string, rep: string)
    requires NoDoubleSlash(s)
    requires |rep| > 0 && '/' !in rep
    ensures NoDoubleSlash(ReplaceAll(s, pat, rep))
    ensures |ReplaceAll(s, pat, rep)| > 0 && ReplaceAll(s, pat, rep)[0] == '/' ==> |s| > 0 && s[0] == '/'
    decreases |s|
  {
    if |pat| == 0 || |s| < |pat| {
    } else if s[..|pat|] == pat {
      var t := s[|pat|..];
      assert NoDoubleSlash(t) by {
        forall i | 0 <= i < |t| - 1 ensures !(t[i] == '/' && t[i + 1] == '/') {
          assert t[i] == s[i + |pat|] && t[i + 1] == s[i + 1 + |pat|];
        }
      }
      ReplaceAllKeepsNoDoubleSlash(t, pat, rep);
      assert NoDoubleSlash(rep) by {
        forall i | 0 <= i < |rep| - 1 ensures rep[i] != '/' { assert rep[i] in rep; }
      }
      assert rep[|rep| - 1] in rep;
      NoDoubleSlashAppend(rep, ReplaceAll(t, pat, rep));
    } else {
      var t := s[1..];
      assert NoDoubleSlash(t) by {
        forall i | 0 <= i < |t| - 1 ensures !(t[i] == '/' && t[i + 1] == '/') {
          assert t[i] == s[i + 1] && t[i + 1] == s[i + 2];
        }
      }
      ReplaceAllKeepsNoDoubleSlash(t, pat, rep);
      NoDoubleSlashAppend([s[0]], ReplaceAll(t, pat, rep));
    }
  }

  /// The text after the last occurrence of a character

  /** What follows the last `c` in `s`; all of `s` when it holds no `c`. */
  function AfterLast(s: string, c: char): (r: string)
    ensures |r| <= |s| && r == s[|s| - |r|..]
    ensures c !in r
    decreases |s|
  {
    if s == [] || s[|s| - 1] == c then []
    else AfterLast(s[..|s| - 1], c) + [s[|s| - 1]]
  }

  /** Whatever precedes a `c`, the text after it is recovered when it holds no `c`. */
  lemma {:induction false} AfterLastAppend(x: string, c: char, d: string)
    requires c !in d
    ensures AfterLast(x + [c] + d, c) == d
    decreases |d|
  {
    var s := x + [c] + d;
    if d == [] {
      assert s[|s| - 1] == c;
    } else {
      var d' := d[..|d| - 1];
      var last := d[|d| - 1];
      assert last in d;
      assert s[|s| - 1] == last != c;
      assert AfterLast(s, c) == AfterLast(s[..|s| - 1], c) + [last];
      assert s[..|s| - 1] == x + [c] + d';
      assert c !in d' by {
        forall e | e in d' ensures e in d { }
      }
      AfterLastAppend(x, c, d');
      assert d' + [last] == d;
    }
  }

  /// Decimal rendering of an integer (PHP's int-to-string conversion)

  function DigitChar(d: nat): (c: char)
    requires d < 10
    ensures IsDigit(c) && c as int - '0' as int == d
  {
    ('0' as int + d) as char
  }

  /** The decimal digits of `n`, without leading zeros. */
  function Decimal(n: nat): (r: string)
    ensures IsDigits(r)
    ensures '_' !in r
    decreases n
  {
    if n < 10 then [DigitChar(n)] else Decimal(n / 10) + [DigitChar(n % 10)]
  }

  function DigitValue(c: char): nat
    requires IsDigit(c)
  {
    c as int - '0' as int
  }

  /** The number a string of decimal digits stands for. */
  function DecimalValue(s: string): nat
    requires forall i :: 0 <= i < |s| ==> IsDigit(s[i])
    decreases |s|
  {
    if s == [] then 0 else DecimalValue(s[..|s| - 1]) * 10 + DigitValue(s[|s| - 1])
  }

  /** Reading back the digits of `n` gives `n`. */
  lemma {:induction false} DecimalRoundTrip(n: nat)
    ensures DecimalValue(Decimal(n)) == n
    decreases n
  {
    if n >= 10 {
      DecimalRoundTrip(n / 10);
      var d := Decimal(n);
      assert d[..|d| - 1] == Decimal(n / 10);
    }
  }

  lemma DecimalInjective(a: nat, b: nat)
    requires a != b
    ensures Decimal(a) != Decimal(b)
  {
    DecimalRoundTrip(a);
    DecimalRoundTrip(b);
  }
}
