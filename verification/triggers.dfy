/**
  Trigger descriptors: `parseTriggers` (SqlToMigration.php lines 307-327)
  and the table-name rewrite of `generateTriggerMigrationFile` (lines
  192-193). The `CREATE TRIGGER` pattern of line 310 is abstracted as the
  capture groups of each match; the `DELIMITER` removal of line 317 and the
  `//` replacement of line 318 are written out.
*/
module Triggers {
  import opened Options
  import opened Text
  import opened Prefix

  /**
    Capture groups 1 to 5 of one match of the pattern of line 310: the
    trigger name, its timing, its event, the table it is on, and its body.
  */
  datatype TriggerMatch = TriggerMatch(name: string, timing: string, event: string, table: string, body: string)

  /** What the pattern lets each group hold (the `i` flag makes the keywords case-insensitive). */
  predicate Captured(m: TriggerMatch) {
    && IsWord(m.name)
    && UpperStr(m.timing) in {"BEFORE", "AFTER"}
    && UpperStr(m.event) in {"INSERT", "UPDATE", "DELETE"}
    && IsWord(m.table)
  }

  /** One entry of the `$triggers` list (lines 319-323). */
  datatype Trigger = Trigger(name: string, sql: string, table: string)

  /** The statement head rebuilt at line 316, up to the body. */
  function Header(m: TriggerMatch): string {
    "CREATE TRIGGER `" + m.name + "` " + m.timing + " " + m.event + " ON `" + m.table + "` FOR EACH ROW "
  }

  /** The opening of every rebuilt statement: ``CREATE TRIGGER `name` ``. */
  function Opening(name: string): string {
    "CREATE TRIGGER `" + name + "` "
  }

  /// `preg_replace('/DELIMITER\s+.+?\s+/i', '', …)` (line 317)

  /**
    The end of the match of /DELIMITER\s+.+?\s+/i that starts at `i`, if any.
    The first letter is compared on its own before the whole word.
  */
  function DelimiterEndAt(s: string, i: nat): (r: Option<nat>)
    requires i <= |s|
    ensures r.Some? ==> i + 10 <= r.value <= |s| && MatchesCIAt(s, i, "DELIMITER") && IsSpace(s[i + 9])
  {
    if i == |s| || Upper(s[i]) != 'D' || !MatchesCIAt(s, i, "DELIMITER") then None
    else DirectiveTail(s, i + 9)
  }

  /**
    The end of the match of `\s+.+?\s+` that starts at `j`, if any. PCRE
    first lets `\s+` take the whole white-space run; the lazy `.+?` then
    grows (it never crosses a line feed) up to the first white space after
    the run, and the final `\s+` takes that whole run. When no white space
    follows the run, PCRE gives characters back from the first `\s+`: the
    match then ends where the run ends, provided the run holds a
    non-line-feed character with at least one run character before it and
    one after it.
  */
  function DirectiveTail(s: string, j: nat): (r: Option<nat>)
    requires j <= |s|
    ensures r.Some? ==> j < r.value <= |s| && IsSpace(s[j])
  {
    var run := RunLength(s, j, Space);
    var k := j + run;
    if run == 0 then None
    else
      var e := if k < |s| then k + 1 + RunLength(s, k + 1, NonSpace) else |s|;
      if e < |s| then Some(e + RunLength(s, e, Space))
      else if NonNewlineIn(s, j + 1, k - 1) then Some(k)
      else None
  }

  /** Some character of `s[lo..hi]` is not a line feed. */
  predicate NonNewlineIn(s: string, lo: nat, hi: nat)
    requires lo <= |s| && hi <= |s|
    decreases hi - lo
  {
    lo < hi && (s[lo] != '\n' || NonNewlineIn(s, lo + 1, hi))
  }

  /** `ends[k]` is where a match starting at `k` ends, if one does; matches never end before they start. */
  predicate EndsFit(n: nat, ends: seq<Option<nat>>) {
    |ends| == n && forall k :: 0 <= k < n && ends[k].Some? ==> k < ends[k].value <= n
  }

  /** The match ends of the `DELIMITER` pattern at every position of `s`. */
  function DelimiterEnds(s: string): (ends: seq<Option<nat>>)
    ensures EndsFit(|s|, ends)
    ensures forall k :: 0 <= k < |s| ==> ends[k] == DelimiterEndAt(s, k)
  {
    seq(|s|, k requires 0 <= k < |s| => DelimiterEndAt(s, k))
  }

  /**
    `preg_replace` from position `i` on: scanning left to right, a match is
    dropped and the scan goes on after it; a character where no match starts
    is kept.
  */
  function Splice(s: string, ends: seq<Option<nat>>, i: nat): (r: string)
    requires EndsFit(|s|, ends) && i <= |s|
    ensures |r| <= |s| - i
    decreases |s| - i
  {
    if i == |s| then []
    else match ends[i]
      case Some(e) => Splice(s, ends, e)
      case None => [s[i]] + Splice(s, ends, i + 1)
  }

  /** `preg_replace('/DELIMITER\s+.+?\s+/i', '', s)`: removing matches never lengthens the text. */
  function RemoveDelimiters(s: string): (r: string)
    ensures |r| <= |s|
  {
    Splice(s, DelimiterEnds(s), 0)
  }

  /** A stretch where no match starts is copied unchanged. */
  lemma {:induction false} SpliceKeeps(s: string, ends: seq<Option<nat>>, i: nat, n: nat)
    requires EndsFit(|s|, ends)
    requires i <= n <= |s|
    requires forall k :: i <= k < n ==> ends[k].None?
    ensures Splice(s, ends, i) == s[i..n] + Splice(s, ends, n)
    decreases n - i
  {
    if i < n {
      var r := Splice(s, ends, n);
      calc {
        Splice(s, ends, i);
        [s[i]] + Splice(s, ends, i + 1);
        { SpliceKeeps(s, ends, i + 1, n); }
        [s[i]] + (s[i + 1..n] + r);
        { assert [s[i]] + s[i + 1..n] == s[i..n]; }
        s[i..n] + r;
      }
    }
  }

  /** A `DELIMITER` match spells the word in letters, whatever their case. */
  lemma DelimiterLetters(s: string, i: nat, k: nat)
    requires MatchesCIAt(s, i, "DELIMITER")
    requires i <= k < i + 9
    ensures IsLetter(s[k])
  {
    assert UpperStr(s[i..i + 9])[k - i] == Upper(s[k]);
    assert 'A' <= UpperStr("DELIMITER")[k - i] <= 'Z';
  }

  /** Text without the word `DELIMITER`, in any case, passes through unchanged. */
  lemma RemoveDelimitersWithoutDirective(s: string)
    requires !ContainsCI(s, "DELIMITER")
    ensures RemoveDelimiters(s) == s
  {
    var ends := DelimiterEnds(s);
    forall k | 0 <= k < |s| ensures ends[k].None? {
      assert !MatchesCIAt(s, k, "DELIMITER");
    }
    SpliceKeeps(s, ends, 0, |s|);
  }

  /** A non-empty run of white space. */
  predicate IsSpaceRun(sp: string) {
    |sp| > 0 && forall k :: 0 <= k < |sp| ==> IsSpace(sp[k])
  }

  /**
    After a prefix `x`, `DELIMITER`, a white-space run, a token without white
    space and a second white-space run, followed by a non-space, is a match
    ending right after the second run; `e` is that end.
  */
  lemma DirectiveEnd(x: string, d: string, sp1: string, tok: string, sp2: string, rest: string) returns (e: nat)
    requires UpperStr(d) == "DELIMITER"
    requires IsSpaceRun(sp1) && IsSpaceRun(sp2)
    requires |tok| > 0 && forall c :: c in tok ==> !IsSpace(c)
    requires rest == [] || !IsSpace(rest[0])
    ensures e == |x| + 9 + |sp1| + |tok| + |sp2| && e <= |x + d + sp1 + tok + sp2 + rest|
    ensures DelimiterEndAt(x + d + sp1 + tok + sp2 + rest, |x|) == Some(e)
    ensures (x + d + sp1 + tok + sp2 + rest)[e..] == rest
  {
    var s := x + d + sp1 + tok + sp2 + rest;
    var i := |x|;
    assert s[i..i + 9] == d;
    assert Upper(s[i]) == UpperStr(d)[0];
    var j := i + 9;
    assert s[j..] == sp1 + tok + sp2 + rest;
    e := TailOf(s, j, sp1, tok, sp2, rest);
  }

  /** The `\s+.+?\s+` tail at `j` of a text that goes on as white space, a token, white space and `rest`. */
  lemma TailOf(s: string, j: nat, sp1: string, tok: string, sp2: string, rest: string) returns (e: nat)
    requires j <= |s| && s[j..] == sp1 + tok + sp2 + rest
    requires IsSpaceRun(sp1) && IsSpaceRun(sp2)
    requires |tok| > 0 && forall c :: c in tok ==> !IsSpace(c)
    requires rest == [] || !IsSpace(rest[0])
    ensures e == j + |sp1| + |tok| + |sp2| && e <= |s|
    ensures DirectiveTail(s, j) == Some(e)
    ensures s[e..] == rest
  {
    var a, n, b := |sp1|, |tok|, |sp2|;
    var t := s[j..];
    forall k | j <= k < j + a ensures IsSpace(s[k]) {
      assert s[k] == t[k - j] == sp1[k - j];
    }
    forall k | j + a <= k < j + a + n ensures !IsSpace(s[k]) {
      assert s[k] == t[k - j] == tok[k - j - a];
    }
    forall k | j + a + n <= k < j + a + n + b ensures IsSpace(s[k]) {
      assert s[k] == t[k - j] == sp2[k - j - a - n];
    }
    e := j + a + n + b;
    assert t[a + n + b..] == rest;
    assert s[e..] == rest;
    TailEnd(s, j, a, n, b);
  }

  /**
    A white-space run of `a` characters, a token of `n` non-space characters
    and a white-space run of `b` characters, not followed by white space.
  */
  lemma TailEnd(s: string, j: nat, a: nat, n: nat, b: nat)
    requires a > 0 && n > 0 && b > 0 && j + a + n + b <= |s|
    requires forall k :: j <= k < j + a ==> IsSpace(s[k])
    requires forall k :: j + a <= k < j + a + n ==> !IsSpace(s[k])
    requires forall k :: j + a + n <= k < j + a + n + b ==> IsSpace(s[k])
    requires j + a + n + b == |s| || !IsSpace(s[j + a + n + b])
    ensures DirectiveTail(s, j) == Some(j + a + n + b)
  {
    RunLengthExact(s, j, Space, a);
    RunLengthExact(s, j + a + 1, NonSpace, n - 1);
    RunLengthExact(s, j + a + n, Space, b);
  }

  /**
    No match starts inside a prefix `x` that holds no `DELIMITER` and is
    empty or ends in white space: a match there would either lie inside `x`
    or spell a letter where `x` ends in white space.
  */
  lemma NoDirectiveBefore(s: string, x: string)
    requires x <= s
    requires !ContainsCI(x, "DELIMITER")
    requires x == [] || IsSpace(x[|x| - 1])
    ensures forall k :: 0 <= k < |x| ==> DelimiterEnds(s)[k].None?
  {
    forall k | 0 <= k < |x| ensures !MatchesCIAt(s, k, "DELIMITER") {
      if MatchesCIAt(s, k, "DELIMITER") {
        if k + 9 <= |x| {
          assert s[k..k + 9] == x[k..k + 9];
          assert MatchesCIAt(x, k, "DELIMITER");
        } else {
          assert s[|x| - 1] == x[|x| - 1];
          DelimiterLetters(s, k, |x| - 1);
        }
      }
    }
  }

  /**
    A `DELIMITER` directive (white space, a token without white space, white
    space) is removed wherever it stands after a prefix `x` holding no
    directive and ending in white space; the prefix and the text after the
    directive, which holds no further directive, are kept as they are.
  */
  lemma DirectiveRemoved(x: string, d: string, sp1: string, tok: string, sp2: string, rest: string)
    requires !ContainsCI(x, "DELIMITER")
    requires x == [] || IsSpace(x[|x| - 1])
    requires UpperStr(d) == "DELIMITER"
    requires IsSpaceRun(sp1) && IsSpaceRun(sp2)
    requires |tok| > 0 && forall c :: c in tok ==> !IsSpace(c)
    requires rest == [] || !IsSpace(rest[0])
    requires !ContainsCI(rest, "DELIMITER")
    ensures RemoveDelimiters(x + d + sp1 + tok + sp2 + rest) == x + rest
  {
    var s := x + d + sp1 + tok + sp2 + rest;
    var e := DirectiveEnd(x, d, sp1, tok, sp2, rest);
    assert x <= s;
    NoDirectiveBefore(s, x);
    NoDirectiveAfter(s, e);
    OneMatchRemoved(s, |x|, e);
    assert s[..|x|] == x;
  }

  /** With a single match, from `i` to `e`, the text loses exactly that stretch. */
  lemma OneMatchRemoved(s: string, i: nat, e: nat)
    requires i < e <= |s|
    requires DelimiterEnds(s)[i] == Some(e)
    requires forall k :: 0 <= k < i ==> DelimiterEnds(s)[k].None?
    requires forall k :: e <= k < |s| ==> DelimiterEnds(s)[k].None?
    ensures RemoveDelimiters(s) == s[..i] + s[e..]
  {
    var ends := DelimiterEnds(s);
    SpliceKeeps(s, ends, 0, i);
    assert Splice(s, ends, i) == Splice(s, ends, e);
    SpliceKeeps(s, ends, e, |s|);
    assert s[0..i] == s[..i];
    assert s[e..|s|] == s[e..];
  }

  /**
    A directive right after the rebuilt head of line 316 is removed by line
    317, and only `//` is then replaced, when the head and the rest of the
    body hold no further `DELIMITER`.
  */
  lemma TriggerSqlDropsDirective(m: TriggerMatch, d: string, sp1: string, tok: string, sp2: string, rest: string)
    requires !ContainsCI(Header(m), "DELIMITER")
    requires m.body == d + sp1 + tok + sp2 + rest
    requires UpperStr(d) == "DELIMITER"
    requires IsSpaceRun(sp1) && IsSpaceRun(sp2)
    requires |tok| > 0 && forall c :: c in tok ==> !IsSpace(c)
    requires rest == [] || !IsSpace(rest[0])
    requires !ContainsCI(rest, "DELIMITER")
    ensures TriggerSql(m) == ReplaceAll(Header(m) + rest, "//", ";")
  {
    var h := HeaderEndsInSpace(m);
    BodyDirectiveRemoved(h, m.body, d, sp1, tok, sp2, rest);
  }

  /** `DirectiveRemoved` for a body that starts with the directive, written after `h`. */
  lemma BodyDirectiveRemoved(h: string, body: string, d: string, sp1: string, tok: string, sp2: string, rest: string)
    requires !ContainsCI(h, "DELIMITER")
    requires h == [] || IsSpace(h[|h| - 1])
    requires body == d + sp1 + tok + sp2 + rest
    requires UpperStr(d) == "DELIMITER"
    requires IsSpaceRun(sp1) && IsSpaceRun(sp2)
    requires |tok| > 0 && forall c :: c in tok ==> !IsSpace(c)
    requires rest == [] || !IsSpace(rest[0])
    requires !ContainsCI(rest, "DELIMITER")
    ensures RemoveDelimiters(h + body) == h + rest
  {
    assert h + body == h + d + sp1 + tok + sp2 + rest;
    DirectiveRemoved(h, d, sp1, tok, sp2, rest);
  }

  /** The rebuilt head ends in a space. */
  lemma HeaderEndsInSpace(m: TriggerMatch) returns (h: string)
    ensures h == Header(m) && |h| > 0 && h[|h| - 1] == ' '
  {
    h := Header(m);
  }

  /**
    A directive at the very end of the text, `DELIMITER ` with nothing after
    its white space, is not matched: `.+?` needs a character and the final
    `\s+` a white space after it. The text passes through unchanged.
  */
  lemma TrailingDirectiveKept(x: string, d: string)
    requires !ContainsCI(x, "DELIMITER")
    requires x == [] || IsSpace(x[|x| - 1])
    requires UpperStr(d) == "DELIMITER"
    ensures RemoveDelimiters(x + d + " ") == x + d + " "
  {
    var s := x + d + " ";
    var ends := DelimiterEnds(s);
    assert x <= s;
    NoDirectiveBefore(s, x);
    forall k | |x| <= k < |s| ensures ends[k].None? {
      if k == |x| {
        assert s[k + 9] == ' ';
        RunLengthExact(s, k + 9, Space, 1);
      } else if MatchesCIAt(s, k, "DELIMITER") {
        DelimiterLetters(s, k, |s| - 1);
      }
    }
    SpliceKeeps(s, ends, 0, |s|);
  }

  /**
    A trigger whose body ends `1//` then a line feed and `DELIMITER ` (what
    the pattern of line 310 captures from `... = 1//` followed by
    `DELIMITER ;`) keeps the directive through line 317.
  */
  lemma TrailingDirectiveExample()
    ensures RemoveDelimiters("1//\nDELIMITER ") == "1//\nDELIMITER "
  {
    assert "1//\nDELIMITER " == "1//\n" + "DELIMITER" + " ";
    TrailingDirectiveKept("1//\n", "DELIMITER");
  }

  /** Where the rest of the text holds no `DELIMITER`, no match starts there. */
  lemma NoDirectiveAfter(s: string, off: nat)
    requires off <= |s|
    requires !ContainsCI(s[off..], "DELIMITER")
    ensures forall k :: off <= k < |s| ==> DelimiterEnds(s)[k].None?
  {
    var rest := s[off..];
    forall k | off <= k < |s| ensures !MatchesCIAt(s, k, "DELIMITER") {
      assert !MatchesCIAt(rest, k - off, "DELIMITER");
      assert k + 9 <= |s| ==> s[k..k + 9] == rest[k - off..k - off + 9];
    }
  }

  /**
    No match can start inside ``CREATE TRIGGER `name` `` when the name is a
    word: nine letters there are always followed by a word character or a
    backtick, never by white space.
  */
  lemma OpeningHasNoDirective(name: string, rest: string, k: nat)
    requires IsWord(name)
    requires k < |Opening(name)|
    ensures DelimiterEndAt(Opening(name) + rest, k).None?
  {
    var s := Opening(name) + rest;
    var b := 16 + |name|;
    assert s[6] == ' ' && s[14] == ' ' && s[15] == '`' && s[b] == '`' && s[b + 1] == ' ';
    if k + 9 < b && 16 <= k {
      assert s[k + 9] == name[k + 9 - 16];
      assert !IsSpace(s[k + 9]);
    } else if k + 9 != b && MatchesCIAt(s, k, "DELIMITER") {
      DelimiterLetters(s, k, if k <= 6 then 6 else if k <= 14 then 14 else if k == 15 then 15 else b);
    }
  }

  /// `parseTriggers`

  /** The statement built for one match (lines 316-318); it holds no `//`. */
  function TriggerSql(m: TriggerMatch): (r: string)
    ensures NoDoubleSlash(r)
  {
    ReplaceSlashesLeavesNone(RemoveDelimiters(Header(m) + m.body));
    ReplaceAll(RemoveDelimiters(Header(m) + m.body), "//", ";")
  }

  /**
    The loop of lines 313-325: one trigger per match, in match order, named
    after the match, on the raw table name, with the rebuilt statement.
  */
  method ParseTriggers(matches: seq<TriggerMatch>) returns (triggers: seq<Trigger>)
    ensures |triggers| == |matches|
    ensures forall i :: 0 <= i < |matches| ==>
              triggers[i] == Trigger(matches[i].name, TriggerSql(matches[i]), matches[i].table)
  {
    triggers := [];
    var i := 0;
    while i < |matches|
      invariant 0 <= i <= |matches|
      invariant |triggers| == i
      invariant forall k :: 0 <= k < i ==>
                  triggers[k] == Trigger(matches[k].name, TriggerSql(matches[k]), matches[k].table)
    {
      var m := matches[i];
      var triggerName := m.name;
      var tableName := m.table;
      var triggerSql := "CREATE TRIGGER `" + triggerName + "` " + m.timing + " " + m.event
                        + " ON `" + tableName + "` FOR EACH ROW " + m.body;
      triggerSql := RemoveDelimiters(triggerSql);
      triggerSql := ReplaceAll(triggerSql, "//", ";");
      triggers := triggers + [Trigger(triggerName, triggerSql, tableName)];
      i := i + 1;
    }
  }

  /** The `DELIMITER` removal keeps ``CREATE TRIGGER `name` `` at the front. */
  lemma RemoveDelimitersKeepsOpening(name: string, rest: string)
    requires IsWord(name)
    ensures Opening(name) <= RemoveDelimiters(Opening(name) + rest)
  {
    var o := Opening(name);
    var s := o + rest;
    var ends := DelimiterEnds(s);
    forall k | 0 <= k < |o| ensures ends[k].None? {
      OpeningHasNoDirective(name, rest, k);
    }
    SpliceKeeps(s, ends, 0, |o|);
    assert s[0..|o|] == o;
  }

  /** The opening holds no slash. */
  lemma OpeningHasNoSlash(name: string)
    requires IsWord(name)
    ensures '/' !in Opening(name)
  {
    var o := Opening(name);
    forall k | 0 <= k < |o| ensures o[k] != '/' {
      if 16 <= k < 16 + |name| {
        assert o[k] == name[k - 16];
      }
    }
  }

  /** Every rebuilt statement starts with ``CREATE TRIGGER `name` `` (line 316). */
  lemma TriggerSqlOpening(m: TriggerMatch)
    requires Captured(m)
    ensures Opening(m.name) <= TriggerSql(m)
  {
    var o := Opening(m.name);
    var s := Header(m) + m.body;
    var rest := s[|o|..];
    assert s == o + rest;
    RemoveDelimitersKeepsOpening(m.name, rest);
    var r := RemoveDelimiters(s);
    assert r == o + r[|o|..];
    OpeningHasNoSlash(m.name);
    ReplaceAllKeepsPrefix(o, r[|o|..], "//", ";");
  }

  /** Without a `DELIMITER` directive, line 317 changes nothing and only `//` is replaced. */
  lemma TriggerSqlWithoutDirective(m: TriggerMatch)
    requires !ContainsCI(Header(m) + m.body, "DELIMITER")
    ensures TriggerSql(m) == ReplaceAll(Header(m) + m.body, "//", ";")
  {
    RemoveDelimitersWithoutDirective(Header(m) + m.body);
  }

  /// The table-name rewrite of `generateTriggerMigrationFile`

  /**
    Lines 192-193: every `` `table` `` in the statement becomes
    `` `stripped table` ``. When stripping leaves the table name as it is,
    the statement is left as it is.
  */
  function RewriteTable(prefix: string, sql: string, table: string): (r: string)
    ensures StripPrefix(prefix, table) == table ==> r == sql
  {
    ReplaceAllSelf(sql, "`" + table + "`");
    ReplaceAll(sql, "`" + table + "`", "`" + StripPrefix(prefix, table) + "`")
  }

  /** The rewrite brings in no slash, so the statement still holds no `//`. */
  lemma RewriteKeepsNoDoubleSlash(prefix: string, sql: string, table: string)
    requires IsWord(table)
    requires NoDoubleSlash(sql)
    ensures NoDoubleSlash(RewriteTable(prefix, sql, table))
  {
    var stripped := StripPrefix(prefix, table);
    var rep := "`" + stripped + "`";
    StripPrefixIsSuffix(prefix, table);
    assert '/' !in rep by {
      forall c | c in rep ensures c != '/' {
        if c in stripped {
          assert c in table;
          var k :| 0 <= k < |table| && table[k] == c;
          assert IsWordChar(table[k]);
        }
      }
    }
    ReplaceAllKeepsNoDoubleSlash(sql, "`" + table + "`", rep);
  }

  /**
    The statement a trigger migration runs (lines 192-193 applied to the
    output of lines 316-318) holds no `//`.
  */
  lemma GeneratedTriggerSqlNoDoubleSlash(prefix: string, m: TriggerMatch)
    requires Captured(m)
    ensures NoDoubleSlash(RewriteTable(prefix, TriggerSql(m), m.table))
  {
    RewriteKeepsNoDoubleSlash(prefix, TriggerSql(m), m.table);
  }
}
