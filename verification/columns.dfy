/**
  The table body parser: `parseFields` and `parsePrimaryKey`
  (SqlToMigration.php lines 223-264). The two regular expressions they use
  are written out as scanners that follow PCRE's leftmost, backtracking
  search; the comments on each scanner say why its greedy choices are final.
*/
module Columns {
  import opened Options
  import opened Text

  /**
    One entry of the `addField` list (lines 235-250). The PHP array sets the
    keys `unsigned`, `null` and `auto_increment` only when they are true, so
    an absent key is `false` here.
  */
  datatype Field = Field(
    name: string,
    fieldType: string,
    constraint: Option<string>,
    unsigned: bool,
    nullable: bool,
    autoIncrement: bool)

  /**
    Capture groups 1 to 6 of the column pattern of line 234, as the text
    holds them; an optional group that took part in no match is "".
  */
  datatype ColumnMatch = ColumnMatch(
    name: string,
    typeName: string,
    length: string,
    unsigned: string,
    notNull: string,
    autoIncrement: string)

  /** What the pattern lets each group hold. */
  predicate Captured(m: ColumnMatch) {
    && IsWord(m.name)
    && IsWord(m.typeName)
    && (m.length == "" || IsLengthGroup(m.length))
    && (m.unsigned == "" || UpperStr(m.unsigned) == UpperStr("UNSIGNED"))
    && (m.notNull == "" || UpperStr(m.notNull) == UpperStr("NOT NULL"))
    && (m.autoIncrement == "" || UpperStr(m.autoIncrement) == UpperStr("AUTO_INCREMENT"))
  }

  /** A `(digits)` group. */
  predicate IsLengthGroup(g: string) {
    |g| >= 3 && g[0] == '(' && g[|g| - 1] == ')' && IsDigits(g[1..|g| - 1])
  }

  /** The optional group `(\(\d+\))?` at `i`: parentheses around a maximal digit run, or "". */
  function LengthGroupAt(s: string, i: nat): (g: string)
    requires i <= |s|
    ensures g == "" || (i + |g| <= |s| && g == s[i..i + |g|] && IsLengthGroup(g))
  {
    var digits := if i < |s| && s[i] == '(' then RunLength(s, i + 1, Digit) else 0;
    if digits > 0 && i + 1 + digits < |s| && s[i + 1 + digits] == ')' then
      RunLengthClass(s, i + 1, Digit);
      LengthGroupShape(s, i, digits);
      s[i..i + digits + 2]
    else ""
  }

  /** Where the text after the optional length group at `i` starts. */
  function LengthEnd(s: string, i: nat): (j: nat)
    requires i <= |s|
    ensures i <= j <= |s|
  {
    i + |LengthGroupAt(s, i)|
  }

  /** A `(`, a run of digits and a `)` at `i` form a length group. */
  lemma LengthGroupShape(s: string, i: nat, digits: nat)
    requires 0 < digits && i + 1 + digits < |s|
    requires s[i] == '(' && s[i + 1 + digits] == ')'
    requires forall k :: i + 1 <= k < i + 1 + digits ==> InClass(s[k], Digit)
    ensures IsLengthGroup(s[i..i + digits + 2])
  {
    var g := s[i..i + digits + 2];
    var d := g[1..|g| - 1];
    forall k | 0 <= k < |d| ensures IsDigit(d[k]) {
      assert d[k] == s[i + 1 + k];
      assert InClass(s[i + 1 + k], Digit);
    }
  }

  /** The case-insensitive occurrence of `word` at `i`, as a capture group would hold it, or "". */
  function OptionalWord(s: string, i: nat, word: string): (g: string)
    ensures g == "" || (MatchesCIAt(s, i, word) && g == s[i..i + |word|] && UpperStr(g) == UpperStr(word))
    ensures MatchesCIAt(s, i, word) ==> g == s[i..i + |word|]
    ensures |g| == 0 || |g| == |word|
  {
    if MatchesCIAt(s, i, word) then s[i..i + |word|] else ""
  }

  /** Position after the longest run of white space starting at `i` (a greedy `\s*`). */
  function SkipSpace(s: string, i: nat): (j: nat)
    requires i <= |s|
    ensures i <= j <= |s|
  {
    i + RunLength(s, i, Space)
  }

  /** An optional keyword group as captured, and where the text after it starts. */
  datatype Group = Group(text: string, end: nat)

  /**
    `\s*(WORD)?` from `j`. An absent group consumes nothing: the `\s*` of the
    next group takes the same spaces, so the captures are the same.
  */
  function KeywordAt(s: string, j: nat, word: string): (r: Group)
    requires j <= |s|
    ensures r.end <= |s|
    ensures r.text == "" ==> r.end == j
    ensures r.text != "" ==> && MatchesCIAt(s, SkipSpace(s, j), word)
                             && r.end == SkipSpace(s, j) + |word|
                             && r.text == s[SkipSpace(s, j)..r.end]
                             && UpperStr(r.text) == UpperStr(word)
  {
    var u := SkipSpace(s, j);
    var g := OptionalWord(s, u, word);
    if g == "" then Group("", j) else Group(g, u + |g|)
  }

  /** The name and type part of a column match, and where the type word ends. */
  datatype Head = Head(name: string, typeName: string, typeEnd: nat)

  /**
    The part `` `?(\w+)`?\s+(\w+) `` of the column pattern, matched at `p`.
    None of the later groups can fail, so the first greedy attempt that reaches
    the type word succeeds and PCRE never backtracks into it; before the type
    word, giving back a character of a maximal `\w+` run, or skipping a
    backtick that `` `? `` took, leaves a word character or a backtick where
    `` ` ``, `\s` or `\w` is needed, so those retries fail too.
  */
  function HeadAt(s: string, p: nat): (r: Option<Head>)
    requires p <= |s|
    ensures r.Some? ==> IsWord(r.value.name) && IsWord(r.value.typeName) && r.value.typeEnd <= |s|
  {
    var nameStart := if p < |s| && s[p] == '`' then p + 1 else p;
    var nameEnd := nameStart + RunLength(s, nameStart, Word);
    var gap := if nameEnd < |s| && s[nameEnd] == '`' then nameEnd + 1 else nameEnd;
    var typeStart := SkipSpace(s, gap);
    var typeEnd := typeStart + RunLength(s, typeStart, Word);
    if nameEnd == nameStart || typeStart == gap || typeEnd == typeStart then None
    else
      RunLengthClass(s, nameStart, Word);
      RunLengthClass(s, typeStart, Word);
      WordRun(s, nameStart, nameEnd);
      WordRun(s, typeStart, typeEnd);
      Some(Head(s[nameStart..nameEnd], s[typeStart..typeEnd], typeEnd))
  }

  /**
    The match of
      /`?(\w+)`?\s+(\w+)(\(\d+\))?\s*(UNSIGNED)?\s*(NOT NULL)?\s*(AUTO_INCREMENT)?/i
    that starts at position `p`, if any: the name and type part, then the
    optional groups read from where the type word ends.
  */
  function ColumnAt(s: string, p: nat): (r: Option<ColumnMatch>)
    requires p <= |s|
    ensures r.Some? ==> Captured(r.value)
  {
    var h := HeadAt(s, p);
    if h.None? then None else Some(ModifiersAt(s, h.value.typeEnd, h.value.name, h.value.typeName))
  }

  /** A non-empty run of word characters is a word. */
  lemma WordRun(s: string, i: nat, j: nat)
    requires i < j <= |s|
    requires forall k :: i <= k < j ==> InClass(s[k], Word)
    ensures IsWord(s[i..j])
  {
    forall k | 0 <= k < j - i ensures IsWordChar(s[i..j][k]) {
      assert InClass(s[i + k], Word);
    }
  }

  /**
    The optional part of the column pattern after the type word, from `i`:
    `(\(\d+\))?\s*(UNSIGNED)?\s*(NOT NULL)?\s*(AUTO_INCREMENT)?`, each group
    taken when it is there.
  */
  function ModifiersAt(s: string, i: nat, name: string, typeName: string): (m: ColumnMatch)
    requires i <= |s|
    ensures m.name == name && m.typeName == typeName
    ensures m.length == "" || IsLengthGroup(m.length)
    ensures m.unsigned == "" || UpperStr(m.unsigned) == UpperStr("UNSIGNED")
    ensures m.notNull == "" || UpperStr(m.notNull) == UpperStr("NOT NULL")
    ensures m.autoIncrement == "" || UpperStr(m.autoIncrement) == UpperStr("AUTO_INCREMENT")
  {
    var length := LengthGroupAt(s, i);
    var unsigned := KeywordAt(s, LengthEnd(s, i), "UNSIGNED");
    var notNull := KeywordAt(s, unsigned.end, "NOT NULL");
    var autoIncrement := KeywordAt(s, notNull.end, "AUTO_INCREMENT");
    ColumnMatch(name, typeName, length, unsigned.text, notNull.text, autoIncrement.text)
  }

  /** The column pattern tried at each position of `s` in turn, as `preg_match` does. */
  function ColumnAttempts(s: string): (r: seq<Option<ColumnMatch>>)
    ensures |r| == |s| + 1
    ensures forall q :: 0 <= q <= |s| ==> r[q] == ColumnAt(s, q)
  {
    seq(|s| + 1, q requires 0 <= q <= |s| => ColumnAt(s, q))
  }

  /** `preg_match` with the column pattern: the match at the leftmost position from `p` on. */
  function FirstColumnMatch(s: string, p: nat): (r: Option<ColumnMatch>)
    requires p <= |s|
    ensures r.Some? ==> Captured(r.value)
    ensures r.None? <==> forall q :: p <= q <= |s| ==> ColumnAt(s, q).None?
  {
    FirstSome(ColumnAttempts(s), p)
  }

  /** The pattern of line 231: any of the four words, in any case, anywhere in the line. */
  predicate IsKeyLine(t: string) {
    ContainsCI(t, "FOREIGN KEY") || ContainsCI(t, "PRIMARY KEY") || ContainsCI(t, "KEY") || ContainsCI(t, "INDEX")
  }

  /**
    The first two alternatives of line 231 add nothing: a line is skipped
    exactly when it holds `KEY` or `INDEX` in any case, inside another word too.
  */
  lemma KeyLineIsKeyOrIndex(t: string)
    ensures IsKeyLine(t) <==> ContainsCI(t, "KEY") || ContainsCI(t, "INDEX")
  {
    if ContainsCI(t, "FOREIGN KEY") {
      var i :| 0 <= i <= |t| - |"FOREIGN KEY"| && MatchesCIAt(t, i, "FOREIGN KEY");
      MatchesCIAtTail(t, i, "FOREIGN KEY", 8);
      assert "FOREIGN KEY"[8..] == "KEY";
    }
    if ContainsCI(t, "PRIMARY KEY") {
      var i :| 0 <= i <= |t| - |"PRIMARY KEY"| && MatchesCIAt(t, i, "PRIMARY KEY");
      MatchesCIAtTail(t, i, "PRIMARY KEY", 8);
      assert "PRIMARY KEY"[8..] == "KEY";
    }
  }

  /** The field a column match becomes (lines 235-250). */
  function FieldOf(m: ColumnMatch): Field {
    Field(
      m.name,
      UpperStr(m.typeName),
      if !PhpEmpty(m.length) then Some(Trim(m.length, {'(', ')'})) else None,
      !PhpEmpty(m.unsigned),
      PhpEmpty(m.notNull),
      !PhpEmpty(m.autoIncrement))
  }

  /** Trimming the parentheses off `(digits)` leaves exactly the digits (line 240). */
  lemma TrimParentheses(g: string)
    requires |g| >= 3 && g[0] == '(' && g[|g| - 1] == ')' && IsDigits(g[1..|g| - 1])
    ensures Trim(g, {'(', ')'}) == g[1..|g| - 1]
  {
    var cs := {'(', ')'};
    var d := g[1..|g| - 1];
    assert IsDigit(d[0]) && IsDigit(d[|d| - 1]);
    assert g[1] == d[0];
    assert LeadEnd(g, cs, 1) == 1;
    var l := g[1..];
    assert l[|l| - 1] == ')' && l[|l| - 2] == d[|d| - 1];
    assert TrailStart(l, cs, |l| - 1) == |l| - 1;
    assert l[..|l| - 1] == d;
  }

  /** An uppercased word is still a word, with no lower-case letter left. */
  predicate IsUpperWord(s: string) {
    IsWord(s) && forall i :: 0 <= i < |s| ==> !('a' <= s[i] <= 'z')
  }

  /** Upper-casing a word keeps it a word and leaves no lower-case letter. */
  lemma UpperWord(w: string)
    requires IsWord(w)
    ensures IsUpperWord(UpperStr(w))
  {
    var t := UpperStr(w);
    forall i | 0 <= i < |t| ensures IsWordChar(t[i]) && !('a' <= t[i] <= 'z') {
      assert IsWordChar(w[i]);
    }
  }

  /** A keyword group is truthy in PHP exactly when it took part in the match. */
  lemma KeywordGroupTruthy(g: string, word: string)
    requires |word| >= 2
    requires g == "" || UpperStr(g) == UpperStr(word)
    ensures PhpEmpty(g) <==> g == ""
  {
    if g != "" {
      assert |g| == |UpperStr(g)| == |UpperStr(word)| == |word|;
    }
  }

  /** A length group is truthy exactly when present, and then holds `(digits)`. */
  lemma LengthGroupTruthy(g: string)
    requires g == "" || IsLengthGroup(g)
    ensures PhpEmpty(g) <==> g == ""
    ensures g != "" ==> IsDigits(Trim(g, {'(', ')'})) && g == "(" + Trim(g, {'(', ')'}) + ")"
  {
    if g != "" {
      TrimParentheses(g);
      assert g == "(" + g[1..|g| - 1] + ")";
    }
  }

  /**
    What every produced field holds (lines 235-250): the type is the matched
    type word in upper case; the constraint is present exactly when a
    `(digits)` suffix was matched and then holds those digits alone; the column
    is nullable exactly when `NOT NULL` was not matched; `unsigned` and
    `auto_increment` are set exactly when those words were matched.
  */
  lemma FieldOfMatch(m: ColumnMatch)
    requires Captured(m)
    ensures FieldOf(m).name == m.name && IsWord(FieldOf(m).name)
    ensures FieldOf(m).fieldType == UpperStr(m.typeName) && IsUpperWord(FieldOf(m).fieldType)
    ensures FieldOf(m).constraint.Some? <==> m.length != ""
    ensures FieldOf(m).constraint.Some? ==>
              IsDigits(FieldOf(m).constraint.value) && m.length == "(" + FieldOf(m).constraint.value + ")"
    ensures FieldOf(m).nullable <==> m.notNull == ""
    ensures FieldOf(m).unsigned <==> m.unsigned != ""
    ensures FieldOf(m).autoIncrement <==> m.autoIncrement != ""
  {
    UpperWord(m.typeName);
    LengthGroupTruthy(m.length);
    KeywordGroupTruthy(m.unsigned, "UNSIGNED");
    KeywordGroupTruthy(m.notNull, "NOT NULL");
    KeywordGroupTruthy(m.autoIncrement, "AUTO_INCREMENT");
  }

  /** What one line of the table body contributes (lines 229-252): a field, or nothing. */
  function ParseLine(line: string): (r: Option<Field>)
    ensures IsKeyLine(Trim(line, LineTrimChars)) ==> r.None?
    ensures r.Some? ==> IsWord(r.value.name) && IsUpperWord(r.value.fieldType)
    ensures r.Some? && r.value.constraint.Some? ==> IsDigits(r.value.constraint.value)
  {
    var t := Trim(line, LineTrimChars);
    if IsKeyLine(t) then None
    else
      match FirstColumnMatch(t, 0)
      case None => None
      case Some(m) => FieldOfMatch(m); Some(FieldOf(m))
  }

  /** What each line of the body contributes, line by line. */
  function ParsedLines(lines: seq<string>): (r: seq<Option<Field>>)
    ensures |r| == |lines|
    ensures forall j :: 0 <= j < |lines| ==> r[j] == ParseLine(lines[j])
  {
    seq(|lines|, j requires 0 <= j < |lines| => ParseLine(lines[j]))
  }

  /** The fields of a sequence of body lines, in line order. */
  function FieldsOf(lines: seq<string>): (fields: seq<Field>)
    ensures |fields| <= |lines|
  {
    Somes(ParsedLines(lines))
  }

  /**
    At most one field per line, in line order, and nothing lost: `origin[k]`
    is the line of the `k`-th field, the origins increase, and they are
    exactly the lines that `ParseLine` accepts. Key lines are never among
    them.
  */
  lemma FieldOrigins(lines: seq<string>) returns (origin: seq<nat>)
    ensures |origin| == |FieldsOf(lines)|
    ensures forall k :: 0 <= k < |origin| ==>
              origin[k] < |lines| && ParseLine(lines[origin[k]]) == Some(FieldsOf(lines)[k])
    ensures forall k, l :: 0 <= k < l < |origin| ==> origin[k] < origin[l]
    ensures forall j :: 0 <= j < |lines| && ParseLine(lines[j]).Some? ==> j in origin
    ensures forall k :: 0 <= k < |origin| ==> !IsKeyLine(Trim(lines[origin[k]], LineTrimChars))
  {
    var parsed := ParsedLines(lines);
    origin := SomesOrigins(parsed);
    forall k | 0 <= k < |origin|
      ensures !IsKeyLine(Trim(lines[origin[k]], LineTrimChars))
    {
      assert parsed[origin[k]].Some?;
    }
  }

  /** Every field has a word for a name and an upper-case word for a type. */
  lemma FieldsWellFormed(lines: seq<string>)
    ensures forall k :: 0 <= k < |FieldsOf(lines)| ==>
              IsWord(FieldsOf(lines)[k].name) && IsUpperWord(FieldsOf(lines)[k].fieldType)
  {
    var origin := FieldOrigins(lines);
    forall k | 0 <= k < |FieldsOf(lines)|
      ensures IsWord(FieldsOf(lines)[k].name) && IsUpperWord(FieldsOf(lines)[k].fieldType)
    {
      assert ParseLine(lines[origin[k]]) == Some(FieldsOf(lines)[k]);
    }
  }

  /**
    A body written on one line yields no field at all when that line holds
    `KEY` anywhere, as a one-line `CREATE TABLE` with a `PRIMARY KEY` clause does:
    the whole body is a single line, and it is skipped.
  */
  lemma OneLineKeyBodyHasNoFields(body: string)
    requires '\n' !in body
    requires ContainsCI(Trim(body, LineTrimChars), "KEY")
    ensures FieldsOf(Split(body, '\n')) == []
  {
    SplitNoSeparator(body, '\n');
    KeyLineIsKeyOrIndex(Trim(body, LineTrimChars));
    assert ParsedLines([body]) == [None];
  }

  /**
    `parseFields` (lines 223-256): split the body on line feeds, trim each
    line, and keep, in order, the field of every line that is not a key line
    and matches the column pattern.
  */
  method ParseFields(definition: string) returns (fields: seq<Field>)
    ensures fields == FieldsOf(Split(definition, '\n'))
    ensures |fields| <= |Split(definition, '\n')|
  {
    var lines := Split(definition, '\n');
    ghost var parsed := ParsedLines(lines);
    fields := [];
    var i := 0;
    while i < |lines|
      invariant 0 <= i <= |lines|
      invariant fields == Somes(parsed[..i])
    {
      var line := Trim(lines[i], LineTrimChars);
      var field: Option<Field>;
      if IsKeyLine(line) {
        field := None;
      } else {
        match FirstColumnMatch(line, 0)
        case None => field := None;
        case Some(m) => field := Some(FieldOf(m));
      }
      assert field == parsed[i];
      var next := i + 1;
      SomesSnoc(parsed, i, next);
      var kept: seq<Field> := if field.Some? then [field.value] else [];
      fields := fields + kept;
      i := next;
    }
    assert parsed[..i] == parsed;
  }

  /// What the column scanner finds

  /** A `(digits)` group at `i` is taken whole by `(\(\d+\))?`. */
  lemma {:induction false} LengthGroupFound(s: string, i: nat, digits: string)
    requires IsDigits(digits)
    requires i + |digits| + 2 <= |s|
    requires s[i..i + |digits| + 2] == "(" + digits + ")"
    ensures LengthGroupAt(s, i) == "(" + digits + ")"
  {
    var n := |digits|;
    assert s[i] == '(';
    forall k | i + 1 <= k < i + 1 + n ensures InClass(s[k], Digit) {
      assert s[k] == s[i..i + n + 2][k - i] == digits[k - i - 1];
    }
    assert s[i + 1 + n] == s[i..i + n + 2][n + 1] == ')';
    RunLengthExact(s, i + 1, Digit, n);
  }
  /** Splits a sequence known from position `i` on into its two parts. */
  lemma {:induction false} SplitSuffix<T>(s: seq<T>, i: nat, a: seq<T>, b: seq<T>)
    requires i <= |s| && s[i..] == a + b
    ensures i + |a| <= |s| && s[i..i + |a|] == a && s[i + |a|..] == b
  {
    assert s[i..i + |a|] == (s[i..])[..|a|];
    assert s[i + |a|..] == (s[i..])[|a|..];
  }

  /**
    One optional keyword group as it may be written in a column line: absent,
    or white space (possibly none) followed by the keyword in some case.
  */
  datatype Written = Absent | Present(space: string, text: string)
  {
    /** The text the group takes up in the line. */
    function Spelling(): string {
      if Absent? then "" else space + text
    }

    /** What the capture group holds. */
    function Capture(): string {
      if Absent? then "" else text
    }
  }

  predicate AllSpace(t: string) {
    forall k :: 0 <= k < |t| ==> IsSpace(t[k])
  }

  /** `word` comes next in `t`, in any case, after the white space that starts `t`. */
  predicate ComesNext(t: string, word: string) {
    MatchesCIAt(t, SkipSpace(t, 0), word)
  }

  /**
    A keyword group as PCRE reads it in front of the text `t`: a present group
    is white space and the keyword in some case; an absent group is one whose
    keyword does not come next in `t`.
  */
  predicate GroupWritten(w: Written, word: string, t: string) {
    match w
    case Absent => !ComesNext(t, word)
    case Present(space, text) => AllSpace(space) && UpperStr(text) == UpperStr(word)
  }

  /**
    The text `after` the type word of a column line, as written: an optional
    `(digits)` length, absent only when no such group starts the text after
    it; the groups `UNSIGNED`, `NOT NULL` and `AUTO_INCREMENT`; then `rest`,
    which may be any text at all.
  */
  predicate ModifiersWritten(after: string, len: string, u: Written, n: Written, a: Written, rest: string) {
    var ta := a.Spelling() + rest;
    var tn := n.Spelling() + ta;
    var tu := u.Spelling() + tn;
    && after == len + tu
    && (if len == "" then LengthGroupAt(tu, 0) == "" else IsLengthGroup(len))
    && GroupWritten(u, "UNSIGNED", tn)
    && GroupWritten(n, "NOT NULL", ta)
    && GroupWritten(a, "AUTO_INCREMENT", rest)
  }

  /** A run measured in the text from `j` on is the same run in the whole text. */
  lemma {:induction false} RunLengthShift(s: string, j: nat, t: string, k: nat, cls: CharClass)
    requires j <= |s| && s[j..] == t && k <= |t|
    ensures RunLength(s, j + k, cls) == RunLength(t, k, cls)
  {
    var n := RunLength(t, k, cls);
    RunLengthClass(t, k, cls);
    forall m | j + k <= m < j + k + n ensures InClass(s[m], cls) {
      assert s[m] == t[m - j];
    }
    if j + k + n < |s| {
      assert s[j + k + n] == t[k + n];
    }
    RunLengthExact(s, j + k, cls, n);
  }

  /** A case-insensitive occurrence in the text from `j` on is one in the whole text, and the converse. */
  lemma {:induction false} MatchesCIShift(s: string, j: nat, t: string, k: nat, word: string)
    requires j <= |s| && s[j..] == t
    ensures MatchesCIAt(s, j + k, word) <==> MatchesCIAt(t, k, word)
  {
    if k + |word| <= |t| {
      var a, b := s[j + k..j + k + |word|], t[k..k + |word|];
      forall m | 0 <= m < |word| ensures a[m] == b[m] {
        assert t[k + m] == s[j + k + m];
      }
      assert a == b;
    }
  }

  /** The length group at `i` is the one that starts the text from `i` on. */
  lemma {:induction false} LengthGroupShift(s: string, i: nat, t: string)
    requires i <= |s| && s[i..] == t
    ensures LengthGroupAt(s, i) == LengthGroupAt(t, 0)
  {
    if i < |s| {
      assert s[i] == t[0];
      RunLengthShift(s, i, t, 1, Digit);
      var d := RunLength(t, 1, Digit);
      if d > 0 && 1 + d < |t| {
        assert s[i + 1 + d] == t[1 + d];
        assert s[i..i + d + 2] == t[0..d + 2];
      }
    }
  }

  /**
    One keyword group of the column pattern, `\s*(WORD)?`, read from `j`: the
    group captures what is written, and the next group is looked for at `e`,
    where the text `t` after it starts.
  */
  lemma {:induction false} KeywordStep(s: string, j: nat, word: string, w: Written, t: string) returns (e: nat)
    requires j <= |s| && |word| > 0 && IsLetter(word[0])
    requires s[j..] == w.Spelling() + t
    requires GroupWritten(w, word, t)
    ensures e == |s| - |t| && e <= |s| && s[e..] == t
    ensures KeywordAt(s, j, word) == Group(w.Capture(), e)
  {
    if w.Present? {
      e := KeywordPresent(s, j, word, w.space, w.text, t);
    } else {
      KeywordAbsent(s, j, word, t);
      e := j;
    }
  }

  /** A keyword group that is there: white space, then the keyword as written. */
  lemma {:induction false} KeywordPresent(s: string, j: nat, word: string, space: string, text: string, t: string)
    returns (e: nat)
    requires j <= |s| && |word| > 0 && IsLetter(word[0])
    requires s[j..] == (space + text) + t
    requires AllSpace(space) && UpperStr(text) == UpperStr(word)
    ensures e == |s| - |t| && e <= |s| && s[e..] == t
    ensures KeywordAt(s, j, word) == Group(text, e)
  {
    var k;
    k, e := GroupParts(s, j, space, text, t);
    FirstOfSlice(s, k, e, text);
    LetterStart(text, word);
    RunExact(s, j, space, Space);
    KeywordAtOf(s, j, word, k, e, text);
  }

  /** Where the white space, the keyword and the text after it lie in `s`. */
  lemma {:induction false} GroupParts(s: string, j: nat, space: string, text: string, t: string)
    returns (k: nat, e: nat)
    requires j <= |s| && s[j..] == (space + text) + t && |text| > 0
    ensures k == j + |space| && e == k + |text| && e == |s| - |t| && e <= |s|
    ensures s[j..j + |space|] == space && s[k..e] == text && s[e..] == t
  {
    assert s[j..] == space + (text + t);
    SplitSuffix(s, j, space, text + t);
    k := j + |space|;
    SplitSuffix(s, k, text, t);
    e := k + |text|;
  }

  /** A case variant of a word that starts with a letter does not start with white space. */
  lemma {:induction false} LetterStart(text: string, word: string)
    requires |word| > 0 && IsLetter(word[0]) && UpperStr(text) == UpperStr(word)
    ensures |text| == |word| && !IsSpace(text[0])
  {
    assert UpperStr(text)[0] == Upper(text[0]);
    assert UpperStr(word)[0] == Upper(word[0]);
  }

  /** `KeywordAt` where the white space ends at `k` and the keyword runs from `k` to `e`. */
  lemma {:induction false} KeywordAtOf(s: string, j: nat, word: string, k: nat, e: nat, text: string)
    requires j <= k <= e <= |s| && e == k + |word| && |word| > 0
    requires SkipSpace(s, j) == k
    requires s[k..e] == text && UpperStr(text) == UpperStr(word)
    ensures KeywordAt(s, j, word) == Group(text, e)
  {
    assert MatchesCIAt(s, k, word);
  }

  /** No keyword group where the keyword does not come next. */
  lemma {:induction false} KeywordAbsent(s: string, j: nat, word: string, t: string)
    requires j <= |s| && s[j..] == t
    requires !ComesNext(t, word)
    ensures KeywordAt(s, j, word) == Group("", j)
  {
    var k := SkipSpace(t, 0);
    RunLengthShift(s, j, t, 0, Space);
    assert SkipSpace(s, j) == j + k;
    MatchesCIShift(s, j, t, k, word);
    assert OptionalWord(s, j + k, word) == "";
  }

  /** The length group as written, and where the text after it starts. */
  lemma {:induction false} LengthStep(s: string, i: nat, len: string, t: string)
    requires i <= |s| && s[i..] == len + t
    requires if len == "" then LengthGroupAt(t, 0) == "" else IsLengthGroup(len)
    ensures LengthGroupAt(s, i) == len
    ensures s[LengthEnd(s, i)..] == t
  {
    SplitSuffix(s, i, len, t);
    if len != "" {
      assert len == "(" + len[1..|len| - 1] + ")";
      LengthGroupFound(s, i, len[1..|len| - 1]);
    } else {
      LengthGroupShift(s, i, t);
    }
  }

  /**
    After the type word, the optional `(digits)` length and the keyword groups
    `UNSIGNED`, `NOT NULL` and `AUTO_INCREMENT`, in any case and after any
    white space, are captured exactly as they are written, whatever text
    follows them.
  */
  lemma {:induction false} ModifiersFound(s: string, i: nat, name: string, typeName: string,
                       len: string, u: Written, n: Written, a: Written, rest: string)
    requires i <= |s|
    requires ModifiersWritten(s[i..], len, u, n, a, rest)
    ensures ModifiersAt(s, i, name, typeName)
            == ColumnMatch(name, typeName, len, u.Capture(), n.Capture(), a.Capture())
  {
    var ta := a.Spelling() + rest;
    var tn := n.Spelling() + ta;
    var tu := u.Spelling() + tn;
    LengthStep(s, i, len, tu);
    var j1 := KeywordStep(s, LengthEnd(s, i), "UNSIGNED", u, tn);
    var j2 := KeywordStep(s, j1, "NOT NULL", n, ta);
    var j3 := KeywordStep(s, j2, "AUTO_INCREMENT", a, rest);
    ModifiersOfGroups(s, i, name, typeName, len, u.Capture(), j1, n.Capture(), j2, a.Capture(), j3);
  }

  /** `ModifiersAt` from the groups found one after the other. */
  lemma {:induction false} ModifiersOfGroups(s: string, i: nat, name: string, typeName: string, len: string,
                                             ut: string, j1: nat, nt: string, j2: nat, at: string, j3: nat)
    requires i <= |s| && LengthGroupAt(s, i) == len
    requires KeywordAt(s, LengthEnd(s, i), "UNSIGNED") == Group(ut, j1) && j1 <= |s|
    requires KeywordAt(s, j1, "NOT NULL") == Group(nt, j2) && j2 <= |s|
    requires KeywordAt(s, j2, "AUTO_INCREMENT") == Group(at, j3)
    ensures ModifiersAt(s, i, name, typeName) == ColumnMatch(name, typeName, len, ut, nt, at)
  {
  }

  /**
    `HeadAt` in terms of the positions its pattern passes through: the name
    from `nameStart` to `nameEnd`, the gap of white space from `gap`, and the
    type word from `typeStart` to `typeEnd`.
  */
  lemma {:induction false} HeadAtRuns(s: string, nameStart: nat, nameEnd: nat, gap: nat, typeStart: nat, typeEnd: nat,
                                      name: string, typeName: string)
    requires nameStart == (if 0 < |s| && s[0] == '`' then 1 else 0) && nameStart <= |s|
    requires nameEnd == nameStart + RunLength(s, nameStart, Word)
    requires gap == (if nameEnd < |s| && s[nameEnd] == '`' then nameEnd + 1 else nameEnd) && gap <= |s|
    requires typeStart == SkipSpace(s, gap)
    requires typeEnd == typeStart + RunLength(s, typeStart, Word)
    requires nameStart < nameEnd && gap < typeStart && typeStart < typeEnd
    requires s[nameStart..nameEnd] == name && s[typeStart..typeEnd] == typeName
    ensures HeadAt(s, 0) == Some(Head(name, typeName, typeEnd))
  {
  }

  /** A run of `cls` characters at `i`, followed by one that is not, is exactly that long. */
  lemma {:induction false} RunExact(s: string, i: nat, w: string, cls: CharClass)
    requires i + |w| <= |s| && s[i..i + |w|] == w
    requires forall k :: 0 <= k < |w| ==> InClass(w[k], cls)
    requires i + |w| == |s| || !InClass(s[i + |w|], cls)
    ensures RunLength(s, i, cls) == |w|
  {
    forall k | i <= k < i + |w| ensures InClass(s[k], cls) {
      assert s[k] == s[i..i + |w|][k - i];
    }
    RunLengthExact(s, i, cls, |w|);
  }

  /**
    `HeadAt` where the text holds a name, white space and a type word at the
    given positions, each run ended by a character outside its class.
  */
  lemma {:induction false} HeadOfRuns(s: string, nameStart: nat, nameEnd: nat, gap: nat, typeStart: nat, typeEnd: nat,
                                      name: string, sp: string, typeName: string)
    requires nameStart == (if 0 < |s| && s[0] == '`' then 1 else 0)
    requires nameStart < nameEnd <= gap < typeStart < typeEnd <= |s|
    requires s[nameStart..nameEnd] == name && IsWord(name) && !IsWordChar(s[nameEnd])
    requires gap == (if s[nameEnd] == '`' then nameEnd + 1 else nameEnd)
    requires s[gap..typeStart] == sp && forall k :: 0 <= k < |sp| ==> IsSpace(sp[k])
    requires !IsSpace(s[typeStart])
    requires s[typeStart..typeEnd] == typeName && IsWord(typeName)
    requires typeEnd == |s| || !IsWordChar(s[typeEnd])
    ensures HeadAt(s, 0) == Some(Head(name, typeName, typeEnd))
  {
    forall k | 0 <= k < |name| ensures InClass(name[k], Word) { }
    RunExact(s, nameStart, name, Word);
    forall k | 0 <= k < |sp| ensures InClass(sp[k], Space) { }
    RunExact(s, gap, sp, Space);
    forall k | 0 <= k < |typeName| ensures InClass(typeName[k], Word) { }
    RunExact(s, typeStart, typeName, Word);
    HeadAtRuns(s, nameStart, nameEnd, gap, typeStart, typeEnd, name, typeName);
  }

  /** The runs of a name in backticks, white space and a type word. */
  lemma {:induction false} HeadQuoted(s: string, name: string, sp: string, typeName: string, after: string)
    returns (e: nat)
    requires IsWord(name) && IsWord(typeName)
    requires |sp| > 0 && forall k :: 0 <= k < |sp| ==> IsSpace(sp[k])
    requires after == [] || !IsWordChar(after[0])
    requires s == "`" + name + "`" + (sp + (typeName + after))
    ensures e == |s| - |after| && HeadAt(s, 0) == Some(Head(name, typeName, e))
  {
    var nameEnd, gap, typeStart;
    nameEnd, gap, typeStart, e := QuotedParts(s, name, sp, typeName, after);
    HeadOfRuns(s, 1, nameEnd, gap, typeStart, e, name, sp, typeName);
  }

  /** The runs of a bare name, white space and a type word. */
  lemma {:induction false} HeadBare(s: string, name: string, sp: string, typeName: string, after: string)
    returns (e: nat)
    requires IsWord(name) && IsWord(typeName)
    requires |sp| > 0 && forall k :: 0 <= k < |sp| ==> IsSpace(sp[k])
    requires after == [] || !IsWordChar(after[0])
    requires s == name + (sp + (typeName + after))
    ensures e == |s| - |after| && HeadAt(s, 0) == Some(Head(name, typeName, e))
  {
    var nameEnd, typeStart;
    nameEnd, typeStart, e := BareParts(s, name, sp, typeName, after);
    HeadOfRuns(s, 0, nameEnd, nameEnd, typeStart, e, name, sp, typeName);
  }

  /**
    Where a name in backticks, the white space and the type word lie in `s`:
    the name ends at `nameEnd`, the white space runs from `gap` to
    `typeStart`, and the type word ends at `e`.
  */
  lemma {:induction false} QuotedParts(s: string, name: string, sp: string, typeName: string, after: string)
    returns (nameEnd: nat, gap: nat, typeStart: nat, e: nat)
    requires |sp| > 0 && |typeName| > 0
    requires s == "`" + name + "`" + (sp + (typeName + after))
    ensures nameEnd == |name| + 1 && gap == nameEnd + 1 && typeStart == gap + |sp|
    ensures e == |s| - |after| && typeStart + |typeName| == e
    ensures s[0] == '`' && s[1..nameEnd] == name && s[nameEnd] == '`'
    ensures s[gap..typeStart] == sp && s[typeStart..e] == typeName
    ensures s[gap] == sp[0] && s[typeStart] == typeName[0]
    ensures e < |s| ==> s[e] == after[0]
  {
    var h := "`" + name + "`";
    gap, typeStart, e := HeadParts(s, h, sp, typeName, after);
    QuotedName(s, name, h);
    RunEnds(s, gap, typeStart, e, sp, typeName, after);
    nameEnd := |name| + 1;
  }

  /**
    Where a bare name, the white space and the type word lie in `s`: the
    name ends at `nameEnd`, the white space runs from there to `typeStart`,
    and the type word ends at `e`.
  */
  lemma {:induction false} BareParts(s: string, name: string, sp: string, typeName: string, after: string)
    returns (nameEnd: nat, typeStart: nat, e: nat)
    requires |name| > 0 && |sp| > 0 && |typeName| > 0
    requires s == name + (sp + (typeName + after))
    ensures nameEnd == |name| && typeStart == nameEnd + |sp|
    ensures e == |s| - |after| && typeStart + |typeName| == e
    ensures s[0] == name[0] && s[0..nameEnd] == name
    ensures s[nameEnd..typeStart] == sp && s[typeStart..e] == typeName
    ensures s[nameEnd] == sp[0] && s[typeStart] == typeName[0]
    ensures e < |s| ==> s[e] == after[0]
  {
    nameEnd, typeStart, e := HeadParts(s, name, sp, typeName, after);
    FirstOfSlice(s, 0, nameEnd, name);
    RunEnds(s, nameEnd, typeStart, e, sp, typeName, after);
  }

  /**
    Where the head, the white space, the type word and the rest lie in `s`:
    the white space starts at `g`, the type word at `t`, the rest at `e`.
  */
  lemma {:induction false} HeadParts(s: string, h: string, sp: string, typeName: string, after: string)
    returns (g: nat, t: nat, e: nat)
    requires s == h + (sp + (typeName + after))
    ensures g == |h| && t == g + |sp| && e == |s| - |after| && t + |typeName| == e
    ensures s[0..g] == h
    ensures s[g..t] == sp
    ensures s[t..e] == typeName
    ensures s[e..] == after
  {
    g := |h|;
    t := |h| + |sp|;
    e := |s| - |after|;
    SplitSuffix(s, 0, h, sp + (typeName + after));
    SplitSuffix(s, g, sp, typeName + after);
    SplitSuffix(s, t, typeName, after);
  }

  /** A name in backticks at the start of `s`. */
  lemma {:induction false} QuotedName(s: string, name: string, h: string)
    requires h == "`" + name + "`" && |h| <= |s| && s[0..|h|] == h
    ensures |h| == |name| + 2
    ensures s[0] == '`' && s[1..1 + |name|] == name && s[1 + |name|] == '`'
  {
    assert s[0] == h[0] && s[1 + |name|] == h[1 + |name|];
    assert s[1..1 + |name|] == h[1..1 + |name|];
  }

  /** The first character of a slice. */
  lemma {:induction false} FirstOfSlice(s: string, i: nat, j: nat, w: string)
    requires i < j <= |s| && s[i..j] == w
    ensures s[i] == w[0]
  {
    assert s[i] == s[i..j][0];
  }

  /** The characters that start the white space and the type word, and the one after the type word. */
  lemma {:induction false} RunEnds(s: string, g: nat, t: nat, e: nat, sp: string, typeName: string, after: string)
    requires |sp| > 0 && |typeName| > 0 && g + |sp| == t && t + |typeName| == e && e <= |s|
    requires s[g..t] == sp && s[t..e] == typeName && s[e..] == after
    ensures s[g] == sp[0] && s[t] == typeName[0]
    ensures e < |s| ==> s[e] == after[0]
  {
    FirstOfSlice(s, g, t, sp);
    FirstOfSlice(s, t, e, typeName);
    if e < |s| {
      FirstOfSlice(s, e, |s|, after);
    }
  }

  /**
    A line that starts with a column name (bare or in backticks), white
    space and a type word is matched at its start, with exactly that name and
    type; the optional groups are read from right after the type word.
  */
  lemma {:induction false} HeadFound(s: string, quoted: bool, name: string, sp: string, typeName: string, after: string)
    returns (e: nat)
    requires IsWord(name) && IsWord(typeName)
    requires |sp| > 0 && forall k :: 0 <= k < |sp| ==> IsSpace(sp[k])
    requires after == [] || !IsWordChar(after[0])
    requires s == (if quoted then "`" + name + "`" else name) + (sp + (typeName + after))
    ensures e == |s| - |after| && HeadAt(s, 0) == Some(Head(name, typeName, e))
  {
    if quoted {
      e := HeadQuoted(s, name, sp, typeName, after);
    } else {
      e := HeadBare(s, name, sp, typeName, after);
    }
  }

  /**
    A column line: a name (bare or in backticks), white space and a type word;
    then an optional `(digits)` length and the keywords `UNSIGNED`, `NOT NULL`
    and `AUTO_INCREMENT`, each optional, in any case and after any white
    space; then any text. The line is matched at its start and captured
    exactly as written. The type word ends where `after` starts, and a
    keyword group counts as absent only where its keyword does not come next.
  */
  lemma {:induction false} ColumnLineFound(s: string, quoted: bool, name: string, sp: string, typeName: string,
                        after: string, len: string, u: Written, n: Written, a: Written, rest: string)
    requires IsWord(name) && IsWord(typeName)
    requires |sp| > 0 && AllSpace(sp)
    requires after == [] || !IsWordChar(after[0])
    requires s == (if quoted then "`" + name + "`" else name) + (sp + (typeName + after))
    requires ModifiersWritten(after, len, u, n, a, rest)
    ensures ColumnAt(s, 0) == Some(ColumnMatch(name, typeName, len, u.Capture(), n.Capture(), a.Capture()))
  {
    var i := HeadThenRest(s, quoted, name, sp, typeName, after);
    ColumnFromHead(s, name, typeName, i, len, u, n, a, rest);
  }

  /** The head of a column line, and the text after its type word. */
  lemma {:induction false} HeadThenRest(s: string, quoted: bool, name: string, sp: string, typeName: string, after: string)
    returns (i: nat)
    requires IsWord(name) && IsWord(typeName)
    requires |sp| > 0 && forall k :: 0 <= k < |sp| ==> IsSpace(sp[k])
    requires after == [] || !IsWordChar(after[0])
    requires s == (if quoted then "`" + name + "`" else name) + (sp + (typeName + after))
    ensures i == |s| - |after|
    ensures HeadAt(s, 0) == Some(Head(name, typeName, i))
    ensures s[i..] == after
  {
    i := HeadFound(s, quoted, name, sp, typeName, after);
    SplitSuffix(s, i, after, []);
  }

  /** A matched head followed by the optional groups gives the whole column match. */
  lemma {:induction false} ColumnFromHead(s: string, name: string, typeName: string, i: nat,
                        len: string, u: Written, n: Written, a: Written, rest: string)
    requires i <= |s| && HeadAt(s, 0) == Some(Head(name, typeName, i))
    requires ModifiersWritten(s[i..], len, u, n, a, rest)
    ensures ColumnAt(s, 0) == Some(ColumnMatch(name, typeName, len, u.Capture(), n.Capture(), a.Capture()))
  {
    ModifiersFound(s, i, name, typeName, len, u, n, a, rest);
    ColumnOfParts(s, name, typeName, i, ColumnMatch(name, typeName, len, u.Capture(), n.Capture(), a.Capture()));
  }

  /** `ColumnAt` from its head and its optional part. */
  lemma {:induction false} ColumnOfParts(s: string, name: string, typeName: string, i: nat, m: ColumnMatch)
    requires HeadAt(s, 0) == Some(Head(name, typeName, i))
    requires ModifiersAt(s, i, name, typeName) == m
    ensures ColumnAt(s, 0) == Some(m)
  {
  }

  /** `preg_match` returns the column match at the leftmost position where there is one. */
  lemma {:induction false} FirstColumnMatchPosition(s: string, p: nat) returns (q: nat)
    requires p <= |s|
    requires FirstColumnMatch(s, p).Some?
    ensures p <= q <= |s| && ColumnAt(s, q) == FirstColumnMatch(s, p)
    ensures forall q' :: p <= q' < q ==> ColumnAt(s, q').None?
  {
    q := FirstSomePosition(ColumnAttempts(s), p);
  }

  /** A match at the very start of a line is the one `preg_match` reports. */
  lemma {:induction false} FirstColumnMatchAtStart(s: string)
    requires ColumnAt(s, 0).Some?
    ensures FirstColumnMatch(s, 0) == ColumnAt(s, 0)
  {
  }

  /** A line that is not a key line and matches the column pattern gives the field of that match. */
  lemma {:induction false} ParseLineOfMatch(line: string, m: ColumnMatch)
    requires !IsKeyLine(Trim(line, LineTrimChars))
    requires FirstColumnMatch(Trim(line, LineTrimChars), 0) == Some(m)
    ensures ParseLine(line) == Some(FieldOf(m))
  {
  }

  /** A text holding no character that folds to the `j`-th letter of `pat` does not contain `pat`. */
  lemma {:induction false} LetterAbsent(t: string, pat: string, j: nat)
    requires j < |pat|
    requires forall c :: c in t ==> Upper(c) != Upper(pat[j])
    ensures !ContainsCI(t, pat)
  {
    if ContainsCI(t, pat) {
      var i :| 0 <= i <= |t| - |pat| && MatchesCIAt(t, i, pat);
      MatchedLetter(t, i, pat, j);
      assert false;
    }
  }

  /** The `j`-th character of a case-insensitive match folds to the `j`-th letter of the pattern. */
  lemma {:induction false} MatchedLetter(t: string, i: nat, pat: string, j: nat)
    requires j < |pat| && MatchesCIAt(t, i, pat)
    ensures i + j < |t| && t[i + j] in t && Upper(t[i + j]) == Upper(pat[j])
  {
    assert UpperStr(t[i..i + |pat|])[j] == Upper(t[i + j]);
  }

  /** A line without the letters `K` and `X`, in either case, is never skipped. */
  lemma {:induction false} NotKeyLine(t: string)
    requires forall k :: 0 <= k < |t| ==> Upper(t[k]) != 'K' && Upper(t[k]) != 'X'
    ensures !IsKeyLine(t)
  {
    LetterAbsent(t, "FOREIGN KEY", 8);
    LetterAbsent(t, "PRIMARY KEY", 8);
    LetterAbsent(t, "KEY", 0);
    LetterAbsent(t, "INDEX", 4);
  }

  /** The `id` line of a typical users table, token by token, as the column pattern captures it. */
  lemma {:induction false} IdColumnMatch()
    ensures ColumnAt("`id`" + " INT" + " UNSIGNED" + " NOT NULL" + " AUTO_INCREMENT", 0)
            == Some(ColumnMatch("id", "INT", "", "UNSIGNED", "NOT NULL", "AUTO_INCREMENT"))
  {
    var s := "`id`" + " INT" + " UNSIGNED" + " NOT NULL" + " AUTO_INCREMENT";
    var after := " UNSIGNED" + " NOT NULL" + " AUTO_INCREMENT";
    var u, n, a := Present(" ", "UNSIGNED"), Present(" ", "NOT NULL"), Present(" ", "AUTO_INCREMENT");
    assert s == "`" + "id" + "`" + (" " + ("INT" + after));
    assert after == "" + (u.Spelling() + (n.Spelling() + (a.Spelling() + "")));
    assert IsWord("id") && IsWord("INT");
    ColumnLineFound(s, true, "id", " ", "INT", after, "", u, n, a, "");
  }

  /**
    The `id` line as mysqldump writes it, with a display width and a
    lower-case `unsigned`: each group is captured as written.
  */
  lemma {:induction false} DumpIdColumnMatch()
    ensures ColumnAt("`id`" + " int(11)" + " unsigned" + " NOT NULL" + " AUTO_INCREMENT", 0)
            == Some(ColumnMatch("id", "int", "(11)", "unsigned", "NOT NULL", "AUTO_INCREMENT"))
  {
    var s := "`id`" + " int(11)" + " unsigned" + " NOT NULL" + " AUTO_INCREMENT";
    var after := "(11)" + " unsigned" + " NOT NULL" + " AUTO_INCREMENT";
    var u, n, a := Present(" ", "unsigned"), Present(" ", "NOT NULL"), Present(" ", "AUTO_INCREMENT");
    assert s == "`" + "id" + "`" + (" " + ("int" + after));
    assert after == "(11)" + (u.Spelling() + (n.Spelling() + (a.Spelling() + "")));
    assert IsWord("id") && IsWord("int") && IsLengthGroup("(11)");
    UnsignedUpper();
    ColumnLineFound(s, true, "id", " ", "int", after, "(11)", u, n, a, "");
  }

  /** `unsigned` folds to `UNSIGNED`. */
  lemma {:induction false} UnsignedUpper()
    ensures UpperStr("unsigned") == UpperStr("UNSIGNED")
  {
    var u := UpperStr("unsigned");
    var v := UpperStr("UNSIGNED");
    forall k | 0 <= k < 8 ensures u[k] == v[k] { }
  }

  /** The `name` line of a typical users table, as the column pattern captures it. */
  lemma {:induction false} NameColumnMatch()
    ensures ColumnAt("`name`" + " VARCHAR(255)", 0) == Some(ColumnMatch("name", "VARCHAR", "(255)", "", "", ""))
  {
    var s := "`name`" + " VARCHAR(255)";
    var after := "(255)";
    assert s == "`" + "name" + "`" + (" " + ("VARCHAR" + after));
    assert after == "(255)" + (Absent.Spelling() + (Absent.Spelling() + (Absent.Spelling() + "")));
    assert IsWord("name") && IsWord("VARCHAR") && IsLengthGroup("(255)");
    ColumnLineFound(s, true, "name", " ", "VARCHAR", after, "(255)", Absent, Absent, Absent, "");
  }

  /**
    A `decimal(10,2) NOT NULL` column: `(10,2)` is no `(digits)` group, so
    every optional group is empty where the type word ends, and the
    `NOT NULL` further on is not captured.
  */
  lemma {:induction false} DecimalColumnMatch()
    ensures ColumnAt("`price`" + " decimal(10,2)" + " NOT NULL", 0) == Some(ColumnMatch("price", "decimal", "", "", "", ""))
  {
    var s := "`price`" + " decimal(10,2)" + " NOT NULL";
    var after := "(10,2)" + " NOT NULL";
    assert s == "`" + "price" + "`" + (" " + ("decimal" + after));
    assert IsWord("price") && IsWord("decimal");
    assert after == [] || !IsWordChar(after[0]);
    NothingNextAfterDecimal(after);
    ColumnLineFound(s, true, "price", " ", "decimal", after, "", Absent, Absent, Absent, after);
  }

  /**
    Where no length group and no keyword comes next, every optional group
    is absent and the whole text is left over.
  */
  lemma {:induction false} NothingWritten(after: string)
    requires LengthGroupAt(after, 0) == ""
    requires !ComesNext(after, "UNSIGNED") && !ComesNext(after, "NOT NULL") && !ComesNext(after, "AUTO_INCREMENT")
    ensures ModifiersWritten(after, "", Absent, Absent, Absent, after)
  {
    assert "" + after == after;
  }

  /** No length group and no keyword starts `(10,2) NOT NULL`, so no optional group is written there. */
  lemma {:induction false} NothingNextAfterDecimal(t: string)
    requires t == "(10,2)" + " NOT NULL"
    ensures ModifiersWritten(t, "", Absent, Absent, Absent, t)
  {
    assert t[0] == '(' && t[1] == '1' && t[2] == '0' && t[3] == ',';
    RunLengthExact(t, 1, Digit, 2);
    RunLengthExact(t, 0, Space, 0);
    assert UpperStr(t[0..8])[0] == '(';
    NothingWritten(t);
  }

  /** A column line followed by the comma of a multi-line dump is trimmed back to the column text. */
  lemma {:induction false} TrimmedColumnLine(t: string)
    requires |t| > 0 && t[0] !in LineTrimChars && t[|t| - 1] !in LineTrimChars
    ensures Trim(t + ",", LineTrimChars) == t
  {
    var l := t + ",";
    assert l[0] == t[0];
    assert LeadEnd(l, LineTrimChars, 0) == 0;
    assert l[|l| - 2] == t[|t| - 1];
    assert TrailStart(l, LineTrimChars, |l| - 1) == |l| - 1;
    assert l[..|l| - 1] == t;
  }

  /** The field made from the `id` column's match. */
  lemma {:induction false} IdField()
    ensures FieldOf(ColumnMatch("id", "INT", "", "UNSIGNED", "NOT NULL", "AUTO_INCREMENT"))
            == Field("id", "INT", None, true, false, true)
  {
    assert UpperStr("INT") == "INT";
  }

  /** `VARCHAR` is already upper case. */
  lemma {:induction false} VarcharUpper()
    ensures UpperStr("VARCHAR") == "VARCHAR"
  {
    var u := UpperStr("VARCHAR");
    forall k | 0 <= k < 7 ensures u[k] == "VARCHAR"[k] { }
  }

  /** Trimming the parentheses off `(255)` leaves `255`. */
  lemma {:induction false} LengthDigits()
    ensures Trim("(255)", {'(', ')'}) == "255"
  {
    TrimParentheses("(255)");
    assert "(255)"[1..4] == "255";
  }

  /**
    A column line that the column pattern matches, ending in the comma of a
    multi-line dump and mentioning no `K` and no `X` (so it is no key line),
    gives the field of that match.
  */
  lemma {:induction false} ColumnLineParsed(t: string, m: ColumnMatch)
    requires |t| > 0 && t[0] !in LineTrimChars && t[|t| - 1] !in LineTrimChars
    requires forall k :: 0 <= k < |t| ==> Upper(t[k]) != 'K' && Upper(t[k]) != 'X'
    requires ColumnAt(t, 0) == Some(m)
    ensures ParseLine(t + ",") == Some(FieldOf(m))
  {
    TrimmedColumnLine(t);
    FirstColumnMatchAtStart(t);
    NotKeyLine(t);
    ParseLineOfMatch(t + ",", m);
  }

  /**
    The `id` column line of a typical users table, ending in a comma as in a
    multi-line dump: an unsigned, not-null, auto-increment `INT`.
  */
  lemma {:induction false} IdColumnExample()
    ensures ParseLine("`id`" + " INT" + " UNSIGNED" + " NOT NULL" + " AUTO_INCREMENT" + ",")
            == Some(Field("id", "INT", None, true, false, true))
  {
    var t := "`id`" + " INT" + " UNSIGNED" + " NOT NULL" + " AUTO_INCREMENT";
    assert |t| > 0 && t[0] !in LineTrimChars && t[|t| - 1] !in LineTrimChars;
    assert forall k :: 0 <= k < |t| ==> Upper(t[k]) != 'K' && Upper(t[k]) != 'X';
    IdColumnMatch();
    ColumnLineParsed(t, ColumnMatch("id", "INT", "", "UNSIGNED", "NOT NULL", "AUTO_INCREMENT"));
    IdField();
  }

  /**
    The `name` column line of a typical users table, ending in a comma: a
    nullable `VARCHAR` with constraint `255`.
  */
  lemma {:induction false} NameColumnExample()
    ensures ParseLine("`name`" + " VARCHAR(255)" + ",") == Some(Field("name", "VARCHAR", Some("255"), false, true, false))
  {
    var t := "`name`" + " VARCHAR(255)";
    assert |t| > 0 && t[0] !in LineTrimChars && t[|t| - 1] !in LineTrimChars;
    assert forall k :: 0 <= k < |t| ==> Upper(t[k]) != 'K' && Upper(t[k]) != 'X';
    NameColumnMatch();
    ColumnLineParsed(t, ColumnMatch("name", "VARCHAR", "(255)", "", "", ""));
    VarcharUpper();
    LengthDigits();
  }

  /**
    The mysqldump `id` line, ending in a comma: an unsigned, not-null,
    auto-increment `INT` with constraint `11`.
  */
  lemma {:induction false} DumpIdColumnExample()
    ensures ParseLine("`id`" + " int(11)" + " unsigned" + " NOT NULL" + " AUTO_INCREMENT" + ",")
            == Some(Field("id", "INT", Some("11"), true, false, true))
  {
    var t := "`id`" + " int(11)" + " unsigned" + " NOT NULL" + " AUTO_INCREMENT";
    assert |t| > 0 && t[0] !in LineTrimChars && t[|t| - 1] !in LineTrimChars;
    assert forall k :: 0 <= k < |t| ==> Upper(t[k]) != 'K' && Upper(t[k]) != 'X';
    DumpIdColumnMatch();
    ColumnLineParsed(t, ColumnMatch("id", "int", "(11)", "unsigned", "NOT NULL", "AUTO_INCREMENT"));
    DumpIdField();
  }

  /** The field made from the mysqldump `id` column's match. */
  lemma {:induction false} DumpIdField()
    ensures FieldOf(ColumnMatch("id", "int", "(11)", "unsigned", "NOT NULL", "AUTO_INCREMENT"))
            == Field("id", "INT", Some("11"), true, false, true)
  {
    var u := UpperStr("int");
    forall k | 0 <= k < 3 ensures u[k] == "INT"[k] { }
    TrimParentheses("(11)");
    assert "(11)"[1..3] == "11";
  }

  /**
    A `decimal(10,2) NOT NULL` column line, ending in a comma, gives a
    nullable `DECIMAL` without a constraint: the `NOT NULL` is lost.
  */
  lemma {:induction false} DecimalColumnExample()
    ensures ParseLine("`price`" + " decimal(10,2)" + " NOT NULL" + ",")
            == Some(Field("price", "DECIMAL", None, false, true, false))
  {
    var t := "`price`" + " decimal(10,2)" + " NOT NULL";
    assert |t| > 0 && t[0] !in LineTrimChars && t[|t| - 1] !in LineTrimChars;
    assert forall k :: 0 <= k < |t| ==> Upper(t[k]) != 'K' && Upper(t[k]) != 'X';
    DecimalColumnMatch();
    ColumnLineParsed(t, ColumnMatch("price", "decimal", "", "", "", ""));
    DecimalField();
  }

  /** The field made from the `decimal(10,2)` column's match. */
  lemma {:induction false} DecimalField()
    ensures FieldOf(ColumnMatch("price", "decimal", "", "", "", "")) == Field("price", "DECIMAL", None, false, true, false)
  {
    var u := UpperStr("decimal");
    forall k | 0 <= k < 7 ensures u[k] == "DECIMAL"[k] { }
  }

  /// The primary key

  /**
    The match of /PRIMARY KEY \(`?(\w+)`?\)/i that starts at `p`, if any: the
    column name. As in the column pattern, the greedy choices are final: a
    shorter name run would leave a word character where `` ` `` or `)` is
    needed.
  */
  function PrimaryKeyAt(s: string, p: nat): (r: Option<string>)
    requires p <= |s|
    ensures r.Some? ==> IsWord(r.value) && MatchesCIAt(s, p, "PRIMARY KEY (")
  {
    if !MatchesCIAt(s, p, "PRIMARY KEY (") then None
    else
      var q := p + 13;
      var nameStart := if q < |s| && s[q] == '`' then q + 1 else q;
      var nameEnd := nameStart + RunLength(s, nameStart, Word);
      var close := if nameEnd < |s| && s[nameEnd] == '`' then nameEnd + 1 else nameEnd;
      if nameEnd > nameStart && close < |s| && s[close] == ')' then
        RunLengthClass(s, nameStart, Word);
        WordRun(s, nameStart, nameEnd);
        Some(s[nameStart..nameEnd])
      else None
  }

  /** The primary-key pattern tried at each position of `s` in turn. */
  function PrimaryKeyAttempts(s: string): (r: seq<Option<string>>)
    ensures |r| == |s| + 1
    ensures forall q :: 0 <= q <= |s| ==> r[q] == PrimaryKeyAt(s, q)
  {
    seq(|s| + 1, q requires 0 <= q <= |s| => PrimaryKeyAt(s, q))
  }

  /** `preg_match` with the primary-key pattern: the leftmost match from `p` on, absent exactly when it matches nowhere. */
  function FirstPrimaryKey(s: string, p: nat): (r: Option<string>)
    requires p <= |s|
    ensures r.Some? ==> IsWord(r.value)
    ensures r.None? <==> forall q :: p <= q <= |s| ==> PrimaryKeyAt(s, q).None?
  {
    FirstSome(PrimaryKeyAttempts(s), p)
  }

  /** `parsePrimaryKey` (lines 258-264). */
  function ParsePrimaryKey(definition: string): (r: Option<string>)
    ensures r.Some? ==> IsWord(r.value)
    ensures r.None? <==> forall q :: 0 <= q <= |definition| ==> PrimaryKeyAt(definition, q).None?
  {
    FirstPrimaryKey(definition, 0)
  }

  /**
    `parsePrimaryKey` returns the column of the first `PRIMARY KEY (col)`
    occurrence: there is a position where the pattern matches with that
    column, and it matches at no earlier position.
  */
  lemma {:induction false} FirstPrimaryKeyPosition(s: string, p: nat) returns (q: nat)
    requires p <= |s|
    requires FirstPrimaryKey(s, p).Some?
    ensures p <= q <= |s| && PrimaryKeyAt(s, q) == FirstPrimaryKey(s, p)
    ensures forall q' :: p <= q' < q ==> PrimaryKeyAt(s, q').None?
    ensures MatchesCIAt(s, q, "PRIMARY KEY (")
  {
    q := FirstSomePosition(PrimaryKeyAttempts(s), p);
  }

  /** Without a `PRIMARY KEY (` occurrence, in any case, there is no primary key. */
  lemma NoPrimaryKeyWithoutKeyword(s: string)
    requires !ContainsCI(s, "PRIMARY KEY (")
    ensures ParsePrimaryKey(s).None?
  {
    forall q | 0 <= q <= |s| ensures PrimaryKeyAt(s, q).None? {
      assert !MatchesCIAt(s, q, "PRIMARY KEY (");
    }
  }

  /**
    What a primary-key match captures: the word right after `PRIMARY KEY (`,
    or after a backtick there, followed by an optional backtick and `)`.
  */
  lemma {:induction false} PrimaryKeyShape(s: string, p: nat) returns (start: nat, close: nat)
    requires p <= |s| && PrimaryKeyAt(s, p).Some?
    ensures MatchesCIAt(s, p, "PRIMARY KEY (")
    ensures start == p + 13 || (start == p + 14 && s[p + 13] == '`')
    ensures start + |PrimaryKeyAt(s, p).value| <= close < |s|
    ensures s[start..start + |PrimaryKeyAt(s, p).value|] == PrimaryKeyAt(s, p).value
    ensures close == start + |PrimaryKeyAt(s, p).value|
            || (close == start + |PrimaryKeyAt(s, p).value| + 1 && s[close - 1] == '`')
    ensures s[close] == ')'
  {
    var q := p + 13;
    start := if q < |s| && s[q] == '`' then q + 1 else q;
    var nameEnd := start + RunLength(s, start, Word);
    close := if nameEnd < |s| && s[nameEnd] == '`' then nameEnd + 1 else nameEnd;
  }

  /**
    The converse: `PRIMARY KEY (` followed by a word, bare or in backticks,
    and `)` is matched there, with exactly that word.
  */
  lemma {:induction false} PrimaryKeyFound(s: string, p: nat, col: string, rest: string)
    requires IsWord(col)
    requires p + 13 <= |s|
    requires MatchesCIAt(s, p, "PRIMARY KEY (")
    requires s[p + 13..] == "`" + col + "`)" + rest || s[p + 13..] == col + ")" + rest
    ensures PrimaryKeyAt(s, p) == Some(col)
  {
    var q := p + 13;
    var t := s[q..];
    if t == "`" + col + "`)" + rest {
      assert s[q] == '`';
      RunLengthExact(s, q + 1, Word, |col|);
      assert s[q + 1 + |col|] == '`';
      assert s[q + 2 + |col|] == ')';
      assert s[q + 1..q + 1 + |col|] == col;
    } else {
      assert s[q] == col[0];
      RunLengthExact(s, q, Word, |col|);
      assert s[q + |col|] == ')';
      assert s[q..q + |col|] == col;
    }
  }

  /** A match at the very start of the body is the key `parsePrimaryKey` returns. */
  lemma {:induction false} PrimaryKeyAtStart(s: string)
    requires PrimaryKeyAt(s, 0).Some?
    ensures ParsePrimaryKey(s) == PrimaryKeyAt(s, 0)
  {
  }

  /** A body that starts with `PRIMARY KEY (`id`)`. */
  lemma {:induction false} PrimaryKeyExample()
    ensures ParsePrimaryKey("PRIMARY KEY (`id`)") == Some("id")
  {
    var s := "PRIMARY KEY (`id`)";
    assert MatchesCIAt(s, 0, "PRIMARY KEY (") by {
      assert s[0..13] == "PRIMARY KEY (";
    }
    assert s[13..] == "`" + "id" + "`)" + "";
    PrimaryKeyFound(s, 0, "id", "");
    PrimaryKeyAtStart(s);
  }

  /**
    A composite key is never returned: where the column list goes on with a
    comma after the first name, the pattern does not match at that position.
  */
  lemma CompositeKeyIgnored(s: string, p: nat, first: string, rest: string)
    requires IsWord(first)
    requires p + 13 <= |s|
    requires MatchesCIAt(s, p, "PRIMARY KEY (")
    requires s[p + 13..] == "`" + first + "`," + rest || s[p + 13..] == first + "," + rest
    ensures PrimaryKeyAt(s, p).None?
  {
    var q := p + 13;
    var t := s[q..];
    if t == "`" + first + "`," + rest {
      assert s[q] == '`';
      RunLengthExact(s, q + 1, Word, |first|);
      assert s[q + 1 + |first|] == '`';
      assert s[q + 2 + |first|] == ',';
    } else {
      assert s[q] == first[0];
      RunLengthExact(s, q, Word, |first|);
      assert s[q + |first|] == ',';
    }
  }
}
