/**
  Foreign-key descriptors: `parseAlterTableForeignKeys`
  (SqlToMigration.php lines 266-305). The `ALTER TABLE … FOREIGN KEY`
  pattern of line 269 is abstracted as the capture groups of each match, in
  the order `preg_match_all` returns them; this module builds the descriptor
  list from those matches.
*/
module ForeignKeys {
  import opened Text
  import opened Prefix

  /**
    Capture groups 1 to 7 of one match of the pattern of line 269: the
    altered table, the optional constraint name, the column, the referenced
    table and column, and the optional `ON DELETE` / `ON UPDATE` actions. An
    optional group that took part in no match is "".
  */
  datatype ForeignKeyMatch = ForeignKeyMatch(
    table: string,
    constraint: string,
    field: string,
    referencedTable: string,
    referencedField: string,
    onDelete: string,
    onUpdate: string)

  /** The five referential actions the pattern accepts, in any case (the `i` flag). */
  predicate IsAction(a: string) {
    UpperStr(a) in {"SET NULL", "NO ACTION", "CASCADE", "RESTRICT", "SET DEFAULT"}
  }

  /** What the pattern lets each group hold. */
  predicate Captured(m: ForeignKeyMatch) {
    && IsWord(m.table)
    && (m.constraint == "" || IsWord(m.constraint))
    && IsWord(m.field)
    && IsWord(m.referencedTable)
    && IsWord(m.referencedField)
    && (m.onDelete == "" || IsAction(m.onDelete))
    && (m.onUpdate == "" || IsAction(m.onUpdate))
  }

  /** One entry of the `$foreignKeys` list (lines 286-294). */
  datatype ForeignKey = ForeignKey(
    table: string,
    constraint: string,
    field: string,
    referencedTable: string,
    referencedField: string,
    onDelete: string,
    onUpdate: string)

  /** The name given to the `index`-th match when it names no constraint (line 285). */
  function SynthesizedName(prefix: string, table: string, field: string, index: nat): string {
    "fk_" + StripPrefix(prefix, table) + "_" + field + "_" + Decimal(index)
  }

  /**
    An action group, or `CASCADE` when it is empty in PHP's sense (lines
    292-293): the action written is never empty.
  */
  function ActionOrDefault(a: string): (r: string)
    ensures !PhpEmpty(r) && (r == a || r == "CASCADE")
  {
    if !PhpEmpty(a) then a else "CASCADE"
  }

  /** The descriptor of the `index`-th match (lines 285-294). */
  function Descriptor(prefix: string, m: ForeignKeyMatch, index: nat): ForeignKey {
    ForeignKey(
      m.table,
      if !PhpEmpty(m.constraint) then m.constraint else SynthesizedName(prefix, m.table, m.field, index),
      m.field,
      m.referencedTable,
      m.referencedField,
      ActionOrDefault(m.onDelete),
      ActionOrDefault(m.onUpdate))
  }

  /**
    The descriptor loop of lines 284-295: one descriptor per match, in match
    order, each built from its match and its position in the list.
  */
  method ParseForeignKeys(prefix: string, matches: seq<ForeignKeyMatch>) returns (keys: seq<ForeignKey>)
    ensures |keys| == |matches|
    ensures forall i :: 0 <= i < |matches| ==> keys[i] == Descriptor(prefix, matches[i], i)
  {
    keys := [];
    var index := 0;
    while index < |matches|
      invariant 0 <= index <= |matches|
      invariant |keys| == index
      invariant forall i :: 0 <= i < index ==> keys[i] == Descriptor(prefix, matches[i], i)
    {
      var m := matches[index];
      var constraintName := if !PhpEmpty(m.constraint) then m.constraint
                            else "fk_" + StripPrefix(prefix, m.table) + "_" + m.field + "_" + Decimal(index);
      keys := keys + [ForeignKey(
        m.table,
        constraintName,
        m.field,
        m.referencedTable,
        m.referencedField,
        if !PhpEmpty(m.onDelete) then m.onDelete else "CASCADE",
        if !PhpEmpty(m.onUpdate) then m.onUpdate else "CASCADE")];
      index := index + 1;
    }
  }

  /**
    The index a synthesised name was made from can be read back: it is the
    decimal number after the name's last `_`.
  */
  lemma SynthesizedIndex(prefix: string, table: string, field: string, index: nat)
    ensures AfterLast(SynthesizedName(prefix, table, field, index), '_') == Decimal(index)
    ensures DecimalValue(AfterLast(SynthesizedName(prefix, table, field, index), '_')) == index
  {
    var x := "fk_" + StripPrefix(prefix, table) + "_" + field;
    assert SynthesizedName(prefix, table, field, index) == x + ['_'] + Decimal(index);
    AfterLastAppend(x, '_', Decimal(index));
    DecimalRoundTrip(index);
  }

  /**
    Two matches at different positions never get the same synthesised name,
    whatever their tables and columns: the names end in different indices.
  */
  lemma SynthesizedNamesDistinct(prefix: string, t1: string, f1: string, i: nat, t2: string, f2: string, j: nat)
    requires i != j
    ensures SynthesizedName(prefix, t1, f1, i) != SynthesizedName(prefix, t2, f2, j)
  {
    SynthesizedIndex(prefix, t1, f1, i);
    SynthesizedIndex(prefix, t2, f2, j);
  }

  /** A synthesised name is made of word characters only, like an explicit one. */
  lemma SynthesizedNameIsWord(prefix: string, table: string, field: string, index: nat)
    requires IsWord(table) && IsWord(field)
    ensures IsWord(SynthesizedName(prefix, table, field, index))
  {
    var stripped := StripPrefix(prefix, table);
    StripPrefixOfWord(prefix, table);
    var d := Decimal(index);
    var name := SynthesizedName(prefix, table, field, index);
    forall k | 0 <= k < |name| ensures IsWordChar(name[k]) {
      if k < 3 {
        assert name[k] == "fk_"[k];
      } else if k < 3 + |stripped| {
        assert name[k] == stripped[k - 3];
      } else if k == 3 + |stripped| {
        assert name[k] == '_';
      } else if k < 4 + |stripped| + |field| {
        assert name[k] == field[k - 4 - |stripped|];
      } else if k == 4 + |stripped| + |field| {
        assert name[k] == '_';
      } else {
        assert name[k] == d[k - 5 - |stripped| - |field|];
      }
    }
  }

  /**
    The constraint name is the explicit one when the match names a
    constraint that PHP finds non-empty, and the synthesised one otherwise;
    either way it is made of word characters. A constraint named `0` counts as
    empty in PHP and is replaced by a synthesised name. The descriptor copies
    the table and both columns unchanged.
  */
  lemma DescriptorConstraint(prefix: string, m: ForeignKeyMatch, index: nat)
    requires Captured(m)
    ensures m.constraint != "" && m.constraint != "0" ==> Descriptor(prefix, m, index).constraint == m.constraint
    ensures m.constraint == "" || m.constraint == "0" ==>
              Descriptor(prefix, m, index).constraint == SynthesizedName(prefix, m.table, m.field, index)
    ensures IsWord(Descriptor(prefix, m, index).constraint)
    ensures Descriptor(prefix, m, index).table == m.table
    ensures Descriptor(prefix, m, index).field == m.field
    ensures Descriptor(prefix, m, index).referencedTable == m.referencedTable
    ensures Descriptor(prefix, m, index).referencedField == m.referencedField
  {
    if PhpEmpty(m.constraint) {
      SynthesizedNameIsWord(prefix, m.table, m.field, index);
    }
  }

  /**
    Each action is the matched one when the clause is present and `CASCADE`
    otherwise; either way it is one of the five referential actions.
  */
  lemma ActionDefault(a: string)
    requires a == "" || IsAction(a)
    ensures a != "" ==> ActionOrDefault(a) == a
    ensures a == "" ==> ActionOrDefault(a) == "CASCADE"
    ensures IsAction(ActionOrDefault(a))
  {
    if a != "" {
      assert |UpperStr(a)| == |a|;
      assert a != "0";
    } else {
      assert UpperStr("CASCADE") == "CASCADE";
    }
  }

  /** The first unnamed key on `ci4ms_posts.user_id`, with prefix `ci4ms_`, is `fk_posts_user_id_0`. */
  lemma SynthesizedNameExample()
    ensures SynthesizedName("ci4ms_", "ci4ms_posts", "user_id", 0) == "fk_posts_user_id_0"
  {
    assert "ci4ms_" <= "ci4ms_posts";
    assert StripPrefix("ci4ms_", "ci4ms_posts") == "posts";
    assert Decimal(0) == "0";
  }

  /**
    In the list `parseAlterTableForeignKeys` returns, two keys that both have
    synthesised names never share one.
  */
  lemma SynthesizedNamesUnique(prefix: string, matches: seq<ForeignKeyMatch>, keys: seq<ForeignKey>, i: nat, j: nat)
    requires |keys| == |matches|
    requires forall k :: 0 <= k < |matches| ==> keys[k] == Descriptor(prefix, matches[k], k)
    requires i < j < |matches|
    requires PhpEmpty(matches[i].constraint) && PhpEmpty(matches[j].constraint)
    ensures keys[i].constraint != keys[j].constraint
  {
    SynthesizedNamesDistinct(prefix, matches[i].table, matches[i].field, i, matches[j].table, matches[j].field, j);
  }
}
