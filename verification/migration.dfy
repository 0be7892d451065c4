/**
  The command object and its `convert` pipeline (SqlToMigration.php lines
  54-221): which migrations are generated, with what content, and in which
  order. A migration file is modelled by the operations it performs; the
  PHP source text it is rendered to and the file it is written to are not
  modelled.
*/
module Migrations {
  import opened Options
  import opened Text
  import opened Prefix
  import opened Columns
  import opened ForeignKeys
  import opened Triggers

  /** Capture groups 1 and 2 of one match of the `CREATE TABLE` pattern of line 63. */
  datatype TableMatch = TableMatch(rawName: string, definition: string)

  /**
    One foreign key of the foreign-key migration: the `addForeignKey` call of
    line 168 and the `dropForeignKey` call of line 175, both with the table
    names stripped of the prefix.
  */
  datatype ForeignKeyOperation = ForeignKeyOperation(
    table: string,
    constraint: string,
    field: string,
    referencedTable: string,
    referencedField: string,
    onDelete: string,
    onUpdate: string)

  /** What one generated migration does. */
  datatype Migration =
    | CreateTable(table: string, fields: seq<Field>, primaryKey: Option<string>)
    | AddForeignKeys(keys: seq<ForeignKeyOperation>)
    | CreateTrigger(name: string, sql: string)

  /** The primary key is added only when PHP finds it truthy (line 133). */
  function KeptKey(key: Option<string>): (r: Option<string>)
    ensures r.Some? ==> r == key && !PhpEmpty(r.value)
    ensures key.Some? && !PhpEmpty(key.value) ==> r == key
  {
    if key.Some? && !PhpEmpty(key.value) then key else None
  }

  /** The table migration `generateMigrationFile` writes (lines 93-152). */
  function TableMigration(tableName: string, definition: string): (r: Migration)
    ensures r.CreateTable? && r.table == tableName
    ensures forall k :: 0 <= k < |r.fields| ==> IsWord(r.fields[k].name) && IsUpperWord(r.fields[k].fieldType)
    ensures r.primaryKey.Some? ==> IsWord(r.primaryKey.value) && r.primaryKey.value != "0"
  {
    FieldsWellFormed(Split(definition, '\n'));
    CreateTable(tableName, FieldsOf(Split(definition, '\n')), KeptKey(ParsePrimaryKey(definition)))
  }

  /** The operations of one foreign key (lines 167-176). */
  function ForeignKeyOperationOf(prefix: string, fk: ForeignKey): ForeignKeyOperation {
    ForeignKeyOperation(
      StripPrefix(prefix, fk.table),
      fk.constraint,
      fk.field,
      StripPrefix(prefix, fk.referencedTable),
      fk.referencedField,
      fk.onDelete,
      fk.onUpdate)
  }

  /** The foreign-key migration `generateForeignKeyMigrationFile` writes (lines 154-187). */
  function ForeignKeyMigration(prefix: string, keys: seq<ForeignKey>): (r: Migration)
    ensures r.AddForeignKeys? && |r.keys| == |keys|
  {
    AddForeignKeys(seq(|keys|, i requires 0 <= i < |keys| => ForeignKeyOperationOf(prefix, keys[i])))
  }

  /** The trigger migration `generateTriggerMigrationFile` writes (lines 189-221). */
  function TriggerMigration(prefix: string, name: string, sql: string, table: string): Migration {
    CreateTrigger(name, RewriteTable(prefix, sql, table))
  }

  /** The descriptor list `parseAlterTableForeignKeys` returns for the given matches. */
  function Descriptors(prefix: string, matches: seq<ForeignKeyMatch>): (keys: seq<ForeignKey>)
    ensures |keys| == |matches|
  {
    seq(|matches|, i requires 0 <= i < |matches| => Descriptor(prefix, matches[i], i))
  }

  /** The trigger list `parseTriggers` returns for the given matches. */
  function TriggersOf(matches: seq<TriggerMatch>): (triggers: seq<Trigger>)
    ensures |triggers| == |matches|
  {
    seq(|matches|, i requires 0 <= i < |matches| => Trigger(matches[i].name, TriggerSql(matches[i]), matches[i].table))
  }

  /** The table migrations, one per `CREATE TABLE` match, in match order (lines 71-77). */
  function TableMigrations(prefix: string, tables: seq<TableMatch>): (r: seq<Migration>)
    ensures |r| == |tables|
  {
    seq(|tables|, i requires 0 <= i < |tables| =>
      TableMigration(StripPrefix(prefix, tables[i].rawName), tables[i].definition))
  }

  /** The trigger migrations, one per trigger, in order (lines 86-89). */
  function TriggerMigrations(prefix: string, triggers: seq<Trigger>): (r: seq<Migration>)
    ensures |r| == |triggers|
  {
    seq(|triggers|, i requires 0 <= i < |triggers| =>
      TriggerMigration(prefix, triggers[i].name, triggers[i].sql, triggers[i].table))
  }

  /** A list that agrees with `b` and then holds `last` is `b + [last]`. */
  lemma SnocExtends<T>(a: seq<T>, b: seq<T>, last: T)
    requires |a| == |b| + 1
    requires forall k :: 0 <= k < |b| ==> a[k] == b[k]
    requires a[|b|] == last
    ensures a == b + [last]
  {
  }

  lemma TableMigrationsSnoc(prefix: string, tables: seq<TableMatch>, i: nat)
    requires i < |tables|
    ensures TableMigrations(prefix, tables[..i + 1])
            == TableMigrations(prefix, tables[..i])
               + [TableMigration(StripPrefix(prefix, tables[i].rawName), tables[i].definition)]
  {
    var a := TableMigrations(prefix, tables[..i + 1]);
    var b := TableMigrations(prefix, tables[..i]);
    var last := TableMigration(StripPrefix(prefix, tables[i].rawName), tables[i].definition);
    forall k | 0 <= k < i ensures a[k] == b[k] {
      assert tables[..i + 1][k] == tables[..i][k];
    }
    assert tables[..i + 1][i] == tables[i];
    assert a[i] == last;
    SnocExtends(a, b, last);
  }

  lemma TriggerMigrationsSnoc(prefix: string, triggers: seq<Trigger>, j: nat)
    requires j < |triggers|
    ensures TriggerMigrations(prefix, triggers[..j + 1])
            == TriggerMigrations(prefix, triggers[..j])
               + [TriggerMigration(prefix, triggers[j].name, triggers[j].sql, triggers[j].table)]
  {
    var a := TriggerMigrations(prefix, triggers[..j + 1]);
    var b := TriggerMigrations(prefix, triggers[..j]);
    var last := TriggerMigration(prefix, triggers[j].name, triggers[j].sql, triggers[j].table);
    forall k | 0 <= k < j ensures a[k] == b[k] {
      assert triggers[..j + 1][k] == triggers[..j][k];
    }
    assert triggers[..j + 1][j] == triggers[j];
    assert a[j] == last;
    SnocExtends(a, b, last);
  }

  /** The list `ParseForeignKeys` returns is `Descriptors`. */
  lemma DescriptorsListed(prefix: string, matches: seq<ForeignKeyMatch>, keys: seq<ForeignKey>)
    requires |keys| == |matches|
    requires forall i :: 0 <= i < |matches| ==> keys[i] == Descriptor(prefix, matches[i], i)
    ensures keys == Descriptors(prefix, matches)
  {
  }

  /** The list `ParseTriggers` returns is `TriggersOf`. */
  lemma TriggersListed(matches: seq<TriggerMatch>, triggers: seq<Trigger>)
    requires |triggers| == |matches|
    requires forall i :: 0 <= i < |matches| ==>
               triggers[i] == Trigger(matches[i].name, TriggerSql(matches[i]), matches[i].table)
    ensures triggers == TriggersOf(matches)
  {
  }

  /** Everything `convert` writes, in order (lines 54-90). */
  function Plan(prefix: string, tables: seq<TableMatch>, keys: seq<ForeignKey>, triggers: seq<Trigger>): seq<Migration> {
    TableMigrations(prefix, tables)
    + (if |keys| > 0 then [ForeignKeyMigration(prefix, keys)] else [])
    + TriggerMigrations(prefix, triggers)
  }

  /** Writing the three phases one after the other writes the plan. */
  lemma PlanSplits(before: seq<Migration>, prefix: string, tables: seq<TableMatch>, keys: seq<ForeignKey>, triggers: seq<Trigger>)
    ensures before + TableMigrations(prefix, tables)
            + (if |keys| > 0 then [ForeignKeyMigration(prefix, keys)] else [])
            + TriggerMigrations(prefix, triggers)
            == before + Plan(prefix, tables, keys, triggers)
  {
    var t := TableMigrations(prefix, tables);
    var f: seq<Migration> := if |keys| > 0 then [ForeignKeyMigration(prefix, keys)] else [];
    var g := TriggerMigrations(prefix, triggers);
    assert before + t + f + g == before + (t + f + g);
  }

  /** The phase a migration belongs to: tables, then foreign keys, then triggers. */
  function Phase(op: Migration): nat {
    match op
    case CreateTable(_, _, _) => 0
    case AddForeignKeys(_) => 1
    case CreateTrigger(_, _) => 2
  }

  /**
    The order `convert` promises (lines 71-90): every table migration comes
    before the foreign-key migration, which comes before every trigger
    migration; tables and triggers keep their source order; the foreign-key
    migration is there, once, exactly when the key list is non-empty.
  */
  lemma PlanPhases(prefix: string, tables: seq<TableMatch>, keys: seq<ForeignKey>, triggers: seq<Trigger>)
    ensures |Plan(prefix, tables, keys, triggers)| == |tables| + (if |keys| > 0 then 1 else 0) + |triggers|
    ensures forall i, j :: 0 <= i < j < |Plan(prefix, tables, keys, triggers)| ==>
              Phase(Plan(prefix, tables, keys, triggers)[i]) <= Phase(Plan(prefix, tables, keys, triggers)[j])
    ensures forall i :: 0 <= i < |tables| ==>
              Plan(prefix, tables, keys, triggers)[i]
              == TableMigration(StripPrefix(prefix, tables[i].rawName), tables[i].definition)
    ensures (exists i :: 0 <= i < |Plan(prefix, tables, keys, triggers)|
              && Plan(prefix, tables, keys, triggers)[i].AddForeignKeys?) <==> |keys| > 0
    ensures |keys| > 0 ==> Plan(prefix, tables, keys, triggers)[|tables|] == ForeignKeyMigration(prefix, keys)
    ensures forall i :: 0 <= i < |triggers| ==>
              Plan(prefix, tables, keys, triggers)[|Plan(prefix, tables, keys, triggers)| - |triggers| + i]
              == TriggerMigration(prefix, triggers[i].name, triggers[i].sql, triggers[i].table)
  {
    var t := TableMigrations(prefix, tables);
    var f: seq<Migration> := if |keys| > 0 then [ForeignKeyMigration(prefix, keys)] else [];
    var g := TriggerMigrations(prefix, triggers);
    var p := Plan(prefix, tables, keys, triggers);
    assert p == t + f + g;
    forall i | 0 <= i < |p| ensures Phase(p[i]) == if i < |t| then 0 else if i < |t| + |f| then 1 else 2 {
      if i < |t| {
        assert p[i] == t[i];
      } else if i < |t| + |f| {
        assert p[i] == f[i - |t|];
      } else {
        assert p[i] == g[i - |t| - |f|];
      }
    }
    if |keys| > 0 {
      assert p[|t|].AddForeignKeys?;
    }
    forall i | 0 <= i < |triggers| ensures p[|p| - |triggers| + i] == g[i] { }
  }

  /** A kept primary key is the one `parsePrimaryKey` found, and is not PHP-falsy. */
  lemma KeptKeyFound(definition: string)
    ensures KeptKey(ParsePrimaryKey(definition)).Some? ==>
              KeptKey(ParsePrimaryKey(definition)) == ParsePrimaryKey(definition)
              && IsWord(KeptKey(ParsePrimaryKey(definition)).value)
              && KeptKey(ParsePrimaryKey(definition)).value != "0"
    ensures ParsePrimaryKey(definition).Some? && ParsePrimaryKey(definition).value != "0" ==>
              KeptKey(ParsePrimaryKey(definition)).Some?
  {
  }

  /**
    Every foreign-key operation names the stripped tables and keeps the
    constraint, both columns and the actions of its descriptor.
  */
  lemma ForeignKeyOperations(prefix: string, keys: seq<ForeignKey>, i: nat)
    requires i < |keys|
    ensures ForeignKeyMigration(prefix, keys).keys[i].table == StripPrefix(prefix, keys[i].table)
    ensures ForeignKeyMigration(prefix, keys).keys[i].referencedTable == StripPrefix(prefix, keys[i].referencedTable)
    ensures ForeignKeyMigration(prefix, keys).keys[i].constraint == keys[i].constraint
    ensures ForeignKeyMigration(prefix, keys).keys[i].field == keys[i].field
    ensures ForeignKeyMigration(prefix, keys).keys[i].referencedField == keys[i].referencedField
    ensures ForeignKeyMigration(prefix, keys).keys[i].onDelete == keys[i].onDelete
    ensures ForeignKeyMigration(prefix, keys).keys[i].onUpdate == keys[i].onUpdate
  {
  }

  /** The command, with the state `convert` changes: the migrations written so far. */
  class SqlToMigration {
    /** The `DBPrefix` setting read by `run` (line 28). */
    const dbPrefix: string
    /** The migrations written so far, in order. */
    var written: seq<Migration>

    constructor(dbPrefix: string)
      ensures this.dbPrefix == dbPrefix && written == []
    {
      this.dbPrefix := dbPrefix;
      written := [];
    }

    /** `generateMigrationFile` (lines 93-152): parse the body and write one table migration. */
    method GenerateMigrationFile(tableName: string, tableDefinition: string)
      modifies this
      ensures written == old(written) + [TableMigration(tableName, tableDefinition)]
    {
      var fields := ParseFields(tableDefinition);
      var primaryKey := ParsePrimaryKey(tableDefinition);
      var key: Option<string> := None;
      if primaryKey.Some? && !PhpEmpty(primaryKey.value) {
        key := primaryKey;
      }
      written := written + [CreateTable(tableName, fields, key)];
    }

    /** `generateForeignKeyMigrationFile` (lines 154-187): one migration for all foreign keys. */
    method GenerateForeignKeyMigrationFile(foreignKeys: seq<ForeignKey>)
      modifies this
      ensures written == old(written) + [ForeignKeyMigration(dbPrefix, foreignKeys)]
    {
      var operations: seq<ForeignKeyOperation> := [];
      var i := 0;
      while i < |foreignKeys|
        invariant 0 <= i <= |foreignKeys|
        invariant |operations| == i
        invariant forall k :: 0 <= k < i ==> operations[k] == ForeignKeyOperationOf(dbPrefix, foreignKeys[k])
      {
        var fk := foreignKeys[i];
        operations := operations + [ForeignKeyOperation(
          StripPrefix(dbPrefix, fk.table),
          fk.constraint,
          fk.field,
          StripPrefix(dbPrefix, fk.referencedTable),
          fk.referencedField,
          fk.onDelete,
          fk.onUpdate)];
        i := i + 1;
      }
      assert operations == ForeignKeyMigration(dbPrefix, foreignKeys).keys;
      written := written + [AddForeignKeys(operations)];
    }

    /** `generateTriggerMigrationFile` (lines 189-221): rewrite the table name and write one trigger migration. */
    method GenerateTriggerMigrationFile(triggerName: string, triggerSql: string, tableName: string)
      modifies this
      ensures written == old(written) + [TriggerMigration(dbPrefix, triggerName, triggerSql, tableName)]
    {
      var cleanTableName := StripPrefix(dbPrefix, tableName);
      var sql := ReplaceAll(triggerSql, "`" + tableName + "`", "`" + cleanTableName + "`");
      written := written + [CreateTrigger(triggerName, sql)];
    }

    /** The table loop of `convert` (lines 71-77): one table migration per match, in order. */
    method WriteTableMigrations(tables: seq<TableMatch>)
      modifies this
      ensures written == old(written) + TableMigrations(dbPrefix, tables)
    {
      var i := 0;
      while i < |tables|
        invariant 0 <= i <= |tables|
        invariant written == old(written) + TableMigrations(dbPrefix, tables[..i])
      {
        var table := tables[i];
        var tableName := StripPrefix(dbPrefix, table.rawName);
        ghost var before := written;
        GenerateMigrationFile(tableName, table.definition);
        assert written == before + [TableMigration(tableName, table.definition)];
        TableMigrationsSnoc(dbPrefix, tables, i);
        i := i + 1;
      }
      assert tables[..i] == tables;
    }

    /** The trigger loop of `convert` (lines 86-89): one trigger migration per trigger, in order. */
    method WriteTriggerMigrations(triggers: seq<Trigger>)
      modifies this
      ensures written == old(written) + TriggerMigrations(dbPrefix, triggers)
    {
      var j := 0;
      while j < |triggers|
        invariant 0 <= j <= |triggers|
        invariant written == old(written) + TriggerMigrations(dbPrefix, triggers[..j])
      {
        var trigger := triggers[j];
        GenerateTriggerMigrationFile(trigger.name, trigger.sql, trigger.table);
        TriggerMigrationsSnoc(dbPrefix, triggers, j);
        j := j + 1;
      }
      assert triggers[..j] == triggers;
    }

    /**
      `convert` (lines 54-90) on the matches of its three patterns: every
      table, then the foreign keys if there are any, then every trigger.
    */
    method Convert(tables: seq<TableMatch>, foreignKeyMatches: seq<ForeignKeyMatch>, triggerMatches: seq<TriggerMatch>)
      modifies this
      ensures written == old(written)
                         + Plan(dbPrefix, tables, Descriptors(dbPrefix, foreignKeyMatches), TriggersOf(triggerMatches))
    {
      WriteTableMigrations(tables);
      var foreignKeys := ParseForeignKeys(dbPrefix, foreignKeyMatches);
      DescriptorsListed(dbPrefix, foreignKeyMatches, foreignKeys);
      if |foreignKeys| > 0 {
        GenerateForeignKeyMigrationFile(foreignKeys);
      }
      var triggers := ParseTriggers(triggerMatches);
      TriggersListed(triggerMatches, triggers);
      WriteTriggerMigrations(triggers);
      PlanSplits(old(written), dbPrefix, tables, foreignKeys, triggers);
    }
  }
}
