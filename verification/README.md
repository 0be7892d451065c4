# sql2migration — a Dafny model of the SQL-to-migration pipeline

`sql2migration` is a CodeIgniter 4 console command (`src/Commands/SqlToMigration.php`).
It reads an SQL dump and writes one migration per `CREATE TABLE` statement.
After those it writes one migration that adds every foreign key declared with `ALTER TABLE`, if there are any.
Last, it writes one migration per `CREATE TRIGGER` statement.
This project models the deterministic text pipeline inside the command and proves what it produces:

- `prefix.dfy` (module `Prefix`): `stripPrefix`, the removal of the configured table prefix.
  PHP truthiness is kept: a prefix of `"0"` counts as no prefix.
- `columns.dfy` (module `Columns`): `parseFields` and `parsePrimaryKey`.
  The skip test, the column pattern and the primary-key pattern are written out as scanners.
  The scanners follow PCRE's leftmost, backtracking search.
  `parseFields` is a method whose loop is proved against the function `FieldsOf`.
- `foreign_keys.dfy` (module `ForeignKeys`): the descriptor loop of `parseAlterTableForeignKeys`.
  It covers constraint-name synthesis and the `CASCADE` defaults.
- `triggers.dfy` (module `Triggers`): the descriptor loop of `parseTriggers`.
  It rebuilds the statement head, removes `DELIMITER` directives (a scanner for `/DELIMITER\s+.+?\s+/i`), and replaces `//` by `;`.
  The module also holds the table-name rewrite of `generateTriggerMigrationFile`.
- `migration.dfy` (module `Migrations`): the command object as a class.
  Its state `written` is the sequence of migrations written so far.
  Its methods are `convert` and the three `generate…MigrationFile` methods.
  Each migration is modelled by the operations it performs.
- `text.dfy` (module `Text`): the PHP library calls the command relies on, as PHP 8 defines them on byte strings.
  These are `explode`, `trim` with a character list, `str_replace`, `strtoupper`, integer-to-string conversion, string truthiness, and the PCRE classes `\w`, `\s` and `\d` without the `u` flag.
- `options.dfy` (module `Options`): the optional value `Option`, and `Somes`, which collects the present values of a list in order, as the `parseFields` loop collects fields.

The `CREATE TABLE`, `ALTER TABLE … FOREIGN KEY` and `CREATE TRIGGER` patterns of `preg_match_all` (lines 63, 269, 310) are not scanned.
Each match is given as a record of its capture groups (`TableMatch`, `ForeignKeyMatch`, `TriggerMatch`).
An optional group that took no part in the match is `""`, as PHP reports it.

Behaviour of the code worth knowing:

- `parseFields` splits the table body on line feeds. A body written on one line is therefore a single line, and if it holds a `PRIMARY KEY` clause that line contains `KEY` and is skipped (line 231), so the table gets no fields at all (`Columns.OneLineKeyBodyHasNoFields`). The comment at line 230 describes the skip as one for key and index lines; for a one-line body that line is the whole table.
- The skip pattern of line 231 is unanchored, so a column such as `api_key` or `reindex_at` is skipped too (`Columns.KeyLineIsKeyOrIndex`).
- "Empty" means PHP-falsy, so `"0"` is empty as well as `""`. This applies to the prefix (the comment at line 47 speaks of "a prefix"; the test at line 48 is truthiness), to an explicit constraint name (a constraint named `0` gets a synthesised name) and to the primary key (a key column named `0` is not added).
- `stripPrefix` removes the prefix once and is not idempotent (`Prefix.StripPrefixNotIdempotent`).
- Line 317 removes a `DELIMITER` directive only when some non-space text and white space follow it. A body that does not start with `BEGIN` (or has no later `END;` after white space) is taken by the `.*?;` alternative of the trigger pattern of line 310, which ends it at its first `;`. So a trigger written `... = 1//` followed by `DELIMITER ;` keeps a trailing `DELIMITER ` in its statement (`Triggers.TrailingDirectiveKept`). A `BEGIN … END` body instead runs to the first `END;` after white space. A directive followed by white space, a token, white space and more text is removed (`Triggers.DirectiveRemoved`, `Triggers.TriggerSqlDropsDirective`).
- The length group of the column pattern (line 234) is `(\(\d+\))?`, so `decimal(10,2) NOT NULL` has no length group. The keyword groups then find nothing where the type word ends, and the match stops there: the column becomes a nullable `DECIMAL` without a constraint (`Columns.DecimalColumnExample`).

## Model

| member | source | states |
|---|---|---|
| Prefix.StripPrefix | src/Commands/SqlToMigration.php:45-52 | the name comes back unchanged when the prefix is PHP-falsy or does not start the name; otherwise `prefix + r == name` and `r` is shorter |
| Prefix.StripPrefixIsSuffix | src/Commands/SqlToMigration.php:45-52 | the result is always a tail of the name and holds no character the name lacks |
| Prefix.StripPrefixOfWord | src/Commands/SqlToMigration.php:45-52 | stripping a word leaves a word or nothing |
| Prefix.StripPrefixNotIdempotent | src/Commands/SqlToMigration.php:48-49 | with prefix `ci_`, `ci_ci_users` strips to `ci_users`, and a second strip would give `users` |
| Text.JoinSplit | src/Commands/SqlToMigration.php:226 | joining the pieces of `explode("\n", …)` gives the body back, so no character is lost |
| Text.SplitJoin | src/Commands/SqlToMigration.php:226 | exploding separator-free pieces joined by the separator gives the pieces back |
| Text.Split | src/Commands/SqlToMigration.php:226 | `explode` gives at least one piece, and no piece holds the separator |
| Text.UpperStrIdempotent | src/Commands/SqlToMigration.php:237 | after `strtoupper` (`UpperStr`) no lower-case letter is left, every other character is kept, and a second `strtoupper` changes nothing |
| Text.TrimIsInfix | src/Commands/SqlToMigration.php:229 | `trim` with a character list (`Trim`) keeps an infix of the line, and everything around it is a trimmed character |
| Text.TrimEnds | src/Commands/SqlToMigration.php:229 | a trimmed line neither starts nor ends with a trimmed character |
| Text.ReplaceAllSelf | src/Commands/SqlToMigration.php:193 | `str_replace` of a string by itself changes nothing |
| Text.ReplaceSlashesLeavesNone | src/Commands/SqlToMigration.php:318 | after `str_replace('//', ';', …)` (`ReplaceAll`) no `//` is left |
| Text.ReplaceAllKeepsNoDoubleSlash | src/Commands/SqlToMigration.php:193 | a non-empty replacement without `/` creates no `//` |
| Text.DecimalRoundTrip | src/Commands/SqlToMigration.php:285 | the decimal rendering of the match index reads back as that index |
| Text.DecimalInjective | src/Commands/SqlToMigration.php:285 | different indices render differently |
| Text.AfterLastAppend | src/Commands/SqlToMigration.php:285 | the text after the last `_` of `x + "_" + d` is `d` when `d` holds no `_` |
| Text.Decimal | src/Commands/SqlToMigration.php:285 | the rendering of the match index is a non-empty digit string without `_` |
| Text.RunLengthExact | src/Commands/SqlToMigration.php:234 | a greedy `\w+`, `\s+` or `\d+` run is fixed by its two ends |
| Text.MatchesCIAtTail | src/Commands/SqlToMigration.php:231 | a case-insensitive occurrence of a word contains one of each of its tails |
| Options.SomesOrigins | src/Commands/SqlToMigration.php:228-253 | every collected value comes from its own entry, in increasing order, and every present entry contributes |
| Columns.LengthGroupAt | src/Commands/SqlToMigration.php:234 | the group `(\(\d+\))?` is empty or is a `(digits)` slice of the line at that position |
| Columns.OptionalWord | src/Commands/SqlToMigration.php:234 | an optional keyword group is empty or the case-insensitive keyword found at that position |
| Columns.ModifiersAt | src/Commands/SqlToMigration.php:234 | after the type word, each optional group holds the shape the pattern allows |
| Columns.ColumnAt | src/Commands/SqlToMigration.php:234 | a column match at a position has word name and type groups and well-shaped optional groups |
| Columns.FirstColumnMatch | src/Commands/SqlToMigration.php:234 | `preg_match` finds no column exactly when the pattern matches at no position; a match found is well-shaped |
| Columns.HeadFound | src/Commands/SqlToMigration.php:234 | a name, bare or in backticks, white space and a type word are matched as the head, ending right after the type word |
| Columns.KeywordStep | src/Commands/SqlToMigration.php:234 | one `\s*(WORD)?` group: a keyword written in any case after any white-space run is captured as written; where the keyword does not come next after the white space, the group is empty and consumes nothing |
| Columns.KeywordAbsent | src/Commands/SqlToMigration.php:234 | where the keyword does not come next after the white space, its group is empty and ends where it started |
| Columns.ModifiersFound | src/Commands/SqlToMigration.php:234 | after the type word, the `(digits)` group and the keywords `UNSIGNED`, `NOT NULL`, `AUTO_INCREMENT` are captured exactly as written, in any case and after any white space; a group left out is empty exactly when its keyword does not come next, whatever text follows |
| Columns.NothingWritten | src/Commands/SqlToMigration.php:234 | where neither a `(digits)` group nor a keyword comes next, all four optional groups are empty and the whole text is left after the match |
| Columns.ColumnFromHead | src/Commands/SqlToMigration.php:234 | a matched head followed by those optional groups gives the whole column match |
| Columns.ColumnLineFound | src/Commands/SqlToMigration.php:234 | the converse of `ColumnAt`: a line built as a name (bare or in backticks), a white-space run, a type word, then the optional length and keywords written as `ModifiersFound` allows, then other text, is matched at its start with exactly those groups |
| Columns.FirstColumnMatchPosition | src/Commands/SqlToMigration.php:234 | a found column match is the one at the leftmost position where the pattern matches |
| Columns.FirstColumnMatchAtStart | src/Commands/SqlToMigration.php:234 | a match at the start of the line is the one `preg_match` reports |
| Columns.IdColumnMatch | src/Commands/SqlToMigration.php:234 | `` `id` INT UNSIGNED NOT NULL AUTO_INCREMENT `` is captured as name `id`, type `INT`, no length and all three keywords |
| Columns.NameColumnMatch | src/Commands/SqlToMigration.php:234 | `` `name` VARCHAR(255) `` is captured as name `name`, type `VARCHAR`, length `(255)` and no keyword |
| Columns.DumpIdColumnMatch | src/Commands/SqlToMigration.php:234 | mysqldump's `` `id` int(11) unsigned NOT NULL AUTO_INCREMENT `` is captured as name `id`, type `int`, length `(11)`, and the keywords as written, `unsigned` in lower case |
| Columns.DecimalColumnMatch | src/Commands/SqlToMigration.php:234 | `` `price` decimal(10,2) NOT NULL `` is captured as name `price` and type `decimal` with every optional group empty, because `(10,2)` is no `(digits)` group |
| Columns.NothingNextAfterDecimal | src/Commands/SqlToMigration.php:234 | after `decimal`, the text `(10,2) NOT NULL` starts with no length group and no keyword |
| Columns.KeyLineIsKeyOrIndex | src/Commands/SqlToMigration.php:231 | `IsKeyLine`, the skip test: a line is skipped exactly when it holds `KEY` or `INDEX` in any case, inside a longer word too |
| Columns.NotKeyLine | src/Commands/SqlToMigration.php:231 | a line without the letters `K` and `X` in either case is never skipped |
| Columns.TrimParentheses | src/Commands/SqlToMigration.php:240 | trimming `()` off a `(digits)` group leaves exactly the digits |
| Columns.UpperWord | src/Commands/SqlToMigration.php:237 | `strtoupper` of a word is a word with no lower-case letter |
| Columns.KeywordGroupTruthy | src/Commands/SqlToMigration.php:242-249 | a keyword group is PHP-truthy exactly when it took part in the match |
| Columns.LengthGroupTruthy | src/Commands/SqlToMigration.php:239-241 | a length group is truthy exactly when present, and then it is `(` + its trimmed digits + `)` |
| Columns.FieldOfMatch | src/Commands/SqlToMigration.php:235-250 | `FieldOf`, the field a match becomes: the name is the matched word; the type is the upper-cased type word; the constraint is present iff `(digits)` was matched and holds only those digits; `null` iff `NOT NULL` is absent; `unsigned` and `auto_increment` iff matched |
| Columns.ParseLine | src/Commands/SqlToMigration.php:229-252 | a key line contributes nothing; a contributed field has a word name, an upper-case word type and digits for a constraint |
| Columns.ParseLineOfMatch | src/Commands/SqlToMigration.php:229-252 | a line that is not skipped and whose trimmed text matches the column pattern contributes the field of that match |
| Columns.TrimmedColumnLine | src/Commands/SqlToMigration.php:229 | the trailing comma of a multi-line dump is trimmed off a column line |
| Columns.IdField | src/Commands/SqlToMigration.php:235-250 | the `id` match becomes an unsigned, not-null, auto-increment `INT` field without constraint |
| Columns.IdColumnExample | src/Commands/SqlToMigration.php:229-252 | the line `` `id` INT UNSIGNED NOT NULL AUTO_INCREMENT, `` contributes that field |
| Columns.NameColumnExample | src/Commands/SqlToMigration.php:229-252 | the line `` `name` VARCHAR(255), `` contributes a nullable `VARCHAR` field with constraint `255`, neither unsigned nor auto-increment |
| Columns.ColumnLineParsed | src/Commands/SqlToMigration.php:229-252 | a column line the pattern matches at its start, ending in a comma and holding no `K` or `X`, contributes the field of that match |
| Columns.DumpIdField | src/Commands/SqlToMigration.php:235-250 | the mysqldump `id` match becomes an unsigned, not-null, auto-increment `INT` field with constraint `11` |
| Columns.DumpIdColumnExample | src/Commands/SqlToMigration.php:229-252 | the line `` `id` int(11) unsigned NOT NULL AUTO_INCREMENT, `` contributes that field |
| Columns.DecimalField | src/Commands/SqlToMigration.php:235-250 | the `decimal` match becomes a nullable `DECIMAL` field without constraint, neither unsigned nor auto-increment |
| Columns.DecimalColumnExample | src/Commands/SqlToMigration.php:229-252 | the line `` `price` decimal(10,2) NOT NULL, `` contributes that nullable field: its `NOT NULL` is lost |
| Columns.FieldsOf | src/Commands/SqlToMigration.php:226-253 | never more fields than lines |
| Columns.FieldOrigins | src/Commands/SqlToMigration.php:226-253 | each field comes from its own line, fields keep line order, every accepted line contributes, and no key line contributes |
| Columns.FieldsWellFormed | src/Commands/SqlToMigration.php:234-237 | every field has a word name and an upper-case word type |
| Columns.OneLineKeyBodyHasNoFields | src/Commands/SqlToMigration.php:226-233 | a body on one line that holds `KEY` anywhere yields no field |
| Columns.ParseFields | src/Commands/SqlToMigration.php:223-256 | the loop returns `FieldsOf` of the exploded body, at most one field per line |
| Columns.PrimaryKeyAt | src/Commands/SqlToMigration.php:260 | a primary-key match at a position starts with `PRIMARY KEY (` in any case and captures a word |
| Columns.PrimaryKeyShape | src/Commands/SqlToMigration.php:260 | a found key is the word right after `PRIMARY KEY (` (or after a backtick there), followed by an optional backtick and `)` |
| Columns.PrimaryKeyFound | src/Commands/SqlToMigration.php:260 | the converse: `PRIMARY KEY (` followed by a word, bare or in backticks, and `)` is matched with exactly that word |
| Columns.FirstPrimaryKey | src/Commands/SqlToMigration.php:260-263 | a found primary key is a word |
| Columns.FirstPrimaryKeyPosition | src/Commands/SqlToMigration.php:258-264 | the key returned is the one at the leftmost position where the pattern matches |
| Columns.ParsePrimaryKey | src/Commands/SqlToMigration.php:258-264 | a returned key is a word, and `null` is returned exactly when the pattern matches at no position |
| Columns.PrimaryKeyAtStart | src/Commands/SqlToMigration.php:258-264 | a match at the start of the body is the key returned |
| Columns.PrimaryKeyExample | src/Commands/SqlToMigration.php:258-264 | `` PRIMARY KEY (`id`) `` gives `id` |
| Columns.NoPrimaryKeyWithoutKeyword | src/Commands/SqlToMigration.php:258-264 | without `PRIMARY KEY (` in any case there is no primary key |
| Columns.CompositeKeyIgnored | src/Commands/SqlToMigration.php:260 | a key list going on with a comma after the first column does not match there, so composite keys are never returned |
| ForeignKeys.ParseForeignKeys | src/Commands/SqlToMigration.php:284-295 | one descriptor per match, in match order, each built from its match and its index |
| ForeignKeys.SynthesizedIndex | src/Commands/SqlToMigration.php:285 | `SynthesizedName`: the index a synthesised name was made from is the number after its last `_` |
| ForeignKeys.SynthesizedNamesDistinct | src/Commands/SqlToMigration.php:285 | two different indices give different synthesised names, whatever the tables and columns |
| ForeignKeys.SynthesizedNameIsWord | src/Commands/SqlToMigration.php:285 | a synthesised name is made of word characters |
| ForeignKeys.SynthesizedNameExample | src/Commands/SqlToMigration.php:285 | the first unnamed key on `ci4ms_posts.user_id` with prefix `ci4ms_` is `fk_posts_user_id_0` |
| ForeignKeys.DescriptorConstraint | src/Commands/SqlToMigration.php:285-291 | `Descriptor`: the constraint is the explicit one iff it is neither `""` nor `"0"`, and the synthesised one otherwise; it is a word; table and columns are copied |
| ForeignKeys.ActionDefault | src/Commands/SqlToMigration.php:292-293 | each action is the matched one when present and `CASCADE` otherwise, and always one of the five actions |
| ForeignKeys.ActionOrDefault | src/Commands/SqlToMigration.php:292-293 | the action written is never PHP-empty: the matched action, or `CASCADE` |
| ForeignKeys.SynthesizedNamesUnique | src/Commands/SqlToMigration.php:284-295 | in the returned list, no two synthesised constraint names coincide |
| Triggers.DelimiterEndAt | src/Commands/SqlToMigration.php:317 | a `DELIMITER` match starts with the word in any case followed by white space, and ends inside the text |
| Triggers.DirectiveTail | src/Commands/SqlToMigration.php:317 | the `\s+.+?\s+` tail starts with white space and ends after its start |
| Triggers.Splice | src/Commands/SqlToMigration.php:317 | `preg_replace` with `''` never lengthens the text |
| Triggers.SpliceKeeps | src/Commands/SqlToMigration.php:317 | a stretch where no match starts is copied unchanged |
| Triggers.RemoveDelimiters | src/Commands/SqlToMigration.php:317 | removing the directives never lengthens the statement |
| Triggers.RemoveDelimitersWithoutDirective | src/Commands/SqlToMigration.php:317 | text without `DELIMITER` in any case passes through unchanged |
| Triggers.TailEnd | src/Commands/SqlToMigration.php:317 | a white-space run, a token of non-spaces, a white-space run not followed by white space: the tail match ends right after the second run |
| Triggers.DirectiveEnd | src/Commands/SqlToMigration.php:317 | after any prefix, `DELIMITER`, white space, a token and white space before a non-space is a match ending right after the second white-space run |
| Triggers.OneMatchRemoved | src/Commands/SqlToMigration.php:317 | when exactly one match starts in the text, `preg_replace` with `''` removes exactly its stretch and keeps the text on both sides |
| Triggers.NoDirectiveBefore | src/Commands/SqlToMigration.php:317 | no match starts inside a prefix that holds no `DELIMITER` and ends in white space |
| Triggers.DirectiveRemoved | src/Commands/SqlToMigration.php:317 | a `DELIMITER` directive (white space, a token, white space; `DELIMITER ;` and a line feed among them) after such a prefix is removed, and the prefix and the text after it, holding no further directive, are kept |
| Triggers.TriggerSqlDropsDirective | src/Commands/SqlToMigration.php:316-318 | a body that starts with a directive gives the rebuilt head followed by the rest of the body, with only `//` replaced |
| Triggers.TrailingDirectiveKept | src/Commands/SqlToMigration.php:310-317 | a `DELIMITER ` with nothing after its white space is not matched, so the text keeps it |
| Triggers.TrailingDirectiveExample | src/Commands/SqlToMigration.php:310-317 | `1//`, a line feed and `DELIMITER ` pass line 317 unchanged |
| Triggers.NoDirectiveAfter | src/Commands/SqlToMigration.php:317 | where the rest of the text holds no `DELIMITER`, no match starts there |
| Triggers.OpeningHasNoDirective | src/Commands/SqlToMigration.php:316-317 | no `DELIMITER` match starts inside ``CREATE TRIGGER `name` `` |
| Triggers.RemoveDelimitersKeepsOpening | src/Commands/SqlToMigration.php:316-317 | the `DELIMITER` removal keeps ``CREATE TRIGGER `name` `` at the front |
| Triggers.OpeningHasNoSlash | src/Commands/SqlToMigration.php:316 | the rebuilt opening holds no `/` |
| Triggers.TriggerSql | src/Commands/SqlToMigration.php:316-318 | the statement built for a match holds no `//` |
| Triggers.ParseTriggers | src/Commands/SqlToMigration.php:307-327 | one trigger per match, in order, with the match's name and raw table and the statement rebuilt, stripped of directives and with `//` replaced |
| Triggers.TriggerSqlOpening | src/Commands/SqlToMigration.php:316-318 | every statement starts with ``CREATE TRIGGER `name` `` |
| Triggers.TriggerSqlWithoutDirective | src/Commands/SqlToMigration.php:316-318 | without `DELIMITER`, the statement is the rebuilt text with only `//` replaced |
| Triggers.RewriteTable | src/Commands/SqlToMigration.php:192-193 | when stripping leaves the table name as it is, the rewrite leaves the statement unchanged |
| Triggers.RewriteKeepsNoDoubleSlash | src/Commands/SqlToMigration.php:192-193 | the rewrite of a word table name brings in no `//` |
| Triggers.GeneratedTriggerSqlNoDoubleSlash | src/Commands/SqlToMigration.php:192-193 | the statement a trigger migration runs holds no `//` |
| Migrations.ForeignKeyMigration | src/Commands/SqlToMigration.php:154-187 | one foreign-key migration carries one operation per descriptor |
| Migrations.ForeignKeyOperations | src/Commands/SqlToMigration.php:167-176 | each operation names both tables stripped of the prefix and keeps the constraint, the column, the referenced column and both actions |
| Migrations.KeptKey | src/Commands/SqlToMigration.php:133-135 | a kept key is the one given and is PHP-truthy, and a truthy key is always kept |
| Migrations.TableMigration | src/Commands/SqlToMigration.php:93-152 | a table migration creates the named table; every field has a word name and an upper-case word type; a kept primary key is a word other than `0` |
| Migrations.KeptKeyFound | src/Commands/SqlToMigration.php:133-135 | a kept primary key is the one found, a word and not `"0"`; a found key other than `"0"` is kept |
| Migrations.PlanPhases | src/Commands/SqlToMigration.php:71-90 | `Plan`, everything `convert` writes: every table migration comes before the foreign-key migration, which comes before every trigger migration; tables and triggers keep source order; the foreign-key migration is there, once, iff the key list is non-empty |
| Migrations.SqlToMigration.constructor | src/Commands/SqlToMigration.php:16-28 | the command starts with its prefix and nothing written |
| Migrations.SqlToMigration.GenerateMigrationFile | src/Commands/SqlToMigration.php:93-152 | appends the table migration of the body: its fields, and its primary key when truthy |
| Migrations.SqlToMigration.GenerateForeignKeyMigrationFile | src/Commands/SqlToMigration.php:154-187 | appends one migration holding every foreign key's operations |
| Migrations.SqlToMigration.GenerateTriggerMigrationFile | src/Commands/SqlToMigration.php:189-221 | appends the trigger migration (`TriggerMigration`): the trigger name and the statement with the table name rewritten |
| Migrations.SqlToMigration.WriteTableMigrations | src/Commands/SqlToMigration.php:71-76 | appends the table migrations of all matches, in order |
| Migrations.SqlToMigration.WriteTriggerMigrations | src/Commands/SqlToMigration.php:88-90 | appends the trigger migrations of all triggers, in order |
| Migrations.SqlToMigration.Convert | src/Commands/SqlToMigration.php:54-90 | appends exactly the plan: the tables, then the foreign keys if any, then the triggers |

## Left out

- `run` (lines 18-43) is not modelled: the argument and prompt, `file_exists`, the `env()` lookup of the prefix and `date()`. The prefix is a constructor parameter of the command class.
- File reading and writing (lines 57-60, 146-148, 181-183, 215-217) and the migration path are not modelled. The "cannot be read" exception path has no counterpart.
- Console output is not modelled. This covers the `CLI::write` warnings and the `ALTER TABLE` debug listing with its own pattern (lines 272-282, 297-302). That count of `ALTER TABLE` statements can differ from the number of parsed foreign keys; this affects only the console output.
- The PHP source text of each migration is not modelled: the templates, `ucfirst` class names and `addslashes`. A migration is modelled by its operations (`Migration`).
- `$this->timestamp++` on a date string (lines 151, 186, 220) is not modelled. The order of the written migrations stands in for the order of their timestamps.
- The `CREATE TABLE`, `ALTER TABLE … FOREIGN KEY` and `CREATE TRIGGER` patterns (lines 63, 269, 310) are not modelled. Their matches are inputs given as capture records, so the `Captured` predicates constrain the lemmas that need them but not the loops.
- Columns.ColumnAt: that this scanner finds the same match as PCRE is argued in its comment (greedy choices that backtracking cannot improve), not proved against a model of PCRE. The same holds for Columns.PrimaryKeyAt and Triggers.DirectiveTail.
- Migrations.SqlToMigration.GenerateForeignKeyMigrationFile: records every field of each descriptor. The `up` direction of the source passes neither the table nor the constraint name to `addForeignKey` (line 168); that rendering detail is not modelled.
- Migrations.SqlToMigration.GenerateForeignKeyMigrationFile: keeps each action under the name the command gives it. Line 168 passes `on_delete` as the fourth argument of `addForeignKey` and `on_update` as the fifth. CodeIgniter 4's `Forge::addForeignKey` takes `onUpdate` fourth and `onDelete` fifth, so the generated migration most likely applies the two actions the wrong way round. The framework is not part of this model, so this is not proved.
- Characters are bytes: the PCRE classes and case folding are ASCII-only. This matches patterns without the `u` flag.
