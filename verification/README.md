# Schemator relation inference, modelled in Dafny

Schemator is a visual editor for relational schemas. Its store holds three collections:

- tables, each with a name and a map of boolean options;
- fields, each owned by a table and carrying a name and a storage type;
- relations, each linking a field of one table to another table.

Relations are not drawn by hand. They are inferred from a naming convention: a field named `x_id` refers to the table named `capitalize(x)`. Three parts of the program apply that rule:

- the canvas editor's handlers (`src/components/WorkArea.js`);
- the table list's handlers (`src/components/container/TableListContainer.js`), which also flag the project as modified and toggle table options;
- the Laravel plugin's hooks (`src/plugins/laravel/main.js`).

This project models each handler as a pure function:

- A handler reads a store snapshot and returns the store its dispatches leave behind.
- A plugin hook returns the delta or records it builds.
- Each handler follows the code as written, including its branches, error paths and constants.

It proves what the handlers guarantee and under which preconditions. It also uses concrete stores to show where the code leaves the schema incoherent.

Modules:

- `Seqs` (seqs.dfy): `find`, `findIndex` and `filter` over sequences, and distinct keys.
- `Text` (text.dfy): the string rules.
  - The `_id` suffix test.
  - `replace` of the first occurrence.
  - `capitalize` and `toLowerCase`, on ASCII letters.
  - The two naming rules: field name to table name, and table name to field name.
- `Schema` (schema.dfy): the records and the store, lookups, the store reducers, and the invariants. There are four invariants:
  - unique ids;
  - no orphan fields;
  - no dangling relations;
  - one relation per field.
- `Inference` (inference.dfy): the decisions the handlers share.
  - What a field rename implies for the field's relation.
  - Which relations a table name implies.
- `WorkArea` (workarea.dfy): the editor handlers, and the corrected table removal.
- `TableList` (table_list.dfy): the list-view handlers and the `isModified` flag.
- `Laravel` (laravel.dfy): the plugin hooks and their agreement and disagreement with the editor.

A handler that reads a property of a record `find` did not find throws a `TypeError`. The model reports that throw as `Err(FieldNotFound)` or `Err(TableNotFound)` in exactly these places:

- A field rename to an `_id` name, and `removeField`. The throw comes before any dispatch, so the failure carries no store.
- `updateTableOptions`. The throw comes after the project has been marked modified, so the result (`TableList.Outcome`) carries that marked project together with the failure.

No other handler checks the id it is given, and neither does the model, so a missing id is not a no-op:

- `updateTableName` with an id no table carries still appends relations toward that id for every matching field, or removes the relations pointing at it.
- Renaming a missing field to a name without `_id` still deletes a relation whose `fieldID` is that id.
- The list view's handlers still mark the project modified.

The table or field update itself then matches no record and changes nothing.

The engine's intended design keeps exactly one relation per field whose name implies an existing table, and none otherwise. Where that design and the code disagree, the model follows the code. Each disagreement is proved as a lemma:

- A field renamed from one `_id` name to another keeps its old relation. The intended design re-targets it; see `WorkArea.StaleRelationWitness`.
- `removeField` removes the relation only when the field's name ends in `_id`, and then only the first one. See `WorkArea.RemoveFieldDanglingWitness` and `WorkArea.RemoveDuplicatedFieldWitness`.
- A table rename appends relations without checking for existing ones. See `WorkArea.DuplicateRelationWitness` and Findings.
- A table rename retracts inbound relations only when no field matches the new name. See `WorkArea.RenameKeepsStaleInboundWitness`.
- `removeTable` removes no relations at all. See Findings.

## Model

| member | source | states |
|---|---|---|
| Text.ImpliedNameOfForeignKey | src/components/WorkArea.js:439-441 | the field-to-table rule applied to the key built by the table-to-field rule gives the capitalised lower-case table name, when that name has no `_id` inside |
| Text.ReplaceFirstOccurrence | src/components/WorkArea.js:292 | `replace` with a string pattern rewrites only the first occurrence and keeps the text before and after it |
| Text.StripKeySuffix | src/plugins/laravel/main.js:188 | removing the first `_id` from `prefix + "_id"` gives `prefix` back when `prefix` has no `_id` of its own |
| Text.ForeignKeyForIsForeignKey | src/components/WorkArea.js:439-441 | the key name built from a table name always passes the `_id` suffix test |
| Schema.RelationOf | src/components/WorkArea.js:289 | the relation found is owned by the field and no earlier relation is; none is found exactly when the field owns no relation |
| Schema.TableByName | src/components/WorkArea.js:295 | the table found carries the name and no earlier table does; none is found exactly when no table carries it |
| Inference.ImpliedTarget | src/components/WorkArea.js:291-295 | a field name resolves to a table exactly when it ends in `_id` and a table carries the implied name; the table it resolves to is the first one with that name |
| Inference.InferOnRename | src/components/WorkArea.js:288-312 | a rename throws exactly for an `_id` name of a missing field; it creates only for an unrelated field whose own table and implied table exist, with the fresh id, toward the first table carrying the implied name; it deletes only on a non-`_id` name, and then the first relation of that field in store order; it does nothing exactly in the remaining cases |
| Inference.FieldsNamed | src/components/WorkArea.js:440-442 | exactly the fields with the name, empty exactly when no field has it |
| Inference.ForeignRelationsCover | src/components/WorkArea.js:444-454 | every relation built points at the table from a field named after it, and every such field gets one |
| Inference.ForeignRelationsDistinct | src/components/WorkArea.js:444-454 | the relations built have one owner each, and distinct ids when the drawn ids differ |
| WorkArea.AddField | src/components/WorkArea.js:255-267 | keeps tables, relations and every existing field in order, and adds exactly one field: `field` of type `INTEGER`, owned by the table |
| WorkArea.AddTable | src/components/WorkArea.js:364-379 | keeps relations and every existing table and field in order, and adds exactly the table `NewTable` with no options and its one field `id` of type `INCREMENT` |
| WorkArea.UpdateField | src/components/WorkArea.js:288-318 | fails exactly on an `_id` rename of a missing field; otherwise sets the one attribute on that field only, keeps tables, and keeps relations on a non-name update |
| WorkArea.RenameToKeyCreatesRelation | src/components/WorkArea.js:291-306 | an `_id` rename of an unrelated field whose table and implied table exist appends exactly the relation from the field's table to the first table carrying the implied name, however many tables carry it |
| WorkArea.DuplicateTableNameResolvesFirst | src/components/WorkArea.js:291-306 | with two tables named `NewTable`, as two `addTable` calls leave them, renaming a field to `newTable_id` relates it to the first |
| WorkArea.RenameRelatedFieldKeepsRelations | src/components/WorkArea.js:289-297 | an `_id` rename of a related field changes no relation |
| WorkArea.StaleRelationWitness | src/components/WorkArea.js:289-297 | renaming `user_id` to `team_id` keeps the relation to `User`, though the name implies `Team` |
| WorkArea.RenameToPlainNameRetracts | src/components/WorkArea.js:307-311 | a non-`_id` rename removes the field's first relation, and with one relation per field leaves the field unrelated |
| WorkArea.UpdateFieldKeepsConsistent | src/components/WorkArea.js:288-318 | a successful field update keeps a consistent store consistent when the drawn id is fresh |
| WorkArea.UpdateFieldKeepsKeyedRelations | src/components/WorkArea.js:288-318 | in a store with one relation per field: after a field update every related field still has an `_id` name |
| WorkArea.RemoveField | src/components/WorkArea.js:328-338 | fails exactly for a missing field; otherwise removes exactly that field, keeps tables, and removes no relation it did not have |
| WorkArea.RemoveFieldRetracts | src/components/WorkArea.js:333-335 | in a store with unique ids and one relation per field: removing a field with an `_id` name leaves it unrelated and keeps every other relation; removing any other field keeps every relation |
| WorkArea.RemoveFieldDeletesFirstRelation | src/components/WorkArea.js:331-335 | with no condition on relations: removing a related field with an `_id` name deletes exactly the first relation it owns, so any further relation of that field stays |
| WorkArea.RemoveDuplicatedFieldWitness | src/components/WorkArea.js:331-337 | after renaming `User` to `User` gives `Post.user_id` two relations, removing the field leaves the second relation, owned by a field that is gone |
| WorkArea.RenameDuplicatedFieldWitness | src/components/WorkArea.js:288-318 | after renaming `User` to `User` gives `Post.user_id` two relations, renaming the field to `title` deletes only the first, leaving a related field without an `_id` name |
| WorkArea.RemoveFieldKeepsConsistent | src/components/WorkArea.js:328-338 | removal keeps a consistent store consistent when related fields carry `_id` names |
| WorkArea.RemoveFieldDanglingWitness | src/components/WorkArea.js:333-337 | a related field without an `_id` name is removed and its relation is left dangling |
| WorkArea.RemoveTable | src/components/WorkArea.js:398-410 | removes exactly the table and its fields, and every relation stays: the filter reads a key relations do not have |
| WorkArea.RemoveTableKeepsConsistentWhenUnreferenced | src/components/WorkArea.js:398-410 | the removal keeps the store consistent when no relation touches the table |
| WorkArea.RemoveTableInboundDanglingWitness | src/components/WorkArea.js:400-403 | removing `User` leaves `Post.user_id`'s relation pointing at the removed table |
| WorkArea.RemoveTableOutboundDanglingWitness | src/components/WorkArea.js:400-408 | removing `Post` leaves the relation owned by its removed field |
| WorkArea.RemoveTableCascade | src/components/WorkArea.js:398-410 | the intended cascade: removes exactly the table, its fields, and the relations into or out of it |
| WorkArea.RemoveTableCascadeKeepsConsistent | src/components/WorkArea.js:398-410 | the intended cascade keeps every consistent store consistent |
| WorkArea.UpdateTableName | src/components/WorkArea.js:437-468 | renames that table only, keeping ids, options and fields |
| WorkArea.UpdateTableNameAppends | src/components/WorkArea.js:444-454 | when a field matches the new name, keeps every relation and appends one relation into the table per matching field |
| WorkArea.UpdateTableNameRetractsInbound | src/components/WorkArea.js:455-461 | when no field matches, keeps exactly the relations not pointing at the table |
| WorkArea.UpdateTableNameKeepsConsistent | src/components/WorkArea.js:437-468 | the rename keeps the store consistent when the table exists, the drawn ids are fresh and distinct, and no matching field is related already |
| WorkArea.DuplicateRelationWitness | src/components/WorkArea.js:444-454 | renaming `User` to `User` gives `Post.user_id` a second relation |
| WorkArea.RenameKeepsStaleInboundWitness | src/components/WorkArea.js:444-461 | renaming `User` to `Member` relates `member_id` and leaves `user_id`, which implies `User`, related to the renamed table |
| WorkArea.UpdateTableNameChecked | src/components/WorkArea.js:437-468 | the intended rename: renames that table only, keeping ids, options and fields |
| WorkArea.UpdateTableNameCheckedAppends | src/components/WorkArea.js:444-454 | the intended rename, when a field matches the new name: keeps every relation, appends only relations toward the table from matching fields that had none, and gives each such field exactly one |
| WorkArea.UpdateTableNameCheckedKeepsConsistent | src/components/WorkArea.js:437-468 | the intended rename keeps every consistent store consistent given fresh distinct ids, whatever the matching fields are related to |
| WorkArea.UpdateTableNameCheckedAgrees | src/components/WorkArea.js:444-454 | the intended rename equals the rename as written whenever no matching field is related already |
| WorkArea.CheckedRenameWitness | src/components/WorkArea.js:444-454 | the intended rename of `User` to `User` leaves `Post.user_id` with its one relation |
| WorkArea.AddFieldKeepsConsistent | src/components/WorkArea.js:255-267 | the new `field` of type `INTEGER` implies no relation and keeps the store consistent |
| WorkArea.AddTableKeepsConsistent | src/components/WorkArea.js:364-379 | `NewTable` with its `id` field of type `INCREMENT` implies no relation and keeps the store consistent |
| TableList.UpdateField | src/components/container/TableListContainer.js:96-127 | marks the project modified, sets the one attribute on that field only, keeps relations on a non-name update, and yields the editor's store |
| TableList.RemoveField | src/components/container/TableListContainer.js:144-152 | fails exactly for a missing field; otherwise marks the project modified, removes exactly that field, and yields the editor's store |
| TableList.UpdateTableName | src/components/container/TableListContainer.js:172-201 | marks the project modified and yields the editor's store |
| TableList.UpdateTableOptions | src/components/container/TableListContainer.js:241-252 | always marks the project modified; fails exactly for a missing table, after the marking and with the store unchanged; otherwise touches only that table's options and, with unique table ids, sets the option to the value and keeps every other option key and value |
| TableList.ToggleOptionBack | src/components/container/TableListContainer.js:241-252 | toggling an existing option and toggling it back to its old value restores the store |
| Laravel.Options | src/plugins/laravel/main.js:8-26 | the option map has exactly the four option ids, each with its checked value |
| Laravel.OnInit | src/plugins/laravel/main.js:74-100 | one `User` table with id, rememberToken and timestamps on and softDeletes off, and three fields of offered types owned by it; no relations |
| Laravel.OnInitImpliesNoRelation | src/plugins/laravel/main.js:74-100 | no initial field name implies a relation, and the initial store is consistent |
| Laravel.OnCreateTable | src/plugins/laravel/main.js:111-127 | a `Table` table with id and timestamps on, and one `field` of type `INTEGER` owned by it |
| Laravel.OnCreateField | src/plugins/laravel/main.js:163-165 | a `field` of type `INTEGER` owned by the given table |
| Laravel.DefaultsImplyNoRelation | src/plugins/laravel/main.js:163-165 | the default field type is offered and the default field name implies no relation |
| Laravel.EditorKeyTypeNotOffered | src/plugins/laravel/main.js:29-65 | the editor's key field type `INCREMENT` is not among the plugin's field types |
| Laravel.OnUpdateTable | src/plugins/laravel/main.js:140-149 | one relation per field named after the table, in field order, empty exactly when none is |
| Laravel.OnUpdateTableOnePerField | src/plugins/laravel/main.js:140-149 | every relation points at the table from a matching field, and each matching field owns exactly one |
| Laravel.OnUpdateTableMatchesEditor | src/plugins/laravel/main.js:140-149 | the editor's rename appends exactly the hook's relations when a field matches |
| Laravel.OnUpdateField | src/plugins/laravel/main.js:181-206 | throws exactly on an `_id` rename of a missing field; CREATE exactly under the creation condition, toward the first table carrying the implied name; DELETE of the field's first relation exactly when it is related; nothing otherwise |
| Laravel.OnUpdateFieldMatchesEditor | src/plugins/laravel/main.js:184-201 | on a name update other than an `_id` rename of a related field, the hook decides what the editor decides |
| Laravel.RetypeDeletesRelation | src/plugins/laravel/main.js:184-205 | a type update of a related field yields DELETE, while the editor keeps the relation |
| Laravel.KeyRenameOfRelatedFieldDeletes | src/plugins/laravel/main.js:196-205 | an `_id` rename of a related field yields DELETE, while the editor keeps the relation |
| Laravel.RetypeDeleteWitness | src/plugins/laravel/main.js:205 | retyping `Post.user_id` yields DELETE of its relation to `User` |

## Left out

- Canvas positions, the random placement loop in `addTable`, table timestamps (`Date.now()`), dragging, connector geometry, context menus and rendering: they are presentation and do not affect the schema.
- `uuid()`: each call is a parameter. It is `freshID` for one relation, or `uuid(k)` for the k-th relation a table rename creates. Freshness is a precondition of the consistency lemmas.
- The store's reducers and `src/store/actions.js`: the reducers are not part of this model. They are taken to append on create, to drop every record with the id on delete, and to merge the update into every record with the id.
- Persistence and export (`src/helpers/file.js`): file I/O, JSON and code generation.
- Case mapping covers ASCII letters only. JavaScript's full Unicode `toUpperCase`/`toLowerCase` is not modelled.
- Text.Capitalize: the editor and the table list call `capitalize` from `src/helpers/formatter.js`, which is not part of this model. It is assumed to be the plugin's inline rule at main.js:189-190: the first character upper-cased and the rest kept. The agreement that `Laravel.OnUpdateFieldMatchesEditor` states rests on that assumption. A `capitalize` that also lower-cased the rest would resolve a name such as `userProfile_id` differently in the editor and in the hook.
- Option labels from `createOption` are dropped. An option is its id and its checked value, with a missing value read as false.
- Field attributes other than `name` and `type`: the editor only ever passes those two.
- The plugin's `onDeleteTable`, `onDeleteField` and `onExport` hooks: they are empty.
- WorkArea.UpdateTableNameKeepsConsistent: proved only under freshness and "no matching field is related yet". The second condition is needed: `WorkArea.DuplicateRelationWitness` shows the code breaks the invariant without it.
- WorkArea.RemoveFieldKeepsConsistent: proved only when every related field has an `_id` name. Without that condition, `WorkArea.RemoveFieldDanglingWitness` shows a dangling relation.

## Findings

| source | as written | input that shows it | evidently intended | confidence | as-written member | corrected member |
|---|---|---|---|---|---|---|
| src/components/WorkArea.js:398-403 | relations are filtered on `item["toTable"]`, a key relations do not have, so no relation is ever removed | tables `User`, `Post`; field `Post.user_id`; relation `Post.user_id → User`; remove `User` (or `Post`) | remove the relations into the table (`toTableID`) and those leaving it (`fromTableID`), then the fields and the table | not executed | WorkArea.RemoveTable | WorkArea.RemoveTableCascade |
| src/components/WorkArea.js:444-454 | one relation is appended per field named after the new table name, with no check that the field already has one | tables `User`, `Post`; field `Post.user_id`; relation `Post.user_id → User`; rename `User` to `User` | relate only the matching fields that have no relation yet, as the field rename does (WorkArea.js:297) | not executed | WorkArea.UpdateTableName | WorkArea.UpdateTableNameChecked |
