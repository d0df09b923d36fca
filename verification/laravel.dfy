/** The Laravel plugin's schema hooks (src/plugins/laravel/main.js): the
    default schema of a new project, the default table and field, the
    relations a renamed table implies, and the relation delta a field
    update implies. Ids the hooks draw internally are parameters. */
module Laravel {
  import opened Seqs
  import opened Text
  import opened Schema
  import opened Inference
  import WorkArea

  /** The option checkboxes every table carries. */
  const OptionIds: seq<string> := ["id", "rememberToken", "softDeletes", "timestamps"]

  /** The storage types a field may take. */
  const FieldTypes: seq<string> := [
    "BIG_INT", "BINARY", "BOOLEAN", "CHAR", "DATE", "DATE_TIME", "DATE_TIME_TZ",
    "DECIMAL", "DOUBLE", "ENUM", "FLOAT", "INTEGER", "IP_ADDRESS", "JSON", "JSONB",
    "LONG_TEXT", "MAC_ADDRESS", "MEDIUM_INT", "MEDIUM_TEXT", "MORPHS",
    "NULLABLE_MORPHS", "SMALL_INT", "STRING", "TEXT", "TIME", "TIME_TZ", "TINY_INT",
    "TIMESTAMP", "TIMESTAMP_TZ", "U_BIG_INT", "U_INT", "U_MEDIUM_INT",
    "U_SMALL_INT", "U_TINY_INT", "UUID"]

  const InitTableName: string := "User"
  const DefaultTableName: string := "Table"
  const DefaultFieldName: string := "field"
  const DefaultFieldType: string := "INTEGER"

  /** The four options, each `createOption(id, label, checked)` with an absent
      `checked` read as false; labels are left out. */
  function Options(id: bool, rememberToken: bool, softDeletes: bool, timestamps: bool): (r: map<string, bool>)
    ensures r.Keys == set k | k in OptionIds
    ensures r[OptionIds[0]] == id && r[OptionIds[1]] == rememberToken
    ensures r[OptionIds[2]] == softDeletes && r[OptionIds[3]] == timestamps
  {
    map["id" := id, "rememberToken" := rememberToken, "softDeletes" := softDeletes, "timestamps" := timestamps]
  }

  /** `onInit()`: the table "User" with its name, email and password fields.
      The hook returns no relations; the store starts with none. */
  function OnInit(tableID: Id, nameID: Id, emailID: Id, passwordID: Id): (r: Store)
    ensures |r.tables| == 1 && r.tables[0].id == tableID && r.tables[0].name == InitTableName
    ensures r.tables[0].options == Options(true, true, false, true)
    ensures |r.fields| == 3 && forall f :: f in r.fields ==> f.tableID == tableID && f.kind in FieldTypes
    ensures r.relations == []
  {
    Store([Table(tableID, InitTableName, Options(true, true, false, true))],
          [Field(nameID, tableID, "name", "STRING"),
           Field(emailID, tableID, "email", "STRING"),
           Field(passwordID, tableID, "password", "TEXT")],
          [])
  }

  /** The initial schema names no foreign key, implies no relation, and is
      consistent when the three field ids differ. */
  lemma OnInitImpliesNoRelation(tableID: Id, nameID: Id, emailID: Id, passwordID: Id)
    requires nameID != emailID && nameID != passwordID && emailID != passwordID
    ensures var s := OnInit(tableID, nameID, emailID, passwordID);
      && Consistent(s) && RelatedFieldsAreKeys(s)
      && forall f :: f in s.fields ==> !IsForeignKeyName(f.name) && ImpliedTarget(f.name, s.tables).None?
  {
    var s := OnInit(tableID, nameID, emailID, passwordID);
    assert s.tables[0] in s.tables;
    assert "name"[1..] != KeySuffix && "email"[2..] != KeySuffix && "password"[5..] != KeySuffix;
  }

  /** A table and its first field, as `onCreateTable` returns them. */
  datatype NewTable = NewTable(table: Table, field: Field)

  /** `onCreateTable(cursorPosition)`: the table "Table" with one INTEGER field
      "field"; the position is left out. */
  function OnCreateTable(tableID: Id, fieldID: Id): (r: NewTable)
    ensures r.table.id == tableID && r.table.name == DefaultTableName
    ensures r.table.options.Keys == set k | k in OptionIds
    ensures r.table.options["id"] && r.table.options["timestamps"]
    ensures !r.table.options["rememberToken"] && !r.table.options["softDeletes"]
    ensures r.field.tableID == r.table.id && r.field.id == fieldID
    ensures r.field.name == DefaultFieldName && r.field.kind == DefaultFieldType
  {
    NewTable(Table(tableID, DefaultTableName, Options(true, false, false, true)),
             Field(fieldID, tableID, DefaultFieldName, DefaultFieldType))
  }

  /** `onCreateField(tableID)`: an INTEGER field "field" owned by `tableID`. */
  function OnCreateField(tableID: Id, fieldID: Id): (r: Field)
    ensures r.id == fieldID && r.tableID == tableID
    ensures r.name == DefaultFieldName && r.kind == DefaultFieldType
  {
    Field(fieldID, tableID, DefaultFieldName, DefaultFieldType)
  }

  /** The default pieces are well typed and name no foreign key, so adding
      them to a store implies no relation. */
  lemma DefaultsImplyNoRelation(tables: seq<Table>)
    ensures DefaultFieldType in FieldTypes
    ensures !IsForeignKeyName(DefaultFieldName) && ImpliedTarget(DefaultFieldName, tables).None?
  {
    assert DefaultFieldName[2..] != KeySuffix;
  }

  /** The editor's key field type is not one the plugin offers. */
  lemma EditorKeyTypeNotOffered()
    ensures WorkArea.KeyFieldType !in FieldTypes
  {
  }

  /** `onUpdateTable(table, data)`: one relation toward `table` per field
      named `lowercase(table.name) + "_id"`, in field order, the k-th drawing
      `uuid(k)`. */
  function OnUpdateTable(table: Table, fields: seq<Field>, uuid: nat -> Id): (r: seq<Relation>)
    ensures |r| == |FieldsNamed(fields, ForeignKeyFor(table.name))|
    ensures forall k :: 0 <= k < |r| ==>
      r[k].fieldID == FieldsNamed(fields, ForeignKeyFor(table.name))[k].id
    ensures r == [] <==> forall f :: f in fields ==> f.name != ForeignKeyFor(table.name)
  {
    ForeignRelations(fields, table.name, table.id, uuid)
  }

  /** Every relation `onUpdateTable` returns points at the table from a field
      named after it, and each such field owns exactly one of them. */
  lemma OnUpdateTableOnePerField(table: Table, fields: seq<Field>, uuid: nat -> Id)
    requires DistinctKeys(fields, FieldKey)
    ensures var r := OnUpdateTable(table, fields, uuid);
      && (forall q :: q in r ==>
            && q.toTableID == table.id
            && exists f :: f in fields && f.name == ForeignKeyFor(table.name) && f.id == q.fieldID && f.tableID == q.fromTableID)
      && (forall f :: f in fields && f.name == ForeignKeyFor(table.name) ==>
            exists q :: q in r && q.fieldID == f.id && q.fromTableID == f.tableID && q.toTableID == table.id)
      && DistinctKeys(r, OwnerKey)
  {
    ForeignRelationsCover(fields, table.name, table.id, uuid);
    ForeignRelationsDistinct(fields, table.name, table.id, uuid);
  }

  /** The editor's table rename appends exactly the plugin's relations for the
      renamed table when some field is named after the new name. */
  lemma OnUpdateTableMatchesEditor(s: Store, table: Table, uuid: nat -> Id, f: Field)
    requires f in s.fields && f.name == ForeignKeyFor(table.name)
    ensures WorkArea.UpdateTableName(s, table.id, table.name, uuid).relations
      == s.relations + OnUpdateTable(table, s.fields, uuid)
  {
    assert f in FieldsNamed(s.fields, ForeignKeyFor(table.name));
  }

  /** The update the editor reports to the hook. */
  datatype FieldUpdate = FieldUpdate(fieldID: Id, updatedType: Attribute, updatedData: string)

  /** The condition under which the hook creates a relation. */
  ghost predicate CreatesRelation(action: FieldUpdate, s: Store) {
    && action.updatedType == Name
    && IsForeignKeyName(action.updatedData)
    && !IsRelated(s.relations, action.fieldID)
    && exists f :: f in s.fields && f.id == action.fieldID
         && HasTable(s.tables, f.tableID)
         && FieldById(s.fields, action.fieldID) == Some(f)
         && HasTableNamed(s.tables, ImpliedTableName(action.updatedData))
  }

  /** `onUpdateField(action, data)`: CREATE for a foreign-key rename whose
      tables exist when the field has no relation; otherwise DELETE of the
      field's first relation if it has one, whatever the update was; otherwise
      nothing. The implied table name is the data with its first `_id`
      removed and its first character upper-cased. Reading the owner of a
      field that does not exist throws. */
  function OnUpdateField(action: FieldUpdate, s: Store, freshID: Id): (r: Result<Option<Delta>>)
    ensures r.Err? <==> action.updatedType == Name && IsForeignKeyName(action.updatedData) && !HasField(s.fields, action.fieldID)
    ensures r.Ok? && r.value.Some? && r.value.value.Create? <==> CreatesRelation(action, s)
    ensures r.Ok? && r.value.Some? && r.value.value.Create? ==>
      var q := r.value.value.relation;
      && q.id == freshID && q.fieldID == action.fieldID
      && HasOwner(s.fields, q) && HasTable(s.tables, q.fromTableID)
      && (exists t :: t in s.tables && t.id == q.toTableID && t.name == ImpliedTableName(action.updatedData))
      && (exists i :: FirstNamed(s.tables, i, ImpliedTableName(action.updatedData)) && s.tables[i].id == q.toTableID)
    ensures r.Ok? ==> (r.value.Some? && r.value.value.Delete? <==> IsRelated(s.relations, action.fieldID))
    ensures r.Ok? && r.value.Some? && r.value.value.Delete? ==>
      && r.value.value.relation in s.relations
      && r.value.value.relation.fieldID == action.fieldID
      && exists i :: (0 <= i < |s.relations| && s.relations[i] == r.value.value.relation &&
           forall j :: 0 <= j < i ==> s.relations[j].fieldID != action.fieldID)
    ensures r == Ok(None) <==> r.Ok? && !IsRelated(s.relations, action.fieldID) && !CreatesRelation(action, s)
  {
    var relation := RelationOf(s.relations, action.fieldID);
    var created: Result<Option<Relation>> :=
      if action.updatedType == Name && IsForeignKeyName(action.updatedData) then
        match FieldById(s.fields, action.fieldID)
        case None => Err(FieldNotFound(action.fieldID))
        case Some(field) =>
          var fromTable := TableById(s.tables, field.tableID);
          var toTable := ImpliedTarget(action.updatedData, s.tables);
          if fromTable.Some? && toTable.Some? && relation.None? then
            Ok(Some(Relation(freshID, field.id, fromTable.value.id, toTable.value)))
          else
            Ok(None)
      else Ok(None);
    match created
    case Err(e) => Err(e)
    case Ok(Some(q)) => Ok(Some(Create(q)))
    case Ok(None) =>
      if relation.Some? then Ok(Some(Delete(relation.value))) else Ok(None)
  }

  /** On a name update that is not a foreign-key rename of a related field,
      the hook decides what the editor decides. Both sides resolve the table
      name with `Text.Capitalize`: the plugin's inline rule (main.js:189-190),
      which the editor's `capitalize` helper is assumed to follow. */
  lemma OnUpdateFieldMatchesEditor(action: FieldUpdate, s: Store, freshID: Id)
    requires action.updatedType == Name
    requires !(IsForeignKeyName(action.updatedData) && IsRelated(s.relations, action.fieldID))
    ensures OnUpdateField(action, s, freshID) == InferOnRename(s, action.fieldID, action.updatedData, freshID)
  {
  }

  /** A type change on a related field: the hook asks for the relation to be
      deleted while the editor keeps it. */
  lemma RetypeDeletesRelation(action: FieldUpdate, s: Store, freshID: Id)
    requires action.updatedType == Type && IsRelated(s.relations, action.fieldID)
    ensures var r := OnUpdateField(action, s, freshID);
      r.Ok? && r.value.Some? && r.value.value.Delete?
    ensures WorkArea.UpdateField(s, Type, action.fieldID, action.updatedData, freshID).value.relations == s.relations
  {
  }

  /** A foreign-key rename of a related field: the hook asks for the relation
      to be deleted while the editor keeps it. */
  lemma KeyRenameOfRelatedFieldDeletes(action: FieldUpdate, s: Store, freshID: Id)
    requires action.updatedType == Name && IsForeignKeyName(action.updatedData)
    requires HasField(s.fields, action.fieldID) && IsRelated(s.relations, action.fieldID)
    ensures var r := OnUpdateField(action, s, freshID);
      r.Ok? && r.value.Some? && r.value.value.Delete?
    ensures WorkArea.UpdateField(s, Name, action.fieldID, action.updatedData, freshID).value.relations == s.relations
  {
  }

  /** Retyping `Post.user_id` to STRING: the hook deletes the relation to `User`. */
  lemma RetypeDeleteWitness()
    ensures OnUpdateField(FieldUpdate("f", Type, "STRING"), WorkArea.PostUserStore(), "n")
      == Ok(Some(Delete(Relation("r", "f", "p", "u"))))
  {
    var s := WorkArea.PostUserStore();
    assert s.relations[0] in s.relations;
  }
}
