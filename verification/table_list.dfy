/** The list-view handlers (src/components/container/TableListContainer.js).
    They repeat the editor's field and table-name rules, mark the project as
    modified on every edit, and add the table-option toggle. */
module TableList {
  import opened Seqs
  import opened Text
  import opened Schema
  import opened Inference
  import WorkArea

  /** The store together with the project's unsaved-changes flag. */
  datatype Project = Project(store: Store, isModified: bool)

  /** The effect of a handler that can throw after it has dispatched: the
      project its dispatches leave behind, and the failure if it threw. */
  datatype Outcome = Outcome(project: Project, failure: Option<Failure>)

  /** `updateField(event, fieldID, type)`: the name rule, then `[type]: value`
      on the field, and the project marked modified. */
  function UpdateField(p: Project, attr: Attribute, fieldID: Id, value: string, freshID: Id): (r: Result<Project>)
    ensures r.Err? <==> attr == Name && IsForeignKeyName(value) && !HasField(p.store.fields, fieldID)
    ensures r.Ok? ==> r.value.isModified
    ensures r.Ok? ==> r.value.store.tables == p.store.tables
    ensures r.Ok? ==> SetsOnly(p.store.fields, r.value.store.fields, fieldID, attr, value)
    ensures r.Ok? && attr != Name ==> r.value.store.relations == p.store.relations
    ensures r.Ok? <==> WorkArea.UpdateField(p.store, attr, fieldID, value, freshID).Ok?
    ensures r.Ok? ==> r.value.store == WorkArea.UpdateField(p.store, attr, fieldID, value, freshID).value
  {
    var s := p.store;
    if attr == Name then
      match InferOnRename(s, fieldID, value, freshID)
      case Err(e) => Err(e)
      case Ok(delta) =>
        var s' := ApplyDelta(s, delta);
        Ok(Project(s'.(fields := ModifyField(s'.fields, fieldID, attr, value)), true))
    else
      Ok(Project(s.(fields := ModifyField(s.fields, fieldID, attr, value)), true))
  }

  /** `removeField(fieldID)`: the editor's removal, with the project marked modified. */
  function RemoveField(p: Project, fieldID: Id): (r: Result<Project>)
    ensures r.Err? <==> !HasField(p.store.fields, fieldID)
    ensures r.Ok? ==> r.value.isModified
    ensures r.Ok? ==> forall f :: f in r.value.store.fields <==> f in p.store.fields && f.id != fieldID
    ensures r.Ok? <==> WorkArea.RemoveField(p.store, fieldID).Ok?
    ensures r.Ok? ==> r.value.store == WorkArea.RemoveField(p.store, fieldID).value
  {
    var s := p.store;
    match FieldById(s.fields, fieldID)
    case None => Err(FieldNotFound(fieldID))
    case Some(field) =>
      var relation := RelationOf(s.relations, fieldID);
      var relations :=
        if IsForeignKeyName(field.name) && relation.Some? then DeleteRelation(s.relations, relation.value.id)
        else s.relations;
      Ok(Project(Store(s.tables, DeleteField(s.fields, fieldID), relations), true))
  }

  /** `updateTableName(event, tableID)`: the editor's rename, with the project marked modified. */
  function UpdateTableName(p: Project, tableID: Id, newName: string, uuid: nat -> Id): (r: Project)
    ensures r.isModified
    ensures r.store == WorkArea.UpdateTableName(p.store, tableID, newName, uuid)
  {
    var s := p.store;
    var foreign := FieldsNamed(s.fields, ForeignKeyFor(newName));
    var relations :=
      if |foreign| > 0 then s.relations + ForeignRelations(s.fields, newName, tableID, uuid)
      else DeleteRelations(s.relations, WorkArea.RelationIds(WorkArea.InboundRelations(s.relations, tableID)));
    Project(Store(RenameTable(s.tables, tableID, newName), s.fields, relations), true)
  }

  /** `options` with `name` set to `checked` and every other key as it was. */
  ghost predicate SetsOption(before: map<string, bool>, after: map<string, bool>, name: string, checked: bool) {
    && name in after && after[name] == checked
    && forall k :: k != name ==> (k in after <==> k in before) && (k in before ==> after[k] == before[k])
  }

  /** Every table `tableID` of `before` has option `name` set to `checked` in `after`. */
  ghost predicate SetsOptionAt(before: seq<Table>, after: seq<Table>, tableID: Id, name: string, checked: bool)
    requires |after| == |before|
  {
    forall i :: 0 <= i < |before| && before[i].id == tableID ==>
      SetsOption(before[i].options, after[i].options, name, checked)
  }

  /** With unique table ids, writing the found table's updated options sets exactly that option. */
  lemma SetOptionsFound(tables: seq<Table>, table: Table, name: string, checked: bool)
    requires DistinctKeys(tables, TableKey) && table in tables
    ensures SetsOptionAt(tables, SetOptions(tables, table.id, table.options[name := checked]), table.id, name, checked)
  {
    forall i | 0 <= i < |tables| && tables[i].id == table.id
      ensures tables[i] == table
    {
      KeyDetermines(tables, TableKey, tables[i], table);
    }
  }

  /** `updateTableOptions(event, tableID, name)`: the project is marked
      modified first; then the found table's options with `[name]: checked`
      are written to the table. Reading the options of a table that does not
      exist throws after the project has been marked. */
  function UpdateTableOptions(p: Project, tableID: Id, name: string, checked: bool): (r: Outcome)
    ensures r.project.isModified
    ensures r.failure.Some? <==> !HasTable(p.store.tables, tableID)
    ensures r.failure.Some? ==> r.failure.value == TableNotFound(tableID) && r.project.store == p.store
    ensures r.failure.None? ==> r.project.store.fields == p.store.fields && r.project.store.relations == p.store.relations
    ensures |r.project.store.tables| == |p.store.tables|
    ensures forall i :: 0 <= i < |p.store.tables| ==>
      && r.project.store.tables[i].id == p.store.tables[i].id
      && r.project.store.tables[i].name == p.store.tables[i].name
      && (p.store.tables[i].id != tableID ==> r.project.store.tables[i] == p.store.tables[i])
    ensures r.failure.None? && DistinctKeys(p.store.tables, TableKey) ==>
      SetsOptionAt(p.store.tables, r.project.store.tables, tableID, name, checked)
  {
    var s := p.store;
    match TableById(s.tables, tableID)
    case None => Outcome(p.(isModified := true), Some(TableNotFound(tableID)))
    case Some(table) =>
      var tables := SetOptions(s.tables, tableID, table.options[name := checked]);
      assert DistinctKeys(s.tables, TableKey) ==> SetsOptionAt(s.tables, tables, tableID, name, checked) by {
        if DistinctKeys(s.tables, TableKey) {
          SetOptionsFound(s.tables, table, name, checked);
        }
      }
      Outcome(Project(s.(tables := tables), true), None)
  }

  /** Setting an option and setting it back to its old value gives the old options. */
  lemma SetOptionBack(before: map<string, bool>, mid: map<string, bool>, after: map<string, bool>, name: string, checked: bool)
    requires name in before
    requires SetsOption(before, mid, name, checked)
    requires SetsOption(mid, after, name, before[name])
    ensures after == before
  {
    assert forall k :: k in after <==> k in before;
  }

  /** Toggling an option and toggling it back to its old value restores the project's tables. */
  lemma ToggleOptionBack(p: Project, tableID: Id, name: string, checked: bool)
    requires DistinctKeys(p.store.tables, TableKey)
    requires forall t :: t in p.store.tables && t.id == tableID ==> name in t.options
    ensures var once := UpdateTableOptions(p, tableID, name, checked);
      once.failure.None? ==>
        var back := TableById(p.store.tables, tableID).value.options[name];
        var twice := UpdateTableOptions(once.project, tableID, name, back);
        twice.failure.None? && twice.project.store == p.store
  {
    var once := UpdateTableOptions(p, tableID, name, checked);
    if once.failure.None? {
      var t := TableById(p.store.tables, tableID).value;
      var back := t.options[name];
      var mid := once.project.store;
      assert DistinctKeys(mid.tables, TableKey) by {
        forall i, j | 0 <= i < j < |mid.tables|
          ensures TableKey(mid.tables[i]) != TableKey(mid.tables[j])
        {
          assert TableKey(p.store.tables[i]) != TableKey(p.store.tables[j]);
        }
      }
      assert HasTable(mid.tables, tableID) by {
        var i :| 0 <= i < |p.store.tables| && p.store.tables[i] == t;
        assert mid.tables[i] in mid.tables;
      }
      var twice := UpdateTableOptions(once.project, tableID, name, back);
      var r := twice.project.store;
      forall i | 0 <= i < |p.store.tables|
        ensures r.tables[i] == p.store.tables[i]
      {
        if p.store.tables[i].id == tableID {
          KeyDetermines(p.store.tables, TableKey, p.store.tables[i], t);
          assert SetsOption(p.store.tables[i].options, mid.tables[i].options, name, checked);
          assert SetsOption(mid.tables[i].options, r.tables[i].options, name, back);
          SetOptionBack(p.store.tables[i].options, mid.tables[i].options, r.tables[i].options, name, checked);
        }
      }
      assert r.tables == p.store.tables;
    }
  }
}
