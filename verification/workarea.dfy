/** The schema handlers of the editor canvas (src/components/WorkArea.js):
    adding tables and fields, editing and removing fields, removing tables
    and renaming tables, each as a function from the store snapshot the
    handler reads to the store its dispatches leave behind. */
module WorkArea {
  import opened Seqs
  import opened Text
  import opened Schema
  import opened Inference

  const NewFieldName: string := "field"
  const NewFieldType: string := "INTEGER"
  const NewTableName: string := "NewTable"
  const KeyFieldName: string := "id"
  const KeyFieldType: string := "INCREMENT"

  /** `addField(tableID)`: a field "field" of type INTEGER owned by `tableID`. */
  function AddField(s: Store, tableID: Id, fieldID: Id): (r: Store)
    ensures r.tables == s.tables && r.relations == s.relations
    ensures |r.fields| == |s.fields| + 1 && r.fields[..|s.fields|] == s.fields
    ensures forall g :: g in r.fields <==> g in s.fields || g == Field(fieldID, tableID, NewFieldName, NewFieldType)
  {
    s.(fields := s.fields + [Field(fieldID, tableID, NewFieldName, NewFieldType)])
  }

  /** `addTable()`: a table "NewTable" with one INCREMENT field "id".
      The random position is left out; the table carries no options. */
  function AddTable(s: Store, tableID: Id, fieldID: Id): (r: Store)
    ensures r.relations == s.relations
    ensures |r.tables| == |s.tables| + 1 && r.tables[..|s.tables|] == s.tables
    ensures forall t :: t in r.tables <==> t in s.tables || t == Table(tableID, NewTableName, map[])
    ensures |r.fields| == |s.fields| + 1 && r.fields[..|s.fields|] == s.fields
    ensures forall g :: g in r.fields <==> g in s.fields || g == Field(fieldID, tableID, KeyFieldName, KeyFieldType)
  {
    Store(s.tables + [Table(tableID, NewTableName, map[])],
          s.fields + [Field(fieldID, tableID, KeyFieldName, KeyFieldType)],
          s.relations)
  }

  /** `updateField(attr)(event, fieldID)` with `event.target.value == value`. */
  function UpdateField(s: Store, attr: Attribute, fieldID: Id, value: string, freshID: Id): (r: Result<Store>)
    ensures r.Err? <==> attr == Name && IsForeignKeyName(value) && !HasField(s.fields, fieldID)
    ensures r.Ok? ==> r.value.tables == s.tables
    ensures r.Ok? ==> SetsOnly(s.fields, r.value.fields, fieldID, attr, value)
    ensures r.Ok? && attr != Name ==> r.value.relations == s.relations
  {
    if attr == Name then
      match InferOnRename(s, fieldID, value, freshID)
      case Err(e) => Err(e)
      case Ok(delta) =>
        var s' := ApplyDelta(s, delta);
        Ok(s'.(fields := ModifyField(s'.fields, fieldID, attr, value)))
    else
      Ok(s.(fields := ModifyField(s.fields, fieldID, attr, value)))
  }

  /** `removeField(fieldID)`: the relation goes only when the field's current
      name is a foreign key; the field always goes. */
  function RemoveField(s: Store, fieldID: Id): (r: Result<Store>)
    ensures r.Err? <==> !HasField(s.fields, fieldID)
    ensures r.Ok? ==> r.value.tables == s.tables
    ensures r.Ok? ==> forall f :: f in r.value.fields <==> f in s.fields && f.id != fieldID
    ensures r.Ok? ==> forall q :: q in r.value.relations ==> q in s.relations
  {
    match FieldById(s.fields, fieldID)
    case None => Err(FieldNotFound(fieldID))
    case Some(field) =>
      var relation := RelationOf(s.relations, fieldID);
      var relations :=
        if IsForeignKeyName(field.name) && relation.Some? then DeleteRelation(s.relations, relation.value.id)
        else s.relations;
      Ok(Store(s.tables, DeleteField(s.fields, fieldID), relations))
  }

  /** Property access on a relation record by key; relations have no other keys. */
  function RelationAttribute(q: Relation, key: string): (r: Option<Id>)
    ensures r.Some? <==> key in ["id", "fieldID", "fromTableID", "toTableID"]
  {
    if key == "id" then Some(q.id)
    else if key == "fieldID" then Some(q.fieldID)
    else if key == "fromTableID" then Some(q.fromTableID)
    else if key == "toTableID" then Some(q.toTableID)
    else None
  }

  function RelationIds(relations: seq<Relation>): (r: seq<Id>)
    ensures forall id :: id in r <==> exists q :: q in relations && q.id == id
  {
    var r := seq(|relations|, i requires 0 <= i < |relations| => relations[i].id);
    assert forall q :: q in relations ==> q.id in r by {
      forall q | q in relations ensures q.id in r {
        var i :| 0 <= i < |relations| && relations[i] == q;
        assert r[i] == q.id;
      }
    }
    r
  }

  function FieldIds(fields: seq<Field>): (r: seq<Id>)
    ensures forall id :: id in r <==> exists f :: f in fields && f.id == id
  {
    var r := seq(|fields|, i requires 0 <= i < |fields| => fields[i].id);
    assert forall f :: f in fields ==> f.id in r by {
      forall f | f in fields ensures f.id in r {
        var i :| 0 <= i < |fields| && fields[i] == f;
        assert r[i] == f.id;
      }
    }
    r
  }

  /** The fields owned by `tableID`. */
  function FieldsOf(fields: seq<Field>, tableID: Id): (r: seq<Field>)
    ensures forall f :: f in r <==> f in fields && f.tableID == tableID
  {
    Filter(fields, (f: Field) => f.tableID == tableID)
  }

  /** Relation records have no `toTable` key. */
  lemma NoToTableKey(q: Relation)
    ensures RelationAttribute(q, "toTable") == None
  {
    assert "toTable" != "id" && "toTable" != "fieldID";
    assert "toTable" != "fromTableID" && "toTable" != "toTableID";
  }

  /** With unique field ids, a field of another table keeps an id no field of `tableID` carries. */
  lemma OtherTablesKeepFieldIds(fields: seq<Field>, tableID: Id)
    ensures DistinctKeys(fields, FieldKey) ==>
      forall f :: f in fields && f.tableID != tableID ==> f.id !in FieldIds(FieldsOf(fields, tableID))
  {
    if DistinctKeys(fields, FieldKey) {
      forall f | f in fields && f.tableID != tableID
        ensures f.id !in FieldIds(FieldsOf(fields, tableID))
      {
        if f.id in FieldIds(FieldsOf(fields, tableID)) {
          var g :| g in FieldsOf(fields, tableID) && g.id == f.id;
          KeyDetermines(fields, FieldKey, f, g);
        }
      }
    }
  }

  /** `removeTable(tableID)` as written: the relation filter reads the key
      `toTable`, which relation records do not have. */
  function RemoveTable(s: Store, tableID: Id): (r: Store)
    ensures forall t :: t in r.tables <==> t in s.tables && t.id != tableID
    ensures forall f :: f in r.fields ==> f in s.fields && f.tableID != tableID
    ensures DistinctKeys(s.fields, FieldKey) ==> forall f :: f in r.fields <==> f in s.fields && f.tableID != tableID
    ensures r.relations == s.relations
  {
    var doomed := Filter(s.relations, (q: Relation) => RelationAttribute(q, "toTable") == Some(tableID));
    assert doomed == [] by {
      forall q | q in s.relations
        ensures RelationAttribute(q, "toTable") == None
      {
        NoToTableKey(q);
      }
    }
    OtherTablesKeepFieldIds(s.fields, tableID);
    Store(DeleteTable(s.tables, tableID),
          DeleteFields(s.fields, FieldIds(FieldsOf(s.fields, tableID))),
          DeleteRelations(s.relations, RelationIds(doomed)))
  }

  /** The cascade `removeTable` evidently intends: the relations pointing at
      the table and the relations leaving it go with it. */
  function RemoveTableCascade(s: Store, tableID: Id): (r: Store)
    ensures forall t :: t in r.tables <==> t in s.tables && t.id != tableID
    ensures forall f :: f in r.fields ==> f in s.fields && f.tableID != tableID
    ensures forall q :: q in r.relations ==> q in s.relations && q.toTableID != tableID && q.fromTableID != tableID
    ensures DistinctKeys(s.fields, FieldKey) ==> forall f :: f in r.fields <==> f in s.fields && f.tableID != tableID
    ensures DistinctKeys(s.relations, RelationKey) ==>
      forall q :: q in r.relations <==> q in s.relations && q.toTableID != tableID && q.fromTableID != tableID
  {
    var doomed := Filter(s.relations, (q: Relation) => q.toTableID == tableID || q.fromTableID == tableID);
    OtherTablesKeepFieldIds(s.fields, tableID);
    assert DistinctKeys(s.relations, RelationKey) ==> forall q :: q in s.relations && q.toTableID != tableID && q.fromTableID != tableID ==> q.id !in RelationIds(doomed) by {
      if DistinctKeys(s.relations, RelationKey) {
        forall q | q in s.relations && q.toTableID != tableID && q.fromTableID != tableID
          ensures q.id !in RelationIds(doomed)
        {
          if q.id in RelationIds(doomed) {
            var p :| p in doomed && p.id == q.id;
            KeyDetermines(s.relations, RelationKey, q, p);
          }
        }
      }
    }
    Store(DeleteTable(s.tables, tableID),
          DeleteFields(s.fields, FieldIds(FieldsOf(s.fields, tableID))),
          DeleteRelations(s.relations, RelationIds(doomed)))
  }

  /** The relations pointing at `tableID`. */
  function InboundRelations(relations: seq<Relation>, tableID: Id): (r: seq<Relation>)
    ensures forall q :: q in r <==> q in relations && q.toTableID == tableID
  {
    Filter(relations, (q: Relation) => q.toTableID == tableID)
  }

  /** `updateTableName(tableID)(event)` with `event.target.value == newName`;
      the k-th relation created draws `uuid(k)`. */
  function UpdateTableName(s: Store, tableID: Id, newName: string, uuid: nat -> Id): (r: Store)
    ensures r.fields == s.fields
    ensures |r.tables| == |s.tables|
    ensures forall i :: 0 <= i < |s.tables| ==>
      && r.tables[i].id == s.tables[i].id
      && r.tables[i].options == s.tables[i].options
      && r.tables[i].name == (if s.tables[i].id == tableID then newName else s.tables[i].name)
  {
    var foreign := FieldsNamed(s.fields, ForeignKeyFor(newName));
    var relations :=
      if |foreign| > 0 then s.relations + ForeignRelations(s.fields, newName, tableID, uuid)
      else DeleteRelations(s.relations, RelationIds(InboundRelations(s.relations, tableID)));
    Store(RenameTable(s.tables, tableID, newName), s.fields, relations)
  }

  // ---------------------------------------------------------------------------
  // Field edits

  /** Renaming a field to a foreign-key name relates it to the implied table
      when its own table exists and it has no relation yet. When several
      tables carry the implied name, the first of them is the target. */
  lemma RenameToKeyCreatesRelation(s: Store, f: Field, k: nat, value: string, freshID: Id)
    requires DistinctKeys(s.fields, FieldKey)
    requires f in s.fields && HasTable(s.tables, f.tableID)
    requires IsForeignKeyName(value)
    requires FirstNamed(s.tables, k, ImpliedTableName(value))
    requires !IsRelated(s.relations, f.id)
    ensures var r := UpdateField(s, Name, f.id, value, freshID);
      r.Ok? && r.value.relations == s.relations + [Relation(freshID, f.id, f.tableID, s.tables[k].id)]
  {
    var field := FieldById(s.fields, f.id).value;
    KeyDetermines(s.fields, FieldKey, field, f);
    var to := TableByName(s.tables, ImpliedTableName(value)).value;
    assert to == s.tables[k];
  }

  /** `newTable_id` is a foreign-key name and implies `NewTable`. */
  lemma NewTableKeyImpliesNewTable()
    ensures IsForeignKeyName("newTable_id") && ImpliedTableName("newTable_id") == NewTableName
  {
    var prefix := "newTable";
    assert forall i :: 0 <= i < |prefix| ==> prefix[i] != '_';
    PlainKeyImpliesTable(prefix);
    assert prefix + KeySuffix == "newTable_id";
    assert Capitalize(prefix) == NewTableName by {
      assert UpperChar('n') == 'N';
      assert prefix[1..] == "ewTable";
    }
    assert "newTable_id"[8..] == KeySuffix;
  }

  /** Two tables named `NewTable`, as two `addTable` calls leave them: renaming
      a field to `newTable_id` relates it to the first. */
  lemma DuplicateTableNameResolvesFirst()
    ensures var s := Store([Table("a", NewTableName, map[]), Table("b", NewTableName, map[])],
                           [Field("f", "a", "field", "INTEGER")], []);
      var r := UpdateField(s, Name, "f", "newTable_id", "n");
      r.Ok? && r.value.relations == [Relation("n", "f", "a", "a")]
  {
    var s := Store([Table("a", NewTableName, map[]), Table("b", NewTableName, map[])],
                   [Field("f", "a", "field", "INTEGER")], []);
    NewTableKeyImpliesNewTable();
    assert s.tables[0] in s.tables && s.fields[0] in s.fields;
    RenameToKeyCreatesRelation(s, s.fields[0], 0, "newTable_id", "n");
  }

  /** A field that already has a relation keeps exactly the relations it had
      when renamed to another foreign-key name, whatever table that name implies. */
  lemma RenameRelatedFieldKeepsRelations(s: Store, fieldID: Id, value: string, freshID: Id)
    requires HasField(s.fields, fieldID) && IsRelated(s.relations, fieldID)
    requires IsForeignKeyName(value)
    ensures var r := UpdateField(s, Name, fieldID, value, freshID);
      r.Ok? && r.value.relations == s.relations
  {
  }

  /** Renaming a field to a name that is not a foreign key deletes the first
      relation the field owns; in a store with one relation per field the
      field is left without any. */
  lemma RenameToPlainNameRetracts(s: Store, fieldID: Id, value: string, freshID: Id)
    requires !IsForeignKeyName(value)
    ensures UpdateField(s, Name, fieldID, value, freshID).Ok?
    ensures !IsRelated(s.relations, fieldID) ==>
      UpdateField(s, Name, fieldID, value, freshID).value.relations == s.relations
    ensures IsRelated(s.relations, fieldID) ==>
      UpdateField(s, Name, fieldID, value, freshID).value.relations
        == DeleteRelation(s.relations, RelationOf(s.relations, fieldID).value.id)
    ensures OneRelationPerField(s) ==>
      !IsRelated(UpdateField(s, Name, fieldID, value, freshID).value.relations, fieldID)
  {
    var r := UpdateField(s, Name, fieldID, value, freshID).value;
    if IsRelated(s.relations, fieldID) {
      var q := RelationOf(s.relations, fieldID).value;
      assert r.relations == DeleteRelation(s.relations, q.id);
      if OneRelationPerField(s) {
        forall q2 | q2 in r.relations
          ensures q2.fieldID != fieldID
        {
          if q2.fieldID == fieldID {
            KeyDetermines(s.relations, OwnerKey, q, q2);
          }
        }
      }
    }
  }

  /** Editing fields keeps ids and owners, so it keeps every invariant that
      does not look at names. */
  lemma ModifyFieldKeepsConsistent(s: Store, fieldID: Id, attr: Attribute, value: string)
    requires Consistent(s)
    ensures Consistent(s.(fields := ModifyField(s.fields, fieldID, attr, value)))
  {
    var fields' := ModifyField(s.fields, fieldID, attr, value);
    var s' := s.(fields := fields');
    assert DistinctKeys(fields', FieldKey) by {
      forall i, j | 0 <= i < j < |fields'|
        ensures FieldKey(fields'[i]) != FieldKey(fields'[j])
      {
        assert FieldKey(s.fields[i]) != FieldKey(s.fields[j]);
      }
    }
    assert NoDanglingRelations(s') by {
      forall q | q in s'.relations
        ensures HasOwner(fields', q)
      {
        var f :| f in s.fields && f.id == q.fieldID && f.tableID == q.fromTableID;
        var i :| 0 <= i < |s.fields| && s.fields[i] == f;
        assert fields'[i] in fields';
      }
    }
    assert NoOrphanFields(s') by {
      forall g | g in fields'
        ensures HasTable(s'.tables, g.tableID)
      {
        var i :| 0 <= i < |fields'| && fields'[i] == g;
        assert s.fields[i] in s.fields;
      }
    }
  }

  /** The relation effect of a rename keeps the store consistent, given a
      fresh relation id. */
  lemma InferenceKeepsConsistent(s: Store, fieldID: Id, value: string, freshID: Id)
    requires Consistent(s) && FreshRelationId(s, freshID)
    requires InferOnRename(s, fieldID, value, freshID).Ok?
    ensures Consistent(ApplyDelta(s, InferOnRename(s, fieldID, value, freshID).value))
  {
    var delta := InferOnRename(s, fieldID, value, freshID).value;
    match delta
    case None =>
    case Some(Create(q)) =>
      AppendKeepsDistinct(s.relations, q, RelationKey);
      AppendKeepsDistinct(s.relations, q, OwnerKey);
    case Some(Delete(q)) =>
      DeleteRelationKeepsDistinct(s.relations, q.id, RelationKey);
      DeleteRelationKeepsDistinct(s.relations, q.id, OwnerKey);
  }

  /** Every field edit keeps the store consistent, given a fresh relation id. */
  lemma UpdateFieldKeepsConsistent(s: Store, attr: Attribute, fieldID: Id, value: string, freshID: Id)
    requires Consistent(s) && FreshRelationId(s, freshID)
    ensures UpdateField(s, attr, fieldID, value, freshID).Ok? ==>
      Consistent(UpdateField(s, attr, fieldID, value, freshID).value)
  {
    if UpdateField(s, attr, fieldID, value, freshID).Ok? {
      if attr == Name {
        InferenceKeepsConsistent(s, fieldID, value, freshID);
        var s' := ApplyDelta(s, InferOnRename(s, fieldID, value, freshID).value);
        ModifyFieldKeepsConsistent(s', fieldID, attr, value);
      } else {
        ModifyFieldKeepsConsistent(s, fieldID, attr, value);
      }
    }
  }

  /** Every field edit keeps related fields named as foreign keys. */
  lemma UpdateFieldKeepsKeyedRelations(s: Store, attr: Attribute, fieldID: Id, value: string, freshID: Id)
    requires OneRelationPerField(s) && RelatedFieldsAreKeys(s)
    ensures UpdateField(s, attr, fieldID, value, freshID).Ok? ==>
      RelatedFieldsAreKeys(UpdateField(s, attr, fieldID, value, freshID).value)
  {
    var res := UpdateField(s, attr, fieldID, value, freshID);
    if res.Ok? {
      if attr == Type {
        RetypeKeepsKeyedRelations(s, fieldID, value, res.value);
      } else {
        var delta := InferOnRename(s, fieldID, value, freshID).value;
        var mid := ApplyDelta(s, delta);
        assert res.value == mid.(fields := ModifyField(mid.fields, fieldID, Name, value));
        if IsForeignKeyName(value) {
          forall q | q in mid.relations && q.fieldID != fieldID
            ensures q in s.relations
          {
          }
        } else {
          forall q | q in mid.relations
            ensures q in s.relations && q.fieldID != fieldID
          {
            if q.fieldID == fieldID {
              if delta.Some? {
                KeyDetermines(s.relations, OwnerKey, q, delta.value.relation);
              }
              assert false;
            }
          }
        }
        RenameKeepsKeyedRelations(s, fieldID, value, mid.relations, res.value);
      }
    }
  }

  /** A type change leaves names and relations, so the invariant carries over. */
  lemma RetypeKeepsKeyedRelations(s: Store, fieldID: Id, value: string, r: Store)
    requires RelatedFieldsAreKeys(s)
    requires r.relations == s.relations && SetsOnly(s.fields, r.fields, fieldID, Type, value)
    ensures RelatedFieldsAreKeys(r)
  {
    forall q, g | q in r.relations && g in r.fields && g.id == q.fieldID
      ensures IsForeignKeyName(g.name)
    {
      var i :| 0 <= i < |r.fields| && r.fields[i] == g;
      assert s.fields[i] in s.fields && s.fields[i].name == g.name;
    }
  }

  /** A rename keeps the invariant when the renamed field keeps a relation only
      under a foreign-key name and every other relation was already there. */
  lemma RenameKeepsKeyedRelations(s: Store, fieldID: Id, value: string, relations: seq<Relation>, r: Store)
    requires RelatedFieldsAreKeys(s)
    requires r.relations == relations && SetsOnly(s.fields, r.fields, fieldID, Name, value)
    requires forall q :: q in relations && q.fieldID != fieldID ==> q in s.relations
    requires !IsForeignKeyName(value) ==> forall q :: q in relations ==> q.fieldID != fieldID
    ensures RelatedFieldsAreKeys(r)
  {
    forall q, g | q in r.relations && g in r.fields && g.id == q.fieldID
      ensures IsForeignKeyName(g.name)
    {
      var i :| 0 <= i < |r.fields| && r.fields[i] == g;
      var before := s.fields[i];
      assert before in s.fields;
      if before.id != fieldID {
        assert g == before && q in s.relations;
      }
    }
  }

  // ---------------------------------------------------------------------------
  // Field removal

  /** Removing a field drops its relation exactly when its current name is a
      foreign key; the other relations stay. */
  lemma RemoveFieldRetracts(s: Store, f: Field)
    requires UniqueIds(s) && OneRelationPerField(s)
    requires f in s.fields
    ensures RemoveField(s, f.id).Ok?
    ensures IsForeignKeyName(f.name) ==> !IsRelated(RemoveField(s, f.id).value.relations, f.id)
    ensures IsForeignKeyName(f.name) ==>
      forall q :: q in s.relations && q.fieldID != f.id ==> q in RemoveField(s, f.id).value.relations
    ensures !IsForeignKeyName(f.name) ==> RemoveField(s, f.id).value.relations == s.relations
  {
    var field := FieldById(s.fields, f.id).value;
    KeyDetermines(s.fields, FieldKey, field, f);
    var r := RemoveField(s, f.id).value;
    if IsForeignKeyName(f.name) && IsRelated(s.relations, f.id) {
      var q := RelationOf(s.relations, f.id).value;
      assert r.relations == DeleteRelation(s.relations, q.id);
      forall q2 | q2 in r.relations
        ensures q2.fieldID != f.id
      {
        if q2.fieldID == f.id {
          KeyDetermines(s.relations, OwnerKey, q, q2);
        }
      }
      forall q2 | q2 in s.relations && q2.fieldID != f.id
        ensures q2 in r.relations
      {
        if q2.id == q.id {
          KeyDetermines(s.relations, RelationKey, q, q2);
        }
      }
    }
  }

  /** Removing a field with a foreign-key name deletes only the first relation
      it owns, whatever else the store holds; any further relation of the
      field stays. */
  lemma RemoveFieldDeletesFirstRelation(s: Store, f: Field)
    requires DistinctKeys(s.fields, FieldKey) && f in s.fields
    requires IsForeignKeyName(f.name) && IsRelated(s.relations, f.id)
    ensures RemoveField(s, f.id).Ok?
    ensures RemoveField(s, f.id).value.relations == DeleteRelation(s.relations, RelationOf(s.relations, f.id).value.id)
  {
    var field := FieldById(s.fields, f.id).value;
    KeyDetermines(s.fields, FieldKey, field, f);
  }

  /** Field removal keeps a consistent store consistent, provided related
      fields carry foreign-key names (otherwise the relation survives its field). */
  lemma RemoveFieldKeepsConsistent(s: Store, fieldID: Id)
    requires Consistent(s) && RelatedFieldsAreKeys(s)
    ensures RemoveField(s, fieldID).Ok? ==>
      Consistent(RemoveField(s, fieldID).value) && RelatedFieldsAreKeys(RemoveField(s, fieldID).value)
  {
    if RemoveField(s, fieldID).Ok? {
      var r := RemoveField(s, fieldID).value;
      var field := FieldById(s.fields, fieldID).value;
      DeleteFieldKeepsDistinct(s.fields, fieldID);
      var relation := RelationOf(s.relations, fieldID);
      if IsForeignKeyName(field.name) && relation.Some? {
        DeleteRelationKeepsDistinct(s.relations, relation.value.id, RelationKey);
        DeleteRelationKeepsDistinct(s.relations, relation.value.id, OwnerKey);
      }
      forall q | q in r.relations
        ensures HasOwner(r.fields, q)
      {
        var f :| f in s.fields && f.id == q.fieldID && f.tableID == q.fromTableID;
        if f.id == fieldID {
          KeyDetermines(s.fields, FieldKey, f, field);
          assert IsForeignKeyName(field.name);
          KeyDetermines(s.relations, OwnerKey, q, relation.value);
          assert false;
        }
        assert f in r.fields;
      }
    }
  }

  /** A relation owned by a field without a foreign-key name outlives the field. */
  lemma RemoveFieldDanglingWitness()
    ensures var s := Store([Table("u", "User", map[]), Table("p", "Post", map[])],
                           [Field("f", "p", "author", "INTEGER")],
                           [Relation("r", "f", "p", "u")]);
      && NoDanglingRelations(s)
      && RemoveField(s, "f").Ok?
      && !NoDanglingRelations(RemoveField(s, "f").value)
  {
    var s := Store([Table("u", "User", map[]), Table("p", "Post", map[])],
                   [Field("f", "p", "author", "INTEGER")],
                   [Relation("r", "f", "p", "u")]);
    assert s.fields[0] in s.fields;
    assert s.tables[0] in s.tables && s.tables[1] in s.tables;
    assert !IsForeignKeyName("author");
    var r := RemoveField(s, "f").value;
    assert r.relations == s.relations;
    assert r.relations[0] in r.relations;
    assert !HasOwner(r.fields, r.relations[0]);
  }

  // ---------------------------------------------------------------------------
  // Table removal

  /** A store left by a removal whose survivors avoid the removed table is consistent. */
  lemma SurvivorsConsistent(s: Store, t: Id, r: Store)
    requires Consistent(s)
    requires forall x :: x in r.tables <==> x in s.tables && x.id != t
    requires forall f :: f in r.fields <==> f in s.fields && f.tableID != t
    requires forall q :: q in r.relations ==> q in s.relations && q.toTableID != t && q.fromTableID != t
    requires UniqueIds(r) && OneRelationPerField(r)
    ensures Consistent(r)
  {
    forall f | f in r.fields
      ensures HasTable(r.tables, f.tableID)
    {
      var x :| x in s.tables && x.id == f.tableID;
      assert x in r.tables;
    }
    forall q | q in r.relations
      ensures HasOwner(r.fields, q) && HasTable(r.tables, q.fromTableID) && HasTable(r.tables, q.toTableID)
    {
      var f :| f in s.fields && f.id == q.fieldID && f.tableID == q.fromTableID;
      assert f in r.fields;
      var a :| a in s.tables && a.id == q.fromTableID;
      var b :| b in s.tables && b.id == q.toTableID;
      assert a in r.tables && b in r.tables;
    }
  }

  /** The table removal as written keeps the store consistent only when no
      relation touches the table. */
  lemma RemoveTableKeepsConsistentWhenUnreferenced(s: Store, tableID: Id)
    requires Consistent(s)
    requires forall q :: q in s.relations ==> q.toTableID != tableID && q.fromTableID != tableID
    ensures Consistent(RemoveTable(s, tableID))
  {
    var r := RemoveTable(s, tableID);
    DeleteTableKeepsDistinct(s.tables, tableID);
    DeleteFieldsKeepsDistinct(s.fields, FieldIds(FieldsOf(s.fields, tableID)));
    SurvivorsConsistent(s, tableID, r);
  }

  /** The store the table-removal witnesses start from: `Post.user_id` refers to `User`. */
  function PostUserStore(): (r: Store) {
    Store([Table("u", "User", map[]), Table("p", "Post", map[])],
          [Field("f", "p", "user_id", "INTEGER")],
          [Relation("r", "f", "p", "u")])
  }

  lemma PostUserStoreHasNoDangling()
    ensures NoDanglingRelations(PostUserStore())
  {
    var s := PostUserStore();
    assert s.fields[0] in s.fields;
    assert s.tables[0] in s.tables && s.tables[1] in s.tables;
  }

  /** Removing the referenced table leaves the relation pointing at it. */
  lemma RemoveTableInboundDanglingWitness()
    ensures !NoDanglingRelations(RemoveTable(PostUserStore(), "u"))
  {
    var s := PostUserStore();
    var r := RemoveTable(s, "u");
    assert s.relations[0] in r.relations;
    assert !HasTable(r.tables, "u");
  }

  /** Removing the owning table leaves the relation owned by its deleted field. */
  lemma RemoveTableOutboundDanglingWitness()
    ensures !NoDanglingRelations(RemoveTable(PostUserStore(), "p"))
  {
    var s := PostUserStore();
    var r := RemoveTable(s, "p");
    assert s.relations[0] in r.relations;
    assert !HasTable(r.tables, "p");
  }

  /** The intended cascade keeps every consistent store consistent. */
  lemma RemoveTableCascadeKeepsConsistent(s: Store, tableID: Id)
    requires Consistent(s)
    ensures Consistent(RemoveTableCascade(s, tableID))
  {
    var r := RemoveTableCascade(s, tableID);
    var doomed := Filter(s.relations, (q: Relation) => q.toTableID == tableID || q.fromTableID == tableID);
    DeleteTableKeepsDistinct(s.tables, tableID);
    DeleteFieldsKeepsDistinct(s.fields, FieldIds(FieldsOf(s.fields, tableID)));
    DeleteRelationsKeepsDistinct(s.relations, RelationIds(doomed), RelationKey);
    DeleteRelationsKeepsDistinct(s.relations, RelationIds(doomed), OwnerKey);
    SurvivorsConsistent(s, tableID, r);
  }

  // ---------------------------------------------------------------------------
  // Table rename

  /** When some field is named after the new table name, one relation per such
      field is appended and nothing is removed or checked for duplicates. */
  lemma UpdateTableNameAppends(s: Store, tableID: Id, newName: string, uuid: nat -> Id, f: Field)
    requires f in s.fields && f.name == ForeignKeyFor(newName)
    ensures var r := UpdateTableName(s, tableID, newName, uuid);
      && |r.relations| == |s.relations| + |FieldsNamed(s.fields, ForeignKeyFor(newName))|
      && r.relations[..|s.relations|] == s.relations
      && (forall g :: g in s.fields && g.name == ForeignKeyFor(newName) ==>
            exists q :: q in r.relations[|s.relations|..] && q.fieldID == g.id && q.fromTableID == g.tableID && q.toTableID == tableID)
      && (forall q :: q in r.relations[|s.relations|..] ==> q.toTableID == tableID)
  {
    var r := UpdateTableName(s, tableID, newName, uuid);
    assert f in FieldsNamed(s.fields, ForeignKeyFor(newName));
    var added := ForeignRelations(s.fields, newName, tableID, uuid);
    assert r.relations == s.relations + added;
    assert r.relations[|s.relations|..] == added;
    ForeignRelationsCover(s.fields, newName, tableID, uuid);
  }

  /** When no field is named after the new table name, every relation pointing
      at the table is removed and all others stay. */
  lemma UpdateTableNameRetractsInbound(s: Store, tableID: Id, newName: string, uuid: nat -> Id)
    requires forall f :: f in s.fields ==> f.name != ForeignKeyFor(newName)
    requires DistinctKeys(s.relations, RelationKey)
    ensures var r := UpdateTableName(s, tableID, newName, uuid);
      forall q :: q in r.relations <==> q in s.relations && q.toTableID != tableID
  {
    var foreign := FieldsNamed(s.fields, ForeignKeyFor(newName));
    var inbound := InboundRelations(s.relations, tableID);
    var r := UpdateTableName(s, tableID, newName, uuid);
    assert r.relations == DeleteRelations(s.relations, RelationIds(inbound));
    forall q | q in s.relations && q.toTableID != tableID
      ensures q.id !in RelationIds(inbound)
    {
      if q.id in RelationIds(inbound) {
        var p :| p in inbound && p.id == q.id;
        KeyDetermines(s.relations, RelationKey, q, p);
      }
    }
  }

  /** The fields a rename relates to the table: existing fields with
      foreign-key names, no two with one id, none related yet. */
  ghost predicate FreshSources(s: Store, sources: seq<Field>) {
    && DistinctKeys(sources, FieldKey)
    && forall f :: f in sources ==> f in s.fields && IsForeignKeyName(f.name) && !IsRelated(s.relations, f.id)
  }

  /** Drawn relation ids that are pairwise distinct and carried by no relation of `s`. */
  ghost predicate FreshIds(s: Store, uuid: nat -> Id) {
    && (forall a: nat, b: nat :: a != b ==> uuid(a) != uuid(b))
    && forall k: nat :: FreshRelationId(s, uuid(k))
  }

  /** The relations built for fresh sources carry fresh ids and fresh owners. */
  lemma AppendedRelationsFresh(s: Store, sources: seq<Field>, tableID: Id, uuid: nat -> Id)
    requires FreshSources(s, sources) && FreshIds(s, uuid)
    ensures forall x, y :: x in s.relations && y in RelationsInto(sources, tableID, uuid) ==>
      x.id != y.id && x.fieldID != y.fieldID
  {
    var added := RelationsInto(sources, tableID, uuid);
    forall x, y | x in s.relations && y in added
      ensures x.id != y.id && x.fieldID != y.fieldID
    {
      var k :| 0 <= k < |added| && added[k] == y;
      assert y.id == uuid(k) && FreshRelationId(s, uuid(k));
      assert sources[k] in sources && !IsRelated(s.relations, sources[k].id);
    }
  }

  /** Appending the relations built for fresh sources keeps ids and owners distinct. */
  lemma AppendedRelationsDistinct(s: Store, sources: seq<Field>, tableID: Id, uuid: nat -> Id)
    requires UniqueIds(s) && OneRelationPerField(s)
    requires FreshSources(s, sources) && FreshIds(s, uuid)
    ensures var all := s.relations + RelationsInto(sources, tableID, uuid);
      DistinctKeys(all, RelationKey) && DistinctKeys(all, OwnerKey)
  {
    var added := RelationsInto(sources, tableID, uuid);
    RelationsIntoDistinct(sources, tableID, uuid);
    AppendedRelationsFresh(s, sources, tableID, uuid);
    ConcatKeepsDistinct(s.relations, added, RelationKey);
    ConcatKeepsDistinct(s.relations, added, OwnerKey);
  }

  /** The relations built for existing fields toward an existing table resolve. */
  lemma AppendedRelationsResolve(s: Store, sources: seq<Field>, tableID: Id, uuid: nat -> Id)
    requires NoOrphanFields(s) && NoDanglingRelations(s)
    requires HasTable(s.tables, tableID)
    requires forall f :: f in sources ==> f in s.fields
    ensures NoDanglingRelations(s.(relations := s.relations + RelationsInto(sources, tableID, uuid)))
  {
    var added := RelationsInto(sources, tableID, uuid);
    var r := s.(relations := s.relations + added);
    RelationsIntoCover(sources, tableID, uuid);
    forall q | q in r.relations
      ensures HasOwner(r.fields, q) && HasTable(r.tables, q.fromTableID) && HasTable(r.tables, q.toTableID)
    {
      if q in added {
        var g :| g in sources && g.id == q.fieldID && g.tableID == q.fromTableID;
        assert g in s.fields && HasTable(s.tables, g.tableID);
      } else {
        assert q in s.relations;
      }
    }
  }

  /** The relations built for fields with foreign-key names keep every related field keyed. */
  lemma AppendedRelationsKeyed(s: Store, sources: seq<Field>, tableID: Id, uuid: nat -> Id)
    requires DistinctKeys(s.fields, FieldKey) && RelatedFieldsAreKeys(s)
    requires forall f :: f in sources ==> f in s.fields && IsForeignKeyName(f.name)
    ensures RelatedFieldsAreKeys(s.(relations := s.relations + RelationsInto(sources, tableID, uuid)))
  {
    var added := RelationsInto(sources, tableID, uuid);
    var r := s.(relations := s.relations + added);
    forall q, g | q in r.relations && g in r.fields && g.id == q.fieldID
      ensures IsForeignKeyName(g.name)
    {
      if q in added {
        var k :| 0 <= k < |added| && added[k] == q;
        assert sources[k] in sources;
        KeyDetermines(s.fields, FieldKey, g, sources[k]);
      } else {
        assert q in s.relations;
      }
    }
  }

  /** Appending one relation per fresh source toward an existing table keeps the store consistent. */
  lemma AppendKeepsConsistent(s: Store, sources: seq<Field>, tableID: Id, uuid: nat -> Id)
    requires Consistent(s) && RelatedFieldsAreKeys(s)
    requires HasTable(s.tables, tableID)
    requires FreshSources(s, sources) && FreshIds(s, uuid)
    ensures Consistent(s.(relations := s.relations + RelationsInto(sources, tableID, uuid)))
    ensures RelatedFieldsAreKeys(s.(relations := s.relations + RelationsInto(sources, tableID, uuid)))
  {
    AppendedRelationsDistinct(s, sources, tableID, uuid);
    AppendedRelationsResolve(s, sources, tableID, uuid);
    AppendedRelationsKeyed(s, sources, tableID, uuid);
  }

  /** Retracting the relations into a table keeps the store consistent. */
  lemma RetractKeepsConsistent(s: Store, tableID: Id)
    requires Consistent(s) && RelatedFieldsAreKeys(s)
    ensures var inbound := InboundRelations(s.relations, tableID);
      var r := s.(relations := DeleteRelations(s.relations, RelationIds(inbound)));
      Consistent(r) && RelatedFieldsAreKeys(r)
  {
    var inbound := InboundRelations(s.relations, tableID);
    DeleteRelationsKeepsDistinct(s.relations, RelationIds(inbound), RelationKey);
    DeleteRelationsKeepsDistinct(s.relations, RelationIds(inbound), OwnerKey);
  }

  /** Renaming a table after its relations are decided keeps the store consistent. */
  lemma RenameKeepsConsistent(s: Store, tableID: Id, newName: string)
    requires Consistent(s) && RelatedFieldsAreKeys(s)
    ensures Consistent(s.(tables := RenameTable(s.tables, tableID, newName)))
    ensures RelatedFieldsAreKeys(s.(tables := RenameTable(s.tables, tableID, newName)))
  {
    RenameTableKeepsIds(s.tables, tableID, newName);
  }

  /** A table rename keeps the store consistent when the table exists, the
      drawn relation ids are fresh and distinct, and no field named after the
      new name is related already. */
  lemma UpdateTableNameKeepsConsistent(s: Store, tableID: Id, newName: string, uuid: nat -> Id)
    requires Consistent(s) && RelatedFieldsAreKeys(s)
    requires HasTable(s.tables, tableID) && FreshIds(s, uuid)
    requires forall f :: f in s.fields && f.name == ForeignKeyFor(newName) ==> !IsRelated(s.relations, f.id)
    ensures Consistent(UpdateTableName(s, tableID, newName, uuid))
    ensures RelatedFieldsAreKeys(UpdateTableName(s, tableID, newName, uuid))
  {
    var foreign := FieldsNamed(s.fields, ForeignKeyFor(newName));
    var mid: Store;
    if |foreign| > 0 {
      ForeignKeyForIsForeignKey(newName);
      assert FreshSources(s, foreign);
      AppendKeepsConsistent(s, foreign, tableID, uuid);
      mid := s.(relations := s.relations + RelationsInto(foreign, tableID, uuid));
    } else {
      RetractKeepsConsistent(s, tableID);
      mid := s.(relations := DeleteRelations(s.relations, RelationIds(InboundRelations(s.relations, tableID))));
    }
    RenameKeepsConsistent(mid, tableID, newName);
    assert UpdateTableName(s, tableID, newName, uuid) == mid.(tables := RenameTable(s.tables, tableID, newName));
  }

  /** The fields of `fields` that own no relation. */
  function UnrelatedFields(fields: seq<Field>, relations: seq<Relation>): (r: seq<Field>)
    ensures forall f :: f in r <==> f in fields && !IsRelated(relations, f.id)
    ensures DistinctKeys(fields, FieldKey) ==> DistinctKeys(r, FieldKey)
  {
    var p := (f: Field) => RelationOf(relations, f.id).None?;
    assert DistinctKeys(fields, FieldKey) ==> DistinctKeys(Filter(fields, p), FieldKey) by {
      if DistinctKeys(fields, FieldKey) {
        FilterKeepsDistinct(fields, p, FieldKey);
      }
    }
    Filter(fields, p)
  }

  /** The table rename `updateTableName` evidently intends: like the field
      rename, it relates only the matching fields that have no relation yet. */
  function UpdateTableNameChecked(s: Store, tableID: Id, newName: string, uuid: nat -> Id): (r: Store)
    ensures r.fields == s.fields
    ensures |r.tables| == |s.tables|
    ensures forall i :: 0 <= i < |s.tables| ==>
      && r.tables[i].id == s.tables[i].id
      && r.tables[i].options == s.tables[i].options
      && r.tables[i].name == (if s.tables[i].id == tableID then newName else s.tables[i].name)
  {
    var foreign := FieldsNamed(s.fields, ForeignKeyFor(newName));
    var relations :=
      if |foreign| > 0 then s.relations + RelationsInto(UnrelatedFields(foreign, s.relations), tableID, uuid)
      else DeleteRelations(s.relations, RelationIds(InboundRelations(s.relations, tableID)));
    Store(RenameTable(s.tables, tableID, newName), s.fields, relations)
  }

  /** When some field matches the new name, the checked rename keeps every
      relation and appends relations toward the table for exactly the
      matching fields that had none, one each. */
  lemma UpdateTableNameCheckedAppends(s: Store, tableID: Id, newName: string, uuid: nat -> Id, f: Field)
    requires f in s.fields && f.name == ForeignKeyFor(newName)
    requires DistinctKeys(s.fields, FieldKey)
    ensures var r := UpdateTableNameChecked(s, tableID, newName, uuid);
      && |s.relations| <= |r.relations|
      && r.relations[..|s.relations|] == s.relations
      && DistinctKeys(r.relations[|s.relations|..], OwnerKey)
      && (forall q :: q in r.relations[|s.relations|..] ==>
            && q.toTableID == tableID
            && exists g :: g in s.fields && g.name == ForeignKeyFor(newName) && !IsRelated(s.relations, g.id)
                 && g.id == q.fieldID && g.tableID == q.fromTableID)
      && (forall g :: g in s.fields && g.name == ForeignKeyFor(newName) && !IsRelated(s.relations, g.id) ==>
            exists q :: q in r.relations[|s.relations|..] && q.fieldID == g.id && q.fromTableID == g.tableID && q.toTableID == tableID)
  {
    var r := UpdateTableNameChecked(s, tableID, newName, uuid);
    var foreign := FieldsNamed(s.fields, ForeignKeyFor(newName));
    assert f in foreign;
    var sources := UnrelatedFields(foreign, s.relations);
    var added := RelationsInto(sources, tableID, uuid);
    assert r.relations == s.relations + added;
    assert r.relations[|s.relations|..] == added;
    RelationsIntoCover(sources, tableID, uuid);
    RelationsIntoDistinct(sources, tableID, uuid);
  }

  /** The checked rename keeps every consistent store consistent, whatever
      the matching fields are related to, given fresh distinct ids. */
  lemma UpdateTableNameCheckedKeepsConsistent(s: Store, tableID: Id, newName: string, uuid: nat -> Id)
    requires Consistent(s) && RelatedFieldsAreKeys(s)
    requires HasTable(s.tables, tableID) && FreshIds(s, uuid)
    ensures Consistent(UpdateTableNameChecked(s, tableID, newName, uuid))
    ensures RelatedFieldsAreKeys(UpdateTableNameChecked(s, tableID, newName, uuid))
  {
    var foreign := FieldsNamed(s.fields, ForeignKeyFor(newName));
    var mid: Store;
    if |foreign| > 0 {
      var sources := UnrelatedFields(foreign, s.relations);
      ForeignKeyForIsForeignKey(newName);
      assert FreshSources(s, sources);
      AppendKeepsConsistent(s, sources, tableID, uuid);
      mid := s.(relations := s.relations + RelationsInto(sources, tableID, uuid));
    } else {
      RetractKeepsConsistent(s, tableID);
      mid := s.(relations := DeleteRelations(s.relations, RelationIds(InboundRelations(s.relations, tableID))));
    }
    RenameKeepsConsistent(mid, tableID, newName);
    assert UpdateTableNameChecked(s, tableID, newName, uuid) == mid.(tables := RenameTable(s.tables, tableID, newName));
  }

  /** The checked rename differs from the rename as written only when a
      matching field is already related. */
  lemma UpdateTableNameCheckedAgrees(s: Store, tableID: Id, newName: string, uuid: nat -> Id)
    requires forall f :: f in s.fields && f.name == ForeignKeyFor(newName) ==> !IsRelated(s.relations, f.id)
    ensures UpdateTableNameChecked(s, tableID, newName, uuid) == UpdateTableName(s, tableID, newName, uuid)
  {
    var foreign := FieldsNamed(s.fields, ForeignKeyFor(newName));
    var sources := UnrelatedFields(foreign, s.relations);
    assert sources == foreign by {
      FilterAll(foreign, (f: Field) => RelationOf(s.relations, f.id).None?);
    }
  }

  // ---------------------------------------------------------------------------
  // Table and field creation

  /** A new field belongs to an existing table, implies no relation, and keeps
      the store consistent. */
  lemma AddFieldKeepsConsistent(s: Store, tableID: Id, fieldID: Id)
    requires Consistent(s) && RelatedFieldsAreKeys(s)
    requires HasTable(s.tables, tableID) && !HasField(s.fields, fieldID)
    ensures Consistent(AddField(s, tableID, fieldID)) && RelatedFieldsAreKeys(AddField(s, tableID, fieldID))
    ensures !IsForeignKeyName(NewFieldName) && ImpliedTarget(NewFieldName, s.tables).None?
  {
    var f := Field(fieldID, tableID, NewFieldName, NewFieldType);
    AppendKeepsDistinct(s.fields, f, FieldKey);
    assert s.fields + [f] == AddField(s, tableID, fieldID).fields;
    assert NewFieldName[2..] != KeySuffix;
  }

  /** A new table comes with its key field, implies no relation, and keeps the
      store consistent. */
  lemma AddTableKeepsConsistent(s: Store, tableID: Id, fieldID: Id)
    requires Consistent(s) && RelatedFieldsAreKeys(s)
    requires !HasTable(s.tables, tableID) && !HasField(s.fields, fieldID)
    ensures Consistent(AddTable(s, tableID, fieldID)) && RelatedFieldsAreKeys(AddTable(s, tableID, fieldID))
    ensures !IsForeignKeyName(KeyFieldName) && ImpliedTarget(KeyFieldName, s.tables).None?
  {
    var t := Table(tableID, NewTableName, map[]);
    var f := Field(fieldID, tableID, KeyFieldName, KeyFieldType);
    AppendKeepsDistinct(s.tables, t, TableKey);
    AppendKeepsDistinct(s.fields, f, FieldKey);
    var r := AddTable(s, tableID, fieldID);
    assert t in r.tables;
    forall q | q in r.relations
      ensures HasOwner(r.fields, q) && HasTable(r.tables, q.fromTableID) && HasTable(r.tables, q.toTableID)
    {
      var g :| g in s.fields && g.id == q.fieldID && g.tableID == q.fromTableID;
      assert g in r.fields;
      var a :| a in s.tables && a.id == q.fromTableID;
      var b :| b in s.tables && b.id == q.toTableID;
      assert a in r.tables && b in r.tables;
    }
    forall g | g in r.fields
      ensures HasTable(r.tables, g.tableID)
    {
      if g != f {
        assert g in s.fields;
        var a :| a in s.tables && a.id == g.tableID;
        assert a in r.tables;
      }
    }
  }

  // ---------------------------------------------------------------------------
  // Concrete stores showing what the rename rules leave behind

  /** `Post.user_id` related to `User`, with a `Team` table present. */
  function PostUserTeamStore(): (r: Store) {
    Store([Table("u", "User", map[]), Table("p", "Post", map[]), Table("t", "Team", map[])],
          [Field("f", "p", "user_id", "INTEGER")],
          [Relation("r", "f", "p", "u")])
  }

  /** Renaming `user_id` to `team_id` keeps the relation to `User`, although
      the new name implies `Team`. */
  lemma StaleRelationWitness()
    ensures ImpliedTableName("team_id") == "Team"
    ensures var r := UpdateField(PostUserTeamStore(), Name, "f", "team_id", "n");
      r.Ok? && r.value.relations == [Relation("r", "f", "p", "u")]
  {
    PlainKeyImpliesTable("team");
    assert "team" + KeySuffix == "team_id";
    var s := PostUserTeamStore();
    assert s.relations[0] in s.relations && s.fields[0] in s.fields;
    assert IsForeignKeyName("team_id") by {
      assert "team_id"[4..] == KeySuffix;
    }
  }

  lemma UserForeignKey()
    ensures ForeignKeyFor("User") == "user_id"
  {
    assert ToLower("User") == "user";
  }

  /** Giving `User` its own name again relates `Post.user_id` to it a second time. */
  lemma DuplicateRelationWitness(uuid: nat -> Id)
    ensures OneRelationPerField(PostUserStore())
    ensures !OneRelationPerField(UpdateTableName(PostUserStore(), "u", "User", uuid))
  {
    var s := PostUserStore();
    UserForeignKey();
    var foreign := FieldsNamed(s.fields, ForeignKeyFor("User"));
    assert s.fields[0] in foreign;
    assert foreign[0] in foreign;
    var r := UpdateTableName(s, "u", "User", uuid);
    assert r.relations == s.relations + RelationsInto(foreign, "u", uuid);
    assert OwnerKey(r.relations[0]) == OwnerKey(r.relations[1]);
  }

  /** Renaming `User` to `User` keeps `Post.user_id` and gives it a second relation. */
  lemma DuplicatingRename(uuid: nat -> Id)
    ensures var s := UpdateTableName(PostUserStore(), "u", "User", uuid);
      && s.fields == [Field("f", "p", "user_id", "INTEGER")]
      && s.relations == [Relation("r", "f", "p", "u"), Relation(uuid(0), "f", "p", "u")]
  {
    var s0 := PostUserStore();
    UserForeignKey();
    var foreign := FieldsNamed(s0.fields, ForeignKeyFor("User"));
    assert s0.fields[0] in foreign;
    assert foreign == [s0.fields[0]];
  }

  /** After the duplicating rename, removing `Post.user_id` deletes only its
      first relation: the second one stays, owned by a field that is gone. */
  lemma RemoveDuplicatedFieldWitness(uuid: nat -> Id)
    requires uuid(0) != "r"
    ensures var s := UpdateTableName(PostUserStore(), "u", "User", uuid);
      && RemoveField(s, "f").Ok?
      && RemoveField(s, "f").value.relations == [Relation(uuid(0), "f", "p", "u")]
      && !HasField(RemoveField(s, "f").value.fields, "f")
  {
    DuplicatingRename(uuid);
    var s := UpdateTableName(PostUserStore(), "u", "User", uuid);
    assert s.fields[0] in s.fields;
    var r := RemoveField(s, "f").value;
    assert r.relations == [Relation(uuid(0), "f", "p", "u")];
  }


  /** After the duplicating rename, renaming `Post.user_id` to `title` deletes
      only its first relation: the second one stays on a field whose name is
      no longer a foreign key. */
  lemma RenameDuplicatedFieldWitness(uuid: nat -> Id)
    requires uuid(0) != "r"
    ensures var s := UpdateTableName(PostUserStore(), "u", "User", uuid);
      && RelatedFieldsAreKeys(s)
      && UpdateField(s, Name, "f", "title", "n").Ok?
      && !RelatedFieldsAreKeys(UpdateField(s, Name, "f", "title", "n").value)
  {
    DuplicatingRename(uuid);
    UserForeignKey();
    ForeignKeyForIsForeignKey("User");
    var s := UpdateTableName(PostUserStore(), "u", "User", uuid);
    assert !IsForeignKeyName("title") by {
      assert "title"[2..] != KeySuffix;
    }
    var r := UpdateField(s, Name, "f", "title", "n").value;
    assert r.relations == [Relation(uuid(0), "f", "p", "u")];
    assert r.fields[0] == Field("f", "p", "title", "INTEGER");
    assert r.relations[0] in r.relations && r.fields[0] in r.fields;
  }


  /** The checked rename leaves `Post.user_id` with its one relation. */
  lemma CheckedRenameWitness(uuid: nat -> Id)
    ensures UpdateTableNameChecked(PostUserStore(), "u", "User", uuid).relations == PostUserStore().relations
  {
    var s := PostUserStore();
    UserForeignKey();
    var foreign := FieldsNamed(s.fields, ForeignKeyFor("User"));
    assert s.fields[0] in foreign;
    assert s.relations[0] in s.relations;
    assert UnrelatedFields(foreign, s.relations) == [];
  }

  /** `Post` has `user_id`, related to `User`, and `member_id`. */
  function UserMemberStore(): (r: Store) {
    Store([Table("u", "User", map[]), Table("p", "Post", map[])],
          [Field("f", "p", "user_id", "INTEGER"), Field("g", "p", "member_id", "INTEGER")],
          [Relation("r", "f", "p", "u")])
  }

  lemma MemberForeignKey()
    ensures ForeignKeyFor("Member") == "member_id"
  {
    assert ToLower("Member") == "member";
  }

  /** Renaming `User` to `Member` relates `member_id` to it and leaves
      `user_id`, which implies `User`, related to it as well. */
  lemma RenameKeepsStaleInboundWitness(uuid: nat -> Id)
    ensures ImpliedTableName("user_id") == "User"
    ensures var r := UpdateTableName(UserMemberStore(), "u", "Member", uuid);
      && r.relations == [Relation("r", "f", "p", "u"), Relation(uuid(0), "g", "p", "u")]
      && r.tables[0] == Table("u", "Member", map[])
  {
    UserKeyImpliesUser();
    MemberForeignKey();
    var s := UserMemberStore();
    var foreign := FieldsNamed(s.fields, ForeignKeyFor("Member"));
    assert s.fields[1] in foreign;
    assert forall f :: f in foreign ==> f == s.fields[1];
    assert foreign == [s.fields[1]];
  }

  lemma UserKeyImpliesUser()
    ensures ImpliedTableName("user_id") == "User"
  {
    PlainKeyImpliesTable("user");
    assert "user" + KeySuffix == "user_id";
  }
}
