/** The relation-inference rules shared by the editor canvas and the table
    list: what a field rename implies for the field's relation, and which
    relations a table name implies for the fields that refer to it. */
module Inference {
  import opened Seqs
  import opened Text
  import opened Schema

  /** The naming-convention resolver: the table a field name refers to, if any. */
  function ImpliedTarget(fieldName: string, tables: seq<Table>): (r: Option<Id>)
    ensures r.Some? <==> IsForeignKeyName(fieldName) && HasTableNamed(tables, ImpliedTableName(fieldName))
    ensures r.Some? ==> exists t :: t in tables && t.id == r.value && t.name == ImpliedTableName(fieldName)
    ensures r.Some? ==> exists i :: FirstNamed(tables, i, ImpliedTableName(fieldName)) && tables[i].id == r.value
  {
    if !IsForeignKeyName(fieldName) then None
    else match TableByName(tables, ImpliedTableName(fieldName))
      case None => None
      case Some(t) => Some(t.id)
  }

  /** The relation effect of renaming field `fieldID` to `value`
      (WorkArea.js:288-312, TableListContainer.js:96-120):
      - a foreign-key name creates a relation when the field's table and the
        implied table exist and the field has no relation yet;
      - any other name deletes the field's first relation, if it has one;
      - a foreign-key name for a field that does not exist throws. */
  function InferOnRename(s: Store, fieldID: Id, value: string, freshID: Id): (r: Result<Option<Delta>>)
    ensures r.Err? <==> IsForeignKeyName(value) && !HasField(s.fields, fieldID)
    ensures r.Ok? && r.value.Some? && r.value.value.Create? ==>
      var q := r.value.value.relation;
      && IsForeignKeyName(value)
      && !IsRelated(s.relations, fieldID)
      && q.id == freshID && q.fieldID == fieldID
      && HasOwner(s.fields, q)
      && HasTable(s.tables, q.fromTableID)
      && (exists t :: t in s.tables && t.id == q.toTableID && t.name == ImpliedTableName(value))
      && (exists i :: FirstNamed(s.tables, i, ImpliedTableName(value)) && s.tables[i].id == q.toTableID)
    ensures r.Ok? && r.value.Some? && r.value.value.Delete? ==>
      && !IsForeignKeyName(value)
      && r.value.value.relation in s.relations
      && r.value.value.relation.fieldID == fieldID
      && exists i :: (0 <= i < |s.relations| && s.relations[i] == r.value.value.relation &&
           forall j :: 0 <= j < i ==> s.relations[j].fieldID != fieldID)
    ensures r == Ok(None) && IsForeignKeyName(value) ==>
      || IsRelated(s.relations, fieldID)
      || !HasTableNamed(s.tables, ImpliedTableName(value))
      || (exists f :: f in s.fields && f.id == fieldID && !HasTable(s.tables, f.tableID))
    ensures r == Ok(None) && !IsForeignKeyName(value) ==> !IsRelated(s.relations, fieldID)
  {
    var relation := RelationOf(s.relations, fieldID);
    if IsForeignKeyName(value) then
      match FieldById(s.fields, fieldID)
      case None => Err(FieldNotFound(fieldID))
      case Some(field) =>
        var fromTable := TableById(s.tables, field.tableID);
        var toTable := ImpliedTarget(value, s.tables);
        if fromTable.Some? && toTable.Some? && relation.None? then
          Ok(Some(Create(Relation(freshID, field.id, fromTable.value.id, toTable.value))))
        else
          Ok(None)
    else if relation.Some? then
      Ok(Some(Delete(relation.value)))
    else
      Ok(None)
  }

  /** The fields called `name`, in store order (`fields.filter(item => item.name === name)`). */
  function FieldsNamed(fields: seq<Field>, name: string): (r: seq<Field>)
    ensures forall f :: f in r <==> f in fields && f.name == name
    ensures DistinctKeys(fields, FieldKey) ==> DistinctKeys(r, FieldKey)
    ensures r == [] <==> forall f :: f in fields ==> f.name != name
  {
    var p := (f: Field) => f.name == name;
    assert DistinctKeys(fields, FieldKey) ==> DistinctKeys(Filter(fields, p), FieldKey) by {
      if DistinctKeys(fields, FieldKey) {
        FilterKeepsDistinct(fields, p, FieldKey);
      }
    }
    Filter(fields, p)
  }

  /** One relation toward table `tableID` per field of `sources`, in order,
      the k-th carrying `uuid(k)`; each leaves from its field's table. */
  function RelationsInto(sources: seq<Field>, tableID: Id, uuid: nat -> Id): (r: seq<Relation>)
  {
    seq(|sources|, k requires 0 <= k < |sources| =>
      Relation(uuid(k), sources[k].id, sources[k].tableID, tableID))
  }

  /** Every relation built points at `tableID` from one of the sources, and
      every source gets one. */
  lemma RelationsIntoCover(sources: seq<Field>, tableID: Id, uuid: nat -> Id)
    ensures var r := RelationsInto(sources, tableID, uuid);
      forall q :: q in r ==>
        && q.toTableID == tableID
        && exists f :: f in sources && f.id == q.fieldID && f.tableID == q.fromTableID
    ensures var r := RelationsInto(sources, tableID, uuid);
      forall f :: f in sources ==>
        exists q :: q in r && q.fieldID == f.id && q.fromTableID == f.tableID && q.toTableID == tableID
  {
    var r := RelationsInto(sources, tableID, uuid);
    forall f | f in sources
      ensures exists q :: q in r && q.fieldID == f.id && q.fromTableID == f.tableID && q.toTableID == tableID
    {
      var k :| 0 <= k < |sources| && sources[k] == f;
      assert r[k] in r;
    }
    forall q | q in r
      ensures q.toTableID == tableID
      ensures exists f :: f in sources && f.id == q.fieldID && f.tableID == q.fromTableID
    {
      var k :| 0 <= k < |r| && r[k] == q;
      assert sources[k] in sources;
    }
  }

  /** The relations built have one owner each when the sources' ids are
      unique, and distinct ids when the drawn ids are distinct. */
  lemma RelationsIntoDistinct(sources: seq<Field>, tableID: Id, uuid: nat -> Id)
    requires DistinctKeys(sources, FieldKey)
    ensures DistinctKeys(RelationsInto(sources, tableID, uuid), OwnerKey)
    ensures (forall a: nat, b: nat :: a != b ==> uuid(a) != uuid(b)) ==>
      DistinctKeys(RelationsInto(sources, tableID, uuid), RelationKey)
  {
    var added := RelationsInto(sources, tableID, uuid);
    forall i, j | 0 <= i < j < |added|
      ensures OwnerKey(added[i]) != OwnerKey(added[j])
    {
      assert FieldKey(sources[i]) != FieldKey(sources[j]);
    }
  }

  /** One relation toward table `tableID` per field named after `tableName`
      (`lowercase(tableName) + "_id"`), in field order (WorkArea.js:439-454,
      TableListContainer.js:172-187, main.js:140-149). */
  function ForeignRelations(fields: seq<Field>, tableName: string, tableID: Id, uuid: nat -> Id): (r: seq<Relation>)
  {
    RelationsInto(FieldsNamed(fields, ForeignKeyFor(tableName)), tableID, uuid)
  }

  /** Every foreign relation points at `tableID` from a field named after the
      table, and every such field gets one. */
  lemma ForeignRelationsCover(fields: seq<Field>, tableName: string, tableID: Id, uuid: nat -> Id)
    ensures var r := ForeignRelations(fields, tableName, tableID, uuid);
      forall q :: q in r ==>
        && q.toTableID == tableID
        && exists f :: f in fields && f.name == ForeignKeyFor(tableName) && f.id == q.fieldID && f.tableID == q.fromTableID
    ensures var r := ForeignRelations(fields, tableName, tableID, uuid);
      forall f :: f in fields && f.name == ForeignKeyFor(tableName) ==>
        exists q :: q in r && q.fieldID == f.id && q.fromTableID == f.tableID && q.toTableID == tableID
  {
    RelationsIntoCover(FieldsNamed(fields, ForeignKeyFor(tableName)), tableID, uuid);
  }

  /** The foreign relations have one owner each when field ids are unique, and
      distinct ids when the drawn ids are distinct. */
  lemma ForeignRelationsDistinct(fields: seq<Field>, tableName: string, tableID: Id, uuid: nat -> Id)
    requires DistinctKeys(fields, FieldKey)
    ensures DistinctKeys(ForeignRelations(fields, tableName, tableID, uuid), OwnerKey)
    ensures (forall a: nat, b: nat :: a != b ==> uuid(a) != uuid(b)) ==>
      DistinctKeys(ForeignRelations(fields, tableName, tableID, uuid), RelationKey)
  {
    RelationsIntoDistinct(FieldsNamed(fields, ForeignKeyFor(tableName)), tableID, uuid);
  }
}
