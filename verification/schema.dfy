/** The entity store: tables, fields and relations held as plain sequences,
    the lookups the handlers perform on them, the store reducers the handlers
    dispatch to, and the consistency invariants a schema is meant to keep. */
module Schema {
  import opened Seqs
  import opened Text

  type Id = string

  /** A table; its canvas position and creation time belong to the renderer and are left out. */
  datatype Table = Table(id: Id, name: string, options: map<string, bool>)

  /** A field owned by the table `tableID`; `kind` is the storage type tag (`type` in the source). */
  datatype Field = Field(id: Id, tableID: Id, name: string, kind: string)

  /** A foreign-key edge: field `fieldID` of table `fromTableID` refers to table `toTableID`. */
  datatype Relation = Relation(id: Id, fieldID: Id, fromTableID: Id, toTableID: Id)

  datatype Store = Store(tables: seq<Table>, fields: seq<Field>, relations: seq<Relation>)

  /** The field attributes the editor edits: `"name"` and `"type"`. */
  datatype Attribute = Name | Type

  /** Reading a property of a record that `find` did not find throws a TypeError
      in the source before anything is dispatched. */
  datatype Failure = FieldNotFound(fieldID: Id) | TableNotFound(tableID: Id)

  datatype Result<+T> = Ok(value: T) | Err(failure: Failure)

  /** A relation to create or to delete, as the plugin hook reports it. */
  datatype Delta = Create(relation: Relation) | Delete(relation: Relation)

  // ---------------------------------------------------------------------------
  // Keys

  function TableKey(t: Table): (k: Id) { t.id }
  function FieldKey(f: Field): (k: Id) { f.id }
  function RelationKey(r: Relation): (k: Id) { r.id }
  function OwnerKey(r: Relation): (k: Id) { r.fieldID }

  // ---------------------------------------------------------------------------
  // Membership

  ghost predicate HasTable(tables: seq<Table>, id: Id) {
    exists t :: t in tables && t.id == id
  }

  ghost predicate HasTableNamed(tables: seq<Table>, name: string) {
    exists t :: t in tables && t.name == name
  }

  /** Position `i` holds the first table named `name`: the one `find` by name returns. */
  ghost predicate FirstNamed(tables: seq<Table>, i: int, name: string) {
    && 0 <= i < |tables| && tables[i].name == name
    && forall j :: 0 <= j < i ==> tables[j].name != name
  }

  ghost predicate HasField(fields: seq<Field>, id: Id) {
    exists f :: f in fields && f.id == id
  }

  /** Some relation is owned by field `fieldID`. */
  ghost predicate IsRelated(relations: seq<Relation>, fieldID: Id) {
    exists r :: r in relations && r.fieldID == fieldID
  }

  // ---------------------------------------------------------------------------
  // Lookups (`find` with the predicates the handlers use)

  function TableById(tables: seq<Table>, id: Id): (r: Option<Table>)
    ensures r.Some? ==> r.value in tables && r.value.id == id
    ensures r.None? <==> !HasTable(tables, id)
  {
    Find(tables, (t: Table) => t.id == id)
  }

  function TableByName(tables: seq<Table>, name: string): (r: Option<Table>)
    ensures r.Some? ==> r.value in tables && r.value.name == name
    ensures r.Some? ==> exists i :: FirstNamed(tables, i, name) && tables[i] == r.value
    ensures r.None? <==> !HasTableNamed(tables, name)
  {
    Find(tables, (t: Table) => t.name == name)
  }

  function FieldById(fields: seq<Field>, id: Id): (r: Option<Field>)
    ensures r.Some? ==> r.value in fields && r.value.id == id
    ensures r.None? <==> !HasField(fields, id)
  {
    Find(fields, (f: Field) => f.id == id)
  }

  /** The first relation owned by `fieldID`. */
  function RelationOf(relations: seq<Relation>, fieldID: Id): (r: Option<Relation>)
    ensures r.Some? ==> r.value in relations && r.value.fieldID == fieldID
    ensures r.Some? ==> exists i :: (0 <= i < |relations| && relations[i] == r.value &&
      forall j :: 0 <= j < i ==> relations[j].fieldID != fieldID)
    ensures r.None? <==> !IsRelated(relations, fieldID)
  {
    Find(relations, (q: Relation) => q.fieldID == fieldID)
  }

  // ---------------------------------------------------------------------------
  // Reducers. The store's reducers are not part of this model; they are taken
  // to append on add, to drop every record with the given id on remove, and to
  // merge the update into every record with the given id.

  /** `removeRelation(id)`. */
  function DeleteRelation(relations: seq<Relation>, id: Id): (r: seq<Relation>)
    ensures forall q :: q in r <==> q in relations && q.id != id
  {
    Filter(relations, (q: Relation) => q.id != id)
  }

  /** `ids.forEach(removeRelation)`. */
  function DeleteRelations(relations: seq<Relation>, ids: seq<Id>): (r: seq<Relation>)
    ensures forall q :: q in r <==> q in relations && q.id !in ids
    decreases |ids|
  {
    if |ids| == 0 then relations
    else DeleteRelations(DeleteRelation(relations, ids[0]), ids[1..])
  }

  /** `removeField(id)`. */
  function DeleteField(fields: seq<Field>, id: Id): (r: seq<Field>)
    ensures forall f :: f in r <==> f in fields && f.id != id
  {
    Filter(fields, (f: Field) => f.id != id)
  }

  /** `ids.forEach(removeField)`. */
  function DeleteFields(fields: seq<Field>, ids: seq<Id>): (r: seq<Field>)
    ensures forall f :: f in r <==> f in fields && f.id !in ids
    decreases |ids|
  {
    if |ids| == 0 then fields
    else DeleteFields(DeleteField(fields, ids[0]), ids[1..])
  }

  /** `removeTable(id)`. */
  function DeleteTable(tables: seq<Table>, id: Id): (r: seq<Table>)
    ensures forall t :: t in r <==> t in tables && t.id != id
  {
    Filter(tables, (t: Table) => t.id != id)
  }

  /** `{ ...field, [attribute]: value }`. */
  function SetAttribute(f: Field, attr: Attribute, value: string): (r: Field) {
    match attr
    case Name => f.(name := value)
    case Type => f.(kind := value)
  }

  function AttributeOf(f: Field, attr: Attribute): (r: string) {
    match attr
    case Name => f.name
    case Type => f.kind
  }

  function OtherAttribute(attr: Attribute): (r: Attribute)
    ensures r != attr
  {
    match attr
    case Name => Type
    case Type => Name
  }

  /** `after` is `before` with attribute `attr` of field `fieldID` set to
      `value`: same positions, ids and owners, the other attribute kept,
      every other field untouched. */
  ghost predicate SetsOnly(before: seq<Field>, after: seq<Field>, fieldID: Id, attr: Attribute, value: string) {
    && |after| == |before|
    && forall i :: 0 <= i < |before| ==>
      && after[i].id == before[i].id
      && after[i].tableID == before[i].tableID
      && (before[i].id == fieldID ==>
            AttributeOf(after[i], attr) == value
            && AttributeOf(after[i], OtherAttribute(attr)) == AttributeOf(before[i], OtherAttribute(attr)))
      && (before[i].id != fieldID ==> after[i] == before[i])
  }

  /** `updateField(id, { [attribute]: value })`. */
  function ModifyField(fields: seq<Field>, id: Id, attr: Attribute, value: string): (r: seq<Field>)
    ensures SetsOnly(fields, r, id, attr, value)
  {
    seq(|fields|, i requires 0 <= i < |fields| =>
      if fields[i].id == id then SetAttribute(fields[i], attr, value) else fields[i])
  }

  /** `updateTable(id, { name })`. */
  function RenameTable(tables: seq<Table>, id: Id, name: string): (r: seq<Table>)
    ensures |r| == |tables|
    ensures forall i :: 0 <= i < |tables| ==> r[i].id == tables[i].id && r[i].options == tables[i].options
  {
    seq(|tables|, i requires 0 <= i < |tables| =>
      if tables[i].id == id then tables[i].(name := name) else tables[i])
  }

  /** `updateTable(id, { options })`. */
  function SetOptions(tables: seq<Table>, id: Id, options: map<string, bool>): (r: seq<Table>)
    ensures |r| == |tables|
    ensures forall i :: 0 <= i < |tables| ==> r[i].id == tables[i].id && r[i].name == tables[i].name
  {
    seq(|tables|, i requires 0 <= i < |tables| =>
      if tables[i].id == id then tables[i].(options := options) else tables[i])
  }

  /** Applying a hook's delta the way the editor applies its own decisions. */
  function ApplyDelta(s: Store, delta: Option<Delta>): (r: Store)
    ensures r.tables == s.tables && r.fields == s.fields
  {
    match delta
    case None => s
    case Some(Create(r)) => s.(relations := s.relations + [r])
    case Some(Delete(r)) => s.(relations := DeleteRelation(s.relations, r.id))
  }

  // ---------------------------------------------------------------------------
  // Invariants a coherent schema keeps

  ghost predicate UniqueIds(s: Store) {
    && DistinctKeys(s.tables, TableKey)
    && DistinctKeys(s.fields, FieldKey)
    && DistinctKeys(s.relations, RelationKey)
  }

  /** Every field belongs to an existing table. */
  ghost predicate NoOrphanFields(s: Store) {
    forall f :: f in s.fields ==> HasTable(s.tables, f.tableID)
  }

  /** The relation's field exists and belongs to the relation's source table. */
  ghost predicate HasOwner(fields: seq<Field>, r: Relation) {
    exists f :: f in fields && f.id == r.fieldID && f.tableID == r.fromTableID
  }

  /** Referential integrity: every relation's field and both tables exist. */
  ghost predicate NoDanglingRelations(s: Store) {
    forall r :: r in s.relations ==>
      HasOwner(s.fields, r) && HasTable(s.tables, r.fromTableID) && HasTable(s.tables, r.toTableID)
  }

  /** At most one relation per field. */
  ghost predicate OneRelationPerField(s: Store) {
    DistinctKeys(s.relations, OwnerKey)
  }

  ghost predicate Consistent(s: Store) {
    UniqueIds(s) && NoOrphanFields(s) && NoDanglingRelations(s) && OneRelationPerField(s)
  }

  /** Every related field carries a foreign-key name; the handlers only ever
      relate such fields, and the field-removal handler relies on it. */
  ghost predicate RelatedFieldsAreKeys(s: Store) {
    forall r, f :: r in s.relations && f in s.fields && f.id == r.fieldID ==> IsForeignKeyName(f.name)
  }

  /** An id that no relation of the store carries. */
  ghost predicate FreshRelationId(s: Store, id: Id) {
    forall r :: r in s.relations ==> r.id != id
  }

  // ---------------------------------------------------------------------------
  // Facts about the reducers used by the preservation proofs

  lemma DeleteRelationKeepsDistinct(relations: seq<Relation>, id: Id, key: Relation -> Id)
    requires DistinctKeys(relations, key)
    ensures DistinctKeys(DeleteRelation(relations, id), key)
  {
    FilterKeepsDistinct(relations, (q: Relation) => q.id != id, key);
  }

  lemma {:induction false} DeleteRelationsKeepsDistinct(relations: seq<Relation>, ids: seq<Id>, key: Relation -> Id)
    requires DistinctKeys(relations, key)
    ensures DistinctKeys(DeleteRelations(relations, ids), key)
    decreases |ids|
  {
    if |ids| > 0 {
      DeleteRelationKeepsDistinct(relations, ids[0], key);
      DeleteRelationsKeepsDistinct(DeleteRelation(relations, ids[0]), ids[1..], key);
    }
  }

  lemma DeleteFieldKeepsDistinct(fields: seq<Field>, id: Id)
    requires DistinctKeys(fields, FieldKey)
    ensures DistinctKeys(DeleteField(fields, id), FieldKey)
  {
    FilterKeepsDistinct(fields, (f: Field) => f.id != id, FieldKey);
  }

  lemma {:induction false} DeleteFieldsKeepsDistinct(fields: seq<Field>, ids: seq<Id>)
    requires DistinctKeys(fields, FieldKey)
    ensures DistinctKeys(DeleteFields(fields, ids), FieldKey)
    decreases |ids|
  {
    if |ids| > 0 {
      DeleteFieldKeepsDistinct(fields, ids[0]);
      DeleteFieldsKeepsDistinct(DeleteField(fields, ids[0]), ids[1..]);
    }
  }

  lemma DeleteTableKeepsDistinct(tables: seq<Table>, id: Id)
    requires DistinctKeys(tables, TableKey)
    ensures DistinctKeys(DeleteTable(tables, id), TableKey)
  {
    FilterKeepsDistinct(tables, (t: Table) => t.id != id, TableKey);
  }

  lemma RenameTableKeepsIds(tables: seq<Table>, id: Id, name: string)
    ensures forall x :: HasTable(tables, x) <==> HasTable(RenameTable(tables, id, name), x)
    ensures DistinctKeys(tables, TableKey) ==> DistinctKeys(RenameTable(tables, id, name), TableKey)
  {
    var r := RenameTable(tables, id, name);
    forall x | HasTable(tables, x)
      ensures HasTable(r, x)
    {
      var t :| t in tables && t.id == x;
      var i :| 0 <= i < |tables| && tables[i] == t;
      assert r[i] in r;
    }
    forall x | HasTable(r, x)
      ensures HasTable(tables, x)
    {
      var t :| t in r && t.id == x;
      var i :| 0 <= i < |r| && r[i] == t;
      assert tables[i] in tables;
    }
  }
}
