/** MetadataFieldService: the custom metadata fields a user defines. A
    field's FieldName is unique among the user's fields once trimmed and
    lower-cased; it is fixed at creation, and an update only rewrites the
    label, the description, the type and the four flags. */
module MetadataFields {
  import opened Wrappers
  import opened Base
  import opened Seqs
  import opened Sorting
  import opened Text

  datatype MetadataField = MetadataField(
    id: Guid, fieldName: string, displayLabel: string, description: Option<string>,
    fieldType: string, isRequired: bool, hasControlledVocabulary: bool,
    showInFilters: bool, isMultiSelect: bool,
    userId: string, companyId: Option<Guid>, createdAt: Ticks, updatedAt: Ticks)

  /** What a create or an update request writes besides the name: the
      columns of UpdateMetadataFieldDto. */
  datatype FieldSettings = FieldSettings(
    displayLabel: string, description: Option<string>, fieldType: string,
    isRequired: bool, hasControlledVocabulary: bool, showInFilters: bool, isMultiSelect: bool)

  function DuplicateMessage(fieldName: string): string {
    "A field with the name '" + fieldName + "' already exists."
  }

  /** `Description?.Trim()`. */
  function TrimOption(s: Option<string>): (r: Option<string>)
    ensures r.Some? <==> s.Some?
    ensures r.Some? ==> r.value == Trim(s.value)
  {
    match s
    case Some(v) => Some(Trim(v))
    case None => None
  }

  /** The stored field with `settings` written over it (label and
      description trimmed) and the update time. */
  function WithSettings(f: MetadataField, settings: FieldSettings, now: Ticks): MetadataField {
    f.(displayLabel := Trim(settings.displayLabel), description := TrimOption(settings.description),
       fieldType := settings.fieldType, isRequired := settings.isRequired,
       hasControlledVocabulary := settings.hasControlledVocabulary,
       showInFilters := settings.showInFilters, isMultiSelect := settings.isMultiSelect,
       updatedAt := now)
  }

  /** The row CreateAsync builds. */
  function NewField(fieldName: string, settings: FieldSettings, userId: string, companyId: Option<Guid>,
                    id: Guid, now: Ticks): (r: MetadataField)
    ensures r.fieldName == Trim(fieldName) && r.id == id && r.userId == userId && r.companyId == companyId
    ensures r.displayLabel == Trim(settings.displayLabel) && r.description == TrimOption(settings.description)
    ensures r.createdAt == now && r.updatedAt == now
  {
    WithSettings(MetadataField(id, Trim(fieldName), "", None, "", false, false, false, false,
                               userId, companyId, now, now), settings, now)
  }

  function FieldWithId(id: Guid, userId: string): MetadataField -> bool {
    (f: MetadataField) => f.id == id && f.userId == userId
  }

  /** One of the user's fields whose name has the key. */
  function NameTaken(key: string, userId: string): MetadataField -> bool {
    (f: MetadataField) => f.userId == userId && NameKey(f.fieldName) == key
  }

  predicate UniqueFieldIds(fs: seq<MetadataField>) {
    forall i, j | 0 <= i < j < |fs| :: fs[i].id != fs[j].id
  }

  /** No two fields of one user share a name key. */
  predicate DistinctFieldNames(fs: seq<MetadataField>) {
    forall i, j | 0 <= i < j < |fs| && fs[i].userId == fs[j].userId ::
      NameKey(fs[i].fieldName) != NameKey(fs[j].fieldName)
  }

  predicate ValidFields(fs: seq<MetadataField>) {
    UniqueFieldIds(fs) && DistinctFieldNames(fs)
  }

  /** The name check passes exactly when no field of the user has the key. */
  lemma NameFree(fs: seq<MetadataField>, key: string, userId: string)
    ensures FirstIndex(fs, NameTaken(key, userId)) < 0 <==>
      forall f | f in fs && f.userId == userId :: NameKey(f.fieldName) != key
  {
    if FirstIndex(fs, NameTaken(key, userId)) < 0 {
      forall f | f in fs && f.userId == userId ensures NameKey(f.fieldName) != key {
        var k :| 0 <= k < |fs| && fs[k] == f;
        assert !NameTaken(key, userId)(fs[k]);
      }
    }
  }

  /** Trimming does not change a name's key. */
  lemma TrimmedKey(name: string)
    ensures NameKey(Trim(name)) == NameKey(name)
  {
    TrimIdempotent(name);
  }

  lemma AddedFieldValid(fs: seq<MetadataField>, f: MetadataField)
    requires ValidFields(fs)
    requires forall g | g in fs :: g.id != f.id
    requires FirstIndex(fs, NameTaken(NameKey(f.fieldName), f.userId)) < 0
    ensures ValidFields(fs + [f])
  {
    NameFree(fs, NameKey(f.fieldName), f.userId);
    var gs := fs + [f];
    forall i, j | 0 <= i < j < |gs| ensures gs[i].id != gs[j].id {
      if j == |fs| {
        assert gs[i] in fs;
      }
    }
    forall i, j | 0 <= i < j < |gs| && gs[i].userId == gs[j].userId
      ensures NameKey(gs[i].fieldName) != NameKey(gs[j].fieldName)
    {
      if j == |fs| {
        assert gs[i] in fs;
      }
    }
  }

  /** An update that keeps the id, the owner and the name keeps the table valid. */
  lemma ReplacedFieldValid(fs: seq<MetadataField>, i: nat, f: MetadataField)
    requires ValidFields(fs) && i < |fs|
    requires f.id == fs[i].id && f.userId == fs[i].userId && f.fieldName == fs[i].fieldName
    ensures ValidFields(fs[i := f])
  {
    var gs := fs[i := f];
    forall a, b | 0 <= a < b < |gs| ensures gs[a].id != gs[b].id {
      assert gs[a].id == fs[a].id && gs[b].id == fs[b].id;
    }
    forall a, b | 0 <= a < b < |gs| && gs[a].userId == gs[b].userId
      ensures NameKey(gs[a].fieldName) != NameKey(gs[b].fieldName)
    {
      assert gs[a].fieldName == fs[a].fieldName && gs[b].fieldName == fs[b].fieldName;
      assert gs[a].userId == fs[a].userId && gs[b].userId == fs[b].userId;
    }
  }

  lemma RemovedFieldValid(fs: seq<MetadataField>, i: nat)
    requires ValidFields(fs) && i < |fs|
    ensures ValidFields(fs[..i] + fs[i + 1..])
    ensures forall f | f in fs[..i] + fs[i + 1..] :: f.id != fs[i].id
  {
    var gs := fs[..i] + fs[i + 1..];
    forall a | 0 <= a < |gs| ensures gs[a] == fs[if a < i then a else a + 1] {
    }
    forall f | f in gs ensures f.id != fs[i].id {
      var a :| 0 <= a < |gs| && gs[a] == f;
    }
  }

  // ---------------------------------------------------------------------
  // Queries

  function OwnerIs(userId: string): MetadataField -> bool {
    (f: MetadataField) => f.userId == userId
  }

  /** OrderBy(f => f.DisplayLabel) under the database's string order. */
  function ByLabel(labelLe: (string, string) -> bool): (MetadataField, MetadataField) -> bool {
    (a: MetadataField, b: MetadataField) => labelLe(a.displayLabel, b.displayLabel)
  }

  lemma ByLabelOrders(labelLe: (string, string) -> bool)
    requires TotalPreorder(labelLe)
    ensures TotalPreorder(ByLabel(labelLe))
  {
    var le := ByLabel(labelLe);
    forall x: MetadataField, y: MetadataField, z: MetadataField | le(x, y) && le(y, z) ensures le(x, z) {
      assert labelLe(x.displayLabel, y.displayLabel) && labelLe(y.displayLabel, z.displayLabel);
    }
    forall x: MetadataField, y: MetadataField ensures le(x, y) || le(y, x) {
      assert labelLe(x.displayLabel, y.displayLabel) || labelLe(y.displayLabel, x.displayLabel);
    }
  }

  /** GetAllAsync: exactly the user's fields, ordered by display label. */
  function UserFields(fs: seq<MetadataField>, userId: string, labelLe: (string, string) -> bool): (r: seq<MetadataField>)
    requires TotalPreorder(labelLe)
    ensures multiset(r) == multiset(Filter(fs, OwnerIs(userId)))
    ensures forall f :: f in r <==> f in fs && f.userId == userId
    ensures SortedBy(r, ByLabel(labelLe))
  {
    ByLabelOrders(labelLe);
    var mine := Filter(fs, OwnerIs(userId));
    var r := SortBy(mine, ByLabel(labelLe));
    forall f ensures f in r <==> f in mine {
      SortByMembers(mine, ByLabel(labelLe), f);
    }
    r
  }

  /** GetByIdAsync: null unless the field is the user's. */
  function FieldById(fs: seq<MetadataField>, fieldId: Guid, userId: string): (r: Option<MetadataField>)
    ensures r.Some? <==> exists f | f in fs :: f.id == fieldId && f.userId == userId
    ensures r.Some? ==> r.value in fs && r.value.id == fieldId && r.value.userId == userId
  {
    var i := FirstIndex(fs, FieldWithId(fieldId, userId));
    if i < 0 then None else Some(fs[i])
  }

  /** In a valid table a user's field is found by its id alone. */
  lemma FieldByIdUnique(fs: seq<MetadataField>, f: MetadataField)
    requires ValidFields(fs) && f in fs
    ensures FieldById(fs, f.id, f.userId) == Some(f)
  {
    var r := FieldById(fs, f.id, f.userId);
    var i := FirstIndex(fs, FieldWithId(f.id, f.userId));
    var k :| 0 <= k < |fs| && fs[k] == f;
    assert FieldWithId(f.id, f.userId)(fs[k]);
    assert 0 <= i && fs[i].id == f.id;
  }

  // ---------------------------------------------------------------------
  // The store

  class FieldStore {
    var fields: seq<MetadataField>

    ghost predicate Valid()
      reads this
    {
      ValidFields(fields)
    }

    constructor ()
      ensures Valid() && fields == []
    {
      fields := [];
    }

    /** CreateAsync: refused when one of the user's fields has the same name
        key; otherwise the field is stored with its name, label and
        description trimmed. `id` is the fresh Guid. */
    method CreateField(fieldName: string, settings: FieldSettings, userId: string, companyId: Option<Guid>,
                       id: Guid, now: Ticks)
      returns (r: Result<MetadataField>)
      requires Valid()
      requires forall f | f in fields :: f.id != id
      modifies this
      ensures Valid()
      ensures FirstIndex(old(fields), NameTaken(NameKey(fieldName), userId)) >= 0 ==>
        r == Err(DuplicateMessage(fieldName)) && fields == old(fields)
      ensures FirstIndex(old(fields), NameTaken(NameKey(fieldName), userId)) < 0 ==>
        r == Ok(NewField(fieldName, settings, userId, companyId, id, now)) &&
        fields == old(fields) + [r.value]
    {
      if FirstIndex(fields, NameTaken(NameKey(fieldName), userId)) >= 0 {
        return Err(DuplicateMessage(fieldName));
      }
      var f := NewField(fieldName, settings, userId, companyId, id, now);
      TrimmedKey(fieldName);
      AddedFieldValid(fields, f);
      fields := fields + [f];
      r := Ok(f);
    }

    /** UpdateAsync: null for a field that is not the user's; otherwise the
        settings are written and the name, owner and id are kept. */
    method UpdateField(fieldId: Guid, settings: FieldSettings, userId: string, now: Ticks)
      returns (r: Option<MetadataField>)
      requires Valid()
      modifies this
      ensures Valid()
      ensures var i := FirstIndex(old(fields), FieldWithId(fieldId, userId));
        (i < 0 ==> r.None? && fields == old(fields)) &&
        (i >= 0 ==> r == Some(WithSettings(old(fields)[i], settings, now)) && fields == old(fields)[i := r.value])
      ensures r.Some? ==> exists f | f in old(fields) ::
        f.id == fieldId && f.userId == userId && r.value.fieldName == f.fieldName &&
        r.value.companyId == f.companyId && r.value.createdAt == f.createdAt
    {
      var i := FirstIndex(fields, FieldWithId(fieldId, userId));
      if i < 0 {
        return None;
      }
      var f := WithSettings(fields[i], settings, now);
      ReplacedFieldValid(fields, i, f);
      assert fields[i] in fields;
      fields := fields[i := f];
      r := Some(f);
    }

    /** DeleteAsync: false for a field that is not the user's; otherwise the
        row is deleted. */
    method DeleteField(fieldId: Guid, userId: string) returns (r: bool)
      requires Valid()
      modifies this
      ensures Valid()
      ensures var i := FirstIndex(old(fields), FieldWithId(fieldId, userId));
        (i < 0 ==> !r && fields == old(fields)) &&
        (i >= 0 ==> r && fields == old(fields)[..i] + old(fields)[i + 1..])
      ensures r ==> FieldById(fields, fieldId, userId).None?
    {
      var i := FirstIndex(fields, FieldWithId(fieldId, userId));
      if i < 0 {
        return false;
      }
      RemovedFieldValid(fields, i);
      fields := fields[..i] + fields[i + 1..];
      r := true;
    }
  }

  /** A name just created is taken: creating it again, in any spelling that
      trims and lower-cases to the same key, is refused. */
  lemma CreatedNameTaken(fs: seq<MetadataField>, f: MetadataField, again: string)
    requires NameKey(again) == NameKey(f.fieldName)
    ensures FirstIndex(fs + [f], NameTaken(NameKey(again), f.userId)) >= 0
  {
    assert NameTaken(NameKey(again), f.userId)((fs + [f])[|fs|]);
  }
}
