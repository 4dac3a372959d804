/** ControlledVocabularyValueService: the allowed values of a user's
    metadata field. Values are added only to a field of the user that has a
    controlled vocabulary or the Dropdown type, and are unique per field
    once trimmed and lower-cased. */
module Vocabulary {
  import opened Wrappers
  import opened Base
  import opened Seqs
  import opened Sorting
  import opened Text
  import opened MetadataFields

  datatype VocabularyValue = VocabularyValue(
    id: Guid, metadataFieldId: Guid, value: string, displayOrder: int,
    userId: string, createdAt: Ticks, updatedAt: Ticks)

  const FieldDeniedMessage: string := "Metadata field not found or access denied."
  const NoVocabularyMessage: string := "This metadata field does not support controlled vocabulary."
  const Dropdown: string := "Dropdown"

  function ValueExistsMessage(value: string): string {
    "A value '" + value + "' already exists for this field."
  }

  /** A field takes values when its flag is set or its type is Dropdown. */
  predicate TakesValues(f: MetadataField) {
    f.hasControlledVocabulary || f.fieldType == Dropdown
  }

  function ValueWithId(id: Guid, userId: string): VocabularyValue -> bool {
    (v: VocabularyValue) => v.id == id && v.userId == userId
  }

  /** A value of the user's field with the key, other than `except`. */
  function ValueTaken(fieldId: Guid, key: string, userId: string, except: Option<Guid>): VocabularyValue -> bool {
    (v: VocabularyValue) => v.metadataFieldId == fieldId && NameKey(v.value) == key && v.userId == userId &&
      (except.None? || v.id != except.value)
  }

  predicate UniqueValueIds(vs: seq<VocabularyValue>) {
    forall i, j | 0 <= i < j < |vs| :: vs[i].id != vs[j].id
  }

  /** No two values of one user's field share a key. */
  predicate DistinctValues(vs: seq<VocabularyValue>) {
    forall i, j | 0 <= i < j < |vs| && vs[i].metadataFieldId == vs[j].metadataFieldId && vs[i].userId == vs[j].userId ::
      NameKey(vs[i].value) != NameKey(vs[j].value)
  }

  predicate ValidValues(vs: seq<VocabularyValue>) {
    UniqueValueIds(vs) && DistinctValues(vs)
  }

  /** The value check passes exactly when no other value of the field has the key. */
  lemma ValueFree(vs: seq<VocabularyValue>, fieldId: Guid, key: string, userId: string, except: Option<Guid>)
    ensures FirstIndex(vs, ValueTaken(fieldId, key, userId, except)) < 0 <==>
      forall v | v in vs && v.metadataFieldId == fieldId && v.userId == userId && (except.None? || v.id != except.value) ::
        NameKey(v.value) != key
  {
    if FirstIndex(vs, ValueTaken(fieldId, key, userId, except)) < 0 {
      forall v | v in vs && v.metadataFieldId == fieldId && v.userId == userId && (except.None? || v.id != except.value)
        ensures NameKey(v.value) != key
      {
        var k :| 0 <= k < |vs| && vs[k] == v;
        assert !ValueTaken(fieldId, key, userId, except)(vs[k]);
      }
    }
  }

  lemma AddedValueValid(vs: seq<VocabularyValue>, v: VocabularyValue)
    requires ValidValues(vs)
    requires forall u | u in vs :: u.id != v.id
    requires FirstIndex(vs, ValueTaken(v.metadataFieldId, NameKey(v.value), v.userId, None)) < 0
    ensures ValidValues(vs + [v])
  {
    ValueFree(vs, v.metadataFieldId, NameKey(v.value), v.userId, None);
    var us := vs + [v];
    forall i, j | 0 <= i < j < |us| ensures us[i].id != us[j].id {
      if j == |vs| {
        assert us[i] in vs;
      }
    }
    forall i, j | 0 <= i < j < |us| && us[i].metadataFieldId == us[j].metadataFieldId && us[i].userId == us[j].userId
      ensures NameKey(us[i].value) != NameKey(us[j].value)
    {
      if j == |vs| {
        assert us[i] in vs;
      }
    }
  }

  lemma ReplacedValueValid(vs: seq<VocabularyValue>, i: nat, v: VocabularyValue)
    requires ValidValues(vs) && i < |vs|
    requires v.id == vs[i].id && v.metadataFieldId == vs[i].metadataFieldId && v.userId == vs[i].userId
    requires FirstIndex(vs, ValueTaken(v.metadataFieldId, NameKey(v.value), v.userId, Some(v.id))) < 0
    ensures ValidValues(vs[i := v])
  {
    ValueFree(vs, v.metadataFieldId, NameKey(v.value), v.userId, Some(v.id));
    var us := vs[i := v];
    forall a, b | 0 <= a < b < |us| ensures us[a].id != us[b].id {
      assert us[a].id == vs[a].id && us[b].id == vs[b].id;
    }
    forall a, b | 0 <= a < b < |us| && us[a].metadataFieldId == us[b].metadataFieldId && us[a].userId == us[b].userId
      ensures NameKey(us[a].value) != NameKey(us[b].value)
    {
      if a == i {
        assert vs[b] in vs && vs[b].id != v.id;
      } else if b == i {
        assert vs[a] in vs && vs[a].id != v.id;
      }
    }
  }

  lemma RemovedValueValid(vs: seq<VocabularyValue>, i: nat)
    requires ValidValues(vs) && i < |vs|
    ensures ValidValues(vs[..i] + vs[i + 1..])
    ensures forall v | v in vs[..i] + vs[i + 1..] :: v.id != vs[i].id
  {
    var us := vs[..i] + vs[i + 1..];
    forall a | 0 <= a < |us| ensures us[a] == vs[if a < i then a else a + 1] {
    }
    forall v | v in us ensures v.id != vs[i].id {
      var a :| 0 <= a < |us| && us[a] == v;
    }
  }

  // ---------------------------------------------------------------------
  // Queries

  function OfField(fieldId: Guid, userId: string): VocabularyValue -> bool {
    (v: VocabularyValue) => v.metadataFieldId == fieldId && v.userId == userId
  }

  /** OrderBy(v => v.DisplayOrder).ThenBy(v => v.Value), the values compared
      under the database's string order. */
  function ByOrderThenValue(valueLe: (string, string) -> bool): (VocabularyValue, VocabularyValue) -> bool {
    (a: VocabularyValue, b: VocabularyValue) =>
      a.displayOrder < b.displayOrder || (a.displayOrder == b.displayOrder && valueLe(a.value, b.value))
  }

  lemma ByOrderThenValueOrders(valueLe: (string, string) -> bool)
    requires TotalPreorder(valueLe)
    ensures TotalPreorder(ByOrderThenValue(valueLe))
  {
    var le := ByOrderThenValue(valueLe);
    forall x: VocabularyValue, y: VocabularyValue, z: VocabularyValue | le(x, y) && le(y, z) ensures le(x, z) {
      if x.displayOrder == y.displayOrder == z.displayOrder {
        assert valueLe(x.value, y.value) && valueLe(y.value, z.value);
      }
    }
    forall x: VocabularyValue, y: VocabularyValue ensures le(x, y) || le(y, x) {
      assert valueLe(x.value, y.value) || valueLe(y.value, x.value);
    }
  }

  /** Sorted by the pair: display orders never decrease, and within one
      display order the values are in the string order. */
  lemma SortedByOrder(s: seq<VocabularyValue>, valueLe: (string, string) -> bool, i: nat, j: nat)
    requires SortedBy(s, ByOrderThenValue(valueLe)) && i < j < |s|
    ensures s[i].displayOrder <= s[j].displayOrder
    ensures s[i].displayOrder == s[j].displayOrder ==> valueLe(s[i].value, s[j].value)
  {
    assert ByOrderThenValue(valueLe)(s[i], s[j]);
  }

  /** GetByFieldIdAsync: nothing unless the field is the user's; otherwise
      exactly the user's values of the field, by display order then value. */
  function FieldValues(fields: seq<MetadataField>, vs: seq<VocabularyValue>, fieldId: Guid, userId: string,
                       valueLe: (string, string) -> bool): (r: seq<VocabularyValue>)
    requires TotalPreorder(valueLe)
    ensures FieldById(fields, fieldId, userId).None? ==> r == []
    ensures FieldById(fields, fieldId, userId).Some? ==>
      multiset(r) == multiset(Filter(vs, OfField(fieldId, userId))) &&
      forall v :: v in r <==> v in vs && v.metadataFieldId == fieldId && v.userId == userId
    ensures SortedBy(r, ByOrderThenValue(valueLe))
  {
    if FieldById(fields, fieldId, userId).None? then []
    else
      ByOrderThenValueOrders(valueLe);
      var mine := Filter(vs, OfField(fieldId, userId));
      var r := SortBy(mine, ByOrderThenValue(valueLe));
      forall v ensures v in r <==> v in mine {
        SortByMembers(mine, ByOrderThenValue(valueLe), v);
      }
      r
  }

  /** GetByIdAsync: null unless the value is the user's. */
  function ValueById(vs: seq<VocabularyValue>, valueId: Guid, userId: string): (r: Option<VocabularyValue>)
    ensures r.Some? <==> exists v | v in vs :: v.id == valueId && v.userId == userId
    ensures r.Some? ==> r.value in vs && r.value.id == valueId && r.value.userId == userId
  {
    var i := FirstIndex(vs, ValueWithId(valueId, userId));
    if i < 0 then None else Some(vs[i])
  }

  /** Why CreateAsync refuses a value. */
  datatype Refusal = FieldDenied | NoVocabulary | ValueExists

  function RefusalMessage(why: Refusal, value: string): string {
    match why
    case FieldDenied => FieldDeniedMessage
    case NoVocabulary => NoVocabularyMessage
    case ValueExists => ValueExistsMessage(value)
  }

  /** The guards of CreateAsync in their order: the field must be the
      user's, then take values, then not already hold the key. */
  function CreateGuard(fields: seq<MetadataField>, vs: seq<VocabularyValue>, fieldId: Guid, value: string,
                       userId: string): (r: Option<Refusal>)
    ensures r == Some(FieldDenied) <==> FieldById(fields, fieldId, userId).None?
    ensures r == Some(NoVocabulary) <==>
      FieldById(fields, fieldId, userId).Some? && !TakesValues(FieldById(fields, fieldId, userId).value)
    ensures r.None? <==>
      FieldById(fields, fieldId, userId).Some? && TakesValues(FieldById(fields, fieldId, userId).value) &&
      forall v | v in vs && v.metadataFieldId == fieldId && v.userId == userId :: NameKey(v.value) != NameKey(value)
  {
    var f := FieldById(fields, fieldId, userId);
    ValueFree(vs, fieldId, NameKey(value), userId, None);
    if f.None? then Some(FieldDenied)
    else if !TakesValues(f.value) then Some(NoVocabulary)
    else if FirstIndex(vs, ValueTaken(fieldId, NameKey(value), userId, None)) >= 0 then Some(ValueExists)
    else None
  }

  // ---------------------------------------------------------------------
  // The store

  class VocabularyStore {
    var values: seq<VocabularyValue>
    var fields: seq<MetadataField>

    ghost predicate Valid()
      reads this
    {
      ValidValues(values)
    }

    constructor (fields: seq<MetadataField>)
      ensures Valid() && values == [] && this.fields == fields
    {
      values := [];
      this.fields := fields;
    }

    /** CreateAsync: refused by the first failing guard; otherwise the value
        is stored trimmed. `id` is the fresh Guid. */
    method CreateValue(fieldId: Guid, value: string, displayOrder: int, userId: string, id: Guid, now: Ticks)
      returns (r: Result<VocabularyValue>)
      requires Valid()
      requires forall v | v in values :: v.id != id
      modifies this
      ensures Valid()
      ensures fields == old(fields)
      ensures var guard := CreateGuard(old(fields), old(values), fieldId, value, userId);
        (guard.Some? ==> r == Err(RefusalMessage(guard.value, value)) && values == old(values)) &&
        (guard.None? ==> r == Ok(VocabularyValue(id, fieldId, Trim(value), displayOrder, userId, now, now)) &&
                         values == old(values) + [r.value])
    {
      var guard := CreateGuard(fields, values, fieldId, value, userId);
      if guard.Some? {
        return Err(RefusalMessage(guard.value, value));
      }
      var v := VocabularyValue(id, fieldId, Trim(value), displayOrder, userId, now, now);
      TrimIdempotent(value);
      ValueFree(values, fieldId, NameKey(value), userId, None);
      AddedValueValid(values, v);
      values := values + [v];
      r := Ok(v);
    }

    /** UpdateAsync: null for a value that is not the user's; refused when
        another value of its field has the new key; otherwise the trimmed
        value and the display order are written. */
    method UpdateValue(valueId: Guid, value: string, displayOrder: int, userId: string, now: Ticks)
      returns (r: Result<Option<VocabularyValue>>)
      requires Valid()
      modifies this
      ensures Valid()
      ensures fields == old(fields)
      ensures var i := FirstIndex(old(values), ValueWithId(valueId, userId));
        (i < 0 ==> r == Ok(None) && values == old(values)) &&
        (i >= 0 ==>
          var taken := FirstIndex(old(values), ValueTaken(old(values)[i].metadataFieldId, NameKey(value), userId, Some(valueId))) >= 0;
          (taken ==> r == Err(ValueExistsMessage(value)) && values == old(values)) &&
          (!taken ==>
            r == Ok(Some(old(values)[i].(value := Trim(value), displayOrder := displayOrder, updatedAt := now))) &&
            values == old(values)[i := r.value.value]))
    {
      var i := FirstIndex(values, ValueWithId(valueId, userId));
      if i < 0 {
        return Ok(None);
      }
      if FirstIndex(values, ValueTaken(values[i].metadataFieldId, NameKey(value), userId, Some(valueId))) >= 0 {
        return Err(ValueExistsMessage(value));
      }
      var v := values[i].(value := Trim(value), displayOrder := displayOrder, updatedAt := now);
      TrimIdempotent(value);
      ReplacedValueValid(values, i, v);
      values := values[i := v];
      r := Ok(Some(v));
    }

    /** DeleteAsync: false for a value that is not the user's; otherwise
        the row is deleted. */
    method DeleteValue(valueId: Guid, userId: string) returns (r: bool)
      requires Valid()
      modifies this
      ensures Valid()
      ensures fields == old(fields)
      ensures var i := FirstIndex(old(values), ValueWithId(valueId, userId));
        (i < 0 ==> !r && values == old(values)) &&
        (i >= 0 ==> r && values == old(values)[..i] + old(values)[i + 1..])
      ensures r ==> ValueById(values, valueId, userId).None?
    {
      var i := FirstIndex(values, ValueWithId(valueId, userId));
      if i < 0 {
        return false;
      }
      RemovedValueValid(values, i);
      values := values[..i] + values[i + 1..];
      r := true;
    }
  }

  /** Once a value is stored, the same value in any spelling with the same
      key is refused for that field. */
  lemma CreatedValueTaken(fields: seq<MetadataField>, vs: seq<VocabularyValue>, v: VocabularyValue, again: string)
    requires NameKey(again) == NameKey(v.value)
    ensures CreateGuard(fields, vs + [v], v.metadataFieldId, again, v.userId).Some?
  {
    assert (vs + [v])[|vs|] == v;
  }
}
