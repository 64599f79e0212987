/** `validateAuditFields` and the `auditFields ?? []` default after it.
    Each field needs five keys and a known type; ids must be unique, which
    the source decides by sorting the ids and comparing neighbours. The
    second check, announced as one on paths, maps each field to its id as
    well, and is modelled as written. */
module AuditFields {
  import opened Results
  import opened Text
  import opened Json
  import opened JsSort
  import opened ConfigErrors

  const RequiredAuditFieldKeys: seq<string> := ["type", "id", "name", "path", "required"]
  const AuditFieldTypes: seq<string> := ["text", "number", "date"]

  /** An audit field the per-field checks accept. Only key presence is
      required, so a key may hold `undefined`. */
  predicate WellFormedAuditField(field: Value) {
    && field.Obj?
    && (forall i | 0 <= i < |RequiredAuditFieldKeys| :: RequiredAuditFieldKeys[i] in field.props)
    && Get(field, "type").Str? && Get(field, "type").s in AuditFieldTypes
  }

  /** Strings and arrays list only digit strings among their own keys, so
      they never have a key such as `type`. */
  lemma OnlyObjectsHaveNamedKeys(v: Value, key: string)
    requires key in OwnEntries(v)
    requires !AllDigits(key)
    ensures v.Obj?
  {
  }

  /** The key check, then the type check, on one field. */
  function CheckAuditField(field: Value): (e: Option<ConfigError>)
    ensures e.None? <==> WellFormedAuditField(field)
    ensures Nullish(field) ==> e == Some(TypeError)
    ensures !Nullish(field) && !field.Obj? ==> e == Some(AuditFieldKeysMissing)
    ensures !Nullish(field) && (exists i | 0 <= i < |RequiredAuditFieldKeys| ::
                                  RequiredAuditFieldKeys[i] !in OwnEntries(field)) ==>
      e == Some(AuditFieldKeysMissing)
    ensures field.Obj? && (forall i | 0 <= i < |RequiredAuditFieldKeys| :: RequiredAuditFieldKeys[i] in field.props)
            && !WellFormedAuditField(field) ==>
      e == Some(AuditFieldTypeInvalid)
  {
    if Nullish(field) then Some(TypeError)
    else if !(forall k | k in RequiredAuditFieldKeys :: k in OwnEntries(field)) then Some(AuditFieldKeysMissing)
    else
      assert RequiredAuditFieldKeys[0] == "type" && "type"[0] == 't';
      OnlyObjectsHaveNamedKeys(field, "type");
      if !(Get(field, "type").Str? && Get(field, "type").s in AuditFieldTypes) then Some(AuditFieldTypeInvalid)
      else None
  }

  /** `fields.map(k => k.id)`. */
  function IdsOf(fields: seq<Value>): (ids: seq<Value>)
    ensures |ids| == |fields|
    ensures forall i | 0 <= i < |fields| :: ids[i] == Get(fields[i], "id")
  {
    seq(|fields|, i requires 0 <= i < |fields| => Get(fields[i], "id"))
  }

  /** `ids[i - 1]`, which for `i == 0` reads `undefined`. */
  function Before(ids: seq<Value>, i: int): Value
    requires 0 <= i < |ids|
  {
    if i == 0 then Undefined else ids[i - 1]
  }

  /** The first `n` steps of
      `reduce((unique, id, i, ids) => unique && id !== ids[i - 1], true)`. */
  function NeighboursDistinct(ids: seq<Value>, n: nat): (unique: bool)
    requires n <= |ids|
    ensures unique <==> forall i | 0 <= i < n :: !StrictEquals(ids[i], Before(ids, i))
  {
    if n == 0 then true
    else NeighboursDistinct(ids, n - 1) && !StrictEquals(ids[n - 1], Before(ids, n - 1))
  }

  /** Sort the (deep-copied) ids, then compare each with its predecessor. */
  function SortedIdsUnique(ids: seq<Value>): (unique: bool)
    ensures unique <==> forall i | 0 <= i < |ids| :: !StrictEquals(Sort(ids)[i], Before(Sort(ids), i))
    // an id equal to the one before it after sorting, or a first id that is `undefined`, fails it
    ensures |ids| > 0 && Sort(ids)[0].Undefined? ==> !unique
  {
    var sorted := Sort(ids);
    NeighboursDistinct(sorted, |sorted|)
  }

  predicate AllWellFormed(fields: seq<Value>) {
    forall i | 0 <= i < |fields| :: WellFormedAuditField(fields[i])
  }

  function NormaliseAuditFields(auditFields: Value): (r: Result<Value, ConfigError>)
    ensures !Truthy(auditFields) ==> r == Ok(Coalesce(auditFields, Arr([])))
    ensures Truthy(auditFields) && !auditFields.Arr? ==> r == Err(AuditFieldsNotArray)
    ensures auditFields.Arr? ==>
      (r.Ok? <==> AllWellFormed(auditFields.elems) && SortedIdsUnique(IdsOf(auditFields.elems)))
    ensures auditFields.Arr? && AllWellFormed(auditFields.elems) && !SortedIdsUnique(IdsOf(auditFields.elems)) ==>
      r == Err(AuditFieldIdsNotUnique)
    // otherwise the first malformed field's error
    ensures auditFields.Arr? && !AllWellFormed(auditFields.elems) ==>
      exists i | 0 <= i < |auditFields.elems| ::
        && Some(r.error) == CheckAuditField(auditFields.elems[i])
        && forall j | 0 <= j < i :: WellFormedAuditField(auditFields.elems[j])
    ensures r.Ok? ==> r.value == Coalesce(auditFields, Arr([]))
    // the "unique path" check repeats the id check, so it never fires
    ensures r != Err(AuditFieldPathsNotUnique)
  {
    if !Truthy(auditFields) then Ok(Coalesce(auditFields, Arr([])))
    else if !auditFields.Arr? then Err(AuditFieldsNotArray)
    else
      match FirstError(auditFields.elems, CheckAuditField)
      case Some(e) => Err(e)
      case None =>
        var idsUnique := SortedIdsUnique(IdsOf(auditFields.elems));
        var pathsUnique := SortedIdsUnique(IdsOf(auditFields.elems));
        if !idsUnique then Err(AuditFieldIdsNotUnique)
        else if !pathsUnique then Err(AuditFieldPathsNotUnique)
        else Ok(auditFields)
  }

  predicate AllStrings(ids: seq<Value>) {
    forall i | 0 <= i < |ids| :: ids[i].Str?
  }

  /** Distinct strings are never equal neighbours. */
  lemma NeighboursOfDistinct(s: seq<Value>)
    requires AllStrings(s) && Distinct(s)
    ensures NeighboursDistinct(s, |s|)
  {
    forall i | 0 < i < |s|
      ensures !StrictEquals(s[i], Before(s, i))
    {
      assert s[i - 1] != s[i];
    }
  }

  /** Sorted strings whose neighbours differ are all different. */
  lemma DistinctOfNeighbours(s: seq<Value>)
    requires AllStrings(s) && SortedByText(s) && NeighboursDistinct(s, |s|)
    ensures Distinct(s)
  {
    forall k | 0 < k < |s|
      ensures ToStr(s[k]) != ToStr(s[k - 1])
    {
      assert !StrictEquals(s[k], Before(s, k));
    }
    forall i, j | 0 <= i < j < |s|
      ensures s[i] != s[j]
    {
      SortedStrictPair(s, i, j);
      LtIrreflexive(ToStr(s[i]));
    }
  }

  /** Sorting strings keeps them strings. */
  lemma SortedStrings(ids: seq<Value>)
    requires AllStrings(ids)
    ensures Sort(ids) == SortDefined(ids) && AllStrings(Sort(ids))
  {
    var s := Sort(ids);
    forall i | 0 <= i < |s|
      ensures s[i].Str?
    {
      assert s[i] in multiset(ids);
    }
  }

  /** When every id is a string, the sorted-neighbour check accepts exactly
      the id lists without duplicates. */
  lemma StringIdsUniqueIffDistinct(ids: seq<Value>)
    requires AllStrings(ids)
    ensures SortedIdsUnique(ids) <==> Distinct(ids)
  {
    var s := Sort(ids);
    SortedStrings(ids);
    DistinctPermutation(s, ids);
    if Distinct(ids) {
      NeighboursOfDistinct(s);
    }
    if SortedIdsUnique(ids) {
      DistinctOfNeighbours(s);
    }
  }

  /** With string ids, audit fields are accepted exactly when each is well
      formed and no id repeats. */
  lemma AuditFieldsAcceptedIffDistinctIds(fields: seq<Value>)
    requires AllStrings(IdsOf(fields))
    ensures NormaliseAuditFields(Arr(fields)).Ok? <==> AllWellFormed(fields) && Distinct(IdsOf(fields))
  {
    StringIdsUniqueIffDistinct(IdsOf(fields));
  }

  /** Normalised audit fields normalise to themselves. */
  lemma NormaliseAuditFieldsIdempotent(auditFields: Value)
    requires NormaliseAuditFields(auditFields).Ok?
    ensures NormaliseAuditFields(NormaliseAuditFields(auditFields).value) == NormaliseAuditFields(auditFields)
  {
    if !Truthy(auditFields) && Nullish(auditFields) {
      assert SortedIdsUnique(IdsOf([]));
    }
  }

  /** Two well-formed fields with different string ids are accepted even
      when they share a path: the path check never looks at paths. */
  lemma DuplicatePathsAccepted(f: Value, g: Value)
    requires WellFormedAuditField(f) && WellFormedAuditField(g)
    requires Get(f, "id").Str? && Get(g, "id").Str? && Get(f, "id") != Get(g, "id")
    requires Get(f, "path") == Get(g, "path")
    ensures NormaliseAuditFields(Arr([f, g])).Ok?
  {
    var fields := [f, g];
    assert AllStrings(IdsOf(fields)) && Distinct(IdsOf(fields)) by {
      assert IdsOf(fields) == [Get(f, "id"), Get(g, "id")];
    }
    assert AllWellFormed(fields);
    AuditFieldsAcceptedIffDistinctIds(fields);
  }

  /** The number 1 and the string "1" have the same string. */
  lemma OneAndQuotedOneSortAlike()
    ensures ToStr(Num(1)) == "1" && ToStr(Str("1")) == "1"
    ensures !Lt("1", "1")
  {
    assert Decimal(1) == [DigitChar(1)];
    LtIrreflexive("1");
  }

  /** Sorting 1, "1", 1 leaves them in place: all three read as "1". */
  lemma SortKeepsOneQuotedOneOne()
    ensures Sort([Num(1), Str("1"), Num(1)]) == [Num(1), Str("1"), Num(1)]
  {
    OneAndQuotedOneSortAlike();
    SortOfAlike([Num(1), Str("1"), Num(1)], "1");
  }

  /** After sorting, 1, "1", 1 has no two equal neighbours. */
  lemma OneQuotedOneOnePassesCheck()
    ensures SortedIdsUnique([Num(1), Str("1"), Num(1)])
  {
    SortKeepsOneQuotedOneOne();
    var ids := [Num(1), Str("1"), Num(1)];
    assert !StrictEquals(ids[0], Before(ids, 0));
    assert !StrictEquals(ids[1], Before(ids, 1));
    assert !StrictEquals(ids[2], Before(ids, 2));
  }

  /** The number 1 and the string "1" both sort as "1", and the stable
      sort keeps them in input order, so in the ids 1, "1", 1 the two
      equal numbers never become neighbours and the duplicate is accepted. */
  lemma MixedTypeDuplicateIdAccepted(f: Value, g: Value, h: Value)
    requires WellFormedAuditField(f) && WellFormedAuditField(g) && WellFormedAuditField(h)
    requires Get(f, "id") == Num(1) && Get(g, "id") == Str("1") && Get(h, "id") == Num(1)
    ensures !Distinct(IdsOf([f, g, h]))
    ensures NormaliseAuditFields(Arr([f, g, h])).Ok?
  {
    var fields := [f, g, h];
    ThreeFields(f, g, h);
    OneQuotedOneOnePassesCheck();
    AcceptedWhenChecksPass(fields);
    RepeatNotDistinct(IdsOf(fields), 0, 2);
  }

  /** The ids and well-formedness of three fields. */
  lemma ThreeFields(f: Value, g: Value, h: Value)
    ensures IdsOf([f, g, h]) == [Get(f, "id"), Get(g, "id"), Get(h, "id")]
    ensures AllWellFormed([f, g, h]) <==>
      WellFormedAuditField(f) && WellFormedAuditField(g) && WellFormedAuditField(h)
  {
    var fields := [f, g, h];
    assert fields[0] == f && fields[1] == g && fields[2] == h;
  }

  /** Fields that pass both the per-field checks and the sorted-neighbour
      check on their ids are accepted. */
  lemma AcceptedWhenChecksPass(fields: seq<Value>)
    requires AllWellFormed(fields) && SortedIdsUnique(IdsOf(fields))
    ensures NormaliseAuditFields(Arr(fields)).Ok?
  {
  }

  /** A lone field whose `id` key holds `undefined` is reported as a
      duplicate: it is compared with `ids[-1]`, which is `undefined` too. */
  lemma LoneUndefinedIdRejected(f: Value)
    requires WellFormedAuditField(f)
    requires Get(f, "id") == Undefined
    ensures NormaliseAuditFields(Arr([f])) == Err(AuditFieldIdsNotUnique)
  {
    var ids := IdsOf([f]);
    assert ids == [Undefined];
    assert [Undefined][1..] == [];
    assert DefinedOf([Undefined]) == [] && UndefinedOf([Undefined]) == [Undefined];
    assert Sort(ids) == [Undefined];
    assert !NeighboursDistinct(Sort(ids), 1);
  }
}
