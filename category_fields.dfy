/**
 * `ensureFieldInCategorySync`: making sure a category's `champs` list holds
 * a definition for a field the import creates. A definition is appended,
 * normalised, only when no existing one has the same raw key; the list is
 * then re-sorted by `ordre` and written back.
 */
module CategoryFields {
  import opened Wrappers
  import opened Text
  import opened JsonData
  import opened Sorting

  /** A stored field definition. */
  datatype FieldDef = FieldDef(
    key: Json, fieldLabel: Json, typ: Json, ordre: int,
    obligatoire: Json, visible: Json, readonly: Json, afficherEnTete: Json,
    options: seq<string>, maxLength: Option<int>)

  /**
   * The `fieldConfig` argument. `ordre` is `Number(fieldConfig.ordre)` with
   * NaN as `None`; `visible` is `None` when undefined; `options` is `None`
   * when it is not an array.
   */
  datatype FieldConfig = FieldConfig(
    key: Json, fieldLabel: Json, typ: Json, ordre: Option<int>,
    obligatoire: Json, visible: Option<Json>, readonly: Json, afficherEnTete: Json,
    options: Option<seq<string>>, maxLength: Json)

  /** `v || false`. */
  function OrFalse(v: Json): (r: Json)
    ensures Truthy(r) <==> Truthy(v)
  {
    if Truthy(v) then v else JBool(false)
  }

  /** The definition that is appended for `cfg`. */
  function Normalise(cfg: FieldConfig): (r: FieldDef)
    ensures r.key == JStr(Trim(Show(cfg.key)))
    ensures r.fieldLabel == JStr(Trim(Show(if Truthy(cfg.fieldLabel) then cfg.fieldLabel else cfg.key)))
    ensures Truthy(r.typ)
    ensures r.ordre == if cfg.ordre.None? then 0 else cfg.ordre.value
    ensures r.visible == if cfg.visible.None? then JBool(true) else cfg.visible.value
    ensures r.options != [] ==> cfg.typ == JStr("list")
    ensures r.maxLength.Some? ==> cfg.typ == JStr("text") && Truthy(cfg.maxLength)
  {
    var key := Trim(Show(cfg.key));
    var fieldLabel := Trim(Show(if Truthy(cfg.fieldLabel) then cfg.fieldLabel else cfg.key));
    FieldDef(
      JStr(key), JStr(fieldLabel),
      if Truthy(cfg.typ) then cfg.typ else JStr("text"),
      OptionOr(cfg.ordre, 0),
      OrFalse(cfg.obligatoire),
      if cfg.visible.None? then JBool(true) else cfg.visible.value,
      OrFalse(cfg.readonly), OrFalse(cfg.afficherEnTete),
      if cfg.typ == JStr("list") then OptionOr(cfg.options, []) else [],
      if cfg.typ == JStr("text") && Truthy(cfg.maxLength) then ParseIntOf(cfg.maxLength) else None)
  }

  /** `champsArray.findIndex(f => f.key === key)` finds something. */
  predicate HasKey(fields: seq<FieldDef>, key: Json) {
    exists i :: 0 <= i < |fields| && fields[i].key == key
  }

  /** `(a.ordre || 0) - (b.ordre || 0)` as an order. */
  function ByOrdre(): (le: (FieldDef, FieldDef) -> bool)
    ensures TotalPreorder(le)
    ensures forall a, b :: le(a, b) == (a.ordre <= b.ordre)
  {
    ByKeyTotalPreorder((f: FieldDef) => f.ordre);
    ByKey((f: FieldDef) => f.ordre)
  }

  /** The list after the call and whether a definition was appended. */
  function Ensure(fields: seq<FieldDef>, cfg: FieldConfig): (r: (bool, seq<FieldDef>))
    ensures r.0 <==> !HasKey(fields, cfg.key)
    ensures !r.0 ==> r.1 == fields
    ensures r.0 ==> multiset(r.1) == multiset(fields) + multiset{Normalise(cfg)}
  {
    if HasKey(fields, cfg.key) then (false, fields)
    else (true, SortBy(fields + [Normalise(cfg)], ByOrdre()))
  }

  /** After an append the list is in `ordre` order. */
  lemma EnsureSorted(fields: seq<FieldDef>, cfg: FieldConfig)
    requires Ensure(fields, cfg).0
    ensures Sorted(Ensure(fields, cfg).1, ByOrdre())
  {
    SortBySorted(fields + [Normalise(cfg)], ByOrdre());
  }

  /** The keys present after the call: the old ones, plus the normalised key when something was appended. */
  lemma HasKeyAfter(fields: seq<FieldDef>, cfg: FieldConfig, key: Json)
    ensures HasKey(Ensure(fields, cfg).1, key)
      <==> HasKey(fields, key) || (!HasKey(fields, cfg.key) && Normalise(cfg).key == key)
  {
    var r := Ensure(fields, cfg);
    if r.0 {
      var m := fields + [Normalise(cfg)];
      HasKeyPermutation(r.1, m, key);
      HasKeyAppend(fields, Normalise(cfg), key);
    }
  }

  lemma HasKeyPermutation(s: seq<FieldDef>, t: seq<FieldDef>, key: Json)
    requires multiset(s) == multiset(t)
    ensures HasKey(s, key) <==> HasKey(t, key)
  {
    if HasKey(s, key) {
      var i :| 0 <= i < |s| && s[i].key == key;
      assert s[i] in multiset(t);
      var j :| 0 <= j < |t| && t[j] == s[i];
    }
    if HasKey(t, key) {
      var i :| 0 <= i < |t| && t[i].key == key;
      assert t[i] in multiset(s);
      var j :| 0 <= j < |s| && s[j] == t[i];
    }
  }

  lemma HasKeyAppend(s: seq<FieldDef>, n: FieldDef, key: Json)
    ensures HasKey(s + [n], key) <==> HasKey(s, key) || n.key == key
  {
    var m := s + [n];
    if HasKey(m, key) {
      var i :| 0 <= i < |m| && m[i].key == key;
      if i < |s| {
        assert s[i] == m[i];
      }
    }
    if HasKey(s, key) {
      var i :| 0 <= i < |s| && s[i].key == key;
      assert m[i] == s[i];
    }
    assert m[|s|] == n;
  }

  /** A field whose key is already trimmed text is there after the call, so a second call appends nothing. */
  lemma EnsureTwice(fields: seq<FieldDef>, cfg: FieldConfig)
    requires cfg.key.JStr? && Trim(cfg.key.s) == cfg.key.s
    ensures HasKey(Ensure(fields, cfg).1, cfg.key)
    ensures Ensure(Ensure(fields, cfg).1, cfg) == (false, Ensure(fields, cfg).1)
  {
    HasKeyAfter(fields, cfg, cfg.key);
  }

  /**
   * The lookup uses the raw key and the stored key is trimmed, so a key with
   * surrounding spaces is appended again on each call.
   */
  lemma SpacedKeyAppendedAgain(fields: seq<FieldDef>, cfg: FieldConfig)
    requires cfg.key.JStr? && Trim(cfg.key.s) != cfg.key.s && !HasKey(fields, cfg.key)
    ensures Ensure(fields, cfg).0 && Ensure(Ensure(fields, cfg).1, cfg).0
  {
    HasKeyAfter(fields, cfg, cfg.key);
  }

  /** What the `champs` text of a category parses to. */
  datatype Champs =
    | Fields(fields: seq<FieldDef>)
    /** Text that `JSON.parse` rejects: the list is taken to be empty. */
    | Unparsable
    /**
     * JSON that is not an array: `findIndex` is not a function there. For the
     * text `null` the source's message reads "Cannot read properties of null"
     * instead; the model keeps the one message, since every writer stores
     * `JSON.stringify(champs || [])`, which is never `null`.
     */
    | NotArray

  /** The `categories` table, keyed by id (deleted rows included). */
  class CategoryTable {
    var champs: map<int, Champs>

    constructor(champs: map<int, Champs>)
      ensures this.champs == champs
    {
      this.champs := champs;
    }

    method EnsureFieldInCategory(categoryId: int, cfg: FieldConfig) returns (r: Result<bool, string>)
      modifies this
      ensures categoryId !in old(champs) ==>
        r == Err("Category with ID " + IntToString(categoryId) + " not found during field creation.")
      ensures categoryId in old(champs) && old(champs[categoryId]).NotArray? ==>
        r == Err("champsArray.findIndex is not a function")
      ensures r.Err? || !r.value ==> champs == old(champs)
      ensures categoryId in old(champs) && !old(champs[categoryId]).NotArray? ==>
        var fields := if old(champs[categoryId]).Fields? then old(champs[categoryId]).fields else [];
        r == Ok(Ensure(fields, cfg).0)
        && (r.value ==> champs == old(champs)[categoryId := Fields(Ensure(fields, cfg).1)])
    {
      if categoryId !in champs {
        return Err("Category with ID " + IntToString(categoryId) + " not found during field creation.");
      }
      if champs[categoryId].NotArray? {
        return Err("champsArray.findIndex is not a function");
      }
      var fields := if champs[categoryId].Fields? then champs[categoryId].fields else [];
      var added := false;
      if !HasKey(fields, cfg.key) {
        fields := fields + [Normalise(cfg)];
        added := true;
      }
      if added {
        fields := SortBy(fields, ByOrdre());
        champs := champs[categoryId := Fields(fields)];
      }
      r := Ok(added);
    }
  }
}
