/**
 * The checks `handleImport` runs before an import is sent: one pass over the
 * file's headers that collects every mapping and new-field error, and, when
 * there is none, the per-column instructions and (in the renderer) the new
 * categories to create, grouped by lower-cased name.
 *
 * The pass is specified by `Scan` (errors and the sets of targets and keys
 * seen so far) and `Build` (the instructions and groups), both folds over
 * the headers; `ValidateColumns` is the loop, proved equal to them.
 */
module ImportValidation {
  import opened Wrappers
  import opened Text
  import opened ImportMapping

  /** Which copy of the screen: the renderer's, or the older one under src/components. */
  datatype Copy = Renderer | Legacy

  datatype ImportCategory = ImportCategory(id: int, nom: string)

  datatype ImportError =
    | NumeroNotMapped(header: string)
    | MissingTarget(header: string)
    | DuplicateTarget(target: string)
    | MissingCategory(header: string)
    | MissingCategoryName(header: string)
    | MissingLabel(header: string)
    | InvalidKey(header: string)
    | DuplicateKey(key: string)
    | MissingOptions(header: string)

  /** What the pass reads: the column actions, the targets, the new-field settings and the existing categories. */
  datatype Setup = Setup(
    copy: Copy,
    numeroHeader: string,
    actions: map<string, Action>,
    mapping: map<string, string>,
    champs: map<string, FieldConfig>,
    categories: seq<ImportCategory>)

  /**
   * Every column set to 'create' has its new-field settings. The screen
   * creates them for every header; a column without them makes the source
   * throw, which the model does not follow.
   */
  predicate Complete(st: Setup) {
    forall h :: h in st.actions && st.actions[h] == CreateAction ==> h in st.champs
  }

  function ActionOf(st: Setup, h: string): Option<Action> {
    if h in st.actions then Some(st.actions[h]) else None
  }

  /** `mapping[h]`, with a missing entry read as the empty target (both are falsy). */
  function TargetOf(st: Setup, h: string): string {
    if h in st.mapping then st.mapping[h] else ""
  }

  // ------------------------------------------------------------------ errors

  /** The setting errors of a new field that come before the key test, in the source's order. */
  function BeforeKey(fc: FieldConfig, h: string): (r: seq<ImportError>)
    ensures r == [] <==> fc.categorieId != "" && (fc.categorieId == "__new__" ==> Trim(fc.newCategorieNom) != []) && Trim(fc.fieldLabel) != []
  {
    (if fc.categorieId == "" then [MissingCategory(h)] else [])
    + (if fc.categorieId == "__new__" && Trim(fc.newCategorieNom) == [] then [MissingCategoryName(h)] else [])
    + (if Trim(fc.fieldLabel) == [] then [MissingLabel(h)] else [])
  }

  function AfterKey(fc: FieldConfig, h: string): (r: seq<ImportError>)
    ensures r == [] <==> !(fc.typ == "list" && fc.options == [])
  {
    if fc.typ == "list" && fc.options == [] then [MissingOptions(h)] else []
  }

  /** The errors collected so far, and the sets `mappedTargets` and `newFieldKeys`. */
  datatype Scanned = Scanned(errors: seq<ImportError>, targets: set<string>, keys: set<string>)

  /** A mapped column other than the numéro's, with a real target: the target it claims. */
  function MappedTarget(st: Setup, h: string): Option<string> {
    if ActionOf(st, h) == Some(MapAction) && h != st.numeroHeader && TargetOf(st, h) != "" && TargetOf(st, h) != "ignorer"
    then Some(TargetOf(st, h)) else None
  }

  /** A new field with a well-formed key: the trimmed key it claims. */
  function CreateKey(st: Setup, h: string): Option<string>
    requires Complete(st)
  {
    if ActionOf(st, h) == Some(CreateAction) && IsKey(Trim(st.champs[h].key)) then Some(Trim(st.champs[h].key)) else None
  }

  /** Whether a second claim of `t` is an error: always in the older copy, except for 'numero_unique' in the renderer. */
  predicate Counted(st: Setup, t: string) {
    st.copy == Legacy || t != "numero_unique"
  }

  /** The body of `rawHeaders.forEach` as far as errors and the two sets go. */
  function ScanStep(st: Setup, s: Scanned, h: string): (r: Scanned)
    requires Complete(st)
  {
    match ActionOf(st, h)
    case Some(MapAction) =>
      var target := TargetOf(st, h);
      if h == st.numeroHeader then
        Scanned(s.errors + (if target != "numero_unique" then [NumeroNotMapped(h)] else []), s.targets, s.keys)
      else if target == "" || target == "ignorer" then
        Scanned(s.errors + [MissingTarget(h)], s.targets, s.keys)
      else
        Scanned(s.errors + (if target in s.targets && Counted(st, target) then [DuplicateTarget(target)] else []),
                s.targets + {target}, s.keys)
    case Some(CreateAction) =>
      var fc := st.champs[h];
      var k := Trim(fc.key);
      Scanned(s.errors + BeforeKey(fc, h)
                + (if !IsKey(k) then [InvalidKey(h)] else if k in s.keys then [DuplicateKey(k)] else [])
                + AfterKey(fc, h),
              s.targets, if IsKey(k) then s.keys + {k} else s.keys)
    case _ => s
  }

  function Scan(st: Setup, hs: seq<string>): Scanned
    requires Complete(st)
  {
    if hs == [] then Scanned([], {}, {}) else ScanStep(st, Scan(st, hs[..|hs| - 1]), hs[|hs| - 1])
  }

  /** The errors a column has on its own, whatever the other columns are. */
  predicate LocalOk(st: Setup, h: string)
    requires Complete(st)
  {
    match ActionOf(st, h)
    case Some(MapAction) =>
      if h == st.numeroHeader then TargetOf(st, h) == "numero_unique"
      else TargetOf(st, h) != "" && TargetOf(st, h) != "ignorer"
    case Some(CreateAction) =>
      BeforeKey(st.champs[h], h) == [] && IsKey(Trim(st.champs[h].key)) && AfterKey(st.champs[h], h) == []
    case _ => true
  }

  /** Two columns that claim the same counted target, or the same new key. */
  predicate Clash(st: Setup, a: string, b: string)
    requires Complete(st)
  {
    (MappedTarget(st, a).Some? && MappedTarget(st, a) == MappedTarget(st, b) && Counted(st, MappedTarget(st, a).value))
    || (CreateKey(st, a).Some? && CreateKey(st, a) == CreateKey(st, b))
  }

  /** One step adds errors exactly when the column is wrong on its own or repeats an earlier claim. */
  lemma ScanStepErrors(st: Setup, s: Scanned, h: string)
    requires Complete(st)
    ensures var r := ScanStep(st, s, h);
      |r.errors| >= |s.errors| && r.errors[..|s.errors|] == s.errors
      && (r.errors == s.errors <==>
            LocalOk(st, h)
            && !(MappedTarget(st, h).Some? && MappedTarget(st, h).value in s.targets && Counted(st, MappedTarget(st, h).value))
            && !(CreateKey(st, h).Some? && CreateKey(st, h).value in s.keys))
    ensures var r := ScanStep(st, s, h);
      r.targets == s.targets + (if MappedTarget(st, h).Some? then {MappedTarget(st, h).value} else {})
      && r.keys == s.keys + (if CreateKey(st, h).Some? then {CreateKey(st, h).value} else {})
  {
    var r := ScanStep(st, s, h);
    assert r.errors[..|s.errors|] == s.errors;
  }

  /** The sets hold exactly the claims of the columns scanned so far. */
  lemma {:induction false} ScanSets(st: Setup, hs: seq<string>)
    requires Complete(st)
    ensures forall t :: t in Scan(st, hs).targets <==> exists i :: 0 <= i < |hs| && MappedTarget(st, hs[i]) == Some(t)
    ensures forall k :: k in Scan(st, hs).keys <==> exists i :: 0 <= i < |hs| && CreateKey(st, hs[i]) == Some(k)
  {
    if hs != [] {
      var p := hs[..|hs| - 1];
      ScanSets(st, p);
      ScanStepErrors(st, Scan(st, p), hs[|hs| - 1]);
      assert forall i :: 0 <= i < |p| ==> p[i] == hs[i];
    }
  }

  /**
   * The pass finds no error iff every column is right on its own and no two
   * columns clash: a target mapped twice (the renderer lets 'numero_unique'
   * repeat), or the same new key twice.
   */
  lemma {:induction false} ScanNoErrors(st: Setup, hs: seq<string>)
    requires Complete(st)
    ensures Scan(st, hs).errors == [] <==>
      (forall i :: 0 <= i < |hs| ==> LocalOk(st, hs[i]))
      && (forall i, j :: 0 <= i < j < |hs| ==> !Clash(st, hs[i], hs[j]))
  {
    if hs != [] {
      var p, h := hs[..|hs| - 1], hs[|hs| - 1];
      var s := Scan(st, p);
      assert Scan(st, hs) == ScanStep(st, s, h);
      ScanNoErrors(st, p);
      ClashWithPrefix(st, p, h);
      ScanStepErrors(st, s, h);
      assert Scan(st, hs).errors == [] <==> s.errors == [] && Scan(st, hs).errors == s.errors;
      SplitLast(st, hs);
    }
  }

  /** The last column clashes with an earlier one exactly when it repeats a target or a key the earlier ones claimed. */
  lemma ClashWithPrefix(st: Setup, p: seq<string>, h: string)
    requires Complete(st)
    ensures (forall i :: 0 <= i < |p| ==> !Clash(st, p[i], h)) <==>
      !(MappedTarget(st, h).Some? && MappedTarget(st, h).value in Scan(st, p).targets && Counted(st, MappedTarget(st, h).value))
      && !(CreateKey(st, h).Some? && CreateKey(st, h).value in Scan(st, p).keys)
  {
    ScanSets(st, p);
  }

  /** The conditions over all the columns, split into those over the earlier columns and those about the last. */
  lemma SplitLast(st: Setup, hs: seq<string>)
    requires Complete(st) && hs != []
    ensures var p, h := hs[..|hs| - 1], hs[|hs| - 1];
      ((forall i :: 0 <= i < |hs| ==> LocalOk(st, hs[i]))
       <==> (forall i :: 0 <= i < |p| ==> LocalOk(st, p[i])) && LocalOk(st, h))
      && ((forall i, j :: 0 <= i < j < |hs| ==> !Clash(st, hs[i], hs[j]))
          <==> (forall i, j :: 0 <= i < j < |p| ==> !Clash(st, p[i], p[j])) && (forall i :: 0 <= i < |p| ==> !Clash(st, p[i], h)))
  {
    var p := hs[..|hs| - 1];
    assert forall i :: 0 <= i < |p| ==> p[i] == hs[i];
  }

  /** Errors are only ever added: an error of a prefix of the headers is an error of all of them. */
  lemma {:induction false} ScanErrorsGrow(st: Setup, hs: seq<string>, n: nat)
    requires Complete(st) && n <= |hs|
    ensures |Scan(st, hs[..n]).errors| <= |Scan(st, hs).errors|
    ensures Scan(st, hs).errors[..|Scan(st, hs[..n]).errors|] == Scan(st, hs[..n]).errors
  {
    if n < |hs| {
      var p := hs[..|hs| - 1];
      assert hs[..n] == p[..n];
      ScanErrorsGrow(st, p, n);
      ScanStepErrors(st, Scan(st, p), hs[|hs| - 1]);
    } else {
      assert hs[..n] == hs;
    }
  }

  // ----------------------------------------------------- instructions, groups

  /** A new category to create: its lower-cased name, its name, its fields and the columns that feed them. */
  datatype Group = Group(lower: string, nom: string, champs: seq<FieldConfig>, colonnes: seq<string>)

  /** `finalColumnsConfig` and `newCategoriesMap` in insertion order. */
  datatype Built = Built(config: map<string, ColumnConfig>, groups: seq<Group>)

  /** The key and label trimmed, and `maxLength` kept only for a text field with a non-zero length. */
  function Normalised(fc: FieldConfig): (r: FieldConfig)
    ensures r.key == Trim(fc.key) && r.fieldLabel == Trim(fc.fieldLabel)
    ensures r.maxLength == if fc.typ == "text" && fc.maxLength.Some? && fc.maxLength.value != 0 then fc.maxLength else None
    ensures r.(key := fc.key, fieldLabel := fc.fieldLabel, maxLength := fc.maxLength) == fc
  {
    fc.(key := Trim(fc.key), fieldLabel := Trim(fc.fieldLabel),
        maxLength := if fc.typ == "text" && fc.maxLength.Some? && fc.maxLength.value != 0 then fc.maxLength else None)
  }

  /** `categories.find(cat => cat.nom.toLowerCase() === lower)`. */
  function FindCategory(cats: seq<ImportCategory>, lower: string): (r: Option<ImportCategory>)
    ensures r.Some? ==> r.value in cats && Lower(r.value.nom) == lower
    ensures r.None? <==> forall c :: c in cats ==> Lower(c.nom) != lower
  {
    if cats == [] then None
    else if Lower(cats[0].nom) == lower then Some(cats[0])
    else FindCategory(cats[1..], lower)
  }

  /** The trimmed new-category name of a renderer 'create' column that asks for a new category. */
  function NewCategoryName(st: Setup, h: string): (r: Option<string>)
    requires Complete(st)
    ensures r.Some? ==> ActionOf(st, h) == Some(CreateAction) && r.value != [] && r.value == Trim(st.champs[h].newCategorieNom)
  {
    if st.copy == Renderer && ActionOf(st, h) == Some(CreateAction)
       && st.champs[h].categorieId == "__new__" && Trim(st.champs[h].newCategorieNom) != []
    then Some(Trim(st.champs[h].newCategorieNom))
    else None
  }

  /** The group a column joins: a new-category name that matches no existing category, lower-cased. */
  function GroupKey(st: Setup, h: string): Option<string>
    requires Complete(st)
  {
    var n := NewCategoryName(st, h);
    if n.Some? && FindCategory(st.categories, Lower(n.value)).None? then Some(Lower(n.value)) else None
  }

  /** The instruction a column gets, if any; it depends on that column's settings alone. */
  function ConfigOf(st: Setup, h: string): (r: Option<ColumnConfig>)
    requires Complete(st)
  {
    match ActionOf(st, h)
    case Some(MapAction) => Some(MapColumn(TargetOf(st, h)))
    case Some(IgnoreAction) => Some(IgnoreColumn)
    case None => if st.copy == Legacy then Some(UnsetColumn) else None
    case Some(CreateAction) =>
      var fc := st.champs[h];
      if st.copy == Legacy then Some(CreateColumn(fc))
      else
        var n := NewCategoryName(st, h);
        if n.Some? then
          var found := FindCategory(st.categories, Lower(n.value));
          if found.Some? then
            Some(CreateInExisting(found.value.id, Normalised(fc).(categorieId := IntToString(found.value.id), newCategorieNom := "")))
          else Some(CreateInNew(n.value, Normalised(fc)))
        else if fc.categorieId != "" && fc.categorieId != "__new__" then
          Some(CreateColumn(Normalised(fc).(newCategorieNom := "")))
        else None
  }

  /** The position of the group for `lower`, if there is one. */
  function GroupIndex(groups: seq<Group>, lower: string): (r: Option<nat>)
    ensures r.Some? ==> r.value < |groups| && groups[r.value].lower == lower
    ensures r.None? <==> forall g :: 0 <= g < |groups| ==> groups[g].lower != lower
  {
    if groups == [] then None
    else if groups[|groups| - 1].lower == lower then Some(|groups| - 1)
    else
      var r := GroupIndex(groups[..|groups| - 1], lower);
      assert forall g :: 0 <= g < |groups| - 1 ==> groups[..|groups| - 1][g] == groups[g];
      r
  }

  /** `newCategoriesMap`: create the group on first use, then push the field and the column. */
  function AddToGroup(groups: seq<Group>, lower: string, nom: string, champ: FieldConfig, h: string): (r: seq<Group>)
    ensures |r| == |groups| + (if GroupIndex(groups, lower).None? then 1 else 0)
    ensures forall g :: 0 <= g < |groups| && groups[g].lower != lower ==> r[g] == groups[g]
    ensures forall g :: 0 <= g < |r| ==> r[g].lower == if g < |groups| then groups[g].lower else lower
  {
    var i := GroupIndex(groups, lower);
    if i.None? then groups + [Group(lower, nom, [champ], [h])]
    else
      var g := groups[i.value];
      groups[i.value := g.(champs := g.champs + [champ], colonnes := g.colonnes + [h])]
  }

  function BuildStep(st: Setup, b: Built, h: string): Built
    requires Complete(st)
  {
    var c := ConfigOf(st, h);
    var config := if c.Some? then b.config[h := c.value] else b.config;
    var k := GroupKey(st, h);
    if k.Some? then
      var n := NewCategoryName(st, h).value;
      Built(config, AddToGroup(b.groups, k.value, n, Normalised(st.champs[h]).(newCategorieNom := n), h))
    else Built(config, b.groups)
  }

  function Build(st: Setup, hs: seq<string>): Built
    requires Complete(st)
  {
    if hs == [] then Built(map[], []) else BuildStep(st, Build(st, hs[..|hs| - 1]), hs[|hs| - 1])
  }

  predicate GroupsDistinct(groups: seq<Group>) {
    forall a, b :: 0 <= a < b < |groups| ==> groups[a].lower != groups[b].lower
  }

  /**
   * Adding a column to the groups puts it in the group of its name, keeps
   * every column already listed, adds no other column, and keeps the names
   * distinct.
   */
  lemma AddToGroupColumns(groups: seq<Group>, lower: string, nom: string, champ: FieldConfig, h: string)
    ensures var r := AddToGroup(groups, lower, nom, champ, h);
      (GroupsDistinct(groups) ==> GroupsDistinct(r))
      && (forall g, c :: 0 <= g < |groups| && c in groups[g].colonnes ==> c in r[g].colonnes)
      && (forall g, c :: 0 <= g < |r| && c in r[g].colonnes ==>
            (c == h && r[g].lower == lower) || (g < |groups| && c in groups[g].colonnes))
      && exists g :: 0 <= g < |r| && r[g].lower == lower && h in r[g].colonnes
  {
    var r := AddToGroup(groups, lower, nom, champ, h);
    var i := GroupIndex(groups, lower);
    if i.None? {
      assert r[|groups|].colonnes == [h];
    } else {
      assert r[i.value].colonnes == groups[i.value].colonnes + [h];
    }
  }

  /** Every column has the instruction its own settings give, and only the columns that have one are listed. */
  lemma {:induction false} BuildConfig(st: Setup, hs: seq<string>)
    requires Complete(st)
    ensures forall h :: h in Build(st, hs).config <==> h in hs && ConfigOf(st, h).Some?
    ensures forall h :: h in Build(st, hs).config ==> Build(st, hs).config[h] == ConfigOf(st, h).value
  {
    if hs != [] {
      var p := hs[..|hs| - 1];
      BuildConfig(st, p);
      assert forall x :: x in hs <==> x in p || x == hs[|hs| - 1];
    }
  }

  /**
   * A column of a new category is listed in the one group of its
   * lower-cased name, a group lists only such columns, and the groups have
   * pairwise different lower-cased names.
   */
  lemma {:induction false} BuildGroups(st: Setup, hs: seq<string>)
    requires Complete(st)
    ensures GroupsDistinct(Build(st, hs).groups)
    ensures forall g, c :: 0 <= g < |Build(st, hs).groups| && c in Build(st, hs).groups[g].colonnes ==>
      c in hs && GroupKey(st, c) == Some(Build(st, hs).groups[g].lower)
    ensures forall h :: h in hs && GroupKey(st, h).Some? ==>
      exists g :: 0 <= g < |Build(st, hs).groups| && Build(st, hs).groups[g].lower == GroupKey(st, h).value
        && h in Build(st, hs).groups[g].colonnes
  {
    if hs != [] {
      var p, h := hs[..|hs| - 1], hs[|hs| - 1];
      BuildGroups(st, p);
      assert forall x :: x in hs <==> x in p || x == h;
      var old_ := Build(st, p).groups;
      var k := GroupKey(st, h);
      if k.Some? {
        var n := NewCategoryName(st, h).value;
        AddToGroupColumns(old_, k.value, n, Normalised(st.champs[h]).(newCategorieNom := n), h);
        var r := Build(st, hs).groups;
        assert r == AddToGroup(old_, k.value, n, Normalised(st.champs[h]).(newCategorieNom := n), h);
        forall x | x in hs && GroupKey(st, x).Some?
          ensures exists g :: 0 <= g < |r| && r[g].lower == GroupKey(st, x).value && x in r[g].colonnes
        {
          if x != h {
            var g :| 0 <= g < |old_| && old_[g].lower == GroupKey(st, x).value && x in old_[g].colonnes;
            assert x in r[g].colonnes;
          }
        }
      }
    }
  }

  /**
   * A renderer column that asks for a new category whose name matches an
   * existing category, ignoring case, is turned into a field of that
   * category; any other new name gives its column a group.
   */
  lemma ExistingCategoryReused(st: Setup, h: string)
    requires Complete(st) && NewCategoryName(st, h).Some?
    ensures var found := FindCategory(st.categories, Lower(NewCategoryName(st, h).value));
      (found.Some? ==> ConfigOf(st, h).Some? && ConfigOf(st, h).value.CreateInExisting?
                       && ConfigOf(st, h).value.targetCategoryId == found.value.id
                       && ConfigOf(st, h).value.fc.key == Trim(st.champs[h].key))
      && (found.None? ==> GroupKey(st, h) == Some(Lower(NewCategoryName(st, h).value))
                          && ConfigOf(st, h) == Some(CreateInNew(NewCategoryName(st, h).value, Normalised(st.champs[h]))))
  {
  }

  // ------------------------------------------------------------- the loop

  /** The `rawHeaders.forEach` pass: errors, the two sets, the instructions and the groups, in one loop. */
  method ValidateColumns(st: Setup, headers: seq<string>)
    returns (errors: seq<ImportError>, config: map<string, ColumnConfig>, groups: seq<Group>)
    requires Complete(st)
    ensures errors == Scan(st, headers).errors
    ensures config == Build(st, headers).config && groups == Build(st, headers).groups
  {
    errors, config, groups := [], map[], [];
    var targets: set<string> := {};
    var keys: set<string> := {};
    var i := 0;
    while i < |headers|
      invariant 0 <= i <= |headers|
      invariant Scanned(errors, targets, keys) == Scan(st, headers[..i])
      invariant Built(config, groups) == Build(st, headers[..i])
    {
      assert headers[..i + 1][..i] == headers[..i];
      errors, targets, keys := ScanColumn(st, headers[i], errors, targets, keys);
      config, groups := BuildColumn(st, headers[i], config, groups);
      i := i + 1;
    }
    assert headers[..i] == headers;
  }

  /** The checks of one column: its errors, and its target or key. */
  method ScanColumn(st: Setup, h: string, errors0: seq<ImportError>, targets0: set<string>, keys0: set<string>)
    returns (errors: seq<ImportError>, targets: set<string>, keys: set<string>)
    requires Complete(st)
    ensures Scanned(errors, targets, keys) == ScanStep(st, Scanned(errors0, targets0, keys0), h)
  {
    errors, targets, keys := errors0, targets0, keys0;
    if h in st.actions && st.actions[h] == MapAction {
      var target := if h in st.mapping then st.mapping[h] else "";
      if h == st.numeroHeader {
        if target != "numero_unique" {
          errors := errors + [NumeroNotMapped(h)];
        }
      } else if target == "" || target == "ignorer" {
        errors := errors + [MissingTarget(h)];
      } else {
        if target in targets && (st.copy == Legacy || target != "numero_unique") {
          errors := errors + [DuplicateTarget(target)];
        }
        targets := targets + {target};
      }
    } else if h in st.actions && st.actions[h] == CreateAction {
      var fc := st.champs[h];
      errors := errors + BeforeKey(fc, h);
      var k := Trim(fc.key);
      if !IsKey(k) {
        errors := errors + [InvalidKey(h)];
      } else {
        if k in keys {
          errors := errors + [DuplicateKey(k)];
        }
        keys := keys + {k};
      }
      errors := errors + AfterKey(fc, h);
    }
  }

  /** The instruction of one column, and its group when it asks for a new category. */
  method BuildColumn(st: Setup, h: string, config0: map<string, ColumnConfig>, groups0: seq<Group>)
    returns (config: map<string, ColumnConfig>, groups: seq<Group>)
    requires Complete(st)
    ensures Built(config, groups) == BuildStep(st, Built(config0, groups0), h)
  {
    config, groups := config0, groups0;
    if h in st.actions && st.actions[h] == MapAction {
      var target := if h in st.mapping then st.mapping[h] else "";
      config := config[h := MapColumn(target)];
    } else if h in st.actions && st.actions[h] == CreateAction {
      config, groups := CreateInstruction(st, h, config, groups);
    } else if h in st.actions {
      config := config[h := IgnoreColumn];
    } else if st.copy == Legacy {
      config := config[h := UnsetColumn];
    }
  }

  /** The instruction and group update of a 'create' column (its settings already checked). */
  method CreateInstruction(st: Setup, h: string, config0: map<string, ColumnConfig>, groups0: seq<Group>)
    returns (config: map<string, ColumnConfig>, groups: seq<Group>)
    requires Complete(st) && ActionOf(st, h) == Some(CreateAction)
    ensures Built(config, groups) == BuildStep(st, Built(config0, groups0), h)
  {
    var fc := st.champs[h];
    config, groups := config0, groups0;
    if st.copy == Legacy {
      config := config[h := CreateColumn(fc)];
    } else if fc.categorieId == "__new__" && Trim(fc.newCategorieNom) != [] {
      var name := Trim(fc.newCategorieNom);
      var lower := Lower(name);
      var found := FindCategory(st.categories, lower);
      if found.Some? {
        var c := found.value;
        config := config[h := CreateInExisting(c.id, Normalised(fc).(categorieId := IntToString(c.id), newCategorieNom := ""))];
      } else {
        groups := AddToGroup(groups, lower, name, Normalised(fc).(newCategorieNom := name), h);
        config := config[h := CreateInNew(name, Normalised(fc))];
      }
    } else if fc.categorieId != "" && fc.categorieId != "__new__" {
      config := config[h := CreateColumn(Normalised(fc).(newCategorieNom := ""))];
    }
  }

  // ---------------------------------------------------------- handleImport

  /** Why `handleImport` stops before sending anything. */
  datatype Refusal = NoFile | NumeroNotIdentified | NoColumns | Invalid(errors: seq<ImportError>)

  /** What is sent: the instructions and the new categories (always empty in the older copy). */
  datatype Plan = Plan(config: map<string, ColumnConfig>, newCategories: seq<Group>)

  /** The outcome of `handleImport` up to the call into the main process. */
  function ImportPlan(st: Setup, hasFile: bool, headers: seq<string>): (r: Result<Plan, Refusal>)
    requires Complete(st)
  {
    if !hasFile then Err(NoFile)
    else if st.numeroHeader == "" || TargetOf(st, st.numeroHeader) != "numero_unique" then Err(NumeroNotIdentified)
    else if st.copy == Renderer && headers == [] then Err(NoColumns)
    else
      var errors := Scan(st, headers).errors;
      if errors != [] then Err(Invalid(errors))
      else Ok(Plan(Build(st, headers).config, Build(st, headers).groups))
  }

  method HandleImport(st: Setup, hasFile: bool, headers: seq<string>) returns (r: Result<Plan, Refusal>)
    requires Complete(st)
    ensures r == ImportPlan(st, hasFile, headers)
  {
    if !hasFile {
      return Err(NoFile);
    }
    if st.numeroHeader == "" || !(st.numeroHeader in st.mapping && st.mapping[st.numeroHeader] == "numero_unique") {
      return Err(NumeroNotIdentified);
    }
    if st.copy == Renderer && |headers| == 0 {
      return Err(NoColumns);
    }
    var errors, config, groups := ValidateColumns(st, headers);
    if |errors| > 0 {
      return Err(Invalid(errors));
    }
    return Ok(Plan(config, groups));
  }

  /**
   * An import is sent iff there is a file, the numéro column is mapped to
   * 'numero_unique', every column is right on its own and no two columns
   * clash; the older copy has no new categories and sends even with no column.
   */
  lemma ImportAccepted(st: Setup, hasFile: bool, headers: seq<string>)
    requires Complete(st)
    ensures ImportPlan(st, hasFile, headers).Ok? <==>
      hasFile && st.numeroHeader != "" && TargetOf(st, st.numeroHeader) == "numero_unique"
      && (st.copy == Renderer ==> headers != [])
      && (forall i :: 0 <= i < |headers| ==> LocalOk(st, headers[i]))
      && (forall i, j :: 0 <= i < j < |headers| ==> !Clash(st, headers[i], headers[j]))
    ensures st.copy == Legacy ==> forall h :: NewCategoryName(st, h).None?
  {
    ScanNoErrors(st, headers);
  }

  /** The renderer lets several columns map to 'numero_unique'; the older copy reports the second one. */
  lemma NumeroTargetRepeats(st: Setup, a: string, b: string)
    requires Complete(st) && MappedTarget(st, a) == Some("numero_unique") && MappedTarget(st, b) == Some("numero_unique")
    ensures st.copy == Renderer ==> !Clash(st, a, b)
    ensures st.copy == Legacy ==> Clash(st, a, b)
  {
  }
}
