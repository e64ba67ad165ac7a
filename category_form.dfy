/**
 * The category form of the administration screen, in both copies (the
 * renderer's, and the older one under src/components without dynamic
 * fields): the edits of the field list, the order proposed for a new field
 * and a new category, and the checks and shaping `handleSaveCategory` does
 * before the category is sent.
 */
module CategoryForm {
  import opened Wrappers
  import opened Text
  import opened Sorting
  import ImportMapping

  datatype Copy = Renderer | Legacy

  /** A field's `maxLength`: null, a number from `parseInt` of the input, or NaN. */
  datatype MaxLength = NoLimit | Limit(n: int) | NotANumber

  /** One field of the form. `ordre` is a number; the form's inputs go through `Number(...)`. */
  datatype Champ = Champ(
    fieldLabel: string,
    key: string,
    typ: string,
    obligatoire: bool,
    visible: bool,
    readonly: bool,
    afficherEnTete: bool,
    options: seq<string>,
    maxLength: MaxLength,
    formule: string,
    ordre: int)

  // ------------------------------------------------------------------ orders

  /** `Math.max(0, ...ordres)`. */
  function MaxOrdre(ordres: seq<int>): (r: int)
    ensures r >= 0
    ensures forall i :: 0 <= i < |ordres| ==> ordres[i] <= r
    ensures r == 0 || exists i :: 0 <= i < |ordres| && ordres[i] == r
  {
    if ordres == [] then 0
    else
      var m := MaxOrdre(ordres[..|ordres| - 1]);
      assert forall i :: 0 <= i < |ordres| - 1 ==> ordres[..|ordres| - 1][i] == ordres[i];
      if ordres[|ordres| - 1] > m then ordres[|ordres| - 1] else m
  }

  /** The order after a list: the largest one (at least 0) plus 10, or 0 for an empty list. */
  function NextOrdre(ordres: seq<int>): (r: int)
    ensures ordres == [] ==> r == 0
    ensures ordres != [] ==> r >= 10 && forall i :: 0 <= i < |ordres| ==> ordres[i] + 10 <= r
    ensures ordres != [] ==> exists i :: 0 <= i < |ordres| && (r == ordres[i] + 10 || r == 10)
  {
    (if ordres != [] then MaxOrdre(ordres) else -10) + 10
  }

  function Ordres(champs: seq<Champ>): (r: seq<int>)
    ensures |r| == |champs| && forall i :: 0 <= i < |r| ==> r[i] == champs[i].ordre
  {
    seq(|champs|, i requires 0 <= i < |champs| => champs[i].ordre)
  }

  /** What `resetForm` leaves: an empty name and field list, no category being edited, and the next category order. */
  datatype Form = Form(nom: string, ordreCategorie: int, champs: seq<Champ>, editing: bool)

  /** `resetForm`, given the orders of the active and the hidden categories. */
  function ResetForm(actives: seq<int>, masquees: seq<int>): (r: Form)
    ensures r.nom == [] && r.champs == [] && !r.editing
    ensures r.ordreCategorie == NextOrdre(actives + masquees)
  {
    Form([], NextOrdre(actives + masquees), [], false)
  }

  /** A new category comes after every category, hidden ones included. */
  lemma ResetOrderAfterAll(actives: seq<int>, masquees: seq<int>)
    ensures forall i :: 0 <= i < |actives| ==> actives[i] < ResetForm(actives, masquees).ordreCategorie
    ensures forall i :: 0 <= i < |masquees| ==> masquees[i] < ResetForm(actives, masquees).ordreCategorie
    ensures actives + masquees == [] ==> ResetForm(actives, masquees).ordreCategorie == 0
  {
    var all := actives + masquees;
    assert forall i :: 0 <= i < |actives| ==> actives[i] == all[i];
    assert forall i :: 0 <= i < |masquees| ==> masquees[i] == all[|actives| + i];
  }

  // -------------------------------------------------------------- field list

  /** The temporary key `champ_<now>_<count>` of a new field. */
  function NewKey(now: nat, count: nat): (r: string)
    ensures IsKey(r)
  {
    var a := NatToString(now);
    var b := NatToString(count);
    var r := "champ_" + a + "_" + b;
    assert forall i :: 6 <= i < 6 + |a| ==> r[i] == a[i - 6];
    assert forall i :: 7 + |a| <= i < |r| ==> r[i] == b[i - 7 - |a|];
    r
  }

  /** `ajouterChamp`: an empty text field after all the others, at the clock reading `now`. */
  function AjouterChamp(champs: seq<Champ>, now: nat): (r: seq<Champ>)
    ensures |r| == |champs| + 1 && r[..|champs|] == champs
    ensures var c := r[|champs|];
      c.fieldLabel == [] && c.typ == "text" && !c.obligatoire && c.visible && !c.readonly && !c.afficherEnTete
      && c.options == [] && c.maxLength == NoLimit && c.formule == [] && IsKey(c.key)
      && c.ordre == NextOrdre(Ordres(champs))
  {
    champs + [Champ([], NewKey(now, |champs|), "text", false, true, false, false, [], NoLimit, [], NextOrdre(Ordres(champs)))]
  }

  /** The new field is ordered after every field of the list, and gets 0 in an empty list. */
  lemma AjouterChampOrdre(champs: seq<Champ>, now: nat)
    ensures champs == [] ==> AjouterChamp(champs, now)[0].ordre == 0
    ensures forall i :: 0 <= i < |champs| ==> champs[i].ordre + 10 <= AjouterChamp(champs, now)[|champs|].ordre
  {
    var o := Ordres(champs);
    assert forall i :: 0 <= i < |champs| ==> o[i] == champs[i].ordre;
  }

  /** The `[field]: value` of an `updateChamp` call. */
  datatype Edit =
    | SetLabel(s: string)
    | SetKey(s: string)
    | SetType(s: string)
    | SetObligatoire(b: bool)
    | SetVisible(b: bool)
    | SetReadonly(b: bool)
    | SetAfficherEnTete(b: bool)
    | SetMaxLength(m: MaxLength)
    | SetFormule(s: string)
    | SetOrdre(n: int)

  function Apply(c: Champ, e: Edit): Champ {
    match e
    case SetLabel(s) => c.(fieldLabel := s)
    case SetKey(s) => c.(key := s)
    case SetType(s) => c.(typ := s)
    case SetObligatoire(b) => c.(obligatoire := b)
    case SetVisible(b) => c.(visible := b)
    case SetReadonly(b) => c.(readonly := b)
    case SetAfficherEnTete(b) => c.(afficherEnTete := b)
    case SetMaxLength(m) => c.(maxLength := m)
    case SetFormule(s) => c.(formule := s)
    case SetOrdre(n) => c.(ordre := n)
  }

  /** One updated field: the edit, and in the renderer a switch to 'dynamic' also makes it read-only. */
  function Updated(copy: Copy, c: Champ, e: Edit): (r: Champ)
    ensures copy == Renderer && e == SetType("dynamic") ==> r.readonly && r.typ == "dynamic"
    ensures !(copy == Renderer && e == SetType("dynamic")) ==> r == Apply(c, e)
  {
    var u := Apply(c, e);
    if copy == Renderer && e == SetType("dynamic") then u.(readonly := true) else u
  }

  /** `updateChamp(index, field, value)`: a map that touches only the field at `index`. */
  function UpdateChamp(copy: Copy, champs: seq<Champ>, index: int, e: Edit): (r: seq<Champ>)
    ensures |r| == |champs|
    ensures forall i :: 0 <= i < |r| && i != index ==> r[i] == champs[i]
    ensures 0 <= index < |champs| ==> r[index] == Updated(copy, champs[index], e)
  {
    seq(|champs|, i requires 0 <= i < |champs| => if i == index then Updated(copy, champs[i], e) else champs[i])
  }

  /** Which property an edit sets. */
  function Property(e: Edit): nat {
    match e
    case SetLabel(_) => 0
    case SetKey(_) => 1
    case SetType(_) => 2
    case SetObligatoire(_) => 3
    case SetVisible(_) => 4
    case SetReadonly(_) => 5
    case SetAfficherEnTete(_) => 6
    case SetMaxLength(_) => 7
    case SetFormule(_) => 8
    case SetOrdre(_) => 9
  }

  /**
   * Setting a property twice keeps only the second value, unless the first
   * was the renderer's switch to 'dynamic', whose forced read-only flag stays.
   */
  lemma UpdateChampTwice(copy: Copy, champs: seq<Champ>, index: int, e1: Edit, e2: Edit)
    requires Property(e1) == Property(e2) && !(copy == Renderer && e1 == SetType("dynamic"))
    ensures UpdateChamp(copy, UpdateChamp(copy, champs, index, e1), index, e2) == UpdateChamp(copy, champs, index, e2)
  {
    var a := UpdateChamp(copy, UpdateChamp(copy, champs, index, e1), index, e2);
    var b := UpdateChamp(copy, champs, index, e2);
    assert forall i :: 0 <= i < |a| ==> a[i] == b[i];
  }

  /** Only a change of type to 'dynamic' in the renderer touches `readonly` besides the edit itself. */
  lemma ReadonlyCoupling(copy: Copy, c: Champ, e: Edit)
    ensures !e.SetReadonly? && !(copy == Renderer && e == SetType("dynamic")) ==> Updated(copy, c, e).readonly == c.readonly
    ensures copy == Legacy ==> Updated(copy, c, e) == Apply(c, e)
    ensures copy == Renderer && e.SetType? && e.s == "dynamic" ==> Updated(copy, c, e).readonly
  {
  }

  /** `updateChampOptions`: the options typed as comma-separated text, trimmed, empty ones dropped. */
  function UpdateOptions(champs: seq<Champ>, index: int, text: string): (r: seq<Champ>)
    ensures |r| == |champs|
    ensures forall i :: 0 <= i < |r| && i != index ==> r[i] == champs[i]
    ensures 0 <= index < |champs| ==> r[index] == champs[index].(options := ImportMapping.ParseOptions(text))
  {
    seq(|champs|, i requires 0 <= i < |champs| => if i == index then champs[i].(options := ImportMapping.ParseOptions(text)) else champs[i])
  }

  /** `supprimerChamp(index)`: the list without the field at `index`, the others in order. */
  function SupprimerChamp(champs: seq<Champ>, index: int): (r: seq<Champ>)
    ensures 0 <= index < |champs| ==> |r| == |champs| - 1
    ensures !(0 <= index < |champs|) ==> r == champs
    ensures forall i :: 0 <= i < |r| ==> r[i] == if 0 <= index <= i then champs[i + 1] else champs[i]
  {
    if 0 <= index < |champs| then champs[..index] + champs[index + 1..] else champs
  }

  /** Adding a field and removing it again gives the list back. */
  lemma AddThenRemove(champs: seq<Champ>, now: nat)
    ensures SupprimerChamp(AjouterChamp(champs, now), |champs|) == champs
  {
  }

  // ------------------------------------------------------------------- save

  datatype Kind = BlankLabelOrKey | InvalidKey | DuplicateKey | BadMaxLength | MissingFormula

  /** Why `handleSaveCategory` stops: no name, or the first field that fails (by position). */
  datatype FormError = MissingName | FieldError(index: nat, kind: Kind)

  /** `champ.type === 'text' && champ.maxLength !== null && (isNaN(n) || n <= 0)`. */
  predicate BadLimit(c: Champ) {
    c.typ == "text" && c.maxLength != NoLimit && (c.maxLength.NotANumber? || c.maxLength.n <= 0)
  }

  /** The checks of one field in the loop, in the source's order; `seen` holds the keys of the fields before it. */
  function FieldCheck(copy: Copy, c: Champ, seen: set<string>): (r: Option<Kind>)
    ensures r == Some(MissingFormula) ==> copy == Renderer
    ensures r == Some(DuplicateKey) ==> Trim(c.key) in seen
  {
    var k := Trim(c.key);
    if IsBlank(c.fieldLabel) || k == [] then Some(BlankLabelOrKey)
    else if !IsKey(k) then Some(InvalidKey)
    else if k in seen then Some(DuplicateKey)
    else if BadLimit(c) then Some(BadMaxLength)
    else if copy == Renderer && c.typ == "dynamic" && IsBlank(c.formule) then Some(MissingFormula)
    else None
  }

  /** The loop from position `i` on, with the keys `seen` of the fields before. */
  function ErrorFrom(copy: Copy, champs: seq<Champ>, i: nat, seen: set<string>): (r: Option<FormError>)
    requires i <= |champs|
    ensures r.Some? ==> r.value.FieldError? && i <= r.value.index < |champs|
    decreases |champs| - i
  {
    if i == |champs| then None
    else
      var k := FieldCheck(copy, champs[i], seen);
      if k.Some? then Some(FieldError(i, k.value))
      else ErrorFrom(copy, champs, i + 1, seen + {Trim(champs[i].key)})
  }

  /** A field that is right whatever the other fields are. */
  predicate FieldOk(copy: Copy, c: Champ) {
    FieldCheck(copy, c, {}) == None
  }

  predicate KeysDistinct(champs: seq<Champ>) {
    forall i, j :: 0 <= i < j < |champs| ==> Trim(champs[i].key) != Trim(champs[j].key)
  }

  /** A well-formed key met before is reported as a duplicate once the label is there. */
  lemma FieldCheckDuplicate(copy: Copy, c: Champ, seen: set<string>)
    ensures FieldCheck(copy, c, seen) == Some(DuplicateKey) <==> IsKey(Trim(c.key)) && !IsBlank(c.fieldLabel) && Trim(c.key) in seen
  {
  }

  lemma FieldCheckSeen(copy: Copy, c: Champ, seen: set<string>)
    ensures FieldCheck(copy, c, seen) == None <==> FieldOk(copy, c) && Trim(c.key) !in seen
  {
  }

  /** The loop from `i` on passes iff every later field is right on its own, new to `seen`, and unlike every other later key. */
  lemma {:induction false} ErrorFromNone(copy: Copy, champs: seq<Champ>, i: nat, seen: set<string>)
    requires i <= |champs|
    ensures ErrorFrom(copy, champs, i, seen) == None <==>
      (forall j :: i <= j < |champs| ==> FieldOk(copy, champs[j]) && Trim(champs[j].key) !in seen)
      && (forall j, k :: i <= j < k < |champs| ==> Trim(champs[j].key) != Trim(champs[k].key))
    decreases |champs| - i
  {
    if i < |champs| {
      var key := Trim(champs[i].key);
      FieldCheckSeen(copy, champs[i], seen);
      ErrorFromNone(copy, champs, i + 1, seen + {key});
    }
  }

  /** The whole list passes iff every field is right on its own and the trimmed keys are pairwise distinct. */
  lemma FieldsPass(copy: Copy, champs: seq<Champ>)
    ensures ErrorFrom(copy, champs, 0, {}) == None <==>
      (forall j :: 0 <= j < |champs| ==> FieldOk(copy, champs[j])) && KeysDistinct(champs)
  {
    ErrorFromNone(copy, champs, 0, {});
  }

  /** The loop stops at a field that fails its checks against the keys of the fields before it. */
  lemma {:induction false} ErrorFromNamesField(copy: Copy, champs: seq<Champ>, i: nat, seen: set<string>)
    requires i <= |champs| && ErrorFrom(copy, champs, i, seen).Some?
    ensures var e := ErrorFrom(copy, champs, i, seen).value;
      e.FieldError? && i <= e.index < |champs|
      && FieldCheck(copy, champs[e.index], seen + KeysBetween(champs, i, e.index)) == Some(e.kind)
    decreases |champs| - i
  {
    var e := ErrorFrom(copy, champs, i, seen).value;
    if e.index != i {
      var key := Trim(champs[i].key);
      ErrorFromNamesField(copy, champs, i + 1, seen + {key});
      assert seen + KeysBetween(champs, i, e.index) == (seen + {key}) + KeysBetween(champs, i + 1, e.index);
    }
  }

  /** Every field before the one the loop stops at passed its own checks. */
  lemma {:induction false} ErrorFromAfterPassed(copy: Copy, champs: seq<Champ>, i: nat, seen: set<string>)
    requires i <= |champs| && ErrorFrom(copy, champs, i, seen).Some?
    ensures forall j :: i <= j < ErrorFrom(copy, champs, i, seen).value.index ==> FieldOk(copy, champs[j])
    decreases |champs| - i
  {
    if FieldCheck(copy, champs[i], seen).None? {
      var key := Trim(champs[i].key);
      ErrorFromAfterPassed(copy, champs, i + 1, seen + {key});
      FieldCheckSeen(copy, champs[i], seen);
    }
  }

  /** The trimmed keys of the fields at positions `lo` to `hi` (excluded). */
  function KeysBetween(champs: seq<Champ>, lo: nat, hi: nat): set<string>
    requires lo <= hi <= |champs|
    decreases hi - lo
  {
    if lo == hi then {} else {Trim(champs[lo].key)} + KeysBetween(champs, lo + 1, hi)
  }

  lemma {:induction false} KeysBetweenMembers(champs: seq<Champ>, lo: nat, hi: nat)
    requires lo <= hi <= |champs|
    ensures forall k :: k in KeysBetween(champs, lo, hi) <==> exists j :: lo <= j < hi && Trim(champs[j].key) == k
    decreases hi - lo
  {
    if lo < hi {
      KeysBetweenMembers(champs, lo + 1, hi);
    }
  }

  /** What is sent for a field: trimmed key and label, and a length only for a text field with a non-zero one. */
  function Saved(c: Champ): (r: Champ)
    ensures r.key == Trim(c.key) && r.fieldLabel == Trim(c.fieldLabel)
    ensures r.maxLength == if c.typ == "text" && c.maxLength.Limit? && c.maxLength.n != 0 then c.maxLength else NoLimit
    ensures r.typ == c.typ && r.ordre == c.ordre && r.options == c.options && r.formule == c.formule
  {
    c.(key := Trim(c.key), fieldLabel := Trim(c.fieldLabel),
       maxLength := if c.typ == "text" && c.maxLength.Limit? && c.maxLength.n != 0 then c.maxLength else NoLimit)
  }

  function SavedAll(champs: seq<Champ>): (r: seq<Champ>)
    ensures |r| == |champs| && forall i :: 0 <= i < |r| ==> r[i] == Saved(champs[i])
  {
    seq(|champs|, i requires 0 <= i < |champs| => Saved(champs[i]))
  }

  /** `(a, b) => a.ordre - b.ordre`. */
  function ByOrdre(): (le: (Champ, Champ) -> bool)
    ensures TotalPreorder(le)
    ensures forall a, b :: le(a, b) == (a.ordre <= b.ordre)
  {
    ByKeyTotalPreorder((c: Champ) => c.ordre);
    ByKey((c: Champ) => c.ordre)
  }

  /** `categoryData`: the trimmed name, the category order and the shaped fields sorted by order. */
  datatype CategoryData = CategoryData(nom: string, ordre: int, champs: seq<Champ>)

  /** `handleSaveCategory` up to the call into the main process. */
  function SaveCategory(copy: Copy, nom: string, ordre: int, champs: seq<Champ>): (r: Result<CategoryData, FormError>)
  {
    if Trim(nom) == [] then Err(MissingName)
    else
      var e := ErrorFrom(copy, champs, 0, {});
      if e.Some? then Err(e.value)
      else Ok(CategoryData(Trim(nom), ordre, SortBy(SavedAll(champs), ByOrdre())))
  }

  /**
   * A category is sent iff its name is not blank, every field has a
   * non-blank label and a well-formed key, a valid length and (renderer) a
   * formula when dynamic, and the trimmed keys are pairwise distinct.
   */
  lemma SaveAccepted(copy: Copy, nom: string, ordre: int, champs: seq<Champ>)
    ensures SaveCategory(copy, nom, ordre, champs).Ok? <==>
      !IsBlank(nom) && (forall j :: 0 <= j < |champs| ==> FieldOk(copy, champs[j])) && KeysDistinct(champs)
  {
    FieldsPass(copy, champs);
  }

  /** A field that passed its checks is sent with a well-formed key, a label, and a positive length or none. */
  predicate SentOk(c: Champ) {
    IsKey(c.key) && c.fieldLabel != [] && !c.maxLength.NotANumber?
    && (c.maxLength.Limit? ==> c.typ == "text" && c.maxLength.n > 0)
  }

  lemma SavedFieldOk(copy: Copy, c: Champ)
    requires FieldOk(copy, c)
    ensures SentOk(Saved(c))
  {
  }

  /**
   * What is sent: the trimmed, non-empty name and the shaped fields sorted
   * by order, a permutation of the shaped list, and no two fields with the
   * same key.
   */
  lemma SavedShape(copy: Copy, nom: string, ordre: int, champs: seq<Champ>)
    requires SaveCategory(copy, nom, ordre, champs).Ok?
    ensures var d := SaveCategory(copy, nom, ordre, champs).value;
      d.nom == Trim(nom) && d.nom != [] && d.ordre == ordre
      && Sorted(d.champs, ByOrdre())
      && multiset(d.champs) == multiset(SavedAll(champs))
    ensures forall i, j :: 0 <= i < j < |champs| ==> SavedAll(champs)[i].key != SavedAll(champs)[j].key
  {
    FieldsPass(copy, champs);
    SortBySorted(SavedAll(champs), ByOrdre());
  }

  /** Every field sent has a well-formed key, a label, and a positive length or none. */
  lemma SentFieldsOk(copy: Copy, nom: string, ordre: int, champs: seq<Champ>)
    requires SaveCategory(copy, nom, ordre, champs).Ok?
    ensures forall c :: c in SaveCategory(copy, nom, ordre, champs).value.champs ==> SentOk(c)
  {
    FieldsPass(copy, champs);
    var s := SavedAll(champs);
    var d := SaveCategory(copy, nom, ordre, champs).value;
    forall c | c in d.champs
      ensures SentOk(c)
    {
      assert c in multiset(s);
      var j :| 0 <= j < |s| && s[j] == c;
      SavedFieldOk(copy, champs[j]);
    }
  }

  /** The submit handler: the name check, then one loop over the fields with the set of keys seen, with early returns. */
  method HandleSaveCategory(copy: Copy, nom: string, ordre: int, champs: seq<Champ>) returns (r: Result<CategoryData, FormError>)
    ensures r == SaveCategory(copy, nom, ordre, champs)
  {
    if Trim(nom) == [] {
      return Err(MissingName);
    }
    var seen: set<string> := {};
    for i := 0 to |champs|
      invariant ErrorFrom(copy, champs, i, seen) == ErrorFrom(copy, champs, 0, {})
    {
      var c := champs[i];
      var k := Trim(c.key);
      if Trim(c.fieldLabel) == [] || k == [] {
        return Err(FieldError(i, BlankLabelOrKey));
      }
      if !IsKey(k) {
        return Err(FieldError(i, InvalidKey));
      }
      if k in seen {
        return Err(FieldError(i, DuplicateKey));
      }
      seen := seen + {k};
      if c.typ == "text" && c.maxLength != NoLimit && (c.maxLength.NotANumber? || c.maxLength.n <= 0) {
        return Err(FieldError(i, BadMaxLength));
      }
      if copy == Renderer && c.typ == "dynamic" && Trim(c.formule) == [] {
        return Err(FieldError(i, MissingFormula));
      }
    }
    return Ok(CategoryData(Trim(nom), ordre, SortBy(SavedAll(champs), ByOrdre())));
  }

  /** The older copy checks a field exactly as the renderer does, except that it never asks for a formula. */
  lemma LegacyFieldCheck(c: Champ, seen: set<string>)
    ensures FieldCheck(Legacy, c, seen) != Some(MissingFormula)
    ensures FieldCheck(Legacy, c, seen) ==
      (if FieldCheck(Renderer, c, seen) == Some(MissingFormula) then None else FieldCheck(Renderer, c, seen))
  {
  }

  /** Whatever the renderer sends, the older copy sends too, and sends the same category. */
  lemma LegacyAcceptsRendererCategory(nom: string, ordre: int, champs: seq<Champ>)
    ensures SaveCategory(Renderer, nom, ordre, champs).Ok? ==>
      SaveCategory(Legacy, nom, ordre, champs) == SaveCategory(Renderer, nom, ordre, champs)
  {
    SaveAccepted(Renderer, nom, ordre, champs);
    SaveAccepted(Legacy, nom, ordre, champs);
    forall c | FieldOk(Renderer, c)
      ensures FieldOk(Legacy, c)
    {
      LegacyFieldCheck(c, {});
    }
  }
}
