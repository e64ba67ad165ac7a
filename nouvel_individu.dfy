/**
 * The creation form of an individual (`NouvelIndividu`): the submission
 * checks over the numéro and the mandatory fields, the payload sent, and
 * the reset after a successful creation.
 */
module NouvelIndividu {
  import opened Wrappers
  import opened Text
  import opened JsonData

  /** A field definition of a category; the flags keep the JavaScript values they are checked against. */
  datatype Champ = Champ(key: string, fieldLabel: string, kind: string, visible: Json, obligatoire: Json, readonly: Json)

  /** A category with its id, name and fields (`None` when `champs` is missing). */
  datatype Category = Category(id: int, nom: string, champs: Option<seq<Champ>>)

  /** `cat.champs || []`. */
  function ChampsOf(c: Category): (r: seq<Champ>)
    ensures c.champs.None? ==> r == []
  {
    if c.champs.Some? then c.champs.value else []
  }

  /** `valeursChamps[key]`: `None` for undefined. */
  function Lookup(values: map<string, Json>, key: string): (r: Option<Json>)
    ensures r.Some? <==> key in values
  {
    if key in values then Some(values[key]) else None
  }

  /** `valeur === undefined || valeur === null || String(valeur).trim() === ''`. */
  predicate Blank(v: Option<Json>) {
    v.None? || v.value == JNull || IsBlank(Show(v.value))
  }

  /** `champ.visible && champ.obligatoire && !champ.readonly`. */
  predicate Checked(c: Champ) {
    Truthy(c.visible) && Truthy(c.obligatoire) && !Truthy(c.readonly)
  }

  /** Whether a field stops the submission, following both branches of the check as written. */
  predicate BlocksAs(c: Champ, v: Option<Json>) {
    Checked(c) && Blank(v)
    && ((c.kind == "checkbox" && v == Some(JBool(false)) && !Truthy(v.value)) || c.kind != "checkbox")
  }

  /** A blank value never equals `false`, so a checkbox never blocks. */
  lemma CheckboxNeverBlocks(c: Champ, v: Option<Json>)
    requires c.kind == "checkbox"
    ensures !BlocksAs(c, v)
  {
    if v == Some(JBool(false)) {
      assert Show(v.value) == "false";
      assert !IsJsSpace(Show(v.value)[0]);
    }
  }

  /** Any other checked field blocks exactly when its value is missing, null or blank. */
  lemma OtherFieldsBlockWhenBlank(c: Champ, v: Option<Json>)
    requires c.kind != "checkbox" && Checked(c)
    ensures BlocksAs(c, v) <==> Blank(v)
    ensures v.Some? && v.value.JInt? ==> !BlocksAs(c, v)
  {
    if v.Some? && v.value.JInt? {
      var s := Show(v.value);
      assert s != [];
      if v.value.i < 0 {
        assert s[0] == '-';
      } else {
        assert s == NatToString(v.value.i);
        NatDigitsNotBlank(v.value.i);
      }
    }
  }

  lemma NatDigitsNotBlank(n: nat)
    ensures !IsBlank(NatToString(n))
  {
    NatToStringValue(n);
    var s := NatToString(n);
    assert s != [] by {
      assert IntToString(n) == s;
    }
    assert IsDigit(s[0]);
  }

  /** A position: the index of a category and of a field in it. */
  datatype Spot = Spot(cat: nat, field: nat)

  predicate Within(cats: seq<Category>, ci: nat, fi: nat) {
    ci < |cats| && fi < |ChampsOf(cats[ci])|
  }

  predicate Blocks(cats: seq<Category>, values: map<string, Json>, ci: nat, fi: nat)
    requires Within(cats, ci, fi)
  {
    var c := ChampsOf(cats[ci])[fi];
    BlocksAs(c, Lookup(values, c.key))
  }

  /** Category by category, then field by field. */
  predicate Before(ci: nat, fi: nat, s: Spot) {
    ci < s.cat || (ci == s.cat && fi < s.field)
  }

  /** The nested scan of the submission: the first blocking field, or none. */
  method FirstBlocking(cats: seq<Category>, values: map<string, Json>) returns (r: Option<Spot>)
    ensures r.None? ==> forall ci: nat, fi: nat :: Within(cats, ci, fi) ==> !Blocks(cats, values, ci, fi)
    ensures r.Some? ==> Within(cats, r.value.cat, r.value.field) && Blocks(cats, values, r.value.cat, r.value.field)
    ensures r.Some? ==> forall ci: nat, fi: nat :: Within(cats, ci, fi) && Before(ci, fi, r.value) ==> !Blocks(cats, values, ci, fi)
  {
    for ci := 0 to |cats|
      invariant forall c: nat, f: nat :: Within(cats, c, f) && c < ci ==> !Blocks(cats, values, c, f)
    {
      var champs := ChampsOf(cats[ci]);
      for fi := 0 to |champs|
        invariant forall c: nat, f: nat :: Within(cats, c, f) && (c < ci || (c == ci && f < fi)) ==> !Blocks(cats, values, c, f)
      {
        var champ := champs[fi];
        if Truthy(champ.visible) && Truthy(champ.obligatoire) && !Truthy(champ.readonly) {
          var valeur := Lookup(values, champ.key);
          if valeur.None? || valeur.value == JNull || Trim(Show(valeur.value)) == "" {
            if champ.kind == "checkbox" && valeur == Some(JBool(false)) {
              if !Truthy(valeur.value) {
                return Some(Spot(ci, fi));
              }
            } else if champ.kind != "checkbox" {
              return Some(Spot(ci, fi));
            }
          }
        }
      }
    }
    return None;
  }

  /** `en_charge` of the payload: `enChargeId ? Number(enChargeId) : null`. */
  datatype EnCharge = NoOne | UserId(n: nat) | NotANumber

  function EnChargeOf(s: string): (r: EnCharge)
    ensures r == NoOne <==> s == []
    ensures s != [] && AllDigits(s) ==> r == UserId(DigitsValue(s))
  {
    if s == [] then NoOne else if AllDigits(s) then UserId(DigitsValue(s)) else NotANumber
  }

  /** The individual sent for creation. */
  datatype Payload = Payload(numeroUnique: string, enCharge: EnCharge, champs: map<string, Json>)

  /** The tab of a category, `cat-<id>`. */
  function TabOf(c: Category): (r: string)
    ensures |r| > 4 && r[..4] == "cat-" && r[4..] == IntToString(c.id)
  {
    "cat-" + IntToString(c.id)
  }

  const NumeroRequired: string := "Le numéro d'individu est obligatoire."
  const Created: string := "Individu ajouté avec succès!"

  function FieldRequired(champLabel: string, nom: string): string {
    "Le champ \"" + champLabel + "\" dans la catégorie \"" + nom + "\" est obligatoire."
  }

  /** `'Erreur: ' + (result.error || 'Problème inconnu')`. */
  function Failure(error: Option<string>): (r: string)
    ensures error.Some? && error.value != [] ==> r == "Erreur: " + error.value
    ensures error.None? ==> r == "Erreur: Problème inconnu"
  {
    "Erreur: " + (if error.Some? && error.value != [] then error.value else "Problème inconnu")
  }

  /** The form's state: the loaded categories, the inputs, the active tab and the message. */
  class Form {
    var categories: seq<Category>
    var numeroUnique: string
    var enChargeId: string
    var valeurs: map<string, Json>
    var ongletActif: Option<string>
    var message: string

    /** The form once the categories are loaded: the first category's tab, the user as person in charge. */
    constructor(categories: seq<Category>, ownId: string)
      ensures this.categories == categories && numeroUnique == [] && enChargeId == ownId && valeurs == map[] && message == []
      ensures ongletActif == (if |categories| > 0 then Some(TabOf(categories[0])) else None)
    {
      this.categories := categories;
      numeroUnique := [];
      enChargeId := ownId;
      valeurs := map[];
      ongletActif := if |categories| > 0 then Some(TabOf(categories[0])) else None;
      message := [];
    }

    /** `handleValeurChange`. */
    method ValeurChange(key: string, v: Json)
      modifies this
      ensures valeurs == old(valeurs)[key := v]
      ensures categories == old(categories) && numeroUnique == old(numeroUnique) && enChargeId == old(enChargeId)
      ensures ongletActif == old(ongletActif) && message == old(message)
    {
      valeurs := valeurs[key := v];
    }

    /**
     * `handleSubmit`: `accepted` and `error` are the reply of the creation
     * call, `ownId` is `String(user.id || user.userId || '')`. Returns the
     * payload when it was sent.
     */
    method Submit(keepOpen: bool, ownId: string, accepted: bool, error: Option<string>) returns (sent: Option<Payload>)
      modifies this
      ensures categories == old(categories)
      ensures IsBlank(old(numeroUnique)) ==>
        (sent.None? && message == NumeroRequired && numeroUnique == old(numeroUnique)
         && valeurs == old(valeurs) && ongletActif == old(ongletActif) && enChargeId == old(enChargeId))
      ensures sent.Some? ==>
        (!IsBlank(old(numeroUnique))
         && (forall ci: nat, fi: nat :: Within(categories, ci, fi) ==> !Blocks(categories, old(valeurs), ci, fi))
         && sent.value == Payload(Trim(old(numeroUnique)), EnChargeOf(old(enChargeId)), old(valeurs)))
      ensures !IsBlank(old(numeroUnique)) && sent.None? ==>
        (exists ci: nat, fi: nat :: Within(categories, ci, fi) && Blocks(categories, old(valeurs), ci, fi)
          && (forall c: nat, f: nat :: Within(categories, c, f) && Before(c, f, Spot(ci, fi)) ==> !Blocks(categories, old(valeurs), c, f))
          && ongletActif == Some(TabOf(categories[ci]))
          && message == FieldRequired(ChampsOf(categories[ci])[fi].fieldLabel, categories[ci].nom))
      ensures !IsBlank(old(numeroUnique)) && sent.None? ==>
        numeroUnique == old(numeroUnique) && valeurs == old(valeurs) && enChargeId == old(enChargeId)
      ensures sent.Some? && accepted ==>
        (message == Created && numeroUnique == [] && valeurs == map[]
         && enChargeId == (if keepOpen && old(enChargeId) != [] then old(enChargeId) else ownId)
         && ongletActif == (if |categories| > 0 then Some(TabOf(categories[0])) else old(ongletActif)))
      ensures sent.Some? && !accepted ==>
        (message == Failure(error) && numeroUnique == old(numeroUnique) && valeurs == old(valeurs)
         && enChargeId == old(enChargeId) && ongletActif == old(ongletActif))
    {
      message := [];
      if Trim(numeroUnique) == [] {
        message := NumeroRequired;
        return None;
      }
      var spot := FirstBlocking(categories, valeurs);
      if spot.Some? {
        var cat := categories[spot.value.cat];
        var champ := ChampsOf(cat)[spot.value.field];
        message := FieldRequired(champ.fieldLabel, cat.nom);
        ongletActif := Some(TabOf(cat));
        return None;
      }
      sent := Some(Payload(Trim(numeroUnique), EnChargeOf(enChargeId), valeurs));
      if accepted {
        message := Created;
        numeroUnique := [];
        enChargeId := if keepOpen && enChargeId != [] then enChargeId else ownId;
        valeurs := map[];
        if |categories| > 0 {
          ongletActif := Some(TabOf(categories[0]));
        }
      } else {
        message := Failure(error);
      }
    }
  }

  /** In the order of the scan, the field that stops the submission is never a checkbox. */
  lemma BlockingIsNoCheckbox(cats: seq<Category>, values: map<string, Json>, ci: nat, fi: nat)
    requires Within(cats, ci, fi) && Blocks(cats, values, ci, fi)
    ensures ChampsOf(cats[ci])[fi].kind != "checkbox"
  {
    var c := ChampsOf(cats[ci])[fi];
    if c.kind == "checkbox" {
      CheckboxNeverBlocks(c, Lookup(values, c.key));
    }
  }
}
