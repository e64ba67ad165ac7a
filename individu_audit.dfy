/**
 * `addOrUpdateIndividuLogicSync`: creating or updating an individual inside
 * one transaction, and the audit entries that record each changed field.
 * The `individus` table is a map from row id to row and the audit table a
 * sequence of rows; a thrown error rolls the transaction back, so both are
 * left as they were.
 */
module IndividuAudit {
  import opened Wrappers
  import opened Text
  import opened JsonData

  /** An object's own properties, in `Object.keys` order. */
  type Props = seq<(string, Json)>

  function Keys(ps: Props): (r: seq<string>)
    ensures |r| == |ps| && forall i :: 0 <= i < |ps| ==> r[i] == ps[i].0
  {
    seq(|ps|, i requires 0 <= i < |ps| => ps[i].0)
  }

  /** The keys of a JavaScript object are pairwise distinct. */
  predicate DistinctKeys(ps: Props) {
    forall i, j :: 0 <= i < j < |ps| ==> ps[i].0 != ps[j].0
  }

  predicate Distinct(ks: seq<string>) {
    forall i, j :: 0 <= i < j < |ks| ==> ks[i] != ks[j]
  }

  /** `obj[key]`; `None` is `undefined`. */
  function Get(ps: Props, key: string): (r: Option<Json>)
    ensures r.None? <==> key !in Keys(ps)
    ensures r.Some? ==> (key, r.value) in ps
  {
    if ps == [] then None
    else if ps[0].0 == key then Some(ps[0].1)
    else
      assert Keys(ps) == [ps[0].0] + Keys(ps[1..]);
      Get(ps[1..], key)
  }

  /** `String(value === undefined ? '' : value)`. */
  function ShowMissing(v: Option<Json>): (r: string)
    ensures v.None? ==> r == []
    ensures v.Some? ==> r == Show(v.value)
  {
    if v.None? then "" else Show(v.value)
  }

  /** A row of `individus`; `extras` is `None` when its JSON text does not parse to an object. */
  datatype Individu = Individu(numero: Json, enCharge: Json, categorie: Json, extras: Option<Props>, deleted: bool)

  function ExtrasOf(row: Individu): Props {
    OptionOr(row.extras, [])
  }

  /** The `individu` argument; a field that is `None` is `undefined`, a non-object `champs_supplementaires` is `None`. */
  datatype Request = Request(id: int, numero: Option<Json>, enCharge: Option<Json>, categorie: Option<Json>, extras: Option<Props>)

  /** `{ champ, ancienne_valeur, nouvelle_valeur }`; `None` is a null old value. */
  datatype AuditEntry = AuditEntry(champ: string, before: Option<string>, after: string)

  /** A row of `individu_audit`. */
  datatype AuditRow = AuditRow(individu: int, champ: string, before: Option<string>, after: string,
                               user: Json, action: string, importFile: Option<string>)

  /** An id field: null, '' and text that `parseInt` cannot read become null, anything else its integer. */
  function IdOf(v: Json): (r: Json)
    ensures r == JNull || r.JInt?
    ensures r.JInt? <==> v != JStr("") && ParseIntOf(v).Some?
    ensures r.JInt? ==> r.i == ParseIntOf(v).value
  {
    if v == JNull || v == JStr("") || ParseIntOf(v).None? then JNull else JInt(ParseIntOf(v).value)
  }

  /** The row an update stores: each field given replaces the old one, normalised; an absent field keeps the old value. */
  function UpdatedRow(prev: Individu, req: Request): (r: Individu)
    ensures req.numero.None? ==> r.numero == prev.numero
    ensures req.numero.Some? ==> r.numero == JStr(Trim(ShowOr(req.numero.value)))
    ensures r.enCharge == if req.enCharge.None? then prev.enCharge else IdOf(req.enCharge.value)
    ensures r.categorie == if req.categorie.None? then prev.categorie else IdOf(req.categorie.value)
    ensures r.extras == Some(OptionOr(req.extras, [])) && r.deleted == prev.deleted
  {
    Individu(
      if req.numero.None? then prev.numero else JStr(Trim(ShowOr(req.numero.value))),
      if req.enCharge.None? then prev.enCharge else IdOf(req.enCharge.value),
      if req.categorie.None? then prev.categorie else IdOf(req.categorie.value),
      Some(OptionOr(req.extras, [])),
      prev.deleted)
  }

  /** The entry for a core field, present iff `String(old || '')` and `String(new || '')` differ. */
  function CoreEntry(champ: string, before: Json, after: Json): (r: seq<AuditEntry>)
    ensures r != [] <==> ShowOr(before) != ShowOr(after)
    ensures r != [] ==> r == [AuditEntry(champ, Some(ShowOr(before)), ShowOr(after))]
    ensures !Truthy(before) && !Truthy(after) ==> r == []
  {
    if ShowOr(before) != ShowOr(after) then [AuditEntry(champ, Some(ShowOr(before)), ShowOr(after))] else []
  }

  function CoreEntries(prev: Individu, row: Individu): seq<AuditEntry> {
    CoreEntry("numero_unique", prev.numero, row.numero)
    + CoreEntry("en_charge", prev.enCharge, row.enCharge)
    + CoreEntry("categorie_id", prev.categorie, row.categorie)
  }

  /** The insertion order of a `Set` holding `order` after `add` of each of `ks` in turn. */
  function SetAdd(order: seq<string>, ks: seq<string>): seq<string>
  {
    if ks == [] then order
    else
      var o := SetAdd(order, ks[..|ks| - 1]);
      if ks[|ks| - 1] in o then o else o + [ks[|ks| - 1]]
  }

  lemma {:induction false} SetAddContents(order: seq<string>, ks: seq<string>)
    requires Distinct(order)
    ensures var r := SetAdd(order, ks);
      Distinct(r) && (forall k :: k in r <==> k in order || k in ks) && IsPrefixSeq(order, r)
  {
    if ks != [] {
      SetAddContents(order, ks[..|ks| - 1]);
      assert ks == ks[..|ks| - 1] + [ks[|ks| - 1]];
    }
  }

  predicate IsPrefixSeq(a: seq<string>, b: seq<string>) {
    |a| <= |b| && b[..|a|] == a
  }

  /** Adding distinct keys to an empty set keeps them in their own order. */
  lemma {:induction false} SetAddDistinct(ks: seq<string>)
    requires Distinct(ks)
    ensures SetAdd([], ks) == ks
  {
    if ks != [] {
      var init := ks[..|ks| - 1];
      SetAddDistinct(init);
      assert ks[|ks| - 1] !in init;
    }
  }

  /** `allSuppKeys`: the new object's keys, then the old object's keys not among them. */
  function UnionKeys(newP: Props, oldP: Props): seq<string> {
    SetAdd(SetAdd([], Keys(newP)), Keys(oldP))
  }

  lemma UnionKeysContents(newP: Props, oldP: Props)
    ensures var u := UnionKeys(newP, oldP);
      Distinct(u) && forall k :: k in u <==> k in Keys(newP) || k in Keys(oldP)
  {
    SetAddContents([], Keys(newP));
    SetAddContents(SetAdd([], Keys(newP)), Keys(oldP));
  }

  /** The entry for an extra field, present iff the two stringified values differ, a missing one counting as ''. */
  function ExtraEntry(key: string, oldP: Props, newP: Props): (r: seq<AuditEntry>)
    ensures |r| <= 1 && forall e :: e in r ==> e.champ == key
  {
    var a := ShowMissing(Get(oldP, key));
    var b := ShowMissing(Get(newP, key));
    if a != b then [AuditEntry(key, Some(a), b)] else []
  }

  function ExtraEntries(ks: seq<string>, oldP: Props, newP: Props): seq<AuditEntry>
  {
    if ks == [] then []
    else ExtraEntries(ks[..|ks| - 1], oldP, newP) + ExtraEntry(ks[|ks| - 1], oldP, newP)
  }

  /** Whether the stringified values of `key` differ, a missing property counting as ''. */
  predicate Differs(key: string, oldP: Props, newP: Props) {
    ShowMissing(Get(oldP, key)) != ShowMissing(Get(newP, key))
  }

  lemma {:induction false} ExtraEntriesMembers(ks: seq<string>, oldP: Props, newP: Props, e: AuditEntry)
    ensures e in ExtraEntries(ks, oldP, newP) <==>
      e.champ in ks && Differs(e.champ, oldP, newP)
      && e == AuditEntry(e.champ, Some(ShowMissing(Get(oldP, e.champ))), ShowMissing(Get(newP, e.champ)))
  {
    if ks != [] {
      var init := ks[..|ks| - 1];
      ExtraEntriesMembers(init, oldP, newP, e);
      assert ks == init + [ks[|ks| - 1]];
    }
  }

  /** Every audit entry an update records, in order. */
  function UpdateEntries(prev: Individu, row: Individu): seq<AuditEntry> {
    CoreEntries(prev, row) + ExtraEntries(UnionKeys(ExtrasOf(row), ExtrasOf(prev)), ExtrasOf(prev), ExtrasOf(row))
  }

  /**
   * An update records an entry for an extra field iff the field is a key of
   * the old or of the new object and its two stringified values differ; the
   * entry carries both values.
   */
  lemma UpdateExtraEntry(prev: Individu, row: Individu, key: string)
    requires key != "numero_unique" && key != "en_charge" && key != "categorie_id"
    ensures var oldP, newP := ExtrasOf(prev), ExtrasOf(row);
      AuditEntry(key, Some(ShowMissing(Get(oldP, key))), ShowMissing(Get(newP, key))) in UpdateEntries(prev, row)
      <==> (key in Keys(oldP) || key in Keys(newP)) && Differs(key, oldP, newP)
  {
    var oldP, newP := ExtrasOf(prev), ExtrasOf(row);
    UnionKeysContents(newP, oldP);
    ExtraEntriesMembers(UnionKeys(newP, oldP), oldP, newP,
      AuditEntry(key, Some(ShowMissing(Get(oldP, key))), ShowMissing(Get(newP, key))));
  }

  lemma {:induction false} ExtraEntriesChamps(ks: seq<string>, oldP: Props, newP: Props, e: AuditEntry)
    requires e in ExtraEntries(ks, oldP, newP)
    ensures e.champ in ks
  {
    var init := ks[..|ks| - 1];
    if e in ExtraEntries(init, oldP, newP) {
      ExtraEntriesChamps(init, oldP, newP, e);
    }
  }

  /** No two entries name the same field. */
  predicate ChampsDistinct(es: seq<AuditEntry>) {
    forall i, j :: 0 <= i < j < |es| ==> es[i].champ != es[j].champ
  }

  /** An extra field is recorded at most once. */
  lemma {:induction false} ExtraEntriesDistinct(ks: seq<string>, oldP: Props, newP: Props)
    requires Distinct(ks)
    ensures ChampsDistinct(ExtraEntries(ks, oldP, newP))
  {
    if ks != [] {
      var init, last := ks[..|ks| - 1], ks[|ks| - 1];
      assert Distinct(init) by {
        forall i, j | 0 <= i < j < |init|
          ensures init[i] != init[j]
        {
          assert init[i] == ks[i] && init[j] == ks[j];
        }
      }
      assert last !in init by {
        forall i | 0 <= i < |init|
          ensures init[i] != last
        {
          assert init[i] == ks[i];
        }
      }
      ExtraEntriesDistinct(init, oldP, newP);
      var es := ExtraEntries(init, oldP, newP);
      var tail := ExtraEntry(last, oldP, newP);
      forall e | e in es
        ensures e.champ != last
      {
        ExtraEntriesChamps(init, oldP, newP, e);
      }
      var all := es + tail;
      forall i, j | 0 <= i < j < |all|
        ensures all[i].champ != all[j].champ
      {
        if j >= |es| {
          assert all[j] == tail[0] && tail[0] in tail && all[i] == es[i] && es[i] in es;
        } else {
          assert all[i] == es[i] && all[j] == es[j];
        }
      }
      assert ExtraEntries(ks, oldP, newP) == all;
    }
  }

  /** Storing a row over itself records nothing. */
  lemma {:induction false} ExtraEntriesSame(ks: seq<string>, p: Props)
    ensures ExtraEntries(ks, p, p) == []
  {
    if ks != [] {
      ExtraEntriesSame(ks[..|ks| - 1], p);
    }
  }

  lemma UpdateUnchanged(row: Individu)
    ensures UpdateEntries(row, row) == []
  {
    ExtraEntriesSame(UnionKeys(ExtrasOf(row), ExtrasOf(row)), ExtrasOf(row));
  }

  /** The audit diff of an update, built as the source builds it: three tests, a key set, then one test per key. */
  method DiffUpdate(prev: Individu, row: Individu) returns (entries: seq<AuditEntry>)
    ensures entries == UpdateEntries(prev, row)
  {
    entries := [];
    if ShowOr(prev.numero) != ShowOr(row.numero) {
      entries := entries + [AuditEntry("numero_unique", Some(ShowOr(prev.numero)), ShowOr(row.numero))];
    }
    if ShowOr(prev.enCharge) != ShowOr(row.enCharge) {
      entries := entries + [AuditEntry("en_charge", Some(ShowOr(prev.enCharge)), ShowOr(row.enCharge))];
    }
    if ShowOr(prev.categorie) != ShowOr(row.categorie) {
      entries := entries + [AuditEntry("categorie_id", Some(ShowOr(prev.categorie)), ShowOr(row.categorie))];
    }
    assert entries == CoreEntries(prev, row);
    var oldP, newP := ExtrasOf(prev), ExtrasOf(row);
    var all := CollectKeys(newP, oldP);
    var extra := DiffExtras(all, oldP, newP);
    entries := entries + extra;
  }

  /** `allSuppKeys`, filled from the new object's keys and then the old one's. */
  method CollectKeys(newP: Props, oldP: Props) returns (all: seq<string>)
    ensures all == UnionKeys(newP, oldP)
  {
    all := [];
    var seen: set<string> := {};
    var newKeys := Keys(newP);
    for i := 0 to |newKeys|
      invariant all == SetAdd([], newKeys[..i])
      invariant seen == set k | k in all
    {
      assert newKeys[..i + 1][..i] == newKeys[..i];
      if newKeys[i] !in seen {
        all := all + [newKeys[i]];
        seen := seen + {newKeys[i]};
      }
    }
    assert newKeys[..|newKeys|] == newKeys;
    var base := all;
    var oldKeys := Keys(oldP);
    for i := 0 to |oldKeys|
      invariant all == SetAdd(base, oldKeys[..i])
      invariant seen == set k | k in all
    {
      assert oldKeys[..i + 1][..i] == oldKeys[..i];
      if oldKeys[i] !in seen {
        all := all + [oldKeys[i]];
        seen := seen + {oldKeys[i]};
      }
    }
    assert oldKeys[..|oldKeys|] == oldKeys;
  }

  /** One test per key of `allSuppKeys`. */
  method DiffExtras(all: seq<string>, oldP: Props, newP: Props) returns (entries: seq<AuditEntry>)
    ensures entries == ExtraEntries(all, oldP, newP)
  {
    entries := [];
    for i := 0 to |all|
      invariant entries == ExtraEntries(all[..i], oldP, newP)
    {
      assert all[..i + 1][..i] == all[..i];
      var a := ShowMissing(Get(oldP, all[i]));
      var b := ShowMissing(Get(newP, all[i]));
      if a != b {
        entries := entries + [AuditEntry(all[i], Some(a), b)];
      }
    }
    assert all[..|all|] == all;
  }

  /** The row a creation inserts: trimmed number, normalised ids, the extra fields as given (or `{}`). */
  function CreatedRow(req: Request): (r: Individu)
    ensures r.numero.JStr? && !r.deleted
    ensures r.enCharge == if req.enCharge.None? then JNull else IdOf(req.enCharge.value)
    ensures r.categorie == if req.categorie.None? then JNull else IdOf(req.categorie.value)
    ensures r.extras == Some(OptionOr(req.extras, []))
  {
    var n := Trim(ShowOr(OptionOr(req.numero, JNull)));
    Individu(
      JStr(n),
      if req.enCharge.None? then JNull else IdOf(req.enCharge.value),
      if req.categorie.None? then JNull else IdOf(req.categorie.value),
      Some(OptionOr(req.extras, [])),
      false)
  }

  /** The number a creation stores is trimmed. */
  lemma CreatedNumeroTrimmed(req: Request)
    ensures Trim(CreatedRow(req).numero.s) == CreatedRow(req).numero.s
  {
    TrimIdempotent(ShowOr(OptionOr(req.numero, JNull)));
  }

  /** The creation entry for one extra property: only a value that is not null and does not show as ''. */
  function CreatedExtra(key: string, v: Json): (r: seq<AuditEntry>)
  {
    if v != JNull && Show(v) != "" then [AuditEntry(key, None, Show(v))] else []
  }

  function CreatedExtras(ps: Props): seq<AuditEntry>
  {
    if ps == [] then []
    else CreatedExtras(ps[..|ps| - 1]) + CreatedExtra(ps[|ps| - 1].0, ps[|ps| - 1].1)
  }

  /** The entries of a creation, in order: the number, the two ids, then the extra properties. */
  function CreationEntries(row: Individu): seq<AuditEntry>
    requires row.numero.JStr?
  {
    (if row.numero.s != "" then [AuditEntry("numero_unique", None, row.numero.s)] else [])
    + (if row.enCharge != JNull then [AuditEntry("en_charge", None, Show(row.enCharge))] else [])
    + (if row.categorie != JNull then [AuditEntry("categorie_id", None, Show(row.categorie))] else [])
    + CreatedExtras(ExtrasOf(row))
  }

  lemma {:induction false} CreatedExtrasMembers(ps: Props, e: AuditEntry)
    ensures e in CreatedExtras(ps) <==>
      exists i :: 0 <= i < |ps| && ps[i].1 != JNull && Show(ps[i].1) != "" && e == AuditEntry(ps[i].0, None, Show(ps[i].1))
  {
    if ps != [] {
      var init := ps[..|ps| - 1];
      CreatedExtrasMembers(init, e);
      if e in CreatedExtras(init) {
        var i :| 0 <= i < |init| && init[i].1 != JNull && Show(init[i].1) != "" && e == AuditEntry(init[i].0, None, Show(init[i].1));
        assert ps[i] == init[i];
      }
      if exists i :: 0 <= i < |ps| && ps[i].1 != JNull && Show(ps[i].1) != "" && e == AuditEntry(ps[i].0, None, Show(ps[i].1)) {
        var i :| 0 <= i < |ps| && ps[i].1 != JNull && Show(ps[i].1) != "" && e == AuditEntry(ps[i].0, None, Show(ps[i].1));
        if i < |init| {
          assert init[i] == ps[i];
        }
      }
    }
  }

  /**
   * A creation records only values: every entry has a null old value and a
   * non-empty new value.
   */
  lemma CreationEntriesShape(row: Individu, e: AuditEntry)
    requires row.numero.JStr? && (row.enCharge == JNull || row.enCharge.JInt?)
    requires row.categorie == JNull || row.categorie.JInt?
    requires e in CreationEntries(row)
    ensures e.before == None && e.after != ""
  {
    var extras := CreatedExtras(ExtrasOf(row));
    var core := CreationEntries(row)[..|CreationEntries(row)| - |extras|];
    assert CreationEntries(row) == core + extras;
    if e in extras {
      CreatedExtrasMembers(ExtrasOf(row), e);
    } else {
      assert e in core;
    }
  }

  lemma CreatedRowEntries(req: Request, e: AuditEntry)
    requires e in CreationEntries(CreatedRow(req))
    ensures e.before == None && e.after != ""
  {
    CreationEntriesShape(CreatedRow(req), e);
  }

  /** The creation audit, built as the source builds it: three tests, then one test per property. */
  method DiffCreate(row: Individu) returns (entries: seq<AuditEntry>)
    requires row.numero.JStr?
    ensures entries == CreationEntries(row)
  {
    entries := [];
    if row.numero.s != "" {
      entries := entries + [AuditEntry("numero_unique", None, row.numero.s)];
    }
    if row.enCharge != JNull {
      entries := entries + [AuditEntry("en_charge", None, Show(row.enCharge))];
    }
    if row.categorie != JNull {
      entries := entries + [AuditEntry("categorie_id", None, Show(row.categorie))];
    }
    var extra := DiffCreatedExtras(ExtrasOf(row));
    entries := entries + extra;
  }

  method DiffCreatedExtras(ps: Props) returns (entries: seq<AuditEntry>)
    ensures entries == CreatedExtras(ps)
  {
    entries := [];
    ghost var core := entries;
    for i := 0 to |ps|
      invariant entries == core + CreatedExtras(ps[..i])
    {
      assert ps[..i + 1][..i] == ps[..i];
      var (key, value) := ps[i];
      if value != JNull && Show(value) != "" {
        entries := entries + [AuditEntry(key, None, Show(value))];
      }
    }
    assert ps[..|ps|] == ps;
  }

  /** The audit rows written for a list of entries. */
  function AuditRows(id: int, entries: seq<AuditEntry>, user: Json, action: string, importFile: Option<string>): (r: seq<AuditRow>)
    ensures |r| == |entries|
    ensures forall k :: 0 <= k < |r| ==> r[k] == AuditRow(id, entries[k].champ, entries[k].before, entries[k].after, user, action, importFile)
  {
    seq(|entries|, k requires 0 <= k < |entries| =>
      AuditRow(id, entries[k].champ, entries[k].before, entries[k].after, user, action, importFile))
  }

  datatype Outcome = Outcome(id: int, changes: int, operationType: string)

  /** Every row with a number holds a different one (what a `UNIQUE` column guarantees). */
  predicate NumerosDistinct(rows: map<int, Individu>) {
    forall a, b :: a in rows && b in rows && a != b && rows[a].numero != JNull ==> rows[a].numero != rows[b].numero
  }

  /** `getIndividuByNumeroUnique`: some live row holds that number. */
  predicate TakenIn(rows: map<int, Individu>, n: string) {
    exists id :: id in rows && !rows[id].deleted && rows[id].numero == JStr(n)
  }

  /** Some row other than `id`, deleted or not, holds `numero`. */
  predicate HeldElsewhere(rows: map<int, Individu>, id: int, numero: Json) {
    exists other :: other in rows && other != id && rows[other].numero == numero
  }

  function DuplicateNumero(n: string): string {
    "Le numéro unique \"" + n + "\" existe déjà."
  }

  /** The message SQLite raises when the `UNIQUE` constraint on `numero_unique` would be broken. */
  const UniqueViolation := "UNIQUE constraint failed: individus.numero_unique"

  /** The message SQLite raises when a `REFERENCES` column names no row of its parent table. */
  const ForeignKeyViolation := "FOREIGN KEY constraint failed"

  /** A reference column that is not null and names none of `ids` (foreign keys are enforced). */
  predicate Dangles(v: Json, ids: set<int>) {
    v.JInt? && v.i !in ids
  }

  /**
   * The audit rows an insertion loop actually writes when the insert of
   * each row whose index is in `fails` throws and is logged and skipped.
   * The rows written keep their order.
   */
  function Inserted(rows: seq<AuditRow>, fails: set<nat>): (r: seq<AuditRow>)
    ensures |r| <= |rows|
    ensures forall x :: x in r ==> x in rows
    ensures forall k :: 0 <= k < |rows| && k !in fails ==> rows[k] in r
    ensures (forall k :: 0 <= k < |rows| ==> k !in fails) ==> r == rows
    ensures (forall k :: 0 <= k < |rows| ==> k in fails) ==> r == []
  {
    if rows == [] then []
    else
      var last := |rows| - 1;
      Inserted(rows[..last], fails) + (if last in fails then [] else [rows[last]])
  }

  /**
   * The `individus` and `individu_audit` tables. `uniqueNumero` records
   * whether the schema declares `numero_unique TEXT UNIQUE` (the newer copy
   * does; the older one does not). `userIds` and `categoryIds` are the ids
   * present in the `users` and `categories` tables (soft-deleted categories
   * included), which `en_charge`, `categorie_id` and the audit's
   * `utilisateur_id` reference.
   */
  class IndividuStore {
    const uniqueNumero: bool
    const userIds: set<int>
    const categoryIds: set<int>
    var rows: map<int, Individu>
    var audit: seq<AuditRow>

    constructor(uniqueNumero: bool, userIds: set<int>, categoryIds: set<int>)
      ensures this.uniqueNumero == uniqueNumero && this.userIds == userIds && this.categoryIds == categoryIds
      ensures rows == map[] && audit == []
    {
      this.uniqueNumero := uniqueNumero;
      this.userIds := userIds;
      this.categoryIds := categoryIds;
      rows := map[];
      audit := [];
    }

    /** `getIndividuById`: the row with that id unless it is soft-deleted. */
    function Live(id: int): (r: Option<Individu>)
      reads this
      ensures r.Some? <==> id in rows && !rows[id].deleted
      ensures r.Some? ==> r.value == rows[id]
    {
      if id in rows && !rows[id].deleted then Some(rows[id]) else None
    }

    /** Writing `row` under `id` would break the `UNIQUE` constraint. */
    predicate Clashes(id: int, row: Individu)
      reads this
    {
      uniqueNumero && row.numero != JNull && HeldElsewhere(rows, id, row.numero)
    }

    /** Writing `row` would break a foreign key: its manager or its category does not exist. */
    predicate DanglingRef(row: Individu)
      reads this
    {
      Dangles(row.enCharge, userIds) || Dangles(row.categorie, categoryIds)
    }

    /**
     * The audit rows that reach the table: none when `user` names no user
     * (every insert breaks the `utilisateur_id` foreign key), otherwise
     * those whose insert does not fail for a reason given in `auditFails`.
     */
    function Logged(entries: seq<AuditRow>, user: Json, auditFails: set<nat>): (r: seq<AuditRow>)
      reads this
      ensures Dangles(user, userIds) ==> r == []
      ensures !Dangles(user, userIds) && auditFails == {} ==> r == entries
      ensures forall x :: x in r ==> x in entries
    {
      if Dangles(user, userIds) then [] else Inserted(entries, auditFails)
    }

    /**
     * `addOrUpdateIndividuLogicSync`. A non-zero `req.id` updates that live row;
     * otherwise a row is inserted under `newId`, the id SQLite assigns.
     * `auditFails` holds the indices of the audit entries whose insert throws
     * for a reason outside the model; each is logged and skipped.
     * Every other error rolls the transaction back.
     */
    method AddOrUpdate(req: Request, user: Json, isImport: bool, importFile: Option<string>, newId: int,
                       auditFails: set<nat>)
      returns (r: Result<Outcome, string>)
      requires newId !in rows
      modifies this
      ensures r.Err? ==> rows == old(rows) && audit == old(audit)
      ensures req.id != 0 ==> match old(Live(req.id))
        case None =>
          r == Err("Individu à mettre à jour (ID: " + IntToString(req.id) + ") non trouvé ou supprimé.")
        case Some(prev) => UpdateDone(req, prev, user, isImport, importFile, auditFails, r, old(rows), old(audit))
      ensures req.id == 0 ==> CreateDone(req, user, isImport, importFile, newId, auditFails, r, old(rows), old(audit))
    {
      if req.id != 0 {
        var found := Live(req.id);
        if found.None? {
          return Err("Individu à mettre à jour (ID: " + IntToString(req.id) + ") non trouvé ou supprimé.");
        }
        r := Update(req, found.value, user, isImport, importFile, auditFails);
      } else {
        r := Create(req, user, isImport, importFile, newId, auditFails);
      }
    }

    /**
     * What an update of the live row `prev` leaves behind: a `UNIQUE` clash,
     * a dangling reference, or the new row and the audit rows that were written.
     */
    ghost predicate UpdateDone(req: Request, prev: Individu, user: Json, isImport: bool, importFile: Option<string>,
                               auditFails: set<nat>, r: Result<Outcome, string>, rows0: map<int, Individu>, audit0: seq<AuditRow>)
      reads this
    {
      var row := UpdatedRow(prev, req);
      if uniqueNumero && row.numero != JNull && HeldElsewhere(rows0, req.id, row.numero) then
        r == Err(UniqueViolation) && rows == rows0 && audit == audit0
      else if Dangles(row.enCharge, userIds) || Dangles(row.categorie, categoryIds) then
        r == Err(ForeignKeyViolation) && rows == rows0 && audit == audit0
      else
        r == Ok(Outcome(req.id, 1, "update"))
        && rows == rows0[req.id := row]
        && audit == audit0 + Logged(AuditRows(req.id, UpdateEntries(prev, row), user,
                                              if isImport then "import_update" else "update", importFile), user, auditFails)
    }

    /**
     * What a creation leaves behind: a duplicate number, a `UNIQUE` clash,
     * a dangling reference, or the new row and the audit rows that were written.
     */
    ghost predicate CreateDone(req: Request, user: Json, isImport: bool, importFile: Option<string>, newId: int,
                               auditFails: set<nat>, r: Result<Outcome, string>, rows0: map<int, Individu>, audit0: seq<AuditRow>)
      reads this
    {
      var row := CreatedRow(req);
      var n := row.numero.s;
      if n != "" && TakenIn(rows0, n) then
        r == Err(DuplicateNumero(n)) && rows == rows0 && audit == audit0
      else if uniqueNumero && HeldElsewhere(rows0, newId, row.numero) then
        r == Err(UniqueViolation) && rows == rows0 && audit == audit0
      else if Dangles(row.enCharge, userIds) || Dangles(row.categorie, categoryIds) then
        r == Err(ForeignKeyViolation) && rows == rows0 && audit == audit0
      else
        r == Ok(Outcome(newId, 1, "create"))
        && rows == rows0[newId := row]
        && audit == audit0 + Logged(AuditRows(newId, CreationEntries(row), user,
                                              if isImport then "import_create" else "create", importFile), user, auditFails)
    }

    method Update(req: Request, prev: Individu, user: Json, isImport: bool, importFile: Option<string>, auditFails: set<nat>)
      returns (r: Result<Outcome, string>)
      modifies this
      ensures UpdateDone(req, prev, user, isImport, importFile, auditFails, r, old(rows), old(audit))
    {
      var row := UpdatedRow(prev, req);
      if Clashes(req.id, row) {
        return Err(UniqueViolation);
      }
      if DanglingRef(row) {
        return Err(ForeignKeyViolation);
      }
      rows := rows[req.id := row];
      var entries := DiffUpdate(prev, row);
      audit := audit + Logged(AuditRows(req.id, entries, user, if isImport then "import_update" else "update", importFile),
                              user, auditFails);
      r := Ok(Outcome(req.id, 1, "update"));
    }

    method Create(req: Request, user: Json, isImport: bool, importFile: Option<string>, newId: int, auditFails: set<nat>)
      returns (r: Result<Outcome, string>)
      modifies this
      ensures CreateDone(req, user, isImport, importFile, newId, auditFails, r, old(rows), old(audit))
    {
      var row := CreatedRow(req);
      if row.numero.s != "" && TakenIn(rows, row.numero.s) {
        return Err(DuplicateNumero(row.numero.s));
      }
      if Clashes(newId, row) {
        return Err(UniqueViolation);
      }
      if DanglingRef(row) {
        return Err(ForeignKeyViolation);
      }
      rows := rows[newId := row];
      var entries := DiffCreate(row);
      audit := audit + Logged(AuditRows(newId, entries, user, if isImport then "import_create" else "create", importFile),
                              user, auditFails);
      r := Ok(Outcome(newId, 1, "create"));
    }
  }

  /** With the `UNIQUE` column, writing a row that does not clash keeps every number distinct. */
  lemma WriteKeepsNumerosDistinct(rows: map<int, Individu>, id: int, row: Individu)
    requires NumerosDistinct(rows)
    requires row.numero == JNull || forall other :: other in rows && other != id ==> rows[other].numero != row.numero
    ensures NumerosDistinct(rows[id := row])
  {
  }
}
