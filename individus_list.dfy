/**
 * The list of individuals (`IndividusList`, in the renderer and in the older
 * `src/components` copy): the available field columns and their widths, the
 * "mine" view, the global search and the column filters, the sort and its
 * three-state header cycle, the column picker, and the paging of both copies.
 */
module IndividusList {
  import opened Wrappers
  import opened Text
  import opened JsonData
  import opened Sorting
  import DataTable

  /** A field definition of a category, as the list reads it. */
  datatype Champ = Champ(key: string, typ: string, fieldLabel: Option<string>, visible: bool, defaultShown: bool)

  datatype Category = Category(id: int, nom: string, champs: seq<Champ>)

  /** A field offered as a column, tagged with its category. */
  datatype Field = Field(champ: Champ, categoryId: int, categoryName: string)

  /** A user as `getUsers` lists them. */
  datatype UserRef = UserRef(id: int, username: string)

  /** One individual of the list; `enChargeUsername` is "" when the row has none. */
  datatype ListRow = ListRow(numero: Json, enCharge: Json, enChargeUsername: string, extras: map<string, Json>)

  datatype Direction = Ascending | Descending

  datatype SortConfig = SortConfig(key: string, direction: Direction)

  datatype ViewMode = All | Mine

  const ItemsPerPage: nat := 20

  // ---------------------------------------------------------------- columns

  function FindChamp(champs: seq<Champ>, key: string): (r: Option<Champ>)
    ensures r.Some? ==> r.value in champs && r.value.key == key
    ensures r.None? <==> forall c :: c in champs ==> c.key != key
  {
    if champs == [] then None
    else if champs[0].key == key then Some(champs[0])
    else FindChamp(champs[1..], key)
  }

  function FindField(fields: seq<Field>, key: string): (r: Option<Field>)
    ensures r.Some? ==> r.value in fields && r.value.champ.key == key
    ensures r.None? <==> forall f :: f in fields ==> f.champ.key != key
  {
    if fields == [] then None
    else if fields[0].champ.key == key then Some(fields[0])
    else FindField(fields[1..], key)
  }

  /** `champ.label?.length || 12`: a missing or empty label counts as twelve characters. */
  function LabelLength(c: Champ): (r: nat)
    ensures r > 0
    ensures c.fieldLabel.Some? && c.fieldLabel.value != [] ==> r == |c.fieldLabel.value|
  {
    if c.fieldLabel.Some? && c.fieldLabel.value != [] then |c.fieldLabel.value| else 12
  }

  /** `calculateColumnWidth`, in pixels. */
  function ColumnWidth(columnKey: string, champs: seq<Champ>): (r: nat)
    ensures columnKey == "actions" ==> r == 80
    ensures columnKey == "numero_unique" ==> r == 120
    ensures columnKey == "en_charge" ==> r == 150
    ensures 80 <= r <= 250
  {
    if columnKey == "actions" then 80
    else if columnKey == "numero_unique" then 120
    else if columnKey == "en_charge" then 150
    else match FindChamp(champs, columnKey)
      case None => 130
      case Some(c) =>
        if c.typ == "date" then 110
        else if c.typ == "boolean" then 80
        else if c.typ == "number" then 100
        else if c.typ == "list" then 140
        else Min(Max(120, LabelLength(c) * 8 + 40), 250)
  }

  /** The width table by field type, and the clamp of free-text columns to [120, 250] around 8 px a character plus 40. */
  lemma ColumnWidthByType(columnKey: string, champs: seq<Champ>, c: Champ)
    requires columnKey !in {"actions", "numero_unique", "en_charge"}
    requires FindChamp(champs, columnKey) == Some(c)
    ensures c.typ == "date" ==> ColumnWidth(columnKey, champs) == 110
    ensures c.typ == "boolean" ==> ColumnWidth(columnKey, champs) == 80
    ensures c.typ == "number" ==> ColumnWidth(columnKey, champs) == 100
    ensures c.typ == "list" ==> ColumnWidth(columnKey, champs) == 140
    ensures c.typ !in {"date", "boolean", "number", "list"} ==>
      120 <= ColumnWidth(columnKey, champs) <= 250
      && (10 <= LabelLength(c) <= 26 ==> ColumnWidth(columnKey, champs) == LabelLength(c) * 8 + 40)
      && (LabelLength(c) <= 10 ==> ColumnWidth(columnKey, champs) == 120)
      && (LabelLength(c) >= 27 ==> ColumnWidth(columnKey, champs) == 250)
  {
  }

  /** A column whose key names no known field is 130 px wide. */
  lemma UnknownColumnWidth(columnKey: string, champs: seq<Champ>)
    requires columnKey !in {"actions", "numero_unique", "en_charge"}
    requires forall c :: c in champs ==> c.key != columnKey
    ensures ColumnWidth(columnKey, champs) == 130
  {
  }

  function Champs(fields: seq<Field>): (r: seq<Champ>)
    ensures |r| == |fields| && forall i :: 0 <= i < |fields| ==> r[i] == fields[i].champ
  {
    seq(|fields|, i requires 0 <= i < |fields| => fields[i].champ)
  }

  /** The keys of the `columnWidths` table: the three fixed columns and each displayed column that names a field. */
  function WidthKeys(fields: seq<Field>, displayed: seq<string>): (r: set<string>)
    ensures forall k :: k in r <==> k in {"actions", "numero_unique", "en_charge"} || (k in displayed && FindField(fields, k).Some?)
  {
    {"actions", "numero_unique", "en_charge"} + (set k | k in displayed && FindField(fields, k).Some?)
  }

  /** The `columnWidths` table; every entry is the column's `calculateColumnWidth`. */
  function ColumnWidths(fields: seq<Field>, displayed: seq<string>): (r: map<string, nat>)
    ensures r.Keys == WidthKeys(fields, displayed)
    ensures forall k :: k in r ==> r[k] == ColumnWidth(k, Champs(fields))
  {
    map k | k in WidthKeys(fields, displayed) :: ColumnWidth(k, Champs(fields))
  }

  /** Whether `c` has a key and is visible, and no field already collected has its key. */
  predicate Offered(fields: seq<Field>, c: Champ) {
    c.key != [] && c.visible && FindField(fields, c.key).None?
  }

  /** The fields collected from `champs` of category `cat` on top of `fields`, one at a time. */
  function CollectChamps(fields: seq<Field>, cat: Category, champs: seq<Champ>): seq<Field>
  {
    if champs == [] then fields
    else
      var before := CollectChamps(fields, cat, champs[..|champs| - 1]);
      var c := champs[|champs| - 1];
      if Offered(before, c) then before + [Field(c, cat.id, cat.nom)] else before
  }

  /** The available fields of the categories, category by category. */
  function AvailableFields(cats: seq<Category>): seq<Field>
  {
    if cats == [] then []
    else
      var last := cats[|cats| - 1];
      CollectChamps(AvailableFields(cats[..|cats| - 1]), last, last.champs)
  }

  /** The field-collection loops of `loadData`. */
  method CollectFields(cats: seq<Category>) returns (fields: seq<Field>)
    ensures fields == AvailableFields(cats)
  {
    fields := [];
    var i := 0;
    while i < |cats|
      invariant 0 <= i <= |cats|
      invariant fields == AvailableFields(cats[..i])
    {
      var cat := cats[i];
      var base := fields;
      var j := 0;
      while j < |cat.champs|
        invariant 0 <= j <= |cat.champs|
        invariant fields == CollectChamps(base, cat, cat.champs[..j])
      {
        var c := cat.champs[j];
        if c.key != [] && c.visible && FindField(fields, c.key).None? {
          fields := fields + [Field(c, cat.id, cat.nom)];
        }
        assert cat.champs[..j + 1][..j] == cat.champs[..j];
        j := j + 1;
      }
      assert cat.champs[..j] == cat.champs;
      assert cats[..i + 1][..i] == cats[..i];
      i := i + 1;
    }
    assert cats[..i] == cats;
  }

  predicate KeysDistinct(fields: seq<Field>) {
    forall i, j :: 0 <= i < j < |fields| ==> fields[i].champ.key != fields[j].champ.key
  }

  predicate AllOffered(fields: seq<Field>) {
    forall i :: 0 <= i < |fields| ==> fields[i].champ.key != [] && fields[i].champ.visible
  }

  lemma {:induction false} CollectChampsKeeps(fields: seq<Field>, cat: Category, champs: seq<Champ>)
    requires KeysDistinct(fields) && AllOffered(fields)
    ensures KeysDistinct(CollectChamps(fields, cat, champs)) && AllOffered(CollectChamps(fields, cat, champs))
    ensures forall c :: c in champs && c.key != [] && c.visible ==> FindField(CollectChamps(fields, cat, champs), c.key).Some?
    ensures forall f :: f in fields ==> f in CollectChamps(fields, cat, champs)
  {
    if champs != [] {
      var p := champs[..|champs| - 1];
      CollectChampsKeeps(fields, cat, p);
      var before := CollectChamps(fields, cat, p);
      var c := champs[|champs| - 1];
      if Offered(before, c) {
        var after := before + [Field(c, cat.id, cat.nom)];
        forall x | x in champs && x.key != [] && x.visible
          ensures FindField(after, x.key).Some?
        {
          if x in p {
            var f := FindField(before, x.key).value;
            assert f in after;
          } else {
            assert x == c;
            assert after[|after| - 1].champ.key == x.key;
          }
        }
      } else {
        forall x | x in champs && x.key != [] && x.visible
          ensures FindField(before, x.key).Some?
        {
          if x !in p {
            assert x == c;
          }
        }
      }
    }
  }

  /**
   * The available fields have distinct, non-empty keys and are all visible,
   * and every visible keyed field of any category is offered under its key.
   */
  lemma {:induction false} AvailableFieldsSpec(cats: seq<Category>)
    ensures KeysDistinct(AvailableFields(cats)) && AllOffered(AvailableFields(cats))
    ensures forall i, c :: 0 <= i < |cats| && c in cats[i].champs && c.key != [] && c.visible ==>
      FindField(AvailableFields(cats), c.key).Some?
  {
    if cats != [] {
      var p := cats[..|cats| - 1];
      var last := cats[|cats| - 1];
      AvailableFieldsSpec(p);
      var before := AvailableFields(p);
      CollectChampsKeeps(before, last, last.champs);
      forall i, c | 0 <= i < |cats| && c in cats[i].champs && c.key != [] && c.visible
        ensures FindField(AvailableFields(cats), c.key).Some?
      {
        if i < |cats| - 1 {
          assert cats[i] == p[i];
          var f := FindField(before, c.key).value;
          assert f in AvailableFields(cats);
        }
      }
    }
  }

  /** `config.filter(key => fields.some(f => f.key === key))`. */
  function Prune(config: seq<string>, fields: seq<Field>): (r: seq<string>)
    ensures |r| <= |config|
    ensures forall k :: k in r <==> k in config && FindField(fields, k).Some?
  {
    if config == [] then []
    else (if FindField(fields, config[0]).Some? then [config[0]] else []) + Prune(config[1..], fields)
  }

  /** Pruning that removes nothing leaves the configuration as it was. */
  lemma {:induction false} PruneSameLength(config: seq<string>, fields: seq<Field>)
    requires |Prune(config, fields)| == |config|
    ensures Prune(config, fields) == config
  {
    if config != [] && FindField(fields, config[0]).Some? {
      PruneSameLength(config[1..], fields);
    }
  }

  /** The fields shown by default, in order. */
  function DefaultColumns(fields: seq<Field>): (r: seq<string>)
    ensures forall k :: k in r <==> exists f :: f in fields && f.champ.defaultShown && f.champ.key == k
  {
    if fields == [] then []
    else
      (if fields[0].champ.defaultShown then [fields[0].champ.key] else []) + DefaultColumns(fields[1..])
  }

  /**
   * The displayed columns after `loadData`. `stored` is the saved column list
   * when it parses as an array; an initially empty list is filled from it (or
   * from the defaults), and a non-empty one is pruned to the fields that exist.
   */
  function ColumnsAfterLoad(displayed: seq<string>, fields: seq<Field>, stored: Option<seq<string>>): (r: seq<string>)
    ensures displayed == [] && fields == [] ==> r == []
    ensures displayed == [] && fields != [] && stored.Some? ==> r == Prune(stored.value, fields)
    ensures displayed == [] && fields != [] && stored.None? ==> r == DefaultColumns(fields)
    ensures displayed != [] ==> r == Prune(displayed, fields)
  {
    if displayed == [] && fields != [] then
      (match stored
       case Some(config) => Prune(config, fields)
       case None =>
         var d := DefaultColumns(fields);
         if d != [] then d else displayed)
    else if displayed != [] then
      var valid := Prune(displayed, fields);
      if |valid| != |displayed| then valid
      else
        PruneSameLength(displayed, fields);
        displayed
    else displayed
  }

  /** After loading, every displayed column names an available field. */
  lemma ColumnsAfterLoadValid(displayed: seq<string>, fields: seq<Field>, stored: Option<seq<string>>)
    ensures forall k :: k in ColumnsAfterLoad(displayed, fields, stored) ==> FindField(fields, k).Some?
  {
    if displayed == [] && fields != [] && stored.None? {
      forall k | k in DefaultColumns(fields) ensures FindField(fields, k).Some? {
        var f :| f in fields && f.champ.defaultShown && f.champ.key == k;
      }
    }
  }

  /** `handleToggleColonne`. */
  function ToggleColumn(displayed: seq<string>, key: string): (r: seq<string>)
    ensures key in r <==> key !in displayed
    ensures forall k :: k != key ==> (k in r <==> k in displayed)
    ensures key !in displayed ==> r == displayed + [key]
  {
    if key in displayed then RemoveKey(displayed, key) else displayed + [key]
  }

  function RemoveKey(s: seq<string>, key: string): (r: seq<string>)
    ensures forall k :: k in r <==> k in s && k != key
    ensures key !in s ==> r == s
  {
    if s == [] then []
    else (if s[0] == key then [] else [s[0]]) + RemoveKey(s[1..], key)
  }

  /** Toggling a column that was hidden, then toggling it again, restores the list. */
  lemma ToggleTwice(displayed: seq<string>, key: string)
    requires key !in displayed
    ensures ToggleColumn(ToggleColumn(displayed, key), key) == displayed
  {
    RemoveLast(displayed, key);
  }

  lemma {:induction false} RemoveLast(s: seq<string>, key: string)
    requires key !in s
    ensures RemoveKey(s + [key], key) == s
  {
    if s != [] {
      assert (s + [key])[1..] == s[1..] + [key];
      RemoveLast(s[1..], key);
      assert [s[0]] + s[1..] == s;
    }
  }

  // -------------------------------------------------------------------- sort

  /** `handleSort`: the header cycle none, ascending, descending, none on one key; a new key starts ascending. */
  function NextSort(current: Option<SortConfig>, key: string): (r: Option<SortConfig>)
    ensures (current.None? || current.value.key != key) ==> r == Some(SortConfig(key, Ascending))
    ensures current == Some(SortConfig(key, Ascending)) ==> r == Some(SortConfig(key, Descending))
    ensures current == Some(SortConfig(key, Descending)) ==> r == None
  {
    if current.Some? && current.value.key == key then
      if current.value.direction == Ascending then Some(SortConfig(key, Descending)) else None
    else Some(SortConfig(key, Ascending))
  }

  /** Three clicks on the same header return to the unsorted state. */
  lemma SortCycle(current: Option<SortConfig>, key: string)
    requires current.None? || current.value.key == key
    ensures NextSort(NextSort(NextSort(current, key), key), key) == current
  {
  }

  // ---------------------------------------------------------------- user names

  /** A text `Number()` reads as an integer: optional sign and decimal digits, after trimming; blank text is 0. */
  function IntegerText(s: string): (r: Option<int>)
  {
    var t := Trim(s);
    if t == [] then Some(0)
    else
      var neg := t[0] == '-';
      var body := if t[0] == '-' || t[0] == '+' then t[1..] else t;
      if body != [] && AllDigits(body) then
        var v: int := DigitsValue(body);
        Some(if neg then -v else v)
      else None
  }

  /** `Number(v)` for blank text and signed decimal digits; any other text is `None`, which equals no user id. */
  function NumberOf(v: Json): (r: Option<int>)
    ensures v.JInt? ==> r == Some(v.i)
    ensures v.JNull? ==> r == Some(0)
  {
    match v
    case JNull => Some(0)
    case JBool(b) => Some(if b then 1 else 0)
    case JInt(i) => Some(i)
    case JStr(s) => IntegerText(s)
  }

  function FindUser(users: seq<UserRef>, id: int): (r: Option<UserRef>)
    ensures r.Some? ==> r.value in users && r.value.id == id
    ensures r.None? <==> forall u :: u in users ==> u.id != id
  {
    if users == [] then None
    else if users[0].id == id then Some(users[0])
    else FindUser(users[1..], id)
  }

  predicate Unassigned(userId: Json) {
    userId == JNull || userId == JStr("")
  }

  /** `getUserName(userId, ind)` of the list. */
  function UserName(users: seq<UserRef>, userId: Json, enChargeUsername: string): (r: string)
  {
    if Unassigned(userId) then "Non assigné"
    else
      var found := if NumberOf(userId).Some? then FindUser(users, NumberOf(userId).value) else None;
      if found.Some? then found.value.username
      else if enChargeUsername != [] then enChargeUsername
      else "Utilisateur #" + Show(userId)
  }

  /** The name lookup: unassigned, then a listed user, then the row's own name, then a placeholder. */
  lemma UserNameCases(users: seq<UserRef>, userId: Json, enChargeUsername: string)
    ensures Unassigned(userId) ==> UserName(users, userId, enChargeUsername) == "Non assigné"
    ensures userId.JInt? && FindUser(users, userId.i).Some? ==>
      UserName(users, userId, enChargeUsername) == FindUser(users, userId.i).value.username
    ensures userId.JInt? && FindUser(users, userId.i).None? && enChargeUsername != [] ==>
      UserName(users, userId, enChargeUsername) == enChargeUsername
    ensures userId.JInt? && FindUser(users, userId.i).None? && enChargeUsername == [] ==>
      UserName(users, userId, enChargeUsername) == "Utilisateur #" + IntToString(userId.i)
  {
  }

  // ----------------------------------------------------------------- filters

  /** `String(currentUserId)`, where `None` is NaN. */
  function UserIdText(currentUserId: Option<int>): (r: string)
    ensures currentUserId.Some? ==> r == IntToString(currentUserId.value)
  {
    if currentUserId.Some? then IntToString(currentUserId.value) else "NaN"
  }

  /** The lower-cased, trimmed search term of a filter text. */
  function Term(text: string): string {
    Trim(Lower(text))
  }

  /** `value && value.trim() !== ''`: a filter text is applied only when it is not empty and not blank. */
  predicate Active(text: string) {
    text != [] && Trim(text) != []
  }

  /** An active filter text is one with a non-space character. */
  lemma ActiveIffNotBlank(text: string)
    ensures Active(text) <==> !IsBlank(text)
  {
  }

  predicate Found(text: string, term: string) {
    Contains(Lower(text), term)
  }

  /** The global search: the numéro, the name of the person in charge, or any extra value. */
  predicate SearchMatches(users: seq<UserRef>, r: ListRow, term: string) {
    Found(ShowOr(r.numero), term)
    || Found(UserName(users, r.enCharge, r.enChargeUsername), term)
    || exists k :: k in r.extras && Found(ShowOr(r.extras[k]), term)
  }

  /** One column filter's test. */
  predicate ColumnMatches(users: seq<UserRef>, r: ListRow, key: string, term: string) {
    if key == "numero_unique" then Found(ShowOr(r.numero), term)
    else if key == "en_charge" then Found(UserName(users, r.enCharge, r.enChargeUsername), term)
    else Found(if key in r.extras then ShowOr(r.extras[key]) else "", term)
  }

  /** One entry of `columnFilters`: blank text filters nothing. */
  predicate ColumnOk(users: seq<UserRef>, r: ListRow, f: (string, string)) {
    !Active(f.1) || ColumnMatches(users, r, f.0, Term(f.1))
  }

  /** Every element of `xs` passes `ok`, read from the last one back. */
  predicate All<T>(xs: seq<T>, ok: T -> bool) {
    xs == [] || (All(xs[..|xs| - 1], ok) && ok(xs[|xs| - 1]))
  }

  lemma {:induction false} AllEvery<T>(xs: seq<T>, ok: T -> bool)
    ensures All(xs, ok) <==> forall i :: 0 <= i < |xs| ==> ok(xs[i])
  {
    if xs != [] {
      var p := xs[..|xs| - 1];
      AllEvery(p, ok);
      assert forall i :: 0 <= i < |p| ==> p[i] == xs[i];
    }
  }

  /** Every active column filter holds; the filters are conjunctive (see `ColumnsMatchAll`). */
  predicate ColumnsMatch(users: seq<UserRef>, r: ListRow, filters: seq<(string, string)>) {
    All(filters, (f: (string, string)) => ColumnOk(users, r, f))
  }

  lemma ColumnsMatchAll(users: seq<UserRef>, r: ListRow, filters: seq<(string, string)>)
    ensures ColumnsMatch(users, r, filters) <==> forall i :: 0 <= i < |filters| ==> ColumnOk(users, r, filters[i])
  {
    AllEvery(filters, (f: (string, string)) => ColumnOk(users, r, f));
  }

  /** One more filter at the end narrows the conjunction by that filter alone. */
  lemma ColumnsMatchSnoc(users: seq<UserRef>, r: ListRow, filters: seq<(string, string)>, f: (string, string))
    ensures ColumnsMatch(users, r, filters + [f]) == (ColumnsMatch(users, r, filters) && ColumnOk(users, r, f))
  {
    assert (filters + [f])[..|filters|] == filters;
  }

  /** The tests of the successive `result.filter(...)` stages, as function values. */
  function MineTest(idText: string): ListRow -> bool {
    (x: ListRow) => Show(x.enCharge) == idText
  }

  function SearchTest(users: seq<UserRef>, term: string): ListRow -> bool {
    (x: ListRow) => SearchMatches(users, x, term)
  }

  function ColumnTest(users: seq<UserRef>, key: string, term: string): ListRow -> bool {
    (x: ListRow) => ColumnMatches(users, x, key, term)
  }

  function ColumnsTest(users: seq<UserRef>, filters: seq<(string, string)>): ListRow -> bool {
    (x: ListRow) => ColumnsMatch(users, x, filters)
  }

  /** `rows.filter(p)`: the rows that pass, in their order. */
  function Keep<T>(rows: seq<T>, p: T -> bool): (r: seq<T>)
    ensures |r| <= |rows|
  {
    if rows == [] then [] else (if p(rows[0]) then [rows[0]] else []) + Keep(rows[1..], p)
  }

  /** Filtering only drops rows: the kept rows are a sub-multiset of the rows. */
  lemma {:induction false} KeepSub<T>(rows: seq<T>, p: T -> bool)
    ensures multiset(Keep(rows, p)) <= multiset(rows)
  {
    if rows != [] {
      KeepSub(rows[1..], p);
      assert rows == [rows[0]] + rows[1..];
    }
  }

  /** A row is kept iff it is one of the rows and passes the test. */
  lemma {:induction false} KeepMembers<T>(rows: seq<T>, p: T -> bool, x: T)
    ensures x in Keep(rows, p) <==> x in rows && p(x)
  {
    if rows != [] {
      KeepMembers(rows[1..], p, x);
      assert rows == [rows[0]] + rows[1..];
    }
  }

  /** Filtering by `p`, then by `q`, is filtering by their conjunction. */
  lemma {:induction false} KeepKeep<T>(rows: seq<T>, p: T -> bool, q: T -> bool, pq: T -> bool)
    requires forall x :: pq(x) == (p(x) && q(x))
    ensures Keep(Keep(rows, p), q) == Keep(rows, pq)
  {
    if rows != [] {
      var x, t := rows[0], rows[1..];
      KeepKeep(t, p, q, pq);
      if p(x) {
        var k := [x] + Keep(t, p);
        assert Keep(rows, p) == k;
        assert k[0] == x && k[1..] == Keep(t, p);
        assert Keep(k, q) == (if q(x) then [x] else []) + Keep(Keep(t, p), q);
      } else {
        assert Keep(rows, p) == Keep(t, p);
      }
    }
  }

  /** Filters that agree on every row keep the same rows. */
  lemma {:induction false} KeepSame<T>(rows: seq<T>, p: T -> bool, q: T -> bool)
    requires forall x :: p(x) == q(x)
    ensures Keep(rows, p) == Keep(rows, q)
  {
    if rows != [] {
      KeepSame(rows[1..], p, q);
    }
  }

  /** A test every row passes keeps all rows. */
  lemma {:induction false} KeepAll<T>(rows: seq<T>, p: T -> bool)
    requires forall x :: p(x)
    ensures Keep(rows, p) == rows
  {
    if rows != [] {
      KeepAll(rows[1..], p);
      assert [rows[0]] + rows[1..] == rows;
    }
  }

  /** One more column filter narrows the conjunction by exactly that filter; a blank one changes nothing. */
  lemma KeepColumnStep(users: seq<UserRef>, rows: seq<ListRow>, filters: seq<(string, string)>, key: string, text: string)
    ensures Active(text) ==>
      Keep(Keep(rows, ColumnsTest(users, filters)), ColumnTest(users, key, Term(text)))
        == Keep(rows, ColumnsTest(users, filters + [(key, text)]))
    ensures !Active(text) ==> Keep(rows, ColumnsTest(users, filters)) == Keep(rows, ColumnsTest(users, filters + [(key, text)]))
  {
    var all, one, more := ColumnsTest(users, filters), ColumnTest(users, key, Term(text)), ColumnsTest(users, filters + [(key, text)]);
    forall x ensures more(x) == (all(x) && (!Active(text) || one(x))) {
      ColumnsMatchSnoc(users, x, filters, (key, text));
    }
    if Active(text) {
      KeepKeep(rows, all, one, more);
    } else {
      KeepSame(rows, all, more);
    }
  }

  /** The comparison text of the sort: null or missing as "", everything else lower-cased. */
  function SortText(users: seq<UserRef>, r: ListRow, key: string): string {
    var v: Option<Json> :=
      if key == "numero_unique" then Some(r.numero)
      else if key == "en_charge" then Some(JStr(UserName(users, r.enCharge, r.enChargeUsername)))
      else if key in r.extras then Some(r.extras[key])
      else None;
    if v.None? || v.value.JNull? then "" else Lower(Show(v.value))
  }

  /** The comparator of `result.sort`, read as "may come first". */
  function RowOrder(users: seq<UserRef>, cfg: SortConfig): (le: (ListRow, ListRow) -> bool)
    ensures forall a, b :: le(a, b) == if cfg.direction == Ascending then LexLe(SortText(users, a, cfg.key), SortText(users, b, cfg.key))
      else LexLe(SortText(users, b, cfg.key), SortText(users, a, cfg.key))
  {
    (a, b) => if cfg.direction == Ascending then LexLe(SortText(users, a, cfg.key), SortText(users, b, cfg.key))
      else LexLe(SortText(users, b, cfg.key), SortText(users, a, cfg.key))
  }

  lemma RowOrderTotal(users: seq<UserRef>, cfg: SortConfig)
    ensures TotalPreorder(RowOrder(users, cfg))
  {
    var le := RowOrder(users, cfg);
    forall a, b ensures le(a, b) || le(b, a) {
      LexTotal(SortText(users, a, cfg.key), SortText(users, b, cfg.key));
    }
    forall a, b, c | le(a, b) && le(b, c) ensures le(a, c) {
      var ta, tb, tc := SortText(users, a, cfg.key), SortText(users, b, cfg.key), SortText(users, c, cfg.key);
      if cfg.direction == Ascending {
        LexTrans(ta, tb, tc);
      } else {
        LexTrans(tc, tb, ta);
      }
    }
  }

  /** The list `filteredIndividus` computes. */
  function Filtered(rows: seq<ListRow>, loading: bool, mode: ViewMode, currentUserId: Option<int>, users: seq<UserRef>,
                    search: string, filters: seq<(string, string)>, sort: Option<SortConfig>): seq<ListRow>
  {
    if loading || rows == [] then []
    else
      var mine := if mode == Mine then Keep(rows, MineTest(UserIdText(currentUserId))) else rows;
      var searched := if Active(search) then Keep(mine, SearchTest(users, Term(search))) else mine;
      var kept := Keep(searched, ColumnsTest(users, filters));
      if sort.Some? then SortBy(kept, RowOrder(users, sort.value)) else kept
  }

  /** The `filteredIndividus` memo: successive filters on `result`, then the sort. */
  method FilterIndividus(rows: seq<ListRow>, loading: bool, mode: ViewMode, currentUserId: Option<int>, users: seq<UserRef>,
                         search: string, filters: seq<(string, string)>, sort: Option<SortConfig>)
    returns (result: seq<ListRow>)
    ensures result == Filtered(rows, loading, mode, currentUserId, users, search, filters, sort)
  {
    if loading || |rows| == 0 {
      return [];
    }
    result := rows;
    if mode == Mine {
      result := Keep(result, MineTest(UserIdText(currentUserId)));
    }
    if search != [] && Trim(search) != [] {
      result := Keep(result, SearchTest(users, Term(search)));
    }
    result := ApplyColumnFilters(users, result, filters);
    if sort.Some? {
      result := SortBy(result, RowOrder(users, sort.value));
    }
  }

  /** The `Object.entries(columnFilters).forEach` loop: each non-blank filter narrows `result`. */
  method ApplyColumnFilters(users: seq<UserRef>, rows: seq<ListRow>, filters: seq<(string, string)>) returns (result: seq<ListRow>)
    ensures result == Keep(rows, ColumnsTest(users, filters))
  {
    result := rows;
    KeepAll(rows, ColumnsTest(users, []));
    assert filters[..0] == [];
    var i := 0;
    while i < |filters|
      invariant 0 <= i <= |filters|
      invariant result == Keep(rows, ColumnsTest(users, filters[..i]))
    {
      var (key, value) := filters[i];
      ghost var done := filters[..i];
      KeepColumnStep(users, rows, done, key, value);
      if Active(value) {
        result := Keep(result, ColumnTest(users, key, Term(value)));
      }
      assert result == Keep(rows, ColumnsTest(users, done + [(key, value)]));
      assert filters[..i + 1] == done + [(key, value)];
      i := i + 1;
    }
    assert filters[..i] == filters;
  }

  /**
   * A row is listed iff it is loaded, in the "mine" view carries the user's id
   * as text, matches a non-blank search, and matches every non-blank column filter.
   */
  lemma FilteredMembers(rows: seq<ListRow>, loading: bool, mode: ViewMode, currentUserId: Option<int>, users: seq<UserRef>,
                        search: string, filters: seq<(string, string)>, sort: Option<SortConfig>, x: ListRow)
    ensures x in Filtered(rows, loading, mode, currentUserId, users, search, filters, sort) <==>
      !loading && x in rows
      && (mode == Mine ==> Show(x.enCharge) == UserIdText(currentUserId))
      && (Active(search) ==> SearchMatches(users, x, Term(search)))
      && ColumnsMatch(users, x, filters)
  {
    if !loading && rows != [] {
      var mt, st, ct := MineTest(UserIdText(currentUserId)), SearchTest(users, Term(search)), ColumnsTest(users, filters);
      var mine := if mode == Mine then Keep(rows, mt) else rows;
      KeepMembers(rows, mt, x);
      var searched := if Active(search) then Keep(mine, st) else mine;
      KeepMembers(mine, st, x);
      var kept := Keep(searched, ct);
      KeepMembers(searched, ct, x);
      if sort.Some? {
        assert multiset(SortBy(kept, RowOrder(users, sort.value))) == multiset(kept);
        assert x in kept <==> x in multiset(kept);
      }
    }
  }

  /** The listed rows are a sub-multiset of the loaded ones, and follow the configured order. */
  lemma FilteredOrdered(rows: seq<ListRow>, loading: bool, mode: ViewMode, currentUserId: Option<int>, users: seq<UserRef>,
                        search: string, filters: seq<(string, string)>, sort: Option<SortConfig>)
    ensures multiset(Filtered(rows, loading, mode, currentUserId, users, search, filters, sort)) <= multiset(rows)
    ensures sort.Some? ==> Sorted(Filtered(rows, loading, mode, currentUserId, users, search, filters, sort), RowOrder(users, sort.value))
  {
    if !loading && rows != [] {
      var mt, st, ct := MineTest(UserIdText(currentUserId)), SearchTest(users, Term(search)), ColumnsTest(users, filters);
      var mine := if mode == Mine then Keep(rows, mt) else rows;
      KeepSub(rows, mt);
      var searched := if Active(search) then Keep(mine, st) else mine;
      KeepSub(mine, st);
      var kept := Keep(searched, ct);
      KeepSub(searched, ct);
      if sort.Some? {
        RowOrderTotal(users, sort.value);
        SortBySorted(kept, RowOrder(users, sort.value));
      }
    }
  }

  /**
   * The renderer copies `numero_unique` and `en_charge` into every row's
   * extra values when it loads them, so its global search also finds the raw
   * id of the person in charge (the older copy only finds the name).
   */
  function WithCore(r: ListRow): (w: ListRow)
    ensures w.numero == r.numero && w.enCharge == r.enCharge && w.enChargeUsername == r.enChargeUsername
    ensures w.extras.Keys == r.extras.Keys + {"numero_unique", "en_charge"}
    ensures w.extras["en_charge"] == r.enCharge && w.extras["numero_unique"] == r.numero
    ensures forall k :: k in r.extras && k !in {"numero_unique", "en_charge"} ==> w.extras[k] == r.extras[k]
  {
    r.(extras := r.extras["numero_unique" := r.numero]["en_charge" := r.enCharge])
  }

  lemma RendererSearchFindsRawId(users: seq<UserRef>, r: ListRow, term: string)
    requires Found(ShowOr(r.enCharge), term)
    ensures SearchMatches(users, WithCore(r), term)
  {
    var w := WithCore(r);
    assert "en_charge" in w.extras && Found(ShowOr(w.extras["en_charge"]), term);
  }

  // ----------------------------------------------------------------- paging

  /** The older copy's `totalPages`: at least one page of 20. */
  function LegacyTotalPages(n: nat): (r: nat)
    ensures r >= 1
    ensures n <= r * ItemsPerPage
    ensures r > 1 ==> (r - 1) * ItemsPerPage < n
  {
    Max(1, DataTable.TotalPages(n, ItemsPerPage))
  }

  /** The older copy's `individusToShow` for the 1-based `page`. */
  function LegacyPage(filtered: seq<ListRow>, page: int): (r: seq<ListRow>)
    ensures |r| <= ItemsPerPage
    ensures 1 <= page ==> r == DataTable.CurrentRows(filtered, page - 1, ItemsPerPage)
  {
    DataTable.JsSlice(filtered, (page - 1) * ItemsPerPage, (page - 1) * ItemsPerPage + ItemsPerPage)
  }

  /** Précédent: never below page 1. */
  function LegacyPrevious(page: int): (r: int)
    ensures r >= 1
    ensures page > 1 ==> r == page - 1
  {
    Max(1, page - 1)
  }

  /** Suivant: never past the last page. */
  function LegacyNext(page: int, totalPages: nat): (r: int)
    ensures r <= totalPages
    ensures page < totalPages ==> r == page + 1
  {
    Min(totalPages, page + 1)
  }

  /** The buttons keep a page inside [1, totalPages]. */
  lemma LegacyPagingStaysInRange(n: nat, page: int)
    requires 1 <= page <= LegacyTotalPages(n)
    ensures 1 <= LegacyPrevious(page) <= LegacyTotalPages(n)
    ensures 1 <= LegacyNext(page, LegacyTotalPages(n)) <= LegacyTotalPages(n)
  {
  }

  /** Every page in range shows rows, unless there are none at all. */
  lemma LegacyPageNonEmpty(filtered: seq<ListRow>, page: int)
    requires 1 <= page <= LegacyTotalPages(|filtered|) && filtered != []
    ensures LegacyPage(filtered, page) != []
  {
    DataTable.PagesNonEmpty(filtered, page - 1, ItemsPerPage);
  }

  /** The current page is not reset when the filters shrink the list, so a later page can show no rows. */
  lemma LegacyStalePage(filtered: seq<ListRow>, page: int)
    requires page > LegacyTotalPages(|filtered|)
    ensures LegacyPage(filtered, page) == []
    ensures LegacyNext(page, LegacyTotalPages(|filtered|)) == LegacyTotalPages(|filtered|)
  {
    DataTable.PagesNonEmpty(filtered, page - 1, ItemsPerPage);
  }

  /** A JavaScript number used as a page: an integer, or NaN. */
  datatype JsPage = PageNum(n: int) | PageNaN

  /**
   * The renderer's `onPageChange={(e, p) => setCurrentPage(p + 1)}`: the page
   * is read from the SECOND argument, and `undefined + 1` is NaN.
   */
  function RendererPageChangeAsWritten(args: seq<int>): (r: JsPage)
    ensures |args| < 2 ==> r == PageNaN
  {
    if |args| >= 2 then PageNum(args[1] + 1) else PageNaN
  }

  /** The handler reading the page the table passes, its only argument. */
  function RendererPageChange(args: seq<int>): (r: JsPage)
    ensures |args| >= 1 ==> r == PageNum(args[0] + 1)
  {
    if |args| >= 1 then PageNum(args[0] + 1) else PageNaN
  }

  /**
   * The rows the renderer's table shows for `currentPage`: the table gets
   * `page = currentPage - 1` and 20 rows a page; `slice(NaN, NaN)` treats
   * NaN as 0 and is empty.
   */
  function RendererRows(filtered: seq<ListRow>, currentPage: JsPage): (r: seq<ListRow>)
    ensures currentPage.PageNaN? ==> r == []
  {
    match currentPage
    case PageNum(n) => DataTable.CurrentRows(filtered, n - 1, ItemsPerPage)
    case PageNaN => DataTable.JsSlice(filtered, 0, 0)
  }

  /** As written: any click in the table's pagination makes the page NaN, and the table then shows no row. */
  lemma RendererPaginationEmptiesTable(filtered: seq<ListRow>, c: DataTable.Control, currentPage: int)
    ensures RendererPageChangeAsWritten([DataTable.Requested(c, currentPage - 1)]) == PageNaN
    ensures RendererRows(filtered, RendererPageChangeAsWritten([DataTable.Requested(c, currentPage - 1)])) == []
  {
  }

  /** With the handler reading its one argument, the page button for page i shows that page's rows, which are not empty. */
  lemma RendererPaginationShowsPage(filtered: seq<ListRow>, i: nat, currentPage: int)
    requires i < DataTable.TotalPages(|filtered|, ItemsPerPage)
    ensures RendererRows(filtered, RendererPageChange([DataTable.Requested(DataTable.PageButton(i), currentPage - 1)]))
      == DataTable.CurrentRows(filtered, i, ItemsPerPage)
    ensures DataTable.CurrentRows(filtered, i, ItemsPerPage) != []
  {
    DataTable.PagesNonEmpty(filtered, i, ItemsPerPage);
  }
}
