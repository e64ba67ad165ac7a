/**
 * The record of one individual in the renderer (`IndividuFiche`): who may
 * edit it, which inputs are read-only, the labels of the audit view, the
 * name of the person in charge, and the monthly history behind the chart
 * of a numeric field.
 */
module IndividuFiche {
  import opened Wrappers
  import opened Text
  import opened JsonData
  import opened Sorting
  import opened Permissions
  import IndividusList

  // ------------------------------------------------------------ edit rights

  /** The logged-in user as the record reads it: its permissions and its two id properties. */
  datatype Account = Account(info: UserInfo, id: Json, userId: Json)

  /** The individual shown, as far as these rules read it; `champs` is `None` when `champs_supplementaires` is null. */
  datatype Individu = Individu(enCharge: Json, champs: Option<map<string, Json>>)

  const EditAll: string := "edit_all"
  const EditAssigned: string := "edit_assigned"
  const EditReadonlyFields: string := "edit_readonly_fields"

  /** `user.id || user.userId`. */
  function AccountId(a: Account): (r: Json)
    ensures Truthy(a.id) ==> r == a.id
    ensures !Truthy(a.id) ==> r == a.userId
  {
    if Truthy(a.id) then a.id else a.userId
  }

  function InfoOf(user: Option<Account>): (r: Option<UserInfo>)
    ensures user.None? <==> r.None?
  {
    if user.None? then None else Some(user.value.info)
  }

  /**
   * `userCanEdit`: nobody without a user and an individual; everyone with
   * edit_all; with edit_assigned, the person in charge, compared with `===`.
   */
  function UserCanEdit(user: Option<Account>, individu: Option<Individu>): (r: bool)
    ensures user.None? || individu.None? ==> !r
    ensures user.Some? && individu.Some? ==>
      (r <==> (HasPermission(InfoOf(user), EditAll)
                || (HasPermission(InfoOf(user), EditAssigned) && individu.value.enCharge == AccountId(user.value))))
  {
    if user.None? || individu.None? then false
    else if HasPermission(InfoOf(user), EditAll) then true
    else if HasPermission(InfoOf(user), EditAssigned) then individu.value.enCharge == AccountId(user.value)
    else false
  }

  /** Without either edit permission nobody edits, whoever is in charge. */
  lemma NoEditWithoutPermission(user: Option<Account>, individu: Option<Individu>)
    requires !HasPermission(InfoOf(user), EditAll) && !HasPermission(InfoOf(user), EditAssigned)
    ensures !UserCanEdit(user, individu)
  {
  }

  /** The comparison is strict: a person in charge held as the text of the user's id does not count. */
  lemma OwnerComparedStrictly(a: Account, n: int, champs: Option<map<string, Json>>)
    requires !HasPermission(Some(a.info), EditAll) && AccountId(a) == JInt(n)
    ensures !UserCanEdit(Some(a), Some(Individu(JStr(IntToString(n)), champs)))
    ensures UserCanEdit(Some(a), Some(Individu(JInt(n), champs))) <==> HasPermission(Some(a.info), EditAssigned)
  {
  }

  /** `isReadOnly` of an input: the user cannot edit, or the field is readonly (`=== true`) and the user may not edit readonly fields. */
  function FieldReadOnly(user: Option<Account>, individu: Option<Individu>, readonly: Json): (r: bool)
    ensures !UserCanEdit(user, individu) ==> r
    ensures HasPermission(InfoOf(user), EditReadonlyFields) ==> (r <==> !UserCanEdit(user, individu))
    ensures readonly != JBool(true) ==> (r <==> !UserCanEdit(user, individu))
  {
    !UserCanEdit(user, individu) || (readonly == JBool(true) && !HasPermission(InfoOf(user), EditReadonlyFields))
  }

  /** An editor sees a readonly field locked exactly when the readonly-fields permission is missing. */
  lemma ReadOnlyIff(user: Option<Account>, individu: Option<Individu>)
    requires UserCanEdit(user, individu)
    ensures FieldReadOnly(user, individu, JBool(true)) <==> !HasPermission(InfoOf(user), EditReadonlyFields)
    ensures !FieldReadOnly(user, individu, JBool(false)) && !FieldReadOnly(user, individu, JInt(1))
  {
  }

  /** The `required` mark of an input: a mandatory field that is not read-only. */
  function InputRequired(obligatoire: bool, readOnly: bool): (r: bool)
    ensures r ==> obligatoire && !readOnly
    ensures obligatoire && !readOnly ==> r
  {
    obligatoire && !readOnly
  }

  // ----------------------------------------------------------------- labels

  /** A field definition as the label lookup reads it. */
  datatype FieldDef = FieldDef(key: string, fieldLabel: string)

  /** A category as the API returns it; `champs` is `None` when missing. */
  datatype RawCategory = RawCategory(champs: Option<seq<FieldDef>>)

  /** The index of the first field with `key`, or `|champs|`. */
  function FindKey(champs: seq<FieldDef>, key: string): (i: nat)
    ensures i <= |champs|
    ensures forall j :: 0 <= j < i ==> champs[j].key != key
    ensures i < |champs| ==> champs[i].key == key
  {
    if champs == [] || champs[0].key == key then 0 else 1 + FindKey(champs[1..], key)
  }

  predicate HasKey(c: RawCategory, key: string) {
    c.champs.Some? && FindKey(c.champs.value, key) < |c.champs.value|
  }

  /** The index of the first category with a field `key`, or `|cats|`. */
  function FirstCategory(cats: seq<RawCategory>, key: string): (i: nat)
    ensures i <= |cats|
    ensures forall j :: 0 <= j < i ==> !HasKey(cats[j], key)
    ensures i < |cats| ==> HasKey(cats[i], key)
  {
    if cats == [] || HasKey(cats[0], key) then 0 else 1 + FirstCategory(cats[1..], key)
  }

  /** `getChampLabel`. */
  function ChampLabel(cats: seq<RawCategory>, key: string): (r: string)
    ensures key == "en_charge" ==> r == "Personne en charge"
    ensures key == "numero_unique" ==> r == "Numéro Unique"
  {
    if key == "en_charge" then "Personne en charge"
    else if key == "numero_unique" then "Numéro Unique"
    else
      var i := FirstCategory(cats, key);
      if i < |cats| then
        var cs := cats[i].champs.value;
        cs[FindKey(cs, key)].fieldLabel
      else key
  }

  /**
   * Any other key gets the label of its first occurrence, categories and
   * then fields in order, and is its own label when no category has it.
   */
  lemma ChampLabelLookup(cats: seq<RawCategory>, key: string, i: nat, j: nat)
    requires key != "en_charge" && key != "numero_unique"
    requires i < |cats| && cats[i].champs.Some? && j < |cats[i].champs.value| && cats[i].champs.value[j].key == key
    requires forall k :: 0 <= k < i ==> !HasKey(cats[k], key)
    requires forall k :: 0 <= k < j ==> cats[i].champs.value[k].key != key
    ensures ChampLabel(cats, key) == cats[i].champs.value[j].fieldLabel
  {
    var f := FirstCategory(cats, key);
    assert HasKey(cats[i], key);
    assert f == i;
    var cs := cats[i].champs.value;
    assert FindKey(cs, key) == j;
  }

  lemma ChampLabelFallback(cats: seq<RawCategory>, key: string)
    requires key != "en_charge" && key != "numero_unique"
    requires forall k :: 0 <= k < |cats| ==> !HasKey(cats[k], key)
    ensures ChampLabel(cats, key) == key
  {
  }

  /** `getUserName`: unassigned, the user with `id === Number(userId)`, or a placeholder. */
  function UserName(users: seq<IndividusList.UserRef>, userId: Json): (r: string)
  {
    if IndividusList.Unassigned(userId) then "Non assigné"
    else
      var n := IndividusList.NumberOf(userId);
      var found := if n.Some? then IndividusList.FindUser(users, n.value) else None;
      if found.Some? then found.value.username else "Utilisateur #" + Show(userId)
  }

  lemma UserNameCases(users: seq<IndividusList.UserRef>, userId: Json)
    ensures IndividusList.Unassigned(userId) ==> UserName(users, userId) == "Non assigné"
    ensures userId.JInt? && IndividusList.FindUser(users, userId.i).Some? ==>
      UserName(users, userId) == IndividusList.FindUser(users, userId.i).value.username
    ensures userId.JInt? && (forall u :: u in users ==> u.id != userId.i) ==>
      UserName(users, userId) == "Utilisateur #" + IntToString(userId.i)
  {
  }

  // ---------------------------------------------------------------- history

  /** What `parseFloat` gives: a number or NaN. */
  datatype Num = Finite(x: real) | NaN

  /** `parseFloat(v) || 0`. */
  function OrZero(n: Num): (r: Num)
    ensures r.Finite?
    ensures n.Finite? && n.x != 0.0 ==> r == n
  {
    if n.NaN? || n.x == 0.0 then Finite(0.0) else n
  }

  /** The months of a year, `getMonth()`. */
  type Month = m: nat | m < 12

  /** One slot of a year: `null` or a value. */
  type Slot = Option<Num>

  /** An audit entry of the record: its field, its date's time stamp, local year and month, and its parsed new value. */
  datatype Point = Point(champ: string, time: int, year: int, month: Month, value: Num)

  const Nulls: seq<Slot> := [None, None, None, None, None, None, None, None, None, None, None, None]

  /** `dataByYear`: by year text, twelve slots each. */
  predicate Rowed(data: map<string, seq<Slot>>) {
    forall k :: k in data ==> |data[k]| == 12
  }

  /** `dataByYear[y] ??= Array(12).fill(null); dataByYear[y][m] = v`. */
  function Put(data: map<string, seq<Slot>>, y: string, m: Month, v: Num): (r: map<string, seq<Slot>>)
    requires Rowed(data)
    ensures Rowed(r) && r.Keys == data.Keys + {y}
    ensures r[y][m] == Some(v)
    ensures forall j :: 0 <= j < 12 && j != m ==> r[y][j] == (if y in data then data[y][j] else None)
    ensures forall k :: k in data && k != y ==> r[k] == data[k]
  {
    var row := if y in data then data[y] else Nulls;
    data[y := row[m := Some(v)]]
  }

  function YearKey(p: Point): string {
    IntToString(p.year)
  }

  /** The entries placed one after the other. */
  function Place(points: seq<Point>): (r: map<string, seq<Slot>>)
    ensures Rowed(r)
  {
    if points == [] then map[]
    else
      var p := points[|points| - 1];
      Put(Place(points[..|points| - 1]), YearKey(p), p.month, p.value)
  }

  /** The value of the last of `points` in year `y` and month `m`. */
  function LastValue(points: seq<Point>, y: string, m: Month): (r: Slot)
    ensures r.Some? ==> exists i :: 0 <= i < |points| && YearKey(points[i]) == y && points[i].month == m && points[i].value == r.value
    ensures r.None? ==> forall i :: 0 <= i < |points| ==> YearKey(points[i]) != y || points[i].month != m
  {
    if points == [] then None
    else
      var p := points[|points| - 1];
      if YearKey(p) == y && p.month == m then Some(p.value) else LastValue(points[..|points| - 1], y, m)
  }

  /** A year has slots exactly when an entry falls in it. */
  lemma {:induction false} PlaceKeys(points: seq<Point>, y: string)
    ensures y in Place(points) <==> exists i :: 0 <= i < |points| && YearKey(points[i]) == y
  {
    if points != [] {
      var q := points[..|points| - 1];
      PlaceKeys(q, y);
      if exists i :: 0 <= i < |points| && YearKey(points[i]) == y {
        var i :| 0 <= i < |points| && YearKey(points[i]) == y;
        if i < |q| {
          assert YearKey(q[i]) == y;
        }
      }
      if exists i :: 0 <= i < |q| && YearKey(q[i]) == y {
        var i :| 0 <= i < |q| && YearKey(q[i]) == y;
        assert YearKey(points[i]) == y;
      }
    }
  }

  /** Each slot holds the value of the last entry placed in it. */
  lemma {:induction false} PlaceLastWins(points: seq<Point>, y: string, m: Month)
    ensures y in Place(points) ==> Place(points)[y][m] == LastValue(points, y, m)
    ensures y !in Place(points) ==> LastValue(points, y, m) == None
  {
    if points != [] {
      PlaceLastWins(points[..|points| - 1], y, m);
    }
  }

  lemma PlaceSnoc(entries: seq<Point>, i: nat)
    requires i < |entries|
    ensures Place(entries[..i + 1]) == Put(Place(entries[..i]), YearKey(entries[i]), entries[i].month, entries[i].value)
  {
    assert entries[..i + 1][..i] == entries[..i];
  }

  /** The entries of one field. */
  function Matching(points: seq<Point>, key: string): (r: seq<Point>)
    ensures forall p :: p in r <==> p in points && p.champ == key
  {
    if points == [] then []
    else Matching(points[..|points| - 1], key) + (if points[|points| - 1].champ == key then [points[|points| - 1]] else [])
  }

  function ByTime(): (le: (Point, Point) -> bool)
    ensures forall a, b :: le(a, b) == (a.time <= b.time)
  {
    ByKey((p: Point) => p.time)
  }

  /** The entries of the field in date order. */
  function Entries(points: seq<Point>, key: string): (r: seq<Point>)
    ensures Sorted(r, ByTime())
    ensures multiset(r) == multiset(Matching(points, key))
  {
    ByKeyTotalPreorder((p: Point) => p.time);
    SortBySorted(Matching(points, key), ByTime());
    SortBy(Matching(points, key), ByTime())
  }

  /** `dataByYear` before the fill: the entries, then the current month set to the current value or 0. */
  function Raw(points: seq<Point>, key: string, currentYear: int, currentMonth: Month, current: Num): (r: map<string, seq<Slot>>)
    ensures Rowed(r) && IntToString(currentYear) in r
    ensures r[IntToString(currentYear)][currentMonth] == Some(OrZero(current))
  {
    Put(Place(Entries(points, key)), IntToString(currentYear), currentMonth, OrZero(current))
  }

  /** Every other slot of the raw history holds the field's latest entry of that month, or null. */
  lemma RawSlots(points: seq<Point>, key: string, currentYear: int, currentMonth: Month, current: Num, y: string, m: Month)
    requires y in Raw(points, key, currentYear, currentMonth, current)
    requires y != IntToString(currentYear) || m != currentMonth
    ensures Raw(points, key, currentYear, currentMonth, current)[y][m] == LastValue(Entries(points, key), y, m)
  {
    PlaceLastWins(Entries(points, key), y, m);
  }

  /** A slot's value after the fill: its own when set, the carried one otherwise. */
  function Pick(x: Slot, last: Slot): Slot {
    if x.Some? then x else last
  }

  /** The value `last` holds after the fill has passed over `s`, starting from `last`. */
  function Carry(s: seq<Slot>, last: Slot): Slot {
    if s == [] then last else Pick(s[|s| - 1], Carry(s[..|s| - 1], last))
  }

  /** The forward fill of `s`, starting from `last`. */
  function FillForward(s: seq<Slot>, last: Slot): (r: seq<Slot>)
    ensures |r| == |s|
  {
    if s == [] then [] else FillForward(s[..|s| - 1], last) + [Carry(s, last)]
  }

  lemma {:induction false} FillAt(s: seq<Slot>, last: Slot, k: nat)
    requires k < |s|
    ensures FillForward(s, last)[k] == Carry(s[..k + 1], last)
  {
    if k < |s| - 1 {
      FillAt(s[..|s| - 1], last, k);
      assert s[..|s| - 1][..k + 1] == s[..k + 1];
    } else {
      assert s[..k + 1] == s;
    }
  }

  lemma {:induction false} CarryAppend(a: seq<Slot>, b: seq<Slot>, last: Slot)
    ensures Carry(a + b, last) == Carry(b, Carry(a, last))
  {
    if b == [] {
      assert a + b == a;
    } else {
      CarryAppend(a, b[..|b| - 1], last);
      assert (a + b)[..|a + b| - 1] == a + b[..|b| - 1];
    }
  }

  lemma {:induction false} FillAppend(a: seq<Slot>, b: seq<Slot>, last: Slot)
    ensures FillForward(a + b, last) == FillForward(a, last) + FillForward(b, Carry(a, last))
  {
    if b == [] {
      assert a + b == a;
    } else {
      FillAppend(a, b[..|b| - 1], last);
      assert (a + b)[..|a + b| - 1] == a + b[..|b| - 1];
      CarryAppend(a, b, last);
    }
  }

  lemma {:induction false} CarryFromNull(s: seq<Slot>)
    ensures Carry(s, None) == None <==> forall j :: 0 <= j < |s| ==> s[j] == None
    ensures Carry(s, None).Some? ==>
      exists j :: 0 <= j < |s| && s[j] == Carry(s, None) && forall i :: j < i < |s| ==> s[i] == None
  {
    if s != [] {
      var q := s[..|s| - 1];
      CarryFromNull(q);
      if s[|s| - 1] == None && Carry(q, None).Some? {
        var j :| 0 <= j < |q| && q[j] == Carry(q, None) && forall i :: j < i < |q| ==> q[i] == None;
        assert s[j] == q[j];
        forall i | j < i < |s| ensures s[i] == None {
          if i < |q| {
            assert s[i] == q[i];
          }
        }
      }
      if forall j :: 0 <= j < |q| ==> q[j] == None {
        forall j | 0 <= j < |s| - 1 ensures s[j] == None {
          assert s[j] == q[j];
        }
      }
    }
  }

  /**
   * After the fill, a slot is null exactly when it and every slot before it
   * were null; otherwise it holds the latest non-null value up to it, and a
   * slot that was set keeps its value.
   */
  lemma FillSpec(s: seq<Slot>, k: nat)
    requires k < |s|
    ensures FillForward(s, None)[k] == None <==> forall j :: 0 <= j <= k ==> s[j] == None
    ensures FillForward(s, None)[k].Some? ==>
      exists j :: 0 <= j <= k && s[j] == FillForward(s, None)[k] && forall i :: j < i <= k ==> s[i] == None
    ensures s[k].Some? ==> FillForward(s, None)[k] == s[k]
  {
    FillAt(s, None, k);
    var p := s[..k + 1];
    CarryFromNull(p);
    assert forall j :: 0 <= j <= k ==> p[j] == s[j];
    assert p[..|p| - 1] == s[..k];
  }

  /** The years' slots one year after the other, in `order`. */
  function Flatten(data: map<string, seq<Slot>>, order: seq<string>): (r: seq<Slot>)
    requires forall k :: k in order ==> k in data
  {
    if order == [] then [] else Flatten(data, order[..|order| - 1]) + data[order[|order| - 1]]
  }

  /** Slot `j` of the `k`-th year is at position 12·k + j. */
  lemma {:induction false} FlattenIndex(data: map<string, seq<Slot>>, order: seq<string>, k: nat, j: nat)
    requires Rowed(data) && (forall x :: x in order ==> x in data) && k < |order| && j < 12
    ensures |Flatten(data, order)| == 12 * |order|
    ensures Flatten(data, order)[12 * k + j] == data[order[k]][j]
  {
    var q := order[..|order| - 1];
    FlattenLength(data, q);
    if k < |order| - 1 {
      FlattenIndex(data, q, k, j);
      assert q[k] == order[k];
    }
  }

  lemma {:induction false} FlattenLength(data: map<string, seq<Slot>>, order: seq<string>)
    requires Rowed(data) && forall x :: x in order ==> x in data
    ensures |Flatten(data, order)| == 12 * |order|
  {
    if order != [] {
      FlattenLength(data, order[..|order| - 1]);
    }
  }

  lemma {:induction false} FlattenSame(d1: map<string, seq<Slot>>, d2: map<string, seq<Slot>>, order: seq<string>)
    requires forall x :: x in order ==> x in d1 && x in d2 && d1[x] == d2[x]
    ensures Flatten(d1, order) == Flatten(d2, order)
  {
    if order != [] {
      FlattenSame(d1, d2, order[..|order| - 1]);
    }
  }

  predicate NoDuplicates(s: seq<string>) {
    forall i, j :: 0 <= i < j < |s| ==> s[i] != s[j]
  }

  lemma {:induction false} NoDuplicatesCount(s: seq<string>, x: string)
    requires NoDuplicates(s)
    ensures multiset(s)[x] <= 1
  {
    if s != [] {
      var q := s[..|s| - 1];
      assert s == q + [s[|s| - 1]];
      assert NoDuplicates(q) by {
        forall i, j | 0 <= i < j < |q| ensures q[i] != q[j] {
          assert q[i] == s[i] && q[j] == s[j];
        }
      }
      NoDuplicatesCount(q, x);
      if x == s[|s| - 1] {
        assert x !in q by {
          forall i | 0 <= i < |q| ensures q[i] != x {
            assert q[i] == s[i];
          }
        }
      }
    }
  }

  lemma NoDuplicatesSnoc(s: seq<string>, x: string)
    requires NoDuplicates(s) && x !in s
    ensures NoDuplicates(s + [x])
  {
    forall i, j | 0 <= i < j < |s + [x]| ensures (s + [x])[i] != (s + [x])[j] {
      assert (s + [x])[i] == s[i];
    }
  }

  /** A permutation of a sequence without duplicates has none either. */
  lemma PermutationNoDuplicates(a: seq<string>, b: seq<string>)
    requires NoDuplicates(a) && multiset(a) == multiset(b)
    ensures NoDuplicates(b)
  {
    forall i, j | 0 <= i < j < |b| ensures b[i] != b[j] {
      if b[i] == b[j] {
        var x := b[i];
        assert b == b[..i] + [x] + b[i + 1..j] + [x] + b[j + 1..];
        assert multiset(b)[x] >= 2;
        NoDuplicatesCount(a, x);
        assert false;
      }
    }
  }

  function YearOrder(): (le: (string, string) -> bool)
    ensures forall a, b :: le(a, b) == LexLe(a, b)
  {
    (a, b) => LexLe(a, b)
  }

  lemma YearOrderTotal()
    ensures TotalPreorder(YearOrder())
  {
    forall a, b ensures LexLe(a, b) || LexLe(b, a) {
      LexTotal(a, b);
    }
    forall a, b, c | LexLe(a, b) && LexLe(b, c) ensures LexLe(a, c) {
      LexTrans(a, b, c);
    }
  }

  /** The `forEach` over the entries: `data` is their placement, `years` its keys in first-seen order. */
  method PlaceEntries(entries: seq<Point>) returns (data: map<string, seq<Slot>>, years: seq<string>)
    ensures data == Place(entries)
    ensures NoDuplicates(years) && forall k :: k in years <==> k in data
  {
    data := map[];
    years := [];
    for i := 0 to |entries|
      invariant data == Place(entries[..i])
      invariant NoDuplicates(years) && forall k :: k in years <==> k in data
    {
      var e := entries[i];
      var y := IntToString(e.year);
      var row := if y in data then data[y] else Nulls;
      if y !in data {
        NoDuplicatesSnoc(years, y);
        years := years + [y];
      }
      data := data[y := row[e.month := Some(e.value)]];
      PlaceSnoc(entries, i);
    }
    assert entries[..|entries|] == entries;
  }

  /** The inner `for` of the fill over year `y`, carrying `last`. */
  method FillYear(data0: map<string, seq<Slot>>, y: string, last0: Slot) returns (data: map<string, seq<Slot>>, last: Slot)
    requires Rowed(data0) && y in data0
    ensures Rowed(data) && data.Keys == data0.Keys
    ensures data[y] == FillForward(data0[y], last0)
    ensures last == Carry(data0[y], last0)
    ensures forall k :: k in data && k != y ==> data[k] == data0[k]
  {
    data := data0;
    last := last0;
    for i := 0 to 12
      invariant Rowed(data) && data.Keys == data0.Keys
      invariant forall k :: k in data && k != y ==> data[k] == data0[k]
      invariant data[y][..i] == FillForward(data0[y][..i], last0)
      invariant data[y][i..] == data0[y][i..]
      invariant last == Carry(data0[y][..i], last0)
    {
      assert data0[y][..i + 1][..i] == data0[y][..i];
      assert data[y][i] == data0[y][i];
      if data[y][i] != None {
        last := data[y][i];
      } else if last != None {
        data := data[y := data[y][i := last]];
      }
      assert data[y][..i + 1] == data[y][..i] + [data[y][i]];
    }
    assert data[y][..12] == data[y] && data0[y][..12] == data0[y];
  }

  /** The years of `years` sorted as texts, with no year twice. */
  method SortYears(years: seq<string>) returns (order: seq<string>)
    requires NoDuplicates(years)
    ensures NoDuplicates(order) && Sorted(order, YearOrder())
    ensures forall k :: k in order <==> k in years
  {
    order := SortBy(years, YearOrder());
    YearOrderTotal();
    SortBySorted(years, YearOrder());
    PermutationNoDuplicates(years, order);
    forall k ensures k in order <==> k in years {
      assert k in order <==> k in multiset(order);
      assert k in years <==> k in multiset(years);
    }
  }

  /** `dataByYear[currentYear] ??= ...; dataByYear[currentYear][currentMonth] = v`, with the years kept in step. */
  method SetCurrent(data0: map<string, seq<Slot>>, years0: seq<string>, cy: string, cm: Month, v: Num)
    returns (data: map<string, seq<Slot>>, years: seq<string>)
    requires Rowed(data0) && NoDuplicates(years0) && forall k :: k in years0 <==> k in data0
    ensures data == Put(data0, cy, cm, v)
    ensures NoDuplicates(years) && forall k :: k in years <==> k in data
  {
    years := years0;
    var row := if cy in data0 then data0[cy] else Nulls;
    if cy !in data0 {
      NoDuplicatesSnoc(years, cy);
      years := years + [cy];
    }
    data := data0[cy := row[cm := Some(v)]];
  }

  /** The fill: `Object.keys(dataByYear).sort().forEach(...)` with one `last` across all years. */
  method FillAll(raw: map<string, seq<Slot>>, order: seq<string>) returns (data: map<string, seq<Slot>>)
    requires Rowed(raw) && NoDuplicates(order) && forall k :: k in order ==> k in raw
    ensures Rowed(data) && data.Keys == raw.Keys
    ensures Flatten(data, order) == FillForward(Flatten(raw, order), None)
  {
    data := raw;
    var last: Slot := None;
    for yi := 0 to |order|
      invariant Rowed(data) && data.Keys == raw.Keys
      invariant forall k :: yi <= k < |order| ==> data[order[k]] == raw[order[k]]
      invariant Flatten(data, order[..yi]) == FillForward(Flatten(raw, order[..yi]), None)
      invariant last == Carry(Flatten(raw, order[..yi]), None)
    {
      var y := order[yi];
      ghost var before := data;
      data, last := FillYear(data, y, last);
      FillStep(before, data, raw, order, yi);
    }
    assert order[..|order|] == order;
  }

  /**
   * `computeHistory(fieldKey)`. `points` is the record's audit, each entry
   * with its parsed date and value; `currentYear`, `currentMonth` are the
   * clock's, and `current` is `parseFloat` of the field's current value.
   * Years are visited in the order of `Object.keys(...).sort()`, which
   * compares the year texts as strings.
   */
  method ComputeHistory(points: seq<Point>, fieldKey: string, currentYear: int, currentMonth: Month, current: Num)
    returns (data: map<string, seq<Slot>>, order: seq<string>)
    ensures Rowed(data) && IntToString(currentYear) in data
    ensures data.Keys == Raw(points, fieldKey, currentYear, currentMonth, current).Keys
    ensures NoDuplicates(order) && Sorted(order, YearOrder())
    ensures forall k :: k in order <==> k in data
    ensures Flatten(data, order) == FillForward(Flatten(Raw(points, fieldKey, currentYear, currentMonth, current), order), None)
  {
    var entries := Entries(points, fieldKey);
    var placed, years0 := PlaceEntries(entries);
    var raw, years := SetCurrent(placed, years0, IntToString(currentYear), currentMonth, OrZero(current));
    order := SortYears(years);
    data := FillAll(raw, order);
  }

  /** One year of the fill extends the filled prefix of the flattened history. */
  lemma FillStep(before: map<string, seq<Slot>>, data: map<string, seq<Slot>>, raw: map<string, seq<Slot>>, order: seq<string>, yi: nat)
    requires NoDuplicates(order) && yi < |order|
    requires forall k :: k in order ==> k in raw
    requires before.Keys == raw.Keys && data.Keys == raw.Keys
    requires forall k :: yi <= k < |order| ==> before[order[k]] == raw[order[k]]
    requires Flatten(before, order[..yi]) == FillForward(Flatten(raw, order[..yi]), None)
    requires data[order[yi]] == FillForward(raw[order[yi]], Carry(Flatten(raw, order[..yi]), None))
    requires forall k :: k in data && k != order[yi] ==> data[k] == before[k]
    ensures forall k :: yi + 1 <= k < |order| ==> data[order[k]] == raw[order[k]]
    ensures Flatten(data, order[..yi + 1]) == FillForward(Flatten(raw, order[..yi + 1]), None)
    ensures Carry(Flatten(raw, order[..yi + 1]), None) == Carry(raw[order[yi]], Carry(Flatten(raw, order[..yi]), None))
  {
    var y := order[yi];
    var done := order[..yi];
    assert order[..yi + 1] == done + [y];
    assert (done + [y])[..|done|] == done;
    assert y !in done;
    FlattenSame(data, before, done);
    FillAppend(Flatten(raw, done), raw[y], None);
    CarryAppend(Flatten(raw, done), raw[y], None);
    forall k | yi + 1 <= k < |order| ensures data[order[k]] == raw[order[k]] {
      assert order[k] != y;
    }
  }
}
