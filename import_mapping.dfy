/**
 * The pure parts of the spreadsheet import screen (`ImportData`): cleaning
 * of Swiss-formatted numbers and of dates before the rows are sent, the type
 * of the field a column feeds, the default key proposed for a new field, the
 * list-options text, the mapping templates and the column action switch.
 * The validation pass over the columns is in `ImportValidation`.
 */
module ImportMapping {
  import opened Wrappers
  import opened Text
  import opened Calendar
  import opened JsValue
  import opened DateFormat

  // ------------------------------------------------------------ Swiss numbers

  /** `s.replace(/'/g, '')`: the text without its apostrophes. */
  function WithoutApostrophes(s: string): (r: string)
    ensures '\'' !in r && |r| <= |s|
    ensures '\'' !in s ==> r == s
  {
    if s == [] then []
    else (if s[0] == '\'' then [] else [s[0]]) + WithoutApostrophes(s[1..])
  }

  /**
   * `/^-?\d*\.?\d+$/` followed by `parseFloat`: an optional minus, digits,
   * and optionally a point with at least one digit after it (the digits
   * before the point may be absent). The value is the exact decimal; the
   * converse is `SwissNumberText`.
   */
  function SwissNumber(s: string): (r: Option<real>)
    ensures r.Some? ==> exists neg: bool, i: string, f: string ::
      AllDigits(i) && AllDigits(f) && (i != [] || f != []) && s == DecimalText(neg, i, f)
      && r.value == Signed(neg, DecimalOf(i, f))
  {
    var (neg, body) := Unsigned(s);
    var ip := DigitPrefix(body);
    var rest := body[|ip|..];
    if rest == [] then
      if ip == [] then None
      else
        DecimalTextOf(s, ip, []);
        Some(Signed(neg, DecimalOf(ip, [])))
    else if rest[0] == '.' && |rest| >= 2 && AllDigits(rest[1..]) then
      assert rest == "." + rest[1..];
      DecimalTextOf(s, ip, rest[1..]);
      Some(Signed(neg, DecimalOf(ip, rest[1..])))
    else None
  }

  /** The unsigned part of `s` split into its digits `ip` and what follows them, empty or a point and `f`. */
  lemma DecimalTextOf(s: string, ip: string, f: string)
    requires IsPrefix(ip, Unsigned(s).1)
    requires Unsigned(s).1[|ip|..] == (if f == [] then [] else "." + f)
    ensures s == DecimalText(Unsigned(s).0, ip, f)
    ensures AllDigits([])
  {
    var body := Unsigned(s).1;
    assert body == ip + body[|ip|..];
  }

  /** Every text of the accepted shape is read as its decimal value. */
  lemma SwissNumberText(neg: bool, i: string, f: string)
    requires AllDigits(i) && AllDigits(f) && (i != [] || f != [])
    ensures SwissNumber(DecimalText(neg, i, f)) == Some(Signed(neg, DecimalOf(i, f)))
  {
    var s := DecimalText(neg, i, f);
    var tail: string := if f == [] then "" else "." + f;
    assert s == (if neg then "-" else "") + (i + tail);
    assert Unsigned(s) == (neg, i + tail) by {
      if !neg {
        assert s == i + tail;
        if i != [] {
          assert IsDigit(i[0]) && s[0] == i[0];
        } else {
          assert s[0] == '.';
        }
      } else {
        assert s == "-" + (i + tail);
        assert s[1..] == i + tail;
      }
    }
    DigitPrefixOfDigits(i, tail);
    assert (i + tail)[|i|..] == tail;
    if f != [] {
      assert tail[1..] == f;
    }
  }

  /** `cleanSwissNumberString(value)`: text of the accepted shape, apostrophes removed, becomes a number. */
  function CleanSwiss(v: Value): (r: Value)
    ensures !v.Str? ==> r == v
    ensures v.Str? ==> r == match SwissNumber(WithoutApostrophes(v.s)) case Some(x) => Num(x) case None => v
  {
    match v
    case Str(s) =>
      (match SwissNumber(WithoutApostrophes(s))
       case Some(x) => Num(x)
       case None => v)
    case _ => v
  }

  /** Cleaning is idempotent: a number passes through and rejected text stays as it was. */
  lemma CleanSwissIdempotent(v: Value)
    ensures CleanSwiss(CleanSwiss(v)) == CleanSwiss(v)
  {
  }

  lemma {:induction false} WithoutApostrophesAppend(a: string, b: string)
    ensures WithoutApostrophes(a + b) == WithoutApostrophes(a) + WithoutApostrophes(b)
  {
    if a != [] {
      WithoutApostrophesAppend(a[1..], b);
      assert (a + b)[1..] == a[1..] + b;
    } else {
      assert a + b == b;
    }
  }

  /**
   * An apostrophe anywhere is a thousands separator: "1'234.50" reads as
   * "1234.50", and a number with a separator cleans to the same number.
   */
  lemma CleanSwissSeparator(a: string, b: string)
    requires SwissNumber(WithoutApostrophes(a + b)).Some?
    ensures CleanSwiss(Str(a + "'" + b)) == Num(SwissNumber(WithoutApostrophes(a + b)).value)
  {
    SeparatorDropped(a, b);
  }

  lemma SeparatorDropped(a: string, b: string)
    ensures WithoutApostrophes(a + "'" + b) == WithoutApostrophes(a + b)
  {
    var q: string := ['\''];
    var aq := a + q;
    WithoutApostrophesAppend(aq, b);
    WithoutApostrophesAppend(a, q);
    WithoutApostrophesAppend(a, b);
    assert WithoutApostrophes(q) == [] by {
      assert q[1..] == [];
    }
    assert WithoutApostrophes(aq) == WithoutApostrophes(a);
  }

  /** The accepted texts end with a digit. */
  lemma DecimalTextEndsWithDigit(neg: bool, i: string, f: string)
    requires AllDigits(i) && AllDigits(f) && (i != [] || f != [])
    ensures var s := DecimalText(neg, i, f); s != [] && IsDigit(s[|s| - 1])
  {
  }

  /** Text ending with a point (such as "12.") is not a number and stays text. */
  lemma CleanSwissTrailingPoint(s: string)
    requires s != [] && s[|s| - 1] == '.'
    ensures SwissNumber(s) == None
  {
    if SwissNumber(s).Some? {
      var neg: bool, i: string, f: string :| AllDigits(i) && AllDigits(f) && (i != [] || f != []) && s == DecimalText(neg, i, f);
      DecimalTextEndsWithDigit(neg, i, f);
    }
  }

  // --------------------------------------------------------- column configs

  /** The three choices of the column action radio buttons. */
  datatype Action = MapAction | CreateAction | IgnoreAction

  /** The settings of a new field proposed for a column (`nouveauxChamps[header]`). */
  datatype FieldConfig = FieldConfig(
    categorieId: string,
    newCategorieNom: string,
    fieldLabel: string,
    key: string,
    typ: string,
    options: seq<string>,
    ordre: int,
    maxLength: Option<int>,
    afficherEnTete: bool)

  /** One entry of `finalColumnsConfig`, the per-column instructions sent with the rows. */
  datatype ColumnConfig =
    | MapColumn(target: string)
    | CreateColumn(fc: FieldConfig)
    | CreateInExisting(targetCategoryId: int, fc: FieldConfig)
    | CreateInNew(newCategoryName: string, fc: FieldConfig)
    | IgnoreColumn
    /** The older copy's `{ action }` for a column whose action is unset. */
    | UnsetColumn

  /** A field that already exists in some category. */
  datatype ExistingField = ExistingField(key: string, typ: string)

  /** `x || null` for a type name. */
  function TypeName(t: string): (r: Option<string>)
    ensures r.None? <==> t == []
    ensures r.Some? ==> r.value == t
  {
    if t == [] then None else Some(t)
  }

  function FindExisting(fields: seq<ExistingField>, key: string): (r: Option<ExistingField>)
    ensures r.Some? ==> r.value in fields && r.value.key == key
    ensures r.None? <==> forall f :: f in fields ==> f.key != key
  {
    if fields == [] then None
    else if fields[0].key == key then Some(fields[0])
    else FindExisting(fields[1..], key)
  }

  /** `getFieldType(header, columnConfig, existingFields)`. */
  function FieldType(cfg: Option<ColumnConfig>, existing: seq<ExistingField>): (r: Option<string>)
  {
    if cfg.None? then None
    else
      match cfg.value
      case CreateColumn(fc) => TypeName(fc.typ)
      case CreateInExisting(_, fc) => TypeName(fc.typ)
      case CreateInNew(_, fc) => TypeName(fc.typ)
      case MapColumn(target) =>
        if target == "numero_unique" then Some("text")
        else
          var f := FindExisting(existing, target);
          if f.Some? then TypeName(f.value.typ) else None
      case _ => None
  }

  /**
   * The type is that of the new field for the three create actions, 'text'
   * for the numéro, the existing field's type for another mapped column, and
   * null without a configuration, for an ignored or unset column, and for
   * a mapped target that names no field.
   */
  lemma FieldTypeCases(cfg: Option<ColumnConfig>, existing: seq<ExistingField>)
    ensures cfg.None? ==> FieldType(cfg, existing).None?
    ensures cfg.Some? && (cfg.value.CreateColumn? || cfg.value.CreateInExisting? || cfg.value.CreateInNew?) ==>
      FieldType(cfg, existing) == TypeName(cfg.value.fc.typ)
    ensures cfg == Some(MapColumn("numero_unique")) ==> FieldType(cfg, existing) == Some("text")
    ensures cfg.Some? && cfg.value.MapColumn? && cfg.value.target != "numero_unique" ==>
      (FieldType(cfg, existing).Some? <==> exists f :: f in existing && FindExisting(existing, cfg.value.target) == Some(f) && f.typ != [])
    ensures cfg.Some? && (cfg.value.IgnoreColumn? || cfg.value.UnsetColumn?) ==> FieldType(cfg, existing).None?
  {
  }

  /** The cleaning of one cell, given the header of its column (`None` past the last header). */
  function CleanCell(v: Value, header: Option<string>, config: map<string, ColumnConfig>, existing: seq<ExistingField>,
                     timestamp: real -> Option<ValidCivil>, hostParse: string -> Option<ValidCivil>): (r: Value)
  {
    if header.None? || header.value !in config || config[header.value].IgnoreColumn? then v
    else
      var t := FieldType(Some(config[header.value]), existing);
      if t == Some("number") then CleanSwiss(v)
      else if t == Some("date") then FormatDate(v, timestamp, hostParse)
      else v
  }

  /** `cleanRowData(row, headers, config, existingFields)`: `row.map` over the cells. */
  function CleanRow(row: seq<Value>, headers: seq<string>, config: map<string, ColumnConfig>, existing: seq<ExistingField>,
                    timestamp: real -> Option<ValidCivil>, hostParse: string -> Option<ValidCivil>): (r: seq<Value>)
    ensures |r| == |row|
  {
    seq(|row|, i requires 0 <= i < |row| =>
      CleanCell(row[i], if i < |headers| then Some(headers[i]) else None, config, existing, timestamp, hostParse))
  }

  /**
   * A cleaned row has the row's length; a cell past the headers, of an
   * unconfigured or ignored column, or of a column that is neither a number
   * nor a date column is kept; number cells go through `CleanSwiss` and
   * date cells through `FormatDate`.
   */
  lemma CleanRowCells(row: seq<Value>, headers: seq<string>, config: map<string, ColumnConfig>, existing: seq<ExistingField>,
                      timestamp: real -> Option<ValidCivil>, hostParse: string -> Option<ValidCivil>, i: nat)
    requires i < |row|
    ensures var r := CleanRow(row, headers, config, existing, timestamp, hostParse);
      |r| == |row|
      && (i >= |headers| || headers[i] !in config || config[headers[i]].IgnoreColumn? ==> r[i] == row[i])
      && (i < |headers| && headers[i] in config ==>
            var t := FieldType(Some(config[headers[i]]), existing);
            (t == Some("number") ==> r[i] == CleanSwiss(row[i]))
            && (t == Some("date") ==> r[i] == FormatDate(row[i], timestamp, hostParse))
            && (t != Some("number") && t != Some("date") ==> r[i] == row[i]))
  {
    if i < |headers| && headers[i] in config && config[headers[i]].IgnoreColumn? {
      assert FieldType(Some(config[headers[i]]), existing).None?;
    }
  }

  /** Cleaning a cleaned row changes nothing, when every date it meets has a four-digit year. */
  lemma CleanRowIdempotent(row: seq<Value>, headers: seq<string>, config: map<string, ColumnConfig>, existing: seq<ExistingField>,
                           timestamp: real -> Option<ValidCivil>, hostParse: string -> Option<ValidCivil>)
    requires forall i :: 0 <= i < |row| ==>
      var d := DateOf(row[i], timestamp, hostParse); d.Some? ==> 1000 <= d.value.year <= 9999
    ensures var r := CleanRow(row, headers, config, existing, timestamp, hostParse);
      CleanRow(r, headers, config, existing, timestamp, hostParse) == r
  {
    var r := CleanRow(row, headers, config, existing, timestamp, hostParse);
    forall i | 0 <= i < |row|
      ensures CleanRow(r, headers, config, existing, timestamp, hostParse)[i] == r[i]
    {
      FormatIdempotent(row[i], timestamp, hostParse);
      CleanSwissIdempotent(row[i]);
    }
  }

  // ------------------------------------------------------------- default key

  /** A lower-cased character outside `[a-z0-9_]` becomes '_'. */
  function KeyChar(c: char): (r: char)
    ensures IsKeyChar(r) && !('A' <= r <= 'Z')
    ensures ('a' <= c <= 'z' || IsDigit(c) || c == '_') ==> r == c
  {
    var l := LowerChar(c);
    if 'a' <= l <= 'z' || IsDigit(l) || l == '_' then l else '_'
  }

  /**
   * The key proposed for a new field: `header.toLowerCase().replace(/[^a-z0-9_]/g, '_').substring(0, 50)`,
   * followed in the renderer by `|| fallback` (`champ_<Date.now()>`; the older copy has no fallback).
   */
  function DefaultKey(header: string, fallback: Option<string>): (r: string)
    ensures |header| > 0 ==> |r| == Min(|header|, 50)
    ensures |header| > 0 ==> forall i :: 0 <= i < |r| ==> r[i] == KeyChar(header[i])
    ensures header == [] ==> r == if fallback.Some? then fallback.value else ""
  {
    var k := seq(Min(|header|, 50), i requires 0 <= i < Min(|header|, 50) => KeyChar(header[i]));
    if k == [] && fallback.Some? then fallback.value else k
  }

  /** The renderer's fallback key. */
  function FallbackKey(now: nat): (r: string)
    ensures IsKey(r)
  {
    var r := "champ_" + NatToString(now);
    assert forall i :: 6 <= i < |r| ==> r[i] == NatToString(now)[i - 6];
    r
  }

  /**
   * The older copy, without a fallback, proposes an empty key exactly for an
   * empty header, and that key fails its own key test; on any other header
   * both copies propose the same key.
   */
  lemma LegacyDefaultKey(header: string, fallback: string)
    ensures DefaultKey(header, None) == [] <==> header == []
    ensures !IsKey(DefaultKey([], None))
    ensures header != [] ==> DefaultKey(header, Some(fallback)) == DefaultKey(header, None)
  {
  }

  /**
   * The proposed key always passes the key test of the validation (with the
   * renderer's fallback for an empty header), has no upper-case letter, and
   * proposing a key for a proposed key gives it back.
   */
  lemma DefaultKeyValid(header: string, now: nat)
    ensures IsKey(DefaultKey(header, Some(FallbackKey(now))))
    ensures header != [] ==> IsKey(DefaultKey(header, None))
    ensures header != [] ==> DefaultKey(DefaultKey(header, None), None) == DefaultKey(header, None)
    ensures header != [] ==> forall i :: 0 <= i < |DefaultKey(header, None)| ==> !('A' <= DefaultKey(header, None)[i] <= 'Z')
  {
    if header != [] {
      var k := DefaultKey(header, None);
      var kk := DefaultKey(k, None);
      assert |kk| == |k|;
      forall i | 0 <= i < |k| ensures kk[i] == k[i] {
        assert k[i] == KeyChar(header[i]);
      }
    }
  }

  // ------------------------------------------------------------ list options

  /** The pieces of `parts` that are not empty, in order. */
  function NonEmpty(parts: seq<string>): (r: seq<string>)
    ensures |r| <= |parts|
    ensures forall k :: 0 <= k < |r| ==> r[k] != [] && r[k] in parts
  {
    if parts == [] then []
    else (if parts[0] == [] then [] else [parts[0]]) + NonEmpty(parts[1..])
  }

  function TrimAll(parts: seq<string>): (r: seq<string>)
    ensures |r| == |parts| && forall k :: 0 <= k < |r| ==> r[k] == Trim(parts[k])
  {
    seq(|parts|, k requires 0 <= k < |parts| => Trim(parts[k]))
  }

  /** `optionsString.split(',').map(opt => opt.trim()).filter(opt => opt !== '')`. */
  function ParseOptions(text: string): (r: seq<string>)
  {
    NonEmpty(TrimAll(Split(text, ',')))
  }

  /** A trimmed, non-empty option without a comma. */
  predicate CleanOption(o: string) {
    o != [] && Trim(o) == o && ',' !in o
  }

  /** Every option is non-empty, trimmed and comma-free. */
  lemma ParseOptionsClean(text: string)
    ensures forall k :: 0 <= k < |ParseOptions(text)| ==> CleanOption(ParseOptions(text)[k])
  {
    var pieces := Split(text, ',');
    var t := TrimAll(pieces);
    forall k | 0 <= k < |ParseOptions(text)| ensures CleanOption(ParseOptions(text)[k]) {
      var o := ParseOptions(text)[k];
      var j :| 0 <= j < |t| && t[j] == o;
      TrimIdempotent(pieces[j]);
      TrimKeepsOut(pieces[j], ',');
    }
  }

  lemma {:induction false} NonEmptyOfClean(parts: seq<string>)
    requires forall k :: 0 <= k < |parts| ==> parts[k] != []
    ensures NonEmpty(parts) == parts
  {
    if parts != [] {
      NonEmptyOfClean(parts[1..]);
      assert [parts[0]] + parts[1..] == parts;
    }
  }

  /** Options typed as a comma-separated list are read back exactly. */
  lemma ParseOptionsJoin(opts: seq<string>)
    requires opts != [] && forall k :: 0 <= k < |opts| ==> CleanOption(opts[k])
    ensures ParseOptions(Join(opts, ',')) == opts
  {
    SplitJoin(opts, ',');
    assert TrimAll(opts) == opts;
    NonEmptyOfClean(opts);
  }

  // --------------------------------------------------------------- templates

  /** A saved mapping template; `payload` is its mapping, column actions and new-field settings. */
  datatype Template<T> = Template(name: string, payload: T)

  /** `templates.filter(t => t.name !== name)`. */
  function Drop<T>(templates: seq<Template<T>>, name: string): (r: seq<Template<T>>)
    ensures |r| <= |templates|
    ensures forall k :: 0 <= k < |r| ==> r[k] in templates && r[k].name != name
    ensures forall k :: 0 <= k < |templates| && templates[k].name != name ==> templates[k] in r
  {
    if templates == [] then []
    else (if templates[0].name != name then [templates[0]] else []) + Drop(templates[1..], name)
  }

  /** `Drop(...).concat(newTemplate)`: at most one template per name, the saved one last. */
  function Upsert<T>(templates: seq<Template<T>>, name: string, payload: T): (r: seq<Template<T>>)
    ensures r != [] && r[|r| - 1] == Template(name, payload)
    ensures r[..|r| - 1] == Drop(templates, name)
  {
    var r := Drop(templates, name) + [Template(name, payload)];
    assert r[..|r| - 1] == Drop(templates, name);
    r
  }

  /** The templates list, the selected template and the name typed in the save box. */
  datatype TemplateState<T> = TemplateState(templates: seq<Template<T>>, selected: string, nameInput: string)

  /** `saveCurrentTemplate()`: refused (`None`) on a blank name, in both copies. */
  function SaveTemplate<T>(st: TemplateState<T>, payload: T): (r: Option<TemplateState<T>>)
    ensures r.None? <==> Trim(st.nameInput) == []
    ensures r.Some? ==> r.value == TemplateState(Upsert(st.templates, Trim(st.nameInput), payload), Trim(st.nameInput), "")
  {
    var name := Trim(st.nameInput);
    if name == [] then None else Some(TemplateState(Upsert(st.templates, name, payload), name, ""))
  }

  /** `deleteTemplate(name)` of the renderer, after the confirmation dialog answered `confirmed`. */
  function DeleteTemplate<T>(st: TemplateState<T>, name: string, confirmed: bool): (r: TemplateState<T>)
    ensures !confirmed ==> r == st
    ensures confirmed ==> r.templates == Drop(st.templates, name) && r.nameInput == st.nameInput
    ensures confirmed ==> r.selected == if st.selected == name then "" else st.selected
  {
    if !confirmed then st
    else TemplateState(Drop(st.templates, name), if st.selected == name then "" else st.selected, st.nameInput)
  }

  /** The number of templates called `name`. */
  function CountNamed<T>(templates: seq<Template<T>>, name: string): nat {
    if templates == [] then 0 else (if templates[0].name == name then 1 else 0) + CountNamed(templates[1..], name)
  }

  lemma {:induction false} CountAppend<T>(a: seq<Template<T>>, b: seq<Template<T>>, name: string)
    ensures CountNamed(a + b, name) == CountNamed(a, name) + CountNamed(b, name)
  {
    if a != [] {
      CountAppend(a[1..], b, name);
      assert (a + b)[1..] == a[1..] + b;
    } else {
      assert a + b == b;
    }
  }

  lemma {:induction false} CountDropped<T>(templates: seq<Template<T>>, name: string)
    ensures CountNamed(Drop(templates, name), name) == 0
  {
    if templates != [] {
      CountDropped(templates[1..], name);
      CountAppend(if templates[0].name != name then [templates[0]] else [], Drop(templates[1..], name), name);
    }
  }

  /** After a save exactly one template has the name, and the others keep their order. */
  lemma UpsertUnique<T>(templates: seq<Template<T>>, name: string, payload: T)
    ensures CountNamed(Upsert(templates, name, payload), name) == 1
    ensures var r := Upsert(templates, name, payload);
      forall k :: 0 <= k < |r| && r[k].name != name ==> r[k] in templates
    ensures var r := Upsert(templates, name, payload);
      forall k :: 0 <= k < |templates| && templates[k].name != name ==> templates[k] in r
  {
    CountDropped(templates, name);
    CountAppend(Drop(templates, name), [Template(name, payload)], name);
  }

  lemma {:induction false} DropAbsent<T>(templates: seq<Template<T>>, name: string)
    requires forall k :: 0 <= k < |templates| ==> templates[k].name != name
    ensures Drop(templates, name) == templates
  {
    if templates != [] {
      DropAbsent(templates[1..], name);
      assert [templates[0]] + templates[1..] == templates;
    }
  }

  lemma DropDrop<T>(templates: seq<Template<T>>, name: string)
    ensures Drop(Drop(templates, name), name) == Drop(templates, name)
  {
    DropAbsent(Drop(templates, name), name);
  }

  lemma {:induction false} DropAppendSame<T>(templates: seq<Template<T>>, t: Template<T>)
    ensures Drop(templates + [t], t.name) == Drop(templates, t.name)
  {
    if templates != [] {
      DropAppendSame(templates[1..], t);
      assert (templates + [t])[1..] == templates[1..] + [t];
    } else {
      assert Drop([t], t.name) == [] + Drop([t][1..], t.name);
    }
  }

  /** Saving twice under one name keeps only the second payload; deleting after saving is deleting. */
  lemma UpsertLaws<T>(templates: seq<Template<T>>, name: string, p: T, q: T)
    ensures Upsert(Upsert(templates, name, p), name, q) == Upsert(templates, name, q)
    ensures Drop(Upsert(templates, name, p), name) == Drop(templates, name)
  {
    DropAppendSame(Drop(templates, name), Template(name, p));
    DropDrop(templates, name);
  }

  // ------------------------------------------------------ column action switch

  /**
   * `handleColumnActionChange(header, action)`: the action is recorded;
   * 'ignore' maps the column to 'ignorer', 'create' clears its target, and
   * leaving 'ignore' for 'map' clears the 'ignorer' target.
   */
  function ColumnActionChange(actions: map<string, Action>, mapping: map<string, string>, header: string, action: Action)
    : (r: (map<string, Action>, map<string, string>))
    ensures r.0 == actions[header := action]
    ensures header in r.1 <==> (header in mapping || action != MapAction)
    ensures forall h :: h != header ==> (h in r.1 <==> h in mapping)
    ensures forall h :: h in mapping && h != header ==> r.1[h] == mapping[h]
  {
    var m1 := if action == IgnoreAction then mapping[header := "ignorer"]
      else if header in mapping && mapping[header] == "ignorer" then mapping[header := ""]
      else mapping;
    var m2 := if action == CreateAction then m1[header := ""] else m1;
    assert action != MapAction ==> header in m2;
    (actions[header := action], m2)
  }

  /**
   * The column's target after the switch: 'ignorer' for 'ignore', empty for
   * 'create', and for 'map' empty when it was 'ignorer' and unchanged otherwise;
   * choosing the same action again changes nothing more.
   */
  lemma ColumnActionTarget(actions: map<string, Action>, mapping: map<string, string>, header: string, action: Action)
    ensures var r := ColumnActionChange(actions, mapping, header, action);
      (action == IgnoreAction ==> r.1[header] == "ignorer")
      && (action == CreateAction ==> r.1[header] == "")
      && (action == MapAction && header in mapping ==> r.1[header] == if mapping[header] == "ignorer" then "" else mapping[header])
      && ColumnActionChange(r.0, r.1, header, action) == r
  {
    var r := ColumnActionChange(actions, mapping, header, action);
    var again := ColumnActionChange(r.0, r.1, header, action);
    assert again.0 == r.0;
    assert again.1 == r.1;
  }
}
