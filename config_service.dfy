/**
 * The main process's border configuration store (`configService.js`): the
 * `app_config` table as a map from key to row, the `tableExists` flag the
 * service keeps about it, and the change events it emits. A row's
 * `config_value` is the stored template, or `None` when it does not parse
 * as JSON. Failures of the database driver are parameters.
 */
module ConfigService {
  import opened Wrappers
  import opened Text
  import opened BorderTemplate

  const BorderKey: string := "window_border_template"

  /** The main process's default template; it has no description and no glow. */
  const MainDefault: Template := Template(Some("default"), Some("transparent"), Some("0px"), Some("Standard"),
    Some("production"), None, None)

  /** The properties `setBorderTemplate` requires, in the order it checks them. */
  datatype Prop = TemplateProp | ColorProp | WidthProp | NameProp

  const Required: seq<Prop> := [TemplateProp, ColorProp, WidthProp, NameProp]

  function Get(t: Template, p: Prop): Option<string> {
    match p
    case TemplateProp => t.template
    case ColorProp => t.color
    case WidthProp => t.width
    case NameProp => t.name
  }

  function PropName(p: Prop): string {
    match p
    case TemplateProp => "template"
    case ColorProp => "color"
    case WidthProp => "width"
    case NameProp => "name"
  }

  /** Position of a property in `Required`. */
  function Rank(p: Prop): (r: nat)
    ensures r < |Required| && Required[r] == p
  {
    match p
    case TemplateProp => 0
    case ColorProp => 1
    case WidthProp => 2
    case NameProp => 3
  }

  predicate AllPresent(t: Template) {
    t.template.Some? && t.color.Some? && t.width.Some? && t.name.Some?
  }

  datatype SetError = TableUnavailable | MissingField(prop: Prop) | BadColor | BadWidth | WriteFailed(message: string)

  /** The `error` text of a refused `setBorderTemplate`. */
  function ErrorText(e: SetError): (r: string)
    ensures r != []
  {
    match e
    case TableUnavailable => "Base de données non initialisée"
    case MissingField(p) => "Champ manquant: " + PropName(p)
    case BadColor => "Format de couleur invalide (ex: #ff0000 ou transparent)"
    case BadWidth => "Format de largeur invalide (ex: 2px)"
    case WriteFailed(m) => "Erreur de sauvegarde: " + m
  }

  /** The index of the first of `props` that is absent (`undefined` or `null`), or `|props|` when all are present. */
  function FirstMissing(t: Template, props: seq<Prop>): (i: nat)
    ensures i <= |props|
    ensures forall j :: 0 <= j < i ==> Get(t, props[j]).Some?
    ensures i < |props| ==> Get(t, props[i]).None?
  {
    if props == [] then 0
    else if Get(t, props[0]).None? then 0
    else 1 + FirstMissing(t, props[1..])
  }

  /** `setBorderTemplate`'s input checks: the first that fails, or `None`. */
  function CheckTemplate(t: Template): (r: Option<SetError>)
    ensures r.Some? ==> r.value.MissingField? || r.value == BadColor || r.value == BadWidth
    ensures r.None? ==> AllPresent(t)
  {
    var i := FirstMissing(t, Required);
    if i < |Required| then Some(MissingField(Required[i]))
    else
      assert Get(t, Required[0]).Some? && Get(t, Required[1]).Some? && Get(t, Required[2]).Some? && Get(t, Required[3]).Some?;
      if !ColorFormatOk(t.color.value) then Some(BadColor)
    else if !IsPxWidth(t.width.value) then Some(BadWidth)
    else None
  }

  /**
   * The checks run in order: a missing property (the first of template,
   * colour, width, name), then the colour format, then the width format.
   * The name is only required to be present.
   */
  lemma CheckOrder(t: Template)
    ensures CheckTemplate(t).None? <==> AllPresent(t) && ColorFormatOk(t.color.value) && IsPxWidth(t.width.value)
    ensures CheckTemplate(t) == Some(BadColor) <==> AllPresent(t) && !ColorFormatOk(t.color.value)
    ensures CheckTemplate(t) == Some(BadWidth) <==> AllPresent(t) && ColorFormatOk(t.color.value) && !IsPxWidth(t.width.value)
    ensures CheckTemplate(t).Some? && CheckTemplate(t).value.MissingField? ==>
      var p := CheckTemplate(t).value.prop;
      Get(t, p).None? && forall q :: Rank(q) < Rank(p) ==> Get(t, q).Some?
  {
    var i := FirstMissing(t, Required);
    if i == |Required| {
      assert Get(t, Required[0]).Some? && Get(t, Required[1]).Some? && Get(t, Required[2]).Some? && Get(t, Required[3]).Some?;
    } else {
      assert Rank(Required[i]) == i;
      forall q | Rank(q) < i ensures Get(t, q).Some? {
        assert Required[Rank(q)] == q;
      }
    }
  }

  /** A blank but present name is accepted here, while the renderer's validator refuses it. */
  lemma BlankNameAccepted(t: Template)
    requires AllPresent(t) && ColorFormatOk(t.color.value) && IsPxWidth(t.width.value) && IsBlank(t.name.value)
    ensures CheckTemplate(t) == None
    ensures NameRequired in ValidateTemplate(Object(t)).value.errors
  {
    CheckOrder(t);
    CollectsEveryError(t);
  }

  /** A template the renderer accepts is accepted here as well, unless it has no `template` property. */
  lemma RendererValidAccepted(t: Template)
    requires ValidateTemplate(Object(t)).value.isValid
    ensures CheckTemplate(t) == (if t.template.None? then Some(MissingField(TemplateProp)) else None)
  {
    ValidIff(Object(t));
    CheckOrder(t);
  }

  /** The object `setBorderTemplate` stores: trimmed name, environment 'custom' when absent or empty, glow null when absent or empty. */
  function StoredValue(t: Template): (r: Template)
    requires t.name.Some?
    ensures r.name.Some?
  {
    Template(t.template, t.color, t.width, Some(Trim(t.name.value)), Some(OrElse(t.environment, "custom")), None,
      if Present(t.glow) then t.glow else None)
  }

  /** The stored value keeps template, colour and width, always has an environment, and its name has no surrounding space. */
  lemma StoredValueShape(t: Template)
    requires t.name.Some?
    ensures var r := StoredValue(t);
      r.template == t.template && r.color == t.color && r.width == t.width
      && Present(r.environment) && (Present(t.environment) ==> r.environment == t.environment)
      && (r.name.value == [] || (!IsJsSpace(r.name.value[0]) && !IsJsSpace(r.name.value[|r.name.value| - 1])))
      && (r.name.value == [] <==> IsBlank(t.name.value))
      && (r.glow.Some? ==> Present(r.glow))
  {
    TrimSpec(t.name.value);
  }

  /** A stored value passes the checks again and is stored unchanged a second time. */
  lemma StoredValueStable(t: Template)
    requires CheckTemplate(t).None?
    ensures CheckTemplate(StoredValue(t)).None?
    ensures StoredValue(StoredValue(t)) == StoredValue(t)
  {
    CheckOrder(t);
    CheckOrder(StoredValue(t));
    TrimIdempotent(t.name.value);
  }

  /** The default template passes the checks and is stored exactly as it is. */
  lemma DefaultStoredUnchanged()
    ensures CheckTemplate(MainDefault).None?
    ensures StoredValue(MainDefault) == MainDefault
  {
    assert MainDefault.width.value[1..] == "px";
    CheckOrder(MainDefault);
    TrimUnspaced("Standard");
  }

  /** A row of `app_config`; `config == None` is a `config_value` that does not parse. */
  datatype Row = Row(config: Option<Template>, modifiedBy: Option<int>)

  /** `getBorderTemplate`'s answer; it always reports success. */
  datatype BorderReply = BorderReply(data: Template, modifiedBy: Option<int>, degradedMode: bool, isDefault: bool, failed: bool)

  datatype SetReply = Saved | Refused(error: SetError)

  /** One entry of `getConfigHistory`. */
  datatype HistoryEntry = HistoryEntry(config: Template, modifiedBy: string)

  datatype HistoryReply = HistoryReply(data: seq<HistoryEntry>, degradedMode: bool, failed: bool)

  class ConfigStore {
    var tableExists: bool
    /** The rows of `app_config` by `config_key`, which the schema makes unique. */
    var rows: map<string, Row>
    /** The `border-template-changed` events emitted so far. */
    var events: seq<Template>

    /** The constructor and `checkTableExists`: `found` is whether the table lookup returned a row (a failed lookup counts as not found). */
    constructor (found: bool, rows0: map<string, Row>)
      ensures tableExists == found && rows == rows0 && events == []
    {
      tableExists := found;
      rows := rows0;
      events := [];
    }

    /** `getBorderTemplate`: the stored template with its author, or the default one. */
    function GetBorderTemplate(): (r: BorderReply)
      reads this
      ensures r.degradedMode || r.isDefault ==> r.data == MainDefault && r.modifiedBy.None?
      ensures !tableExists ==> r.degradedMode && !r.isDefault && !r.failed
      ensures tableExists && BorderKey !in rows ==> r.isDefault && !r.degradedMode
      ensures tableExists && BorderKey in rows && rows[BorderKey].config.Some? ==>
        r == BorderReply(rows[BorderKey].config.value, rows[BorderKey].modifiedBy, false, false, false)
      ensures r.failed <==> tableExists && BorderKey in rows && rows[BorderKey].config.None?
    {
      if !tableExists then BorderReply(MainDefault, None, true, false, false)
      else if BorderKey !in rows then BorderReply(MainDefault, None, false, true, false)
      else
        match rows[BorderKey].config
        case None => BorderReply(MainDefault, None, true, false, true)
        case Some(cfg) => BorderReply(cfg, rows[BorderKey].modifiedBy, false, false, false)
    }

    /**
     * `setBorderTemplate`: creates the table if the service thinks it is
     * missing, then checks the input, then writes the row and emits the
     * stored value. Only a successful write changes the rows or emits.
     */
    method SetBorderTemplate(data: Template, userId: Option<int>, createFails: bool, writeFails: Option<string>)
      returns (r: SetReply)
      modifies this
      ensures !old(tableExists) && createFails ==> (r == Refused(TableUnavailable) && !tableExists)
      ensures !(!old(tableExists) && createFails) ==> tableExists
      ensures !(!old(tableExists) && createFails) && CheckTemplate(data).Some? ==> r == Refused(CheckTemplate(data).value)
      ensures !(!old(tableExists) && createFails) && CheckTemplate(data).None? && writeFails.Some? ==>
        r == Refused(WriteFailed(writeFails.value))
      ensures r == Saved <==> !(!old(tableExists) && createFails) && CheckTemplate(data).None? && writeFails.None?
      ensures r == Saved ==> (rows == old(rows)[BorderKey := Row(Some(StoredValue(data)), userId)]
        && events == old(events) + [StoredValue(data)])
      ensures r == Saved ==> GetBorderTemplate() == BorderReply(StoredValue(data), userId, false, false, false)
      ensures r != Saved ==> rows == old(rows) && events == old(events)
    {
      if !tableExists {
        if createFails {
          return Refused(TableUnavailable);
        }
        tableExists := true;
      }
      var check := CheckTemplate(data);
      if check.Some? {
        return Refused(check.value);
      }
      if writeFails.Some? {
        return Refused(WriteFailed(writeFails.value));
      }
      var value := StoredValue(data);
      rows := rows[BorderKey := Row(Some(value), userId)];
      events := events + [value];
      r := Saved;
    }

    /** `modified_by_username || 'Système'`: the author's user name, or 'Système' when there is none or it is empty. */
    static function Author(modifiedBy: Option<int>, usernames: map<int, string>): (who: string)
      ensures who != ""
      ensures modifiedBy.Some? && modifiedBy.value in usernames && usernames[modifiedBy.value] != "" ==>
        who == usernames[modifiedBy.value]
      ensures !(modifiedBy.Some? && modifiedBy.value in usernames && usernames[modifiedBy.value] != "") ==> who == "Système"
    {
      if modifiedBy.Some? && modifiedBy.value in usernames && usernames[modifiedBy.value] != "" then usernames[modifiedBy.value]
      else "Système"
    }

    /**
     * `getConfigHistory`: the rows for the border key, newest first, at most
     * `limit` of them (SQLite reads a negative limit as no limit), each with
     * its author's user name or 'Système'.
     */
    function ConfigHistory(limit: int, usernames: map<int, string>): (r: HistoryReply)
      reads this
      ensures !tableExists ==> r == HistoryReply([], true, false)
      ensures |r.data| <= 1
      ensures limit == 0 ==> r.data == []
      ensures tableExists && (BorderKey !in rows || limit == 0) ==> r == HistoryReply([], false, false)
      ensures tableExists && BorderKey in rows && limit != 0 && rows[BorderKey].config.None? ==>
        r == HistoryReply([], false, true)
      ensures tableExists && BorderKey in rows && limit != 0 && rows[BorderKey].config.Some? ==>
        r == HistoryReply([HistoryEntry(rows[BorderKey].config.value, Author(rows[BorderKey].modifiedBy, usernames))], false, false)
    {
      if !tableExists then HistoryReply([], true, false)
      else if BorderKey !in rows || limit == 0 then HistoryReply([], false, false)
      else
        var row := rows[BorderKey];
        match row.config
        case None => HistoryReply([], false, true)
        case Some(cfg) => HistoryReply([HistoryEntry(cfg, Author(row.modifiedBy, usernames))], false, false)
    }

    /**
     * `checkAndRepairConfig`: when the table is thought missing it is
     * created and the default template is written through
     * `setBorderTemplate`, whose own refusal is ignored.
     */
    method CheckAndRepairConfig(createFails: bool, writeFails: Option<string>) returns (ok: bool)
      modifies this
      ensures old(tableExists) ==> ok && tableExists && rows == old(rows) && events == old(events)
      ensures !old(tableExists) && createFails ==> !ok && !tableExists && rows == old(rows) && events == old(events)
      ensures !old(tableExists) && !createFails ==> (ok && tableExists
        && (writeFails.None? ==> rows == old(rows)[BorderKey := Row(Some(MainDefault), Some(1))] && events == old(events) + [MainDefault])
        && (writeFails.Some? ==> rows == old(rows) && events == old(events)))
    {
      if !tableExists {
        if createFails {
          return false;
        }
        tableExists := true;
        DefaultStoredUnchanged();
        var ignored := SetBorderTemplate(MainDefault, Some(1), false, writeFails);
      }
      ok := true;
    }
  }
}
