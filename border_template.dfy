/**
 * The renderer's window-border service (`borderTemplateService.js`): the
 * built-in environment templates, the template validator, and the service
 * object that holds the current template, its listeners and the degraded
 * mode flag. The preload bridge is a parameter saying which entry points
 * exist; what the main process answers is a parameter too.
 */
module BorderTemplate {
  import opened Wrappers
  import opened Text

  /** A border template object; an absent, `undefined` or `null` property is `None`. */
  datatype Template = Template(
    template: Option<string>, color: Option<string>, width: Option<string>, name: Option<string>,
    environment: Option<string>, description: Option<string>, glow: Option<string>)

  /** What the validator is given: `null`/`undefined`, a value that is not an object, or a template object. */
  datatype Input = Missing | NotAnObject | Object(t: Template)

  function Full(template: string, color: string, width: string, name: string,
                environment: string, description: string, glow: string): (r: Template)
    ensures r.template == Some(template) && r.color == Some(color) && r.width == Some(width)
    ensures r.name == Some(name) && r.glow == Some(glow)
  {
    Template(Some(template), Some(color), Some(width), Some(name), Some(environment), Some(description), Some(glow))
  }

  const Development: Template := Full("development", "#28a745", "4px", "Développement", "development",
    "Environnement de développement", "0 0 8px rgba(40, 167, 69, 0.5)")
  const Staging: Template := Full("staging", "#ffc107", "3px", "Recette", "staging",
    "Environnement de test et validation", "0 0 6px rgba(255, 193, 7, 0.4)")
  const Production: Template := Full("production", "#dc3545", "2px", "Production", "production",
    "Environnement de production", "0 0 4px rgba(220, 53, 69, 0.3)")
  const DefaultTemplate: Template := Full("default", "transparent", "0px", "Standard", "production",
    "Aucune bordure visible", "none")

  /** `ENVIRONMENT_TEMPLATES`, by key. */
  const EnvironmentTemplates: map<string, Template> :=
    map["development" := Development, "staging" := Staging, "production" := Production, "default" := DefaultTemplate]

  /** JavaScript truthiness of an optional string property. */
  predicate Present(o: Option<string>) {
    o.Some? && o.value != ""
  }

  predicate IsHexDigit(c: char) {
    '0' <= c <= '9' || 'a' <= c <= 'f' || 'A' <= c <= 'F'
  }

  /** `/^#[0-9A-Fa-f]{6}$/`. */
  predicate IsHexColor(s: string) {
    |s| == 7 && s[0] == '#' && forall i :: 1 <= i < 7 ==> IsHexDigit(s[i])
  }

  /** The accepted colour values: 'transparent' or a six-digit hex colour. */
  predicate ColorFormatOk(s: string) {
    s == "transparent" || IsHexColor(s)
  }

  /** `/^\d+px$/`: one or more ASCII digits followed by "px", and nothing else. */
  predicate IsPxWidth(s: string) {
    |s| >= 3 && s[|s| - 2..] == "px" && AllDigits(s[..|s| - 2])
  }

  datatype TemplateError = InvalidTemplate | NameRequired | ColorRequired | ColorFormat | WidthRequired | WidthFormat

  function Message(e: TemplateError): (r: string)
    ensures r != []
  {
    match e
    case InvalidTemplate => "Template invalide"
    case NameRequired => "Le nom du template est obligatoire"
    case ColorRequired => "La couleur est obligatoire"
    case ColorFormat => "Format de couleur invalide (ex: #ff0000 ou transparent)"
    case WidthRequired => "La largeur est obligatoire"
    case WidthFormat => "Format de largeur invalide (ex: 2px)"
  }

  datatype Validation = Validation(isValid: bool, errors: seq<TemplateError>)

  /** The three property checks, each giving its error (if any) independently of the others. */
  function NameErrors(name: Option<string>): (r: seq<TemplateError>)
    ensures r == [] || r == [NameRequired]
  {
    if !Present(name) || IsBlank(name.value) then [NameRequired] else []
  }

  function ColorErrors(color: Option<string>): (r: seq<TemplateError>)
    ensures r == [] || r == [ColorRequired] || r == [ColorFormat]
  {
    if !Present(color) then [ColorRequired]
    else if !ColorFormatOk(color.value) then [ColorFormat]
    else []
  }

  function WidthErrors(width: Option<string>): (r: seq<TemplateError>)
    ensures r == [] || r == [WidthRequired] || r == [WidthFormat]
  {
    if !Present(width) then [WidthRequired]
    else if !IsPxWidth(width.value) then [WidthFormat]
    else []
  }

  /**
   * `validateTemplate`. `None` is the TypeError of reading `t.name` from a
   * `null` template, after 'Template invalide' was pushed; a value that is
   * not an object has no properties, so every check fails on it.
   */
  function ValidateTemplate(v: Input): (r: Option<Validation>)
    ensures r.None? <==> v.Missing?
    ensures r.Some? ==> (r.value.isValid <==> r.value.errors == [])
    ensures r.Some? ==> (InvalidTemplate in r.value.errors <==> v.NotAnObject?)
    ensures r.Some? && v.Object? ==> |r.value.errors| <= 3
  {
    match v
    case Missing => None
    case NotAnObject =>
      var errors := [InvalidTemplate, NameRequired, ColorRequired, WidthRequired];
      Some(Validation(errors == [], errors))
    case Object(t) =>
      var errors := NameErrors(t.name) + ColorErrors(t.color) + WidthErrors(t.width);
      Some(Validation(errors == [], errors))
  }

  /** The three properties the validator demands of a template. */
  predicate NameOk(t: Template) {
    t.name.Some? && !IsBlank(t.name.value)
  }

  predicate ColorOk(t: Template) {
    t.color.Some? && ColorFormatOk(t.color.value)
  }

  predicate WidthOk(t: Template) {
    t.width.Some? && IsPxWidth(t.width.value)
  }

  /** A template is valid exactly when it is an object with a non-blank name, a valid colour and a valid width. */
  lemma ValidIff(v: Input)
    ensures ValidateTemplate(v).Some? && ValidateTemplate(v).value.isValid
      <==> v.Object? && NameOk(v.t) && ColorOk(v.t) && WidthOk(v.t)
  {
    if v.Object? {
      var t := v.t;
      if t.name.Some? && !IsBlank(t.name.value) {
        assert t.name.value != [] by {
          if t.name.value == [] { assert IsBlank(t.name.value); }
        }
      }
      if t.color.Some? && ColorFormatOk(t.color.value) {
        assert t.color.value != [];
      }
      if t.width.Some? && IsPxWidth(t.width.value) {
        assert t.width.value != [];
      }
    }
  }

  /**
   * Every failing check contributes its error, whatever the other checks
   * find: the validator reports all errors, not only the first, in the
   * order name, colour, width.
   */
  lemma CollectsEveryError(t: Template)
    ensures var e := ValidateTemplate(Object(t)).value.errors;
      (NameRequired in e <==> !NameOk(t))
      && (ColorRequired in e <==> !Present(t.color))
      && (ColorFormat in e <==> Present(t.color) && !ColorFormatOk(t.color.value))
      && (WidthRequired in e <==> !Present(t.width))
      && (WidthFormat in e <==> Present(t.width) && !IsPxWidth(t.width.value))
      && |e| == (if NameOk(t) then 0 else 1) + (if ColorOk(t) then 0 else 1) + (if WidthOk(t) then 0 else 1)
  {
    ValidIff(Object(t));
    if t.name.Some? && t.name.value == [] {
      assert IsBlank(t.name.value);
    }
  }

  /** A template with a non-blank name, a valid colour and a valid width passes with no error. */
  lemma Passes(t: Template)
    requires NameOk(t) && ColorOk(t) && WidthOk(t)
    ensures ValidateTemplate(Object(t)) == Some(Validation(true, []))
  {
    ValidIff(Object(t));
  }

  lemma DevelopmentValid()
    ensures ValidateTemplate(Object(Development)) == Some(Validation(true, []))
  {
    assert Development.name.value[0] == 'D';
    assert Development.width.value[1..] == "px";
    Passes(Development);
  }

  lemma StagingValid()
    ensures ValidateTemplate(Object(Staging)) == Some(Validation(true, []))
  {
    assert Staging.name.value[0] == 'R';
    assert Staging.width.value[1..] == "px";
    Passes(Staging);
  }

  lemma ProductionValid()
    ensures ValidateTemplate(Object(Production)) == Some(Validation(true, []))
  {
    assert Production.name.value[0] == 'P';
    assert Production.width.value[1..] == "px";
    Passes(Production);
  }

  lemma DefaultValid()
    ensures ValidateTemplate(Object(DefaultTemplate)) == Some(Validation(true, []))
  {
    assert DefaultTemplate.name.value[0] == 'S';
    assert DefaultTemplate.width.value[1..] == "px";
    Passes(DefaultTemplate);
  }

  /** Every built-in environment template passes the validator. */
  lemma EnvironmentTemplatesValid()
    ensures forall k :: k in EnvironmentTemplates ==> ValidateTemplate(Object(EnvironmentTemplates[k])) == Some(Validation(true, []))
  {
    DevelopmentValid();
    StagingValid();
    ProductionValid();
    DefaultValid();
  }

  /** `errors.join(', ')`. */
  function JoinMessages(errors: seq<TemplateError>): (r: string)
    ensures errors == [] <==> r == []
  {
    if errors == [] then []
    else if |errors| == 1 then Message(errors[0])
    else Message(errors[0]) + ", " + JoinMessages(errors[1..])
  }

  /** The CSS custom properties `applyTemplate` writes on the document root. */
  datatype Css = Css(width: string, color: string, style: string, glow: string)

  /** `o || fallback` on an optional string property. */
  function OrElse(o: Option<string>, fallback: string): (r: string)
    ensures Present(o) ==> r == o.value
    ensures !Present(o) ==> r == fallback
  {
    if Present(o) then o.value else fallback
  }

  /** The CSS `applyTemplate` writes for a template: its width, colour and glow, each falling back when absent or empty. */
  function CssFor(t: Template): (r: Css)
    ensures r.style == "solid"
    ensures r.width != [] && r.color != [] && r.glow != []
    ensures Present(t.width) ==> r.width == t.width.value
    ensures Present(t.color) ==> r.color == t.color.value
  {
    Css(OrElse(t.width, "0px"), OrElse(t.color, "transparent"), "solid", OrElse(t.glow, "none"))
  }

  /** A valid template is drawn with exactly its own width and colour. */
  lemma ValidTemplateCss(t: Template)
    requires ValidateTemplate(Object(t)).value.isValid
    ensures CssFor(t).width == t.width.value && CssFor(t).color == t.color.value
  {
    ValidIff(Object(t));
    assert t.width.value != [] && t.color.value != [];
  }

  /** A listener of the service; a value passed to `subscribe` may also not be a function. */
  datatype Callback = Function(id: nat) | NotAFunction

  /** The function `subscribe` returns. */
  datatype Unsubscribe = NoOp | Remove(id: nat)

  /** One call of a listener with a template. */
  datatype Delivery = Delivery(listener: nat, template: Template)

  predicate NoDuplicates(s: seq<nat>) {
    forall i, j :: 0 <= i < j < |s| ==> s[i] != s[j]
  }

  /** `Set.prototype.add`: a listener already present keeps its place. */
  function Added(s: seq<nat>, id: nat): (r: seq<nat>)
    ensures id in r && forall x :: x in r <==> x in s || x == id
    ensures NoDuplicates(s) ==> NoDuplicates(r)
  {
    if id in s then s else s + [id]
  }

  /** `Set.prototype.delete`: the other listeners stay, in their order. */
  function Without(s: seq<nat>, id: nat): (r: seq<nat>)
    ensures forall x :: x in r <==> x in s && x != id
    ensures |r| <= |s|
  {
    if s == [] then []
    else if s[0] == id then Without(s[1..], id)
    else [s[0]] + Without(s[1..], id)
  }

  /** Removing a listener keeps the others distinct. */
  lemma {:induction false} WithoutNoDuplicates(s: seq<nat>, id: nat)
    requires NoDuplicates(s)
    ensures NoDuplicates(Without(s, id))
  {
    if s != [] {
      assert NoDuplicates(s[1..]) by {
        forall i, j | 0 <= i < j < |s[1..]| ensures s[1..][i] != s[1..][j] {
          assert s[1..][i] == s[i + 1] && s[1..][j] == s[j + 1];
        }
      }
      WithoutNoDuplicates(s[1..], id);
      if s[0] != id {
        assert [s[0]] + s[1..] == s;
        ConsNoDuplicates(s[0], s[1..], Without(s[1..], id));
      }
    }
  }

  lemma ConsNoDuplicates(a: nat, tail: seq<nat>, r: seq<nat>)
    requires NoDuplicates([a] + tail) && forall x :: x in r ==> x in tail
    requires NoDuplicates(r)
    ensures NoDuplicates([a] + r)
  {
    forall k | 0 <= k < |tail| ensures tail[k] != a {
      assert ([a] + tail)[0] == a && ([a] + tail)[k + 1] == tail[k];
    }
    assert a !in r;
    forall i, j | 0 <= i < j < |[a] + r|
      ensures ([a] + r)[i] != ([a] + r)[j]
    {
      if i == 0 {
        assert ([a] + r)[j] == r[j - 1] && r[j - 1] in r;
      } else {
        assert ([a] + r)[i] == r[i - 1] && ([a] + r)[j] == r[j - 1];
      }
    }
  }

  lemma {:induction false} WithoutAbsent(s: seq<nat>, id: nat)
    requires id !in s
    ensures Without(s, id) == s
  {
    if s != [] {
      WithoutAbsent(s[1..], id);
    }
  }

  lemma {:induction false} WithoutAppend(s: seq<nat>, id: nat)
    requires id !in s
    ensures Without(s + [id], id) == s
  {
    if s == [] {
      assert [id][1..] == [];
    } else {
      assert (s + [id])[1..] == s[1..] + [id];
      WithoutAppend(s[1..], id);
      assert [s[0]] + s[1..] == s;
    }
  }

  /** Subscribing a new listener and calling the returned function leaves the listeners as they were. */
  lemma SubscribeThenUnsubscribe(s: seq<nat>, id: nat)
    requires id !in s
    ensures Without(Added(s, id), id) == s
  {
    WithoutAppend(s, id);
  }

  /** One call for every listener, in subscription order. */
  function Deliveries(listeners: seq<nat>, t: Template): (r: seq<Delivery>)
    ensures |r| == |listeners|
    ensures forall i :: 0 <= i < |r| ==> r[i] == Delivery(listeners[i], t)
  {
    if listeners == [] then [] else Deliveries(listeners[..|listeners| - 1], t) + [Delivery(listeners[|listeners| - 1], t)]
  }

  /** What the main process answers to a request. */
  datatype Reply = Reply(success: bool, error: Option<string>)

  /** The outcome of an async operation: the object it resolves to, or a rejected promise. */
  datatype Outcome = Resolved(reply: Reply) | Rejected

  /** `saveTemplate`'s checks before the main process is asked; `None` means the request is sent. */
  function SavePrecheck(hasBridge: bool, data: Input): (r: Option<Outcome>)
    ensures r.None? <==> hasBridge && ValidateTemplate(data).Some? && ValidateTemplate(data).value.isValid
    ensures !hasBridge ==> r == Some(Resolved(Reply(false, Some("Service non disponible en mode dégradé"))))
    ensures hasBridge && data.Missing? ==> r == Some(Rejected)
    ensures r.Some? && r.value.Resolved? ==> !r.value.reply.success
  {
    if !hasBridge then Some(Resolved(Reply(false, Some("Service non disponible en mode dégradé"))))
    else
      match ValidateTemplate(data)
      case None => Some(Rejected)
      case Some(v) =>
        if !v.isValid then Some(Resolved(Reply(false, Some("Erreurs de validation: " + JoinMessages(v.errors)))))
        else None
  }

  /** An invalid template is refused with every one of its messages. */
  lemma SaveRefusesInvalid(t: Template)
    requires !ValidateTemplate(Object(t)).value.isValid
    ensures SavePrecheck(true, Object(t)) ==
      Some(Resolved(Reply(false, Some("Erreurs de validation: " + JoinMessages(ValidateTemplate(Object(t)).value.errors)))))
  {
  }

  /** What `window.api.getBorderTemplate()` gives on one attempt. */
  datatype Fetch = Answer(success: bool, data: Option<Template>, degradedMode: bool, error: Option<string>) | Failed(message: string)

  predicate Loaded(f: Fetch) {
    f.Answer? && f.success && f.data.Some?
  }

  /** The error an unsuccessful attempt throws: `result.error || 'no data'`, or the rejection itself. */
  function FailureMessage(f: Fetch): (r: string)
    ensures f.Answer? ==> r != []
  {
    if f.Failed? then f.message else OrElse(f.error, "no data")
  }

  const MaxRetries: nat := 3

  /** The first attempt from `attempt` up to `MaxRetries` that loads a template. */
  function FirstLoaded(answers: nat -> Fetch, attempt: nat): (r: Option<nat>)
    decreases MaxRetries + 1 - attempt
    ensures r.Some? ==> attempt <= r.value <= MaxRetries && Loaded(answers(r.value))
    ensures r.Some? ==> forall k :: attempt <= k < r.value ==> !Loaded(answers(k))
    ensures r.None? ==> forall k :: attempt <= k <= MaxRetries ==> !Loaded(answers(k))
  {
    if attempt > MaxRetries then None
    else if Loaded(answers(attempt)) then Some(attempt)
    else FirstLoaded(answers, attempt + 1)
  }

  /** The pauses after the first `n` failed attempts: 1000·attempt ms each. */
  function Waits(n: nat): (r: seq<nat>)
    ensures |r| == n
    ensures forall i :: 0 <= i < n ==> r[i] == 1000 * (i + 1)
  {
    if n == 0 then [] else Waits(n - 1) + [1000 * n]
  }

  /** What the preload bridge offers; without `window.api` every entry is missing. */
  datatype Bridge = Bridge(getBorderTemplate: bool, setBorderTemplate: bool, onBorderTemplateChanged: bool, repairBorderConfig: bool)

  class BorderTemplateService {
    var currentTemplate: Option<Template>
    var listeners: seq<nat>
    var isInitialized: bool
    var isDegradedMode: bool
    /** Whether the service is registered for the main process's change events. */
    var subscribedToMain: bool
    /** The custom properties last written on the document root. */
    var css: Option<Css>
    /** Every listener call so far, in order. */
    var deliveries: seq<Delivery>

    ghost predicate Valid()
      reads this
    {
      NoDuplicates(listeners)
    }

    constructor ()
      ensures Valid()
      ensures currentTemplate == None && listeners == [] && !isInitialized && !isDegradedMode
      ensures !subscribedToMain && css == None && deliveries == []
    {
      currentTemplate := None;
      listeners := [];
      isInitialized := false;
      isDegradedMode := false;
      subscribedToMain := false;
      css := None;
      deliveries := [];
    }

    /** `getCurrentTemplate`: the current template, or the default one while none is set. */
    function CurrentTemplate(): (r: Template)
      reads this
      ensures currentTemplate.None? ==> r == DefaultTemplate
      ensures currentTemplate.Some? ==> r == currentTemplate.value
    {
      OptionOr(currentTemplate, DefaultTemplate)
    }

    /** `notifyListeners`: every listener is called; one that throws is caught there and does not stop the loop. */
    method NotifyListeners(t: Template)
      modifies this
      ensures deliveries == old(deliveries) + Deliveries(listeners, t)
      ensures currentTemplate == old(currentTemplate) && listeners == old(listeners) && css == old(css)
      ensures isInitialized == old(isInitialized) && isDegradedMode == old(isDegradedMode)
      ensures subscribedToMain == old(subscribedToMain)
    {
      for i := 0 to |listeners|
        invariant listeners == old(listeners)
        invariant deliveries == old(deliveries) + Deliveries(listeners[..i], t)
        invariant currentTemplate == old(currentTemplate) && css == old(css)
        invariant isInitialized == old(isInitialized) && isDegradedMode == old(isDegradedMode)
        invariant subscribedToMain == old(subscribedToMain)
      {
        assert listeners[..i + 1][..i] == listeners[..i];
        deliveries := deliveries + [Delivery(listeners[i], t)];
      }
      assert listeners[..|listeners|] == listeners;
    }

    /** `applyTemplate`: writes the CSS of the template (the default one when none) and notifies the listeners. */
    method ApplyTemplate(t: Option<Template>)
      modifies this
      ensures css == Some(CssFor(OptionOr(t, DefaultTemplate)))
      ensures deliveries == old(deliveries) + Deliveries(listeners, OptionOr(t, DefaultTemplate))
      ensures currentTemplate == old(currentTemplate) && listeners == old(listeners)
      ensures isInitialized == old(isInitialized) && isDegradedMode == old(isDegradedMode)
      ensures subscribedToMain == old(subscribedToMain)
    {
      var tpl := OptionOr(t, DefaultTemplate);
      css := Some(CssFor(tpl));
      NotifyListeners(tpl);
    }

    /**
     * `loadCurrentTemplateWithRetry`: at most `MaxRetries` attempts, waiting
     * 1000·attempt ms after each failed one but the last; the first attempt
     * that loads a template installs and applies it. `failure` is the error
     * the last attempt rethrows.
     */
    method LoadWithRetry(answers: nat -> Fetch) returns (ok: bool, waits: seq<nat>, failure: string)
      modifies this
      ensures ok <==> FirstLoaded(answers, 1).Some?
      ensures ok ==> var k := FirstLoaded(answers, 1).value;
        waits == Waits(k - 1) && currentTemplate == answers(k).data && isDegradedMode == answers(k).degradedMode
        && css == Some(CssFor(answers(k).data.value))
        && deliveries == old(deliveries) + Deliveries(listeners, answers(k).data.value)
      ensures !ok ==> (waits == Waits(MaxRetries - 1) && failure == FailureMessage(answers(MaxRetries))
        && currentTemplate == old(currentTemplate) && isDegradedMode == old(isDegradedMode)
        && css == old(css) && deliveries == old(deliveries))
      ensures listeners == old(listeners) && isInitialized == old(isInitialized) && subscribedToMain == old(subscribedToMain)
    {
      waits, failure := [], "";
      var attempt := 1;
      while attempt <= MaxRetries
        invariant 1 <= attempt <= MaxRetries
        invariant FirstLoaded(answers, 1) == FirstLoaded(answers, attempt)
        invariant waits == Waits(attempt - 1)
        invariant currentTemplate == old(currentTemplate) && isDegradedMode == old(isDegradedMode)
        invariant css == old(css) && deliveries == old(deliveries)
        invariant listeners == old(listeners) && isInitialized == old(isInitialized) && subscribedToMain == old(subscribedToMain)
        decreases MaxRetries + 1 - attempt
      {
        var result := answers(attempt);
        if Loaded(result) {
          currentTemplate := result.data;
          isDegradedMode := result.degradedMode;
          ApplyTemplate(result.data);
          return true, waits, failure;
        }
        if attempt == MaxRetries {
          return false, waits, FailureMessage(result);
        }
        waits := waits + [1000 * attempt];
        attempt := attempt + 1;
      }
      assert false;
    }

    /** `handleInitializationError`: the default template in degraded mode. */
    method HandleInitializationError()
      modifies this
      ensures isDegradedMode && isInitialized && currentTemplate == Some(DefaultTemplate)
      ensures css == Some(CssFor(DefaultTemplate))
      ensures deliveries == old(deliveries) + Deliveries(listeners, DefaultTemplate)
      ensures listeners == old(listeners) && subscribedToMain == old(subscribedToMain)
    {
      isDegradedMode := true;
      currentTemplate := Some(DefaultTemplate);
      ApplyTemplate(currentTemplate);
      isInitialized := true;
    }

    /**
     * `initialize`: once only. Without the bridge, the default template in
     * degraded mode; otherwise the loaded template and a subscription to
     * the main process's changes, or the default template in degraded mode
     * when every attempt failed.
     */
    method Initialize(bridge: Bridge, answers: nat -> Fetch)
      modifies this
      ensures old(isInitialized) ==> (currentTemplate == old(currentTemplate) && isDegradedMode == old(isDegradedMode)
        && css == old(css) && deliveries == old(deliveries) && subscribedToMain == old(subscribedToMain))
      ensures isInitialized && listeners == old(listeners)
      ensures !old(isInitialized) && bridge.getBorderTemplate && FirstLoaded(answers, 1).Some? ==>
        var k := FirstLoaded(answers, 1).value;
        currentTemplate == answers(k).data && isDegradedMode == answers(k).degradedMode
        && css == Some(CssFor(answers(k).data.value))
        && subscribedToMain == (old(subscribedToMain) || bridge.onBorderTemplateChanged)
      ensures !old(isInitialized) && (!bridge.getBorderTemplate || FirstLoaded(answers, 1).None?) ==>
        currentTemplate == Some(DefaultTemplate) && isDegradedMode && css == Some(CssFor(DefaultTemplate))
        && subscribedToMain == old(subscribedToMain)
    {
      if isInitialized {
        return;
      }
      if !bridge.getBorderTemplate {
        isDegradedMode := true;
        currentTemplate := Some(DefaultTemplate);
        ApplyTemplate(currentTemplate);
        isInitialized := true;
        return;
      }
      var ok, waits, failure := LoadWithRetry(answers);
      if ok {
        SetupRealTimeUpdates(bridge);
        isInitialized := true;
      } else {
        HandleInitializationError();
      }
    }

    /** `setupRealTimeUpdates`: registers for change events when the bridge offers them. */
    method SetupRealTimeUpdates(bridge: Bridge)
      modifies this
      ensures subscribedToMain == (old(subscribedToMain) || bridge.onBorderTemplateChanged)
      ensures currentTemplate == old(currentTemplate) && listeners == old(listeners) && css == old(css)
      ensures deliveries == old(deliveries) && isInitialized == old(isInitialized) && isDegradedMode == old(isDegradedMode)
    {
      if bridge.onBorderTemplateChanged {
        subscribedToMain := true;
      }
    }

    /** A change event from the main process: a template it carries becomes current and is applied. */
    method OnBorderTemplateChanged(t: Option<Template>)
      modifies this
      ensures subscribedToMain && t.Some? ==> (currentTemplate == t && css == Some(CssFor(t.value))
        && deliveries == old(deliveries) + Deliveries(listeners, t.value))
      ensures !(subscribedToMain && t.Some?) ==> (currentTemplate == old(currentTemplate) && css == old(css)
        && deliveries == old(deliveries))
      ensures listeners == old(listeners) && isInitialized == old(isInitialized)
      ensures isDegradedMode == old(isDegradedMode) && subscribedToMain == old(subscribedToMain)
    {
      if subscribedToMain && t.Some? {
        currentTemplate := t;
        ApplyTemplate(t);
      }
    }

    /**
     * `saveTemplate`: the request reaches the main process only when the
     * bridge offers it and the template is valid; the current template
     * changes only when the main process reports success.
     */
    method SaveTemplate(bridge: Bridge, data: Input, main: Reply) returns (r: Outcome, sent: bool)
      modifies this
      ensures sent <==> SavePrecheck(bridge.setBorderTemplate, data).None?
      ensures !sent ==> r == SavePrecheck(bridge.setBorderTemplate, data).value
      ensures sent ==> r == Resolved(main)
      ensures sent && main.success ==> (currentTemplate == Some(data.t) && css == Some(CssFor(data.t))
        && deliveries == old(deliveries) + Deliveries(listeners, data.t))
      ensures !(sent && main.success) ==> (currentTemplate == old(currentTemplate) && css == old(css)
        && deliveries == old(deliveries))
      ensures listeners == old(listeners) && isInitialized == old(isInitialized)
      ensures isDegradedMode == old(isDegradedMode) && subscribedToMain == old(subscribedToMain)
    {
      var pre := SavePrecheck(bridge.setBorderTemplate, data);
      if pre.Some? {
        return pre.value, false;
      }
      ValidIff(data);
      sent := true;
      r := Resolved(main);
      if main.success {
        currentTemplate := Some(data.t);
        ApplyTemplate(Some(data.t));
      }
    }

    /**
     * `repairConfiguration`: after a successful repair the template is
     * reloaded and degraded mode ends; a reload that fails every attempt
     * rejects, leaving the flag as it was.
     */
    method RepairConfiguration(bridge: Bridge, repair: Reply, answers: nat -> Fetch) returns (r: Outcome)
      modifies this
      ensures !bridge.repairBorderConfig ==> (r == Resolved(Reply(false, Some("Fonction de réparation non disponible")))
        && currentTemplate == old(currentTemplate) && isDegradedMode == old(isDegradedMode)
        && css == old(css) && deliveries == old(deliveries))
      ensures bridge.repairBorderConfig && !repair.success ==> (r == Resolved(repair)
        && currentTemplate == old(currentTemplate) && isDegradedMode == old(isDegradedMode)
        && css == old(css) && deliveries == old(deliveries))
      ensures bridge.repairBorderConfig && repair.success && FirstLoaded(answers, 1).Some? ==>
        var k := FirstLoaded(answers, 1).value;
        r == Resolved(repair) && !isDegradedMode && currentTemplate == answers(k).data
        && css == Some(CssFor(answers(k).data.value))
        && deliveries == old(deliveries) + Deliveries(listeners, answers(k).data.value)
      ensures bridge.repairBorderConfig && repair.success && FirstLoaded(answers, 1).None? ==>
        r == Rejected && currentTemplate == old(currentTemplate) && isDegradedMode == old(isDegradedMode)
        && css == old(css) && deliveries == old(deliveries)
      ensures listeners == old(listeners) && isInitialized == old(isInitialized) && subscribedToMain == old(subscribedToMain)
    {
      if !bridge.repairBorderConfig {
        return Resolved(Reply(false, Some("Fonction de réparation non disponible")));
      }
      r := Resolved(repair);
      if repair.success {
        var ok, waits, failure := LoadWithRetry(answers);
        if !ok {
          return Rejected;
        }
        isDegradedMode := false;
      }
    }

    /** `subscribe`: a non-function adds nothing; a function is added once, and the returned function removes exactly it. */
    method Subscribe(cb: Callback) returns (u: Unsubscribe)
      requires Valid()
      modifies this
      ensures Valid()
      ensures cb.NotAFunction? ==> u == NoOp && listeners == old(listeners)
      ensures cb.Function? ==> u == Remove(cb.id) && listeners == Added(old(listeners), cb.id)
      ensures currentTemplate == old(currentTemplate) && css == old(css) && deliveries == old(deliveries)
      ensures isInitialized == old(isInitialized) && isDegradedMode == old(isDegradedMode)
      ensures subscribedToMain == old(subscribedToMain)
    {
      if cb.NotAFunction? {
        return NoOp;
      }
      listeners := Added(listeners, cb.id);
      u := Remove(cb.id);
    }

    /** Calling the function `subscribe` returned. */
    method CallUnsubscribe(u: Unsubscribe)
      requires Valid()
      modifies this
      ensures Valid()
      ensures u.NoOp? ==> listeners == old(listeners)
      ensures u.Remove? ==> listeners == Without(old(listeners), u.id)
      ensures currentTemplate == old(currentTemplate) && css == old(css) && deliveries == old(deliveries)
      ensures isInitialized == old(isInitialized) && isDegradedMode == old(isDegradedMode)
      ensures subscribedToMain == old(subscribedToMain)
    {
      if u.Remove? {
        WithoutNoDuplicates(listeners, u.id);
        listeners := Without(listeners, u.id);
      }
    }

    /** `destroy`: no listeners, not initialized, and no longer registered with the main process. */
    method Destroy()
      modifies this
      ensures Valid()
      ensures listeners == [] && !isInitialized && !subscribedToMain
      ensures currentTemplate == old(currentTemplate) && css == old(css) && deliveries == old(deliveries)
      ensures isDegradedMode == old(isDegradedMode)
    {
      listeners := [];
      isInitialized := false;
      subscribedToMain := false;
    }
  }
}
