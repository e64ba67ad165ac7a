/**
 * The main navigation of the renderer (`MainContent`): the active tab, the
 * view of the individuals list requested from the dashboard, the effect
 * that corrects the tab after every change, and the page shown for a tab.
 */
module MainContent {
  import opened Wrappers

  /** The view the dashboard asks the individuals list to open. */
  datatype View = Mine | All

  /** The tabs kept as chosen by the renderer's effect. */
  const RendererKept: seq<string> := ["import", "attribution", "categories", "users", "template", "settings"]

  predicate Leader(role: string) {
    role == "admin" || role == "manager"
  }

  /**
   * The tab the effect leaves active: stay on the individuals once the
   * requested view is consumed, force the individuals while a view is
   * requested, keep a tab of `kept`, otherwise the role's default.
   */
  function EffectTab(kept: seq<string>, role: string, active: string, requested: Option<View>): (r: string)
    ensures requested.Some? ==> r == "individus"
    ensures requested.None? && (active == "individus" || active in kept) ==> r == active
    ensures r == active || r == "individus" || r == "dashboard"
  {
    if active == "individus" && requested.None? then active
    else if requested.Some? then "individus"
    else if active in kept then active
    else if Leader(role) then "dashboard"
    else "individus"
  }

  /** Off the kept tabs and with no request, admins and managers land on the dashboard, everyone else on the individuals. */
  lemma EffectRoleDefault(kept: seq<string>, role: string, active: string)
    requires active !in kept && active != "individus"
    ensures Leader(role) ==> EffectTab(kept, role, active, None) == "dashboard"
    ensures !Leader(role) ==> EffectTab(kept, role, active, None) == "individus"
  {
  }

  /** The effect changes nothing when run on its own result, so it settles after one run. */
  lemma EffectIdempotent(kept: seq<string>, role: string, active: string, requested: Option<View>)
    ensures EffectTab(kept, role, EffectTab(kept, role, active, requested), requested) == EffectTab(kept, role, active, requested)
  {
  }

  /** The page rendered for a tab. */
  datatype Page = Dashboard | Individus | Import | Attribution | Categories | Users | Template | Settings

  /** `renderContent` of the renderer: unknown ids render the dashboard. */
  function RendererContent(tab: string): (p: Page)
    ensures p == Dashboard <==> tab !in RendererTabs[1..]
  {
    match tab
    case "individus" => Individus
    case "import" => Import
    case "attribution" => Attribution
    case "categories" => Categories
    case "users" => Users
    case "template" => Template
    case "settings" => Settings
    case _ => Dashboard
  }

  const RendererTabs: seq<string> := ["dashboard", "individus", "import", "attribution", "categories", "users", "template", "settings"]

  lemma RendererUnknownIsDashboard(tab: string)
    requires tab !in RendererTabs
    ensures RendererContent(tab) == Dashboard
  {
  }

  /** Every kept tab renders its own page, never the dashboard. */
  lemma RendererKeptTabsRender(tab: string)
    requires tab in RendererKept
    ensures RendererContent(tab) != Dashboard && RendererContent(tab) != Individus
  {
  }

  /** The navigation state: `activeTab` and `requestedViewForIndividus`. */
  class Navigation {
    var activeTab: string
    var requestedView: Option<View>
    const kept: seq<string>

    /** The first render: the dashboard, no requested view. */
    constructor(kept: seq<string>)
      ensures activeTab == "dashboard" && requestedView == None && this.kept == kept
    {
      activeTab := "dashboard";
      requestedView := None;
      this.kept := kept;
    }

    /** One run of the effect for the user's role. */
    method RunEffect(role: string)
      modifies this
      ensures activeTab == EffectTab(kept, role, old(activeTab), old(requestedView))
      ensures requestedView == old(requestedView)
    {
      if activeTab == "individus" && requestedView.None? {
        return;
      }
      if requestedView.Some? {
        if activeTab != "individus" {
          activeTab := "individus";
        }
        return;
      }
      if activeTab in kept {
        return;
      }
      if Leader(role) {
        if activeTab != "dashboard" {
          activeTab := "dashboard";
        }
      } else {
        if activeTab != "individus" {
          activeTab := "individus";
        }
      }
    }

    /** The dashboard shortcuts: the individuals tab with the view requested. */
    method Navigate(v: View)
      modifies this
      ensures activeTab == "individus" && requestedView == Some(v)
    {
      activeTab := "individus";
      requestedView := Some(v);
    }

    /** The list reports the requested view consumed. */
    method RequestedViewConsumed()
      modifies this
      ensures requestedView == None && activeTab == old(activeTab)
    {
      requestedView := None;
    }

    /** A click on a tab: only a different tab clears the request and switches. */
    method TabChange(id: string)
      modifies this
      ensures old(activeTab) != id ==> activeTab == id && requestedView == None
      ensures old(activeTab) == id ==> activeTab == old(activeTab) && requestedView == old(requestedView)
    {
      if activeTab != id {
        requestedView := None;
        activeTab := id;
      }
    }
  }

  /** After a shortcut, and after its view is consumed, the effect keeps the individuals tab. */
  lemma ShortcutSurvivesEffect(kept: seq<string>, role: string, v: View)
    ensures EffectTab(kept, role, "individus", Some(v)) == "individus"
    ensures EffectTab(kept, role, "individus", None) == "individus"
  {
  }

  /** A tab chosen by a click survives the effect exactly when it is kept or is the role's own default. */
  lemma ClickedTabSurvives(kept: seq<string>, role: string, id: string)
    ensures EffectTab(kept, role, id, None) == id <==>
      (id == "individus" || id in kept || (Leader(role) && id == "dashboard"))
  {
  }
}
