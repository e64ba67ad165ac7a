/**
 * The older copy of the main navigation (`src/components/MainContent.jsx`):
 * the same state and effect with 'template' not among the kept tabs, a tab
 * bar built from the role, and no page for 'template'.
 */
module LegacyMainContent {
  import opened Wrappers
  import MainContent

  const LegacyKept: seq<string> := ["import", "attribution", "categories", "users", "settings"]

  /** 'template' is no longer kept: when the id 'template' reaches the older copy's effect without a request, an admin or manager is moved to the dashboard and anyone else to the individuals. */
  lemma TemplateNotKept(role: string)
    ensures MainContent.EffectTab(MainContent.RendererKept, role, "template", None) == "template"
    ensures MainContent.Leader(role) ==> MainContent.EffectTab(LegacyKept, role, "template", None) == "dashboard"
    ensures !MainContent.Leader(role) ==> MainContent.EffectTab(LegacyKept, role, "template", None) == "individus"
  {
  }

  /** Off 'template', both copies decide alike. */
  lemma SameDecisionElsewhere(role: string, active: string, requested: Option<MainContent.View>)
    requires active != "template"
    ensures MainContent.EffectTab(LegacyKept, role, active, requested) == MainContent.EffectTab(MainContent.RendererKept, role, active, requested)
  {
  }

  predicate NoDuplicates(s: seq<string>) {
    forall i, j :: 0 <= i < j < |s| ==> s[i] != s[j]
  }

  /** The tab bar: dashboard and individus, import and attribution for admins and managers, categories and users for admins. */
  method Tabs(role: string) returns (tabs: seq<string>)
    ensures |tabs| >= 2 && tabs[0] == "dashboard" && tabs[1] == "individus"
    ensures "import" in tabs <==> MainContent.Leader(role)
    ensures "attribution" in tabs <==> MainContent.Leader(role)
    ensures "categories" in tabs <==> role == "admin"
    ensures "users" in tabs <==> role == "admin"
    ensures forall t :: t in tabs ==> t in ["dashboard", "individus", "import", "attribution", "categories", "users"]
    ensures NoDuplicates(tabs)
    ensures tabs == ["dashboard", "individus"]
                    + (if MainContent.Leader(role) then ["import", "attribution"] else [])
                    + (if role == "admin" then ["categories", "users"] else [])
  {
    tabs := [];
    tabs := tabs + ["dashboard", "individus"];
    if role == "admin" || role == "manager" {
      tabs := tabs + ["import", "attribution"];
    }
    if role == "admin" {
      tabs := tabs + ["categories", "users"];
    }
  }

  /** `renderContent` of this copy: no 'template' page, unknown ids render the dashboard. */
  function Content(tab: string): (p: MainContent.Page)
    ensures p != MainContent.Template
    ensures p == MainContent.Dashboard <==> tab !in ["individus", "import", "attribution", "categories", "users", "settings"]
  {
    match tab
    case "individus" => MainContent.Individus
    case "import" => MainContent.Import
    case "attribution" => MainContent.Attribution
    case "categories" => MainContent.Categories
    case "users" => MainContent.Users
    case "settings" => MainContent.Settings
    case _ => MainContent.Dashboard
  }

  lemma UnknownIsDashboard(tab: string)
    requires tab !in ["dashboard", "individus", "import", "attribution", "categories", "users", "settings"]
    ensures Content(tab) == MainContent.Dashboard
  {
  }

  /** Both copies render the same page for every tab but 'template'. */
  lemma ContentAgrees(tab: string)
    ensures tab != "template" ==> Content(tab) == MainContent.RendererContent(tab)
    ensures Content("template") == MainContent.Dashboard
  {
  }
}
