/**
 * `hasPermission` and the navigation built from it: the tab list that the
 * layout and the sidebar push in a fixed order, and the layout's sidebar
 * open flag.
 */
module Permissions {
  import opened Wrappers

  /** A logged-in user; `permissions` is `None` when the field is not an array. */
  datatype UserInfo = UserInfo(role: string, permissions: Option<seq<string>>)

  /** `hasPermission(user, perm)`; `user` is `None` when missing. */
  function HasPermission(user: Option<UserInfo>, perm: string): (r: bool)
    ensures user.None? ==> !r
    ensures user.Some? && user.value.permissions.None? ==> !r
    ensures user.Some? && user.value.permissions.Some? ==> (r <==> perm in user.value.permissions.value)
  {
    user.Some? && user.value.permissions.Some? && perm in user.value.permissions.value
  }

  /** The role plays no part: two users with the same permission list are granted the same things. */
  lemma RoleIgnored(a: UserInfo, b: UserInfo, perm: string)
    requires a.permissions == b.permissions
    ensures HasPermission(Some(a), perm) == HasPermission(Some(b), perm)
  {
  }

  /** The tab ids the navigation knows; 'settings' has an icon but is never pushed. */
  datatype TabId = Dashboard | Individus | Import | Attribution | Categories | Users | Template | Settings

  function IdText(t: TabId): string {
    match t
    case Dashboard => "dashboard"
    case Individus => "individus"
    case Import => "import"
    case Attribution => "attribution"
    case Categories => "categories"
    case Users => "users"
    case Template => "template"
    case Settings => "settings"
  }

  /** The label pushed with each tab. */
  function TabLabel(t: TabId): string {
    match t
    case Dashboard => "Tableau de bord"
    case Individus => "Individus"
    case Import => "Import de données"
    case Attribution => "Attribution de masse"
    case Categories => "Gérer les catégories"
    case Users => "Gérer les utilisateurs"
    case Template => "Templates"
    case Settings => "Paramètres"
  }

  /** The position of a tab in the order of the pushes; 'settings' has none. */
  function Rank(t: TabId): nat {
    match t
    case Dashboard => 0
    case Individus => 1
    case Import => 2
    case Attribution => 3
    case Categories => 4
    case Users => 5
    case Template => 6
    case Settings => 7
  }

  /** Whether `user` may see tab `t`; 'users' needs either user or role management. */
  predicate Allowed(user: Option<UserInfo>, t: TabId) {
    match t
    case Dashboard => HasPermission(user, "view_dashboard")
    case Individus => HasPermission(user, "view_individus")
    case Import => HasPermission(user, "import_data")
    case Attribution => HasPermission(user, "mass_attribution")
    case Categories => HasPermission(user, "manage_categories")
    case Users => HasPermission(user, "manage_users") || HasPermission(user, "manage_roles")
    case Template => HasPermission(user, "manage_columns")
    case Settings => false
  }

  /** Tab ids that appear in strictly increasing rank, hence each at most once. */
  predicate InOrder(tabs: seq<TabId>) {
    forall i, j :: 0 <= i < j < |tabs| ==> Rank(tabs[i]) < Rank(tabs[j])
  }

  predicate HasTab(tabs: seq<TabId>, t: TabId) {
    exists i :: 0 <= i < |tabs| && tabs[i] == t
  }

  /** Every tab that has a push, in the order of the pushes. */
  const AllTabs: seq<TabId> := [Dashboard, Individus, Import, Attribution, Categories, Users, Template]

  /** The tabs of `ts` that `allowed` lets through, in order. */
  function Visible(allowed: TabId -> bool, ts: seq<TabId>): (r: seq<TabId>)
    ensures forall i :: 0 <= i < |r| ==> allowed(r[i])
  {
    if ts == [] then []
    else PushIf(Visible(allowed, ts[..|ts| - 1]), allowed(ts[|ts| - 1]), ts[|ts| - 1])
  }

  /** The tabs `user` is shown. */
  function TabsFor(user: Option<UserInfo>): seq<TabId> {
    Visible(AllowedFor(user), AllTabs)
  }

  function AllowedFor(user: Option<UserInfo>): TabId -> bool {
    t => Allowed(user, t)
  }

  /** Pushes `t` when `cond` holds. */
  function PushIf(tabs: seq<TabId>, cond: bool, t: TabId): seq<TabId> {
    if cond then tabs + [t] else tabs
  }

  /** The tab list of the layout and of the sidebar, built by conditional pushes of `{ id, label }`. */
  method BuildTabs(user: Option<UserInfo>) returns (tabs: seq<TabId>)
    ensures tabs == TabsFor(user)
  {
    tabs := [];
    ghost var allowed := AllowedFor(user);
    if HasPermission(user, "view_dashboard") {
      tabs := tabs + [Dashboard];
    }
    assert tabs == PushIf([], allowed(Dashboard), Dashboard);
    if HasPermission(user, "view_individus") {
      tabs := tabs + [Individus];
    }
    ghost var t2 := tabs;
    assert t2 == PushIf(PushIf([], allowed(Dashboard), Dashboard), allowed(Individus), Individus);
    if HasPermission(user, "import_data") {
      tabs := tabs + [Import];
    }
    ghost var t3 := tabs;
    assert t3 == PushIf(t2, allowed(Import), Import);
    if HasPermission(user, "mass_attribution") {
      tabs := tabs + [Attribution];
    }
    ghost var t4 := tabs;
    assert t4 == PushIf(t3, allowed(Attribution), Attribution);
    if HasPermission(user, "manage_categories") {
      tabs := tabs + [Categories];
    }
    ghost var t5 := tabs;
    assert t5 == PushIf(t4, allowed(Categories), Categories);
    if HasPermission(user, "manage_users") || HasPermission(user, "manage_roles") {
      tabs := tabs + [Users];
    }
    ghost var t6 := tabs;
    assert t6 == PushIf(t5, allowed(Users), Users);
    if HasPermission(user, "manage_columns") {
      tabs := tabs + [Template];
    }
    assert tabs == PushIf(t6, allowed(Template), Template);
    VisibleAll(allowed);
  }

  /** Filtering the fixed list is the same as the seven conditional pushes. */
  lemma VisibleAll(allowed: TabId -> bool)
    ensures Visible(allowed, AllTabs)
      == PushIf(PushIf(PushIf(PushIf(PushIf(PushIf(PushIf([],
           allowed(Dashboard), Dashboard), allowed(Individus), Individus),
           allowed(Import), Import), allowed(Attribution), Attribution),
           allowed(Categories), Categories), allowed(Users), Users),
           allowed(Template), Template)
  {
    var t := AllTabs;
    VisibleSnoc(allowed, t[..6], t[6]);
    VisibleSnoc(allowed, t[..5], t[5]);
    VisibleSnoc(allowed, t[..4], t[4]);
    VisibleSnoc(allowed, t[..3], t[3]);
    VisibleSnoc(allowed, t[..2], t[2]);
    VisibleSnoc(allowed, t[..1], t[1]);
    VisibleSnoc(allowed, [], t[0]);
    assert t[..6] + [t[6]] == t && t[..5] + [t[5]] == t[..6] && t[..4] + [t[4]] == t[..5];
    assert t[..3] + [t[3]] == t[..4] && t[..2] + [t[2]] == t[..3] && t[..1] + [t[1]] == t[..2] && [] + [t[0]] == t[..1];
  }

  lemma VisibleSnoc(allowed: TabId -> bool, ts: seq<TabId>, t: TabId)
    ensures Visible(allowed, ts + [t]) == PushIf(Visible(allowed, ts), allowed(t), t)
  {
    assert (ts + [t])[..|ts|] == ts;
  }

  lemma {:induction false} VisibleOrdered(allowed: TabId -> bool, ts: seq<TabId>)
    requires forall i, j :: 0 <= i < j < |ts| ==> Rank(ts[i]) < Rank(ts[j])
    ensures InOrder(Visible(allowed, ts))
    ensures forall i :: 0 <= i < |Visible(allowed, ts)| ==> Visible(allowed, ts)[i] in ts
  {
    if ts != [] {
      var init := ts[..|ts| - 1];
      VisibleOrdered(allowed, init);
      var v := Visible(allowed, init);
      forall i | 0 <= i < |v|
        ensures Rank(v[i]) < Rank(ts[|ts| - 1])
      {
        var j :| 0 <= j < |init| && init[j] == v[i];
        assert ts[j] == v[i];
      }
    }
  }

  /** A tab is kept iff it is in the list and allowed. */
  lemma {:induction false} VisibleHas(allowed: TabId -> bool, ts: seq<TabId>, t: TabId)
    ensures HasTab(Visible(allowed, ts), t) <==> HasTab(ts, t) && allowed(t)
  {
    if ts != [] {
      var init := ts[..|ts| - 1];
      var last := ts[|ts| - 1];
      VisibleHas(allowed, init, t);
      var v := Visible(allowed, init);
      var w := Visible(allowed, ts);
      assert HasTab(ts, t) <==> HasTab(init, t) || last == t by {
        if HasTab(ts, t) && last != t {
          var i :| 0 <= i < |ts| && ts[i] == t;
          assert init[i] == t;
        }
        if HasTab(init, t) {
          var i :| 0 <= i < |init| && init[i] == t;
          assert ts[i] == t;
        }
        if last == t {
          assert ts[|ts| - 1] == t;
        }
      }
      if allowed(last) {
        assert w == v + [last];
        if HasTab(w, t) && last != t {
          var i :| 0 <= i < |w| && w[i] == t;
          assert v[i] == t;
        }
        if HasTab(v, t) {
          var i :| 0 <= i < |v| && v[i] == t;
          assert w[i] == t;
        }
        if last == t {
          assert w[|v|] == t;
        }
      }
    }
  }

  /**
   * The tab list is in the fixed order, so each id is listed at most once; a
   * tab is listed iff the user is allowed it, and 'settings' never is.
   */
  lemma TabsSpec(user: Option<UserInfo>, t: TabId)
    ensures InOrder(TabsFor(user))
    ensures HasTab(TabsFor(user), t) <==> Allowed(user, t)
    ensures !HasTab(TabsFor(user), Settings)
  {
    FixedListSpec(AllowedFor(user), t);
  }

  lemma FixedListSpec(allowed: TabId -> bool, t: TabId)
    ensures InOrder(Visible(allowed, AllTabs))
    ensures HasTab(Visible(allowed, AllTabs), t) <==> t != Settings && allowed(t)
  {
    VisibleOrdered(allowed, AllTabs);
    VisibleHas(allowed, AllTabs, t);
    if t != Settings {
      assert AllTabs[Rank(t)] == t;
    } else {
      assert !HasTab(AllTabs, t);
    }
  }

  /** A list in the fixed order names each tab at most once. */
  lemma TabsDistinct(tabs: seq<TabId>)
    requires InOrder(tabs)
    ensures forall i, j :: 0 <= i < j < |tabs| ==> tabs[i] != tabs[j]
  {
  }

  /** The layout's sidebar: open on a wide window, closed at 1025 pixels or less. */
  class Sidebar {
    var open: bool

    /** Mounting runs the resize handler once. */
    constructor(width: int)
      ensures open <==> width > 1025
    {
      open := width > 1025;
    }

    method Toggle()
      modifies this
      ensures open == !old(open)
    {
      open := !open;
    }

    method Resize(width: int)
      modifies this
      ensures open <==> width > 1025
    {
      if width <= 1025 {
        open := false;
      } else {
        open := true;
      }
    }
  }
}
