/**
 * Windows single sign-on in the main process: how a Windows account name is
 * turned into a lookup key, how an administrator's association is stored,
 * and how the build number of the Windows release is read.
 * A login that is `null` or `undefined` behaves like the empty string in
 * every function here, and is modelled as `""`.
 */
module WindowsLogin {
  import opened Wrappers
  import opened Text

  /** A row of the `users` table, reduced to what the login lookup reads. */
  datatype User = User(id: int, windowsLogin: Option<string>, deleted: bool)

  /** `findUserByWindowsLoginSync`'s key: trim, keep what follows the last backslash, lower-case; empty means no lookup. */
  function LoginKey(login: string): (r: Option<string>)
    ensures r.Some? ==> r.value != [] && '\\' !in r.value && Lower(r.value) == r.value
    ensures r.None? <==> AfterLast(Trim(login), '\\') == []
  {
    var t := Trim(login);
    AfterLastShape(t, '\\');
    var u := if '\\' in t then AfterLast(t, '\\') else t;
    var k := Lower(u);
    LowerIdempotent(u);
    if k == [] then None else Some(k)
  }

  /** The older copy's key: trim and lower-case only, with no domain stripping. */
  function LegacyLoginKey(login: string): (r: Option<string>)
    ensures r.Some? ==> r.value != [] && Lower(r.value) == r.value
    ensures r.None? <==> IsBlank(login)
  {
    var k := Lower(Trim(login));
    LowerIdempotent(Trim(login));
    if k == [] then None else Some(k)
  }

  /** What `associer-login-windows` stores: the text after the last backslash, trimmed; blank is stored as null. */
  function StoredLogin(login: string): (r: Option<string>)
    ensures r.Some? ==> r.value != [] && '\\' !in r.value && Trim(r.value) == r.value
    ensures r.None? <==> IsBlank(AfterLast(login, '\\'))
  {
    AfterLastShape(login, '\\');
    var u := if login != [] && '\\' in login then AfterLast(login, '\\') else login;
    var t := Trim(u);
    TrimKeepsOut(u, '\\');
    TrimIdempotent(u);
    if t == [] then None else Some(t)
  }

  /** Storing what was stored changes nothing. */
  lemma StoredLoginIdempotent(login: string)
    requires StoredLogin(login).Some?
    ensures StoredLogin(StoredLogin(login).value) == StoredLogin(login)
  {
    var t := StoredLogin(login).value;
    AfterLastShape(t, '\\');
  }

  /** `SELECT * … WHERE lower(windows_login) = ? AND deleted = 0`, taking the first matching row. */
  function FindUser(users: seq<User>, key: Option<string>): (r: Option<User>)
    ensures r.Some? ==> (key.Some? && r.value in users && !r.value.deleted
                         && r.value.windowsLogin.Some? && Lower(r.value.windowsLogin.value) == key.value)
    ensures r.None? ==> (key.None? || forall u :: u in users && !u.deleted && u.windowsLogin.Some? ==>
                                                    Lower(u.windowsLogin.value) != key.value)
  {
    if key.None? || users == [] then None
    else if !users[0].deleted && users[0].windowsLogin.Some? && Lower(users[0].windowsLogin.value) == key.value then
      Some(users[0])
    else
      FindUser(users[1..], key)
  }

  predicate IsLive(users: seq<User>, id: int) {
    exists u :: u in users && u.id == id && !u.deleted
  }

  /**
   * `associer-login-windows`: `UPDATE users SET windows_login = ? WHERE id = ? AND deleted = 0`.
   * No matching row is reported as an error.
   */
  function Associate(users: seq<User>, id: int, login: string): (r: Result<seq<User>, string>)
    ensures r.Err? <==> !IsLive(users, id)
    ensures r.Err? ==> r.error == "User not found or Windows login already up to date."
    ensures r.Ok? ==> |r.value| == |users| && forall k :: 0 <= k < |users| ==>
      r.value[k] == if users[k].id == id && !users[k].deleted
                    then users[k].(windowsLogin := StoredLogin(login)) else users[k]
  {
    if !IsLive(users, id) then Err("User not found or Windows login already up to date.")
    else
      Ok(seq(|users|, k requires 0 <= k < |users| =>
        if users[k].id == id && !users[k].deleted then users[k].(windowsLogin := StoredLogin(login)) else users[k]))
  }

  /** Some live user's stored login, lower-cased, is the key. */
  predicate Matches(users: seq<User>, key: Option<string>) {
    key.Some? && exists u :: u in users && !u.deleted && u.windowsLogin.Some? && Lower(u.windowsLogin.value) == key.value
  }

  /** The name without its domain: what follows the last backslash, if there is one. */
  function WithoutDomain(name: string): string {
    if '\\' in name then AfterLast(name, '\\') else name
  }

  /** `auto-login-windows`: strip the domain, then look the account up. */
  function AutoLogin(users: seq<User>, windowsUsername: string): (r: Result<User, string>)
    ensures windowsUsername == [] ==> r == Err("Windows username not provided")
    ensures r.Ok? ==> r.value in users && !r.value.deleted
    ensures r.Ok? ==> r.value.windowsLogin.Some?
                      && LoginKey(WithoutDomain(windowsUsername)) == Some(Lower(r.value.windowsLogin.value))
    ensures windowsUsername != [] ==>
      (r == Err("No user associated with this Windows account") <==> !Matches(users, LoginKey(WithoutDomain(windowsUsername))))
    ensures windowsUsername != [] ==> r.Ok? || r == Err("No user associated with this Windows account")
  {
    if windowsUsername == [] then Err("Windows username not provided")
    else
      match FindUser(users, LoginKey(WithoutDomain(windowsUsername)))
      case None => Err("No user associated with this Windows account")
      case Some(u) => Ok(u)
  }

  /** The older copy of `auto-login-windows`, which passes the name on untouched. */
  function LegacyAutoLogin(users: seq<User>, windowsUsername: string): (r: Result<User, string>)
    ensures windowsUsername == [] ==> r == Err("Windows username not provided")
    ensures r.Ok? ==> r.value in users && !r.value.deleted
    ensures r.Ok? ==> r.value.windowsLogin.Some? && LegacyLoginKey(windowsUsername) == Some(Lower(r.value.windowsLogin.value))
    ensures windowsUsername != [] ==>
      (r == Err("No user associated with this Windows account") <==> !Matches(users, LegacyLoginKey(windowsUsername)))
    ensures windowsUsername != [] ==> r.Ok? || r == Err("No user associated with this Windows account")
  {
    if windowsUsername == [] then Err("Windows username not provided")
    else
      match FindUser(users, LegacyLoginKey(windowsUsername))
      case None => Err("No user associated with this Windows account")
      case Some(u) => Ok(u)
  }

  /** The key the sign-on computes for a name is the lower-cased form of what an association of that name stores. */
  lemma AutoLoginKeyMatchesStored(login: string)
    requires login != [] && StoredLogin(login).Some?
    ensures LoginKey(WithoutDomain(login)) == Some(Lower(StoredLogin(login).value))
  {
    var clean := WithoutDomain(login);
    AfterLastShape(login, '\\');
    var t := Trim(clean);
    TrimKeepsOut(clean, '\\');
    AfterLastShape(t, '\\');
  }

  /** A live user holding a login that lowers to the key is found. */
  lemma {:induction false} FindUserFinds(users: seq<User>, key: string, u: User)
    requires u in users && !u.deleted && u.windowsLogin.Some? && Lower(u.windowsLogin.value) == key
    ensures FindUser(users, Some(key)).Some?
  {
    if users[0] != u {
      assert u in users[1..];
      FindUserFinds(users[1..], key, u);
    }
  }

  /**
   * After an account name has been associated with a live user, signing on
   * with that same name finds a live user with that stored login.
   */
  lemma AssociateThenAutoLogin(users: seq<User>, id: int, login: string)
    requires login != [] && StoredLogin(login).Some?
    requires Associate(users, id, login).Ok?
    ensures var after := Associate(users, id, login).value;
      AutoLogin(after, login).Ok?
      && Lower(AutoLogin(after, login).value.windowsLogin.value) == Lower(StoredLogin(login).value)
  {
    var after := Associate(users, id, login).value;
    var stored := StoredLogin(login).value;
    var k :| 0 <= k < |users| && users[k].id == id && !users[k].deleted;
    assert after[k] == users[k].(windowsLogin := Some(stored));
    assert after[k] in after;
    AutoLoginKeyMatchesStored(login);
    var clean := WithoutDomain(login);
    FindUserFinds(after, Lower(stored), after[k]);
    assert FindUser(after, LoginKey(clean)).Some?;
  }

  /** No stored login holds a backslash; an association keeps it that way. */
  predicate NoDomainStored(users: seq<User>) {
    forall u :: u in users && u.windowsLogin.Some? ==> '\\' !in u.windowsLogin.value
  }

  lemma AssociateKeepsNoDomain(users: seq<User>, id: int, login: string)
    requires NoDomainStored(users) && Associate(users, id, login).Ok?
    ensures NoDomainStored(Associate(users, id, login).value)
  {
    var after := Associate(users, id, login).value;
    forall u | u in after && u.windowsLogin.Some?
      ensures '\\' !in u.windowsLogin.value
    {
      var k :| 0 <= k < |after| && after[k] == u;
      assert users[k] in users;
    }
  }

  /**
   * In the older copy, signing on with a domain-qualified name never succeeds
   * against a table filled by associations, which store only the account part.
   */
  lemma LegacyMissesDomainLogin(users: seq<User>, login: string)
    requires NoDomainStored(users) && '\\' in Trim(login)
    ensures LegacyAutoLogin(users, login) == Err("No user associated with this Windows account")
  {
    var t := Trim(login);
    LowerKeeps(t, '\\');
    forall u | u in users && !u.deleted && u.windowsLogin.Some?
      ensures Lower(u.windowsLogin.value) != Lower(t)
    {
      LowerKeeps(u.windowsLogin.value, '\\');
    }
    assert login != [];
  }

  /** The newer copy, by contrast, signs on with a domain-qualified name once its account part is associated. */
  lemma DomainLoginFound(users: seq<User>, id: int)
    requires Associate(users, id, "D\\u").Ok?
    ensures AutoLogin(Associate(users, id, "D\\u").value, "D\\u").Ok?
  {
    var login := "D\\u";
    assert LastCut(login, '\\', 3) == 2;
    assert AfterLast(login, '\\') == "u";
    TrimUnspaced("u");
    assert StoredLogin(login) == Some("u");
    AssociateThenAutoLogin(users, id, login);
  }

  /** `getWindowsVersion()`; `build` is `None` when the third part of the release is missing or not a number (NaN). */
  datatype WindowsVersion = WindowsVersion(
    isWindows10: bool, isWindows11: bool, supportsColoredBorders: bool, build: Option<int>, release: string)

  function BuildOf(release: string): (r: Option<int>)
  {
    var parts := Split(release, '.');
    if |parts| >= 3 then ParseIntJs(parts[2]) else None
  }

  function GetWindowsVersion(release: string): (r: WindowsVersion)
    ensures r.release == release && r.build == BuildOf(release)
    ensures r.isWindows10 <==> r.build.Some? && 10240 <= r.build.value < 22000
    ensures r.isWindows11 <==> r.build.Some? && r.build.value >= 22000
    ensures !(r.isWindows10 && r.isWindows11)
    ensures r.supportsColoredBorders <==> r.isWindows10 || r.isWindows11
  {
    var build := BuildOf(release);
    WindowsVersion(
      build.Some? && build.value >= 10240 && build.value < 22000,
      build.Some? && build.value >= 22000,
      build.Some? && build.value >= 10240,
      build, release)
  }

  /** The third dot-separated part of `a.b.c…` is `c`. */
  lemma ThirdPart(a: string, b: string, c: string, rest: string)
    requires '.' !in a && '.' !in b && '.' !in c && (rest == [] || rest[0] == '.')
    ensures var p := Split(a + "." + b + "." + c + rest, '.'); |p| >= 3 && p[2] == c
  {
    var tail := c + rest;
    assert a + "." + b + "." + c + rest == a + ['.'] + (b + ['.'] + tail);
    SplitTwo(a, b, tail);
    FirstPart(c, rest);
  }

  lemma SplitTwo(a: string, b: string, tail: string)
    requires '.' !in a && '.' !in b
    ensures Split(a + ['.'] + (b + ['.'] + tail), '.') == [a, b] + Split(tail, '.')
  {
    SplitCons(a, '.', b + ['.'] + tail);
    SplitCons(b, '.', tail);
  }

  lemma FirstPart(c: string, rest: string)
    requires '.' !in c && (rest == [] || rest[0] == '.')
    ensures Split(c + rest, '.')[0] == c
  {
    if rest == [] {
      assert c + rest == c;
    } else {
      assert c + rest == c + ['.'] + rest[1..];
      SplitCons(c, '.', rest[1..]);
    }
  }

  /** A release `major.minor.build…` has that build number. */
  lemma BuildOfRelease(major: nat, minor: nat, build: nat, rest: string)
    requires rest == [] || rest[0] == '.'
    ensures BuildOf(NatToString(major) + "." + NatToString(minor) + "." + NatToString(build) + rest) == Some(build)
  {
    var a, b, c := NatToString(major), NatToString(minor), NatToString(build);
    assert '.' !in a && '.' !in b && '.' !in c;
    ThirdPart(a, b, c, rest);
    ParseIntOfNat(build);
  }
}
