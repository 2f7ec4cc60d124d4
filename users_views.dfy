/** `views/users.py`: login against the `hoero-users` table, registration,
    the administrators' user list with its hand-made pagination, and the
    account page of the logged-in user. */
module UsersViews {
  import opened Wrappers
  import opened Text
  import opened UserMigration
  import opened AuthUsers
  import opened PySlice

  // ----- login -----

  /** The key `login` looks up: the form email stripped and lowercased. */
  function LoginKey(formEmail: string): string {
    Lower(Strip(formEmail))
  }

  lemma LowerKeepsSpaces(s: string)
    ensures forall i :: 0 <= i < |s| ==> (IsSpace(Lower(s)[i]) <==> IsSpace(s[i]))
  {
  }

  /** A key that is already normalised logs in as itself. */
  lemma LoginKeyIdempotent(formEmail: string)
    ensures LoginKey(LoginKey(formEmail)) == LoginKey(formEmail)
  {
    var s := Strip(formEmail);
    LowerKeepsSpaces(s);
    StripNoop(Lower(s));
    assert Lower(Lower(s)) == Lower(s);
  }

  /** What `check_password` decides for a stored item. */
  predicate PasswordMatches(item: Item, password: string, check: (Value, string) -> bool) {
    "password_hash" in item && PyBool(item["password_hash"]) && check(item["password_hash"], password)
  }

  /** A path on this site: it starts with one `/` that is not followed by
      another `/` or a backslash, which browsers would read as a host. */
  predicate IsLocalPath(u: string) {
    StartsWith(u, "/") && !StartsWith(u, "//") && !StartsWith(u, "/\\")
  }

  /** The redirect target as the view computes it: `next` when it starts
      with `/`, otherwise the index page. */
  function NextUrlAsWritten(next: Option<string>, indexUrl: string): (r: string)
    ensures r == indexUrl || (next.Some? && r == next.value && StartsWith(r, "/"))
    ensures next.Some? && StartsWith(next.value, "/") ==> r == next.value
  {
    if next.None? || next.value == "" || !StartsWith(next.value, "/") then indexUrl else next.value
  }

  /** `//host/...` passes the check, so a login link can send the user to
      another site. */
  lemma NextUrlAcceptsOtherHost()
    ensures NextUrlAsWritten(Some("//evil.example/"), "/") == "//evil.example/"
    ensures !IsLocalPath("//evil.example/")
  {
    assert StartsWith("//evil.example/", "//");
  }

  /** The redirect target accepted only when it is a path on this site. */
  function SafeNextUrl(next: Option<string>, indexUrl: string): (r: string)
    ensures r == indexUrl || (next.Some? && r == next.value && IsLocalPath(r))
    ensures next.Some? && IsLocalPath(next.value) ==> r == next.value
  {
    if next.Some? && IsLocalPath(next.value) then next.value else indexUrl
  }

  /** On every path of this site the two agree; they differ only on
      targets the written check lets through to another host. */
  lemma SafeNextUrlAgrees(next: Option<string>, indexUrl: string)
    ensures SafeNextUrl(next, indexUrl) != NextUrlAsWritten(next, indexUrl) ==>
      next.Some? && StartsWith(next.value, "/") && !IsLocalPath(next.value)
  {
  }

  datatype LoginResponse =
    | LoginForm                   // the form is shown again (GET or invalid input)
    | UnknownUser                 // no item under the key
    | WrongPassword
    | LoggedIn(redirect: string)  // `login_user` ran; redirect there

  /** `login()`: `valid` is `validate_on_submit()`, `check` is
      werkzeug's `check_password_hash`, `next` the `next` query argument.
      The user handed to `login_user` is `u`. */
  method Login(table: UsersTable, valid: bool, formEmail: string, password: string,
    check: (Value, string) -> bool, next: Option<string>, indexUrl: string)
    returns (r: LoginResponse, u: AuthUser?)
    requires table.Valid()
    ensures !valid ==> r == LoginForm && u == null
    ensures valid && LoginKey(formEmail) !in table.items ==> r == UnknownUser && u == null
    ensures valid && LoginKey(formEmail) in table.items ==>
      var item := table.items[LoginKey(formEmail)];
      if !PasswordMatches(item, password, check) then r == WrongPassword && u == null
      else
        && r == LoggedIn(SafeNextUrl(next, indexUrl))
        && u != null && fresh(u)
        && u.Id() == Str(LoginKey(formEmail))
        && u.IsAdministrator() == AdminFlag(item)
        && u.profile == Profile(item)
  {
    u := null;
    if !valid {
      return LoginForm, null;
    }
    var key := LoginKey(formEmail);
    if key !in table.items || table.items[key] == map[] {
      return UnknownUser, null;
    }
    var item := table.items[key];
    var user := new AuthUser.FromItem(item, AdminFlag(item));
    if !user.CheckPassword(password, check) {
      return WrongPassword, null;
    }
    u := user;
    r := LoggedIn(SafeNextUrl(next, indexUrl));
  }

  // ----- register -----

  /** The submitted registration form; empty fields are "". */
  datatype RegistrationForm = RegistrationForm(
    email: string,
    password: string,
    displayName: string,
    senderName: string,
    fullName: string,
    phone: string,
    postalCode: string,
    prefecture: string,
    address: string,
    building: string)

  /** The item `register` puts, for the key it chose. */
  function NewUserItem(key: string, f: RegistrationForm, passwordHash: string, now: string): (r: Item)
    ensures "user_id" in r && "email" in r && "administrator" in r && "created_at" in r && "updated_at" in r
    ensures "password_hash" in r && "sender_name" in r
    ensures r["user_id"] == r["email"] == Str(key)
    ensures r["administrator"] == Int(0) && !AdminFlag(r)
    ensures r["created_at"] == r["updated_at"] == Str(now)
    ensures r["password_hash"] == Str(passwordHash)
    ensures r["sender_name"] == Str(if f.senderName != "" then f.senderName else f.displayName)
  {
    map[
      "user_id" := Str(key),
      "email" := Str(key),
      "display_name" := Str(f.displayName),
      "sender_name" := Str(if f.senderName != "" then f.senderName else f.displayName),
      "full_name" := Str(f.fullName),
      "phone" := Str(f.phone),
      "postal_code" := Str(f.postalCode),
      "prefecture" := Str(f.prefecture),
      "address" := Str(f.address),
      "building" := Str(f.building),
      "password_hash" := Str(passwordHash),
      "administrator" := Int(0),
      "created_at" := Str(now),
      "updated_at" := Str(now)]
  }

  /** The key `register` stores under as written: the email only stripped. */
  function RegisterKeyAsWritten(formEmail: string): string {
    Strip(formEmail)
  }

  /** A user who registers with an upper-case letter in the email is stored
      under a key the login never looks up. */
  lemma MixedCaseRegistrationCannotLogIn(items: map<string, Item>, f: RegistrationForm, passwordHash: string, now: string)
    requires LoginKey(f.email) != RegisterKeyAsWritten(f.email)
    requires LoginKey(f.email) !in items
    ensures var key := RegisterKeyAsWritten(f.email);
      LoginKey(f.email) !in items[key := NewUserItem(key, f, passwordHash, now)]
  {
  }

  /** The key registration uses here: the one login looks up. */
  function RegisterKey(formEmail: string): string {
    LoginKey(formEmail)
  }

  /** A registered user logs in with the email and password they registered
      with, whatever its letter case. */
  lemma RegisterThenLogIn(items: map<string, Item>, f: RegistrationForm, hash: string -> string,
    check: (Value, string) -> bool, now: string)
    requires forall p :: hash(p) != "" && check(Str(hash(p)), p)
    ensures var key := RegisterKey(f.email);
      var after := items[key := NewUserItem(key, f, hash(f.password), now)];
      && LoginKey(f.email) in after
      && PasswordMatches(after[LoginKey(f.email)], f.password, check)
  {
  }

  datatype RegisterResponse =
    | HomeRedirect   // a logged-in non-administrator
    | RegisterForm   // GET or invalid input
    | Duplicate      // the key is taken
    | PutFailed      // `put_item` raised: the key is empty
    | Registered

  /** `register()`; `blocked` says the current user is logged in and not an
      administrator, `hash` is werkzeug's `generate_password_hash`. */
  method Register(table: UsersTable, blocked: bool, valid: bool, f: RegistrationForm,
    hash: string -> string, now: string) returns (r: RegisterResponse)
    requires table.Valid()
    modifies table
    ensures table.Valid()
    ensures blocked ==> r == HomeRedirect && table.items == old(table.items)
    ensures !blocked && !valid ==> r == RegisterForm && table.items == old(table.items)
    ensures !blocked && valid ==>
      var key := RegisterKey(f.email);
      if key in old(table.items) then r == Duplicate && table.items == old(table.items)
      else if key == "" then r == PutFailed && table.items == old(table.items)
      else r == Registered && table.items == old(table.items)[key := NewUserItem(key, f, hash(f.password), now)]
  {
    if blocked {
      return HomeRedirect;
    }
    if !valid {
      return RegisterForm;
    }
    var key := RegisterKey(f.email);
    if key in table.items {
      return Duplicate;
    }
    var item := NewUserItem(key, f, hash(f.password), now);
    var ok := table.Put(item);
    r := if ok then Registered else PutFailed;
  }

  // ----- user_maintenance -----

  /** The row the user list shows for one scanned item. */
  datatype UserRow = UserRow(
    id: Option<Value>,
    userId: Option<Value>,
    email: Option<Value>,
    displayName: Option<Value>,
    fullName: Option<Value>,
    phone: Option<Value>,
    administrator: bool)

  function Clean(it: Item): (r: UserRow)
    ensures r.id == r.userId == Get(it, "user_id")
    ensures r.administrator == AdminFlag(it)
  {
    UserRow(Get(it, "user_id"), Get(it, "user_id"), Get(it, "email"), Get(it, "display_name"),
      Get(it, "full_name"), Get(it, "phone"), AdminFlag(it))
  }

  const PerPage := 10

  datatype UsersPage = UsersPage(
    items: seq<UserRow>,
    page: int,
    perPage: int,
    total: nat,
    hasNext: bool,
    hasPrev: bool,
    nextNum: Option<int>,
    prevNum: Option<int>,
    pages: int)

  datatype MaintenanceResponse = Forbidden | Shown(users: UsersPage)

  /** One row per scanned item, in scan order. */
  function Cleaned(scanned: seq<Item>): (r: seq<UserRow>)
    ensures |r| == |scanned|
    ensures forall i :: 0 <= i < |scanned| ==> r[i] == Clean(scanned[i])
  {
    seq(|scanned|, i requires 0 <= i < |scanned| => Clean(scanned[i]))
  }

  /** The `cleaned` loop. */
  method CleanAll(scanned: seq<Item>) returns (cleaned: seq<UserRow>)
    ensures cleaned == Cleaned(scanned)
  {
    cleaned := [];
    for i := 0 to |scanned|
      invariant |cleaned| == i
      invariant forall j :: 0 <= j < i ==> cleaned[j] == Clean(scanned[j])
    {
      cleaned := cleaned + [Clean(scanned[i])];
    }
  }

  /** `user_maintenance()` for the `page` query argument over the items the
      scan returned. */
  method UserMaintenance(isAdmin: bool, scanned: seq<Item>, page: int) returns (r: MaintenanceResponse)
    ensures !isAdmin <==> r == Forbidden
    ensures r.Shown? ==>
      var p := r.users;
      var start := (page - 1) * PerPage;
      var end := start + PerPage;
      && p.items == Slice(Cleaned(scanned), start, end)
      && p.total == |scanned|
      && (p.hasNext <==> end < |scanned|)
      && (p.hasPrev <==> start > 0)
      && p.nextNum == (if p.hasNext then Some(page + 1) else None)
      && p.prevNum == (if p.hasPrev then Some(page - 1) else None)
      && p.page == page && p.perPage == PerPage
      && (|scanned| == 0 ==> p.pages == 0)
      && (|scanned| > 0 ==> (p.pages - 1) * PerPage < |scanned| <= p.pages * PerPage)
  {
    if !isAdmin {
      return Forbidden;
    }
    var cleaned := CleanAll(scanned);
    var total := |cleaned|;
    var start := (page - 1) * PerPage;
    var end := start + PerPage;
    var hasNext := end < total;
    var hasPrev := start > 0;
    var pages := (total + PerPage - 1) / PerPage;
    r := Shown(UsersPage(Slice(cleaned, start, end), page, PerPage, total, hasNext, hasPrev,
      if hasNext then Some(page + 1) else None,
      if hasPrev then Some(page - 1) else None,
      pages));
  }

  /** What a page shows: never more than `PerPage` rows; for a page that
      starts inside the list, the rows of the scanned items from `start` on;
      for a page past the end, nothing and no next page. */
  lemma MaintenancePage(scanned: seq<Item>, page: int)
    ensures var start := (page - 1) * PerPage;
      var s := Slice(Cleaned(scanned), start, start + PerPage);
      && |s| <= PerPage
      && (0 <= start < |scanned| ==>
            |s| == (if start + PerPage < |scanned| then PerPage else |scanned| - start)
            && forall k :: 0 <= k < |s| ==> s[k] == Clean(scanned[start + k]))
      && (page >= 1 && start >= |scanned| ==> s == [] && !(start + PerPage < |scanned|))
  {
  }

  /** Pages 1 to `pages` show every scanned item once, in scan order. */
  lemma {:induction false} MaintenancePagesCover(scanned: seq<Item>, pages: nat)
    requires pages * PerPage >= |scanned|
    ensures Concat(PagesUpTo(Cleaned(scanned), pages)) == Cleaned(scanned)
  {
    PagesUpToConcat(Cleaned(scanned), pages);
    assert Cleaned(scanned)[..|Cleaned(scanned)|] == Cleaned(scanned);
  }

  function Concat(pages: seq<seq<UserRow>>): seq<UserRow> {
    if pages == [] then [] else Concat(pages[..|pages| - 1]) + pages[|pages| - 1]
  }

  /** Pages 1 to `n` of a row list. */
  function PagesUpTo(rows: seq<UserRow>, n: nat): (r: seq<seq<UserRow>>)
    ensures |r| == n
  {
    if n == 0 then [] else PagesUpTo(rows, n - 1) + [Slice(rows, (n - 1) * PerPage, (n - 1) * PerPage + PerPage)]
  }

  lemma {:induction false} PagesUpToConcat(rows: seq<UserRow>, n: nat)
    ensures Concat(PagesUpTo(rows, n)) == rows[..if n * PerPage < |rows| then n * PerPage else |rows|]
  {
    if n > 0 {
      PagesUpToConcat(rows, n - 1);
      var pre := PagesUpTo(rows, n - 1);
      assert PagesUpTo(rows, n)[..n - 1] == pre;
      var a := (n - 1) * PerPage;
      var a' := if a < |rows| then a else |rows|;
      var b' := if n * PerPage < |rows| then n * PerPage else |rows|;
      assert Slice(rows, a, a + PerPage) == rows[a'..b'];
      assert rows[..a'] + rows[a'..b'] == rows[..b'];
    }
  }

  // ----- account_me -----

  /** The submitted account form; an empty password field is "". */
  datatype AccountForm = AccountForm(
    displayName: string,
    email: string,
    fullName: string,
    senderName: string,
    phone: string,
    postalCode: string,
    prefecture: string,
    address: string,
    building: string,
    password: string)

  /** The item after the form is applied. */
  function AccountUpdate(item: Item, f: AccountForm, hash: string -> string): (r: Item)
    ensures r.Keys == item.Keys + {"display_name", "email", "full_name", "sender_name", "phone", "postal_code", "prefecture", "address", "building"}
      + (if f.password != "" then {"password_hash"} else {})
    ensures r["email"] == Str(f.email) && r["display_name"] == Str(f.displayName)
    ensures f.password != "" ==> r["password_hash"] == Str(hash(f.password))
    ensures f.password == "" ==> Get(r, "password_hash") == Get(item, "password_hash")
    ensures forall k :: k in item && k !in AccountFields ==> r[k] == item[k]
    ensures "user_id" in item ==> "user_id" in r && r["user_id"] == item["user_id"]
  {
    var r := item["display_name" := Str(f.displayName)]["email" := Str(f.email)]["full_name" := Str(f.fullName)]
      ["sender_name" := Str(f.senderName)]["phone" := Str(f.phone)]["postal_code" := Str(f.postalCode)]
      ["prefecture" := Str(f.prefecture)]["address" := Str(f.address)]["building" := Str(f.building)];
    if f.password != "" then r["password_hash" := Str(hash(f.password))] else r
  }

  /** The attributes the account form can write. */
  const AccountFields: set<string> :=
    {"display_name", "email", "full_name", "sender_name", "phone", "postal_code", "prefecture", "address", "building", "password_hash"}

  datatype AccountResponse =
    | NoAccount     // no email on the session user, or no item under it
    | AccountShown     // GET or invalid input: the page with the stored values
    | AccountUpdated

  /** `account_me()` looking the user up under `key`, which the view takes
      from the session user's `email`; `hash` is werkzeug's
      `generate_password_hash`. */
  method AccountMe(table: UsersTable, key: string, valid: bool, f: AccountForm, hash: string -> string)
    returns (r: AccountResponse)
    requires table.Valid()
    modifies table
    ensures table.Valid()
    ensures key == "" || key !in old(table.items) ==> r == NoAccount && table.items == old(table.items)
    ensures key != "" && key in old(table.items) && !valid ==> r == AccountShown && table.items == old(table.items)
    ensures key != "" && key in old(table.items) && valid ==>
      r == AccountUpdated && table.items == old(table.items)[key := AccountUpdate(old(table.items)[key], f, hash)]
  {
    if key == "" || key !in table.items || table.items[key] == map[] {
      return NoAccount;
    }
    if !valid {
      return AccountShown;
    }
    var item := AccountUpdate(table.items[key], f, hash);
    assert item["user_id"] == Str(key);
    var ok := table.Put(item);
    assert ok;
    r := AccountUpdated;
  }

  /** The form's email goes into the `email` attribute but `user_id` stays:
      after changing it, the next visit looks the user up under the new
      email, finds nothing and is sent away, while `user_id` still holds the
      old address. */
  lemma EmailChangeLocksAccount(items: map<string, Item>, key: string, f: AccountForm, hash: string -> string)
    requires key in items && "user_id" in items[key] && items[key]["user_id"] == Str(key)
    requires f.email != key && f.email !in items
    ensures var after := items[key := AccountUpdate(items[key], f, hash)];
      && after[key]["email"] == Str(f.email)
      && after[key]["user_id"] == Str(key)
      && f.email !in after
  {
  }

  /** Looking the user up under the session's `id` instead: after any
      update the same key still finds the updated item. */
  lemma AccountKeyStable(items: map<string, Item>, key: string, f: AccountForm, hash: string -> string)
    requires key in items && "user_id" in items[key] && items[key]["user_id"] == Str(key)
    ensures var after := items[key := AccountUpdate(items[key], f, hash)];
      && key in after
      && after[key]["user_id"] == Str(key)
      && after[key]["email"] == Str(f.email)
  {
  }
}
