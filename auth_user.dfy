/** `models/common.py`: the logged-in user rebuilt from a `hoero-users`
    item (`AuthUser`, `load_user`) and the password and address properties
    of the RDS `User` model. */
module AuthUsers {
  import opened Wrappers
  import opened Text
  import opened UserMigration

  /** Python's `bool(v)` for a value boto3 hands back. */
  predicate PyBool(v: Value) {
    match v
    case Str(s) => s != ""
    case Num(d) => d.units != 0
    case Int(i) => i != 0
    case Bool(b) => b
    case Null => false
    case List(xs) => xs != []
    case Dict(es) => es != []
  }

  /** `item.get(key)`. */
  function Get(item: Item, key: string): Option<Value> {
    if key in item then Some(item[key]) else None
  }

  /** `item.get("administrator", 0)`. */
  function AdminRaw(item: Item): Value {
    if "administrator" in item then item["administrator"] else Int(0)
  }

  /** A zero `Decimal` narrows to 0 whatever its scale. */
  lemma TruncOfZero(d: Decimal)
    ensures d.units == 0 ==> TruncToInt(d) == 0
  {
  }

  lemma MulAtLeast(r: int, p: nat)
    requires r >= 1
    ensures r * p >= p
  {
  }

  /** The administrator flag: a `Decimal` is first narrowed with `int()`,
      then everything goes through `bool()`. Narrowing can only turn a flag
      off, never on. */
  function AdminFlag(item: Item): (r: bool)
    ensures r ==> PyBool(AdminRaw(item))
    ensures "administrator" !in item ==> !r
  {
    var raw := AdminRaw(item);
    if raw.Num? then
      TruncOfZero(raw.d); TruncToInt(raw.d) != 0
    else PyBool(raw)
  }

  /** A whole-number `Decimal` such as `Decimal('1')` or `Decimal('0')`
      gives the flag `bool()` would. */
  lemma AdminFlagOfWholeNumber(item: Item)
    requires "administrator" in item && item["administrator"].Num? && item["administrator"].d.scale == 0
    ensures AdminFlag(item) == PyBool(item["administrator"])
  {
  }

  /** A fractional `Decimal` strictly between 0 and 1 is truthy, yet the
      narrowing makes the user a non-administrator. */
  lemma AdminFlagOfFraction(item: Item)
    requires "administrator" in item && item["administrator"].Num?
    requires 0 < item["administrator"].d.units < Pow10(item["administrator"].d.scale)
    ensures PyBool(item["administrator"]) && !AdminFlag(item)
  {
    var d := item["administrator"].d;
    var r := TruncToInt(d);
    if r > 0 {
      MulAtLeast(r, Pow10(d.scale));
    }
  }

  /** The attributes `AuthUser` copies with `item.get`. */
  const ProfileKeys: set<string> :=
    {"email", "display_name", "sender_name", "full_name", "phone", "postal_code", "prefecture", "address", "building"}

  function Profile(item: Item): (r: map<string, Value>)
    ensures forall k :: k in r <==> k in item && k in ProfileKeys
    ensures forall k :: k in r ==> r[k] == item[k]
  {
    map k | k in item && k in ProfileKeys :: item[k]
  }

  /** The user Flask-Login keeps for a session. */
  class AuthUser {
    var userId: Value
    var profile: map<string, Value>
    var administrator: Value
    var passwordHash: Option<Value>

    /** `AuthUser(user_id=item["user_id"], ..., administrator=is_admin,
        password_hash=item.get("password_hash"))`. */
    constructor FromItem(item: Item, isAdmin: bool)
      requires "user_id" in item
      ensures userId == item["user_id"] && profile == Profile(item)
      ensures administrator == Bool(isAdmin) && passwordHash == Get(item, "password_hash")
    {
      userId := item["user_id"];
      profile := Profile(item);
      administrator := Bool(isAdmin);
      passwordHash := Get(item, "password_hash");
    }

    /** `id`: what the session stores. */
    function Id(): Value
      reads this
    {
      userId
    }

    function IsAdministrator(): bool
      reads this
    {
      PyBool(administrator)
    }

    /** `check_password`; `check` is werkzeug's `check_password_hash`. */
    function CheckPassword(password: string, check: (Value, string) -> bool): (r: bool)
      reads this
      ensures passwordHash.None? || !PyBool(passwordHash.value) ==> !r
      ensures passwordHash.Some? && PyBool(passwordHash.value) ==> (r <==> check(passwordHash.value, password))
    {
      if passwordHash.None? || !PyBool(passwordHash.value) then false
      else check(passwordHash.value, password)
    }
  }

  /** `load_user(user_id)`: no user for an unknown id; otherwise one whose
      `id` is the id asked for and whose flag is the narrowed one. */
  method LoadUser(table: UsersTable, userId: string) returns (u: AuthUser?)
    requires table.Valid()
    ensures u == null <==> userId !in table.items
    ensures u != null ==>
      && fresh(u)
      && u.Id() == Str(userId)
      && u.IsAdministrator() == AdminFlag(table.items[userId])
      && u.profile == Profile(table.items[userId])
      && u.passwordHash == Get(table.items[userId], "password_hash")
  {
    if userId !in table.items || table.items[userId] == map[] {
      return null;
    }
    var item := table.items[userId];
    u := new AuthUser.FromItem(item, AdminFlag(item));
  }

  // ----- the RDS User model -----

  /** `filter(None, parts)`: the non-empty parts, in order. */
  function NonEmpty(parts: seq<string>): (r: seq<string>)
    ensures forall i :: 0 <= i < |r| ==> r[i] != ""
    ensures forall p :: p in r <==> p in parts && p != ""
    ensures r == [] <==> forall p :: p in parts ==> p == ""
  {
    if parts == [] then []
    else
      assert forall p :: p in parts <==> p == parts[0] || p in parts[1..];
      if parts[0] == "" then NonEmpty(parts[1..]) else
        assert parts[0] in parts && |[parts[0]] + NonEmpty(parts[1..])| > 0;
        [parts[0]] + NonEmpty(parts[1..])
  }

  /** Each non-empty part is kept as often as it occurs, and no empty one is. */
  lemma {:induction false} NonEmptyCounts(parts: seq<string>)
    ensures multiset(NonEmpty(parts)) == multiset(parts)["" := 0]
  {
    if parts != [] {
      var rest := parts[1..];
      assert parts == [parts[0]] + rest;
      assert multiset(parts) == multiset{parts[0]} + multiset(rest);
      NonEmptyCounts(rest);
    }
  }

  /** The filter works part by part, so it keeps the parts' order. */
  lemma {:induction false} NonEmptyConcat(a: seq<string>, b: seq<string>)
    ensures NonEmpty(a + b) == NonEmpty(a) + NonEmpty(b)
  {
    if a == [] {
      assert a + b == b;
    } else {
      var ab := a + b;
      assert ab[0] == a[0] && ab[1..] == a[1..] + b;
      NonEmptyConcat(a[1..], b);
      if a[0] == "" {
        assert NonEmpty(ab) == NonEmpty(ab[1..]);
      } else {
        assert NonEmpty(ab) == [a[0]] + NonEmpty(ab[1..]);
      }
    }
  }

  /** Every space has a non-space on both sides: no leading or trailing
      space and no two spaces in a row. */
  predicate SingleSpaced(s: string) {
    forall i :: 0 <= i < |s| && s[i] == ' ' ==> 0 < i < |s| - 1 && s[i - 1] != ' ' && s[i + 1] != ' '
  }

  /** Joining non-empty parts gives the empty string only for no parts,
      and otherwise starts with the first part. */
  lemma JoinOfNonEmpty(ps: seq<string>, sep: string)
    requires forall i :: 0 <= i < |ps| ==> ps[i] != ""
    ensures Join(ps, sep) == "" <==> ps == []
    ensures ps != [] ==> StartsWith(Join(ps, sep), ps[0])
  {
    if |ps| >= 2 {
      var j := Join(ps, sep);
      assert j == ps[0] + sep + Join(ps[1..], sep);
      assert j[..|ps[0]|] == ps[0];
    }
  }

  /** Joining non-empty parts without spaces by single spaces is single-spaced. */
  lemma {:induction false} JoinSingleSpaced(ps: seq<string>)
    requires forall i :: 0 <= i < |ps| ==> ps[i] != "" && ' ' !in ps[i]
    ensures SingleSpaced(Join(ps, " "))
  {
    if |ps| >= 2 {
      var a := ps[0];
      var rest := Join(ps[1..], " ");
      JoinSingleSpaced(ps[1..]);
      JoinOfNonEmpty(ps[1..], " ");
      var s := a + " " + rest;
      assert Join(ps, " ") == s;
      assert rest[0] == ps[1][0];
      assert ps[1][0] in ps[1];
      forall i | 0 <= i < |s| && s[i] == ' '
        ensures 0 < i < |s| - 1 && s[i - 1] != ' ' && s[i + 1] != ' '
      {
        if i == |a| {
          assert s[i - 1] == a[|a| - 1] && a[|a| - 1] in a;
          assert s[i + 1] == rest[0];
        } else if i > |a| {
          var k := i - |a| - 1;
          assert s[i] == rest[k];
          if k == 0 {
            assert false;
          }
          assert s[i - 1] == rest[k - 1];
          assert s[i + 1] == rest[k + 1];
        }
      }
    } else if |ps| == 1 {
      assert Join(ps, " ") == ps[0];
      forall i | 0 <= i < |ps[0]| ensures ps[0][i] != ' ' {
        assert ps[0][i] in ps[0];
      }
    }
  }

  /** `x or ""`. */
  function OrEmpty(x: Option<string>): string {
    x.GetOr("")
  }

  /** The four parts `full_address` starts from. */
  function AddressParts(postalCode: Option<string>, prefecture: Option<string>, address: Option<string>, building: Option<string>): seq<string> {
    [if OrEmpty(postalCode) != "" then "〒" + postalCode.value else "", OrEmpty(prefecture), OrEmpty(address), OrEmpty(building)]
  }

  /** `full_address`. */
  function FullAddressOf(postalCode: Option<string>, prefecture: Option<string>, address: Option<string>, building: Option<string>): string {
    Join(NonEmpty(AddressParts(postalCode, prefecture, address, building)), " ")
  }

  /** The address is empty exactly when all four fields are, and begins with
      the postal mark and code exactly when a code is set. */
  lemma FullAddressShape(postalCode: Option<string>, prefecture: Option<string>, address: Option<string>, building: Option<string>)
    ensures FullAddressOf(postalCode, prefecture, address, building) == "" <==>
      OrEmpty(postalCode) == "" && OrEmpty(prefecture) == "" && OrEmpty(address) == "" && OrEmpty(building) == ""
    ensures OrEmpty(postalCode) != "" ==> StartsWith(FullAddressOf(postalCode, prefecture, address, building), "〒" + postalCode.value)
    ensures OrEmpty(postalCode) == "" ==> FullAddressOf(postalCode, prefecture, address, building) == Join(NonEmpty([OrEmpty(prefecture), OrEmpty(address), OrEmpty(building)]), " ")
  {
    var parts := AddressParts(postalCode, prefecture, address, building);
    JoinOfNonEmpty(NonEmpty(parts), " ");
    assert parts[0] in parts && parts[1] in parts && parts[2] in parts && parts[3] in parts;
    if OrEmpty(postalCode) != "" {
      assert NonEmpty(parts)[0] == parts[0];
    } else {
      assert parts[1..] == [OrEmpty(prefecture), OrEmpty(address), OrEmpty(building)];
    }
  }

  /** When no field holds a space, the parts are separated by single spaces. */
  lemma FullAddressSingleSpaced(postalCode: Option<string>, prefecture: Option<string>, address: Option<string>, building: Option<string>)
    requires ' ' !in OrEmpty(postalCode) && ' ' !in OrEmpty(prefecture) && ' ' !in OrEmpty(address) && ' ' !in OrEmpty(building)
    ensures SingleSpaced(FullAddressOf(postalCode, prefecture, address, building))
  {
    var parts := AddressParts(postalCode, prefecture, address, building);
    assert forall p :: p in parts ==> ' ' !in p;
    JoinSingleSpaced(NonEmpty(parts));
  }

  /** The RDS `users` row. */
  class User {
    var displayName: Option<string>
    var email: Option<string>
    var postalCode: Option<string>
    var prefecture: Option<string>
    var address: Option<string>
    var building: Option<string>
    var passwordHash: string
    var administrator: bool

    /** `User(...)` assigns `password` through its setter; `hash` is
        werkzeug's `generate_password_hash`. */
    constructor(displayName: Option<string>, email: Option<string>, postalCode: Option<string>,
      prefecture: Option<string>, address: Option<string>, building: Option<string>,
      password: string, administrator: bool, hash: string -> string)
      ensures this.displayName == displayName && this.email == email && this.postalCode == postalCode
      ensures this.prefecture == prefecture && this.address == address && this.building == building
      ensures this.administrator == administrator && passwordHash == hash(password)
    {
      this.displayName := displayName;
      this.email := email;
      this.postalCode := postalCode;
      this.prefecture := prefecture;
      this.address := address;
      this.building := building;
      this.passwordHash := hash(password);
      this.administrator := administrator;
    }

    /** Reading `password` raises. */
    function Password(): (r: Result<string, string>)
      ensures r.Err?
    {
      Err("password is not a readable attribute")
    }

    /** `check_password`; `check` is werkzeug's `check_password_hash`. */
    function CheckPassword(password: string, check: (string, string) -> bool): bool
      reads this
    {
      check(passwordHash, password)
    }

    /** Assigning `password` stores its hash; with a hash and check that
        agree, the same password then checks. */
    method SetPassword(password: string, hash: string -> string, ghost check: (string, string) -> bool)
      modifies this
      ensures passwordHash == hash(password)
      ensures displayName == old(displayName) && email == old(email) && administrator == old(administrator)
      ensures postalCode == old(postalCode) && prefecture == old(prefecture) && address == old(address) && building == old(building)
      ensures (forall p :: check(hash(p), p)) ==> CheckPassword(password, check)
    {
      passwordHash := hash(password);
    }

    function FullAddress(): string
      reads this
    {
      FullAddressOf(postalCode, prefecture, address, building)
    }
  }
}
