/** `migrate_hoero_users_userid_to_email.py`: the recursive Decimal-to-int
    conversion used for display, and the copy of one user record in the
    `hoero-users` table under the user's email as its new `user_id`. */
module UserMigration {
  import opened Wrappers

  /** A DynamoDB `Decimal` written as `units / 10^scale`. */
  datatype Decimal = Decimal(units: int, scale: nat)

  /** The values boto3 hands back: dicts are key/value lists with distinct keys. */
  datatype Value =
    | Str(s: string)
    | Num(d: Decimal)
    | Int(i: int)
    | Bool(b: bool)
    | Null
    | List(items: seq<Value>)
    | Dict(entries: seq<(string, Value)>)

  function Pow10(n: nat): (r: nat)
    ensures r >= 1
  {
    if n == 0 then 1 else 10 * Pow10(n - 1)
  }

  /** Python's `int(Decimal)`: the quotient truncated toward zero. */
  function TruncToInt(d: Decimal): (r: int)
    ensures d.units >= 0 ==> r >= 0 && r * Pow10(d.scale) <= d.units < r * Pow10(d.scale) + Pow10(d.scale)
    ensures d.units < 0 ==> r <= 0 && r * Pow10(d.scale) - Pow10(d.scale) < d.units <= r * Pow10(d.scale)
  {
    var p := Pow10(d.scale);
    if d.units >= 0 then
      DivBounds(d.units, p);
      d.units / p
    else
      DivBounds(-d.units, p);
      NegMul((-d.units) / p, p);
      -((-d.units) / p)
  }

  lemma DivBounds(a: nat, p: nat)
    requires p >= 1
    ensures a / p >= 0 && (a / p) * p <= a < (a / p) * p + p
  {
    assert a == (a / p) * p + a % p;
  }

  lemma NegMul(q: int, p: int)
    ensures (-q) * p == -(q * p)
  {
  }

  /** The keys of a dict, in iteration order. */
  function Keys(entries: seq<(string, Value)>): (r: seq<string>)
    ensures |r| == |entries|
    ensures forall i :: 0 <= i < |entries| ==> r[i] == entries[i].0
  {
    seq(|entries|, i requires 0 <= i < |entries| => entries[i].0)
  }

  /** `convert_decimals`. */
  function Convert(v: Value): (r: Value)
    decreases v
  {
    match v
    case List(items) => List(seq(|items|, i requires 0 <= i < |items| => Convert(items[i])))
    case Dict(entries) =>
      Dict(seq(|entries|, i requires 0 <= i < |entries| => (entries[i].0, Convert(entries[i].1))))
    case Num(d) => Int(TruncToInt(d))
    case _ => v
  }

  /** A value in which no Decimal is left. */
  predicate DecimalFree(v: Value)
    decreases v
  {
    match v
    case Num(_) => false
    case List(items) => forall i :: 0 <= i < |items| ==> DecimalFree(items[i])
    case Dict(entries) => forall i :: 0 <= i < |entries| ==> DecimalFree(entries[i].1)
    case _ => true
  }

  /** The shape of the result: lists keep their length and elements are converted
      one by one, dicts keep their keys in order and only values are converted,
      a Decimal becomes its truncated int and anything else is returned as is. */
  lemma ConvertShape(v: Value)
    ensures v.List? ==>
      && Convert(v).List? && |Convert(v).items| == |v.items|
      && forall i :: 0 <= i < |v.items| ==> Convert(v).items[i] == Convert(v.items[i])
    ensures v.Dict? ==>
      && Convert(v).Dict? && Keys(Convert(v).entries) == Keys(v.entries)
      && forall i :: 0 <= i < |v.entries| ==> Convert(v).entries[i].1 == Convert(v.entries[i].1)
    ensures v.Num? ==> Convert(v) == Int(TruncToInt(v.d))
    ensures !v.List? && !v.Dict? && !v.Num? ==> Convert(v) == v
  {
  }

  /** The result holds no Decimal at any depth. */
  lemma {:induction false} ConvertDecimalFree(v: Value)
    ensures DecimalFree(Convert(v))
    decreases v
  {
    match v
    case List(items) =>
      forall i | 0 <= i < |items| ensures DecimalFree(Convert(v).items[i]) {
        ConvertDecimalFree(items[i]);
      }
    case Dict(entries) =>
      forall i | 0 <= i < |entries| ensures DecimalFree(Convert(v).entries[i].1) {
        ConvertDecimalFree(entries[i].1);
      }
    case _ =>
  }

  /** A value without Decimals is left exactly as it is. */
  lemma {:induction false} ConvertDecimalFreeFixed(v: Value)
    requires DecimalFree(v)
    ensures Convert(v) == v
    decreases v
  {
    match v
    case List(items) =>
      forall i | 0 <= i < |items| ensures Convert(items[i]) == items[i] {
        ConvertDecimalFreeFixed(items[i]);
      }
      assert Convert(v).items == items;
    case Dict(entries) =>
      forall i | 0 <= i < |entries| ensures Convert(entries[i].1) == entries[i].1 {
        ConvertDecimalFreeFixed(entries[i].1);
      }
      assert Convert(v).entries == entries;
    case _ =>
  }

  /** Converting twice is converting once. */
  lemma ConvertIdempotent(v: Value)
    ensures Convert(Convert(v)) == Convert(v)
  {
    ConvertDecimalFree(v);
    ConvertDecimalFreeFixed(Convert(v));
  }

  /** A table item: attribute name to value. */
  type Item = map<string, Value>

  /** Why the script stops. */
  datatype Outcome =
    | NotFound
    | NoEmail
    | Rejected
    | Copied(newUserId: string)

  /** The `hoero-users` table, keyed by `user_id`. */
  class UsersTable {
    var items: map<string, Item>

    /** Every stored item carries its own key as its `user_id`. */
    ghost predicate Valid()
      reads this
    {
      forall k :: k in items ==> "user_id" in items[k] && items[k]["user_id"] == Str(k)
    }

    constructor(initial: map<string, Item>)
      ensures items == initial
    {
      items := initial;
    }

    /** `put_item`: a key that is not a non-empty string is rejected by the
        table and nothing is written; otherwise the item replaces any item
        stored under that key. */
    method Put(item: Item) returns (ok: bool)
      modifies this
      ensures ok <==> "user_id" in item && item["user_id"].Str? && item["user_id"].s != []
      ensures ok ==> items == old(items)[item["user_id"].s := item]
      ensures !ok ==> items == old(items)
    {
      if "user_id" in item && item["user_id"].Str? && item["user_id"].s != [] {
        items := items[item["user_id"].s := item];
        ok := true;
      } else {
        ok := false;
      }
    }

    /** `main` for the record stored under `oldUserId`. */
    method MigrateUser(oldUserId: string) returns (r: Outcome)
      requires Valid()
      modifies this
      ensures Valid()
      ensures (oldUserId !in old(items) || old(items)[oldUserId] == map[]) ==> r == NotFound && items == old(items)
      ensures oldUserId in old(items) && old(items)[oldUserId] != map[] && "email" !in old(items)[oldUserId] ==>
        r == NoEmail && items == old(items)
      ensures oldUserId in old(items) && "email" in old(items)[oldUserId] ==>
        var email := old(items)[oldUserId]["email"];
        if email.Str? && email.s != [] then
          r == Copied(email.s) && items == old(items)[email.s := old(items)[oldUserId]["user_id" := email]]
        else
          r == Rejected && items == old(items)
      ensures oldUserId in old(items) ==> oldUserId in items && items[oldUserId] == old(items)[oldUserId]
    {
      if oldUserId !in items || items[oldUserId] == map[] {
        return NotFound;
      }
      var item := items[oldUserId];
      if "email" !in item {
        return NoEmail;
      }
      var newUserId := item["email"];
      var newItem := item["user_id" := newUserId];
      var ok := Put(newItem);
      if ok {
        assert newItem["user_id"] == Str(newUserId.s);
        r := Copied(newUserId.s);
      } else {
        r := Rejected;
      }
    }
  }

  /** The copied record differs from the old one only in `user_id`,
      which is the email. */
  lemma CopyDiffersOnlyInUserId(item: Item, email: string)
    requires "email" in item && item["email"] == Str(email)
    ensures var copy := item["user_id" := Str(email)];
      copy.Keys == item.Keys + {"user_id"} && copy["user_id"] == copy["email"]
      && forall k :: k in item && k != "user_id" ==> copy[k] == item[k]
  {
  }
}
