/** `views/uguis_badminton/routes.py`: the participant toggle of
    `join_schedule`, the `format_date` template filter and the email lookup
    of `login`. */
module Badminton {
  import opened Wrappers
  import opened Text
  import opened Tables

  // ----- join_schedule -----

  /** Where `x` first occurs. */
  function FirstIndex(s: seq<string>, x: string): (i: nat)
    requires x in s
    ensures i < |s| && s[i] == x && forall j :: 0 <= j < i ==> s[j] != x
  {
    if s[0] == x then 0 else 1 + FirstIndex(s[1..], x)
  }

  /** `list.remove(x)`: the list without its first `x`. */
  function RemoveFirst(s: seq<string>, x: string): (r: seq<string>)
    requires x in s
    ensures |r| == |s| - 1
    ensures multiset(r) == multiset(s) - multiset{x}
  {
    var i := FirstIndex(s, x);
    assert s == s[..i] + [x] + s[i + 1..];
    s[..i] + s[i + 1..]
  }

  /** A schedule item; a missing `participants` attribute reads as []. */
  datatype Schedule = Schedule(participants: seq<string>, participantsCount: int, other: map<string, string>)

  datatype JoinResponse =
    | BadRequest    // 400: no date
    | NotFound      // 404: no such schedule
    | ServerError   // 500: update_item raised
    | Joined(isJoining: bool, participants: seq<string>, participantsCount: int)

  /** The participants after the toggle. */
  function Toggled(participants: seq<string>, userId: string): (r: seq<string>)
    ensures userId in participants ==> |r| == |participants| - 1 && multiset(r) == multiset(participants) - multiset{userId}
    ensures userId !in participants ==> r == participants + [userId]
  {
    if userId in participants then RemoveFirst(participants, userId) else participants + [userId]
  }

  /** Joining and then cancelling, for a user who was not listed, gives the
      original list back. */
  lemma JoinThenCancel(participants: seq<string>, userId: string)
    requires userId !in participants
    ensures Toggled(Toggled(participants, userId), userId) == participants
  {
    var s := participants + [userId];
    assert FirstIndex(s, userId) == |participants|;
    assert s[..|participants|] == participants;
  }

  /** The schedules table, keyed by (`schedule_id`, `date`). */
  class ScheduleTable {
    var items: map<(string, string), Schedule>

    constructor(initial: map<(string, string), Schedule>)
      ensures items == initial
    {
      items := initial;
    }

    /** `join_schedule(schedule_id)` for the request's `date` and the current
        user; `updateFails` says whether `update_item` raises. */
    method JoinSchedule(scheduleId: string, date: Option<string>, userId: string, updateFails: bool)
      returns (r: JoinResponse)
      modifies this
      ensures date.None? || date.value == "" ==> r == BadRequest && items == old(items)
      ensures date.Some? && date.value != "" && (scheduleId, date.value) !in old(items) ==>
        r == NotFound && items == old(items)
      ensures date.Some? && date.value != "" && (scheduleId, date.value) in old(items) ==>
        var key := (scheduleId, date.value);
        var before := old(items)[key].participants;
        var after := Toggled(before, userId);
        if updateFails then r == ServerError && items == old(items)
        else
          && r == Joined(userId !in before, after, |after|)
          && items == old(items)[key := old(items)[key].(participants := after, participantsCount := |after|)]
    {
      if date.None? || date.value == "" {
        return BadRequest;
      }
      var key := (scheduleId, date.value);
      if key !in items {
        return NotFound;
      }
      var schedule := items[key];
      var participants := schedule.participants;
      var isJoining: bool;
      if userId in participants {
        participants := RemoveFirst(participants, userId);
        isJoining := false;
      } else {
        participants := participants + [userId];
        isJoining := true;
      }
      if updateFails {
        return ServerError;
      }
      items := items[key := schedule.(participants := participants, participantsCount := |participants|)];
      r := Joined(isJoining, participants, |participants|);
    }
  }

  // ----- format_date -----

  predicate Leap(y: int) {
    y % 4 == 0 && (y % 100 != 0 || y % 400 == 0)
  }

  function DaysIn(y: int, m: int): int {
    if m == 2 then (if Leap(y) then 29 else 28)
    else if m == 4 || m == 6 || m == 9 || m == 11 then 30
    else 31
  }

  /** Two digits at `i`, read as a number. */
  function Digits2(s: string, i: nat): nat
    requires i + 2 <= |s| && IsDigit(s[i]) && IsDigit(s[i + 1])
  {
    DigitValue(s[i]) * 10 + DigitValue(s[i + 1])
  }

  predicate DigitsAt(s: string, i: nat, n: nat) {
    i + n <= |s| && forall k :: i <= k < i + n ==> IsDigit(s[k])
  }

  /** The date part of `datetime.fromisoformat`: `YYYY-MM-DD` with a year
      from 1 on and a day that exists in that month. */
  predicate IsoDate(s: string) {
    && |s| >= 10
    && DigitsAt(s, 0, 4) && s[4] == '-' && DigitsAt(s, 5, 2) && s[7] == '-' && DigitsAt(s, 8, 2)
    && var year := Digits2(s, 0) * 100 + Digits2(s, 2);
      && year >= 1
      && 1 <= Digits2(s, 5) <= 12
      && 1 <= Digits2(s, 8) <= DaysIn(year, Digits2(s, 5))
  }

  /** `fromisoformat(value)` succeeds: the date, then nothing or a time part
      that `timeOk` (the time grammar, a parameter here) accepts. */
  predicate Parses(value: string, timeOk: string -> bool) {
    IsoDate(value) && (|value| == 10 || timeOk(value[10..]))
  }

  /** `%m` and `%d`: two digits, zero-padded. */
  function Pad2(n: nat): (r: string)
    requires n < 100
    ensures |r| == 2 && r[0] == DigitChar(n / 10) && r[1] == DigitChar(n % 10)
  {
    [DigitChar(n / 10), DigitChar(n % 10)]
  }

  /** `format_date(value)`. */
  function FormatDate(value: string, timeOk: string -> bool): (r: string)
    ensures !Parses(value, timeOk) ==> r == value
  {
    if Parses(value, timeOk) then Pad2(Digits2(value, 5)) + "/" + Pad2(Digits2(value, 8)) else value
  }

  lemma DigitRoundTrip(c: char)
    requires IsDigit(c)
    ensures DigitValue(c) < 10 && DigitChar(DigitValue(c)) == c
  {
  }

  lemma Pad2OfDigits(s: string, i: nat)
    requires i + 2 <= |s| && IsDigit(s[i]) && IsDigit(s[i + 1])
    ensures Digits2(s, i) < 100 && Pad2(Digits2(s, i)) == s[i..i + 2]
  {
    DigitRoundTrip(s[i]);
    DigitRoundTrip(s[i + 1]);
    var n := Digits2(s, i);
    assert n / 10 == DigitValue(s[i]) && n % 10 == DigitValue(s[i + 1]);
  }

  /** A parseable value becomes its own month and day as `MM/DD`. */
  lemma FormatDateIsMonthDay(value: string, timeOk: string -> bool)
    requires Parses(value, timeOk)
    ensures FormatDate(value, timeOk) == value[5..7] + "/" + value[8..10]
    ensures |FormatDate(value, timeOk)| == 5
  {
    Pad2OfDigits(value, 5);
    Pad2OfDigits(value, 8);
  }

  // ----- login -----

  /** The attributes of a user record the login reads. */
  datatype UguisUser = UguisUser(userId: string, email: string, passwordHash: string, complete: bool)

  function UguisEmail(u: UguisUser): string { u.email }

  /** The `email-index` query: exactly the records whose email is the
      lowercased form input; the first is used. */
  function LoginLookup(users: seq<UguisUser>, formEmail: string): (r: Option<UguisUser>)
    ensures r.None? <==> forall u :: u in users ==> u.email != Lower(formEmail)
    ensures r.Some? ==> r.value in users && r.value.email == Lower(formEmail)
  {
    var found := Matching(users, UguisEmail, Lower(formEmail));
    if found == [] then
      None
    else
      assert found[0] in found;
      Some(found[0])
  }

  /** Emails that differ only in ASCII letter case find the same record,
      and a record whose stored email has an upper-case letter is never found. */
  lemma LoginIgnoresCase(users: seq<UguisUser>, a: string, b: string)
    requires Lower(a) == Lower(b)
    ensures LoginLookup(users, a) == LoginLookup(users, b)
    ensures LoginLookup(users, a).Some? ==> Lower(LoginLookup(users, a).value.email) == LoginLookup(users, a).value.email
  {
    assert Lower(Lower(a)) == Lower(a);
  }

  datatype LoginOutcome = NoUser | BadRecord | WrongPassword | LoggedIn(userId: string)

  /** `login` after the lookup; `checkPassword` is werkzeug's hash check. */
  function UguisLogin(users: seq<UguisUser>, formEmail: string, password: string,
    checkPassword: (string, string) -> bool): (r: LoginOutcome)
    ensures r.LoggedIn? <==>
      && LoginLookup(users, formEmail).Some?
      && LoginLookup(users, formEmail).value.complete
      && checkPassword(LoginLookup(users, formEmail).value.passwordHash, password)
    ensures r.LoggedIn? ==> exists u :: u in users && u.userId == r.userId && u.email == Lower(formEmail)
  {
    match LoginLookup(users, formEmail)
    case None => NoUser
    case Some(u) =>
      if !u.complete then BadRecord
      else if checkPassword(u.passwordHash, password) then LoggedIn(u.userId)
      else WrongPassword
  }
}
