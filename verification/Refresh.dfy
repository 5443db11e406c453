/** The daily task that refreshes the storage of users with an upgrade, once a month. */
module Refresh {
  import opened Calendar

  const UNSUBSCRIBED_MONTH := -1

  /** A point in time: the date and the time of the day. */
  datatype Instant = Instant(date: Date, clock: nat)

  predicate Before(a: Instant, b: Instant) {
    Earlier(a.date, b.date) || (a.date == b.date && a.clock < b.clock)
  }

  /** Points in time are ordered by the day and then by the time of the day. */
  lemma BeforeIsEarlier(a: Instant, b: Instant)
    requires Valid(a.date) && Valid(b.date)
    ensures Before(a, b) <==>
              DayNumber(a.date) < DayNumber(b.date) || (DayNumber(a.date) == DayNumber(b.date) && a.clock < b.clock)
  {
    DayNumberOrders(a.date, b.date);
  }

  // ----- Which day of a month

  function NextDay(d: Date): Date {
    GoAddDate(d, 0, 0, 1)
  }

  predicate ExpDateRollover(now: Date, exp: Date) {
    exp.day > 28 && exp.day > now.day && NextDay(now).month > now.month
  }

  /** CheckActiveUpgrades refreshes an active upgrade on this day. */
  predicate IsRefreshDay(now: Date, exp: Date) {
    now.day == exp.day || ExpDateRollover(now, exp)
  }

  /** The refresh day of a month: the day of the expiration, or the last day of a shorter month. */
  function RefreshDay(index: int, exp: Date): int {
    if exp.day <= Length(index) then exp.day else Length(index)
  }

  /** For every expiration date and every month exactly one day is a refresh day. */
  lemma ExactlyOneDay(now: Date, exp: Date)
    requires Valid(now) && Valid(exp)
    ensures IsRefreshDay(now, exp) <==> now.day == RefreshDay(MonthIndex(now.year, now.month), exp)
    ensures 1 <= RefreshDay(MonthIndex(now.year, now.month), exp) <= DaysIn(now.year, now.month)
  {
    var index := MonthIndex(now.year, now.month);
    assert index / 12 == now.year && index % 12 + 1 == now.month;
    if now.day < Length(index) {
      assert NextDay(now) == DateAt(index, now.day + 1);
    } else {
      assert NextDay(now) == NormalDay(index + 1, 1) == DateAt(index + 1, 1);
    }
  }

  // ----- The users table

  /** The columns of a user row that matter here. */
  datatype User = User(paymentId: string, tag: string, exp: Instant, available: int, lastMonth: int, bandwidth: int)

  const TOTAL_BANDWIDTH_MULTIPLIER := 3
  const BANDWIDTH_MONITOR_DURATION := 7

  /** The upgrades on offer by tag, with the storage of each, and the default storage. */
  datatype Settings = Settings(upgrades: map<string, int>, defaultStorage: int)

  /** The rows that the query of CheckActiveUpgrades returns. */
  predicate IsSelected(u: User, now: Instant) {
    u.lastMonth != now.date.month && u.lastMonth > 0
  }

  predicate IsReverted(u: User, now: Instant) {
    IsSelected(u, now) && Before(u.exp, now)
  }

  predicate IsRefreshed(cfg: Settings, u: User, now: Instant) {
    IsSelected(u, now) && !Before(u.exp, now) && IsRefreshDay(now.date, u.exp.date) && u.tag in cfg.upgrades
  }

  function AfterCheck(cfg: Settings, u: User, now: Instant): User {
    if IsReverted(u, now) then u.(available := cfg.defaultStorage, lastMonth := UNSUBSCRIBED_MONTH)
    else if IsRefreshed(cfg, u, now) then u.(available := cfg.upgrades[u.tag], lastMonth := now.date.month)
    else u
  }

  /** SetUserVaultUpgrade */
  function AfterPurchase(u: User, now: Instant, tag: string, exp: Instant, bytes: int): User {
    User(u.paymentId, tag, exp, bytes, now.date.month, bytes * TOTAL_BANDWIDTH_MULTIPLIER * BANDWIDTH_MONITOR_DURATION)
  }

  /** A row with an active upgrade on its refresh day. */
  predicate IsDue(u: User, now: Instant) {
    IsSelected(u, now) && !Before(u.exp, now) && IsRefreshDay(now.date, u.exp.date)
  }

  ghost function Reverted(users: map<string, User>, rows: set<string>, now: Instant): set<string> {
    set x | x in rows && x in users && IsReverted(users[x], now)
  }

  function Group(upgradeMap: map<string, set<string>>, tag: string): set<string> {
    if tag in upgradeMap then upgradeMap[tag] else {}
  }

  /** Appends a user to the group of a tag. */
  function WithId(upgradeMap: map<string, set<string>>, tag: string, id: string): map<string, set<string>> {
    upgradeMap[tag := Group(upgradeMap, tag) + {id}]
  }

  /** The map holds exactly the rows due, by tag. */
  ghost predicate Groups(users: map<string, User>, rows: set<string>, upgradeMap: map<string, set<string>>, now: Instant) {
    forall tag, x :: x in Group(upgradeMap, tag) <==> x in rows && x in users && users[x].tag == tag && IsDue(users[x], now)
  }

  lemma GroupsStart(users: map<string, User>, now: Instant)
    ensures Groups(users, {}, map[], now) && Reverted(users, {}, now) == {}
  {
  }

  lemma GroupsStep(users: map<string, User>, rows: set<string>, upgradeMap: map<string, set<string>>, now: Instant, id: string)
    requires Groups(users, rows, upgradeMap, now) && id in users
    ensures IsDue(users[id], now) ==> Groups(users, rows + {id}, WithId(upgradeMap, users[id].tag, id), now)
    ensures !IsDue(users[id], now) ==> Groups(users, rows + {id}, upgradeMap, now)
    ensures Reverted(users, rows + {id}, now) == Reverted(users, rows, now) + if IsReverted(users[id], now) then {id} else {}
  {
    hide IsDue, IsReverted;
    if IsDue(users[id], now) {
      var after := WithId(upgradeMap, users[id].tag, id);
      forall tag, x
        ensures x in Group(after, tag) <==> x in rows + {id} && x in users && users[x].tag == tag && IsDue(users[x], now)
      {
        assert x in Group(after, tag) <==> x in Group(upgradeMap, tag) || (tag == users[id].tag && x == id);
      }
    }
  }

  class UsersTable {
    const cfg: Settings
    var users: map<string, User>

    constructor (cfg: Settings)
      ensures this.cfg == cfg && users == map[]
    {
      this.cfg, users := cfg, map[];
    }

    /** The row is found by its payment identifier. */
    method SetUserVaultUpgrade(paymentId: string, now: Instant, tag: string, exp: Instant, bytes: int)
      modifies this
      ensures users.Keys == old(users).Keys
      ensures forall x :: x in users ==>
                            users[x] == if old(users)[x].paymentId == paymentId
                                        then AfterPurchase(old(users)[x], now, tag, exp, bytes) else old(users)[x]
    {
      var totalWeeklyBandwidth := bytes * TOTAL_BANDWIDTH_MULTIPLIER * BANDWIDTH_MONITOR_DURATION;
      users := map x | x in users ::
        if users[x].paymentId == paymentId then
          users[x].(exp := exp, available := bytes, tag := tag, lastMonth := now.date.month, bandwidth := totalWeeklyBandwidth)
        else users[x];
    }

    /** UPDATE users SET storage_available, last_upgraded_month WHERE id = ANY(ids) */
    method UpdateRows(ids: set<string>, available: int, month: int)
      modifies this
      ensures users.Keys == old(users).Keys
      ensures forall x :: x in users ==>
                            users[x] == if x in ids then old(users)[x].(available := available, lastMonth := month)
                                        else old(users)[x]
    {
      users := map x | x in users :: if x in ids then users[x].(available := available, lastMonth := month) else users[x];
    }

    /** Sorts the selected rows into those to revert and, by tag, those to refresh. */
    method Collect(now: Instant) returns (revertIds: set<string>, upgradeMap: map<string, set<string>>)
      ensures revertIds == Reverted(users, users.Keys, now)
      ensures Groups(users, users.Keys, upgradeMap, now)
    {
      hide Before, ExpDateRollover, Groups, Reverted;
      GroupsStart(users, now);
      revertIds, upgradeMap := {}, map[];
      var rows := users.Keys;
      assert users.Keys - rows == {};
      while rows != {}
        invariant rows <= users.Keys
        invariant revertIds == Reverted(users, users.Keys - rows, now)
        invariant Groups(users, users.Keys - rows, upgradeMap, now)
        decreases |rows|
      {
        var id :| id in rows;
        var u := users[id];
        GroupsStep(users, users.Keys - rows, upgradeMap, now, id);
        assert users.Keys - rows + {id} == users.Keys - (rows - {id});
        rows := rows - {id};
        if IsSelected(u, now) {
          if Before(u.exp, now) {
            revertIds := revertIds + {id};
          } else if now.date.day == u.exp.date.day || ExpDateRollover(now.date, u.exp.date) {
            upgradeMap := WithId(upgradeMap, u.tag, id);
          }
        }
      }
      assert users.Keys - rows == users.Keys;
    }

    /** Every row goes through AfterCheck. */
    method CheckActiveUpgrades(now: Instant)
      modifies this
      ensures users.Keys == old(users).Keys
      ensures forall x :: x in users ==> users[x] == AfterCheck(cfg, old(users)[x], now)
    {
      ghost var before := users;
      var revertIds, upgradeMap := Collect(now);
      UpdateRows(revertIds, cfg.defaultStorage, UNSUBSCRIBED_MONTH);
      var tags := upgradeMap.Keys;
      forall x | x in users && IsDue(before[x], now)
        ensures before[x].tag in tags
      {
        assert x in Group(upgradeMap, before[x].tag);
      }
      while tags != {}
        invariant tags <= upgradeMap.Keys && users.Keys == before.Keys
        invariant forall x :: x in users ==>
                                users[x] == if IsDue(before[x], now) && before[x].tag in tags then before[x]
                                            else AfterCheck(cfg, before[x], now)
        decreases |tags|
      {
        var tag :| tag in tags;
        tags := tags - {tag};
        if tag in cfg.upgrades {
          UpdateRows(upgradeMap[tag], cfg.upgrades[tag], now.date.month);
        }
        forall x | x in users
          ensures users[x] == if IsDue(before[x], now) && before[x].tag in tags then before[x]
                              else AfterCheck(cfg, before[x], now)
        {
          assert x in Group(upgradeMap, tag) <==> before[x].tag == tag && IsDue(before[x], now);
        }
      }
    }
  }

  // ----- Runs of one user's row

  datatype Event = Check(now: Instant) | Purchase(now: Instant, tag: string, exp: Instant, bytes: int)

  function Step(cfg: Settings, u: User, e: Event): User {
    match e
    case Check(now) => AfterCheck(cfg, u, now)
    case Purchase(now, tag, exp, bytes) => AfterPurchase(u, now, tag, exp, bytes)
  }

  /** The row before event i. */
  function UserAt(cfg: Settings, u: User, events: seq<Event>, i: nat): User
    requires i <= |events|
  {
    if i == 0 then u else Step(cfg, UserAt(cfg, u, events, i - 1), events[i - 1])
  }

  predicate RefreshesAt(cfg: Settings, u: User, events: seq<Event>, i: nat)
    requires i < |events|
  {
    events[i].Check? && IsRefreshed(cfg, UserAt(cfg, u, events, i), events[i].now)
  }

  function Month(e: Event): int {
    MonthIndex(e.now.date.year, e.now.date.month)
  }

  /** Events in the order of time. */
  ghost predicate InOrder(events: seq<Event>) {
    && (forall i :: 0 <= i < |events| ==> Valid(events[i].now.date))
    && forall i, j :: 0 <= i < j < |events| ==> !Before(events[j].now, events[i].now)
  }

  lemma MonthsInOrder(events: seq<Event>, i: nat, j: nat)
    requires InOrder(events) && i <= j < |events|
    ensures Month(events[i]) <= Month(events[j])
    ensures Month(events[i]) == Month(events[j]) ==> events[i].now.date.month == events[j].now.date.month
  {
  }

  /** After a refresh or a purchase the row is not refreshed again while the month lasts. */
  lemma {:induction false} GrantLasts(cfg: Settings, u: User, events: seq<Event>, i: nat, j: nat)
    requires InOrder(events) && i < j < |events| && Month(events[i]) == Month(events[j])
    requires RefreshesAt(cfg, u, events, i) || events[i].Purchase?
    ensures UserAt(cfg, u, events, j).lastMonth in {events[i].now.date.month, UNSUBSCRIBED_MONTH}
    decreases j
  {
    MonthsInOrder(events, i, j - 1);
    MonthsInOrder(events, j - 1, j);
    if i == j - 1 {
    } else {
      GrantLasts(cfg, u, events, i, j - 1);
    }
  }

  /** Over any run an upgrade is refreshed at most once per month, and not in the month in which
      it was bought. */
  lemma AtMostOncePerMonth(cfg: Settings, u: User, events: seq<Event>, i: nat, j: nat)
    requires InOrder(events) && i < j < |events|
    requires RefreshesAt(cfg, u, events, i) || events[i].Purchase?
    requires RefreshesAt(cfg, u, events, j)
    ensures Month(events[i]) < Month(events[j])
  {
    MonthsInOrder(events, i, j);
    if Month(events[i]) == Month(events[j]) {
      GrantLasts(cfg, u, events, i, j);
    }
  }

  /** Once reverted, a row stays as it is until the next purchase. */
  lemma {:induction false} LapsedStays(cfg: Settings, u: User, events: seq<Event>, i: nat, j: nat)
    requires i < j <= |events| && events[i].Check? && IsReverted(UserAt(cfg, u, events, i), events[i].now)
    requires forall k :: i < k < j ==> events[k].Check?
    ensures UserAt(cfg, u, events, j) == UserAt(cfg, u, events, i + 1)
    ensures UserAt(cfg, u, events, j).available == cfg.defaultStorage
    ensures j < |events| ==> !RefreshesAt(cfg, u, events, j)
    decreases j
  {
    if i + 1 == j {
    } else {
      LapsedStays(cfg, u, events, i, j - 1);
    }
  }

  /** A check on every day of one month. */
  ghost predicate Daily(events: seq<Event>, index: int) {
    && |events| == Length(index)
    && forall i :: 0 <= i < |events| ==> events[i].Check? && events[i].now.date == DateAt(index, i + 1)
  }

  lemma {:induction false} UnchangedUntil(cfg: Settings, u: User, events: seq<Event>, index: int, i: nat)
    requires Daily(events, index) && Valid(u.exp.date) && i < |events| && i + 1 <= RefreshDay(index, u.exp.date)
    requires forall k :: 0 <= k < |events| ==> !Before(u.exp, events[k].now)
    ensures UserAt(cfg, u, events, i) == u
  {
    if i == 0 {
    } else {
      UnchangedUntil(cfg, u, events, index, i - 1);
      ExactlyOneDay(events[i - 1].now.date, u.exp.date);
    }
  }

  lemma DailyInOrder(events: seq<Event>, index: int)
    requires Daily(events, index)
    ensures InOrder(events)
  {
  }

  /** With a check on every day of a month, an active upgrade that has not been granted in that
      month is refreshed exactly once in it, on its refresh day. */
  lemma ExactlyOnceInMonth(cfg: Settings, u: User, events: seq<Event>, index: int, i: nat)
    requires Daily(events, index) && Valid(u.exp.date) && i < |events|
    requires u.tag in cfg.upgrades && u.lastMonth > 0 && u.lastMonth != index % 12 + 1
    requires forall k :: 0 <= k < |events| ==> !Before(u.exp, events[k].now)
    ensures RefreshesAt(cfg, u, events, i) <==> i + 1 == RefreshDay(index, u.exp.date)
  {
    DailyInOrder(events, index);
    ExactlyOneDay(events[i].now.date, u.exp.date);
    var day := RefreshDay(index, u.exp.date) - 1;
    ExactlyOneDay(events[day].now.date, u.exp.date);
    UnchangedUntil(cfg, u, events, index, day);
    if i <= day {
      UnchangedUntil(cfg, u, events, index, i);
    } else if RefreshesAt(cfg, u, events, i) {
      AtMostOncePerMonth(cfg, u, events, day, i);
    }
  }

  // ----- What is granted

  /** All columns but those for storage and month. */
  predicate SameSubscription(u: User, v: User) {
    u.paymentId == v.paymentId && u.tag == v.tag && u.exp == v.exp && u.bandwidth == v.bandwidth
  }

  /** What a check does, by date: nothing to users without an upgrade and to those settled in this month; the
      default storage and no upgrade any more to those whose upgrade has expired; the storage of the upgrade
      to the others on their refresh day; and nothing else. */
  lemma CheckIsExact(cfg: Settings, u: User, now: Instant)
    requires Valid(now.date) && Valid(u.exp.date)
    ensures var v, isRefreshDay := AfterCheck(cfg, u, now),
                                   now.date.day == RefreshDay(MonthIndex(now.date.year, now.date.month), u.exp.date);
            && SameSubscription(u, v)
            && (v.available, v.lastMonth) ==
                 if u.lastMonth <= 0 || u.lastMonth == now.date.month then (u.available, u.lastMonth)
                 else if Before(u.exp, now) then (cfg.defaultStorage, UNSUBSCRIBED_MONTH)
                 else if isRefreshDay && u.tag in cfg.upgrades then (cfg.upgrades[u.tag], now.date.month)
                 else (u.available, u.lastMonth)
  {
    ExactlyOneDay(now.date, u.exp.date);
    hide RefreshDay, IsRefreshDay, Before;
  }

  /** From a refresh on, while the upgrade lasts, the row has the storage of the upgrade. */
  lemma {:induction false} RefreshLasts(cfg: Settings, u: User, events: seq<Event>, i: nat, j: nat)
    requires i < j <= |events| && RefreshesAt(cfg, u, events, i)
    requires forall k :: i < k < j ==> events[k].Check? && !Before(UserAt(cfg, u, events, i).exp, events[k].now)
    ensures var before, now := UserAt(cfg, u, events, i), UserAt(cfg, u, events, j);
            SameSubscription(before, now) && before.tag in cfg.upgrades && now.available == cfg.upgrades[before.tag]
    decreases j
  {
    hide Before, IsRefreshDay;
    if j == i + 1 {
    } else {
      RefreshLasts(cfg, u, events, i, j - 1);
    }
  }

  /** From a purchase on, while the upgrade lasts, the row has the tag, the expiration and the bandwidth that
      go with it, and the storage that was bought or, once refreshed, that of the upgrade. */
  lemma {:induction false} PurchaseLasts(cfg: Settings, u: User, events: seq<Event>, i: nat, j: nat)
    requires i < j <= |events| && events[i].Purchase?
    requires forall k :: i < k < j ==> events[k].Check? && !Before(events[i].exp, events[k].now)
    ensures var e, now := events[i], UserAt(cfg, u, events, j);
            && now.paymentId == UserAt(cfg, u, events, i).paymentId && now.tag == e.tag && now.exp == e.exp
            && now.bandwidth == e.bytes * 3 * 7
            && (now.available == e.bytes || (e.tag in cfg.upgrades && now.available == cfg.upgrades[e.tag]))
            && (j == i + 1 ==> now.available == e.bytes && now.lastMonth == e.now.date.month)
    decreases j
  {
    hide Before, IsRefreshDay;
    if j == i + 1 {
    } else {
      PurchaseLasts(cfg, u, events, i, j - 1);
    }
  }

  /** A user whose upgrade has expired by a check in a later month has the default storage from then on,
      until the next purchase. */
  lemma ExpiredLoses(cfg: Settings, u: User, events: seq<Event>, i: nat, j: nat)
    requires i < j <= |events| && forall k :: i <= k < j ==> events[k].Check?
    requires var before := UserAt(cfg, u, events, i);
             before.lastMonth > 0 && before.lastMonth != events[i].now.date.month && Before(before.exp, events[i].now)
    ensures var before, now := UserAt(cfg, u, events, i), UserAt(cfg, u, events, j);
            SameSubscription(before, now) && now.available == cfg.defaultStorage && now.lastMonth == UNSUBSCRIBED_MONTH
  {
    LapsedStays(cfg, u, events, i, j);
  }

  /** Without an upgrade, checks never change a row. */
  lemma {:induction false} OthersStay(cfg: Settings, u: User, events: seq<Event>, j: nat)
    requires j <= |events| && u.lastMonth <= 0 && forall k :: 0 <= k < j ==> events[k].Check?
    ensures UserAt(cfg, u, events, j) == u
  {
    if j == 0 {
    } else {
      OthersStay(cfg, u, events, j - 1);
    }
  }

  /** With a check on every day of a month, an active upgrade that has not been granted in that month leaves
      the row as it is up to its refresh day, and from that day on gives it its storage. */
  lemma GrantedFromDayOn(cfg: Settings, u: User, events: seq<Event>, index: int, i: nat)
    requires Daily(events, index) && Valid(u.exp.date) && i < |events|
    requires u.tag in cfg.upgrades && u.lastMonth > 0 && u.lastMonth != index % 12 + 1
    requires forall k :: 0 <= k < |events| ==> !Before(u.exp, events[k].now)
    ensures if i + 1 < RefreshDay(index, u.exp.date) then UserAt(cfg, u, events, i + 1) == u
            else UserAt(cfg, u, events, i + 1).available == cfg.upgrades[u.tag] && SameSubscription(u, UserAt(cfg, u, events, i + 1))
  {
    var day := RefreshDay(index, u.exp.date) - 1;
    ExactlyOneDay(events[i].now.date, u.exp.date);
    if i < day {
      UnchangedUntil(cfg, u, events, index, i + 1);
    } else {
      ExactlyOnceInMonth(cfg, u, events, index, day);
      UnchangedUntil(cfg, u, events, index, day);
      RefreshLasts(cfg, u, events, day, i + 1);
    }
  }
}
