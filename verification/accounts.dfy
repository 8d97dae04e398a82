/** The per-account reports and the class-level statistics of `SSUser`:
    traffic in bytes, the zero-quota guard of the usage percentage, the
    check-in test, and the cohort counters and top-ten ranking over all
    accounts (`cls.objects.all()` is passed in as a sequence). */
module Accounts {
  import opened Common
  import opened Records
  import opened Collections

  /** `get_unused_traffic` in bytes: the quota left, negative once the user
      is over quota. */
  function UnusedTraffic(u: SSUser): (left: int)
    ensures left + UsedTraffic(u) == u.transferEnable
    ensures left < 0 <==> UsedTraffic(u) > u.transferEnable
  {
    u.transferEnable - u.uploadTraffic - u.downloadTraffic
  }

  /** The value `get_used_percentage` formats: the literal text `100` when
      the quota is zero, otherwise the ratio `used * 100 / quota`. */
  datatype Percentage = Hundred | Ratio(used: int, quota: int)

  function UsedPercentage(u: SSUser): (p: Percentage)
    ensures p.Hundred? <==> u.transferEnable == 0
    ensures p.Ratio? ==> p.quota == u.transferEnable && p.quota != 0 && p.used == UsedTraffic(u)
  {
    if u.transferEnable == 0 then Hundred else Ratio(UsedTraffic(u), u.transferEnable)
  }

  /** `get_check_in`: compares only the day of the month of the last
      check-in with that of `now`. A NULL check-in time makes the source
      raise (`None.day`); that is `None` here. */
  function CheckIn(u: SSUser, now: DateTime): Option<bool> {
    match u.lastCheckInTime
    case None => None
    case Some(last) => Some(last.day == now.day)
  }

  /** Since months and years are ignored, a check-in on today's day of any
      earlier month or year reads as a check-in today, one on another day
      does not, and a NULL check-in time fails. */
  lemma CheckInComparesDayOnly(u: SSUser, now: DateTime, earlier: DateTime)
    requires earlier.day == now.day && earlier != now
    ensures CheckIn(u.(lastCheckInTime := Some(earlier)), now) == Some(true)
    ensures CheckIn(u.(lastCheckInTime := Some(DateTime(2019, 12, 15))), DateTime(2020, 1, 15)) == Some(true)
    ensures CheckIn(u.(lastCheckInTime := Some(DateTime(now.year, now.month, now.day + 1))), now) == Some(false)
    ensures CheckIn(u.(lastCheckInTime := None), now).None?
  {
  }

  /** Every account has a check-in time, so the per-account reads succeed. */
  predicate AllCheckInsSet(users: seq<SSUser>) {
    forall i :: 0 <= i < |users| ==> users[i].lastCheckInTime.Some?
  }

  function CheckedInOn(now: DateTime): SSUser -> bool {
    u => CheckIn(u, now) == Some(true)
  }

  /** `userTodyChecked`: accounts whose check-in test passes for `now`. One
      account with a NULL check-in time makes the whole count fail. */
  function CheckedInTodayCount(users: seq<SSUser>, now: DateTime): (r: Option<nat>)
    ensures r.None? <==> exists i :: 0 <= i < |users| && users[i].lastCheckInTime.None?
    ensures r.Some? ==> r.value <= |users|
    ensures r.Some? ==> (r.value == 0 <==> forall i :: 0 <= i < |users| ==> users[i].lastCheckInTime.value.day != now.day)
    ensures r.Some? ==> (r.value == |users| <==> forall i :: 0 <= i < |users| ==> users[i].lastCheckInTime.value.day == now.day)
  {
    if AllCheckInsSet(users) then Some(Count(users, CheckedInOn(now))) else None
  }

  /** The default check-in time is the epoch, so year 1970 means never. */
  predicate NeverCheckedIn(u: SSUser)
    requires u.lastCheckInTime.Some?
  {
    u.lastCheckInTime.value.year == 1970
  }

  function NeverCheckedInAt(u: SSUser): bool {
    u.lastCheckInTime.Some? && NeverCheckedIn(u)
  }

  /** `userNeverChecked`. Like `userTodyChecked`, it fails as a whole when
      some account has a NULL check-in time (`None.year`). */
  function NeverCheckedInCount(users: seq<SSUser>): (r: Option<nat>)
    ensures r.None? <==> exists i :: 0 <= i < |users| && users[i].lastCheckInTime.None?
    ensures r.Some? ==> r.value <= |users|
    ensures r.Some? ==> (r.value == 0 <==> forall i :: 0 <= i < |users| ==> users[i].lastCheckInTime.value.year != 1970)
    ensures r.Some? ==> (r.value == |users| <==> forall i :: 0 <= i < |users| ==> users[i].lastCheckInTime.value.year == 1970)
  {
    if AllCheckInsSet(users) then Some(Count(users, NeverCheckedInAt)) else None
  }

  /** A last-use time of 0 means the proxy has never seen the account. */
  predicate NeverUsed(u: SSUser) {
    u.lastUseTime == 0
  }

  predicate Used(u: SSUser) {
    u.lastUseTime != 0
  }

  /** `userNeverUsed`. */
  function NeverUsedCount(users: seq<SSUser>): (n: nat)
    ensures n <= |users|
    ensures n == 0 <==> forall i :: 0 <= i < |users| ==> users[i].lastUseTime != 0
    ensures n == |users| <==> forall i :: 0 <= i < |users| ==> users[i].lastUseTime == 0
  {
    Count(users, NeverUsed)
  }

  /** Every account is either never used or used, so the never-used count
      and the count of used accounts add up to the number of accounts. */
  lemma NeverUsedPartition(users: seq<SSUser>)
    ensures NeverUsedCount(users) + Count(users, Used) == |users|
  {
    CountComplement(users, NeverUsed, Used);
  }

  /** `coreUser` ranks the accounts that have downloaded anything. */
  predicate HasDownloaded(u: SSUser) {
    u.downloadTraffic > 0
  }

  /** Sorting ascending by negated traffic is `sorted(..., reverse=True)`:
      both are stable, descending by traffic. */
  function NegatedTraffic(u: SSUser): int {
    -UsedTraffic(u)
  }

  /** How many accounts `coreUser` reports at most. */
  const TopCount: nat := 10

  /** The accounts `coreUser` considers, ranked by descending traffic. */
  function Ranked(users: seq<SSUser>): (ranked: seq<SSUser>)
    ensures |ranked| == Count(users, HasDownloaded)
    ensures SortedBy(ranked, NegatedTraffic)
    ensures multiset(ranked) == multiset(Filter(users, HasDownloaded))
    ensures forall i :: 0 <= i < |ranked| ==> ranked[i] in users && HasDownloaded(ranked[i])
  {
    var candidates := Filter(users, HasDownloaded);
    var ranked := SortBy(candidates, NegatedTraffic);
    CountIsFilterLength(users, HasDownloaded);
    FilterMembers(users, HasDownloaded);
    assert forall i :: 0 <= i < |ranked| ==> ranked[i] in multiset(candidates);
    ranked
  }

  /** Pairs each account with its traffic in bytes (`get_traffic`). */
  function WithTraffic(us: seq<SSUser>): (r: seq<(SSUser, int)>)
    ensures |r| == |us|
    ensures forall i :: 0 <= i < |r| ==> r[i] == (us[i], UsedTraffic(us[i]))
  {
    seq(|us|, i requires 0 <= i < |us| => (us[i], UsedTraffic(us[i])))
  }

  /** `coreUser`: the ten accounts with the most traffic among those that
      have downloaded anything, each paired with its traffic in bytes, in
      descending order of traffic. */
  function CoreUsers(users: seq<SSUser>): (top: seq<(SSUser, int)>)
    ensures |top| == if Count(users, HasDownloaded) < TopCount then Count(users, HasDownloaded) else TopCount
    ensures forall i :: 0 <= i < |top| ==>
      top[i].0 in users && top[i].0.downloadTraffic > 0 && top[i].1 == top[i].0.uploadTraffic + top[i].0.downloadTraffic
    ensures forall i, j :: 0 <= i < j < |top| ==> top[i].1 >= top[j].1
  {
    var ranked := Ranked(users);
    var chosen := Take(ranked, TopCount);
    assert forall i :: 0 <= i < |chosen| ==> chosen[i] == ranked[i];
    WithTraffic(chosen)
  }

  /** The report is the top of the ranking: it is a prefix of the ranked
      candidates, and no candidate left out has more traffic than any
      account reported. */
  lemma CoreUsersAreTop(users: seq<SSUser>)
    ensures var ranked, top := Ranked(users), CoreUsers(users);
      && (forall i :: 0 <= i < |top| ==> top[i].0 == ranked[i])
      && (forall i, j :: 0 <= i < |top| <= j < |ranked| ==> UsedTraffic(ranked[j]) <= top[i].1)
  {
    var ranked, top := Ranked(users), CoreUsers(users);
    forall i, j | 0 <= i < |top| <= j < |ranked|
      ensures UsedTraffic(ranked[j]) <= top[i].1
    {
      assert top[i].0 == ranked[i];
      assert NegatedTraffic(ranked[i]) <= NegatedTraffic(ranked[j]);
    }
  }

  /** Among candidates with equal traffic, the ranking keeps the order in
      which the query returned them. */
  lemma CoreUsersKeepQueryOrder(users: seq<SSUser>, traffic: int)
    ensures Filter(Ranked(users), KeyIs(NegatedTraffic, -traffic))
         == Filter(Filter(users, HasDownloaded), KeyIs(NegatedTraffic, -traffic))
  {
    var candidates := Filter(users, HasDownloaded);
    assert Ranked(users) == SortBy(candidates, NegatedTraffic);
    RankingStable(candidates, traffic);
  }

  /** `SortByStable` for the traffic key, stated apart so that the proof
      above does not see the ranking's own postconditions. */
  lemma RankingStable(candidates: seq<SSUser>, traffic: int)
    ensures Filter(SortBy(candidates, NegatedTraffic), KeyIs(NegatedTraffic, -traffic))
         == Filter(candidates, KeyIs(NegatedTraffic, -traffic))
  {
    SortByStable(candidates, NegatedTraffic, -traffic);
  }
}
