/** The performance-bonus ledger of cogs/commend_candidate_tracking.py
    (Data/performance_bonus.json): `/commend` awards the INVOKER a random
    bonus at most three times in any rolling 24 hours, and
    `/performance-bonus` reads the invoker's running total. */
module PerformanceBonus {
  import opened Common

  /** One invoker's ledger entry; `totalBonus` is in cents. */
  datatype BonusEntry = BonusEntry(count: int, totalBonus: int, timestamps: seq<Time>)

  /** At most this many awards in the window. */
  const MAX_RECENT: nat := 3
  /** The window: 86400 seconds. */
  const WINDOW: int := DAY
  /** `round(randint(1000, 10000) + uniform(0, 1), 2)` lies in 1000.00 .. 10001.00. */
  const MIN_BONUS: int := 100000
  const MAX_BONUS: int := 1000100

  predicate ValidBonus(bonus: int)
  {
    MIN_BONUS <= bonus <= MAX_BONUS
  }

  /** The entry a first-time invoker starts from. */
  function FreshEntry(): BonusEntry
  {
    BonusEntry(0, 0, [])
  }

  function EntryOf(data: map<Id, BonusEntry>, user: Id): BonusEntry
  {
    if user in data then data[user] else FreshEntry()
  }

  predicate IsRecent(t: Time, now: Time)
  {
    now - t < WINDOW
  }

  /** `[ts for ts in timestamps if current_time - ts < 86400]`. */
  function Recent(ts: seq<Time>, now: Time): seq<Time>
  {
    if ts == [] then []
    else (if IsRecent(ts[0], now) then [ts[0]] else []) + Recent(ts[1..], now)
  }

  /** The bonus a commend made at `now` pays. */
  function AwardedBonus(e: BonusEntry, now: Time, bonus: int): int
  {
    if |Recent(e.timestamps, now)| >= MAX_RECENT then 0 else bonus
  }

  /** The entry after a commend made at `now`. Rate-limited: only `count` is
      refreshed and the stored timestamps are not pruned. Awarded: the recent
      timestamps plus `now` replace the list and the bonus is added. */
  function Commended(e: BonusEntry, now: Time, bonus: int): BonusEntry
  {
    var recent := Recent(e.timestamps, now);
    if |recent| >= MAX_RECENT then e.(count := |recent|)
    else BonusEntry(|recent| + 1, e.totalBonus + bonus, recent + [now])
  }

  /** `performance_bonus.get(userId, {"totalBonus": 0})["totalBonus"]`. */
  function TotalBonus(data: map<Id, BonusEntry>, user: Id): int
  {
    EntryOf(data, user).totalBonus
  }

  datatype CommendReply =
    | CommendFailed           // the commendations channel could not be fetched
    | Thanked(bonus: int)     // ledger saved and the commendation posted
    | AnnounceFailed          // ledger saved, posting the commendation failed

  class PerformanceLedger {
    var data: map<Id, BonusEntry>

    constructor (initial: map<Id, BonusEntry>)
      ensures data == initial
    {
      data := initial;
    }

    /** `/commend` by `invoker` for `person` at `now`. `bonus` is the
        generator's draw; `channelFetched` and `announced` are the outcomes
        of fetching and posting to the commendations channel. The ledger is
        saved before the post, so only a failed fetch leaves it untouched. */
    method Commend(invoker: Id, person: Id, now: Time, bonus: int, channelFetched: bool, announced: bool)
      returns (reply: CommendReply)
      requires ValidBonus(bonus)
      modifies this
      ensures !channelFetched ==> reply == CommendFailed && data == old(data)
      ensures channelFetched ==>
                data == old(data)[invoker := Commended(EntryOf(old(data), invoker), now, bonus)]
      ensures channelFetched && announced ==> reply == Thanked(AwardedBonus(EntryOf(old(data), invoker), now, bonus))
      ensures channelFetched && !announced ==> reply == AnnounceFailed
    {
      if !channelFetched {
        return CommendFailed;
      }
      var entry := if invoker in data then data[invoker] else BonusEntry(0, 0, []);
      var valid := Recent(entry.timestamps, now);
      var performanceBonus: int;
      if |valid| >= MAX_RECENT {
        performanceBonus := 0;
        entry := entry.(count := |valid|);
      } else {
        performanceBonus := bonus;
        valid := valid + [now];
        entry := entry.(count := |valid|);
        entry := entry.(totalBonus := entry.totalBonus + performanceBonus);
        entry := entry.(timestamps := valid);
      }
      data := data[invoker := entry];
      reply := if announced then Thanked(performanceBonus) else AnnounceFailed;
    }

    /** `/performance-bonus`: the user's total, 0 without an entry. */
    method Total(user: Id) returns (total: int)
      ensures user !in data ==> total == 0
      ensures user in data ==> total == data[user].totalBonus
    {
      total := 0;
      if user in data {
        total := data[user].totalBonus;
      }
    }
  }

  // ----------------------------------------------------------- the window

  /** The recent list holds exactly the recent timestamps. */
  lemma {:induction false} RecentMembers(ts: seq<Time>, now: Time)
    ensures forall t :: t in Recent(ts, now) <==> t in ts && IsRecent(t, now)
    ensures |Recent(ts, now)| <= |ts|
    decreases |ts|
  {
    if ts != [] {
      RecentMembers(ts[1..], now);
      assert ts == [ts[0]] + ts[1..];
    }
  }

  lemma {:induction false} RecentAppend(a: seq<Time>, b: seq<Time>, now: Time)
    ensures Recent(a + b, now) == Recent(a, now) + Recent(b, now)
    decreases |a|
  {
    if a != [] {
      var head := if IsRecent(a[0], now) then [a[0]] else [];
      assert (a + b)[0] == a[0];
      assert (a + b)[1..] == a[1..] + b;
      calc {
        Recent(a + b, now);
        head + Recent(a[1..] + b, now);
        { RecentAppend(a[1..], b, now); }
        head + (Recent(a[1..], now) + Recent(b, now));
        (head + Recent(a[1..], now)) + Recent(b, now);
        Recent(a, now) + Recent(b, now);
      }
    } else {
      assert a + b == b;
    }
  }

  /** A list whose every timestamp is recent is its own recent list. */
  lemma {:induction false} RecentOfAllRecent(ts: seq<Time>, now: Time)
    requires forall i :: 0 <= i < |ts| ==> IsRecent(ts[i], now)
    ensures Recent(ts, now) == ts
    decreases |ts|
  {
    if ts != [] {
      RecentOfAllRecent(ts[1..], now);
    }
  }

  // ------------------------------------------------------ one commend

  /** Rate-limited: no bonus, `count` becomes the number of recent
      timestamps, and the total and the stored list stay as they were.
      Awarded: the total grows by the bonus, and the new list is the recent
      one followed by `now`, at most three long, `count` its length. */
  lemma CommendSpec(e: BonusEntry, now: Time, bonus: int)
    requires ValidBonus(bonus)
    ensures var recent := Recent(e.timestamps, now);
            var after := Commended(e, now, bonus);
            if |recent| >= MAX_RECENT then
              && AwardedBonus(e, now, bonus) == 0
              && after.count == |recent|
              && after.totalBonus == e.totalBonus
              && after.timestamps == e.timestamps
            else
              && AwardedBonus(e, now, bonus) == bonus > 0
              && after.totalBonus == e.totalBonus + bonus
              && after.timestamps == recent + [now]
              && after.count == |after.timestamps| <= MAX_RECENT
              && Recent(after.timestamps, now) == after.timestamps
  {
    var recent := Recent(e.timestamps, now);
    if |recent| < MAX_RECENT {
      RecentMembers(e.timestamps, now);
      assert forall i :: 0 <= i < |recent| ==> recent[i] in recent;
      RecentOfAllRecent(recent + [now], now);
    }
  }

  /** The total never decreases: it grows by exactly the bonus paid. */
  lemma TotalNeverDecreases(e: BonusEntry, now: Time, bonus: int)
    requires ValidBonus(bonus)
    ensures Commended(e, now, bonus).totalBonus == e.totalBonus + AwardedBonus(e, now, bonus)
    ensures Commended(e, now, bonus).totalBonus >= e.totalBonus
  {
  }

  /** A commend changes only the invoker's entry, creates it when missing,
      and raises the invoker's looked-up total by the bonus paid. */
  lemma CommendTouchesOnlyInvoker(data: map<Id, BonusEntry>, invoker: Id, now: Time, bonus: int)
    requires ValidBonus(bonus)
    ensures var after := data[invoker := Commended(EntryOf(data, invoker), now, bonus)];
            && invoker in after
            && TotalBonus(after, invoker) == TotalBonus(data, invoker) + AwardedBonus(EntryOf(data, invoker), now, bonus)
            && (forall u :: u != invoker ==> (u in after <==> u in data) && TotalBonus(after, u) == TotalBonus(data, u))
            && (invoker !in data ==> after[invoker].totalBonus == AwardedBonus(FreshEntry(), now, bonus) == bonus)
  {
  }

  // ------------------------------------------------------ runs of commends

  datatype Call = Call(now: Time, bonus: int)

  /** The invoker's entry after a run of commends, in order. */
  function Run(e: BonusEntry, calls: seq<Call>): BonusEntry
    decreases |calls|
  {
    if calls == [] then e
    else
      var c := calls[|calls| - 1];
      Commended(Run(e, calls[..|calls| - 1]), c.now, c.bonus)
  }

  /** The times of the calls in the run that paid a bonus. */
  function AwardTimes(e: BonusEntry, calls: seq<Call>): seq<Time>
    decreases |calls|
  {
    if calls == [] then []
    else
      var c := calls[|calls| - 1];
      var before := Run(e, calls[..|calls| - 1]);
      AwardTimes(e, calls[..|calls| - 1])
        + (if AwardedBonus(before, c.now, c.bonus) != 0 then [c.now] else [])
  }

  predicate InWindow(calls: seq<Call>, start: Time)
  {
    forall i :: 0 <= i < |calls| ==> start <= calls[i].now < start + WINDOW
  }

  predicate ValidBonuses(calls: seq<Call>)
  {
    forall i :: 0 <= i < |calls| ==> ValidBonus(calls[i].bonus)
  }

  /** The stored list of `e` ends with the award times `a`, all inside the window. */
  predicate AwardsAtEnd(e: BonusEntry, a: seq<Time>, start: Time)
  {
    && |a| <= MAX_RECENT
    && |a| <= |e.timestamps|
    && e.timestamps[|e.timestamps| - |a|..] == a
    && (forall i :: 0 <= i < |a| ==> start <= a[i] < start + WINDOW)
  }

  /** The award times at the end of the list are all still recent within
      the window, so the recent list is at least as long. */
  lemma RecentKeepsAwards(e: BonusEntry, a: seq<Time>, start: Time, now: Time)
    requires AwardsAtEnd(e, a, start)
    requires start <= now < start + WINDOW
    ensures var ts := e.timestamps;
            Recent(ts, now) == Recent(ts[..|ts| - |a|], now) + a
  {
    var ts := e.timestamps;
    var p := ts[..|ts| - |a|];
    assert ts == p + a;
    RecentAppend(p, a, now);
    RecentOfAllRecent(a, now);
  }

  /** One more commend inside the window keeps the award times at the end. */
  lemma AwardStep(before: BonusEntry, a: seq<Time>, start: Time, c: Call)
    requires AwardsAtEnd(before, a, start)
    requires start <= c.now < start + WINDOW && ValidBonus(c.bonus)
    ensures AwardsAtEnd(Commended(before, c.now, c.bonus),
                        a + (if AwardedBonus(before, c.now, c.bonus) != 0 then [c.now] else []), start)
  {
    RecentKeepsAwards(before, a, start, c.now);
    var ts := before.timestamps;
    var recent := Recent(ts, c.now);
    var q := Recent(ts[..|ts| - |a|], c.now);
    if |recent| < MAX_RECENT {
      var ts2 := recent + [c.now];
      assert ts2 == q + (a + [c.now]);
      assert ts2[|ts2| - |a + [c.now]|..] == a + [c.now];
    }
  }

  /** However many commends one invoker makes within any 24 hours, and in
      whatever order their times come, at most three pay a bonus; the times
      of those awards stay at the end of the stored list. */
  lemma {:induction false} AtMostThreeAwardsPerDay(e: BonusEntry, calls: seq<Call>, start: Time)
    requires InWindow(calls, start) && ValidBonuses(calls)
    ensures |AwardTimes(e, calls)| <= MAX_RECENT
    ensures calls != [] ==> AwardsAtEnd(Run(e, calls), AwardTimes(e, calls), start)
    decreases |calls|
  {
    if calls != [] {
      var init := calls[..|calls| - 1];
      var c := calls[|calls| - 1];
      assert InWindow(init, start) && ValidBonuses(init) by {
        forall i | 0 <= i < |init| ensures init[i] == calls[i] { }
      }
      AtMostThreeAwardsPerDay(e, init, start);
      if init == [] {
        assert AwardTimes(e, init) == [];
        assert AwardsAtEnd(Run(e, init), [], start);
      }
      AwardStep(Run(e, init), AwardTimes(e, init), start, c);
    }
  }

  /** Three awards within the window shut out any further commend in it. */
  lemma FourthAwardInADayRefused(e: BonusEntry, calls: seq<Call>, start: Time, next: Call)
    requires InWindow(calls, start) && ValidBonuses(calls)
    requires |AwardTimes(e, calls)| == MAX_RECENT
    requires start <= next.now < start + WINDOW && ValidBonus(next.bonus)
    ensures AwardedBonus(Run(e, calls), next.now, next.bonus) == 0
    ensures Commended(Run(e, calls), next.now, next.bonus).timestamps == Run(e, calls).timestamps
  {
    AtMostThreeAwardsPerDay(e, calls, start);
    RecentKeepsAwards(Run(e, calls), AwardTimes(e, calls), start, next.now);
  }
}
