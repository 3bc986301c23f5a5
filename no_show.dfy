/** cogs/no_show.py: the no-show ledger that `/no-show-report` updates and
    the leaderboard that `/no-show-stats` shows. The ledger is the JSON object
    of Data/no_show_data.json, from member id to `{count, records}`; Python
    keeps the keys of such an object in insertion order, and the leaderboard's
    stable sort makes that order visible, so the store keeps it too. */
module NoShow {
  import opened Common

  /** One `{operation_name, date, zeus}` entry of a member's `records`. */
  datatype NoShowRecord = NoShowRecord(operationName: string, date: string, zeus: string)

  /** A member's `{count, records}`. */
  datatype Entry = Entry(count: int, records: seq<NoShowRecord>)

  type Item = (Id, Entry)

  /** The count from which the "Repeated No-Show Alert" is sent. */
  const ALERT_THRESHOLD: int := 3

  /** How many members the leaderboard lists. */
  const LEADERBOARD_SIZE: nat := 10

  /** The entry a member without a previous record starts from. */
  function NewEntry(): Entry { Entry(0, []) }

  /** The entry after one more no-show: the count goes up, the record goes last. */
  function WithNoShow(e: Entry, r: NoShowRecord): Entry
  {
    Entry(e.count + 1, e.records + [r])
  }

  /** An entry whose count agrees with its records. */
  predicate Consistent(e: Entry) { e.count == |e.records| }

  predicate Escalates(count: int) { count >= ALERT_THRESHOLD }

  /** What `/no-show-report` tells its caller once the ledger is saved. */
  datatype NoShowReply =
    | StaffChannelMissing(count: int)
    | Reported(count: int, escalated: bool)
    | ReportFailed          // "An error occurred while processing the no-show report."

  class NoShowStore {
    /** The ledger, keyed by member id. */
    var data: map<Id, Entry>
    /** The ledger's keys in insertion order. */
    var order: seq<Id>

    ghost predicate Valid()
      reads this
    {
      && (forall i, j :: 0 <= i < j < |order| ==> order[i] != order[j])
      && (forall k :: k in data <==> k in order)
    }

    /** The file as `ensure_json_file_exists` creates it: `{}`. */
    constructor ()
      ensures Valid() && data == map[] && order == []
    {
      data := map[];
      order := [];
    }

    /** `no_show_data.items()`, in insertion order. */
    function Items(): (items: seq<Item>)
      reads this
      requires Valid()
      ensures |items| == |order|
      ensures forall i :: 0 <= i < |items| ==> items[i] == (order[i], data[order[i]])
    {
      var keys, entries := order, data;
      seq(|keys|, i requires 0 <= i < |keys| => (keys[i], entries[keys[i]]))
    }

    /** `/no-show-stats` on this ledger: "No no-show records found." exactly
        when the ledger is empty; otherwise the ten (or fewer) members with the
        highest counts, ranked from 1, each shown with its stored entry. */
    function Stats(): (r: Leaderboard)
      reads this
      requires Valid()
      ensures r.NoRecords? <==> data == map[]
      ensures r.Board? ==> |r.rows| == Min(LEADERBOARD_SIZE, |order|)
      ensures r.Board? ==> forall i :: 0 <= i < |r.rows| ==>
                r.rows[i].member in data && r.rows[i].entry == data[r.rows[i].member]
      ensures r.Board? ==> SortedByCount(Shown(r.rows))
      ensures r.Board? ==> forall c :: WithCount(Shown(r.rows), c) <= WithCount(Items(), c)
      ensures r.Board? ==> forall i :: 0 <= i < |r.rows| ==> r.rows[i].rank == i + 1
      ensures r.Board? ==> multiset(Shown(r.rows)) <= multiset(Items())
      ensures r.Board? ==>
                forall x, i :: x in multiset(Items()) - multiset(Shown(r.rows)) && 0 <= i < |r.rows|
                  ==> x.1.count <= r.rows[i].entry.count
    {
      ItemsMirrorData();
      if Items() == [] then NoRecords
      else
        StandingsOfLedger();
        Standings(Items())
    }

    /** The leaderboard of a non-empty ledger, stated on the ledger itself. */
    lemma StandingsOfLedger()
      requires Valid() && Items() != []
      ensures var rows := Standings(Items()).rows;
        && (forall i :: 0 <= i < |rows| ==> rows[i].member in data && rows[i].entry == data[rows[i].member])
        && SortedByCount(Shown(rows))
        && (forall c :: WithCount(Shown(rows), c) <= WithCount(Items(), c))
        && multiset(Shown(rows)) <= multiset(Items())
        && (forall x, i :: x in multiset(Items()) - multiset(Shown(rows)) && 0 <= i < |rows|
              ==> x.1.count <= rows[i].entry.count)
    {
      ItemsMirrorData();
      StandingsAll(Items());
    }

    /** The items are empty exactly when the ledger is, and each one is a
        ledger member with its stored entry. */
    lemma ItemsMirrorData()
      requires Valid()
      ensures Items() == [] <==> data == map[]
      ensures forall p :: p in Items() ==> p.0 in data && p.1 == data[p.0]
    {
      if order != [] {
        assert order[0] in data;
      }
      if data != map[] {
        var k :| k in data;
        assert k in order;
      }
    }

    /** `/no-show-report`: acknowledge the interaction, create the member's
        entry on first use, count the no-show, append its record, save, then
        notify. `deferRaised` says the early acknowledgement raised: that
        happens before the load, so the ledger stays as it was. The save comes
        before any notification, so a missing staff channel or a failed post
        still leaves the report recorded. `dmRaised` says the DM to the member
        raised something other than Forbidden (which is logged and ignored);
        `postRaised` says a post to the staff channel raised. Each of these
        failures ends in the generic error reply. */
    method Report(member: Id, operationName: string, zeus: string, date: string,
                  deferRaised: bool, dmRaised: bool, staffChannelFound: bool, postRaised: bool)
      returns (reply: NoShowReply)
      requires Valid()
      modifies this
      ensures Valid()
      ensures deferRaised ==> data == old(data) && order == old(order) && reply == ReportFailed
      ensures !deferRaised ==> member in data
      ensures !deferRaised ==> data == old(data)[member := WithNoShow(
                if member in old(data) then old(data)[member] else NewEntry(),
                NoShowRecord(operationName, date, zeus))]
      ensures !deferRaised ==> order == if member in old(data) then old(order) else old(order) + [member]
      ensures !deferRaised ==> reply == if dmRaised then ReportFailed
                       else if !staffChannelFound then StaffChannelMissing(data[member].count)
                       else if postRaised then ReportFailed
                       else Reported(data[member].count, Escalates(data[member].count))
      ensures forall k :: k in old(data) && Consistent(old(data)[k]) ==> k in data && Consistent(data[k])
    {
      if deferRaised {
        return ReportFailed;
      }
      if member !in data {
        data := data[member := NewEntry()];
        order := order + [member];
      }
      var e := data[member];
      data := data[member := WithNoShow(e, NoShowRecord(operationName, date, zeus))];
      var count := data[member].count;
      if dmRaised {
        return ReportFailed;
      }
      if !staffChannelFound {
        return StaffChannelMissing(count);
      }
      if postRaised {
        return ReportFailed;
      }
      reply := Reported(count, Escalates(count));
    }
  }

  // ------------------------------------------------------ repeated reports

  /** The entry after reporting each of `rs` in turn. */
  function ReportAll(e: Entry, rs: seq<NoShowRecord>): Entry
    decreases |rs|
  {
    if rs == [] then e else ReportAll(WithNoShow(e, rs[0]), rs[1..])
  }

  lemma {:induction false} ReportAllAppends(e: Entry, rs: seq<NoShowRecord>)
    ensures ReportAll(e, rs) == Entry(e.count + |rs|, e.records + rs)
    decreases |rs|
  {
    if rs != [] {
      ReportAllAppends(WithNoShow(e, rs[0]), rs[1..]);
      assert (e.records + [rs[0]]) + rs[1..] == e.records + rs;
    }
  }

  /** Reports keep an entry's count equal to its number of records. */
  lemma ReportAllKeepsConsistent(e: Entry, rs: seq<NoShowRecord>)
    requires Consistent(e)
    ensures Consistent(ReportAll(e, rs))
  {
    ReportAllAppends(e, rs);
  }

  /** For a member with no previous record, the k-th report carries the
      escalation exactly when k >= 3: the alert repeats on every later report. */
  lemma EscalatesFromThirdReport(rs: seq<NoShowRecord>, k: nat)
    requires 1 <= k <= |rs|
    ensures ReportAll(NewEntry(), rs[..k]).count == k
    ensures Escalates(ReportAll(NewEntry(), rs[..k]).count) <==> k >= 3
  {
    ReportAllAppends(NewEntry(), rs[..k]);
  }

  // ------------------------------------------------------------ leaderboard

  /** One field of the leaderboard: rank (from 1), member and entry. */
  datatype Standing = Standing(rank: nat, member: Id, entry: Entry)

  datatype Leaderboard = NoRecords | Board(rows: seq<Standing>)

  predicate SortedByCount(s: seq<Item>)
  {
    forall i, j :: 0 <= i < j < |s| ==> s[i].1.count >= s[j].1.count
  }

  /** The items whose count is `c`, in their order in `s`. */
  function WithCount(s: seq<Item>, c: int): seq<Item>
  {
    if s == [] then [] else (if s[0].1.count == c then [s[0]] else []) + WithCount(s[1..], c)
  }

  /** Puts `x` before the first item whose count is at most its own. */
  function InsertByCount(x: Item, s: seq<Item>): (r: seq<Item>)
    ensures |r| == |s| + 1
  {
    if s == [] || x.1.count >= s[0].1.count then [x] + s
    else [s[0]] + InsertByCount(x, s[1..])
  }

  /** `sorted(items, key=count, reverse=True)`: highest count first; Python's
      sort is stable, so members with equal counts keep their order. */
  function SortByCount(items: seq<Item>): (r: seq<Item>)
    ensures |r| == |items|
  {
    if items == [] then [] else InsertByCount(items[0], SortByCount(items[1..]))
  }

  function Shown(rows: seq<Standing>): (s: seq<Item>)
    ensures |s| == |rows|
    ensures forall i :: 0 <= i < |rows| ==> s[i] == (rows[i].member, rows[i].entry)
  {
    seq(|rows|, i requires 0 <= i < |rows| => (rows[i].member, rows[i].entry))
  }

  function Ranked(s: seq<Item>): (rows: seq<Standing>)
    ensures |rows| == |s| && Shown(rows) == s
    ensures forall i :: 0 <= i < |rows| ==> rows[i].rank == i + 1
  {
    seq(|s|, i requires 0 <= i < |s| => Standing(i + 1, s[i].0, s[i].1))
  }

  /** `/no-show-stats`: "No no-show records found." for an empty ledger, else
      the first ten members by count, ranked from 1. */
  function Standings(items: seq<Item>): (r: Leaderboard)
    ensures r.NoRecords? <==> items == []
    ensures r.Board? ==> |r.rows| == Min(LEADERBOARD_SIZE, |items|)
                         && forall i :: 0 <= i < |r.rows| ==> r.rows[i].rank == i + 1
  {
    if items == [] then NoRecords
    else Board(Ranked(SortByCount(items)[..Min(LEADERBOARD_SIZE, |items|)]))
  }

  /** The rows are the ledger's members highest count first, drawn from the
      ledger, and no member left out has a higher count than a listed one. */
  lemma StandingsTop(items: seq<Item>)
    requires items != []
    ensures var shown := Shown(Standings(items).rows);
      && SortedByCount(shown)
      && multiset(shown) <= multiset(items)
      && (forall x, i :: x in multiset(items) - multiset(shown) && 0 <= i < |shown|
            ==> x.1.count <= shown[i].1.count)
  {
    var sorted := SortByCount(items);
    var n := Min(LEADERBOARD_SIZE, |items|);
    assert Shown(Standings(items).rows) == sorted[..n];
    assert SortedByCount(sorted) by { SortByCountSorted(items); }
    assert multiset(sorted) == multiset(items) by { SortByCountPermutes(items); }
    TopOfSorted(sorted, n);
  }

  /** Every row shows an item of the ledger as it is. */
  lemma StandingsFromItems(items: seq<Item>)
    requires items != []
    ensures forall i :: 0 <= i < |Standings(items).rows| ==>
              (Standings(items).rows[i].member, Standings(items).rows[i].entry) in items
  {
    var rows := Standings(items).rows;
    var shown := Shown(rows);
    assert multiset(shown) <= multiset(items) by { StandingsTop(items); }
    forall i | 0 <= i < |rows| ensures (rows[i].member, rows[i].entry) in items {
      assert shown[i] in multiset(shown);
    }
  }

  /** Members with equal counts are listed in ledger order: for every count,
      the listed members with that count are a prefix of the ledger's. */
  lemma StandingsStable(items: seq<Item>, c: int)
    requires items != []
    ensures WithCount(Shown(Standings(items).rows), c) <= WithCount(items, c)
  {
    var n := Min(LEADERBOARD_SIZE, |items|);
    assert Shown(Standings(items).rows) == SortByCount(items)[..n];
    TopKeepsOrder(items, n, c);
  }

  /** Everything the leaderboard promises about its rows, in one place. */
  lemma StandingsAll(items: seq<Item>)
    requires items != []
    ensures var rows := Standings(items).rows;
      && (forall i :: 0 <= i < |rows| ==> (rows[i].member, rows[i].entry) in items)
      && SortedByCount(Shown(rows))
      && (forall c :: WithCount(Shown(rows), c) <= WithCount(items, c))
      && multiset(Shown(rows)) <= multiset(items)
      && (forall x, i :: x in multiset(items) - multiset(Shown(rows)) && 0 <= i < |rows|
            ==> x.1.count <= rows[i].entry.count)
  {
    var rows := Standings(items).rows;
    StandingsFromItems(items);
    StandingsStableAll(items);
    StandingsTop(items);
    assert forall i :: 0 <= i < |rows| ==> Shown(rows)[i].1 == rows[i].entry;
  }

  lemma StandingsStableAll(items: seq<Item>)
    requires items != []
    ensures forall c :: WithCount(Shown(Standings(items).rows), c) <= WithCount(items, c)
  {
    forall c ensures WithCount(Shown(Standings(items).rows), c) <= WithCount(items, c) {
      StandingsStable(items, c);
    }
  }

  lemma TopKeepsOrder(items: seq<Item>, n: nat, c: int)
    requires n <= |items|
    ensures WithCount(SortByCount(items)[..n], c) <= WithCount(items, c)
  {
    var sorted := SortByCount(items);
    SortByCountStable(items, c);
    WithCountAppend(sorted[..n], sorted[n..], c);
    assert sorted[..n] + sorted[n..] == sorted;
  }

  lemma {:induction false} InsertByCountPermutes(x: Item, s: seq<Item>)
    ensures multiset(InsertByCount(x, s)) == multiset(s) + multiset{x}
    ensures |InsertByCount(x, s)| == |s| + 1
    decreases |s|
  {
    if s != [] && x.1.count < s[0].1.count {
      InsertByCountPermutes(x, s[1..]);
      assert s == [s[0]] + s[1..];
    }
  }

  lemma {:induction false} InsertByCountElements(x: Item, s: seq<Item>)
    ensures forall j :: 0 <= j < |InsertByCount(x, s)| ==>
              InsertByCount(x, s)[j] == x || InsertByCount(x, s)[j] in s
    decreases |s|
  {
    if s != [] && x.1.count < s[0].1.count {
      InsertByCountElements(x, s[1..]);
      var t := InsertByCount(x, s[1..]);
      assert InsertByCount(x, s) == [s[0]] + t;
      forall j | 0 <= j < |t| && t[j] in s[1..] ensures t[j] in s {
        var k :| 0 <= k < |s[1..]| && s[1..][k] == t[j];
        assert s[k + 1] == t[j];
      }
    }
  }

  lemma {:induction false} InsertByCountSorted(x: Item, s: seq<Item>)
    requires SortedByCount(s)
    ensures SortedByCount(InsertByCount(x, s))
    decreases |s|
  {
    if s != [] && x.1.count < s[0].1.count {
      var t := InsertByCount(x, s[1..]);
      assert SortedByCount(t) by { InsertByCountSorted(x, s[1..]); }
      assert forall j :: 0 <= j < |t| ==> s[0].1.count >= t[j].1.count by {
        InsertByCountElements(x, s[1..]);
        forall j | 0 <= j < |t| ensures s[0].1.count >= t[j].1.count {
          if t[j] != x {
            var k :| 0 <= k < |s[1..]| && s[1..][k] == t[j];
            assert s[k + 1] == t[j];
          }
        }
      }
      var r := [s[0]] + t;
      assert InsertByCount(x, s) == r;
      forall i, j | 0 <= i < j < |r| ensures r[i].1.count >= r[j].1.count {
        if i == 0 {
          assert r[j] == t[j - 1];
        } else {
          assert r[i] == t[i - 1] && r[j] == t[j - 1];
        }
      }
    }
  }

  lemma {:induction false} SortByCountSorted(items: seq<Item>)
    ensures SortedByCount(SortByCount(items))
    decreases |items|
  {
    if items != [] {
      SortByCountSorted(items[1..]);
      InsertByCountSorted(items[0], SortByCount(items[1..]));
    }
  }

  lemma {:induction false} SortByCountPermutes(items: seq<Item>)
    ensures multiset(SortByCount(items)) == multiset(items)
    decreases |items|
  {
    if items != [] {
      SortByCountPermutes(items[1..]);
      InsertByCountPermutes(items[0], SortByCount(items[1..]));
      assert items == [items[0]] + items[1..];
    }
  }

  lemma {:induction false} WithCountAppend(a: seq<Item>, b: seq<Item>, c: int)
    ensures WithCount(a + b, c) == WithCount(a, c) + WithCount(b, c)
    decreases |a|
  {
    if a == [] {
      assert a + b == b;
    } else {
      var head := if a[0].1.count == c then [a[0]] else [];
      assert WithCount(a + b, c) == head + WithCount(a[1..] + b, c) by {
        ConsAppend(a, b);
        WithCountCons(a[0], a[1..] + b, c);
      }
      assert WithCount(a, c) == head + WithCount(a[1..], c) by {
        assert a == [a[0]] + a[1..];
        WithCountCons(a[0], a[1..], c);
      }
      WithCountAppend(a[1..], b, c);
      AppendAssoc(head, WithCount(a[1..], c), WithCount(b, c));
    }
  }

  lemma WithCountCons(y: Item, s: seq<Item>, c: int)
    ensures WithCount([y] + s, c) == (if y.1.count == c then [y] else []) + WithCount(s, c)
  {
    assert ([y] + s)[0] == y && ([y] + s)[1..] == s;
  }

  lemma {:induction false} InsertByCountWithCount(x: Item, s: seq<Item>, c: int)
    ensures WithCount(InsertByCount(x, s), c)
            == (if x.1.count == c then [x] else []) + WithCount(s, c)
    decreases |s|
  {
    if s == [] || x.1.count >= s[0].1.count {
      WithCountCons(x, s, c);
    } else {
      var head := if s[0].1.count == c then [s[0]] else [];
      var mid := if x.1.count == c then [x] else [];
      WithCountCons(s[0], InsertByCount(x, s[1..]), c);
      InsertByCountWithCount(x, s[1..], c);
      WithCountCons(s[0], s[1..], c);
      assert s == [s[0]] + s[1..];
      assert head == [] || mid == [];
      assert head + (mid + WithCount(s[1..], c)) == mid + (head + WithCount(s[1..], c));
    }
  }

  /** Sorting keeps, for every count, the members with that count in their
      original order: the sort is stable. */
  lemma {:induction false} SortByCountStable(items: seq<Item>, c: int)
    ensures WithCount(SortByCount(items), c) == WithCount(items, c)
    decreases |items|
  {
    if items != [] {
      SortByCountStable(items[1..], c);
      InsertByCountWithCount(items[0], SortByCount(items[1..]), c);
    }
  }

  /** The first n of a sorted sequence: sorted, drawn from it, and no left-out
      item has a higher count than a kept one. */
  lemma TopOfSorted(s: seq<Item>, n: nat)
    requires SortedByCount(s) && n <= |s|
    ensures SortedByCount(s[..n])
    ensures multiset(s[..n]) <= multiset(s)
    ensures forall x, i :: x in multiset(s) - multiset(s[..n]) && 0 <= i < n ==> x.1.count <= s[i].1.count
  {
    assert s == s[..n] + s[n..];
    assert multiset(s) == multiset(s[..n]) + multiset(s[n..]);
    forall x, i | x in multiset(s) - multiset(s[..n]) && 0 <= i < n
      ensures x.1.count <= s[i].1.count
    {
      assert x in multiset(s[n..]);
      var j :| 0 <= j < |s[n..]| && s[n..][j] == x;
      assert s[n + j] == x;
    }
  }
}
