/** `/track-a-candidate`, which exists twice: in cogs/no_show.py and in
    cogs/commend_candidate_tracking.py. Both scan the newest messages of the
    commendations channel for ones that contain the operation keyword (case
    ignored) and mention the candidate, count them on top of the operation
    being tracked now, refuse when the newest match is too recent, and then
    either announce the promotion or say how many operations are left. The
    copies differ only in how many messages they scan and in the length of the
    too-recent window, so one parameterised scan serves both. */
module CandidateTracking {
  import opened Common
  import opened Text

  /** A message of the channel history: its content, the members it mentions
      and its `created_at`. */
  datatype Message = Message(content: string, mentions: seq<Id>, createdAt: Time)

  /** "Counts for the member": the lowercased content contains the lowercased
      keyword and the member is among the mentions. */
  predicate Matches(m: Message, keyword: string, member: Id)
  {
    Contains(Lower(m.content), Lower(keyword)) && member in m.mentions
  }

  /** How many of `msgs` match. */
  function MatchCount(msgs: seq<Message>, keyword: string, member: Id): nat
  {
    if msgs == [] then 0
    else MatchCount(msgs[..|msgs| - 1], keyword, member)
         + (if Matches(msgs[|msgs| - 1], keyword, member) then 1 else 0)
  }

  /** The newest `created_at` among the matches of `msgs`, as the loop keeps it. */
  function LatestMatch(msgs: seq<Message>, keyword: string, member: Id): Option<Time>
  {
    if msgs == [] then None
    else
      var prev := LatestMatch(msgs[..|msgs| - 1], keyword, member);
      var m := msgs[|msgs| - 1];
      if Matches(m, keyword, member) && (prev.None? || m.createdAt > prev.value)
      then Some(m.createdAt) else prev
  }

  /** The result of one `/track-a-candidate`. */
  datatype TrackOutcome =
    | ChannelMissing                         // "Commendations channel not found."
    | AlreadyTracked                         // error CCT-0004
    | Promoted(count: int)                   // promotion announcement
    | Progress(count: int, remaining: int)   // "They have N operations left."

  /** What one `/track-a-candidate` decides, given the channel history (newest
      first), the scan limit, the too-recent window and the current time. */
  function Tracked(history: seq<Message>, member: Id, keyword: string, total: int,
                   limit: nat, window: int, now: Time, channelFound: bool): TrackOutcome
  {
    var scanned := history[..Min(limit, |history|)];
    var count := 1 + MatchCount(scanned, keyword, member);
    var latest := LatestMatch(scanned, keyword, member);
    if !channelFound then ChannelMissing
    else if latest.Some? && now - latest.value < window then AlreadyTracked
    else if count >= total then Promoted(count)
    else Progress(count, total - count)
  }

  /** The scan loop: the count starts at 1 for the operation being tracked. */
  method Track(history: seq<Message>, member: Id, keyword: string, total: int,
               limit: nat, window: int, now: Time, channelFound: bool)
    returns (outcome: TrackOutcome)
    ensures outcome == Tracked(history, member, keyword, total, limit, window, now, channelFound)
  {
    if !channelFound {
      return ChannelMissing;
    }
    var n := Min(limit, |history|);
    var count := 1;
    var latest: Option<Time> := None;
    var i := 0;
    while i < n
      invariant 0 <= i <= n
      invariant count == 1 + MatchCount(history[..i], keyword, member)
      invariant latest == LatestMatch(history[..i], keyword, member)
    {
      var m := history[i];
      assert history[..i + 1][..i] == history[..i];
      if Matches(m, keyword, member) {
        count := count + 1;
        if latest.None? || m.createdAt > latest.value {
          latest := Some(m.createdAt);
        }
      }
      i := i + 1;
    }
    if latest.Some? && now - latest.value < window {
      return AlreadyTracked;
    }
    if count >= total {
      outcome := Promoted(count);
    } else {
      outcome := Progress(count, total - count);
    }
  }

  // ----------------------------------------------------- the two copies

  /** cogs/no_show.py scans 500 messages with a one-second window. */
  const NO_SHOW_SCAN_LIMIT: nat := 500
  const NO_SHOW_WINDOW: int := SECOND

  /** cogs/commend_candidate_tracking.py scans 1000 messages with a one-hour window. */
  const COMMEND_SCAN_LIMIT: nat := 1000
  const COMMEND_WINDOW: int := HOUR

  /** A match among the first `limit` messages that is less than `window` old. */
  predicate RecentMatch(history: seq<Message>, member: Id, keyword: string,
                        limit: nat, window: int, now: Time)
  {
    exists i :: 0 <= i < Min(limit, |history|) && Matches(history[i], keyword, member)
                && now - history[i].createdAt < window
  }

  method TrackInNoShowCog(history: seq<Message>, member: Id, now: Time, channelFound: bool)
    returns (outcome: TrackOutcome)
    ensures outcome == Tracked(history, member, OPERATION_KEYWORD, TOTAL_OPERATIONS,
                               NO_SHOW_SCAN_LIMIT, NO_SHOW_WINDOW, now, channelFound)
    ensures outcome.AlreadyTracked? <==>
              channelFound && RecentMatch(history, member, OPERATION_KEYWORD, NO_SHOW_SCAN_LIMIT, NO_SHOW_WINDOW, now)
  {
    outcome := Track(history, member, OPERATION_KEYWORD, TOTAL_OPERATIONS,
                     NO_SHOW_SCAN_LIMIT, NO_SHOW_WINDOW, now, channelFound);
    RejectedIffRecentMatch(history, member, OPERATION_KEYWORD, TOTAL_OPERATIONS,
                           NO_SHOW_SCAN_LIMIT, NO_SHOW_WINDOW, now, channelFound);
  }

  method TrackInCommendCog(history: seq<Message>, member: Id, now: Time, channelFound: bool)
    returns (outcome: TrackOutcome)
    ensures outcome == Tracked(history, member, OPERATION_KEYWORD, TOTAL_OPERATIONS,
                               COMMEND_SCAN_LIMIT, COMMEND_WINDOW, now, channelFound)
    ensures outcome.AlreadyTracked? <==>
              channelFound && RecentMatch(history, member, OPERATION_KEYWORD, COMMEND_SCAN_LIMIT, COMMEND_WINDOW, now)
  {
    outcome := Track(history, member, OPERATION_KEYWORD, TOTAL_OPERATIONS,
                     COMMEND_SCAN_LIMIT, COMMEND_WINDOW, now, channelFound);
    RejectedIffRecentMatch(history, member, OPERATION_KEYWORD, TOTAL_OPERATIONS,
                           COMMEND_SCAN_LIMIT, COMMEND_WINDOW, now, channelFound);
  }

  // --------------------------------------------------------------- lemmas

  /** The count is the number of positions holding a match. */
  lemma MatchCountIsCardinality(msgs: seq<Message>, keyword: string, member: Id)
    ensures MatchCount(msgs, keyword, member)
            == |set i: nat | i < |msgs| && Matches(msgs[i], keyword, member)|
  {
    var flags := MatchFlags(msgs, keyword, member);
    assert MatchCount(msgs, keyword, member) == Trues(flags) by {
      MatchCountIsTrues(msgs, keyword, member);
    }
    assert Trues(flags) == |set i: nat | i < |flags| && flags[i]| by {
      TruesIsCardinality(flags);
    }
    assert (set i: nat | i < |msgs| && Matches(msgs[i], keyword, member))
           == (set i: nat | i < |flags| && flags[i]);
  }

  /** Which messages match, position by position. */
  function MatchFlags(msgs: seq<Message>, keyword: string, member: Id): (flags: seq<bool>)
    ensures |flags| == |msgs|
    ensures forall i :: 0 <= i < |msgs| ==> flags[i] == Matches(msgs[i], keyword, member)
  {
    seq(|msgs|, i requires 0 <= i < |msgs| => Matches(msgs[i], keyword, member))
  }

  function Trues(flags: seq<bool>): nat
  {
    if flags == [] then 0 else Trues(flags[..|flags| - 1]) + (if flags[|flags| - 1] then 1 else 0)
  }

  lemma {:induction false} MatchCountIsTrues(msgs: seq<Message>, keyword: string, member: Id)
    ensures MatchCount(msgs, keyword, member) == Trues(MatchFlags(msgs, keyword, member))
    decreases |msgs|
  {
    if msgs != [] {
      var init := msgs[..|msgs| - 1];
      MatchCountIsTrues(init, keyword, member);
      assert MatchFlags(msgs, keyword, member)[..|msgs| - 1] == MatchFlags(init, keyword, member);
    }
  }

  lemma {:induction false} TruesIsCardinality(flags: seq<bool>)
    ensures Trues(flags) == |set i: nat | i < |flags| && flags[i]|
    decreases |flags|
  {
    if flags != [] {
      var init := flags[..|flags| - 1];
      TruesIsCardinality(init);
      var s := set i: nat | i < |flags| && flags[i];
      var s0 := set i: nat | i < |init| && init[i];
      var last: set<nat> := if flags[|flags| - 1] then {|init|} else {};
      assert s == s0 + last;
      assert s0 !! last;
    }
  }

  /** The newest matching time is the maximum `created_at` over the matches,
      and there is none exactly when nothing matches. */
  lemma {:induction false} LatestMatchIsMax(msgs: seq<Message>, keyword: string, member: Id)
    ensures LatestMatch(msgs, keyword, member).None?
            <==> forall i :: 0 <= i < |msgs| ==> !Matches(msgs[i], keyword, member)
    ensures LatestMatch(msgs, keyword, member).Some? ==>
              (exists i :: 0 <= i < |msgs| && Matches(msgs[i], keyword, member)
                           && msgs[i].createdAt == LatestMatch(msgs, keyword, member).value)
    ensures LatestMatch(msgs, keyword, member).Some? ==>
              forall i :: 0 <= i < |msgs| && Matches(msgs[i], keyword, member)
                          ==> msgs[i].createdAt <= LatestMatch(msgs, keyword, member).value
    decreases |msgs|
  {
    if msgs != [] {
      var init := msgs[..|msgs| - 1];
      LatestMatchIsMax(init, keyword, member);
      assert forall i :: 0 <= i < |init| ==> init[i] == msgs[i];
      var prev := LatestMatch(init, keyword, member);
      if prev.Some? {
        var j :| 0 <= j < |init| && Matches(init[j], keyword, member) && init[j].createdAt == prev.value;
        assert msgs[j] == init[j];
      }
    }
  }

  /** The call is refused exactly when some scanned match is younger than the window. */
  lemma RejectedIffRecentMatch(history: seq<Message>, member: Id, keyword: string, total: int,
                               limit: nat, window: int, now: Time, channelFound: bool)
    ensures Tracked(history, member, keyword, total, limit, window, now, channelFound).AlreadyTracked?
            <==> channelFound && RecentMatch(history, member, keyword, limit, window, now)
  {
    var scanned := history[..Min(limit, |history|)];
    LatestMatchIsMax(scanned, keyword, member);
    var latest := LatestMatch(scanned, keyword, member);
    if channelFound && RecentMatch(history, member, keyword, limit, window, now) {
      var i :| 0 <= i < Min(limit, |history|) && Matches(history[i], keyword, member)
               && now - history[i].createdAt < window;
      assert scanned[i] == history[i];
    }
    if latest.Some? && now - latest.value < window {
      var i :| 0 <= i < |scanned| && Matches(scanned[i], keyword, member)
               && scanned[i].createdAt == latest.value;
      assert history[i] == scanned[i];
    }
  }

  /** Unless refused, the promotion is announced exactly when the count
      (1 + the matches) reaches the threshold, and otherwise at least one
      operation is reported left. */
  lemma PromotedIffThreshold(history: seq<Message>, member: Id, keyword: string, total: int,
                             limit: nat, window: int, now: Time, channelFound: bool)
    requires channelFound && !RecentMatch(history, member, keyword, limit, window, now)
    ensures var o := Tracked(history, member, keyword, total, limit, window, now, channelFound);
            var count := 1 + MatchCount(history[..Min(limit, |history|)], keyword, member);
            && (o.Promoted? || o.Progress?)
            && (o.Promoted? <==> count >= total)
            && (o.Promoted? ==> o.count == count)
            && (o.Progress? ==> o.count == count && o.remaining == total - count && o.remaining >= 1)
  {
    RejectedIffRecentMatch(history, member, keyword, total, limit, window, now, channelFound);
  }

  /** With the configured threshold of 3: one earlier match leaves one
      operation to go, two or more earlier matches promote. */
  lemma ConfiguredThreshold(history: seq<Message>, member: Id, limit: nat, window: int, now: Time)
    requires !RecentMatch(history, member, OPERATION_KEYWORD, limit, window, now)
    ensures var matches := MatchCount(history[..Min(limit, |history|)], OPERATION_KEYWORD, member);
            var o := Tracked(history, member, OPERATION_KEYWORD, TOTAL_OPERATIONS, limit, window, now, true);
            && (matches == 0 ==> o == Progress(1, 2))
            && (matches == 1 ==> o == Progress(2, 1))
            && (matches >= 2 ==> o == Promoted(1 + matches))
  {
    PromotedIffThreshold(history, member, OPERATION_KEYWORD, TOTAL_OPERATIONS, limit, window, now, true);
  }

  // ------------------------------------------ the commend copy as written

  /** The loop of cogs/commend_candidate_tracking.py as written: it stores the
      first match's time with its timezone dropped and compares that naive
      value with the next match's timezone-aware `created_at`, which raises
      TypeError in Python. */
  datatype AsWrittenScan = Scanned(count: int, latest: Option<Time>) | ComparisonError

  function ScanAsWritten(msgs: seq<Message>, keyword: string, member: Id): AsWrittenScan
  {
    if msgs == [] then Scanned(1, None)
    else
      match ScanAsWritten(msgs[..|msgs| - 1], keyword, member)
      case ComparisonError => ComparisonError
      case Scanned(count, latest) =>
        var m := msgs[|msgs| - 1];
        if !Matches(m, keyword, member) then Scanned(count, latest)
        else if latest.None? then Scanned(count + 1, Some(m.createdAt))
        else ComparisonError
  }

  /** As written, the scan agrees with the intended one while at most one
      message matches, and fails from the second match on. */
  lemma {:induction false} ScanAsWrittenFailsOnSecondMatch(msgs: seq<Message>, keyword: string, member: Id)
    ensures ScanAsWritten(msgs, keyword, member)
            == if MatchCount(msgs, keyword, member) >= 2 then ComparisonError
               else Scanned(1 + MatchCount(msgs, keyword, member), LatestMatch(msgs, keyword, member))
    decreases |msgs|
  {
    if msgs != [] {
      var init := msgs[..|msgs| - 1];
      ScanAsWrittenFailsOnSecondMatch(init, keyword, member);
      LatestMatchIsMax(init, keyword, member);
      MatchCountZero(init, keyword, member);
    }
  }

  /** No match counted exactly when no message matches. */
  lemma {:induction false} MatchCountZero(msgs: seq<Message>, keyword: string, member: Id)
    ensures MatchCount(msgs, keyword, member) == 0
            <==> forall i :: 0 <= i < |msgs| ==> !Matches(msgs[i], keyword, member)
    decreases |msgs|
  {
    if msgs != [] {
      var init := msgs[..|msgs| - 1];
      MatchCountZero(init, keyword, member);
      assert forall i :: 0 <= i < |init| ==> init[i] == msgs[i];
    }
  }

  /** Two tracked operations already in the channel, both over an hour old:
      the intended scan promotes the candidate, the as-written one fails. */
  lemma TwoEarlierOperationsBreakTheCommendCopy(member: Id)
    ensures var msgs := [Message(OPERATION_KEYWORD, [member], HOUR), Message(OPERATION_KEYWORD, [member], 0)];
            && ScanAsWritten(msgs, OPERATION_KEYWORD, member) == ComparisonError
            && Tracked(msgs, member, OPERATION_KEYWORD, TOTAL_OPERATIONS, COMMEND_SCAN_LIMIT,
                       COMMEND_WINDOW, 3 * HOUR, true) == Promoted(3)
  {
    var kw := OPERATION_KEYWORD;
    var msgs := [Message(kw, [member], HOUR), Message(kw, [member], 0)];
    ContainsAt(Lower(kw), Lower(kw), 0);
    assert Matches(msgs[0], kw, member) && Matches(msgs[1], kw, member);
    var first := msgs[..|msgs| - 1];
    assert first == [msgs[0]];
    assert first[..|first| - 1] == [];
    assert MatchCount(first, kw, member) == 1;
    assert LatestMatch(first, kw, member) == Some(HOUR);
    assert msgs[..Min(COMMEND_SCAN_LIMIT, |msgs|)] == msgs;
    assert MatchCount(msgs, kw, member) == 2;
    assert LatestMatch(msgs, kw, member) == Some(HOUR);
    ScanAsWrittenFailsOnSecondMatch(msgs, kw, member);
  }
}
