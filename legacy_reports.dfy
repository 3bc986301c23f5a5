/** The older, in-memory incident-report index of botcommands.py: a global
    `report_counter`, and `incident_reports`, a dict from the reported
    user's id (the last word of the form's subject) to that user's
    `(report_id, jump_url)` pairs. */
module LegacyReports {
  import opened Common
  import opened Text

  /** One `(report_id, jump_url)` pair. */
  datatype ReportLink = ReportLink(reportId: string, url: string)

  /** `f"Incident Report {str(report_counter).zfill(4)}"`. */
  function ReportIdFor(counter: int): string
  {
    "Incident Report " + Pad4(counter)
  }

  /** Different counter values give different report ids. */
  lemma ReportIdsDistinct(a: int, b: int)
    requires a != b
    ensures ReportIdFor(a) != ReportIdFor(b)
  {
    if ReportIdFor(a) == ReportIdFor(b) {
      var prefix := "Incident Report ";
      assert Pad4(a) == ReportIdFor(a)[|prefix|..];
      assert Pad4(b) == ReportIdFor(b)[|prefix|..];
      Pad4RoundTrip(a);
      Pad4RoundTrip(b);
    }
  }

  /** `user_reports` with its first pair for `reportId` deleted. */
  function RemoveFirst(links: seq<ReportLink>, reportId: string): seq<ReportLink>
  {
    if links == [] then []
    else if links[0].reportId == reportId then links[1..]
    else [links[0]] + RemoveFirst(links[1..], reportId)
  }

  /** Every user's list with its first pair for `reportId` deleted. */
  function RemoveEverywhere(index: map<string, seq<ReportLink>>, reportId: string): map<string, seq<ReportLink>>
  {
    map k | k in index :: RemoveFirst(index[k], reportId)
  }

  /** How `/delete_report` judges its input before touching the index. */
  datatype DeleteStep =
    | TooFewWords        // `report_id.split()[2]` raises IndexError
    | NotAnInteger       // `int(...)` raises ValueError
    | Nonexistent        // the number is not below the counter
    | RemoveNumber(n: int)

  function DeleteDecision(input: string, counter: int): DeleteStep
  {
    var words := Split(input);
    if |words| < 3 then TooFewWords
    else match ParseInt(words[2])
         case None => NotAnInteger
         case Some(n) => if n >= counter then Nonexistent else RemoveNumber(n)
  }

  datatype FileReply = Filed(reportId: string) | InvalidDate | FileError

  datatype DeleteReply =
    | DeleteFailed           // "An error occurred while deleting the report."
    | InvalidFormat          // "Invalid report ID format."
    | DoesNotExist           // "Report ID ... does not exist."
    | Deleted(counter: string)  // "... The report counter has been adjusted to ..."

  class LegacyReportIndex {
    var reportCounter: int
    var reports: map<string, seq<ReportLink>>

    constructor (counter: int)
      ensures reportCounter == counter && reports == map[]
    {
      reportCounter := counter;
      reports := map[];
    }

    /** `IncidentReportModal.callback`. `dateValid` is strptime's verdict on
        the date field; `logUrl` is the posted log message's jump URL, or None
        when posting failed; `staffPostRaised` says the notice to the staff
        channel, sent after the index is updated, raised. The counter goes up
        before anything is checked, so a rejected date or a failed post still
        uses up the number; a failed notice leaves the report indexed but
        replies with the generic error. */
    method FileReport(subject: string, dateValid: bool, logUrl: Option<string>, staffPostRaised: bool)
      returns (reply: FileReply)
      modifies this
      ensures reportCounter == old(reportCounter) + 1
      ensures !dateValid ==> reply == InvalidDate && reports == old(reports)
      ensures dateValid && (logUrl.None? || Split(subject) == []) ==> reply == FileError && reports == old(reports)
      ensures dateValid && logUrl.Some? && Split(subject) != [] ==>
                var key := Split(subject)[|Split(subject)| - 1];
                var link := ReportLink(ReportIdFor(reportCounter), logUrl.value);
                && reply == (if staffPostRaised then FileError else Filed(ReportIdFor(reportCounter)))
                && reports == old(reports)[key := (if key in old(reports) then old(reports)[key] else []) + [link]]
    {
      reportCounter := reportCounter + 1;
      var reportId := ReportIdFor(reportCounter);
      if !dateValid {
        return InvalidDate;
      }
      if logUrl.None? {
        return FileError;
      }
      var words := Split(subject);
      if words == [] {
        return FileError;
      }
      var key := words[|words| - 1];
      if key !in reports {
        reports := reports[key := []];
      }
      reports := reports[key := reports[key] + [ReportLink(reportId, logUrl.value)]];
      reply := if staffPostRaised then FileError else Filed(reportId);
    }

    /** `/user_report_file`: the user's pairs in filing order, or None for
        "No reports found". */
    method UserReportFile(userId: string) returns (found: Option<seq<ReportLink>>)
      ensures found.Some? <==> userId in reports
      ensures found.Some? ==> found.value == reports[userId]
    {
      found := None;
      if userId in reports {
        found := Some(reports[userId]);
      }
    }

    /** `/delete_report`: judge the input, then walk every user's list
        deleting its first pair whose id is the whole input string, and lower
        the counter by one whether or not anything was deleted. */
    method DeleteReport(input: string) returns (reply: DeleteReply)
      modifies this
      ensures var d := DeleteDecision(input, old(reportCounter));
              && (d.TooFewWords? ==> reply == DeleteFailed)
              && (d.NotAnInteger? ==> reply == InvalidFormat)
              && (d.Nonexistent? ==> reply == DoesNotExist)
              && (!d.RemoveNumber? ==> reportCounter == old(reportCounter) && reports == old(reports))
              && (d.RemoveNumber? ==>
                    && reportCounter == old(reportCounter) - 1
                    && reports == RemoveEverywhere(old(reports), input)
                    && reply == Deleted(Pad4(reportCounter)))
    {
      ghost var d := DeleteDecision(input, reportCounter);
      var words := Split(input);
      if |words| < 3 {
        assert d == TooFewWords;
        return DeleteFailed;
      }
      var parsed := ParseInt(words[2]);
      if parsed.None? {
        assert d == NotAnInteger;
        return InvalidFormat;
      }
      if parsed.value >= reportCounter {
        assert d == Nonexistent;
        return DoesNotExist;
      }
      assert d == RemoveNumber(parsed.value);
      ghost var original := reports;
      var pending := reports.Keys;
      while pending != {}
        invariant pending <= original.Keys
        invariant reportCounter == old(reportCounter)
        invariant reports.Keys == original.Keys
        invariant forall k :: k in reports ==>
                    reports[k] == if k in pending then original[k] else RemoveFirst(original[k], input)
        decreases |pending|
      {
        var k :| k in pending;
        var links := reports[k];
        var i := FindLink(links, input);
        RemoveFirstAt(links, input, i);
        if i < |links| {
          links := links[..i] + links[i + 1..];
        }
        reports := reports[k := links];
        pending := pending - {k};
      }
      assert reports == RemoveEverywhere(original, input);
      reportCounter := reportCounter - 1;
      reply := Deleted(ZFill(IntToString(reportCounter), 4));
    }
  }

  /** `for i, (r_id, r_url) in enumerate(user_reports): if r_id == report_id`:
      the position of the first pair for the id, or the length if none. */
  method FindLink(links: seq<ReportLink>, reportId: string) returns (i: nat)
    ensures i <= |links|
    ensures forall j :: 0 <= j < i ==> links[j].reportId != reportId
    ensures i < |links| ==> links[i].reportId == reportId
  {
    i := 0;
    while i < |links| && links[i].reportId != reportId
      invariant 0 <= i <= |links|
      invariant forall j :: 0 <= j < i ==> links[j].reportId != reportId
    {
      i := i + 1;
    }
  }

  // ------------------------------------------------------------- lemmas

  /** Deleting the first pair for an id: `i` is the position of the first
      match (or the length when there is none); the pairs before and after it
      keep their order, and a list without a match is unchanged. */
  lemma {:induction false} RemoveFirstAt(links: seq<ReportLink>, reportId: string, i: nat)
    requires i <= |links|
    requires forall j :: 0 <= j < i ==> links[j].reportId != reportId
    requires i < |links| ==> links[i].reportId == reportId
    ensures RemoveFirst(links, reportId) == if i < |links| then links[..i] + links[i + 1..] else links
    decreases i
  {
    if i == 0 {
      if links != [] {
        assert links[..0] + links[1..] == links[1..];
      }
    } else {
      var rest := links[1..];
      assert RemoveFirst(links, reportId) == [links[0]] + RemoveFirst(rest, reportId);
      RemoveFirstAt(rest, reportId, i - 1);
      if i < |links| {
        assert [links[0]] + (rest[..i - 1] + rest[i..]) == links[..i] + links[i + 1..] by {
          ConsSplit(links, i);
        }
      } else {
        assert [links[0]] + rest == links;
      }
    }
  }

  lemma ConsSplit(links: seq<ReportLink>, i: nat)
    requires 0 < i < |links|
    ensures [links[0]] + (links[1..][..i - 1] + links[1..][i..]) == links[..i] + links[i + 1..]
  {
    assert links[1..][..i - 1] == links[1..i];
    assert links[1..][i..] == links[i + 1..];
    assert [links[0]] + links[1..i] == links[..i];
  }

  /** A list without the id is left as it is; a list holding it loses
      exactly one pair. */
  lemma {:induction false} RemoveFirstCount(links: seq<ReportLink>, reportId: string)
    ensures (forall j :: 0 <= j < |links| ==> links[j].reportId != reportId) ==> RemoveFirst(links, reportId) == links
    ensures (exists j :: 0 <= j < |links| && links[j].reportId == reportId) ==>
              |RemoveFirst(links, reportId)| == |links| - 1
    ensures multiset(RemoveFirst(links, reportId)) <= multiset(links)
    decreases |links|
  {
    if links != [] {
      RemoveFirstCount(links[1..], reportId);
      assert links == [links[0]] + links[1..];
      if links[0].reportId != reportId && exists j :: 0 <= j < |links| && links[j].reportId == reportId {
        var j :| 0 <= j < |links| && links[j].reportId == reportId;
        assert links[1..][j - 1].reportId == reportId;
      }
    }
  }

  /** The id a filing issues reads back as its own counter value, and a
      report can be asked for by its id exactly when its number is below
      the current counter: the newest report, whose number IS the counter,
      can never be deleted. */
  lemma IssuedIdDecision(c: int, counter: int)
    ensures DeleteDecision(ReportIdFor(c), counter) == if c >= counter then Nonexistent else RemoveNumber(c)
    ensures DeleteDecision(ReportIdFor(counter), counter) == Nonexistent
  {
    SplitIncidentReport(Pad4(c));
    Pad4RoundTrip(c);
    SplitIncidentReport(Pad4(counter));
    Pad4RoundTrip(counter);
  }

  /** A list keeps every pair whose id is not the one deleted. */
  lemma {:induction false} RemoveFirstKeepsOthers(links: seq<ReportLink>, reportId: string, l: ReportLink)
    requires l in links && l.reportId != reportId
    ensures l in RemoveFirst(links, reportId)
    decreases |links|
  {
    if links[0] != l {
      assert l in links[1..];
      if links[0].reportId != reportId {
        RemoveFirstKeepsOthers(links[1..], reportId, l);
      }
    }
  }

  /** An accepted deletion lowers the counter from `c` to `c - 1`, so the next
      filing raises it back to `c` and issues `ReportIdFor(c)` again (see
      `FileReport`). Whatever the input, the report already filed under that
      id survives the deletion, so the index then holds two reports with the
      same id. */
  lemma NewestIdSurvivesDeletion(index: map<string, seq<ReportLink>>, key: string, url: string,
                                 input: string, c: int)
    requires key in index && ReportLink(ReportIdFor(c), url) in index[key]
    requires DeleteDecision(input, c).RemoveNumber?
    ensures key in RemoveEverywhere(index, input)
    ensures ReportLink(ReportIdFor(c), url) in RemoveEverywhere(index, input)[key]
  {
    assert input != ReportIdFor(c) by { IssuedIdDecision(c, c); }
    RemoveFirstKeepsOthers(index[key], input, ReportLink(ReportIdFor(c), url));
  }

  /** Asking for "Incident Report 2" while the counter is 5 passes every
      check on the input, so the counter will be lowered (compare
      `UnpaddedInputDeletesNothing`). */
  lemma UnpaddedInputAccepted()
    ensures DeleteDecision("Incident Report 2", 5) == RemoveNumber(2)
  {
    var input := "Incident Report 2";
    assert input == "Incident Report " + "2";
    assert NoSpace("2");
    SplitIncidentReport("2");
    assert ParseInt("2") == Some(2) by {
      assert "2"[..0] == [];
      assert AllDigits("2");
      assert Value("2") == 2;
    }
  }

  /** Deleting with the input "Incident Report 2" removes nothing from a
      list holding report 2, whose stored id is "Incident Report 0002": the
      deletion compares the whole input string with the stored id, while the
      check before it only reads the number (see `UnpaddedInputAccepted`). */
  lemma UnpaddedInputDeletesNothing(url: string)
    ensures var index := map["1234" := [ReportLink(ReportIdFor(2), url)]];
            RemoveEverywhere(index, "Incident Report 2") == index
  {
    var link := ReportLink(ReportIdFor(2), url);
    assert |ReportIdFor(2)| != |"Incident Report 2"| by {
      assert NatToString(2) == [DigitChar(2)];
      assert |IntToString(2)| == 1;
    }
    assert RemoveFirst([link], "Incident Report 2") == [link];
    var index := map["1234" := [link]];
    assert RemoveEverywhere(index, "Incident Report 2").Keys == index.Keys;
  }
}
