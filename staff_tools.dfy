/** cogs/staff_tools.py: incident reports kept in Data/incident_reports.json
    as a list of `{report_id, date, message_id}`, the form that files them
    (`IncidentReportModal`), the per-user drafts that keep a failed form's
    fields for 15 minutes (`user_persistent_modal_values`), and
    `/delete-report`. */
module StaffTools {
  import opened Common
  import opened Text

  /** One stored report: its number, the incident date as `%Y-%m-%d`, and the
      id of its message in the report-log channel. */
  datatype IncidentReport = IncidentReport(reportId: int, date: string, messageId: Id)

  /** What Data/incident_reports.json holds when a command reads it. A
      document that is not a list may still be an empty container (`{}` or
      `""`), over which a loop runs zero times. */
  datatype ReportsFile =
    | ReportList(items: seq<IncidentReport>)
    | NoFile
    | InvalidJson
    | NotAList(emptyContainer: bool)

  /** The form's five fields. */
  datatype Form = Form(subject: string, dateText: string, details: string, evidence: string, outcome: string)

  /** A kept form and the time it was kept. */
  datatype Draft = Draft(timestamp: Time, form: Form)

  /** How long a draft pre-fills the form. */
  const DRAFT_LIFETIME: int := 15 * MINUTE

  // ------------------------------------------------------------ report ids

  /** The `Incident Report 0042` title of a report's log message. */
  function ReportTitle(reportId: int): string
  {
    "Incident Report " + Pad4(reportId)
  }

  /** `int("".join(filter(str.isdigit, s)).lstrip("0"))`; None is the ValueError. */
  function ParseReportNumber(s: string): Option<int>
  {
    var stripped := StripLeadingZeros(DigitsOnly(s));
    if stripped == [] then None else Some(Value(stripped))
  }

  /** The digits of the input, read as one number, give the report number;
      there is none when that number is 0 (no digits, or only zeros). */
  lemma ParseReportNumberSpec(s: string)
    ensures var v := Value(DigitsOnly(s));
            ParseReportNumber(s) == if v == 0 then None else Some(v)
    ensures ParseReportNumber(s).Some? ==> ParseReportNumber(s).value >= 1
  {
    var ds := DigitsOnly(s);
    var stripped := StripLeadingZeros(ds);
    var k := |ds| - |stripped|;
    ValueAfterZeros(k, stripped);
    ValueOfDigits(ds);
    assert AllDigits(stripped) by {
      forall i | 0 <= i < |stripped| ensures IsDigit(stripped[i]) {
        assert stripped[i] == ds[k + i];
      }
    }
    ValueOfDigits(stripped);
    if stripped != [] {
      assert !AllZeros(stripped) by { assert stripped[0] != '0'; }
    }
  }

  /** Typing a report's title back into `/delete-report` names that report. */
  lemma ParseReportTitle(n: int)
    requires n >= 1
    ensures ParseReportNumber(ReportTitle(n)) == Some(n)
  {
    assert AllDigits(Pad4(n)) && StripLeadingZeros(Pad4(n)) == NatToString(n) by { Pad4OfNat(n); }
    assert DigitsOnly(ReportTitle(n)) == Pad4(n) by {
      IncidentReportNoDigits();
      DigitsAfterText("Incident Report ", Pad4(n));
    }
    ValueOfNatToString(n);
  }

  /** `incident_reports[-1]["report_id"] + 1 if len(incident_reports) > 0 else 1`. */
  function NextId(items: seq<IncidentReport>): int
  {
    if |items| > 0 then items[|items| - 1].reportId + 1 else 1
  }

  predicate IdsIncreasing(items: seq<IncidentReport>)
  {
    forall i, j :: 0 <= i < j < |items| ==> items[i].reportId < items[j].reportId
  }

  /** The position of the first report with number `n`. */
  function FirstIndexOf(items: seq<IncidentReport>, n: int): (r: Option<nat>)
    ensures r.Some? ==> r.value < |items|
  {
    if items == [] then None
    else if items[0].reportId == n then Some(0)
    else match FirstIndexOf(items[1..], n)
         case None => None
         case Some(i) => Some(i + 1)
  }

  function RemoveAt(items: seq<IncidentReport>, i: nat): seq<IncidentReport>
    requires i < |items|
  {
    items[..i] + items[i + 1..]
  }

  /** The list that on_submit works on: a missing file, invalid JSON or a
      document that is not a list all count as the empty list. */
  function LoadOrEmpty(f: ReportsFile): seq<IncidentReport>
  {
    if f.ReportList? then f.items else []
  }

  // ---------------------------------------------------------------- drafts

  /** The form drops a draft older than 15 minutes; a zero timestamp is
      falsy in Python and never expires. */
  predicate Expired(d: Draft, now: Time)
  {
    d.timestamp != 0 && d.timestamp < now - DRAFT_LIFETIME
  }

  function AfterExpiry(drafts: map<Id, Draft>, user: Id, now: Time): map<Id, Draft>
  {
    if user in drafts && Expired(drafts[user], now) then drafts - {user} else drafts
  }

  function Prefill(drafts: map<Id, Draft>, user: Id): Option<Form>
  {
    if user in drafts then Some(drafts[user].form) else None
  }

  /** A draft kept at `t` pre-fills a form opened at `now` unless it is more
      than 15 minutes old, in which case it is gone. */
  lemma DraftLifetime(drafts: map<Id, Draft>, user: Id, t: Time, form: Form, now: Time)
    requires t != 0
    ensures var kept := AfterExpiry(drafts[user := Draft(t, form)], user, now);
            && (now - t <= DRAFT_LIFETIME ==> Prefill(kept, user) == Some(form))
            && (now - t > DRAFT_LIFETIME ==> Prefill(kept, user) == None && user !in kept)
            && (forall u :: u != user && u in drafts ==> u in kept && kept[u] == drafts[u])
  {
  }

  // ---------------------------------------------------- replies and inputs

  datatype FormReply = FormWrongChannel | Opened(prefill: Option<Form>)

  datatype SubmitReply = Filed(reportId: int) | InvalidDate | SubmitError

  /** What happens when `/delete-report` reaches for the report's log message. */
  datatype LogDeletion =
    | MessageDeleted
    | GuildMissing          // get_guild gave None
    | LogChannelMissing     // the log channel is not a text channel
    | MessageNotFound       // discord.NotFound
    | DeletionRefused       // discord.Forbidden or discord.HTTPException

  datatype DeleteReply =
    | DeleteWrongChannel    // "This command can only be used in the staff channel."
    | InvalidReportId       // "Invalid report ID format."
    | NoSuchReport          // "Report ID ... does not exist."
    | Silent                // the command returns without replying
    | CouldNotFindMessage   // "Could not find the message."
    | CouldNotDeleteMessage // "Could not delete the message."
    | DeleteFailed          // "An error occurred while deleting the report."
    | ReportDeleted         // "Report ... deleted successfully."

  class StaffDesk {
    var file: ReportsFile
    /** `user_persistent_modal_values`. */
    var drafts: map<Id, Draft>

    constructor (f: ReportsFile)
      ensures file == f && drafts == map[]
    {
      file := f;
      drafts := map[];
    }

    /** `/incident-report`: only in the staff channel; building the form drops
        the user's expired draft and pre-fills from one that is still fresh. */
    method OpenForm(user: Id, now: Time, inStaffChannel: bool) returns (r: FormReply)
      modifies this
      ensures file == old(file)
      ensures !inStaffChannel ==> r == FormWrongChannel && drafts == old(drafts)
      ensures inStaffChannel ==> drafts == AfterExpiry(old(drafts), user, now)
                                 && r == Opened(Prefill(drafts, user))
    {
      if !inStaffChannel {
        return FormWrongChannel;
      }
      if user in drafts && Expired(drafts[user], now) {
        drafts := drafts - {user};
      }
      r := Opened(if user in drafts then Some(drafts[user].form) else None);
    }

    /** `IncidentReportModal.on_submit`. `parsedDate` is the date parser's
        answer, already formatted as `%Y-%m-%d`; `logMessage` is the id of the
        message posted to the report-log channel, or None when posting failed;
        `staffPostRaised` says the notice to the staff channel, sent after the
        save, raised. A failure before the save keeps the form as the user's
        draft and stores nothing; a success appends the report with the next
        id and clears the draft. A failed notice comes after the save: the
        report stays filed, yet the form is kept as a draft and the reply is
        the generic error. */
    method Submit(user: Id, form: Form, parsedDate: Option<string>, logMessage: Option<Id>,
                  staffPostRaised: bool, now: Time)
      returns (r: SubmitReply)
      modifies this
      ensures var items := LoadOrEmpty(old(file));
              parsedDate.Some? && logMessage.Some? ==>
                file == ReportList(items + [IncidentReport(NextId(items), parsedDate.value, logMessage.value)])
      ensures parsedDate.Some? && logMessage.Some? && !staffPostRaised ==>
                r == Filed(NextId(LoadOrEmpty(old(file)))) && drafts == old(drafts) - {user}
      ensures parsedDate.None? ==> r == InvalidDate
      ensures parsedDate.Some? && (logMessage.None? || staffPostRaised) ==> r == SubmitError
      ensures parsedDate.None? || logMessage.None? ==> file == old(file)
      ensures parsedDate.None? || logMessage.None? || staffPostRaised ==>
                drafts == old(drafts)[user := Draft(now, form)]
    {
      var items := if file.ReportList? then file.items else [];
      var reportId := if |items| > 0 then items[|items| - 1].reportId + 1 else 1;
      if parsedDate.None? {
        drafts := drafts[user := Draft(now, form)];
        return InvalidDate;
      }
      if logMessage.None? {
        drafts := drafts[user := Draft(now, form)];
        return SubmitError;
      }
      items := items + [IncidentReport(reportId, parsedDate.value, logMessage.value)];
      file := ReportList(items);
      if staffPostRaised {
        drafts := drafts[user := Draft(now, form)];
        return SubmitError;
      }
      if user in drafts {
        drafts := drafts - {user};
      }
      r := Filed(reportId);
    }

    /** `/delete-report`: only in the staff channel; parse the number, find
        the first report with it, delete its log message, and only then remove
        the report and save. Every failure leaves the stored list as it was. */
    method DeleteReport(input: string, inStaffChannel: bool, deletion: LogDeletion)
      returns (r: DeleteReply)
      modifies this
      ensures drafts == old(drafts)
      ensures r == ReportDeleted <==>
                inStaffChannel && ParseReportNumber(input).Some? && old(file).ReportList?
                && FirstIndexOf(old(file).items, ParseReportNumber(input).value).Some?
                && deletion == MessageDeleted
      ensures r == ReportDeleted ==>
                file == ReportList(RemoveAt(old(file).items,
                                            FirstIndexOf(old(file).items, ParseReportNumber(input).value).value))
      ensures r != ReportDeleted ==> file == old(file)
      ensures !inStaffChannel ==> r == DeleteWrongChannel
      ensures inStaffChannel && ParseReportNumber(input).None? ==> r == InvalidReportId
      ensures inStaffChannel && ParseReportNumber(input).Some? && old(file).NoFile? ==> r == DeleteFailed
      ensures inStaffChannel && ParseReportNumber(input).Some? && old(file).InvalidJson? ==> r == InvalidReportId
      ensures inStaffChannel && ParseReportNumber(input).Some? && old(file).NotAList? ==>
                r == if old(file).emptyContainer then NoSuchReport else DeleteFailed
      ensures (inStaffChannel && ParseReportNumber(input).Some? && old(file).ReportList?
               && FirstIndexOf(old(file).items, ParseReportNumber(input).value).None?) ==> r == NoSuchReport
      ensures inStaffChannel && ParseReportNumber(input).Some? && old(file).ReportList?
              && FirstIndexOf(old(file).items, ParseReportNumber(input).value).Some? ==>
                r == match deletion
                     case MessageDeleted => ReportDeleted
                     case GuildMissing => Silent
                     case LogChannelMissing => Silent
                     case MessageNotFound => CouldNotFindMessage
                     case DeletionRefused => CouldNotDeleteMessage
      ensures r in {Silent, CouldNotFindMessage, CouldNotDeleteMessage} ==>
                deletion != MessageDeleted && old(file).ReportList? && FirstIndexOf(old(file).items, ParseReportNumber(input).value).Some?
    {
      if !inStaffChannel {
        return DeleteWrongChannel;
      }
      var parsed := ParseReportNumber(input);
      if parsed.None? {
        return InvalidReportId;
      }
      var n := parsed.value;
      if file.NoFile? {
        return DeleteFailed;          // FileNotFoundError
      }
      if file.InvalidJson? {
        return InvalidReportId;       // JSONDecodeError is a ValueError
      }
      if file.NotAList? {             // report["report_id"] fails, unless nothing is iterated
        return if file.emptyContainer then NoSuchReport else DeleteFailed;
      }
      var items := file.items;
      var i := 0;
      while i < |items| && items[i].reportId != n
        invariant 0 <= i <= |items|
        invariant forall j :: 0 <= j < i ==> items[j].reportId != n
      {
        i := i + 1;
      }
      FirstIndexOfSpec(items, n);
      if i == |items| {
        return NoSuchReport;
      }
      match deletion
      case GuildMissing => return Silent;
      case LogChannelMissing => return Silent;
      case MessageNotFound => return CouldNotFindMessage;
      case DeletionRefused => return CouldNotDeleteMessage;
      case MessageDeleted =>
        file := ReportList(items[..i] + items[i + 1..]);
        r := ReportDeleted;
    }
  }

  // ----------------------------------------------------------- id lemmas

  /** The first index is the first position holding `n`; there is none
      exactly when no report has that number. */
  lemma {:induction false} FirstIndexOfSpec(items: seq<IncidentReport>, n: int)
    ensures FirstIndexOf(items, n).None? <==> forall j :: 0 <= j < |items| ==> items[j].reportId != n
    ensures FirstIndexOf(items, n).Some? ==>
              var i := FirstIndexOf(items, n).value;
              items[i].reportId == n && forall j :: 0 <= j < i ==> items[j].reportId != n
    decreases |items|
  {
    if items != [] && items[0].reportId != n {
      FirstIndexOfSpec(items[1..], n);
      assert forall j :: 1 <= j < |items| ==> items[j] == items[1..][j - 1];
    }
  }

  /** With increasing ids, the next id is larger than every stored one, so
      appending the new report keeps the ids increasing and distinct. */
  lemma NextIdIsFresh(items: seq<IncidentReport>, date: string, messageId: Id)
    requires IdsIncreasing(items)
    ensures forall r :: r in items ==> r.reportId < NextId(items)
    ensures IdsIncreasing(items + [IncidentReport(NextId(items), date, messageId)])
  {
    forall r | r in items ensures r.reportId < NextId(items) {
      var i :| 0 <= i < |items| && items[i] == r;
      if i < |items| - 1 {
        assert items[i].reportId < items[|items| - 1].reportId;
      }
    }
  }

  /** Removing one report keeps the rest in order with their ids. */
  lemma RemoveAtKeepsIncreasing(items: seq<IncidentReport>, i: nat)
    requires i < |items| && IdsIncreasing(items)
    ensures IdsIncreasing(RemoveAt(items, i))
    ensures |RemoveAt(items, i)| == |items| - 1
    ensures forall j :: 0 <= j < i ==> RemoveAt(items, i)[j] == items[j]
    ensures forall j :: i <= j < |items| - 1 ==> RemoveAt(items, i)[j] == items[j + 1]
  {
    var r := RemoveAt(items, i);
    forall a, b | 0 <= a < b < |r| ensures r[a].reportId < r[b].reportId {
      var a' := if a < i then a else a + 1;
      var b' := if b < i then b else b + 1;
      assert r[a] == items[a'] && r[b] == items[b'];
    }
  }

  /** The reports whose number is not `n`, in order. */
  function WithoutId(items: seq<IncidentReport>, n: int): seq<IncidentReport>
  {
    if items == [] then []
    else (if items[0].reportId == n then [] else [items[0]]) + WithoutId(items[1..], n)
  }

  /** With increasing ids, deleting report `n` removes exactly that report:
      what is left is every other report, in its order. */
  lemma {:induction false} DeleteRemovesOnlyThatReport(items: seq<IncidentReport>, n: int)
    requires IdsIncreasing(items)
    requires FirstIndexOf(items, n).Some?
    ensures RemoveAt(items, FirstIndexOf(items, n).value) == WithoutId(items, n)
    decreases |items|
  {
    var i := FirstIndexOf(items, n).value;
    if items[0].reportId == n {
      assert i == 0;
      NoneWithId(items[1..], n);
      assert RemoveAt(items, 0) == items[1..];
    } else {
      DeleteRemovesOnlyThatReport(items[1..], n);
      assert RemoveAt(items, i) == [items[0]] + RemoveAt(items[1..], i - 1);
    }
  }

  lemma {:induction false} NoneWithId(items: seq<IncidentReport>, n: int)
    requires forall j :: 0 <= j < |items| ==> items[j].reportId > n
    ensures WithoutId(items, n) == items
    decreases |items|
  {
    if items != [] {
      NoneWithId(items[1..], n);
    }
  }

  /** Deleting the newest report makes the next id no larger than the
      deleted one, and equal to it when the ids before it are consecutive:
      numbering does not skip past a freed number. */
  lemma DeletingNewestFreesItsId(items: seq<IncidentReport>)
    requires |items| >= 1 && IdsIncreasing(items)
    requires items[0].reportId >= 1
    ensures NextId(RemoveAt(items, |items| - 1)) <= items[|items| - 1].reportId
    ensures (|items| == 1 && items[0].reportId == 1) ==> NextId(RemoveAt(items, 0)) == 1
    ensures |items| >= 2 && items[|items| - 2].reportId + 1 == items[|items| - 1].reportId
            ==> NextId(RemoveAt(items, |items| - 1)) == items[|items| - 1].reportId
  {
    assert RemoveAt(items, |items| - 1) == items[..|items| - 1];
    if |items| >= 2 {
      assert items[|items| - 2].reportId < items[|items| - 1].reportId;
    }
  }

  // ------------------------------------------------ runs of store changes

  /** One change to the report list: a successful submit or delete. */
  datatype Change = FileReport(date: string, messageId: Id) | DeleteNumber(n: int)

  function ApplyChange(items: seq<IncidentReport>, c: Change): seq<IncidentReport>
  {
    match c
    case FileReport(date, messageId) => items + [IncidentReport(NextId(items), date, messageId)]
    case DeleteNumber(n) =>
      match FirstIndexOf(items, n)
      case None => items
      case Some(i) => RemoveAt(items, i)
  }

  function ApplyAll(items: seq<IncidentReport>, cs: seq<Change>): seq<IncidentReport>
    decreases |cs|
  {
    if cs == [] then items else ApplyAll(ApplyChange(items, cs[0]), cs[1..])
  }

  /** Any run of submits and deletes keeps the ids strictly increasing, hence
      pairwise distinct, starting from an empty list or any increasing one. */
  lemma {:induction false} ChangesKeepIdsIncreasing(items: seq<IncidentReport>, cs: seq<Change>)
    requires IdsIncreasing(items)
    ensures IdsIncreasing(ApplyAll(items, cs))
    ensures forall i, j :: 0 <= i < j < |ApplyAll(items, cs)| ==>
              ApplyAll(items, cs)[i].reportId != ApplyAll(items, cs)[j].reportId
    decreases |cs|
  {
    if cs != [] {
      var next := ApplyChange(items, cs[0]);
      if cs[0].FileReport? {
        NextIdIsFresh(items, cs[0].date, cs[0].messageId);
      } else if FirstIndexOf(items, cs[0].n).Some? {
        RemoveAtKeepsIncreasing(items, FirstIndexOf(items, cs[0].n).value);
      }
      ChangesKeepIdsIncreasing(next, cs[1..]);
    }
  }
}
