/**
 * The end-of-meeting summary (components/meeting-summary-dialog.tsx): the
 * planned, actual and overtime totals, each item's variance, and the plain-text
 * summary that is copied to the clipboard or e-mailed.
 */
module MeetingSummary {
  import opened Strings
  import opened AgendaTypes
  import opened TimeFormat
  import opened TimerQueries

  /** `getTotalPlannedTime`: the agenda's plan in seconds, sixty per planned minute. */
  function TotalPlannedTime(agenda: seq<AgendaItem>): (r: int)
    ensures r == 60 * TotalMeetingMinutes(agenda)
  {
    SecondsAreSixtyMinutes(agenda);
    SumPlannedSeconds(agenda)
  }

  /**
   * `getTotalOvertime`: the sum of each record's overtime, counting a negative
   * one as zero. It is never negative, and it is zero exactly when no record
   * ran over.
   */
  function TotalOvertime(ledger: seq<ItemTimeData>): (r: int)
    ensures r >= 0
    ensures r == 0 <==> forall i :: 0 <= i < |ledger| ==> ledger[i].overTime <= 0
  {
    if |ledger| == 0 then 0
    else
      var rest := TotalOvertime(ledger[1..]);
      assert forall i :: 1 <= i < |ledger| ==> ledger[i] == ledger[1..][i - 1];
      Max(0, ledger[0].overTime) + rest
  }

  /** The overtime total sums the overtime of consistent records, each actual time beyond its plan. */
  lemma {:induction false} TotalOvertimeOfConsistent(ledger: seq<ItemTimeData>)
    requires forall i :: 0 <= i < |ledger| ==> ConsistentRecord(ledger[i])
    ensures TotalOvertime(ledger) == SumOver(ledger)
  {
    if |ledger| > 0 {
      TotalOvertimeOfConsistent(ledger[1..]);
    }
  }

  /** Actual time beyond plan, summed over the records. */
  function SumOver(ledger: seq<ItemTimeData>): int {
    if |ledger| == 0 then 0
    else Max(0, ledger[0].actualDuration - ledger[0].plannedDuration) + SumOver(ledger[1..])
  }

  /** The overtime cell: "+m:ss" when any record ran over, "On Time" otherwise. */
  function OvertimeLabel(ledger: seq<ItemTimeData>): (r: string)
    ensures r == "On Time" <==> forall i :: 0 <= i < |ledger| ==> ledger[i].overTime <= 0
    ensures r != "On Time" ==> r == "+" + FormatTime(TotalOvertime(ledger))
  {
    if TotalOvertime(ledger) > 0 then
      var t := "+" + FormatTime(TotalOvertime(ledger));
      assert t[0] != "On Time"[0];
      t
    else "On Time"
  }

  /** An item's variance: actual minus planned seconds. */
  function Variance(rec: ItemTimeData): int {
    rec.actualDuration - rec.plannedDuration
  }

  function Abs(n: int): nat {
    if n < 0 then -n else n
  }

  /**
   * The variance cell: a dash for no variance; otherwise the absolute
   * variance as "m:ss", with a leading "+" exactly when over plan.
   */
  function VarianceText(rec: ItemTimeData): (r: string)
    ensures r == "—" <==> Variance(rec) == 0
    ensures |r| >= 1 && (r[0] == '+' <==> Variance(rec) > 0)
    ensures Variance(rec) < 0 ==> r == FormatTime(Abs(Variance(rec)))
    ensures Variance(rec) > 0 ==> r == "+" + FormatTime(Abs(Variance(rec)))
  {
    var v := Variance(rec);
    if v != 0 then
      var t := (if v > 0 then "+" else "") + FormatTime(Abs(v));
      FormatTimeLeadsWithDigit(Abs(v));
      assert v > 0 ==> t[1..] == FormatTime(Abs(v));
      assert t[0] != "—"[0];
      t
    else "—"
  }

  /** For a consistent record the variance cell is marked "+" exactly when the record has overtime. */
  lemma VarianceMarksOvertime(rec: ItemTimeData)
    requires ConsistentRecord(rec)
    ensures VarianceText(rec)[0] == '+' <==> rec.overTime > 0
  {
  }

  /** The status mark of a record: a tick when completed, a circle otherwise. */
  function StatusMark(rec: ItemTimeData): string {
    if rec.completed then "✓" else "○"
  }

  /** The heading line of item `index`: mark, one-based number and title. */
  function ItemHeading(item: AgendaItem, rec: ItemTimeData, index: nat): string {
    StatusMark(rec) + " " + IntToString(index + 1) + ". " + item.title
  }

  /** The planned and actual times of a record's detail line. */
  function DetailTimes(rec: ItemTimeData): string {
    "   Planned: " + FormatTime(rec.plannedDuration) + ", Actual: " + FormatTime(rec.actualDuration)
  }

  /** The overtime note that closes a detail line when the record is over. */
  function OvertimeNote(rec: ItemTimeData): string {
    if rec.overTime > 0 then " (+" + FormatTime(rec.overTime) + " over)" else ""
  }

  /** The detail line of a record: planned and actual times and, when over, the overtime. */
  function ItemDetail(rec: ItemTimeData): string {
    DetailTimes(rec) + OvertimeNote(rec)
  }

  /** The clock text of any time ends with a digit of its seconds. */
  lemma FormatTimeEndsWithDigit(n: int)
    ensures var f := FormatTime(n); |f| >= 1 && IsDigit(f[|f| - 1])
  {
    var f := FormatTime(n);
    var secs := IntToString(JsRem(n, 60));
    assert f[|f| - 1] == secs[|secs| - 1];
  }

  /** A text that ends with a digit does not end with the overtime note's closing words. */
  lemma DigitEndRulesOutOver(a: string, f: string)
    requires |f| >= 1 && IsDigit(f[|f| - 1])
    ensures !EndsWith(a + f, " over)")
  {
    assert (a + f)[|a + f| - 1] == f[|f| - 1];
    LastCharRulesOutSuffix(a + f, " over)");
  }

  /** The detail line mentions overtime exactly when the record has some. */
  lemma DetailMentionsOvertime(rec: ItemTimeData)
    ensures EndsWith(ItemDetail(rec), " over)") <==> rec.overTime > 0
  {
    if rec.overTime > 0 {
      EndsWithExtend(" (+" + FormatTime(rec.overTime), " over)", " over)");
      EndsWithExtend(DetailTimes(rec), OvertimeNote(rec), " over)");
    } else {
      FormatTimeEndsWithDigit(rec.actualDuration);
      DigitEndRulesOutOver("   Planned: " + FormatTime(rec.plannedDuration) + ", Actual: ", FormatTime(rec.actualDuration));
      assert ItemDetail(rec) == DetailTimes(rec);
    }
  }

  /** The heading line starts with the tick exactly when the record is completed. */
  lemma HeadingMarksCompletion(item: AgendaItem, rec: ItemTimeData, index: nat)
    ensures StartsWith(ItemHeading(item, rec, index), "✓") <==> rec.completed
  {
    var rest := " " + IntToString(index + 1) + ". " + item.title;
    assert ItemHeading(item, rec, index) == StatusMark(rec) + rest;
    if rec.completed {
      StartsWithExtend("✓", rest, "✓");
    } else {
      FirstCharRulesOutPrefix(StatusMark(rec) + rest, "✓");
    }
  }

  /** Two equally long lists merged pairwise: the first's entry, then the second's. */
  function Interleave(heads: seq<string>, details: seq<string>): (r: seq<string>)
    requires |heads| == |details|
    ensures |r| == 2 * |heads|
    ensures forall k :: 0 <= k < |heads| ==> r[2 * k] == heads[k] && r[2 * k + 1] == details[k]
  {
    seq(2 * |heads|, j requires 0 <= j < 2 * |heads| => if j % 2 == 0 then heads[j / 2] else details[j / 2])
  }

  /**
   * The rows of the items that have a record (every index below both lengths,
   * in order): each item's heading followed by its detail.
   */
  function ItemRows(agenda: seq<AgendaItem>, ledger: seq<ItemTimeData>): (r: seq<string>)
    ensures |r| == 2 * Min(|agenda|, |ledger|)
    ensures forall k :: 0 <= k < Min(|agenda|, |ledger|) ==>
      r[2 * k] == ItemHeading(agenda[k], ledger[k], k) && r[2 * k + 1] == ItemDetail(ledger[k])
  {
    var n := Min(|agenda|, |ledger|);
    var heads := seq(n, k requires 0 <= k < n => ItemHeading(agenda[k], ledger[k], k));
    var details := seq(n, k requires 0 <= k < n => ItemDetail(ledger[k]));
    assert |heads| == |details| == n;
    Interleave(heads, details)
  }

  /** The five lines before the items: title, date, actual duration, a blank line and the heading. */
  function SummaryHeader(title: string, date: string, totalElapsed: int): (r: seq<string>)
    ensures |r| == 5
    ensures r[0] == "Meeting: " + title && r[1] == "Date: " + date
    ensures r[2] == "Total Duration: " + FormatTime(totalElapsed)
    ensures r[3] == "" && r[4] == "Agenda Items:"
  {
    ["Meeting: " + title, "Date: " + date, "Total Duration: " + FormatTime(totalElapsed), "", "Agenda Items:"]
  }

  /**
   * `generateSummaryText`'s lines: title, date, actual duration, a blank line
   * and the "Agenda Items:" heading, then two lines for every item that has a
   * record. The date is whatever the locale renders and is taken as given.
   */
  function SummaryLines(title: string, date: string, agenda: seq<AgendaItem>,
                        ledger: seq<ItemTimeData>, totalElapsed: int): (r: seq<string>)
    ensures |r| == 5 + 2 * Min(|agenda|, |ledger|)
    ensures r[0] == "Meeting: " + title && r[1] == "Date: " + date
    ensures r[2] == "Total Duration: " + FormatTime(totalElapsed)
    ensures r[3] == "" && r[4] == "Agenda Items:"
    ensures r[5..] == ItemRows(agenda, ledger)
  {
    var header := SummaryHeader(title, date, totalElapsed);
    var rows := ItemRows(agenda, ledger);
    assert (header + rows)[5..] == rows;
    assert (header + rows)[..5] == header;
    header + rows
  }

  /**
   * The summary marks an item done exactly when its record is completed and
   * reports overtime exactly when the record has some.
   */
  lemma SummaryReportsEachItem(title: string, date: string, agenda: seq<AgendaItem>,
                               ledger: seq<ItemTimeData>, totalElapsed: int, k: nat)
    requires k < |agenda| && k < |ledger|
    ensures var r := SummaryLines(title, date, agenda, ledger, totalElapsed);
      && (StartsWith(r[5 + 2 * k], "✓") <==> ledger[k].completed)
      && (EndsWith(r[6 + 2 * k], " over)") <==> ledger[k].overTime > 0)
  {
    var r := SummaryLines(title, date, agenda, ledger, totalElapsed);
    var rows := ItemRows(agenda, ledger);
    assert r[5 + 2 * k] == rows[2 * k] && r[6 + 2 * k] == rows[2 * k + 1];
    DetailMentionsOvertime(ledger[k]);
    HeadingMarksCompletion(agenda[k], ledger[k], k);
  }

  /** `lines.join("\n")`. */
  function JoinLines(lines: seq<string>): string {
    if |lines| == 0 then ""
    else if |lines| == 1 then lines[0]
    else lines[0] + "\n" + JoinLines(lines[1..])
  }

  /** Occurrences of a character. */
  function CountChar(s: string, c: char): nat {
    if |s| == 0 then 0 else (if s[0] == c then 1 else 0) + CountChar(s[1..], c)
  }

  lemma {:induction false} CountCharConcat(a: string, b: string, c: char)
    ensures CountChar(a + b, c) == CountChar(a, c) + CountChar(b, c)
  {
    if |a| > 0 {
      assert (a + b)[1..] == a[1..] + b;
      CountCharConcat(a[1..], b, c);
    } else {
      assert a + b == b;
    }
  }

  /**
   * Joined lines that carry no line break of their own are separated by
   * exactly one break each: the text has one line break fewer than lines.
   */
  lemma {:induction false} JoinLinesBreaks(lines: seq<string>)
    requires |lines| >= 1
    requires forall i :: 0 <= i < |lines| ==> CountChar(lines[i], '\n') == 0
    ensures CountChar(JoinLines(lines), '\n') == |lines| - 1
  {
    if |lines| > 1 {
      JoinLinesBreaks(lines[1..]);
      CountCharConcat(lines[0], "\n", '\n');
      CountCharConcat(lines[0] + "\n", JoinLines(lines[1..]), '\n');
    }
  }

  /** A text without any line break. */
  predicate BreakFree(s: string) {
    forall i :: 0 <= i < |s| ==> s[i] != '\n'
  }

  lemma BreakFreeConcat(a: string, b: string)
    requires BreakFree(a) && BreakFree(b)
    ensures BreakFree(a + b)
  {
    forall i | 0 <= i < |a + b|
      ensures (a + b)[i] != '\n'
    {
      if i >= |a| {
        assert (a + b)[i] == b[i - |a|];
      }
    }
  }

  /** A break-free text counts no line break. */
  lemma {:induction false} BreakFreeCountsNone(s: string)
    requires BreakFree(s)
    ensures CountChar(s, '\n') == 0
  {
    if |s| > 0 {
      assert BreakFree(s[1..]) by {
        forall i | 0 <= i < |s[1..]| ensures s[1..][i] != '\n' {
          assert s[1..][i] == s[i + 1];
        }
      }
      BreakFreeCountsNone(s[1..]);
    }
  }

  /** Decimal renderings hold digits and at most a minus sign. */
  lemma IntToStringBreakFree(n: int)
    ensures BreakFree(IntToString(n))
  {
    var d := NatToString(if n >= 0 then n else -n);
    assert BreakFree(d) by {
      forall i | 0 <= i < |d| ensures d[i] != '\n' {
        assert IsDigit(d[i]);
      }
    }
    if n < 0 {
      BreakFreeConcat("-", d);
    }
  }

  /** A clock text is a single line. */
  lemma FormatTimeBreakFree(n: int)
    ensures BreakFree(FormatTime(n))
  {
    var secs := JsRem(n, 60);
    IntToStringBreakFree(n / 60);
    IntToStringBreakFree(secs);
    BreakFreeConcat(IntToString(n / 60), ":");
    BreakFreeConcat(if secs < 10 then "0" else "", IntToString(secs));
    BreakFreeConcat(IntToString(n / 60) + ":", SecondsField(secs));
  }

  /** The fixed words of the summary lines are single lines. */
  lemma FixedWordsBreakFree()
    ensures BreakFree("✓") && BreakFree("○") && BreakFree(" ") && BreakFree(". ")
    ensures BreakFree("   Planned: ") && BreakFree(", Actual: ")
    ensures BreakFree(" (+") && BreakFree(" over)") && BreakFree("")
    ensures BreakFree("Meeting: ") && BreakFree("Date: ")
    ensures BreakFree("Total Duration: ") && BreakFree("Agenda Items:")
  {
  }

  /** Four single lines joined are a single line. */
  lemma BreakFreeConcat4(a: string, b: string, c: string, d: string)
    requires BreakFree(a) && BreakFree(b) && BreakFree(c) && BreakFree(d)
    ensures BreakFree(a + b + c + d)
  {
    BreakFreeConcat(a, b);
    BreakFreeConcat(a + b, c);
    BreakFreeConcat(a + b + c, d);
  }

  /** An item's heading is a single line when its title is. */
  lemma HeadingBreakFree(item: AgendaItem, rec: ItemTimeData, index: nat)
    requires BreakFree(item.title)
    ensures BreakFree(ItemHeading(item, rec, index))
  {
    FixedWordsBreakFree();
    var num := IntToString(index + 1);
    IntToStringBreakFree(index + 1);
    BreakFreeConcat4(StatusMark(rec), " ", num, ". ");
    BreakFreeConcat(StatusMark(rec) + " " + num + ". ", item.title);
  }

  /** An item's detail line is always a single line. */
  lemma DetailBreakFree(rec: ItemTimeData)
    ensures BreakFree(ItemDetail(rec))
  {
    FixedWordsBreakFree();
    var planned, actual, over := FormatTime(rec.plannedDuration), FormatTime(rec.actualDuration), FormatTime(rec.overTime);
    FormatTimeBreakFree(rec.plannedDuration);
    FormatTimeBreakFree(rec.actualDuration);
    FormatTimeBreakFree(rec.overTime);
    BreakFreeConcat4("   Planned: ", planned, ", Actual: ", actual);
    BreakFreeConcat(" (+", over);
    BreakFreeConcat(" (+" + over, " over)");
    BreakFreeConcat(DetailTimes(rec), OvertimeNote(rec));
  }

  /** Every item row is a single line when the item titles are. */
  lemma ItemRowsBreakFree(agenda: seq<AgendaItem>, ledger: seq<ItemTimeData>)
    requires forall k :: 0 <= k < |agenda| ==> BreakFree(agenda[k].title)
    ensures var rows := ItemRows(agenda, ledger);
      forall i :: 0 <= i < |rows| ==> BreakFree(rows[i])
  {
    var rows := ItemRows(agenda, ledger);
    forall i | 0 <= i < |rows|
      ensures BreakFree(rows[i])
    {
      var k := i / 2;
      if i % 2 == 0 {
        assert i == 2 * k;
        HeadingBreakFree(agenda[k], ledger[k], k);
      } else {
        assert i == 2 * k + 1;
        DetailBreakFree(ledger[k]);
      }
    }
  }

  /** Every summary line is a single line when the title, the date and the item titles are. */
  lemma SummaryLinesBreakFree(title: string, date: string, agenda: seq<AgendaItem>,
                              ledger: seq<ItemTimeData>, totalElapsed: int)
    requires BreakFree(title) && BreakFree(date)
    requires forall k :: 0 <= k < |agenda| ==> BreakFree(agenda[k].title)
    ensures var r := SummaryLines(title, date, agenda, ledger, totalElapsed);
      forall i :: 0 <= i < |r| ==> BreakFree(r[i])
  {
    var r := SummaryLines(title, date, agenda, ledger, totalElapsed);
    var rows := ItemRows(agenda, ledger);
    FixedWordsBreakFree();
    BreakFreeConcat("Meeting: ", title);
    BreakFreeConcat("Date: ", date);
    FormatTimeBreakFree(totalElapsed);
    BreakFreeConcat("Total Duration: ", FormatTime(totalElapsed));
    ItemRowsBreakFree(agenda, ledger);
    forall i | 5 <= i < |r|
      ensures BreakFree(r[i])
    {
      assert r[i] == rows[i - 5];
    }
  }

  /** Index of the first line break, or the length when there is none. */
  function FirstBreak(s: string): (i: nat)
    ensures i <= |s| && (i < |s| ==> s[i] == '\n')
    ensures forall j :: 0 <= j < i ==> s[j] != '\n'
  {
    if |s| == 0 || s[0] == '\n' then 0 else 1 + FirstBreak(s[1..])
  }

  /** `text.split("\n")`: the pieces between line breaks. */
  function SplitLines(s: string): (r: seq<string>)
    ensures |r| >= 1
    decreases |s|
  {
    var i := FirstBreak(s);
    if i == |s| then [s] else [s[..i]] + SplitLines(s[i + 1..])
  }

  /** Splitting a line followed by a break and more text peels that line off. */
  lemma SplitFirstLine(a: string, rest: string)
    requires BreakFree(a)
    ensures SplitLines(a + "\n" + rest) == [a] + SplitLines(rest)
  {
    var s := a + "\n" + rest;
    assert s[|a|] == '\n';
    assert FirstBreak(s) == |a|;
    assert s[..|a|] == a && s[|a| + 1..] == rest;
  }

  /** Splitting the joined lines gives them back when none has a break of its own. */
  lemma {:induction false} SplitJoinLines(lines: seq<string>)
    requires |lines| >= 1
    requires forall i :: 0 <= i < |lines| ==> BreakFree(lines[i])
    ensures SplitLines(JoinLines(lines)) == lines
  {
    if |lines| == 1 {
      assert FirstBreak(lines[0]) == |lines[0]|;
    } else {
      SplitJoinLines(lines[1..]);
      SplitFirstLine(lines[0], JoinLines(lines[1..]));
      assert lines == [lines[0]] + lines[1..];
    }
  }

  /**
   * `generateSummaryText`: the summary lines joined with line breaks. When the
   * title, the date and the item titles are single lines, the text splits back
   * into exactly those lines: the five header lines and two per recorded item,
   * so it holds one line break fewer than that.
   */
  function SummaryText(title: string, date: string, agenda: seq<AgendaItem>,
                       ledger: seq<ItemTimeData>, totalElapsed: int): (r: string)
    ensures BreakFree(title) && BreakFree(date) && (forall k :: 0 <= k < |agenda| ==> BreakFree(agenda[k].title)) ==>
      && SplitLines(r) == SummaryLines(title, date, agenda, ledger, totalElapsed)
      && CountChar(r, '\n') == 4 + 2 * Min(|agenda|, |ledger|)
  {
    var lines := SummaryLines(title, date, agenda, ledger, totalElapsed);
    assert BreakFree(title) && BreakFree(date) && (forall k :: 0 <= k < |agenda| ==> BreakFree(agenda[k].title)) ==>
      && SplitLines(JoinLines(lines)) == lines
      && CountChar(JoinLines(lines), '\n') == |lines| - 1 by {
      if BreakFree(title) && BreakFree(date) && (forall k :: 0 <= k < |agenda| ==> BreakFree(agenda[k].title)) {
        SummaryLinesBreakFree(title, date, agenda, ledger, totalElapsed);
        SplitJoinLines(lines);
        forall i | 0 <= i < |lines|
          ensures CountChar(lines[i], '\n') == 0
        {
          BreakFreeCountsNone(lines[i]);
        }
        JoinLinesBreaks(lines);
      }
    }
    JoinLines(lines)
  }
}
