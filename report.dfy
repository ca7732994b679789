/**
 * The per-chat metrics of the CSV chat report: elapsed hours, hours to the
 * first support reply adjusted for weekends, the support level, the flag and
 * person columns, and the 18-cell row in header order. Times are Unix seconds;
 * weekdays and midnights are taken in UTC.
 */
module Report {
  import opened Entries
  import opened Chats
  import Ingestion

  const SecondsPerHour: int := 3600
  const SecondsPerDay: int := 86400

  // ---------------------------------------------------------------------------
  // Integer division as Go's int64 `/` does it

  /** Division truncating toward zero. */
  function TruncDiv(a: int, b: int): int
    requires b > 0
  {
    if a >= 0 then a / b else -((-a) / b)
  }

  /** The remainder of truncating division has the dividend's sign and is smaller than the divisor. */
  lemma TruncDivRemainder(a: int, b: int)
    requires b > 0
    ensures a >= 0 ==> 0 <= a - TruncDiv(a, b) * b < b
    ensures a < 0 ==> -b < a - TruncDiv(a, b) * b <= 0
  {
  }

  /** Truncation is symmetric about zero, unlike floor division. */
  lemma TruncDivNegate(a: int, b: int)
    requires b > 0
    ensures TruncDiv(-a, b) == -TruncDiv(a, b)
  {
  }

  // ---------------------------------------------------------------------------
  // Calendar days in UTC

  const Sunday: int := 0
  const Monday: int := 1
  const Saturday: int := 6

  /** The midnight that opens day number `k` (day 0 is 1970-01-01). */
  function DayStart(k: int): int {
    k * SecondsPerDay
  }

  /** The day of the week, 0 for Sunday; 1970-01-01 was a Thursday. */
  function Weekday(t: int): (d: int)
    ensures 0 <= d < 7
  {
    (t / SecondsPerDay + 4) % 7
  }

  /** Weekdays follow the calendar: day 0 was a Thursday, and each day moves one weekday on. */
  lemma WeekdayCalendar(t: int)
    ensures Weekday(0) == 4
    ensures Weekday(t + SecondsPerDay) == (Weekday(t) + 1) % 7
    ensures Weekday(t + 7 * SecondsPerDay) == Weekday(t)
  {
    var d := t / SecondsPerDay;
    DaysLater(t, 1);
    assert (t + 7 * SecondsPerDay) / SecondsPerDay == d + 7 by {
      assert d * SecondsPerDay <= t < d * SecondsPerDay + SecondsPerDay;
      assert (d + 7) * SecondsPerDay <= t + 7 * SecondsPerDay < (d + 7) * SecondsPerDay + SecondsPerDay;
    }
  }

  /** The midnight that opens the day of `t`. */
  function Midnight(t: int): (m: int)
    ensures m % SecondsPerDay == 0 && m <= t < m + SecondsPerDay
  {
    DayStart(t / SecondsPerDay)
  }

  /**
   * The start that HoursLapseWorkingDays measures from: a Saturday start moves
   * to the midnight of the day 48 hours later, a Sunday start to the midnight
   * of the day 24 hours later; any other start is kept.
   */
  function EffectiveStart(s: int): int {
    if Weekday(s) == Saturday then Midnight(s + 48 * SecondsPerHour)
    else if Weekday(s) == Sunday then Midnight(s + 24 * SecondsPerHour)
    else s
  }

  /** HoursLapseWorkingDays: whole hours from the effective start to `end`, truncated toward zero. */
  function HoursLapseWorkingDays(start: int, end: int): int {
    TruncDiv(end - EffectiveStart(start), SecondsPerHour)
  }

  /** A start from Monday to Friday is measured as it is. */
  lemma WeekdayStartLatency(s: int, e: int)
    requires Weekday(s) != Saturday && Weekday(s) != Sunday
    ensures HoursLapseWorkingDays(s, e) == TruncDiv(e - s, SecondsPerHour)
    ensures e >= s ==> 0 <= HoursLapseWorkingDays(s, e) * SecondsPerHour <= e - s
                       < (HoursLapseWorkingDays(s, e) + 1) * SecondsPerHour
  {
  }

  /** The day number and weekday of a midnight. */
  lemma DayStartFacts(k: int)
    ensures DayStart(k) / SecondsPerDay == k
    ensures Weekday(DayStart(k)) == (k + 4) % 7
  {
  }

  /** A time `j` whole days later falls `j` days later, at the same time of day. */
  lemma DaysLater(s: int, j: int)
    requires j == 1 || j == 2
    ensures (s + j * SecondsPerDay) / SecondsPerDay == s / SecondsPerDay + j
  {
    var d := s / SecondsPerDay;
    assert d * SecondsPerDay <= s < d * SecondsPerDay + SecondsPerDay;
    assert (d + j) * SecondsPerDay <= s + j * SecondsPerDay < (d + j) * SecondsPerDay + SecondsPerDay;
  }

  /**
   * A weekend start rolls forward to the next Monday's midnight: a midnight
   * later than the start, at most two days on, that is a Monday, with no
   * Monday midnight in between.
   */
  lemma WeekendStartRollsToMonday(s: int)
    requires Weekday(s) == Saturday || Weekday(s) == Sunday
    ensures var m := EffectiveStart(s);
            && m % SecondsPerDay == 0
            && Weekday(m) == Monday
            && s < m <= s + 2 * SecondsPerDay
            && forall k :: s < DayStart(k) < m ==> Weekday(DayStart(k)) != Monday
  {
    var d := s / SecondsPerDay;
    assert d * SecondsPerDay <= s < d * SecondsPerDay + SecondsPerDay;
    var j := if Weekday(s) == Saturday then 2 else 1;
    DaysLater(s, j);
    assert j * SecondsPerDay == j * 24 * SecondsPerHour;
    assert EffectiveStart(s) == DayStart(d + j);
    DayStartFacts(d + j);
    assert ((d + 4) % 7 + j) % 7 == Monday;
    forall k | s < DayStart(k) < DayStart(d + j)
      ensures Weekday(DayStart(k)) != Monday
    {
      assert d < k < d + j;
      DayStartFacts(k);
    }
  }

  /** Saturday 2020-01-04 10:00 UTC, answered on Monday 10:00 and on Sunday 20:00. */
  lemma WeekendLatencyExamples()
    ensures Weekday(1578132000) == Saturday
    ensures HoursLapseWorkingDays(1578132000, 1578304800) == 10
    ensures HoursLapseWorkingDays(1578132000, 1578254400) == -4
  {
    assert EffectiveStart(1578132000) == 1578268800;
  }

  // ---------------------------------------------------------------------------
  // The time columns

  /** The elapse_time column: whole hours from start to end. */
  function ElapsedHours(c: ChatState): (h: int)
    ensures c.start <= c.end ==> h >= 0 && h * SecondsPerHour <= c.end - c.start < (h + 1) * SecondsPerHour
  {
    TruncDiv(c.end - c.start, SecondsPerHour)
  }

  /** The time_to_first column: -1 when the first response precedes the start (so when there was none and the start is positive), else the weekend-adjusted latency. */
  function TimeToFirstHours(c: ChatState): int {
    var total := c.firstResponser - c.start;
    if total < 0 then -1 else HoursLapseWorkingDays(c.start, c.firstResponser)
  }

  /** A chat without a support reply shows -1 (its first-response field is 0 and its start is after 1970-01-01). */
  lemma NoResponseShowsSentinel(c: ChatState)
    requires c.firstResponser == 0 && c.start > 0
    ensures TimeToFirstHours(c) == -1
  {
  }

  /**
   * When the column is -1: the first response precedes the start, or the
   * start is on a weekend and the response came from two hours (exclusive) to
   * one hour (inclusive) before the following Monday's midnight.
   */
  lemma TimeToFirstSentinel(c: ChatState)
    ensures TimeToFirstHours(c) == -1 <==>
              c.firstResponser < c.start
              || (&& (Weekday(c.start) == Saturday || Weekday(c.start) == Sunday)
                  && -2 * SecondsPerHour < c.firstResponser - EffectiveStart(c.start) <= -SecondsPerHour)
  {
    if c.firstResponser >= c.start {
      var x := c.firstResponser - EffectiveStart(c.start);
      if Weekday(c.start) != Saturday && Weekday(c.start) != Sunday {
        assert x >= 0;
      } else if -2 * SecondsPerHour < x <= -SecondsPerHour {
        assert (-x) / SecondsPerHour == 1;
      }
    }
  }

  /** With the response at or after the start, the column is the latency, which is at least -48. */
  lemma TimeToFirstBounds(c: ChatState)
    requires c.firstResponser >= c.start
    ensures TimeToFirstHours(c) == HoursLapseWorkingDays(c.start, c.firstResponser)
    ensures TimeToFirstHours(c) >= -48
    ensures Weekday(c.start) != Saturday && Weekday(c.start) != Sunday ==> TimeToFirstHours(c) >= 0
  {
    if Weekday(c.start) == Saturday || Weekday(c.start) == Sunday {
      WeekendStartRollsToMonday(c.start);
    }
  }

  /** A weekend chat answered on Sunday 22:30 shows -1 although it was answered. */
  lemma AnsweredChatCanShowSentinel(c: ChatState)
    requires c.start == 1578132000 && c.firstResponser == 1578263400
    ensures c.firstResponser >= c.start && TimeToFirstHours(c) == -1
  {
    assert EffectiveStart(1578132000) == 1578268800;
  }

  // ---------------------------------------------------------------------------
  // The support level

  datatype Level = Level1 | Level2 | Level3 {
    function Name(): string {
      match this
      case Level1 => "level1"
      case Level2 => "level2"
      case Level3 => "level3"
    }
  }

  /**
   * The support level, as the source reassigns it: level2, then level3 for a
   * long chat, then level1 for a short one, the last rule winning.
   */
  function SupportLevel(words: int, interactions: int): (l: Level)
    ensures l == Level1 <==> words < 200 || interactions < 3
    ensures l == Level3 <==> !(words < 200 || interactions < 3) && (words > 1000 || interactions > 10)
    ensures l == Level2 <==> 200 <= words <= 1000 && 3 <= interactions <= 10
  {
    var byLength := if words > 1000 || interactions > 10 then Level3 else Level2;
    if words < 200 || interactions < 3 then Level1 else byLength
  }

  /** The level of a chat, from its total words and total interactions. */
  function ChatLevel(c: ChatState): Level {
    SupportLevel(c.supportWords + c.customerWords, c.interactions + c.customerInteractions)
  }

  /** A long chat with only two interactions is still level1. */
  lemma ShortRuleWins()
    ensures SupportLevel(5000, 2) == Level1 && SupportLevel(150, 40) == Level1
  {
  }

  /** A chat opened by a customer line and answered once has one interaction each way and is level1. */
  lemma OneReplyChatIsLevel1(opening: Entry, reply: Entry)
    requires IsCustomer(opening) && !IsCustomer(reply)
    ensures var c := Fold(Fold(Ingestion.NewChat(opening), opening), reply);
            c.interactions == 1 && c.customerInteractions == 1 && ChatLevel(c) == Level1
  {
  }

  /** More words or more interactions never lower the level below level2 once it is reached. */
  lemma LevelMonotone(w: int, i: int, w': int, i': int)
    requires w <= w' && i <= i'
    requires SupportLevel(w, i) != Level1
    ensures SupportLevel(w', i') != Level1
    ensures SupportLevel(w, i) == Level3 ==> SupportLevel(w', i') == Level3
  {
  }

  // ---------------------------------------------------------------------------
  // The flag and person columns

  /** BoolFormat: "1" for true, "0" for false. */
  function BoolFormat(v: bool): (s: string)
    ensures s == "1" <==> v
    ensures s == "0" <==> !v
  {
    if v then "1" else "0"
  }

  /** The person column: the last author in the list, or "none". */
  function LastAuthor(authors: seq<string>): (p: string)
    ensures authors == [] ==> p == "none"
    ensures authors != [] ==> p == authors[|authors| - 1] && p in authors
  {
    if |authors| > 0 then authors[|authors| - 1] else "none"
  }

  /**
   * The person column names the most recent support author to reply for the
   * first time: a new support author takes it, a returning one leaves it, and
   * a customer entry leaves it.
   */
  lemma PersonAfterFold(c: ChatState, e: Entry)
    ensures !IsCustomer(e) && e.author !in c.authors ==> LastAuthor(Fold(c, e).authors) == e.author
    ensures (IsCustomer(e) || e.author in c.authors) ==> LastAuthor(Fold(c, e).authors) == LastAuthor(c.authors)
  {
    FoldAuthors(c, e);
  }

  /** For a valid chat, whose support authors are not called "none", the column is "none" exactly when no support reply came. */
  lemma PersonNone(c: ChatState)
    requires Valid(c) && "none" !in c.authors
    ensures LastAuthor(c.authors) == "none" <==> c.interactions == 0
    ensures LastAuthor(c.authors) != CustomerId
  {
  }

  // ---------------------------------------------------------------------------
  // The row

  /** The report's columns, in header order. */
  datatype Column =
    | Id | Url | Date | Month | ElapseTime | TimeToFirst | InteractionsTotal
    | CustomerInteractions | SupportInteractions | InteractionRatio | WordRatio
    | UserLast | Person | ChannelName | WithLink | WithLinkToDoc | TotalWord | Support
  {
    /** The header name of the column. */
    function Name(): string {
      match this
      case Id => "id"
      case Url => "url"
      case Date => "date"
      case Month => "month"
      case ElapseTime => "elapse_time(hours)"
      case TimeToFirst => "time_to_first(hours)"
      case InteractionsTotal => "interactions(total)"
      case CustomerInteractions => "customer_interactions"
      case SupportInteractions => "support_interactions"
      case InteractionRatio => "interaction_ratio"
      case WordRatio => "word_ratio"
      case UserLast => "user_last"
      case Person => "person"
      case ChannelName => "channel"
      case WithLink => "withlink"
      case WithLinkToDoc => "withlinktodoc"
      case TotalWord => "totalword"
      case Support => "support_level"
    }
  }

  const Columns: seq<Column> := [
    Id, Url, Date, Month, ElapseTime, TimeToFirst, InteractionsTotal,
    CustomerInteractions, SupportInteractions, InteractionRatio, WordRatio,
    UserLast, Person, ChannelName, WithLink, WithLinkToDoc, TotalWord, Support]

  /** The header's fields. */
  const Header: seq<string> := [
    "id", "url", "date", "month", "elapse_time(hours)", "time_to_first(hours)", "interactions(total)",
    "customer_interactions", "support_interactions", "interaction_ratio", "word_ratio", "user_last",
    "person", "channel", "withlink", "withlinktodoc", "totalword", "support_level"]

  /** The header fields are the column names in order. */
  lemma HeaderNamesColumns()
    ensures |Columns| == |Header| == 18
    ensures forall i :: 0 <= i < |Columns| ==> Columns[i].Name() == Header[i]
  {
  }

  /**
   * One report cell before it is printed: text, an integer, a ratio of two
   * counts (printed as a float), or a date or month of a timestamp.
   */
  datatype Cell = Str(text: string) | Num(n: int) | Ratio(num: int, den: int) | DayOf(ts: int) | MonthOf(ts: int)

  /** The cell a column shows for a chat. */
  function CellOf(col: Column, c: ChatState): Cell {
    match col
    case Id => Str(c.chatId)
    case Url => Str(c.url)
    case Date => DayOf(c.start)
    case Month => MonthOf(c.start)
    case ElapseTime => Num(ElapsedHours(c))
    case TimeToFirst => Num(TimeToFirstHours(c))
    case InteractionsTotal => Num(c.interactions + c.customerInteractions)
    case CustomerInteractions => Num(c.customerInteractions)
    case SupportInteractions => Num(c.interactions)
    case InteractionRatio => Ratio(c.interactions, c.customerInteractions)
    case WordRatio => Ratio(c.supportWords, c.customerWords)
    case UserLast => Str(BoolFormat(c.customerLastResponder))
    case Person => Str(LastAuthor(c.authors))
    case ChannelName => Str(c.channel.Name())
    case WithLink => Str(BoolFormat(c.respondedWithLink))
    case WithLinkToDoc => Str(BoolFormat(c.respondedWithDoc))
    case TotalWord => Num(c.supportWords + c.customerWords)
    case Support => Str(ChatLevel(c).Name())
  }

  /** A chat's cells, column by column. */
  function CellsInOrder(c: ChatState): seq<Cell> {
    [CellOf(Id, c), CellOf(Url, c), CellOf(Date, c), CellOf(Month, c), CellOf(ElapseTime, c),
     CellOf(TimeToFirst, c), CellOf(InteractionsTotal, c), CellOf(CustomerInteractions, c),
     CellOf(SupportInteractions, c), CellOf(InteractionRatio, c), CellOf(WordRatio, c),
     CellOf(UserLast, c), CellOf(Person, c), CellOf(ChannelName, c), CellOf(WithLink, c),
     CellOf(WithLinkToDoc, c), CellOf(TotalWord, c), CellOf(Support, c)]
  }

  lemma CellsInOrderFollowColumns(c: ChatState)
    ensures |CellsInOrder(c)| == |Columns|
    ensures forall i :: 0 <= i < |Columns| ==> CellsInOrder(c)[i] == CellOf(Columns[i], c)
  {
  }

  /** The first six cells of a chat's line: identity and time columns. */
  method BuildTimeCells(c: ChatState) returns (line: seq<Cell>)
    ensures line == CellsInOrder(c)[..6]
  {
    line := [Str(c.chatId), Str(c.url)];
    line := line + [DayOf(c.start)];
    line := line + [MonthOf(c.start)];
    line := line + [Num(ElapsedHours(c))];
    line := line + [Num(TimeToFirstHours(c))];
  }

  /** The next five cells: interaction counts and ratios. */
  method BuildCountCells(c: ChatState) returns (line: seq<Cell>)
    ensures line == CellsInOrder(c)[6..11]
  {
    line := [Num(c.interactions + c.customerInteractions)];
    line := line + [Num(c.customerInteractions)];
    line := line + [Num(c.interactions)];
    line := line + [Ratio(c.interactions, c.customerInteractions)];
    line := line + [Ratio(c.supportWords, c.customerWords)];
  }

  /** Who spoke last and who answered, and the channel. */
  method BuildPeopleCells(c: ChatState) returns (line: seq<Cell>)
    ensures line == CellsInOrder(c)[11..14]
  {
    line := [Str(BoolFormat(c.customerLastResponder))];
    line := line + [Str(LastAuthor(c.authors))];
    line := line + [Str(c.channel.Name())];
  }

  /** The link flags, total words and the support level. */
  method BuildFlagCells(c: ChatState) returns (line: seq<Cell>)
    ensures line == CellsInOrder(c)[14..]
  {
    line := [Str(BoolFormat(c.respondedWithLink))];
    line := line + [Str(BoolFormat(c.respondedWithDoc))];
    line := line + [Num(c.supportWords + c.customerWords)];
    line := line + [Str(ChatLevel(c).Name())];
  }

  /** The cells of one chat's line, appended in the order the report writes them; each sits under its own header column. */
  method BuildRow(c: ChatState) returns (line: seq<Cell>)
    ensures line == CellsInOrder(c)
  {
    var times := BuildTimeCells(c);
    var counts := BuildCountCells(c);
    var people := BuildPeopleCells(c);
    var flags := BuildFlagCells(c);
    line := times + counts + people + flags;
    assert CellsInOrder(c)[..6] + CellsInOrder(c)[6..11] + CellsInOrder(c)[11..14] + CellsInOrder(c)[14..] == CellsInOrder(c);
  }

  /** print_report_chats: one row per stored chat, in the order the chats are read, each cell under its header column. */
  method ReportRows(chats: seq<ChatState>) returns (rows: seq<seq<Cell>>)
    ensures |rows| == |chats|
    ensures forall i :: 0 <= i < |chats| ==> rows[i] == CellsInOrder(chats[i])
    ensures forall i :: 0 <= i < |chats| ==> |rows[i]| == |Columns|
    ensures forall i, j :: 0 <= i < |chats| && 0 <= j < |Columns| ==> rows[i][j] == CellOf(Columns[j], chats[i])
  {
    rows := [];
    for k := 0 to |chats|
      invariant |rows| == k
      invariant forall i :: 0 <= i < k ==> rows[i] == CellsInOrder(chats[i])
    {
      var line := BuildRow(chats[k]);
      rows := rows + [line];
    }
    forall i | 0 <= i < |chats|
      ensures |rows[i]| == |Columns|
      ensures forall j :: 0 <= j < |Columns| ==> rows[i][j] == CellOf(Columns[j], chats[i])
    {
      CellsInOrderFollowColumns(chats[i]);
    }
  }
}
