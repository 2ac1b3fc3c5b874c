/** The decisions inside three request handlers: which prompt list a
    category name selects (`getWritingPrompts`), the mood report over the
    newest entries (`analyzeMood`) and the insight list
    (`getJournalInsights`). The database reads, the clock and the HTTP
    replies are outside the model: the entries read and the current time
    are parameters. */
module Handlers {
  import opened Options
  import opened ResponseLibrary
  import opened Sentiment
  import opened Journal
  import opened Assistant

  /* ---------------------------------------------------------------- */
  /* Prompt lookup                                                    */
  /* ---------------------------------------------------------------- */

  /** The reply of `getWritingPrompts`. */
  datatype PromptsReply = PromptsReply(prompts: seq<string>, category: string, totalPrompts: nat)

  /** The properties every plain object inherits from `Object.prototype`:
      indexing the prompt table with one of these names finds a function
      (or, for `__proto__`, the prototype itself), never `undefined`. */
  const PrototypeMembers: set<string> := {
    "constructor", "toString", "toLocaleString", "valueOf", "hasOwnProperty",
    "isPrototypeOf", "propertyIsEnumerable", "__proto__", "__defineGetter__",
    "__defineSetter__", "__lookupGetter__", "__lookupSetter__"
  }

  /** What `writingPrompts[name]` evaluates to. */
  datatype Property = PromptList(prompts: seq<string>) | Inherited(name: string) | Missing

  /** Property access on the prompt table: own keys first, then the
      prototype chain. */
  function PropertyOf(name: string): (p: Property)
    ensures p.PromptList? <==> name in CategoryNames
    ensures p.Inherited? <==> name !in CategoryNames && name in PrototypeMembers
  {
    match PromptTable(name)
    case Some(prompts) => PromptList(prompts)
    case None => if name in PrototypeMembers then Inherited(name) else Missing
  }

  /** `writingPrompts[category] || writingPrompts.daily` as written: every
      property found, inherited ones included, is truthy and is kept. */
  function PromptsAsWritten(category: Option<string>): (p: Property)
    ensures !p.Missing?
    ensures p.Inherited? <==> category.GetOr("daily") in PrototypeMembers
  {
    var found := PropertyOf(category.GetOr("daily"));
    if found.Missing? then PromptList(DailyPrompts) else found
  }

  /** As written, `?category=toString` is answered with the inherited
      `toString` function instead of a list of prompts. */
  lemma PrototypeNameBypassesFallback()
    ensures PromptsAsWritten(Some("toString")) == Inherited("toString")
  {
  }

  /** `getWritingPrompts` with the own-property lookup the fallback
      evidently intends: a category the table does not hold, inherited
      names included, gets the daily prompts; the requested name (or
      "daily" when none is given) is echoed, and the count is the length
      of the list sent. */
  function GetWritingPrompts(category: Option<string>): (r: PromptsReply)
    ensures r.category == category.GetOr("daily")
    ensures r.totalPrompts == |r.prompts| == 5
    ensures r.category in CategoryNames ==> PromptTable(r.category) == Some(r.prompts)
    ensures r.category !in CategoryNames ==> r.prompts == DailyPrompts
    ensures forall p | p in r.prompts :: p in AllPrompts
  {
    var name := category.GetOr("daily");
    var prompts := PromptTable(name).GetOr(DailyPrompts);
    PromptsReply(prompts, name, |prompts|)
  }

  /** The corrected lookup differs from the written one only on the
      inherited names. */
  lemma LookupAgreesOffPrototype(category: Option<string>)
    requires category.GetOr("daily") !in PrototypeMembers
    ensures PromptsAsWritten(category) == PromptList(GetWritingPrompts(category).prompts)
  {
  }

  /* ---------------------------------------------------------------- */
  /* Mood analysis                                                    */
  /* ---------------------------------------------------------------- */

  /** The texts of the mood report; the closing emoji are left out. */
  datatype AnalysisTexts = AnalysisTexts(notEnough: string, positive: string, negative: string, balanced: string)
  {
    /** The analysis sentence for a label. */
    function For(mood: Label): string {
      match mood
      case Positive => positive
      case Negative => negative
      case Neutral => balanced
    }

    /** The three analysis sentences differ from each other. */
    predicate Distinct() {
      positive != negative && positive != balanced && negative != balanced
    }
  }

  /** The handler's own texts. */
  const Wording := AnalysisTexts(
    "I don't have enough entries to analyze your mood yet. Keep writing and I'll be able to provide insights!",
    "Your recent entries show a positive and uplifting mood! You've been expressing joy, gratitude, and optimism. This is wonderful energy to carry forward!",
    "I notice your recent entries have been more challenging. Remember that difficult emotions are part of being human, and writing about them is a healthy way to process. You're doing great!",
    "Your recent entries show a balanced and reflective mood. You seem to be in a thoughtful, contemplative space. This is a wonderful place for growth and self-discovery!")

  /** The handler's three analysis sentences are different. */
  lemma WordingDistinct()
    ensures Wording.Distinct()
  {
  }

  /** The reply of `analyzeMood`: the dates are those of the oldest and the
      newest entry, `None` where an entry has none. */
  datatype MoodReport =
    | NotEnoughEntries(message: string, sentiment: Label, entryCount: nat)
    | Analysis(analysis: string, sentiment: Label, entryCount: nat, from: Option<int>, to: Option<int>)

  /** `analyzeMood` over the entries read, newest first. */
  function AnalyzeMood(texts: AnalysisTexts, entries: seq<Entry>): (r: MoodReport)
    ensures r.NotEnoughEntries? <==> entries == []
    ensures r.NotEnoughEntries? ==> r == NotEnoughEntries(texts.notEnough, Neutral, 0)
    ensures r.Analysis? ==>
      && r.sentiment == Verdict(SumCounts(entries))
      && r.analysis == texts.For(r.sentiment)
      && r.entryCount == |entries|
      && r.from == entries[|entries| - 1].date
      && r.to == entries[0].date
  {
    if |entries| == 0 then NotEnoughEntries(texts.notEnough, Neutral, 0)
    else
      var sentiment := SentimentOf(CombinedText(entries));
      CombinedCounts(entries);
      Analysis(texts.For(sentiment), sentiment, |entries|, entries[|entries| - 1].date, entries[0].date)
  }

  /** With distinct sentences, and so with the handler's own `Wording`, the
      sentence a report sends names its label: it is the sentence of that
      label and of no other. */
  lemma ReportNamesLabel(texts: AnalysisTexts, entries: seq<Entry>, mood: Label)
    requires texts.Distinct() && entries != []
    ensures AnalyzeMood(texts, entries).analysis == texts.For(mood) <==> mood == AnalyzeMood(texts, entries).sentiment
  {
  }

  /** The label of the report does not depend on the order of the entries
      (only the date range does). */
  lemma AnalysisOrderIrrelevant(texts: AnalysisTexts, u: seq<Entry>, v: seq<Entry>)
    requires multiset(u) == multiset(v)
    ensures AnalyzeMood(texts, u).sentiment == AnalyzeMood(texts, v).sentiment
  {
    SumByPermutation(EntryCounts, u, v);
  }

  /** Over the same five or fewer entries, the chat's mood reply and the
      mood report agree on the label. */
  lemma ChatAgreesWithReport(book: ReplyBook, replies: ReplyTexts, texts: AnalysisTexts,
                             message: string, entries: seq<Entry>, d: Draws)
    requires book.Valid() && IntentOf(message) == MoodCheck
    requires 0 < |entries| <= 5
    ensures Reply(book, replies, message, entries, d) == replies.MoodReply(AnalyzeMood(texts, entries).sentiment)
  {
    assert Recent(entries) == entries;
  }

  /* ---------------------------------------------------------------- */
  /* Insights                                                         */
  /* ---------------------------------------------------------------- */

  /** The three insights, in the order they are pushed. */
  datatype Insight = Habit | DeepThinker | Active

  function InsightRank(i: Insight): nat {
    match i
    case Habit => 0
    case DeepThinker => 1
    case Active => 2
  }

  /** The sentences the insights are sent as; the closing emoji are left
      out. */
  const HabitSentence: string :=
    "You're building a wonderful journaling habit! Your consistency shows dedication to self-reflection and growth."
  const DeepThinkerSentence: string :=
    "You're a deep thinker! Your detailed entries show thoughtful reflection and self-awareness."
  const ActiveSentence: string :=
    "You're actively engaging with your thoughts! Your recent entries show you're prioritizing self-reflection."

  /** The sentence each insight is sent as. */
  function InsightText(i: Insight): string {
    match i
    case Habit => HabitSentence
    case DeepThinker => DeepThinkerSentence
    case Active => ActiveSentence
  }

  /** Different insights are sent as different sentences. */
  lemma InsightTextInjective(i: Insight, j: Insight)
    requires i != j
    ensures InsightText(i) != InsightText(j)
  {
    assert HabitSentence != DeepThinkerSentence;
    assert HabitSentence != ActiveSentence;
    assert DeepThinkerSentence != ActiveSentence;
  }

  /** The message sent with the `Welcome` reply. */
  const WelcomeMessage: string :=
    "Welcome to your journaling journey! Start writing your first entry and I'll provide insights as you grow!"

  /** The reply of `getJournalInsights`; `Failed` is the 500 reply the
      handler sends when reading a property of a missing value throws. */
  datatype InsightsReply =
    | Welcome
    | Report(totalEntries: nat, insights: seq<Insight>, lastEntryDate: Option<int>, daysSinceLastEntry: Option<int>)
    | Failed

  /** The message sent with the `Failed` reply. */
  const FailureMessage: string := "Failed to get journal insights"

  /** The strings a reply sends: the welcome or the failure message, or the
      sentence of each insight in push order. */
  function SentTexts(r: InsightsReply): (texts: seq<string>)
    ensures r.Welcome? ==> texts == [WelcomeMessage]
    ensures r.Failed? ==> texts == [FailureMessage]
    ensures r.Report? ==> |texts| == |r.insights|
    ensures r.Report? ==> forall k | 0 <= k < |r.insights| :: texts[k] == InsightText(r.insights[k])
  {
    match r
    case Welcome => [WelcomeMessage]
    case Report(_, insights, _, _) =>
      seq(|insights|, k requires 0 <= k < |insights| => InsightText(insights[k]))
    case Failed => [FailureMessage]
  }

  /** The sentences a report sends determine its insights. */
  lemma SentTextsDetermineInsights(a: InsightsReply, b: InsightsReply)
    requires a.Report? && b.Report?
    requires SentTexts(a) == SentTexts(b)
    ensures a.insights == b.insights
  {
    forall k | 0 <= k < |a.insights|
      ensures a.insights[k] == b.insights[k]
    {
      if a.insights[k] != b.insights[k] {
        InsightTextInjective(a.insights[k], b.insights[k]);
      }
    }
  }

  const MsPerDay: int := 1000 * 60 * 60 * 24

  /** `Math.floor((now - date) / MsPerDay)`; an entry without a date gives
      NaN, here `None`. */
  function DaysSince(now: int, date: Option<int>): (days: Option<int>)
    ensures days.Some? <==> date.Some?
    ensures days.Some? ==>
      days.value * MsPerDay <= now - date.value < (days.value + 1) * MsPerDay
  {
    match date
    case Some(d) => Some((now - d) / MsPerDay)
    case None => None
  }

  /** Whole days since a date are at most one exactly when less than two
      days (48 hours) have passed, a date in the future included; an entry
      without a date never counts as recent. */
  lemma ActiveWindow(now: int, date: Option<int>)
    ensures (DaysSince(now, date).Some? && DaysSince(now, date).value <= 1)
            <==> date.Some? && now - date.value < 2 * MsPerDay
  {
    if date.Some? {
      var x := now - date.value;
      assert x == MsPerDay * (x / MsPerDay) + x % MsPerDay;
    }
  }

  /** The total content length of the entries, `None` as soon as one
      entry has no content (reading its `length` throws). */
  function ContentTotal(entries: seq<Entry>): (total: Option<nat>)
    ensures total.None? <==> exists k | 0 <= k < |entries| :: entries[k].content.None?
  {
    if entries == [] then Some(0)
    else
      var last := entries[|entries| - 1];
      match ContentTotal(entries[..|entries| - 1])
      case None => None
      case Some(sum) => if last.content.None? then None else Some(sum + |last.content.value|)
  }

  /** Scaling by a positive factor keeps a strict order. */
  lemma ScaleStrict(x: real, y: real, c: real)
    requires c > 0.0
    ensures x < y <==> x * c < y * c
  {
    assert y * c - x * c == (y - x) * c;
  }

  /** A quotient by a positive divisor exceeds `b` iff the dividend
      exceeds `b` times the divisor. */
  lemma QuotientAbove(x: real, c: real, b: real)
    requires c > 0.0
    ensures x / c > b <==> x > b * c
  {
    var q := x / c;
    assert q * c == x;
    ScaleStrict(b, q, c);
  }

  /** `sum / n > 200` on real numbers, for a sample of `n` entries. */
  lemma AverageAbove(sum: nat, n: nat)
    requires n > 0
    ensures sum as real / n as real > 200.0 <==> sum > 200 * n
  {
    QuotientAbove(sum as real, n as real, 200.0);
    assert (200 * n) as real == 200.0 * n as real;
  }

  /** The insights are pushed in their fixed order. */
  predicate InOrder(insights: seq<Insight>) {
    forall i, j | 0 <= i < j < |insights| :: InsightRank(insights[i]) < InsightRank(insights[j])
  }

  /** The insights whose conditions hold, in push order. */
  function Pushed(habit: bool, deepThinker: bool, active: bool): (insights: seq<Insight>)
    ensures InOrder(insights) && |insights| <= 3
    ensures Habit in insights <==> habit
    ensures DeepThinker in insights <==> deepThinker
    ensures Active in insights <==> active
  {
    (if habit then [Habit] else [])
    + (if deepThinker then [DeepThinker] else [])
    + (if active then [Active] else [])
  }

  /** The insights reply for `total` entries in all and the newest ones
      read, at time `now` (milliseconds). */
  function InsightsFor(total: nat, recent: seq<Entry>, now: int): (r: InsightsReply)
    ensures r.Welcome? <==> total == 0
    ensures r.Failed? <==> total > 0 && (recent == [] || exists k | 0 <= k < |recent| :: recent[k].content.None?)
  {
    if total == 0 then Welcome
    else if recent == [] || ContentTotal(recent).None? then Failed
    else
      var sum := ContentTotal(recent).value;
      var days := DaysSince(now, recent[0].date);
      Report(total, Pushed(total >= 5, sum > 200 * |recent|, days.Some? && days.value <= 1), recent[0].date, days)
  }

  /** The report echoes the total and the newest entry's date; it holds at
      most the three insights, in push order, each exactly when its
      condition holds: five entries or more in all, more than 200
      characters of content per sampled entry on average, and the newest
      entry dated less than 48 hours before `now`. */
  lemma InsightRules(total: nat, recent: seq<Entry>, now: int)
    requires InsightsFor(total, recent, now).Report?
    ensures var r := InsightsFor(total, recent, now);
      && r.totalEntries == total
      && r.lastEntryDate == recent[0].date
      && r.daysSinceLastEntry == DaysSince(now, recent[0].date)
      && InOrder(r.insights) && |r.insights| <= 3
      && (Habit in r.insights <==> total >= 5)
      && (DeepThinker in r.insights <==> ContentTotal(recent).value > 200 * |recent|)
      && (Active in r.insights <==> recent[0].date.Some? && now - recent[0].date.value < 2 * MsPerDay)
  {
    ActiveWindow(now, recent[0].date);
  }

  /** The entry schema stores no date, so as written every entry read is
      undated: the recency insight then never appears, whatever `now` is. */
  lemma UndatedNeverActive(total: nat, recent: seq<Entry>, now: int)
    requires forall k | 0 <= k < |recent| :: recent[k].date.None?
    ensures InsightsFor(total, recent, now).Report? ==>
      && Active !in InsightsFor(total, recent, now).insights
      && InsightsFor(total, recent, now).daysSinceLastEntry.None?
  {
    if InsightsFor(total, recent, now).Report? {
      InsightRules(total, recent, now);
    }
  }

  /** With a readable sample, the reply is the report over the insights
      whose conditions hold. */
  lemma ReportFor(total: nat, recent: seq<Entry>, now: int, sum: nat)
    requires total > 0 && recent != [] && ContentTotal(recent) == Some(sum)
    ensures InsightsFor(total, recent, now) ==
      Report(total, Pushed(total >= 5, sum > 200 * |recent|,
                           DaysSince(now, recent[0].date).Some? && DaysSince(now, recent[0].date).value <= 1),
             recent[0].date, DaysSince(now, recent[0].date))
  {
  }

  /** `getJournalInsights`: the habit insight is pushed first, the content
      lengths are summed, and the other two insights follow. */
  method GetJournalInsights(total: nat, recent: seq<Entry>, now: int) returns (r: InsightsReply)
    ensures r == InsightsFor(total, recent, now)
  {
    if total == 0 {
      return Welcome;
    }
    var insights: seq<Insight> := [];
    if total >= 5 {
      insights := insights + [Habit];
    }
    assert insights == Pushed(total >= 5, false, false);
    var sum := 0;
    var i := 0;
    while i < |recent|
      invariant 0 <= i <= |recent|
      invariant ContentTotal(recent[..i]) == Some(sum)
    {
      assert recent[..i + 1][..i] == recent[..i];
      if recent[i].content.None? {
        return Failed;
      }
      sum := sum + |recent[i].content.value|;
      i := i + 1;
    }
    assert recent[..i] == recent;
    if |recent| > 0 {
      AverageAbove(sum, |recent|);
    }
    var deepThinker := |recent| > 0 && sum as real / |recent| as real > 200.0;
    if deepThinker {
      insights := insights + [DeepThinker];
    }
    assert insights == Pushed(total >= 5, deepThinker, false);
    if recent == [] {
      return Failed;
    }
    var last := recent[0];
    var days := DaysSince(now, last.date);
    var active := days.Some? && days.value <= 1;
    if active {
      insights := insights + [Active];
    }
    assert insights == Pushed(total >= 5, deepThinker, active);
    ReportFor(total, recent, now, sum);
    return Report(total, insights, last.date, days);
  }
}
