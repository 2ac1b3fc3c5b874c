# Journal assistant: a Dafny model

This project models the rule-based "AI" assistant of a journaling web app.
The assistant lives in `server/controllers/aiController.js`. It has five
parts:

- **Static tables.** Four categories of five writing prompts each, three
  sets of mood keywords, and lists of reply templates.
- **A keyword sentiment classifier** (`analyzeSentiment`). It lower-cases a
  text, splits it on white space, counts exact keyword hits and compares
  the positive and negative counts.
- **A chat reply** (`generateContextualResponse`). It checks the
  lower-cased message against five trigger lists in a fixed order; the
  first list that matches picks the kind of reply.
- **Three request handlers.** `getWritingPrompts` looks up a prompt
  category with a fallback. `analyzeMood` reports the label of the newest
  entries. `getJournalInsights` pushes up to three insights.
- **Randomness, clock and database are parameters.** Randomness is a
  `Draw`, a real in [0, 1) standing for `Math.random()`. The current time
  is `now`, in milliseconds. The entries read from the database are a
  sequence, newest first.

Modules:

- `Options`: the optional value; JavaScript's `undefined` and `x || d`.
- `Text`: `toLowerCase`, `includes`, `split(/\s+/)` and `join`.
  - `Split` is an index-based scanner parameterised by the separator set.
  - The central facts:
    - the pieces, with the dropped runs of white space put back between
      them, rebuild the text;
    - splitting words joined by single spaces returns them;
    - splitting two texts glued by a space yields the non-empty tokens of
      each, in order.
- `ResponseLibrary`: the tables, and `Pick` (`getRandomResponse`).
- `Sentiment`:
  - the imperative classifier `AnalyzeSentiment`, a loop over tokens with
    three counters;
  - its specification `Tally` / `Verdict` / `SentimentOf`;
  - lemmas on exact token matching, case and concatenation.
- `Journal`:
  - an `Entry` (optional title, content and date);
  - how the assistant renders several entries: `${title} ${content}`,
    joined by spaces;
  - the fact that the label of the joined text is the verdict on the
    summed per-entry counts, so entry order never matters.
- `Assistant`:
  - `IntentOf`, the first-match-wins cascade;
  - `Reply`, the chat reply. It is stated for any well-formed table book
    (`ReplyBook`) and wording (`ReplyTexts`). The assistant's own are
    `Book` and `Texts`. The lemmas `BookPromptReply` and
    `BookReachesEveryPrompt` apply `Reply` to `Book`, for any wording:
    a prompt reply holds one of the twenty prompts, and each of them can
    be the reply.
- `Handlers`:
  - the prompt lookup, as written and corrected;
  - `AnalyzeMood`, stated for any wording; `WordingDistinct` shows that
    the handler's own `Wording` has three different sentences, so by
    `ReportNamesLabel` its reply's sentence names the label;
  - `GetJournalInsights`, an imperative method, proved against
    `InsightsFor`.

## Model

| member | source | states |
|---|---|---|
| `Text.LowerChar` | server/controllers/aiController.js:69 | an upper-case ASCII letter becomes the lower-case letter at the same place in the alphabet; every other character is kept |
| `Text.Lower` | server/controllers/aiController.js:69 | lower-casing folds each character on its own, keeps the length and the white space, and leaves no upper-case letter |
| `Text.Contains` | server/controllers/aiController.js:95 | `includes`: a prefix (the empty pattern included) is found, a pattern longer than the text never is |
| `Text.ContainsIffOccurs` | server/controllers/aiController.js:95 | `includes` holds exactly when the pattern occurs at some position |
| `Text.Split` | server/controllers/aiController.js:69 | `split(/\s+/)` yields at least one piece, and no piece holds white space |
| `Text.SplitPieces` | server/controllers/aiController.js:69 | `split(/\s+/)` pieces hold no white space; inner pieces are non-empty; the first is empty iff the text is empty or starts with white space |
| `Text.SplitRebuilds` | server/controllers/aiController.js:69 | putting the dropped white-space runs back between the pieces rebuilds the text; each run is non-empty white space; the last piece is empty iff the text is empty or ends with white space |
| `Text.Join` | server/controllers/aiController.js:106 | `join`: no parts give "", one part gives itself, and more parts start with the first part and the separator |
| `Text.SplitJoin` | server/controllers/aiController.js:69 | splitting non-empty, space-free words joined by single spaces gives the words back |
| `Text.SplitGlue` | server/controllers/aiController.js:106 | the non-empty tokens of `a + " " + b` are those of `a` followed by those of `b` |
| `Text.NonEmptyAppend` | server/controllers/aiController.js:69 | dropping empty tokens distributes over concatenation |
| `ResponseLibrary.PromptTable` | server/controllers/aiController.js:5-34 | a name has a list iff it is one of the four own keys; each list has five prompts from the twenty; "daily" gives the daily list |
| `ResponseLibrary.PickIndex` | server/controllers/aiController.js:87 | `Math.floor(r * n)` is a valid index for any draw |
| `ResponseLibrary.Pick` | server/controllers/aiController.js:86-88 | `getRandomResponse` returns an element of its non-empty table |
| `ResponseLibrary.PickReachesEvery` | server/controllers/aiController.js:86-88 | every entry of a table is returned for the draw k/n |
| `ResponseLibrary.PickIndexInterval` | server/controllers/aiController.js:87 | the draws selecting index k are exactly those in [k/n, (k+1)/n) |
| `Sentiment.Classify` | server/controllers/aiController.js:75-77 | the first of the positive, negative and neutral tables that holds the token decides its hit; a token in none is no hit |
| `Sentiment.Tally` | server/controllers/aiController.js:74-78 | each token increments at most one counter |
| `Sentiment.AnalyzeSentiment` | server/controllers/aiController.js:68-83 | the counter loop returns the verdict on the tally of the lower-cased, split text |
| `Sentiment.Verdict` | server/controllers/aiController.js:80-82 | positive iff more positive hits, negative iff more negative hits, neutral iff the counts are equal; the neutral count takes no part |
| `Sentiment.SentimentOf` | server/controllers/aiController.js:68-83 | the label of a text is positive, negative or neutral as its positive keyword hits exceed, fall short of or tie with its negative ones (no hits included) |
| `Sentiment.ShoutedKeyword` | server/controllers/aiController.js:69-75 | "HAPPY" is lower-cased before matching and counts as one positive hit |
| `Sentiment.ExactTokenMatch` | server/controllers/aiController.js:75-77 | tokens match exactly: "happy" counts; "happy!", "Happy" and the empty token do not |
| `Sentiment.TallyAppend` | server/controllers/aiController.js:74-78 | the counts of two token sequences add up |
| `Sentiment.TallyNonEmpty` | server/controllers/aiController.js:69-78 | empty tokens from leading or trailing white space count nothing |
| `Sentiment.MoodCountsAppend` | server/controllers/aiController.js:68-78 | the counts of two texts glued by a space are the sums of their counts |
| `Sentiment.NonPolarTokenIrrelevant` | server/controllers/aiController.js:77-82 | a token that is neither positive nor negative, neutral keywords included, never changes the label |
| `Sentiment.CaseInsensitive` | server/controllers/aiController.js:69 | lower-casing the input first does not change the label |
| `Sentiment.HappyButTired` | server/controllers/aiController.js:68-83 | "happy but tired" has one positive and one negative hit and is neutral |
| `Journal.CombinedText` | server/controllers/aiController.js:106 | no entries give "", one entry gives its rendering, more start with the first rendering and a space |
| `Journal.EntryTexts` | server/controllers/aiController.js:106 | one rendering per entry, in order; an entry is rendered by `EntryText` as its title, a space and its content, each field through `Show` ("undefined" when missing) |
| `Journal.EntryTextCounts` | server/controllers/aiController.js:106 | an entry's rendering counts its title plus its content ("undefined" for a missing field) |
| `Journal.CombinedCounts` | server/controllers/aiController.js:106-107 | the counts of the joined renderings are the sum of the per-entry counts |
| `Journal.SumByPermutation` | server/controllers/aiController.js:106-107 | summing per-entry counts does not depend on entry order |
| `Journal.EntryOrderIrrelevant` | server/controllers/aiController.js:106-107 | entries with the same multiset get the same label |
| `Assistant.MentionsAny` | server/controllers/aiController.js:95 | the `\|\|` chain of `includes` holds iff the text includes one of the triggers |
| `Assistant.MentionsAnyIff` | server/controllers/aiController.js:95 | the `includes` chain holds iff some trigger occurs somewhere in the text |
| `Assistant.IntentOf` | server/controllers/aiController.js:92-134 | the chosen branch fires and no earlier branch does; the fallback only when none fires |
| `Assistant.FirstMatchWins` | server/controllers/aiController.js:92-134 | a branch that fires with no earlier branch firing is the branch taken |
| `Assistant.PromptBeatsMood` | server/controllers/aiController.js:95-103 | a message naming "prompt" takes the prompt branch even if it also names its mood |
| `Assistant.ThinkIsGreeting` | server/controllers/aiController.js:129 | "think" holds "hi" and is answered as a greeting |
| `Assistant.Recent` | server/controllers/aiController.js:105 | `slice(0, 5)` is a prefix of at most five entries |
| `Assistant.Reply` | server/controllers/aiController.js:91-135 | the shape of each branch's reply (listed below the table) |
| `Assistant.BookValid` | server/controllers/aiController.js:5-65 | every table the assistant draws from is non-empty |
| `Assistant.BookCategories` | server/controllers/aiController.js:5-34 | the category lists, in key order, are the lookup table's entries and hold exactly the twenty prompts |
| `Assistant.PromptReachesEvery` | server/controllers/aiController.js:96-100 | each prompt of each category is the reply for the draws (c/4, k/5) |
| `Assistant.BookHoldsEveryPrompt` | server/controllers/aiController.js:5-34 | each of the twenty prompts sits in one of the assistant's categories |
| `Assistant.BookPromptReply` | server/controllers/aiController.js:95-100 | over the assistant's own tables, a prompt reply holds one of the twenty prompts |
| `Assistant.BookReachesEveryPrompt` | server/controllers/aiController.js:95-100 | over the assistant's own tables, every one of the twenty prompts is the prompt reply for some draws |
| `Assistant.LaterEntriesIgnored` | server/controllers/aiController.js:105 | entries after the fifth never change the reply |
| `Assistant.RecentOrderIgnored` | server/controllers/aiController.js:104-108 | reordering the five newest entries never changes the reply |
| `Handlers.PropertyOf` | server/controllers/aiController.js:179 | indexing the prompt table finds a list iff the name is an own key, an inherited member iff it names one of `Object.prototype` |
| `Handlers.PromptsAsWritten` | server/controllers/aiController.js:179 | as written, the fallback never yields undefined, and an inherited member is kept instead of the daily list |
| `Handlers.PrototypeNameBypassesFallback` | server/controllers/aiController.js:179 | as written, `category=toString` gets the inherited function, not prompts |
| `Handlers.GetWritingPrompts` | server/controllers/aiController.js:176-185 | the lookup as corrected (see Findings): the requested name, or "daily", is echoed; any name that is not a category, inherited names included, gets the daily list; the count is the list's length (5) |
| `Handlers.LookupAgreesOffPrototype` | server/controllers/aiController.js:179 | the corrected lookup agrees with the written one on every name that is not inherited |
| `Handlers.AnalyzeMood` | server/controllers/aiController.js:204-231 | see below the table |
| `Handlers.WordingDistinct` | server/controllers/aiController.js:215-222 | the handler's positive, negative and balanced sentences are three different texts |
| `Handlers.ReportNamesLabel` | server/controllers/aiController.js:215-229 | with three different sentences, the handler's own included, the sentence a report sends is the one for its label and for no other |
| `Handlers.AnalysisOrderIrrelevant` | server/controllers/aiController.js:212-213 | the label of the mood report does not depend on entry order |
| `Handlers.ChatAgreesWithReport` | server/controllers/aiController.js:103-118 | over the same one to five entries, the chat's mood reply and the mood report agree on the label |
| `Handlers.DaysSince` | server/controllers/aiController.js:274 | `Math.floor` of the elapsed days: the whole number `d` with `d` days at most the elapsed time and `d + 1` days more; no date gives no number |
| `Handlers.ActiveWindow` | server/controllers/aiController.js:274-275 | whole days since a date are at most one iff less than 48 hours have passed; an undated entry is never recent |
| `Handlers.ContentTotal` | server/controllers/aiController.js:267 | the length sum fails exactly when some sampled entry has no content |
| `Handlers.AverageAbove` | server/controllers/aiController.js:267-268 | the average `sum / n > 200` on reals iff `sum > 200 * n` |
| `Handlers.Pushed` | server/controllers/aiController.js:259-276 | the pushed insights are in fixed order, at most three, each present iff its condition holds |
| `Handlers.SentTexts` | server/controllers/aiController.js:252-289 | a welcome reply sends the welcome message and a failed reply the failure message; a report sends, at each position, the sentence of the insight at that position |
| `Handlers.InsightTextInjective` | server/controllers/aiController.js:263-276 | the three insights are pushed as three different sentences |
| `Handlers.SentTextsDetermineInsights` | server/controllers/aiController.js:259-280 | the sentences a report sends determine its insights |
| `Handlers.InsightsFor` | server/controllers/aiController.js:251-283 | welcome iff no entries; a 500 reply iff entries exist but the sample is empty or has an entry without content |
| `Handlers.InsightRules` | server/controllers/aiController.js:259-283 | see below the table |
| `Handlers.UndatedNeverActive` | server/controllers/aiController.js:273-276 | with undated entries the recency insight never appears and the day count is absent |
| `Handlers.GetJournalInsights` | server/controllers/aiController.js:251-283 | the push-and-reduce handler returns exactly `InsightsFor` |

`Assistant.Reply`, branch by branch:

- the prompt branch is the intro, a prompt from some category, then the outro;
- the mood branch with no entries is the fixed sentence;
- otherwise the mood branch is the sentence `MoodReply` picks for the verdict on the summed counts of the five newest entries (positive, negative, or balanced for a tie, as at :109-115);
- gratitude is a gratitude prompt plus its outro;
- help is the fixed text;
- a greeting is a member of the greetings;
- the fallback is an encouragement plus its outro.

`Handlers.AnalyzeMood`:

- with no entries the reply is the "not enough entries" message, neutral, with count 0, and only then;
- otherwise the label is the verdict on all entries' summed counts;
- the sentence is the one `AnalysisTexts.For` picks for that label (positive, negative, or balanced for a tie, as at :216-222);
- the count is the number of entries;
- the date range runs from the last entry's date to the first's.

`Handlers.InsightRules`: the report

- echoes the total, the newest entry's date and its day count;
- holds at most three insights, in push order;
- includes the habit insight iff there are at least 5 entries;
- includes the deep-thinker insight iff there are more than 200 characters per sampled entry on average;
- includes the active insight iff the newest entry is dated less than 48 hours before `now`.

## Left out

- HTTP and everything around it is not modelled:
  - request validation, the `res.json` replies and the `timestamp` field;
  - the try/catch paths, except where a thrown TypeError decides the reply (the `Failed` insights reply);
  - routing, authentication and the client.
- The database queries are inputs: `countDocuments`, `find`, `sort`, `limit` and `select`. The caller passes the entries read, newest first. The limits of 5 and 10 belong to the queries, so the model takes any number of entries.
- `Math.random()` and `new Date()` are inputs: a `Draw` per random call, and `now`.
- Text.Lower: folds ASCII letters only, not the full Unicode case mapping of `toLowerCase`.
- Handlers.ContentTotal: counts Unicode characters, whereas JavaScript's `length` counts UTF-16 code units.
- ResponseLibrary.PickIndex: uses exact real arithmetic, not floating point.
- Handlers.AverageAbove: uses exact real arithmetic, not floating point.
- The emoji that end most template texts are left out of the texts.
- The template lists `writingHelp` and `moodSupport` are declared (`WritingHelp`, `MoodSupport`) but no reply uses them.
- The chat's literal texts are data only. No lemma unfolds `Texts`, so, for instance, that a prompt reply begins `Here's a writing prompt for you: "` holds only by reading `Texts`. The reply properties are proved for any wording, and the lemmas about the tables cover `Book`. Of the handlers' texts, only the distinctness of the three analysis sentences (`WordingDistinct`) and of the three insight sentences (`InsightTextInjective`) is proved; the content of `WelcomeMessage` and `FailureMessage` is data only.
- A query value that is not a string (an array from a repeated `category` parameter) is not modelled. The category is `Option<string>`.
- Handlers.PromptsAsWritten: inherited members are told apart only by name. What JSON makes of the function or object found is not modelled.
- The order in which the database returns undated entries (`sort({ date: -1 })` on a field the schema lacks) is not modelled. The input order is taken as given.

## Findings

| source | as written | input that shows it | evidently intended | confidence | as-written member | corrected member |
|---|---|---|---|---|---|---|
| server/controllers/aiController.js:179 | `writingPrompts[category]` also finds members inherited from `Object.prototype`; they are truthy, so `\|\| writingPrompts.daily` is skipped | `GET /api/ai/prompts?category=toString` gets the `toString` function (no prompts, `totalPrompts` 0) | any name that is not a category gets the daily prompts | high; not executed | `Handlers.PrototypeNameBypassesFallback` | `Handlers.GetWritingPrompts` |
| server/models/Entry.js:3-8 | the schema has no `date` field, so the `date` that `analyzeMood` and `getJournalInsights` read is always undefined | any user with entries: `daysSinceLastEntry` is NaN and the active insight never appears | entries carry their date; the active insight appears within 48 hours of the last entry | medium; not executed | `Handlers.UndatedNeverActive` | `Handlers.InsightRules` |
