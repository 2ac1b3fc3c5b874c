/** The chat reply (`generateContextualResponse`): the lower-cased message
    is checked against five trigger lists in a fixed order, the first list
    with a trigger occurring in it decides the kind of reply, and the reply
    is drawn from the tables. The random draws are parameters. */
module Assistant {
  import opened Options
  import opened Text
  import opened ResponseLibrary
  import opened Sentiment
  import opened Journal

  /** The branches of the reply, in the order they are tried. */
  datatype Intent = PromptRequest | MoodCheck | GratitudeTalk | HelpRequest | Greeting | SmallTalk

  const PromptTriggers: seq<string> := ["prompt", "write about", "what should i write"]
  const MoodTriggers: seq<string> := ["mood", "feel", "emotion"]
  const GratitudeTriggers: seq<string> := ["gratitude", "thankful", "blessed"]
  const HelpTriggers: seq<string> := ["help", "assist", "support"]
  const GreetingTriggers: seq<string> := ["hello", "hi", "hey"]

  /** The substrings that select each branch; the last branch has none. */
  function Triggers(i: Intent): seq<string> {
    match i
    case PromptRequest => PromptTriggers
    case MoodCheck => MoodTriggers
    case GratitudeTalk => GratitudeTriggers
    case HelpRequest => HelpTriggers
    case Greeting => GreetingTriggers
    case SmallTalk => []
  }

  /** The position of a branch in the order of the checks. */
  function Rank(i: Intent): nat {
    match i
    case PromptRequest => 0
    case MoodCheck => 1
    case GratitudeTalk => 2
    case HelpRequest => 3
    case Greeting => 4
    case SmallTalk => 5
  }

  /** `text.includes(t0) || text.includes(t1) || ...`. */
  function MentionsAny(text: string, triggers: seq<string>): (r: bool)
    ensures forall k | 0 <= k < |triggers| :: Contains(text, triggers[k]) ==> r
    ensures r ==> exists k | 0 <= k < |triggers| :: Contains(text, triggers[k])
  {
    if triggers == [] then false
    else
      assert forall k | 0 < k < |triggers| :: triggers[1..][k - 1] == triggers[k];
      Contains(text, triggers[0]) || MentionsAny(text, triggers[1..])
  }

  /** `MentionsAny` holds exactly when one of the triggers occurs in the
      text at some position. */
  lemma {:induction false} MentionsAnyIff(text: string, triggers: seq<string>)
    ensures MentionsAny(text, triggers) <==>
      exists k, i: nat | 0 <= k < |triggers| :: OccursAt(text, triggers[k], i)
  {
    if triggers != [] {
      ContainsIffOccurs(text, triggers[0]);
      MentionsAnyIff(text, triggers[1..]);
      if exists k, i: nat | 0 <= k < |triggers| :: OccursAt(text, triggers[k], i) {
        var k, i: nat :| 0 <= k < |triggers| && OccursAt(text, triggers[k], i);
        if k > 0 {
          assert OccursAt(text, triggers[1..][k - 1], i);
        }
      }
      forall k, i: nat | 0 <= k < |triggers[1..]| && OccursAt(text, triggers[1..][k], i)
        ensures OccursAt(text, triggers[k + 1], i)
      {
      }
    }
  }

  /** No trigger occurring, no mention. */
  lemma {:induction false} NoneMentioned(text: string, triggers: seq<string>)
    requires forall k | 0 <= k < |triggers| :: !Contains(text, triggers[k])
    ensures !MentionsAny(text, triggers)
  {
    if triggers != [] {
      NoneMentioned(text, triggers[1..]);
    }
  }

  /** Branch `i` has a trigger occurring in the lower-cased message. */
  predicate Fires(message: string, i: Intent) {
    MentionsAny(Lower(message), Triggers(i))
  }

  /** The branch the message takes: the first one, in check order, that
      fires; the last branch when none does. */
  function IntentOf(message: string): (i: Intent)
    ensures i != SmallTalk ==> Fires(message, i)
    ensures forall j: Intent :: Rank(j) < Rank(i) ==> !Fires(message, j)
    ensures i == SmallTalk ==> forall j: Intent :: !Fires(message, j)
  {
    if Fires(message, PromptRequest) then PromptRequest
    else if Fires(message, MoodCheck) then MoodCheck
    else if Fires(message, GratitudeTalk) then GratitudeTalk
    else if Fires(message, HelpRequest) then HelpRequest
    else if Fires(message, Greeting) then Greeting
    else SmallTalk
  }

  /** First match wins: a branch that fires while no earlier one does is
      the branch taken, whatever later branches would say. */
  lemma FirstMatchWins(message: string, i: Intent)
    requires i != SmallTalk && Fires(message, i)
    requires forall j: Intent :: Rank(j) < Rank(i) ==> !Fires(message, j)
    ensures IntentOf(message) == i
  {
    var r := IntentOf(message);
    assert Rank(r) == Rank(i);
  }

  /** A message naming "prompt" takes the prompt branch even when it also
      speaks of its mood. */
  lemma PromptBeatsMood(message: string)
    requires Contains(Lower(message), "prompt")
    ensures IntentOf(message) == PromptRequest
  {
  }

  /** "think" holds none of the triggers of the first four branches: each
      of them has a letter that "think" lacks. */
  lemma ThinkNoPrompt()
    ensures !MentionsAny("think", PromptTriggers)
  {
    AbsentChar("think", "prompt", 0);
    AbsentChar("think", "write about", 0);
    AbsentChar("think", "what should i write", 0);
    NoneMentioned("think", PromptTriggers);
  }

  lemma ThinkNoMood()
    ensures !MentionsAny("think", MoodTriggers)
  {
    AbsentChar("think", "mood", 0);
    AbsentChar("think", "feel", 0);
    AbsentChar("think", "emotion", 0);
    NoneMentioned("think", MoodTriggers);
  }

  lemma ThinkNoGratitude()
    ensures !MentionsAny("think", GratitudeTriggers)
  {
    AbsentChar("think", "gratitude", 0);
    AbsentChar("think", "thankful", 2);
    AbsentChar("think", "blessed", 0);
    NoneMentioned("think", GratitudeTriggers);
  }

  lemma ThinkNoHelp()
    ensures !MentionsAny("think", HelpTriggers)
  {
    AbsentChar("think", "help", 1);
    AbsentChar("think", "assist", 0);
    AbsentChar("think", "support", 0);
    NoneMentioned("think", HelpTriggers);
  }

  /** The checks look for substrings, not words: "think" holds "hi" and
      so reads as a greeting. */
  lemma ThinkIsGreeting()
    ensures IntentOf("think") == Greeting
  {
    LowerNoUpper("think");
    ThinkNoPrompt();
    ThinkNoMood();
    ThinkNoGratitude();
    ThinkNoHelp();
    OccursContains("think", "hi", 1);
    assert MentionsAny("think", GreetingTriggers);
  }

  /** The fixed texts of the replies; the emoji that close several of them
      are left out. */
  datatype ReplyTexts = ReplyTexts(
    promptIntro: string,
    promptOutro: string,
    moodNoEntries: string,
    moodPositive: string,
    moodNegative: string,
    moodBalanced: string,
    gratitudeOutro: string,
    help: string,
    smallTalkOutro: string)
  {
    /** The prompt reply around one prompt. */
    function PromptReply(prompt: string): string {
      promptIntro + prompt + promptOutro
    }

    /** The mood reply for a label. */
    function MoodReply(mood: Label): string {
      match mood
      case Positive => moodPositive
      case Negative => moodNegative
      case Neutral => moodBalanced
    }
  }

  /** The tables a reply draws from: the prompt lists of the categories,
      in key order, the gratitude prompts, the greetings and the
      encouragements. */
  datatype ReplyBook = ReplyBook(
    categories: seq<seq<string>>,
    gratitude: seq<string>,
    greetings: seq<string>,
    encouragement: seq<string>)
  {
    /** Every table a draw picks from is nonempty. */
    predicate Valid() {
      && |categories| > 0
      && (forall c | 0 <= c < |categories| :: |categories[c]| > 0)
      && |gratitude| > 0 && |greetings| > 0 && |encouragement| > 0
    }
  }

  /** The assistant's own texts. */
  const Texts := ReplyTexts(
    "Here's a writing prompt for you: \"",
    "\"\n\nThis prompt is designed to help you explore your thoughts and feelings. Take your time with it and let your thoughts flow naturally!",
    "I'd love to help you analyze your mood! As you write more entries, I'll be able to provide insights about your emotional patterns and growth. For now, how are you feeling today?",
    "Based on your recent entries, I can see you've been in a positive and uplifting mood! Your writing reflects joy, gratitude, and optimism. Keep embracing those beautiful feelings!",
    "I notice your recent entries have been more challenging. Remember that it's completely normal to have difficult days, and writing about them is a healthy way to process. You're doing great!",
    "Your recent entries show a balanced and reflective mood. You seem to be in a thoughtful, contemplative space. This is a wonderful place for growth and self-discovery!",
    "\n\nGratitude journaling is such a powerful practice! It helps us focus on the positive and appreciate the beauty in our lives.",
    "I'm here to help you with your journaling journey! I can provide writing prompts, analyze your mood patterns, help you reflect on your entries, or just chat about your day. What would be most helpful for you right now?",
    "\n\nIs there anything specific you'd like to explore in your journal today? I'm here to support you!")

  /** The assistant's own tables. */
  const Book := ReplyBook(
    [GratitudePrompts, ReflectionPrompts, CreativityPrompts, DailyPrompts],
    GratitudePrompts, Greetings, Encouragement)

  /** Every table of the assistant's book can be drawn from. */
  lemma BookValid()
    ensures Book.Valid()
  {
  }

  /** The book's category lists are the prompt table's entries, in key
      order, and together they hold exactly the twenty prompts. */
  lemma BookCategories()
    ensures |Book.categories| == |CategoryNames|
    ensures forall c | 0 <= c < |CategoryNames| ::
      PromptTable(CategoryNames[c]) == Some(Book.categories[c])
    ensures Book.categories[0] + Book.categories[1] + Book.categories[2] + Book.categories[3] == AllPrompts
  {
  }

  /** `userEntries.slice(0, 5)`. */
  function Recent(entries: seq<Entry>): (r: seq<Entry>)
    ensures |r| == if |entries| < 5 then |entries| else 5
    ensures r <= entries
  {
    if |entries| < 5 then entries else entries[..5]
  }

  /** The values of `Math.random()` the reply consumes: the prompt branch
      uses both (category, then prompt), the other random branches only
      the first. */
  datatype Draws = Draws(first: Draw, second: Draw)

  /** `generateContextualResponse`: the reply to `message` given the user's
      entries, newest first, drawn from `book` and worded by `texts`. */
  function Reply(book: ReplyBook, texts: ReplyTexts, message: string, entries: seq<Entry>, d: Draws): (r: string)
    requires book.Valid()
    ensures IntentOf(message) == PromptRequest ==>
      exists c, k | 0 <= c < |book.categories| && 0 <= k < |book.categories[c]| ::
        r == texts.PromptReply(book.categories[c][k])
    ensures IntentOf(message) == MoodCheck && entries == [] ==> r == texts.moodNoEntries
    ensures IntentOf(message) == MoodCheck && entries != [] ==>
      r == texts.MoodReply(Verdict(SumCounts(Recent(entries))))
    ensures IntentOf(message) == GratitudeTalk ==>
      exists p | p in book.gratitude :: r == p + texts.gratitudeOutro
    ensures IntentOf(message) == HelpRequest ==> r == texts.help
    ensures IntentOf(message) == Greeting ==> r in book.greetings
    ensures IntentOf(message) == SmallTalk ==>
      exists e | e in book.encouragement :: r == e + texts.smallTalkOutro
  {
    match IntentOf(message)
    case PromptRequest =>
      var c := PickIndex(|book.categories|, d.first);
      var k := PickIndex(|book.categories[c]|, d.second);
      texts.PromptReply(book.categories[c][k])
    case MoodCheck =>
      if |entries| > 0 then
        CombinedCounts(Recent(entries));
        texts.MoodReply(SentimentOf(CombinedText(Recent(entries))))
      else texts.moodNoEntries
    case GratitudeTalk => Pick(book.gratitude, d.first) + texts.gratitudeOutro
    case HelpRequest => texts.help
    case Greeting => Pick(book.greetings, d.first)
    case SmallTalk => Pick(book.encouragement, d.first) + texts.smallTalkOutro
  }

  /** Over the assistant's own book, a prompt reply, in any wording, holds
      one of the twenty prompts. */
  lemma BookPromptReply(texts: ReplyTexts, message: string, entries: seq<Entry>, d: Draws)
    requires IntentOf(message) == PromptRequest
    ensures Book.Valid()
    ensures exists p | p in AllPrompts :: Reply(Book, texts, message, entries, d) == texts.PromptReply(p)
  {
    BookValid();
    var r := Reply(Book, texts, message, entries, d);
    var c, k :| 0 <= c < |Book.categories| && 0 <= k < |Book.categories[c]| &&
      r == texts.PromptReply(Book.categories[c][k]);
    BookCategories();
    assert PromptTable(CategoryNames[c]) == Some(Book.categories[c]);
    assert Book.categories[c][k] in AllPrompts;
  }

  /** Over the assistant's own book, every one of the twenty prompts is the
      reply to a prompt request for some pair of draws. */
  lemma BookReachesEveryPrompt(texts: ReplyTexts, message: string, entries: seq<Entry>, p: string)
    requires IntentOf(message) == PromptRequest && p in AllPrompts
    ensures Book.Valid()
    ensures exists d: Draws :: Reply(Book, texts, message, entries, d) == texts.PromptReply(p)
  {
    BookValid();
    BookHoldsEveryPrompt(p);
    var c, k :| 0 <= c < |Book.categories| && 0 <= k < |Book.categories[c]| && Book.categories[c][k] == p;
    PromptReachesEvery(Book, texts, message, entries, c, k);
  }

  /** Each of the twenty prompts sits at some place in the book's
      categories. */
  lemma BookHoldsEveryPrompt(p: string)
    requires p in AllPrompts
    ensures exists c, k | 0 <= c < |Book.categories| && 0 <= k < |Book.categories[c]| :: Book.categories[c][k] == p
  {
    BookCategories();
    InSomeList(Book.categories, p);
    var c :| 0 <= c < |Book.categories| && p in Book.categories[c];
    var k :| 0 <= k < |Book.categories[c]| && Book.categories[c][k] == p;
  }

  /** An element of the concatenation of four lists is in one of them. */
  lemma InSomeList(lists: seq<seq<string>>, p: string)
    requires |lists| == 4 && p in lists[0] + lists[1] + lists[2] + lists[3]
    ensures exists c | 0 <= c < |lists| :: p in lists[c]
  {
    if p in lists[0] {
    } else if p in lists[1] {
    } else if p in lists[2] {
    } else {
      assert p in lists[3];
    }
  }

  /** Each prompt of each category is the reply for some pair of draws:
      the category's index over the number of categories, then the
      prompt's index over the number of prompts. */
  lemma PromptReachesEvery(book: ReplyBook, texts: ReplyTexts, message: string, entries: seq<Entry>, c: nat, k: nat)
    requires book.Valid() && IntentOf(message) == PromptRequest
    requires c < |book.categories| && k < |book.categories[c]|
    ensures 0.0 <= c as real / |book.categories| as real < 1.0
    ensures 0.0 <= k as real / |book.categories[c]| as real < 1.0
    ensures Reply(book, texts, message, entries,
                  Draws(c as real / |book.categories| as real, k as real / |book.categories[c]| as real))
            == texts.PromptReply(book.categories[c][k])
  {
    PickReachesEvery(book.categories, c);
    PickReachesEvery(book.categories[c], k);
  }

  /** Entries after the fifth never change the reply. */
  lemma LaterEntriesIgnored(book: ReplyBook, texts: ReplyTexts, message: string, entries: seq<Entry>, older: seq<Entry>, d: Draws)
    requires book.Valid() && |entries| >= 5
    ensures Reply(book, texts, message, entries + older, d) == Reply(book, texts, message, entries, d)
  {
    assert Recent(entries + older) == Recent(entries);
  }

  /** Nor does the order of the five newest entries. */
  lemma RecentOrderIgnored(book: ReplyBook, texts: ReplyTexts, message: string, entries: seq<Entry>, shuffled: seq<Entry>, d: Draws)
    requires book.Valid()
    requires multiset(Recent(entries)) == multiset(Recent(shuffled))
    ensures Reply(book, texts, message, entries, d) == Reply(book, texts, message, shuffled, d)
  {
    if IntentOf(message) == MoodCheck {
      SumByPermutation(EntryCounts, Recent(entries), Recent(shuffled));
    }
  }
}
