/** The assistant's static tables: writing prompts by category, the mood
    keyword sets and the reply templates, plus the uniform pick from a
    table. Every table is immutable. Trailing emoji are left out of the
    template texts. */
module ResponseLibrary {
  import opened Options

  const GratitudePrompts: seq<string> := [
    "What are three things that made you smile today?",
    "Write about someone who has positively impacted your life recently.",
    "What's something beautiful you noticed today that you're grateful for?",
    "Describe a moment today when you felt truly happy and content.",
    "What's something you're looking forward to that fills you with excitement?"
  ]

  const ReflectionPrompts: seq<string> := [
    "How have you grown as a person in the last month?",
    "What's a challenge you faced recently and how did you handle it?",
    "What would you tell your past self from a year ago?",
    "What's something you've learned about yourself recently?",
    "How do you want to be remembered by the people in your life?"
  ]

  const CreativityPrompts: seq<string> := [
    "If you could have dinner with anyone from history, who would it be and why?",
    "Write about your perfect day from start to finish.",
    "What's a dream you have that you haven't shared with anyone?",
    "Describe a place that makes you feel completely at peace.",
    "What would you do if you had unlimited resources and time?"
  ]

  const DailyPrompts: seq<string> := [
    "What's the highlight of your day so far?",
    "What's something you're looking forward to tomorrow?",
    "How are you feeling right now, and what's contributing to that feeling?",
    "What's one thing you'd like to improve about today?",
    "What made you laugh today?"
  ]

  /** The own keys of the prompt table, in declaration order (what
      `Object.keys` yields). */
  const CategoryNames: seq<string> := ["gratitude", "reflection", "creativity", "daily"]

  /** Every prompt of every category. */
  const AllPrompts: seq<string> := GratitudePrompts + ReflectionPrompts + CreativityPrompts + DailyPrompts

  /** Own-property lookup in the prompt table: `None` for any other name. */
  function PromptTable(name: string): (r: Option<seq<string>>)
    ensures r.Some? <==> name in CategoryNames
    ensures r.Some? ==> |r.value| == 5 && forall p | p in r.value :: p in AllPrompts
    ensures name == "daily" ==> r == Some(DailyPrompts)
  {
    if name == "gratitude" then Some(GratitudePrompts)
    else if name == "reflection" then Some(ReflectionPrompts)
    else if name == "creativity" then Some(CreativityPrompts)
    else if name == "daily" then Some(DailyPrompts)
    else None
  }

  const PositiveWords: set<string> := {
    "happy", "joy", "excited", "grateful", "blessed", "wonderful", "amazing", "love", "beautiful", "fantastic",
    "great", "good", "awesome", "perfect", "delighted", "thrilled", "content", "peaceful", "calm", "relaxed"
  }

  const NegativeWords: set<string> := {
    "sad", "angry", "frustrated", "anxious", "worried", "stressed", "tired", "exhausted", "overwhelmed", "disappointed",
    "hurt", "lonely", "scared", "nervous", "depressed", "upset", "mad", "annoyed", "irritated", "confused"
  }

  const NeutralWords: set<string> := {
    "okay", "fine", "normal", "alright", "stable", "balanced", "centered", "focused", "determined", "motivated",
    "productive", "busy", "active", "energetic"
  }

  /** The `moodKeywords` object: one keyword list per mood; only membership
      in a list matters (`includes`). */
  datatype Keywords = Keywords(positive: set<string>, negative: set<string>, neutral: set<string>)

  const MoodKeywords := Keywords(PositiveWords, NegativeWords, NeutralWords)

  const Greetings: seq<string> := [
    "Hello there! I'm here to help you with your journaling journey. How can I assist you today?",
    "Hi! Ready to explore your thoughts and feelings together? What's on your mind?",
    "Welcome back! I'm excited to help you reflect and grow through journaling. What would you like to work on?"
  ]

  /** Declared by the source but never used by any reply. */
  const WritingHelp: seq<string> := [
    "That's a great topic to explore! Try starting with how it makes you feel, then dive deeper into the details. Remember, there are no wrong answers in journaling!",
    "I love that you want to write about this! Consider asking yourself 'why' questions to dig deeper into your thoughts and emotions.",
    "Perfect journaling material! Start with the surface details, then let your thoughts flow naturally. Your authentic voice is what makes your journal special!"
  ]

  /** Declared by the source but never used by any reply. */
  const MoodSupport: seq<string> := [
    "It sounds like you're going through a lot right now. Remember that it's okay to feel this way, and writing about it can be really therapeutic. You're doing great!",
    "I hear you, and your feelings are completely valid. Journaling can help you process these emotions. Would you like to explore this further?",
    "Thank you for sharing that with me. Sometimes just putting our thoughts on paper can bring clarity and peace. You're not alone in this!"
  ]

  const Encouragement: seq<string> := [
    "You're doing amazing! Every entry you write is a step toward self-discovery and growth. Keep going!",
    "I'm so proud of your commitment to journaling! Your dedication to self-reflection is truly inspiring.",
    "You have such a beautiful way of expressing yourself! Your journal entries are a testament to your growth and wisdom."
  ]

  /** A value of `Math.random()`. */
  type Draw = r: real | 0.0 <= r < 1.0

  /** `Math.floor(r * n)`: the index a draw selects among `n` entries. */
  function PickIndex(n: nat, r: Draw): (k: nat)
    requires n > 0
    ensures k < n
  {
    assert 0.0 <= r * n as real < n as real by {
      assert (n as real) - r * (n as real) == (1.0 - r) * (n as real);
    }
    (r * n as real).Floor
  }

  /** `getRandomResponse`: the entry a draw selects. */
  function Pick<T>(table: seq<T>, r: Draw): (x: T)
    requires |table| > 0
    ensures x in table
  {
    table[PickIndex(|table|, r)]
  }

  /** Every entry of a table is selected by some draw, namely k / n. */
  lemma PickReachesEvery<T>(table: seq<T>, k: nat)
    requires k < |table|
    ensures 0.0 <= k as real / |table| as real < 1.0
    ensures Pick(table, k as real / |table| as real) == table[k]
  {
    var n := |table| as real;
    var r: Draw := k as real / n;
    assert r * n == k as real;
  }

  /** The draws that select an index form the interval [k / n, (k + 1) / n). */
  lemma PickIndexInterval(n: nat, r: Draw, k: nat)
    requires n > 0
    ensures PickIndex(n, r) == k <==> k as real <= r * n as real < (k + 1) as real
  {
  }
}
