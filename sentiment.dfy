/** The keyword sentiment classifier (`analyzeSentiment`): lower-case the
    text, split it on white space, count exact keyword hits and compare the
    positive and negative counts. The counting is stated for any keyword
    tables `kw`; the assistant uses `MoodKeywords`. */
module Sentiment {
  import opened Text
  import opened ResponseLibrary

  datatype Label = Positive | Negative | Neutral

  /** Which counter one token increments: the positive, negative, neutral
      else-if chain. */
  datatype Hit = PositiveHit | NegativeHit | NeutralHit | NoHit

  datatype Counts = Counts(positive: nat, negative: nat, neutral: nat) {
    function Record(h: Hit): Counts {
      match h
      case PositiveHit => Counts(positive + 1, negative, neutral)
      case NegativeHit => Counts(positive, negative + 1, neutral)
      case NeutralHit => Counts(positive, negative, neutral + 1)
      case NoHit => this
    }

    function Plus(other: Counts): Counts {
      Counts(positive + other.positive, negative + other.negative, neutral + other.neutral)
    }
  }

  /** The else-if chain for one token: the first of the positive, negative
      and neutral tables that holds the token decides; a token in none of
      them is no hit. */
  function Classify(kw: Keywords, word: string): (h: Hit)
    ensures h == PositiveHit <==> word in kw.positive
    ensures h == NegativeHit <==> word !in kw.positive && word in kw.negative
    ensures h == NeutralHit <==> word !in kw.positive && word !in kw.negative && word in kw.neutral
    ensures h == NoHit <==> word !in kw.positive && word !in kw.negative && word !in kw.neutral
  {
    if word in kw.positive then PositiveHit
    else if word in kw.negative then NegativeHit
    else if word in kw.neutral then NeutralHit
    else NoHit
  }

  /** The three counters after the loop has seen `words`; each token adds
      to at most one of them. */
  function Tally(kw: Keywords, words: seq<string>): (c: Counts)
    ensures c.positive + c.negative + c.neutral <= |words|
  {
    if words == [] then Counts(0, 0, 0)
    else Tally(kw, words[..|words| - 1]).Record(Classify(kw, words[|words| - 1]))
  }

  /** The tokens the classifier counts. */
  function Words(text: string): seq<string> {
    Split(Lower(text))
  }

  /** The final comparison; the neutral counter takes no part in it, and
      equal counts, none at all included, are neutral. */
  function Verdict(c: Counts): (l: Label)
    ensures l == Positive <==> c.positive > c.negative
    ensures l == Negative <==> c.negative > c.positive
    ensures l == Neutral <==> c.positive == c.negative
  {
    if c.positive > c.negative then Positive
    else if c.negative > c.positive then Negative
    else Neutral
  }

  /** The counters `analyzeSentiment` ends with on `text`. */
  function MoodCounts(text: string): Counts {
    Tally(MoodKeywords, Words(text))
  }

  /** The label `analyzeSentiment` returns for `text`: positive iff more
      positive than negative keyword hits, negative iff more negative
      ones, neutral iff the two counts tie (0/0 included). */
  function SentimentOf(text: string): (l: Label)
    ensures var c := MoodCounts(text);
      && (l == Positive <==> c.positive > c.negative)
      && (l == Negative <==> c.negative > c.positive)
      && (l == Neutral <==> c.positive == c.negative)
  {
    Verdict(MoodCounts(text))
  }

  /** `analyzeSentiment`: one pass over the tokens with three counters. */
  method AnalyzeSentiment(text: string) returns (mood: Label)
    ensures mood == SentimentOf(text)
  {
    var words := Split(Lower(text));
    var positiveCount, negativeCount, neutralCount := 0, 0, 0;
    for i := 0 to |words|
      invariant Counts(positiveCount, negativeCount, neutralCount) == Tally(MoodKeywords, words[..i])
    {
      var word := words[i];
      assert words[..i + 1][..i] == words[..i];
      if word in MoodKeywords.positive {
        positiveCount := positiveCount + 1;
      } else if word in MoodKeywords.negative {
        negativeCount := negativeCount + 1;
      } else if word in MoodKeywords.neutral {
        neutralCount := neutralCount + 1;
      }
    }
    assert words[..|words|] == words;
    if positiveCount > negativeCount {
      return Positive;
    }
    if negativeCount > positiveCount {
      return Negative;
    }
    return Neutral;
  }

  /** Tokens are compared exactly: punctuation or upper case defeats a
      match, and an empty token matches nothing. */
  lemma ExactTokenMatch()
    ensures Classify(MoodKeywords, "happy") == PositiveHit
    ensures Classify(MoodKeywords, "happy!") == NoHit
    ensures Classify(MoodKeywords, "Happy") == NoHit
    ensures Classify(MoodKeywords, "") == NoHit
  {
  }

  lemma {:induction false} TallyAppend(kw: Keywords, u: seq<string>, v: seq<string>)
    ensures Tally(kw, u + v) == Tally(kw, u).Plus(Tally(kw, v))
    decreases |v|
  {
    if v == [] {
      assert u + v == u;
    } else {
      var last := |v| - 1;
      assert (u + v)[..|u + v| - 1] == u + v[..last];
      assert (u + v)[|u + v| - 1] == v[last];
      TallyAppend(kw, u, v[..last]);
    }
  }

  /** The count of one token. */
  lemma TallySingle(kw: Keywords, w: string)
    ensures Tally(kw, [w]) == Counts(0, 0, 0).Record(Classify(kw, w))
  {
    assert [w][..0] == [];
  }

  /** Counting a sequence is counting its first token, then the rest. */
  lemma TallyCons(kw: Keywords, words: seq<string>)
    requires words != []
    ensures Tally(kw, words) == Tally(kw, [words[0]]).Plus(Tally(kw, words[1..]))
  {
    assert words == [words[0]] + words[1..];
    TallyAppend(kw, [words[0]], words[1..]);
  }

  /** The empty token counts nothing when no table holds it. */
  lemma EmptyTokenTally(kw: Keywords)
    requires "" !in kw.positive && "" !in kw.negative && "" !in kw.neutral
    ensures Tally(kw, [""]) == Counts(0, 0, 0)
  {
    TallySingle(kw, "");
  }

  /** Empty tokens count nothing: only the non-empty ones matter. */
  lemma {:induction false} TallyNonEmpty(kw: Keywords, words: seq<string>)
    requires "" !in kw.positive && "" !in kw.negative && "" !in kw.neutral
    ensures Tally(kw, NonEmpty(words)) == Tally(kw, words)
  {
    if words != [] {
      TallyNonEmpty(kw, words[1..]);
      TallyNonEmptyStep(kw, words);
    }
  }

  /** One token in front of tokens whose empty ones are already dropped. */
  lemma TallyNonEmptyStep(kw: Keywords, words: seq<string>)
    requires "" !in kw.positive && "" !in kw.negative && "" !in kw.neutral
    requires words != []
    requires Tally(kw, NonEmpty(words[1..])) == Tally(kw, words[1..])
    ensures Tally(kw, NonEmpty(words)) == Tally(kw, words)
  {
    if words[0] == "" {
      DropEmptyToken(kw, words);
    } else {
      KeepToken(kw, words);
    }
  }

  /** A leading empty token is dropped and counts nothing. */
  lemma DropEmptyToken(kw: Keywords, words: seq<string>)
    requires "" !in kw.positive && "" !in kw.negative && "" !in kw.neutral
    requires words != [] && words[0] == ""
    requires Tally(kw, NonEmpty(words[1..])) == Tally(kw, words[1..])
    ensures Tally(kw, NonEmpty(words)) == Tally(kw, words)
  {
    TallyCons(kw, words);
    EmptyTokenTally(kw);
  }

  /** A leading non-empty token is kept and counted on both sides. */
  lemma KeepToken(kw: Keywords, words: seq<string>)
    requires words != [] && words[0] != ""
    requires Tally(kw, NonEmpty(words[1..])) == Tally(kw, words[1..])
    ensures Tally(kw, NonEmpty(words)) == Tally(kw, words)
  {
    var r := NonEmpty(words);
    assert r == [words[0]] + NonEmpty(words[1..]);
    assert r[1..] == NonEmpty(words[1..]);
    TallyCons(kw, words);
    TallyCons(kw, r);
  }

  /** Counting the pieces of a text glued to another with one space adds the
      two counts: the glue never creates or destroys a keyword. */
  lemma TallySplitAppend(kw: Keywords, a: string, b: string)
    requires "" !in kw.positive && "" !in kw.negative && "" !in kw.neutral
    ensures Tally(kw, Split(a + " " + b)) == Tally(kw, Split(a)).Plus(Tally(kw, Split(b)))
  {
    SplitGlue(a, b);
    TallyNonEmpty(kw, Split(a + " " + b));
    TallyNonEmpty(kw, Split(a));
    TallyNonEmpty(kw, Split(b));
    TallyAppend(kw, NonEmpty(Split(a)), NonEmpty(Split(b)));
  }

  /** No mood keyword is the empty token. */
  lemma NoEmptyKeyword()
    ensures "" !in MoodKeywords.positive && "" !in MoodKeywords.negative && "" !in MoodKeywords.neutral
  {
  }

  /** The tokens of two texts glued by a space are counted separately. */
  lemma MoodCountsAppend(a: string, b: string)
    ensures MoodCounts(a + " " + b) == MoodCounts(a).Plus(MoodCounts(b))
  {
    NoEmptyKeyword();
    LowerAppend(a + " ", b);
    LowerAppend(a, " ");
    assert Lower(" ") == " ";
    TallySplitAppend(MoodKeywords, Lower(a), Lower(b));
  }

  /** A token that is neither a positive nor a negative keyword, wherever it
      stands, never changes the label; in particular neutral keywords do not. */
  lemma NonPolarTokenIrrelevant(kw: Keywords, u: seq<string>, w: string, v: seq<string>)
    requires w !in kw.positive && w !in kw.negative
    ensures Verdict(Tally(kw, u + [w] + v)) == Verdict(Tally(kw, u + v))
  {
    TallyAppend(kw, u + [w], v);
    TallyAppend(kw, u, [w]);
    TallyAppend(kw, u, v);
    assert [w][..0] == [];
  }

  /** Case does not matter to the classifier. */
  lemma CaseInsensitive(text: string)
    ensures SentimentOf(Lower(text)) == SentimentOf(text)
  {
    LowerIdempotent(text);
  }

  /** Upper case in the text does not hide a keyword: the text is lower-
      cased before the tokens are compared. */
  lemma ShoutedKeyword()
    ensures MoodCounts("HAPPY") == Counts(1, 0, 0)
    ensures SentimentOf("HAPPY") == Positive
  {
    assert Lower("HAPPY") == "happy";
    assert Join(["happy"], " ") == "happy";
    SplitJoin(["happy"]);
    TallySingle(MoodKeywords, "happy");
  }

  /** The tokens of the worked example below. */
  const ExampleWords: seq<string> := ["happy", "but", "tired"]

  lemma ExampleLower()
    ensures Lower("happy but tired") == "happy but tired"
  {
    LowerNoUpper("happy but tired");
  }

  lemma ExampleJoin()
    ensures Join(ExampleWords, " ") == "happy but tired"
  {
  }

  lemma ExampleWordsPlain()
    ensures forall k | 0 <= k < |ExampleWords| :: ExampleWords[k] != "" && NoSpace(ExampleWords[k])
  {
  }

  lemma ExampleTally()
    ensures Tally(MoodKeywords, ExampleWords) == Counts(1, 1, 0)
  {
    assert Classify(MoodKeywords, "happy") == PositiveHit;
    assert Classify(MoodKeywords, "but") == NoHit;
    assert Classify(MoodKeywords, "tired") == NegativeHit;
    var w := ExampleWords;
    assert w[..2][..1][..0] == [];
  }

  /** The worked example: one positive and one negative hit tie. */
  lemma HappyButTired()
    ensures MoodCounts("happy but tired") == Counts(1, 1, 0)
    ensures SentimentOf("happy but tired") == Neutral
  {
    ExampleLower();
    ExampleJoin();
    ExampleWordsPlain();
    SplitJoin(ExampleWords);
    ExampleTally();
  }
}
