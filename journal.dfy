/** Journal entries as the assistant reads them, and the text it builds
    from several entries: each entry rendered as `${title} ${content}`, the
    renderings joined with single spaces. */
module Journal {
  import opened Options
  import opened Text
  import opened ResponseLibrary
  import opened Sentiment

  /** An entry as loaded for the assistant. `title` and `content` are
      optional in the schema; `date` is a timestamp in milliseconds, absent
      when the stored document has no such field. */
  datatype Entry = Entry(title: Option<string>, content: Option<string>, date: Option<int>)

  /** A field as a template literal renders it: a missing one becomes the
      text "undefined". */
  function Show(field: Option<string>): string {
    field.GetOr("undefined")
  }

  /** `${entry.title} ${entry.content}`. */
  function EntryText(e: Entry): string {
    Show(e.title) + " " + Show(e.content)
  }

  /** The renderings of the entries, in order. */
  function EntryTexts(entries: seq<Entry>): (texts: seq<string>)
    ensures |texts| == |entries|
    ensures forall k | 0 <= k < |entries| :: texts[k] == EntryText(entries[k])
  {
    if entries == [] then [] else [EntryText(entries[0])] + EntryTexts(entries[1..])
  }

  /** `entries.map(entry => `${entry.title} ${entry.content}`).join(' ')`. */
  function CombinedText(entries: seq<Entry>): (r: string)
    ensures entries == [] ==> r == ""
    ensures |entries| == 1 ==> r == EntryText(entries[0])
    ensures |entries| > 1 ==> EntryText(entries[0]) + " " <= r
  {
    Join(EntryTexts(entries), " ")
  }

  /** The keyword hits of one entry: those of its title plus those of its
      content. */
  function EntryCounts(e: Entry): Counts {
    MoodCounts(Show(e.title)).Plus(MoodCounts(Show(e.content)))
  }

  /** The sum of `f` over the entries. */
  function SumBy(f: Entry -> Counts, entries: seq<Entry>): Counts {
    if entries == [] then Counts(0, 0, 0)
    else f(entries[0]).Plus(SumBy(f, entries[1..]))
  }

  /** The keyword hits of several entries, entry by entry. */
  function SumCounts(entries: seq<Entry>): Counts {
    SumBy(EntryCounts, entries)
  }

  /** The empty text has no keyword hit. */
  lemma EmptyTextCounts()
    ensures MoodCounts("") == Counts(0, 0, 0)
  {
    NoEmptyKeyword();
    assert Lower("") == "";
    assert Split("") == [""];
    assert Tally(MoodKeywords, [""]) == Counts(0, 0, 0).Record(Classify(MoodKeywords, "")) by {
      assert [""][..0] == [];
    }
  }

  lemma SumCountsCons(entries: seq<Entry>)
    requires entries != []
    ensures SumCounts(entries) == EntryCounts(entries[0]).Plus(SumCounts(entries[1..]))
  {
  }

  /** The joined text of entries `e` and `rest` is `e`'s rendering, a
      space, and the joined text of `rest`. */
  lemma CombinedTextCons(entries: seq<Entry>)
    requires |entries| > 1
    ensures CombinedText(entries) == EntryText(entries[0]) + " " + CombinedText(entries[1..])
  {
    assert EntryTexts(entries)[1..] == EntryTexts(entries[1..]);
  }

  /** One entry's rendering counts its title and its content. */
  lemma EntryTextCounts(e: Entry)
    ensures MoodCounts(EntryText(e)) == EntryCounts(e)
  {
    MoodCountsAppend(Show(e.title), Show(e.content));
  }

  /** Analysing the joined text counts every entry's title and content
      separately: no hit is created or lost where two renderings meet. */
  lemma {:induction false} CombinedCounts(entries: seq<Entry>)
    ensures MoodCounts(CombinedText(entries)) == SumCounts(entries)
  {
    if entries == [] {
      EmptyTextCounts();
    } else {
      var e := entries[0];
      EntryTextCounts(e);
      SumCountsCons(entries);
      if |entries| > 1 {
        CombinedTextCons(entries);
        MoodCountsAppend(EntryText(e), CombinedText(entries[1..]));
        CombinedCounts(entries[1..]);
      } else {
        assert CombinedText(entries) == EntryText(e);
        assert SumCounts(entries[1..]) == Counts(0, 0, 0);
      }
    }
  }

  lemma {:induction false} SumByAppend(f: Entry -> Counts, u: seq<Entry>, v: seq<Entry>)
    ensures SumBy(f, u + v) == SumBy(f, u).Plus(SumBy(f, v))
  {
    if u == [] {
      assert u + v == v;
    } else {
      assert (u + v)[1..] == u[1..] + v;
      SumByAppend(f, u[1..], v);
    }
  }

  /** Removing the entry at `i` from `v` leaves the rest of `u` when `u`
      starts with it and the two hold the same entries. */
  lemma RemoveMatching(u: seq<Entry>, v: seq<Entry>, i: nat)
    requires u != [] && i < |v| && v[i] == u[0]
    requires multiset(u) == multiset(v)
    ensures multiset(u[1..]) == multiset(v[..i] + v[i + 1..])
  {
    assert u == [u[0]] + u[1..];
    assert v == v[..i] + [v[i]] + v[i + 1..];
    assert multiset(v) == multiset(v[..i]) + multiset{v[i]} + multiset(v[i + 1..]);
    assert multiset(u) == multiset{u[0]} + multiset(u[1..]);
    var w := v[..i] + v[i + 1..];
    assert multiset(w) == multiset(v[..i]) + multiset(v[i + 1..]);
    forall y ensures multiset(u[1..])[y] == multiset(w)[y] {
      assert multiset(u)[y] == multiset(v)[y];
      assert multiset(u)[y] == multiset{u[0]}[y] + multiset(u[1..])[y];
      assert multiset(v)[y] == multiset(v[..i])[y] + multiset{v[i]}[y] + multiset(v[i + 1..])[y];
    }
  }

  /** Summing around one entry in the middle. */
  lemma SumBySplit(f: Entry -> Counts, v: seq<Entry>, i: nat)
    requires i < |v|
    ensures SumBy(f, v) == f(v[i]).Plus(SumBy(f, v[..i] + v[i + 1..]))
  {
    assert v == (v[..i] + [v[i]]) + v[i + 1..];
    SumByAppend(f, v[..i] + [v[i]], v[i + 1..]);
    SumByAppend(f, v[..i], [v[i]]);
    SumByAppend(f, v[..i], v[i + 1..]);
    assert [v[i]][1..] == [];
  }

  /** A sum over entries does not depend on their order. */
  lemma {:induction false} SumByPermutation(f: Entry -> Counts, u: seq<Entry>, v: seq<Entry>)
    requires multiset(u) == multiset(v)
    ensures SumBy(f, u) == SumBy(f, v)
    decreases |u|
  {
    if u != [] {
      assert u[0] in multiset(v);
      var i :| 0 <= i < |v| && v[i] == u[0];
      RemoveMatching(u, v, i);
      SumByPermutation(f, u[1..], v[..i] + v[i + 1..]);
      SumBySplit(f, v, i);
    } else {
      assert |v| == |multiset(v)| == 0;
    }
  }

  /** Reordering the entries never changes the label their joined text
      receives. */
  lemma EntryOrderIrrelevant(u: seq<Entry>, v: seq<Entry>)
    requires multiset(u) == multiset(v)
    ensures SentimentOf(CombinedText(u)) == SentimentOf(CombinedText(v))
  {
    CombinedCounts(u);
    CombinedCounts(v);
    SumByPermutation(EntryCounts, u, v);
  }
}
