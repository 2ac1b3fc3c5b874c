/** The string primitives the assistant relies on: JavaScript's
    `toLowerCase`, `includes`, `split(/\s+/)` and `join`. */
module Text {

  /** JavaScript's `\s` class: white space and line terminators. */
  const WhiteSpace: set<char> := {
    ' ', '\t', '\n', '\r', '\U{000B}', '\U{000C}', '\U{00A0}', '\U{1680}',
    '\U{2000}', '\U{2001}', '\U{2002}', '\U{2003}', '\U{2004}', '\U{2005}',
    '\U{2006}', '\U{2007}', '\U{2008}', '\U{2009}', '\U{200A}',
    '\U{2028}', '\U{2029}', '\U{202F}', '\U{205F}', '\U{3000}', '\U{FEFF}'
  }

  predicate IsSpace(c: char) {
    c in WhiteSpace
  }

  predicate NoSpace(s: string) {
    forall k | 0 <= k < |s| :: !IsSpace(s[k])
  }

  predicate IsUpper(c: char) {
    'A' <= c <= 'Z'
  }

  /** Case folding restricted to ASCII letters: an upper-case letter
      becomes the lower-case letter at the same place in the alphabet. */
  function LowerChar(c: char): (d: char)
    ensures !IsUpper(d)
    ensures IsSpace(d) <==> IsSpace(c)
    ensures !IsUpper(c) ==> d == c
    ensures IsUpper(c) ==> 'a' <= d <= 'z' && d as int - 'a' as int == c as int - 'A' as int
  {
    if IsUpper(c) then (c as int + 32) as char else c
  }

  /** `s.toLowerCase()`, on ASCII letters. */
  function Lower(s: string): (r: string)
    ensures |r| == |s|
    ensures forall k | 0 <= k < |s| :: r[k] == LowerChar(s[k])
    ensures forall k | 0 <= k < |r| :: !IsUpper(r[k])
    ensures forall k | 0 <= k < |r| :: IsSpace(r[k]) <==> IsSpace(s[k])
  {
    seq(|s|, k requires 0 <= k < |s| => LowerChar(s[k]))
  }

  lemma LowerIdempotent(s: string)
    ensures Lower(Lower(s)) == Lower(s)
  {
  }

  /** Text without upper-case letters is its own lower case. */
  lemma LowerNoUpper(s: string)
    requires forall k | 0 <= k < |s| :: !IsUpper(s[k])
    ensures Lower(s) == s
  {
  }

  lemma LowerAppend(a: string, b: string)
    ensures Lower(a + b) == Lower(a) + Lower(b)
  {
    assert forall k | 0 <= k < |a + b| :: Lower(a + b)[k] == (Lower(a) + Lower(b))[k];
  }

  /** `p` occurs in `s` starting at position `i`. */
  predicate OccursAt(s: string, p: string, i: nat) {
    i <= |s| && p <= s[i..]
  }

  /** `s.includes(p)`: the empty pattern is always included, a prefix is,
      and a pattern longer than the text never is. */
  function Contains(s: string, p: string): (r: bool)
    ensures p <= s ==> r
    ensures r ==> |p| <= |s|
    decreases |s|
  {
    if p <= s then true
    else if s == [] then false
    else Contains(s[1..], p)
  }

  /** `Contains` holds exactly when `p` occurs somewhere in `s`. */
  lemma {:induction false} ContainsIffOccurs(s: string, p: string)
    ensures Contains(s, p) <==> exists i: nat :: OccursAt(s, p, i)
    decreases |s|
  {
    if p <= s {
      assert OccursAt(s, p, 0);
    } else if s == [] {
      forall i: nat ensures !OccursAt(s, p, i) {
        assert i <= |s| ==> s[i..] == s;
      }
    } else {
      ContainsIffOccurs(s[1..], p);
      if Contains(s[1..], p) {
        var i: nat :| OccursAt(s[1..], p, i);
        assert s[1..][i..] == s[i + 1..];
        assert OccursAt(s, p, i + 1);
      } else {
        forall i: nat | OccursAt(s, p, i) ensures false {
          assert i != 0;
          assert s[1..][i - 1..] == s[i..];
          assert OccursAt(s[1..], p, i - 1);
        }
      }
    }
  }

  /** An occurrence makes `Contains` true. */
  lemma OccursContains(s: string, p: string, i: nat)
    requires OccursAt(s, p, i)
    ensures Contains(s, p)
  {
    ContainsIffOccurs(s, p);
  }

  /** `p` does not occur in `s` when one of its characters is nowhere in
      `s`. */
  lemma AbsentChar(s: string, p: string, j: nat)
    requires j < |p| && p[j] !in s
    ensures !Contains(s, p)
  {
    ContainsIffOccurs(s, p);
  }

  /* The scanning functions below take the separator set `ws` as a
     parameter; `Split` fixes it to `WhiteSpace`. */

  /** `s` holds no character of `ws`. */
  predicate NoneIn(ws: set<char>, s: string) {
    forall k | 0 <= k < |s| :: s[k] !in ws
  }

  /** Index of the first separator in `s` at or after `i`, or `|s|` when
      there is none. */
  function FirstSepFrom(ws: set<char>, s: string, i: nat): (j: nat)
    requires i <= |s|
    ensures i <= j <= |s|
    ensures j < |s| ==> s[j] in ws
    decreases |s| - i
  {
    if i == |s| || s[i] in ws then i else FirstSepFrom(ws, s, i + 1)
  }

  /** Index just past the run of separators that starts at `i`. */
  function RunEnd(ws: set<char>, s: string, i: nat): (j: nat)
    requires i <= |s|
    ensures i <= j <= |s|
    ensures j < |s| ==> s[j] !in ws
    ensures i < |s| && s[i] in ws ==> i < j
    decreases |s| - i
  {
    if i == |s| || s[i] !in ws then i else RunEnd(ws, s, i + 1)
  }

  /** No separator stands between `i` and `FirstSepFrom(ws, s, i)`. */
  lemma {:induction false} FirstSepFromSpec(ws: set<char>, s: string, i: nat)
    requires i <= |s|
    ensures forall k | i <= k < FirstSepFrom(ws, s, i) :: s[k] !in ws
    decreases |s| - i
  {
    if i < |s| && s[i] !in ws {
      FirstSepFromSpec(ws, s, i + 1);
    }
  }

  /** Only separators stand between `i` and `RunEnd(ws, s, i)`. */
  lemma {:induction false} RunEndSpec(ws: set<char>, s: string, i: nat)
    requires i <= |s|
    ensures forall k | i <= k < RunEnd(ws, s, i) :: s[k] in ws
    decreases |s| - i
  {
    if i < |s| && s[i] in ws {
      RunEndSpec(ws, s, i + 1);
    }
  }

  /** The pieces of `s[i..]` between maximal runs of separators. */
  function SplitFrom(ws: set<char>, s: string, i: nat): (words: seq<string>)
    requires i <= |s|
    ensures |words| >= 1
    decreases |s| - i
  {
    var j := FirstSepFrom(ws, s, i);
    if j == |s| then [s[i..]]
    else [s[i..j]] + SplitFrom(ws, s, RunEnd(ws, s, j))
  }

  /** `s.split(/\s+/)`: the pieces between maximal runs of white space.
      Leading white space yields an empty first piece, trailing white space
      an empty last piece, and the empty string the single piece "". */
  function Split(s: string): (words: seq<string>)
    ensures |words| >= 1
    ensures forall k | 0 <= k < |words| :: NoSpace(words[k])
  {
    SplitFromPieces(WhiteSpace, s, 0);
    SplitFrom(WhiteSpace, s, 0)
  }

  /** No piece of `SplitFrom(ws, s, i)` holds a separator, every piece but
      the first and the last is non-empty, and the first is empty exactly
      when the text starts with a separator or is used up. */
  lemma {:induction false} SplitFromPieces(ws: set<char>, s: string, i: nat)
    requires i <= |s|
    ensures forall k | 0 <= k < |SplitFrom(ws, s, i)| :: NoneIn(ws, SplitFrom(ws, s, i)[k])
    ensures forall k | 0 < k < |SplitFrom(ws, s, i)| - 1 :: SplitFrom(ws, s, i)[k] != ""
    ensures SplitFrom(ws, s, i)[0] == "" <==> i == |s| || s[i] in ws
    decreases |s| - i
  {
    var j := FirstSepFrom(ws, s, i);
    FirstSepFromSpec(ws, s, i);
    assert NoneIn(ws, s[i..j]);
    if j < |s| {
      var e := RunEnd(ws, s, j);
      SplitFromPieces(ws, s, e);
      var words := SplitFrom(ws, s, i);
      var rest := SplitFrom(ws, s, e);
      assert words == [s[i..j]] + rest;
      assert rest[0] != "" || |rest| == 1;
      forall k | 0 < k < |words| - 1 ensures words[k] != "" {
        assert words[k] == rest[k - 1];
      }
    }
  }

  /** `s` holds only characters of `ws`. */
  predicate AllIn(ws: set<char>, s: string) {
    forall k | 0 <= k < |s| :: s[k] in ws
  }

  /** The separator runs that `SplitFrom(ws, s, i)` drops, in order: one
      between every two neighbouring pieces. */
  function SepsFrom(ws: set<char>, s: string, i: nat): (seps: seq<string>)
    requires i <= |s|
    ensures |seps| + 1 == |SplitFrom(ws, s, i)|
    decreases |s| - i
  {
    var j := FirstSepFrom(ws, s, i);
    if j == |s| then []
    else [s[j..RunEnd(ws, s, j)]] + SepsFrom(ws, s, RunEnd(ws, s, j))
  }

  /** The pieces with the separator runs put back between them. */
  function Weave(pieces: seq<string>, seps: seq<string>): string
    requires |pieces| == |seps| + 1
    decreases |seps|
  {
    if seps == [] then pieces[0]
    else pieces[0] + seps[0] + Weave(pieces[1..], seps[1..])
  }

  /** Nothing is lost by splitting: the pieces and the separator runs
      between them rebuild the text, every run is a non-empty stretch of
      separators, and the last piece is empty exactly when the text is
      used up or ends with a separator. */
  lemma {:induction false} SplitFromWeave(ws: set<char>, s: string, i: nat)
    requires i <= |s|
    ensures Weave(SplitFrom(ws, s, i), SepsFrom(ws, s, i)) == s[i..]
    ensures forall k | 0 <= k < |SepsFrom(ws, s, i)| ::
      SepsFrom(ws, s, i)[k] != "" && AllIn(ws, SepsFrom(ws, s, i)[k])
    ensures var words := SplitFrom(ws, s, i);
      words[|words| - 1] == "" <==> i == |s| || s[|s| - 1] in ws
    decreases |s| - i
  {
    var j := FirstSepFrom(ws, s, i);
    FirstSepFromSpec(ws, s, i);
    if j < |s| {
      var e := RunEnd(ws, s, j);
      RunEndSpec(ws, s, j);
      SplitFromWeave(ws, s, e);
      WeaveStepText(ws, s, i, j, e);
      WeaveStepRuns(ws, s, i, j, e);
      WeaveStepLast(ws, s, i, j, e);
    }
  }

  /** Weaving a piece and a run in front of more pieces and runs. */
  lemma WeaveCons(piece: string, run: string, pieces: seq<string>, seps: seq<string>)
    requires |pieces| == |seps| + 1
    ensures Weave([piece] + pieces, [run] + seps) == piece + run + Weave(pieces, seps)
  {
    assert ([piece] + pieces)[1..] == pieces;
    assert ([run] + seps)[1..] == seps;
  }

  /** Three neighbouring slices make one. */
  lemma SliceThree(s: string, i: nat, j: nat, e: nat)
    requires i <= j <= e <= |s|
    ensures s[i..] == s[i..j] + s[j..e] + s[e..]
  {
  }

  /** The first piece, then its separator run, then the rest. */
  lemma WeaveStepText(ws: set<char>, s: string, i: nat, j: nat, e: nat)
    requires i <= j < e <= |s|
    requires j == FirstSepFrom(ws, s, i) && e == RunEnd(ws, s, j)
    requires Weave(SplitFrom(ws, s, e), SepsFrom(ws, s, e)) == s[e..]
    ensures Weave(SplitFrom(ws, s, i), SepsFrom(ws, s, i)) == s[i..]
  {
    WeaveCons(s[i..j], s[j..e], SplitFrom(ws, s, e), SepsFrom(ws, s, e));
    SliceThree(s, i, j, e);
  }

  /** The first separator run is non-empty and made of separators. */
  lemma WeaveStepRuns(ws: set<char>, s: string, i: nat, j: nat, e: nat)
    requires i <= j < e <= |s|
    requires j == FirstSepFrom(ws, s, i) && e == RunEnd(ws, s, j)
    requires forall k | j <= k < e :: s[k] in ws
    requires forall k | 0 <= k < |SepsFrom(ws, s, e)| ::
      SepsFrom(ws, s, e)[k] != "" && AllIn(ws, SepsFrom(ws, s, e)[k])
    ensures forall k | 0 <= k < |SepsFrom(ws, s, i)| ::
      SepsFrom(ws, s, i)[k] != "" && AllIn(ws, SepsFrom(ws, s, i)[k])
  {
    var seps := SepsFrom(ws, s, e);
    var runs := [s[j..e]] + seps;
    assert SepsFrom(ws, s, i) == runs;
    assert AllIn(ws, s[j..e]);
    forall k | 0 < k < |runs| ensures runs[k] != "" && AllIn(ws, runs[k]) {
      assert runs[k] == seps[k - 1];
    }
  }

  /** The last piece is the last piece of the rest. */
  lemma WeaveStepLast(ws: set<char>, s: string, i: nat, j: nat, e: nat)
    requires i <= j < e <= |s|
    requires j == FirstSepFrom(ws, s, i) && e == RunEnd(ws, s, j)
    requires forall k | j <= k < e :: s[k] in ws
    requires var rest := SplitFrom(ws, s, e);
      rest[|rest| - 1] == "" <==> e == |s| || s[|s| - 1] in ws
    ensures var words := SplitFrom(ws, s, i);
      words[|words| - 1] == "" <==> i == |s| || s[|s| - 1] in ws
  {
    var rest := SplitFrom(ws, s, e);
    var words := [s[i..j]] + rest;
    assert SplitFrom(ws, s, i) == words;
    assert words[|words| - 1] == rest[|rest| - 1];
    assert e == |s| ==> s[|s| - 1] in ws;
  }

  /** The pieces of `Split(s)` hold no white space; no piece strictly
      between the first and the last is empty; and the first is empty
      exactly when `s` is empty or starts with white space. */
  lemma SplitPieces(s: string)
    ensures forall k | 0 <= k < |Split(s)| :: NoSpace(Split(s)[k])
    ensures forall k | 0 < k < |Split(s)| - 1 :: Split(s)[k] != ""
    ensures Split(s)[0] == "" <==> s == [] || IsSpace(s[0])
  {
    SplitFromPieces(WhiteSpace, s, 0);
  }

  /** Splitting loses nothing: putting the dropped runs of white space back
      between the pieces gives `s` again, each run is non-empty white
      space, so every white-space character separates two pieces; and the
      last piece is empty exactly when `s` is empty or ends with white
      space. */
  lemma SplitRebuilds(s: string)
    ensures |Separators(s)| + 1 == |Split(s)|
    ensures forall k | 0 <= k < |Separators(s)| ::
      Separators(s)[k] != "" && AllIn(WhiteSpace, Separators(s)[k])
    ensures Weave(Split(s), Separators(s)) == s
    ensures Split(s)[|Split(s)| - 1] == "" <==> s == [] || IsSpace(s[|s| - 1])
  {
    SplitFromWeave(WhiteSpace, s, 0);
    assert s[0..] == s;
  }

  /** The runs of white space that `Split(s)` drops. */
  function Separators(s: string): seq<string> {
    SepsFrom(WhiteSpace, s, 0)
  }

  /** Scanning `a + c` from a position inside `a` finds `a`'s own
      separator first. */
  lemma {:induction false} FirstSepPrefix(ws: set<char>, a: string, c: string, i: nat)
    requires i <= |a|
    ensures FirstSepFrom(ws, a + c, i) ==
      if FirstSepFrom(ws, a, i) < |a| then FirstSepFrom(ws, a, i) else FirstSepFrom(ws, a + c, |a|)
    decreases |a| - i
  {
    if i < |a| {
      assert (a + c)[i] == a[i];
      if a[i] !in ws {
        FirstSepPrefix(ws, a, c, i + 1);
      }
    }
  }

  lemma {:induction false} RunEndPrefix(ws: set<char>, a: string, c: string, i: nat)
    requires i <= |a|
    ensures RunEnd(ws, a + c, i) ==
      if RunEnd(ws, a, i) < |a| then RunEnd(ws, a, i) else RunEnd(ws, a + c, |a|)
    decreases |a| - i
  {
    if i < |a| {
      assert (a + c)[i] == a[i];
      if a[i] in ws {
        RunEndPrefix(ws, a, c, i + 1);
      }
    }
  }

  /** Scanning behind a prefix `p` is scanning without it, shifted. */
  lemma {:induction false} FirstSepShift(ws: set<char>, p: string, b: string, k: nat)
    requires k <= |b|
    ensures FirstSepFrom(ws, p + b, |p| + k) == |p| + FirstSepFrom(ws, b, k)
    decreases |b| - k
  {
    if k < |b| {
      assert (p + b)[|p| + k] == b[k];
      if b[k] !in ws {
        FirstSepShift(ws, p, b, k + 1);
      }
    }
  }

  lemma {:induction false} RunEndShift(ws: set<char>, p: string, b: string, k: nat)
    requires k <= |b|
    ensures RunEnd(ws, p + b, |p| + k) == |p| + RunEnd(ws, b, k)
    decreases |b| - k
  {
    if k < |b| {
      assert (p + b)[|p| + k] == b[k];
      if b[k] in ws {
        RunEndShift(ws, p, b, k + 1);
      }
    }
  }

  lemma {:induction false} SplitShift(ws: set<char>, p: string, b: string, k: nat)
    requires k <= |b|
    ensures SplitFrom(ws, p + b, |p| + k) == SplitFrom(ws, b, k)
    decreases |b| - k
  {
    var j := FirstSepFrom(ws, b, k);
    FirstSepShift(ws, p, b, k);
    if j == |b| {
      assert (p + b)[|p| + k..] == b[k..];
    } else {
      var e := RunEnd(ws, b, j);
      RunEndShift(ws, p, b, j);
      SplitShift(ws, p, b, e);
      SplitShiftStep(ws, p, b, k, j, e);
    }
  }

  /** One step of `SplitShift`: the piece before the separator run is the
      same in both scans. */
  lemma SplitShiftStep(ws: set<char>, p: string, b: string, k: nat, j: nat, e: nat)
    requires k <= j < e <= |b|
    requires FirstSepFrom(ws, p + b, |p| + k) == |p| + j
    requires RunEnd(ws, p + b, |p| + j) == |p| + e
    ensures SplitFrom(ws, p + b, |p| + k) == [b[k..j]] + SplitFrom(ws, p + b, |p| + e)
  {
    assert (p + b)[|p| + k..|p| + j] == b[k..j];
  }

  /** The pieces that are not empty, in order. */
  function NonEmpty(words: seq<string>): (r: seq<string>)
    ensures |r| <= |words|
    ensures forall k | 0 <= k < |r| :: r[k] != ""
  {
    if words == [] then []
    else if words[0] == "" then NonEmpty(words[1..])
    else [words[0]] + NonEmpty(words[1..])
  }

  lemma {:induction false} NonEmptyAppend(u: seq<string>, v: seq<string>)
    ensures NonEmpty(u + v) == NonEmpty(u) + NonEmpty(v)
  {
    if u != [] {
      assert (u + v)[1..] == u[1..] + v;
      NonEmptyAppend(u[1..], v);
    } else {
      assert u + v == v;
    }
  }

  /** Leading separators only add an empty first piece. */
  lemma SkipLeading(ws: set<char>, b: string)
    ensures NonEmpty(SplitFrom(ws, b, 0)) == NonEmpty(SplitFrom(ws, b, RunEnd(ws, b, 0)))
  {
    if b != [] && b[0] in ws {
      assert SplitFrom(ws, b, 0) == [""] + SplitFrom(ws, b, RunEnd(ws, b, 0));
    }
  }

  /** The separator run at a glued space reaches past `b`'s own leading
      separators. */
  lemma GlueRun(ws: set<char>, a: string, b: string)
    requires ' ' in ws
    ensures RunEnd(ws, a + " " + b, |a|) == |a| + 1 + RunEnd(ws, b, 0)
  {
    var s := a + " " + b;
    assert s[|a|] == ' ';
    RunEndShift(ws, a + " ", b, 0);
  }

  /** Past the glued space the scan goes on as it does in `b` alone. */
  lemma GlueResume(ws: set<char>, a: string, b: string, k: nat)
    requires k <= |b|
    ensures SplitFrom(ws, a + " " + b, |a| + 1 + k) == SplitFrom(ws, b, k)
  {
    SplitShift(ws, a + " ", b, k);
  }

  /** After the glued space's run, the non-empty pieces are `b`'s. */
  lemma GlueTail(ws: set<char>, a: string, b: string)
    requires ' ' in ws
    ensures var s := a + " " + b;
      NonEmpty(SplitFrom(ws, s, RunEnd(ws, s, |a|))) == NonEmpty(SplitFrom(ws, b, 0))
  {
    var s := a + " " + b;
    var r := RunEnd(ws, b, 0);
    GlueRun(ws, a, b);
    GlueResume(ws, a, b, r);
    assert SplitFrom(ws, s, RunEnd(ws, s, |a|)) == SplitFrom(ws, b, r);
    SkipLeading(ws, b);
  }

  /** `a[i..]` holds no separator: its one piece is followed by `b`'s. */
  lemma GlueWord(ws: set<char>, a: string, b: string, i: nat)
    requires ' ' in ws
    requires i <= |a| && FirstSepFrom(ws, a, i) == |a|
    ensures NonEmpty(SplitFrom(ws, a + " " + b, i)) ==
      NonEmpty(SplitFrom(ws, a, i)) + NonEmpty(SplitFrom(ws, b, 0))
  {
    var s := a + " " + b;
    assert s == a + (" " + b);
    assert s[|a|] == ' ';
    FirstSepPrefix(ws, a, " " + b, i);
    assert FirstSepFrom(ws, s, |a|) == |a|;
    assert s[i..|a|] == a[i..];
    var tail := SplitFrom(ws, s, RunEnd(ws, s, |a|));
    assert SplitFrom(ws, s, i) == [a[i..]] + tail;
    GlueTail(ws, a, b);
    NonEmptyAppend([a[i..]], tail);
  }

  /** The first separator run of `a[i..]` reaches the end of `a`: it merges
      with the glued space. */
  lemma GlueTrailing(ws: set<char>, a: string, b: string, i: nat)
    requires ' ' in ws
    requires i <= |a| && FirstSepFrom(ws, a, i) < |a|
    requires RunEnd(ws, a, FirstSepFrom(ws, a, i)) == |a|
    ensures NonEmpty(SplitFrom(ws, a + " " + b, i)) ==
      NonEmpty(SplitFrom(ws, a, i)) + NonEmpty(SplitFrom(ws, b, 0))
  {
    var s := a + " " + b;
    var j := FirstSepFrom(ws, a, i);
    assert s == a + (" " + b);
    FirstSepPrefix(ws, a, " " + b, i);
    RunEndPrefix(ws, a, " " + b, j);
    assert s[i..j] == a[i..j];
    var tail := SplitFrom(ws, s, RunEnd(ws, s, |a|));
    assert SplitFrom(ws, s, i) == [a[i..j]] + tail;
    assert a[|a|..] == "";
    assert SplitFrom(ws, a, |a|) == [""];
    GlueTail(ws, a, b);
    NonEmptyAppend([a[i..j]], tail);
    NonEmptyAppend([a[i..j]], [""]);
  }

  /** A piece of `a` that ends before the end of `a` is also the first
      piece of `a` glued to anything. */
  lemma GlueFirstPiece(ws: set<char>, a: string, b: string, i: nat)
    requires i <= |a| && FirstSepFrom(ws, a, i) < |a|
    requires RunEnd(ws, a, FirstSepFrom(ws, a, i)) < |a|
    ensures var j := FirstSepFrom(ws, a, i);
      SplitFrom(ws, a + " " + b, i) == [a[i..j]] + SplitFrom(ws, a + " " + b, RunEnd(ws, a, j))
  {
    var c := " " + b;
    var s := a + c;
    assert a + " " + b == s;
    var j := FirstSepFrom(ws, a, i);
    FirstSepPrefix(ws, a, c, i);
    RunEndPrefix(ws, a, c, j);
    assert s[i..j] == a[i..j];
  }

  /** Putting the same piece in front of two lists keeps a relation
      between their non-empty pieces. */
  lemma NonEmptyCons(p: string, x: seq<string>, y: seq<string>, tail: seq<string>)
    requires NonEmpty(x) == NonEmpty(y) + tail
    ensures NonEmpty([p] + x) == NonEmpty([p] + y) + tail
  {
    assert ([p] + x)[1..] == x;
    assert ([p] + y)[1..] == y;
    if p != "" {
      assert [p] + (NonEmpty(y) + tail) == ([p] + NonEmpty(y)) + tail;
    }
  }

  /** Gluing two texts with one space splits into the non-empty pieces of
      the first followed by those of the second, from any starting
      position in the first. */
  lemma {:induction false} SplitFromGlue(ws: set<char>, a: string, b: string, i: nat)
    requires ' ' in ws
    requires i <= |a|
    ensures NonEmpty(SplitFrom(ws, a + " " + b, i)) ==
      NonEmpty(SplitFrom(ws, a, i)) + NonEmpty(SplitFrom(ws, b, 0))
    decreases |a| - i
  {
    var j := FirstSepFrom(ws, a, i);
    if j == |a| {
      GlueWord(ws, a, b, i);
    } else if RunEnd(ws, a, j) == |a| {
      GlueTrailing(ws, a, b, i);
    } else {
      var e := RunEnd(ws, a, j);
      SplitFromGlue(ws, a, b, e);
      GlueFirstPiece(ws, a, b, i);
      assert SplitFrom(ws, a, i) == [a[i..j]] + SplitFrom(ws, a, e);
      NonEmptyCons(a[i..j], SplitFrom(ws, a + " " + b, e), SplitFrom(ws, a, e), NonEmpty(SplitFrom(ws, b, 0)));
    }
  }

  /** Splitting `a + " " + b` yields the non-empty words of `a` followed by
      those of `b`. */
  lemma SplitGlue(a: string, b: string)
    ensures NonEmpty(Split(a + " " + b)) == NonEmpty(Split(a)) + NonEmpty(Split(b))
  {
    SplitFromGlue(WhiteSpace, a, b, 0);
  }

  /** `parts.join(sep)`. */
  function Join(parts: seq<string>, sep: string): (r: string)
    ensures parts == [] ==> r == ""
    ensures |parts| == 1 ==> r == parts[0]
    ensures |parts| >= 1 ==> parts[0] <= r
    ensures |parts| > 1 ==> parts[0] + sep <= r
  {
    if parts == [] then ""
    else if |parts| == 1 then parts[0]
    else parts[0] + sep + Join(parts[1..], sep)
  }

  /** A join of non-empty pieces free of separators starts with a
      character that is not a separator. */
  lemma JoinStartsWith(ws: set<char>, parts: seq<string>)
    requires |parts| >= 1
    requires forall k | 0 <= k < |parts| :: parts[k] != "" && NoneIn(ws, parts[k])
    ensures |Join(parts, " ")| > 0 && Join(parts, " ")[0] !in ws
  {
    if |parts| > 1 {
      assert Join(parts, " ")[0] == parts[0][0];
    }
  }

  /** A separator-free word glued by a space to a text that starts with a
      non-separator is the first piece, and the text's pieces follow. */
  lemma SplitFromWord(ws: set<char>, w: string, rest: string)
    requires ' ' in ws
    requires NoneIn(ws, w)
    requires rest != [] && rest[0] !in ws
    ensures SplitFrom(ws, w + " " + rest, 0) == [w] + SplitFrom(ws, rest, 0)
  {
    var s := w + " " + rest;
    assert s == w + (" " + rest);
    FirstSepPrefix(ws, w, " " + rest, 0);
    assert s[|w|] == ' ';
    assert s[..|w|] == w;
    GlueRun(ws, w, rest);
    GlueResume(ws, w, rest, 0);
  }

  /** Splitting undoes joining with one space, for non-empty pieces free
      of separators. */
  lemma {:induction false} SplitFromJoin(ws: set<char>, parts: seq<string>)
    requires ' ' in ws
    requires |parts| >= 1
    requires forall k | 0 <= k < |parts| :: parts[k] != "" && NoneIn(ws, parts[k])
    ensures SplitFrom(ws, Join(parts, " "), 0) == parts
  {
    var w := parts[0];
    if |parts| > 1 {
      JoinStartsWith(ws, parts[1..]);
      SplitFromWord(ws, w, Join(parts[1..], " "));
      SplitFromJoin(ws, parts[1..]);
      assert parts == [w] + parts[1..];
    } else {
      assert w[0..] == w;
    }
  }

  /** Splitting undoes joining with one space, for non-empty pieces
      without white space. */
  lemma SplitJoin(parts: seq<string>)
    requires |parts| >= 1
    requires forall k | 0 <= k < |parts| :: parts[k] != "" && NoSpace(parts[k])
    ensures Split(Join(parts, " ")) == parts
  {
    SplitFromJoin(WhiteSpace, parts);
  }
}
