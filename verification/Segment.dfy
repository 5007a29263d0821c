/** The Turkish sentence segmenter: abbreviation masking, splitting, merging short and breaking long segments. */
module Segment {
  import opened Prelude
  import opened Text

  const MIN_CHARS := 12
  const MAX_CHARS := 240

  /** U+0001, which no normalised input contains. */
  const MARK: char := 1 as char

  // ---------- Abbreviation periods ----------

  const MULTI_PERIOD: seq<string> := ["K.K.T.C", "M.Ö", "M.S", "T.C"]
  const TITLES: seq<string> :=
    ["Dr", "Doç", "Prof", "Av", "Sn", "Hz", "Sn", "No", "Cad", "Sok", "Mah", "Apt", "Bld", "Blv"]

  /** `\b` before position i, for any classification of word characters. */
  predicate WordBoundary(t: string, i: nat, isWord: char -> bool)
    requires i < |t|
  {
    (i > 0 && isWord(t[i - 1])) != isWord(t[i])
  }

  predicate Occurs(t: string, i: nat, w: string) {
    i + |w| <= |t| && t[i..i + |w|] == w
  }

  /** Length of the match of one abbreviation pattern at i; 0 when there is none. */
  function MatchAt(t: string, i: nat, abbrev: string, dotOptional: bool, isWord: char -> bool): (n: nat)
    requires i < |t|
    ensures i + n <= |t|
  {
    if abbrev == "" || !Occurs(t, i, abbrev) || !WordBoundary(t, i, isWord) then 0
    else
      var dotted := i + |abbrev| < |t| && t[i + |abbrev|] == '.';
      if dotted then |abbrev| + 1 else if dotOptional then |abbrev| else 0
  }

  /** The first alternative that matches at i. */
  function FirstMatch(t: string, i: nat, abbrevs: seq<string>, dotOptional: bool, isWord: char -> bool): (n: nat)
    requires i < |t|
    ensures i + n <= |t|
  {
    if abbrevs == [] then 0
    else
      var n := MatchAt(t, i, abbrevs[0], dotOptional, isWord);
      if n > 0 then n else FirstMatch(t, i, abbrevs[1..], dotOptional, isWord)
  }

  function MaskDots(s: string): string {
    seq(|s|, i requires 0 <= i < |s| => if s[i] == '.' then MARK else s[i])
  }

  /** The match length at every position, 0 where nothing matches. */
  function Matches(t: string, abbrevs: seq<string>, dotOptional: bool, isWord: char -> bool): (lens: seq<nat>)
    ensures Within(t, lens)
  {
    seq(|t|, i requires 0 <= i < |t| => FirstMatch(t, i, abbrevs, dotOptional, isWord))
  }

  predicate Within(t: string, lens: seq<nat>) {
    |lens| == |t| && forall i :: 0 <= i < |t| ==> i + lens[i] <= |t|
  }

  /** One substitution pass over t from position i: leftmost matches, not overlapping. */
  function MaskPass(t: string, i: nat, lens: seq<nat>): string
    requires i <= |t| && Within(t, lens)
    decreases |t| - i
  {
    if i == |t| then []
    else if lens[i] > 0 then MaskDots(t[i..i + lens[i]]) + MaskPass(t, i + lens[i], lens)
    else [t[i]] + MaskPass(t, i + 1, lens)
  }

  function MaskMulti(t: string, k: nat, isWord: char -> bool): string
    requires k <= 4
  {
    if k == 0 then t
    else
      var u := MaskMulti(t, k - 1, isWord);
      MaskPass(u, 0, Matches(u, [MULTI_PERIOD[k - 1]], true, isWord))
  }

  /** `_protect_abbreviations`. */
  function Protect(t: string, isWord: char -> bool): string {
    var u := MaskMulti(t, 4, isWord);
    MaskPass(u, 0, Matches(u, TITLES, false, isWord))
  }

  /** `_restore_abbreviations`. */
  function Restore(s: string): string {
    seq(|s|, i requires 0 <= i < |s| => if s[i] == MARK then '.' else s[i])
  }

  /** b is a with some periods masked. */
  predicate Masked(a: string, b: string) {
    |a| == |b| && forall i :: 0 <= i < |a| ==> b[i] == a[i] || (a[i] == '.' && b[i] == MARK)
  }

  predicate MaskedFrom(t: string, i: nat, b: string)
    requires i <= |t|
  {
    |b| == |t| - i && forall k :: 0 <= k < |b| ==> b[k] == t[i + k] || (t[i + k] == '.' && b[k] == MARK)
  }

  lemma MaskedPiece(t: string, i: nat, n: nat, rest: string)
    requires i + n <= |t| && MaskedFrom(t, i + n, rest)
    ensures MaskedFrom(t, i, MaskDots(t[i..i + n]) + rest)
    ensures n == 1 ==> MaskedFrom(t, i, [t[i]] + rest)
  {
  }

  lemma {:induction false} PassMasks(t: string, i: nat, lens: seq<nat>)
    requires i <= |t| && Within(t, lens)
    ensures MaskedFrom(t, i, MaskPass(t, i, lens))
    decreases |t| - i
  {
    if i < |t| {
      var n := if lens[i] > 0 then lens[i] else 1;
      PassMasks(t, i + n, lens);
      MaskedPiece(t, i, n, MaskPass(t, i + n, lens));
    }
  }

  lemma {:induction false} MultiMasks(t: string, k: nat, isWord: char -> bool)
    requires k <= 4
    ensures Masked(t, MaskMulti(t, k, isWord))
  {
    if k > 0 {
      MultiMasks(t, k - 1, isWord);
      var u := MaskMulti(t, k - 1, isWord);
      PassMasks(u, 0, Matches(u, [MULTI_PERIOD[k - 1]], true, isWord));
    }
  }

  /** Masking touches periods only, and restoring undoes it on every text free of the mark. */
  lemma ProtectRestores(t: string, isWord: char -> bool)
    requires MARK !in t
    ensures Masked(t, Protect(t, isWord))
    ensures Restore(Protect(t, isWord)) == t
  {
    MultiMasks(t, 4, isWord);
    var u := MaskMulti(t, 4, isWord);
    PassMasks(u, 0, Matches(u, TITLES, false, isWord));
  }

  lemma {:induction false} RestoreInk(s: string)
    ensures Ink(Restore(s)) == Restore(Ink(s))
  {
    if s != [] {
      assert Front(Restore(s)) == Restore(Front(s));
      RestoreInk(Front(s));
      if !IsSpace(Last(s)) {
        assert Restore(Ink(Front(s)) + [Last(s)]) == Restore(Ink(Front(s))) + Restore([Last(s)]);
      }
    }
  }

  function RestoreAll(ss: seq<string>): seq<string> {
    seq(|ss|, i requires 0 <= i < |ss| => Restore(ss[i]))
  }

  lemma {:induction false} RestoreInks(ss: seq<string>)
    ensures Inks(RestoreAll(ss)) == Restore(Inks(ss))
  {
    if ss != [] {
      assert Front(RestoreAll(ss)) == RestoreAll(Front(ss));
      RestoreInks(Front(ss));
      RestoreInk(Last(ss));
      assert Restore(Inks(Front(ss)) + Ink(Last(ss))) == Restore(Inks(Front(ss))) + Restore(Ink(Last(ss)));
    }
  }

  predicate Letter(c: char) {
    'A' <= c <= 'Z' || 'a' <= c <= 'z' || c == 'ç'
  }

  predicate Lettered(s: string) {
    s != "" && forall k :: 0 <= k < |s| ==> Letter(s[k])
  }

  predicate AllLettered(ss: seq<string>) {
    forall k :: 0 <= k < |ss| ==> Lettered(ss[k])
  }

  lemma {:induction false} TitleShape(t: string, i: nat, titles: seq<string>, isWord: char -> bool)
    requires i < |t| && AllLettered(titles)
    ensures var n := FirstMatch(t, i, titles, false, isWord);
            n > 0 ==>
              && n >= 2 && WordBoundary(t, i, isWord) && t[i + n - 1] == '.'
              && forall k :: i <= k < i + n - 1 ==> Letter(t[k])
  {
    if titles != [] {
      var w := titles[0];
      if MatchAt(t, i, w, false, isWord) > 0 {
        assert forall k :: i <= k < i + |w| ==> t[k] == w[k - i];
      } else {
        TitleShape(t, i, titles[1..], isWord);
      }
    }
  }

  lemma LetteredApart(t: string, titles: seq<string>, isWord: char -> bool)
    requires AllLettered(titles) && forall c :: Letter(c) ==> isWord(c)
    ensures Apart(t, Matches(t, titles, false, isWord))
  {
    var lens := Matches(t, titles, false, isWord);
    forall i | 0 <= i < |t|
      ensures lens[i] > 0 ==> t[i + lens[i] - 1] == '.'
    {
      TitleShape(t, i, titles, isWord);
    }
    forall i, p | 0 <= i < p < |t| && lens[p] > 0
      ensures i + lens[i] <= p
    {
      TitleShape(t, i, titles, isWord);
      TitleShape(t, p, titles, isWord);
    }
  }

  /** Where letters are word characters, two title matches never overlap. */
  lemma TitlesApart(t: string, isWord: char -> bool)
    requires forall c :: Letter(c) ==> isWord(c)
    ensures Apart(t, Matches(t, TITLES, false, isWord))
  {
    TitlesLettered();
    LetteredApart(t, TITLES, isWord);
  }

  /** Matches end with a period and do not overlap. */
  predicate Apart(t: string, lens: seq<nat>) {
    && Within(t, lens)
    && (forall i :: 0 <= i < |t| && lens[i] > 0 ==> t[i + lens[i] - 1] == '.')
    && forall i, p :: 0 <= i < p < |t| && lens[p] > 0 ==> i + lens[i] <= p
  }

  lemma DotsOf(s: string)
    ensures |MaskDots(s)| == |s| && forall k :: 0 <= k < |s| && s[k] == '.' ==> MaskDots(s)[k] == MARK
  {
  }

  lemma PassPiece(t: string, i: nat, lens: seq<nat>) returns (piece: string)
    requires i < |t| && Within(t, lens)
    ensures var n := if lens[i] > 0 then lens[i] else 1;
            && |piece| == n && MaskPass(t, i, lens) == piece + MaskPass(t, i + n, lens)
            && (lens[i] > 0 ==> forall k :: 0 <= k < n && t[i + k] == '.' ==> piece[k] == MARK)
            && (lens[i] == 0 ==> piece == [t[i]])
  {
    if lens[i] > 0 {
      piece := MaskDots(t[i..i + lens[i]]);
      DotsOf(t[i..i + lens[i]]);
    } else {
      piece := [t[i]];
    }
  }

  lemma PassShift(t: string, i: nat, lens: seq<nat>) returns (next: nat)
    requires i < |t| && Within(t, lens)
    ensures next == i + if lens[i] > 0 then lens[i] else 1
    ensures |MaskPass(t, i, lens)| == |t| - i && |MaskPass(t, next, lens)| == |t| - next
    ensures forall k :: next - i <= k < |t| - i ==> MaskPass(t, i, lens)[k] == MaskPass(t, next, lens)[k - (next - i)]
    ensures lens[i] > 0 ==> forall d :: i <= d < next && t[d] == '.' ==> MaskPass(t, i, lens)[d - i] == MARK
    ensures lens[i] == 0 ==> MaskPass(t, i, lens)[0] == t[i]
  {
    next := i + if lens[i] > 0 then lens[i] else 1;
    PassMasks(t, i, lens);
    PassMasks(t, next, lens);
    var piece := PassPiece(t, i, lens);
    var rest := MaskPass(t, next, lens);
    forall d | i <= d < next && t[d] == '.' && lens[i] > 0
      ensures (piece + rest)[d - i] == MARK
    {
      assert piece[d - i] == MARK;
    }
  }

  /** Every period of a match that no earlier match overlaps is masked. */
  lemma {:induction false} MatchMasked(t: string, i: nat, p: nat, lens: seq<nat>, d: nat)
    requires i <= p < |t| && Within(t, lens) && p <= d < p + lens[p] && t[d] == '.'
    requires forall k :: 0 <= k < p ==> k + lens[k] <= p
    ensures |MaskPass(t, i, lens)| == |t| - i
    ensures MaskPass(t, i, lens)[d - i] == MARK
    decreases |t| - i
  {
    var next := PassShift(t, i, lens);
    if i < p {
      MatchMasked(t, next, p, lens, d);
    }
  }

  lemma NoCutAtMatch(t: string, p: nat, lens: seq<nat>, j: nat)
    requires p < |t| && Apart(t, lens) && lens[p] > 0 && p + lens[p] <= j <= |t|
    ensures var u := MaskPass(t, 0, lens);
            |u| == |t| && !CutAt(Sentences, u, p + lens[p], j)
  {
    MatchMasked(t, 0, p, lens, p + lens[p] - 1);
  }

  /**
    The period of a title never ends a sentence: whatever follows the title at p,
    the masked text is not cut there.
  */
  lemma TitlesDoNotSplit(t: string, p: nat, isWord: char -> bool, j: nat)
    requires p < |t| && forall c :: Letter(c) ==> isWord(c)
    requires var lens := Matches(t, TITLES, false, isWord); lens[p] > 0 && p + lens[p] <= j <= |t|
    ensures var lens := Matches(t, TITLES, false, isWord);
            var u := MaskPass(t, 0, lens);
            |u| == |t| && !CutAt(Sentences, u, p + lens[p], j)
  {
    TitlesApart(t, isWord);
    NoCutAtMatch(t, p, Matches(t, TITLES, false, isWord), j);
  }

  // ---------- Abbreviations through all passes ----------

  lemma MaskedTrans(a: string, b: string, c: string)
    requires Masked(a, b) && Masked(b, c)
    ensures Masked(a, c)
  {
  }

  /** A pass only masks more. */
  lemma {:induction false} LaterPasses(t: string, j: nat, k: nat, isWord: char -> bool)
    requires j <= k <= 4
    ensures Masked(MaskMulti(t, j, isWord), MaskMulti(t, k, isWord))
    decreases k
  {
    if j < k {
      LaterPasses(t, j, k - 1, isWord);
      var u := MaskMulti(t, k - 1, isWord);
      PassMasks(u, 0, Matches(u, [MULTI_PERIOD[k - 1]], true, isWord));
      MaskedTrans(MaskMulti(t, j, isWord), u, MaskMulti(t, k, isWord));
    }
  }

  /** What is masked after k passes stays masked. */
  lemma StaysMasked(t: string, k: nat, d: nat, isWord: char -> bool)
    requires k <= 4 && d < |t| && |MaskMulti(t, k, isWord)| == |t| && MaskMulti(t, k, isWord)[d] == MARK
    ensures |Protect(t, isWord)| == |t| && Protect(t, isWord)[d] == MARK
  {
    LaterPasses(t, k, 4, isWord);
    var u := MaskMulti(t, 4, isWord);
    PassMasks(u, 0, Matches(u, TITLES, false, isWord));
  }

  /** Masking does not change where words begin. */
  predicate Punctuation(isWord: char -> bool) {
    isWord('.') == isWord(MARK) && forall c :: Letter(c) ==> isWord(c)
  }

  lemma SameBoundary(t: string, u: string, i: nat, isWord: char -> bool)
    requires Masked(t, u) && i < |t| && Punctuation(isWord)
    ensures WordBoundary(u, i, isWord) == WordBoundary(t, i, isWord)
  {
  }

  // A title whose period is not masked yet is still there for the last pass.
  lemma {:induction false} TitleStays(t: string, u: string, i: nat, titles: seq<string>, isWord: char -> bool)
    requires Masked(t, u) && i < |t| && AllLettered(titles) && Punctuation(isWord)
    requires FirstMatch(t, i, titles, false, isWord) > 0
    requires u[i + FirstMatch(t, i, titles, false, isWord) - 1] == '.'
    ensures FirstMatch(u, i, titles, false, isWord) > 0
  {
    var w := titles[0];
    if MatchAt(t, i, w, false, isWord) > 0 {
      SameBoundary(t, u, i, isWord);
      assert forall k :: i <= k < i + |w| ==> t[k] == w[k - i] && u[k] == t[k];
      assert u[i..i + |w|] == w;
    } else {
      TitleStays(t, u, i, titles[1..], isWord);
    }
  }

  lemma SameLength(t: string, u: string, i: nat, titles: seq<string>, isWord: char -> bool)
    requires Masked(t, u) && i < |t| && AllLettered(titles)
    requires FirstMatch(t, i, titles, false, isWord) > 0 && FirstMatch(u, i, titles, false, isWord) > 0
    ensures FirstMatch(u, i, titles, false, isWord) == FirstMatch(t, i, titles, false, isWord)
  {
    TitleShape(t, i, titles, isWord);
    TitleShape(u, i, titles, isWord);
  }

  lemma TitlesLettered()
    ensures AllLettered(TITLES)
  {
  }

  lemma TitleMasked(t: string, u: string, p: nat, isWord: char -> bool)
    requires Masked(t, u) && p < |t| && Punctuation(isWord) && FirstMatch(t, p, TITLES, false, isWord) > 0
    requires u[p + FirstMatch(t, p, TITLES, false, isWord) - 1] == '.'
    ensures var lens := Matches(u, TITLES, false, isWord);
            && |MaskPass(u, 0, lens)| == |u|
            && MaskPass(u, 0, lens)[p + FirstMatch(t, p, TITLES, false, isWord) - 1] == MARK
  {
    TitlesLettered();
    TitleStays(t, u, p, TITLES, isWord);
    SameLength(t, u, p, TITLES, isWord);
    TitlesApart(u, isWord);
    MatchMasked(u, 0, p, Matches(u, TITLES, false, isWord), p + FirstMatch(t, p, TITLES, false, isWord) - 1);
  }

  /** Every title's period is masked in the protected text. */
  lemma TitleProtected(t: string, p: nat, isWord: char -> bool)
    requires p < |t| && Punctuation(isWord) && FirstMatch(t, p, TITLES, false, isWord) > 0
    ensures var end := p + FirstMatch(t, p, TITLES, false, isWord);
            |Protect(t, isWord)| == |t| && Protect(t, isWord)[end - 1] == MARK
  {
    TitlesLettered();
    TitleShape(t, p, TITLES, isWord);
    var u, end := MaskMulti(t, 4, isWord), p + FirstMatch(t, p, TITLES, false, isWord);
    MultiMasks(t, 4, isWord);
    if u[end - 1] == MARK {
      StaysMasked(t, 4, end - 1, isWord);
    } else {
      TitleMasked(t, u, p, isWord);
    }
  }

  predicate MultiAt(t: string, p: nat, k: nat, isWord: char -> bool)
    requires k < 4 && p < |t|
  {
    Occurs(t, p, MULTI_PERIOD[k]) && WordBoundary(t, p, isWord)
  }

  lemma FirstOfOne(t: string, p: nat, w: string, isWord: char -> bool)
    requires p < |t|
    ensures FirstMatch(t, p, [w], true, isWord) == MatchAt(t, p, w, true, isWord)
  {
    assert [w][1..] == [];
  }

  lemma MatchesMulti(t: string, p: nat, k: nat, isWord: char -> bool)
    requires k < 4 && p < |t|
    ensures var w, n := MULTI_PERIOD[k], Matches(t, [MULTI_PERIOD[k]], true, isWord)[p];
            && (n > 0 <==> MultiAt(t, p, k, isWord))
            && (n > 0 ==> n == if p + |w| < |t| && t[p + |w|] == '.' then |w| + 1 else |w|)
  {
    FirstOfOne(t, p, MULTI_PERIOD[k], isWord);
    assert MULTI_PERIOD[k] != "";
  }

  lemma OccursChars(t: string, p: nat, w: string)
    requires Occurs(t, p, w)
    ensures forall x :: 0 <= x < |w| ==> t[p + x] == w[x]
  {
    assert t[p..p + |w|] == w;
  }

  lemma CharAt(t: string, p: nat, w: string, x: nat)
    requires Occurs(t, p, w) && x < |w|
    ensures t[p + x] == w[x]
  {
    OccursChars(t, p, w);
  }

  // Two occurrences of one pattern never overlap, not even in the optional period.
  lemma MultiApart(t: string, i: nat, p: nat, k: nat)
    requires k < 4 && i < p && Occurs(t, i, MULTI_PERIOD[k]) && Occurs(t, p, MULTI_PERIOD[k])
    ensures i + |MULTI_PERIOD[k]| <= p && (i + |MULTI_PERIOD[k]| == p ==> t[p] != '.')
  {
    var w := MULTI_PERIOD[k];
    CharAt(t, i, w, 1);
    CharAt(t, i, w, 2);
    CharAt(t, p, w, 0);
    CharAt(t, p, w, 2);
    if k == 0 {
      CharAt(t, i, w, 3);
      CharAt(t, i, w, 4);
      CharAt(t, i, w, 5);
      CharAt(t, i, w, 6);
      assert w == "K.K.T.C";
    } else {
      assert |w| == 3 && w[2] != w[0];
    }
  }

  /** After its pass every period of a multi-period abbreviation is masked. */
  lemma MultiMasked(t: string, p: nat, k: nat, d: nat, isWord: char -> bool)
    requires k < 4 && p <= d < |t| && MultiAt(t, p, k, isWord) && d <= p + |MULTI_PERIOD[k]| && t[d] == '.'
    ensures |MaskPass(t, 0, Matches(t, [MULTI_PERIOD[k]], true, isWord))| == |t|
    ensures MaskPass(t, 0, Matches(t, [MULTI_PERIOD[k]], true, isWord))[d] == MARK
  {
    var lens := Matches(t, [MULTI_PERIOD[k]], true, isWord);
    MatchesMulti(t, p, k, isWord);
    forall i | 0 <= i < p
      ensures i + lens[i] <= p
    {
      MatchesMulti(t, i, k, isWord);
      if lens[i] > 0 {
        MultiApart(t, i, p, k);
      }
    }
    MatchMasked(t, 0, p, lens, d);
  }

  // A period that a pass masks lies in a match all of whose periods it masks.
  lemma {:induction false} MaskOrigin(t: string, i: nat, lens: seq<nat>, d: nat) returns (q: nat)
    requires i <= d < |t| && Within(t, lens) && t[d] == '.'
    requires |MaskPass(t, i, lens)| == |t| - i && MaskPass(t, i, lens)[d - i] == MARK
    ensures i <= q <= d < q + lens[q]
    ensures forall x :: q <= x < q + lens[q] && t[x] == '.' ==> MaskPass(t, i, lens)[x - i] == MARK
    decreases |t| - i
  {
    var next := PassShift(t, i, lens);
    if d < next {
      q := i;
    } else {
      q := MaskOrigin(t, next, lens, d);
      forall x | q <= x < q + lens[q] && t[x] == '.'
        ensures MaskPass(t, i, lens)[x - i] == MARK
      {
        assert MaskPass(t, next, lens)[x - next] == MARK;
      }
    }
  }

  // An earlier pattern that reaches a period of a later one contains it: only K.K.T.C over T.C.
  lemma OnlyOverlap(t: string, q: nat, j: nat, p: nat, k: nat, d: nat)
    requires j < k < 4 && Occurs(t, q, MULTI_PERIOD[j]) && Occurs(t, p, MULTI_PERIOD[k])
    requires d < |t| && t[d] == '.' && q <= d <= q + |MULTI_PERIOD[j]| && p <= d <= p + |MULTI_PERIOD[k]|
    ensures j == 0 && k == 3 && q + 4 == p
  {
    var v, w := MULTI_PERIOD[j], MULTI_PERIOD[k];
    OccursChars(t, q, v);
    OccursChars(t, p, w);
    assert |w| == 3 && w[0] != '.' && w[2] != '.';
    assert d == p + 1 || d == p + 3;
    assert v[0] != '.' && t[q] == v[0];
    assert t[d - 1] == v[d - 1 - q];
    if d == p + 1 {
      assert t[d - 1] == w[0] && t[d + 1] == w[2];
      if d < q + |v| {
        assert t[d + 1] == v[d + 1 - q];
      }
    } else {
      assert t[d - 1] == w[2];
    }
  }

  /** Nothing of the occurrence at p has been touched. */
  predicate Intact(t: string, u: string, p: nat, n: nat) {
    |u| == |t| && forall x :: p <= x < |t| && x <= p + n ==> u[x] == t[x]
  }

  predicate Gone(t: string, u: string, p: nat, n: nat) {
    |u| == |t| && forall x :: p <= x < |t| && x <= p + n && t[x] == '.' ==> u[x] == MARK
  }

  lemma OverlapGone(t: string, j: nat, p: nat, k: nat, d: nat, lens: seq<nat>, isWord: char -> bool)
    requires j < k < 4 && p < |t| && Occurs(t, p, MULTI_PERIOD[k]) && lens == Matches(t, [MULTI_PERIOD[j]], true, isWord)
    requires p <= d < |t| && d <= p + |MULTI_PERIOD[k]| && t[d] == '.'
    requires |MaskPass(t, 0, lens)| == |t| && MaskPass(t, 0, lens)[d] == MARK
    ensures Gone(t, MaskPass(t, 0, lens), p, |MULTI_PERIOD[k]|)
  {
    var q := MaskOrigin(t, 0, lens, d);
    MatchesMulti(t, q, j, isWord);
    OnlyOverlap(t, q, j, p, k, d);
    SpanGone(t, MaskPass(t, 0, lens), p, q + lens[q]);
  }

  lemma SpanGone(t: string, u: string, p: nat, end: nat)
    requires |u| == |t| && p + 3 <= end <= |t| && (p + 3 < |t| && t[p + 3] == '.' ==> p + 3 < end)
    requires forall x :: p <= x < end && t[x] == '.' ==> u[x] == MARK
    ensures Gone(t, u, p, 3)
  {
  }

  lemma MaskedOrIntact(t: string, u: string, p: nat, n: nat)
    requires Masked(t, u)
    ensures Intact(t, u, p, n) || exists d: nat :: p <= d < |t| && d <= p + n && t[d] == '.' && u[d] == MARK
  {
  }

  // An earlier pass leaves a later pattern's occurrence alone or masks all of it.
  lemma PassEither(t: string, j: nat, p: nat, k: nat, isWord: char -> bool)
    requires j < k < 4 && p < |t| && Occurs(t, p, MULTI_PERIOD[k])
    ensures var u := MaskPass(t, 0, Matches(t, [MULTI_PERIOD[j]], true, isWord));
            Intact(t, u, p, |MULTI_PERIOD[k]|) || Gone(t, u, p, |MULTI_PERIOD[k]|)
  {
    var n, lens := |MULTI_PERIOD[k]|, Matches(t, [MULTI_PERIOD[j]], true, isWord);
    var u := MaskPass(t, 0, lens);
    PassMasks(t, 0, lens);
    MaskedOrIntact(t, u, p, n);
    if !Intact(t, u, p, n) {
      var d: nat :| p <= d < |t| && d <= p + n && t[d] == '.' && u[d] == MARK;
      OverlapGone(t, j, p, k, d, lens, isWord);
    }
  }

  lemma GoneStays(t: string, u: string, v: string, p: nat, n: nat)
    requires Gone(t, u, p, n) && Masked(u, v)
    ensures Gone(t, v, p, n)
  {
  }

  lemma IntactThen(t: string, u: string, v: string, p: nat, n: nat)
    requires Intact(t, u, p, n) && (Intact(u, v, p, n) || Gone(u, v, p, n))
    ensures Intact(t, v, p, n) || Gone(t, v, p, n)
  {
  }

  lemma OccursIntact(t: string, u: string, p: nat, w: string)
    requires Intact(t, u, p, |w|) && Occurs(t, p, w)
    ensures Occurs(u, p, w)
  {
    assert u[p..p + |w|] == t[p..p + |w|];
  }

  lemma {:induction false} PassesEither(t: string, p: nat, k: nat, j: nat, isWord: char -> bool)
    requires j <= k < 4 && p < |t| && Occurs(t, p, MULTI_PERIOD[k])
    ensures Intact(t, MaskMulti(t, j, isWord), p, |MULTI_PERIOD[k]|) || Gone(t, MaskMulti(t, j, isWord), p, |MULTI_PERIOD[k]|)
  {
    if j > 0 {
      PassesEither(t, p, k, j - 1, isWord);
      var u, v, n := MaskMulti(t, j - 1, isWord), MaskMulti(t, j, isWord), |MULTI_PERIOD[k]|;
      if Intact(t, u, p, n) {
        OccursIntact(t, u, p, MULTI_PERIOD[k]);
        PassEither(u, j - 1, p, k, isWord);
        IntactThen(t, u, v, p, n);
      } else {
        LaterPasses(t, j - 1, j, isWord);
        GoneStays(t, u, v, p, n);
      }
    }
  }

  lemma IntactStays(t: string, u: string, p: nat, k: nat, isWord: char -> bool)
    requires k < 4 && p < |t| && MultiAt(t, p, k, isWord) && Masked(t, u) && Punctuation(isWord)
    requires Intact(t, u, p, |MULTI_PERIOD[k]|)
    ensures MultiAt(u, p, k, isWord)
  {
    var n := |MULTI_PERIOD[k]|;
    assert u[p..p + n] == t[p..p + n];
    SameBoundary(t, u, p, isWord);
  }

  /** Every period of a multi-period abbreviation, the optional last one included, is masked in the protected text. */
  lemma MultiProtected(t: string, p: nat, k: nat, d: nat, isWord: char -> bool)
    requires k < 4 && p <= d < |t| && MultiAt(t, p, k, isWord) && d <= p + |MULTI_PERIOD[k]| && t[d] == '.'
    requires Punctuation(isWord)
    ensures |Protect(t, isWord)| == |t| && Protect(t, isWord)[d] == MARK
  {
    var u, n := MaskMulti(t, k, isWord), |MULTI_PERIOD[k]|;
    MultiMasks(t, k, isWord);
    PassesEither(t, p, k, k, isWord);
    if Gone(t, u, p, n) {
      StaysMasked(t, k, d, isWord);
    } else {
      IntactStays(t, u, p, k, isWord);
      MultiMasked(u, p, k, d, isWord);
      StaysMasked(t, k + 1, d, isWord);
    }
  }

  // ---------- And nothing else is masked ----------

  lemma SameBack(t: string, u: string, q: nat, w: string)
    requires Masked(t, u) && Occurs(u, q, w) && forall x :: 0 <= x < |w| ==> w[x] != MARK
    ensures Occurs(t, q, w)
  {
    OccursChars(u, q, w);
    assert t[q..q + |w|] == w;
  }

  lemma NoMarkInPatterns(k: nat)
    requires k < 4
    ensures forall x :: 0 <= x < |MULTI_PERIOD[k]| ==> MULTI_PERIOD[k][x] != MARK
  {
  }

  // A match on the masked text is a match on the text.
  lemma MultiBack(t: string, u: string, q: nat, k: nat, isWord: char -> bool)
    requires k < 4 && Masked(t, u) && q < |u| && MultiAt(u, q, k, isWord) && Punctuation(isWord)
    ensures MultiAt(t, q, k, isWord)
  {
    NoMarkInPatterns(k);
    SameBack(t, u, q, MULTI_PERIOD[k]);
    SameBoundary(t, u, q, isWord);
  }

  lemma {:induction false} TitleBack(t: string, u: string, i: nat, titles: seq<string>, isWord: char -> bool)
    requires Masked(t, u) && i < |u| && AllLettered(titles) && Punctuation(isWord)
    requires FirstMatch(u, i, titles, false, isWord) > 0
    ensures FirstMatch(t, i, titles, false, isWord) > 0
  {
    var w := titles[0];
    if MatchAt(u, i, w, false, isWord) > 0 {
      assert forall x :: 0 <= x < |w| ==> Letter(w[x]);
      SameBack(t, u, i, w);
      SameBoundary(t, u, i, isWord);
    } else {
      TitleBack(t, u, i, titles[1..], isWord);
    }
  }

  /** Position d lies in an occurrence of one of the first j multi-period abbreviations, its optional period included. */
  ghost predicate InMulti(t: string, j: nat, d: nat, isWord: char -> bool)
    requires j <= 4
  {
    exists k: nat, p: nat :: k < j && p <= d && p < |t| && MultiAt(t, p, k, isWord) && d <= p + |MULTI_PERIOD[k]|
  }

  lemma {:induction false} MultiOrigin(t: string, j: nat, d: nat, isWord: char -> bool)
    requires j <= 4 && d < |t| && t[d] == '.' && Punctuation(isWord)
    requires |MaskMulti(t, j, isWord)| == |t| && MaskMulti(t, j, isWord)[d] == MARK
    ensures InMulti(t, j, d, isWord)
  {
    var u := MaskMulti(t, j - 1, isWord);
    MultiMasks(t, j - 1, isWord);
    if u[d] == MARK {
      MultiOrigin(t, j - 1, d, isWord);
      InMore(t, j - 1, j, d, isWord);
    } else {
      PassOrigin(t, u, j - 1, d, isWord);
    }
  }

  lemma InMore(t: string, i: nat, j: nat, d: nat, isWord: char -> bool)
    requires i <= j <= 4 && InMulti(t, i, d, isWord)
    ensures InMulti(t, j, d, isWord)
  {
    var k: nat, p: nat :| k < i && p <= d && p < |t| && MultiAt(t, p, k, isWord) && d <= p + |MULTI_PERIOD[k]|;
    assert k < j && MultiAt(t, p, k, isWord);
  }

  lemma PassOrigin(t: string, u: string, k: nat, d: nat, isWord: char -> bool)
    requires k < 4 && Masked(t, u) && d < |t| && u[d] == '.' && Punctuation(isWord)
    requires var v := MaskPass(u, 0, Matches(u, [MULTI_PERIOD[k]], true, isWord)); |v| == |u| && v[d] == MARK
    ensures InMulti(t, k + 1, d, isWord)
  {
    var q := MaskOrigin(u, 0, Matches(u, [MULTI_PERIOD[k]], true, isWord), d);
    MatchesMulti(u, q, k, isWord);
    MultiBack(t, u, q, k, isWord);
  }

  lemma TitleOrigin(t: string, u: string, d: nat, isWord: char -> bool)
    requires Masked(t, u) && d < |t| && u[d] == '.' && Punctuation(isWord)
    requires var v := MaskPass(u, 0, Matches(u, TITLES, false, isWord)); |v| == |u| && v[d] == MARK
    ensures exists p: nat :: p <= d && FirstMatch(t, p, TITLES, false, isWord) == d + 1 - p
  {
    var q := MaskOrigin(u, 0, Matches(u, TITLES, false, isWord), d);
    TitlesLettered();
    TitleShape(u, q, TITLES, isWord);
    TitleBack(t, u, q, TITLES, isWord);
    SameLength(t, u, q, TITLES, isWord);
  }

  ghost predicate InTitle(t: string, d: nat, isWord: char -> bool)
    requires d < |t|
  {
    exists p: nat :: p <= d && FirstMatch(t, p, TITLES, false, isWord) == d + 1 - p
  }

  lemma MaskedIfAbbreviated(t: string, d: nat, isWord: char -> bool)
    requires d < |t| && t[d] == '.' && Punctuation(isWord) && (InTitle(t, d, isWord) || InMulti(t, 4, d, isWord))
    ensures |Protect(t, isWord)| == |t| && Protect(t, isWord)[d] == MARK
  {
    if InTitle(t, d, isWord) {
      var p: nat :| p <= d && FirstMatch(t, p, TITLES, false, isWord) == d + 1 - p;
      TitleProtected(t, p, isWord);
    } else {
      var k: nat, p: nat :| k < 4 && p <= d && p < |t| && MultiAt(t, p, k, isWord) && d <= p + |MULTI_PERIOD[k]|;
      MultiProtected(t, p, k, d, isWord);
    }
  }

  lemma AbbreviatedIfMasked(t: string, d: nat, isWord: char -> bool)
    requires d < |t| && t[d] == '.' && Punctuation(isWord)
    requires |Protect(t, isWord)| == |t| && Protect(t, isWord)[d] == MARK
    ensures InTitle(t, d, isWord) || InMulti(t, 4, d, isWord)
  {
    var u := MaskMulti(t, 4, isWord);
    MultiMasks(t, 4, isWord);
    if u[d] == MARK {
      MultiOrigin(t, 4, d, isWord);
    } else {
      TitleOrigin(t, u, d, isWord);
    }
  }

  lemma ProtectLength(t: string, isWord: char -> bool)
    ensures |Protect(t, isWord)| == |t|
  {
    var u := MaskMulti(t, 4, isWord);
    MultiMasks(t, 4, isWord);
    PassMasks(u, 0, Matches(u, TITLES, false, isWord));
  }

  /** A period of the text is masked exactly when it belongs to a title or to a multi-period abbreviation. */
  lemma MaskedIff(t: string, d: nat, isWord: char -> bool)
    requires d < |t| && t[d] == '.' && Punctuation(isWord)
    ensures |Protect(t, isWord)| == |t|
    ensures Protect(t, isWord)[d] == MARK <==> InTitle(t, d, isWord) || InMulti(t, 4, d, isWord)
  {
    ProtectLength(t, isWord);
    if InTitle(t, d, isWord) || InMulti(t, 4, d, isWord) {
      MaskedIfAbbreviated(t, d, isWord);
    }
    if Protect(t, isWord)[d] == MARK {
      AbbreviatedIfMasked(t, d, isWord);
    }
  }

  /**
    No abbreviation ends a sentence: in the protected text there is no cut after
    a title, nor after a multi-period abbreviation with its optional period.
  */
  lemma AbbreviationsDoNotSplit(t: string, p: nat, end: nat, j: nat, isWord: char -> bool)
    requires Punctuation(isWord) && p < end <= j <= |t| && t[end - 1] == '.'
    requires || FirstMatch(t, p, TITLES, false, isWord) == end - p
             || exists k: nat :: k < 4 && MultiAt(t, p, k, isWord) && end - 1 == p + |MULTI_PERIOD[k]|
    ensures |Protect(t, isWord)| == |t| && !CutAt(Sentences, Protect(t, isWord), end, j)
  {
    if FirstMatch(t, p, TITLES, false, isWord) == end - p {
      TitleProtected(t, p, isWord);
      NoCutAfterMark(Protect(t, isWord), end, j);
    } else {
      var k: nat :| k < 4 && MultiAt(t, p, k, isWord) && end - 1 == p + |MULTI_PERIOD[k]|;
      MultiProtected(t, p, k, end - 1, isWord);
      NoCutAfterMark(Protect(t, isWord), end, j);
    }
  }

  lemma NoCutAfterMark(u: string, end: nat, j: nat)
    requires 0 < end <= j <= |u| && u[end - 1] == MARK
    ensures !CutAt(Sentences, u, end, j)
  {
  }

  // ---------- Splitting at whitespace runs ----------

  datatype Splitter = Sentences | Clauses

  /** The end of the whitespace run that starts at i. */
  function RunEnd(t: string, i: nat): (j: nat)
    requires i <= |t|
    ensures i <= j <= |t|
    ensures forall k :: i <= k < j ==> IsSpace(t[k])
    ensures j < |t| ==> !IsSpace(t[j])
    decreases |t| - i
  {
    if i < |t| && IsSpace(t[i]) then RunEnd(t, i + 1) else i
  }

  predicate Opener(c: char) {
    'A' <= c <= 'Z' || '0' <= c <= '9' || c in "ÇĞİÖŞÜ\"'("
  }

  /** The whitespace run [i, j) separates two pieces. */
  predicate CutAt(kind: Splitter, t: string, i: nat, j: nat)
    requires i <= j <= |t|
  {
    i > 0 &&
    match kind
    case Sentences => t[i - 1] in ".!?…" && j < |t| && Opener(t[j])
    case Clauses => t[i - 1] in ",;:"
  }

  /** `re.split`: the pieces of t[start..], scanning from i. */
  function Split(kind: Splitter, t: string, start: nat, i: nat): (pieces: seq<string>)
    requires start <= i <= |t|
    ensures pieces != []
    decreases |t| - i
  {
    if i == |t| then [t[start..]]
    else if IsSpace(t[i]) then
      var j := RunEnd(t, i);
      if CutAt(kind, t, i, j) then [t[start..i]] + Split(kind, t, j, j) else Split(kind, t, start, j)
    else Split(kind, t, start, i + 1)
  }

  lemma CutInk(t: string, start: nat, i: nat, j: nat)
    requires start <= i <= j <= |t| && Blank(t[i..j])
    ensures Ink(t[start..]) == Ink(t[start..i]) + Ink(t[j..])
  {
    assert t[start..] == t[start..i] + (t[i..j] + t[j..]);
    InkAppend(t[start..i], t[i..j] + t[j..]);
    InkAppend(t[i..j], t[j..]);
    InkBlank(t[i..j]);
  }

  lemma {:induction false} SplitConserves(kind: Splitter, t: string, start: nat, i: nat)
    requires start <= i <= |t|
    ensures Inks(Split(kind, t, start, i)) == Ink(t[start..])
    decreases |t| - i
  {
    if i == |t| {
      InksOne(t[start..]);
    } else if IsSpace(t[i]) {
      var j := RunEnd(t, i);
      if CutAt(kind, t, i, j) {
        SplitConserves(kind, t, j, j);
        InksAppend([t[start..i]], Split(kind, t, j, j));
        InksOne(t[start..i]);
        CutInk(t, start, i, j);
      } else {
        SplitConserves(kind, t, start, j);
      }
    } else {
      SplitConserves(kind, t, start, i + 1);
    }
  }

  /** A maximal whitespace run starts at p. */
  predicate RunStart(t: string, p: nat)
    requires p < |t|
  {
    IsSpace(t[p]) && (p == 0 || !IsSpace(t[p - 1]))
  }

  /** The declared separators of t from i on: maximal whitespace runs between the right characters. */
  ghost function Cuts(kind: Splitter, t: string, i: nat): set<nat> {
    set p: nat | i <= p < |t| && RunStart(t, p) && CutAt(kind, t, p, RunEnd(t, p))
  }

  /** What a separator is: a whole whitespace run between these characters. */
  lemma SeparatorIff(kind: Splitter, t: string, p: nat)
    ensures p in Cuts(kind, t, 0) <==>
      && 0 < p < |t| && IsSpace(t[p]) && !IsSpace(t[p - 1])
      && if kind.Clauses? then t[p - 1] in ",;:"
         else t[p - 1] in ".!?…"
              && exists j :: p < j < |t| && (forall k :: p <= k < j ==> IsSpace(t[k])) && !IsSpace(t[j])
                   && ('A' <= t[j] <= 'Z' || '0' <= t[j] <= '9' || t[j] in "ÇĞİÖŞÜ\"'(")
  {
    if p < |t| && IsSpace(t[p]) {
      var end := RunEnd(t, p);
      assert end > p;
    }
  }

  lemma CutsStep(kind: Splitter, t: string, i: nat)
    requires i < |t| && (IsSpace(t[i]) ==> RunStart(t, i))
    ensures var j := if IsSpace(t[i]) then RunEnd(t, i) else i + 1;
            && i < j <= |t|
            && Cuts(kind, t, i) == Cuts(kind, t, j) + (if IsSpace(t[i]) && CutAt(kind, t, i, j) then {i} else {})
  {
    var j := if IsSpace(t[i]) then RunEnd(t, i) else i + 1;
    forall p: nat | i < p < j
      ensures !RunStart(t, p)
    {
      assert IsSpace(t[p - 1]);
    }
  }

  /** There is one piece more than there are separators. */
  lemma {:induction false} SplitCutsAll(kind: Splitter, t: string, start: nat, i: nat)
    requires start <= i <= |t| && (i < |t| && IsSpace(t[i]) ==> RunStart(t, i))
    ensures |Split(kind, t, start, i)| == 1 + |Cuts(kind, t, i)|
    decreases |t| - i
  {
    if i == |t| {
      assert Cuts(kind, t, i) == {};
    } else {
      CutsStep(kind, t, i);
      if IsSpace(t[i]) {
        var j := RunEnd(t, i);
        SplitCutsAll(kind, t, if CutAt(kind, t, i, j) then j else start, j);
      } else {
        SplitCutsAll(kind, t, start, i + 1);
      }
    }
  }

  /**
    t from start on is the pieces interleaved with the whitespace runs that start
    at the given positions, in this order: piece, run, piece, run, ..., piece.
  */
  ghost predicate Interleaved(t: string, start: nat, pieces: seq<string>, at: seq<nat>)
    requires start <= |t|
    decreases |at|
  {
    if at == [] then pieces == [t[start..]]
    else
      && pieces != [] && start <= at[0] < |t| && RunStart(t, at[0])
      && pieces[0] == t[start..at[0]]
      && Interleaved(t, RunEnd(t, at[0]), pieces[1..], at[1..])
  }

  /**
    A text is cut at its declared separators, all of them and nowhere else: it is
    the pieces interleaved, in order, with exactly those whitespace runs.
  */
  lemma {:induction false} SplitAtCuts(kind: Splitter, t: string, start: nat, i: nat) returns (at: seq<nat>)
    requires start <= i <= |t| && (i < |t| && IsSpace(t[i]) ==> RunStart(t, i))
    ensures Interleaved(t, start, Split(kind, t, start, i), at)
    ensures forall p: nat :: p in at <==> p in Cuts(kind, t, i)
    ensures forall k :: 0 <= k < |at| ==> i <= at[k]
    decreases |t| - i
  {
    if i == |t| {
      at := [];
    } else {
      CutsStep(kind, t, i);
      if IsSpace(t[i]) {
        var j := RunEnd(t, i);
        if CutAt(kind, t, i, j) {
          var rest := SplitAtCuts(kind, t, j, j);
          at := [i] + rest;
          assert at[1..] == rest && Split(kind, t, start, i)[1..] == Split(kind, t, j, j);
        } else {
          at := SplitAtCuts(kind, t, start, j);
        }
      } else {
        at := SplitAtCuts(kind, t, start, i + 1);
      }
    }
  }

  predicate Chunk(s: string) {
    s != [] && Trimmed(s)
  }

  predicate Chunks(ss: seq<string>) {
    forall i :: 0 <= i < |ss| ==> Chunk(ss[i])
  }

  predicate LongEnough(ss: seq<string>) {
    forall i :: 0 <= i < |ss| ==> |ss[i]| >= MIN_CHARS
  }

  lemma ChunksSnoc(ss: seq<string>, s: string)
    requires Chunks(ss) && Chunk(s)
    ensures Chunks(ss + [s])
  {
  }

  lemma ChunksFront(ss: seq<string>)
    requires Chunks(ss) && ss != []
    ensures Chunks(Front(ss)) && Chunk(Last(ss))
  {
  }

  lemma LongSnoc(ss: seq<string>, s: string)
    requires LongEnough(ss) && |s| >= MIN_CHARS
    ensures LongEnough(ss + [s])
  {
  }

  lemma LongFront(ss: seq<string>)
    requires LongEnough(ss) && ss != []
    ensures LongEnough(Front(ss)) && |Last(ss)| >= MIN_CHARS
  {
  }

  lemma {:induction false} RunEndsInside(t: string, i: nat)
    requires i < |t| && !IsSpace(Last(t))
    ensures RunEnd(t, i) < |t|
    decreases |t| - i
  {
    if IsSpace(t[i]) && i + 1 < |t| {
      RunEndsInside(t, i + 1);
    }
  }

  /** The clauses of a trimmed segment are non-empty and trimmed. */
  lemma {:induction false} ClausesAreChunks(t: string, start: nat, i: nat)
    requires Trimmed(t) && start < |t| && start <= i <= |t| && !IsSpace(t[start])
    requires i < |t| && IsSpace(t[i]) ==> start < i && !IsSpace(t[i - 1])
    ensures Chunks(Split(Clauses, t, start, i))
    decreases |t| - i
  {
    if i == |t| {
      assert Last(t[start..]) == Last(t);
    } else if IsSpace(t[i]) {
      var j := RunEnd(t, i);
      RunEndsInside(t, i);
      if CutAt(Clauses, t, i, j) {
        ClausesAreChunks(t, j, j);
        assert Last(t[start..i]) == t[i - 1];
      } else {
        ClausesAreChunks(t, start, j);
      }
    } else {
      ClausesAreChunks(t, start, i + 1);
    }
  }

  // ---------- Merging short segments ----------

  function Glue(buf: string, s: string): string {
    if buf == "" then s else Strip(buf + " " + s)
  }

  datatype Merging = Merging(merged: seq<string>, buf: string)

  function MergeStep(m: Merging, s: string): Merging {
    var candidate := Glue(m.buf, s);
    if |candidate| < MIN_CHARS then m.(buf := candidate) else Merging(m.merged + [candidate], "")
  }

  function MergeAll(segs: seq<string>): Merging {
    if segs == [] then Merging([], "") else MergeStep(MergeAll(Front(segs)), Last(segs))
  }

  /** A short remainder joins the last merged segment, or stands alone. */
  function MergeOf(segs: seq<string>): seq<string> {
    var m := MergeAll(segs);
    if m.buf == "" then m.merged
    else if m.merged == [] then [m.buf]
    else Front(m.merged) + [Strip(Last(m.merged) + " " + m.buf)]
  }

  /** `_merge_short`. */
  method MergeShort(segs: seq<string>) returns (merged: seq<string>)
    ensures merged == MergeOf(segs)
  {
    merged := [];
    var buf := "";
    var i := 0;
    while i < |segs|
      invariant 0 <= i <= |segs|
      invariant MergeAll(segs[..i]) == Merging(merged, buf)
    {
      var seg := segs[i];
      var candidate := if buf != "" then Strip(buf + " " + seg) else seg;
      assert Front(segs[..i + 1]) == segs[..i];
      i := i + 1;
      if |candidate| < MIN_CHARS {
        buf := candidate;
        continue;
      }
      merged := merged + [candidate];
      buf := "";
    }
    assert segs[..i] == segs;
    if buf != "" {
      if merged != [] {
        merged := merged[|merged| - 1 := Strip(merged[|merged| - 1] + " " + buf)];
      } else {
        merged := [buf];
      }
    }
  }

  lemma GlueChunks(a: string, b: string)
    requires Chunk(a) && Chunk(b)
    ensures Strip(a + " " + b) == a + " " + b
    ensures Chunk(a + " " + b) && Ink(a + " " + b) == Ink(a) + Ink(b)
  {
    var s := a + " " + b;
    assert s[0] == a[0] && Last(s) == Last(b);
    StripTrimmed(s);
    InkAppend(a + " ", b);
    InkAppend(a, " ");
    InkBlank(" ");
  }

  predicate MergeInv(m: Merging) {
    Chunks(m.merged) && LongEnough(m.merged) && |m.buf| < MIN_CHARS && (m.buf != "" ==> Chunk(m.buf))
  }

  lemma GlueKeeps(buf: string, s: string)
    requires buf != "" ==> Chunk(buf)
    requires Chunk(s)
    ensures Chunk(Glue(buf, s)) && Ink(Glue(buf, s)) == Ink(buf) + Ink(s)
  {
    if buf == "" {
      assert Ink(buf) == "";
    } else {
      GlueChunks(buf, s);
    }
  }

  lemma MergeStepInv(m: Merging, s: string)
    requires MergeInv(m) && Chunk(s)
    ensures MergeInv(MergeStep(m, s))
    ensures MergeStep(m, s).merged != [] || MergeStep(m, s).buf != ""
  {
    var c := Glue(m.buf, s);
    GlueKeeps(m.buf, s);
    if |c| >= MIN_CHARS {
      ChunksSnoc(m.merged, c);
      LongSnoc(m.merged, c);
    }
  }

  lemma Regroup(a: string, b: string, c: string)
    ensures a + (b + c) == a + b + c
  {
  }

  lemma MergeStepInk(m: Merging, s: string)
    requires MergeInv(m) && Chunk(s)
    ensures Inks(MergeStep(m, s).merged) + Ink(MergeStep(m, s).buf) == Inks(m.merged) + Ink(m.buf) + Ink(s)
  {
    var c := Glue(m.buf, s);
    GlueKeeps(m.buf, s);
    Regroup(Inks(m.merged), Ink(m.buf), Ink(s));
    if |c| >= MIN_CHARS {
      InksSnoc(m.merged, c);
      InkEmpty();
    }
  }

  lemma InkEmpty()
    ensures Ink("") == ""
  {
  }

  lemma {:induction false} MergeAllKeeps(segs: seq<string>)
    requires Chunks(segs)
    ensures var m := MergeAll(segs);
            && MergeInv(m) && (m.merged == [] && m.buf == "" ==> segs == [])
            && Inks(m.merged) + Ink(m.buf) == Inks(segs)
  {
    if segs == [] {
      InkEmpty();
    } else {
      ChunksFront(segs);
      MergeAllKeeps(Front(segs));
      MergeStepInv(MergeAll(Front(segs)), Last(segs));
      MergeStepInk(MergeAll(Front(segs)), Last(segs));
      InksBy(segs);
    }
  }

  /**
    Merging conserves the text in order; merged segments are non-empty and
    trimmed, and have at least 12 characters unless there is only one.
  */
  lemma MergeKeeps(segs: seq<string>)
    requires Chunks(segs)
    ensures Inks(MergeOf(segs)) == Inks(segs)
    ensures Chunks(MergeOf(segs))
    ensures |MergeOf(segs)| == 1 || LongEnough(MergeOf(segs))
    ensures segs != [] ==> MergeOf(segs) != []
  {
    MergeAllKeeps(segs);
    var m := MergeAll(segs);
    if m.buf == "" {
      InkEmpty();
    } else if m.merged == [] {
      InksOne(m.buf);
      InkEmpty();
    } else {
      TailJoins(m.merged, m.buf);
    }
  }

  lemma TailJoins(merged: seq<string>, buf: string)
    requires merged != [] && Chunks(merged) && LongEnough(merged) && Chunk(buf)
    ensures var all := Front(merged) + [Strip(Last(merged) + " " + buf)];
            && Chunks(all) && LongEnough(all)
            && Inks(all) == Inks(merged) + Ink(buf)
  {
    var front, last := Front(merged), Last(merged);
    ChunksFront(merged);
    LongFront(merged);
    GlueChunks(last, buf);
    InksBy(merged);
    TailInk(front, last, buf);
    ChunksSnoc(front, last + " " + buf);
    LongSnoc(front, last + " " + buf);
  }

  lemma TailInk(front: seq<string>, last: string, buf: string)
    requires Chunk(last) && Chunk(buf)
    ensures Inks(front + [last + " " + buf]) == Inks(front) + Ink(last) + Ink(buf)
  {
    GlueChunks(last, buf);
    InksSnoc(front, last + " " + buf);
    Regroup(Inks(front), Ink(last), Ink(buf));
  }

  /** A beginning of a group, joined, is still too short. */
  ghost predicate ShortUntil(segs: seq<string>, from: nat, to: nat)
    requires from < to <= |segs|
  {
    forall m :: from < m < to ==> |Joined(segs[from..m])| < MIN_CHARS
  }

  /** The open group: joined so far it is the buffer, and every beginning of it is too short. */
  ghost predicate OpenGroup(segs: seq<string>, buf: string, from: nat) {
    && from <= |segs|
    && if from == |segs| then buf == "" else buf == Joined(segs[from..]) && ShortUntil(segs, from, |segs|) && |buf| < MIN_CHARS
  }

  /** Where group k ends. */
  function NextStart(starts: seq<nat>, end: nat, k: nat): nat {
    if k + 1 < |starts| then starts[k + 1] else end
  }

  /** The closed groups: consecutive, and each just long enough. */
  ghost predicate ClosedGroups(segs: seq<string>, merged: seq<string>, starts: seq<nat>, end: nat) {
    && |starts| == |merged| && end <= |segs|
    && (if starts == [] then end == 0 else starts[0] == 0)
    && forall k: nat :: k < |starts| ==> ClosedGroup(segs, merged[k], starts[k], NextStart(starts, end, k))
  }

  ghost predicate ClosedGroup(segs: seq<string>, chunk: string, from: nat, to: nat) {
    from < to <= |segs| && chunk == Joined(segs[from..to]) && |chunk| >= MIN_CHARS && ShortUntil(segs, from, to)
  }

  lemma GroupGrows(segs: seq<string>, s: string, chunk: string, from: nat, to: nat)
    requires ClosedGroup(segs, chunk, from, to)
    ensures ClosedGroup(segs + [s], chunk, from, to)
  {
    assert (segs + [s])[from..to] == segs[from..to];
    forall m | from < m < to
      ensures |Joined((segs + [s])[from..m])| < MIN_CHARS
    {
      assert (segs + [s])[from..m] == segs[from..m];
    }
  }

  lemma GroupsStay(segs: seq<string>, s: string, merged: seq<string>, starts: seq<nat>, end: nat)
    requires ClosedGroups(segs, merged, starts, end)
    ensures ClosedGroups(segs + [s], merged, starts, end)
  {
    forall k: nat | k < |starts|
      ensures ClosedGroup(segs + [s], merged[k], starts[k], NextStart(starts, end, k))
    {
      GroupGrows(segs, s, merged[k], starts[k], NextStart(starts, end, k));
    }
  }

  // The open group with one more segment, as far as it was too short before.
  lemma OpenTakes(segs: seq<string>, buf: string, from: nat, s: string)
    requires OpenGroup(segs, buf, from) && Chunk(s) && (buf != "" ==> Chunk(buf)) && (from < |segs| ==> buf != "")
    ensures from < |segs| + 1 && Glue(buf, s) == Joined((segs + [s])[from..])
    ensures ShortUntil(segs + [s], from, |segs| + 1)
  {
    var all := segs + [s];
    if from == |segs| {
      assert all[from..] == [s];
    } else {
      assert all[from..] == segs[from..] + [s];
      JoinedSnoc(segs[from..], s);
      GlueChunks(buf, s);
      forall m | from < m < |all|
        ensures |Joined(all[from..m])| < MIN_CHARS
      {
        if m < |segs| {
          assert all[from..m] == segs[from..m];
        } else {
          assert all[from..m] == segs[from..];
        }
      }
    }
  }

  lemma CloseGroup(segs: seq<string>, merged: seq<string>, starts: seq<nat>, end: nat, chunk: string)
    requires ClosedGroups(segs, merged, starts, end) && ClosedGroup(segs, chunk, end, |segs|)
    ensures ClosedGroups(segs, merged + [chunk], starts + [end], |segs|)
  {
    var merged', starts' := merged + [chunk], starts + [end];
    forall k: nat | k < |starts'|
      ensures ClosedGroup(segs, merged'[k], starts'[k], NextStart(starts', |segs|, k))
    {
      if k < |starts| {
        assert ClosedGroup(segs, merged[k], starts[k], NextStart(starts, end, k));
      }
    }
  }

  /**
    Merging joins each short segment to what follows: the merged chunks are
    consecutive groups of segments, joined, each no longer than it takes to reach
    12 characters; what remains open is too short.
  */
  lemma {:induction false} MergingIsMinimal(segs: seq<string>) returns (starts: seq<nat>, end: nat)
    requires Chunks(segs)
    ensures ClosedGroups(segs, MergeAll(segs).merged, starts, end)
    ensures OpenGroup(segs, MergeAll(segs).buf, end) && (end < |segs| ==> MergeAll(segs).buf != "")
  {
    if segs == [] {
      starts, end := [], 0;
    } else {
      var front, s := Front(segs), Last(segs);
      FrontLast(segs);
      ChunksFront(segs);
      MergeAllKeeps(front);
      starts, end := MergingIsMinimal(front);
      starts, end := MergesOneMore(front, s, MergeAll(front), starts, end);
    }
  }

  lemma MergesOneMore(front: seq<string>, s: string, m: Merging, starts: seq<nat>, end: nat)
    returns (starts': seq<nat>, end': nat)
    requires MergeInv(m) && Chunk(s) && ClosedGroups(front, m.merged, starts, end)
    requires OpenGroup(front, m.buf, end) && (end < |front| ==> m.buf != "")
    ensures var n, segs := MergeStep(m, s), front + [s];
            && ClosedGroups(segs, n.merged, starts', end')
            && OpenGroup(segs, n.buf, end') && (end' < |segs| ==> n.buf != "")
  {
    var segs, c := front + [s], Glue(m.buf, s);
    GroupsStay(front, s, m.merged, starts, end);
    OpenTakes(front, m.buf, end, s);
    if |c| < MIN_CHARS {
      GlueKeeps(m.buf, s);
      StayOpen(segs, c, end);
      starts', end' := starts, end;
    } else {
      CloseNow(segs, m.merged, starts, end, c);
      starts', end' := starts + [end], |segs|;
    }
  }

  lemma StayOpen(segs: seq<string>, c: string, end: nat)
    requires end < |segs| && c == Joined(segs[end..]) && ShortUntil(segs, end, |segs|) && |c| < MIN_CHARS
    ensures OpenGroup(segs, c, end)
  {
  }

  lemma CloseNow(segs: seq<string>, merged: seq<string>, starts: seq<nat>, end: nat, c: string)
    requires ClosedGroups(segs, merged, starts, end) && end < |segs|
    requires c == Joined(segs[end..]) && ShortUntil(segs, end, |segs|) && |c| >= MIN_CHARS
    ensures ClosedGroups(segs, merged + [c], starts + [end], |segs|) && OpenGroup(segs, "", |segs|)
  {
    assert segs[end..|segs|] == segs[end..];
    CloseGroup(segs, merged, starts, end, c);
  }

  /** Segments that are long enough are left alone. */
  lemma {:induction false} MergeLeavesLong(segs: seq<string>)
    requires LongEnough(segs)
    ensures MergeAll(segs) == Merging(segs, "")
    ensures MergeOf(segs) == segs
  {
    if segs != [] {
      MergeLeavesLong(Front(segs));
      assert segs == Front(segs) + [Last(segs)];
    }
  }

  // ---------- Breaking long segments ----------

  datatype Packing = Packing(out: seq<string>, buf: string)

  function PackStep(p: Packing, part: string): Packing {
    var candidate := Glue(p.buf, part);
    if |candidate| > MAX_CHARS && p.buf != "" then Packing(p.out + [p.buf], part) else p.(buf := candidate)
  }

  function PackAll(parts: seq<string>): Packing {
    if parts == [] then Packing([], "") else PackStep(PackAll(Front(parts)), Last(parts))
  }

  function PackOf(parts: seq<string>): seq<string> {
    var p := PackAll(parts);
    if p.buf == "" then p.out else p.out + [p.buf]
  }

  /** The last blank before 40 characters past the middle, or -1. */
  function MiddleBlank(s: string): (ws: int)
    requires s != []
    ensures -1 <= ws < |s|
  {
    RFindBlank(s, Min(|s| / 2 + 40, |s|))
  }

  /** The last resort: one cut at a blank near the middle. */
  function HardSplit(s: string): seq<string>
    requires s != []
  {
    var ws := MiddleBlank(s);
    if ws < MIN_CHARS then [s] else [Strip(s[..ws]), Strip(s[ws..])]
  }

  function SplitLongOf(s: string): seq<string> {
    if |s| <= MAX_CHARS then [s]
    else
      var parts := Split(Clauses, s, 0, 0);
      if |parts| == 1 then HardSplit(s) else PackOf(parts)
  }

  lemma PackAllStep(parts: seq<string>, i: nat)
    requires i < |parts|
    ensures PackAll(parts[..i + 1]) == PackStep(PackAll(parts[..i]), parts[i])
  {
    assert Front(parts[..i + 1]) == parts[..i];
  }

  /** `_split_long`, past the length guard and with at least one clause boundary. */
  method PackClauses(parts: seq<string>) returns (out: seq<string>)
    ensures out == PackOf(parts)
  {
    out := [];
    var buf := "";
    var i := 0;
    while i < |parts|
      invariant 0 <= i <= |parts|
      invariant PackAll(parts[..i]) == Packing(out, buf)
    {
      var part := parts[i];
      var candidate := if buf != "" then Strip(buf + " " + part) else part;
      PackAllStep(parts, i);
      if |candidate| > MAX_CHARS && buf != "" {
        out := out + [buf];
        buf := part;
      } else {
        buf := candidate;
      }
      i := i + 1;
    }
    assert parts[..i] == parts;
    if buf != "" {
      out := out + [buf];
    }
  }

  /** `_split_long`. */
  method SplitLong(s: string) returns (out: seq<string>)
    ensures out == SplitLongOf(s)
  {
    if |s| <= MAX_CHARS {
      return [s];
    }
    var parts := Split(Clauses, s, 0, 0);
    if |parts| == 1 {
      var ws := MiddleBlank(s);
      if ws < MIN_CHARS {
        return [s];
      }
      return [Strip(s[..ws]), Strip(s[ws..])];
    }
    out := PackClauses(parts);
  }

  /** Every packed chunk fits, or is a single clause that cannot be broken. */
  predicate Fits(c: string, parts: seq<string>) {
    |c| <= MAX_CHARS || c in parts
  }

  predicate AllFit(out: seq<string>, parts: seq<string>) {
    forall i :: 0 <= i < |out| ==> Fits(out[i], parts)
  }

  lemma AllFitSnoc(out: seq<string>, c: string, parts: seq<string>)
    requires AllFit(out, parts) && Fits(c, parts)
    ensures AllFit(out + [c], parts)
  {
  }

  lemma FitsMore(c: string, parts: seq<string>, part: string)
    requires Fits(c, parts)
    ensures Fits(c, parts + [part])
  {
  }

  lemma AllFitMore(out: seq<string>, parts: seq<string>, part: string)
    requires AllFit(out, parts)
    ensures AllFit(out, parts + [part])
  {
    forall i | 0 <= i < |out|
      ensures Fits(out[i], parts + [part])
    {
      FitsMore(out[i], parts, part);
    }
  }

  predicate PackInv(p: Packing, parts: seq<string>) {
    Chunks(p.out) && (p.buf != "" ==> Chunk(p.buf)) && AllFit(p.out, parts) && Fits(p.buf, parts)
  }

  lemma PackStepInv(p: Packing, parts: seq<string>, part: string)
    requires PackInv(p, parts) && Chunk(part)
    ensures PackInv(PackStep(p, part), parts + [part]) && PackStep(p, part).buf != ""
  {
    GlueKeeps(p.buf, part);
    AllFitMore(p.out, parts, part);
    FitsMore(p.buf, parts, part);
    assert (parts + [part])[|parts|] == part;
    if |Glue(p.buf, part)| > MAX_CHARS && p.buf != "" {
      ChunksSnoc(p.out, p.buf);
      AllFitSnoc(p.out, p.buf, parts + [part]);
    }
  }

  lemma PackStepInk(p: Packing, part: string)
    requires p.buf != "" ==> Chunk(p.buf)
    requires Chunk(part)
    ensures Inks(PackStep(p, part).out) + Ink(PackStep(p, part).buf) == Inks(p.out) + Ink(p.buf) + Ink(part)
  {
    GlueKeeps(p.buf, part);
    InksSnoc(p.out, p.buf);
    Regroup(Inks(p.out), Ink(p.buf), Ink(part));
  }

  lemma {:induction false} PackAllInv(parts: seq<string>)
    requires Chunks(parts)
    ensures PackInv(PackAll(parts), parts) && (parts != [] ==> PackAll(parts).buf != "")
  {
    if parts != [] {
      var front, last := Front(parts), Last(parts);
      ChunksFront(parts);
      PackAllInv(front);
      PackStepInv(PackAll(front), front, last);
      assert parts == front + [last];
    }
  }

  lemma {:induction false} PackAllInk(parts: seq<string>)
    requires Chunks(parts)
    ensures Inks(PackAll(parts).out) + Ink(PackAll(parts).buf) == Inks(parts)
  {
    if parts == [] {
      InkEmpty();
    } else {
      var front, last := Front(parts), Last(parts);
      ChunksFront(parts);
      PackAllInk(front);
      PackAllInv(front);
      PackStepInk(PackAll(front), last);
      InksBy(parts);
    }
  }

  lemma HardSplitKeeps(s: string)
    requires Chunk(s)
    ensures Inks(HardSplit(s)) == Ink(s)
    ensures Chunks(HardSplit(s))
  {
    var ws := MiddleBlank(s);
    if ws < MIN_CHARS {
      InksOne(s);
    } else {
      assert s == s[..ws] + s[ws..];
      CutKeeps(s[..ws], s[ws..]);
    }
  }

  /** Both halves of a cut chunk are chunks once stripped. */
  lemma CutKeeps(a: string, b: string)
    requires a != [] && b != [] && !IsSpace(a[0]) && !IsSpace(Last(b))
    ensures Chunks([Strip(a), Strip(b)])
    ensures Inks([Strip(a), Strip(b)]) == Ink(a + b)
  {
    InkAppend(a, b);
    StripChunk(a);
    StripChunk(b);
    InksPair(Strip(a), Strip(b));
  }

  lemma StripChunk(s: string)
    requires s != [] && (!IsSpace(s[0]) || !IsSpace(Last(s)))
    ensures Chunk(Strip(s)) && Ink(Strip(s)) == Ink(s)
  {
    StripInk(s);
  }

  lemma InksPair(a: string, b: string)
    ensures Inks([a, b]) == Ink(a) + Ink(b)
  {
    InksOne(a);
    InksSnoc([a], b);
    assert [a] + [b] == [a, b];
  }

  /**
    Breaking a long segment conserves its text, yields non-empty trimmed
    chunks, and leaves one above 240 characters only when it has no clause
    boundary at all or that chunk is a single unbreakable clause.
  */
  lemma SplitLongKeeps(s: string)
    requires Chunk(s)
    ensures Inks(SplitLongOf(s)) == Ink(s)
    ensures Chunks(SplitLongOf(s)) && SplitLongOf(s) != []
    ensures var parts := Split(Clauses, s, 0, 0);
            |parts| > 1 ==> AllFit(SplitLongOf(s), parts)
  {
    if |s| <= MAX_CHARS {
      InksOne(s);
    } else {
      var parts := Split(Clauses, s, 0, 0);
      ClausesAreChunks(s, 0, 0);
      SplitConserves(Clauses, s, 0, 0);
      assert s[0..] == s;
      if |parts| == 1 {
        HardSplitKeeps(s);
      } else {
        PackAllInv(parts);
        PackAllInk(parts);
        var p := PackAll(parts);
        ChunksSnoc(p.out, p.buf);
        AllFitSnoc(p.out, p.buf, parts);
        InksSnoc(p.out, p.buf);
      }
    }
  }

  // ---------- The whole segmenter ----------

  function NonBlank(pieces: seq<string>): seq<string> {
    if pieces == [] then []
    else if Strip(Last(pieces)) == "" then NonBlank(Front(pieces))
    else NonBlank(Front(pieces)) + [Strip(Last(pieces))]
  }

  lemma {:induction false} NonBlankKeeps(pieces: seq<string>)
    ensures Inks(NonBlank(pieces)) == Inks(pieces)
    ensures Chunks(NonBlank(pieces))
  {
    if pieces != [] {
      NonBlankKeeps(Front(pieces));
      StripInk(Last(pieces));
      if Strip(Last(pieces)) == "" {
        assert Ink("") == "";
      } else {
        InksSnoc(NonBlank(Front(pieces)), Strip(Last(pieces)));
      }
    }
  }

  /** The merged segments of a text, still masked. */
  function MergedOf(text: string, isWord: char -> bool): seq<string> {
    MergeOf(NonBlank(Split(Sentences, Protect(Strip(text), isWord), 0, 0)))
  }

  lemma StripKeepsMark(s: string)
    ensures MARK !in s ==> MARK !in Strip(s)
  {
    LStripSub(s);
    RStripSub(LStrip(s));
  }

  lemma {:induction false} LStripSub(s: string)
    ensures forall c :: c in LStrip(s) ==> c in s
  {
    if s != [] && IsSpace(s[0]) {
      LStripSub(s[1..]);
    }
  }

  lemma {:induction false} RStripSub(s: string)
    ensures forall c :: c in RStrip(s) ==> c in s
  {
    if s != [] && IsSpace(Last(s)) {
      RStripSub(Front(s));
    }
  }

  lemma MergedKeeps(text: string, isWord: char -> bool)
    ensures Chunks(MergedOf(text, isWord))
    ensures MARK !in text ==> Restore(Inks(MergedOf(text, isWord))) == Ink(text)
    ensures |MergedOf(text, isWord)| == 1 || LongEnough(MergedOf(text, isWord))
  {
    var t := Strip(text);
    var p := Protect(t, isWord);
    var pieces := Split(Sentences, p, 0, 0);
    SplitConserves(Sentences, p, 0, 0);
    assert p[0..] == p;
    NonBlankKeeps(pieces);
    MergeKeeps(NonBlank(pieces));
    if MARK !in text {
      StripKeepsMark(text);
      ProtectRestores(t, isWord);
      RestoreInk(p);
      StripInk(text);
    }
  }

  /**
    What a text is segmented into: its protected form cut at exactly the sentence
    separators, blank pieces dropped, short ones merged, long ones broken, and the
    periods restored.
  */
  lemma SentencesOf(text: string, isWord: char -> bool) returns (pieces: seq<string>, at: seq<nat>)
    ensures var p := Protect(Strip(text), isWord);
            && Interleaved(p, 0, pieces, at)
            && forall i: nat :: i in at <==> i in Cuts(Sentences, p, 0)
    ensures ChunksOf(text, isWord) == RestoreAll(Expand(MergeOf(NonBlank(pieces))))
  {
    var p := Protect(Strip(text), isWord);
    pieces := Split(Sentences, p, 0, 0);
    at := SplitAtCuts(Sentences, p, 0, 0);
  }

  lemma RestoreChunk(s: string)
    ensures |Restore(s)| == |s|
    ensures Chunk(s) ==> Chunk(Restore(s))
  {
  }

  function Expand(merged: seq<string>): seq<string> {
    if merged == [] then [] else Expand(Front(merged)) + SplitLongOf(Last(merged))
  }

  lemma {:induction false} ExpandKeeps(merged: seq<string>)
    requires Chunks(merged)
    ensures Chunks(Expand(merged)) && Inks(Expand(merged)) == Inks(merged)
  {
    if merged != [] {
      ChunksFront(merged);
      ExpandKeeps(Front(merged));
      SplitLongKeeps(Last(merged));
      InksAppend(Expand(Front(merged)), SplitLongOf(Last(merged)));
      InksBy(merged);
    }
  }

  predicate NoneLong(merged: seq<string>) {
    forall i :: 0 <= i < |merged| ==> |merged[i]| <= MAX_CHARS
  }

  lemma NoneLongFront(merged: seq<string>)
    requires merged != [] && NoneLong(merged)
    ensures NoneLong(Front(merged)) && |Last(merged)| <= MAX_CHARS
  {
  }

  lemma {:induction false} ExpandNothing(merged: seq<string>)
    requires NoneLong(merged)
    ensures Expand(merged) == merged
  {
    if merged != [] {
      NoneLongFront(merged);
      ExpandNothing(Front(merged));
      ExpandLast(merged, Front(merged), Last(merged));
      FrontLast(merged);
    }
  }

  lemma ExpandLast(merged: seq<string>, front: seq<string>, last: string)
    requires merged != [] && front == Front(merged) && last == Last(merged) && |last| <= 240
    ensures Expand(merged) == Expand(front) + [last]
  {
    ShortStays(last);
  }

  /** A segment of at most 240 characters is left whole. */
  lemma ShortStays(s: string)
    requires |s| <= 240
    ensures SplitLongOf(s) == [s]
  {
  }

  /** What the segmenter returns, as one expression. */
  function ChunksOf(text: string, isWord: char -> bool): seq<string> {
    RestoreAll(Expand(MergedOf(text, isWord)))
  }

  lemma RestoreKeeps(ss: seq<string>)
    requires Chunks(ss)
    ensures Chunks(RestoreAll(ss))
    ensures LongEnough(ss) ==> LongEnough(RestoreAll(ss))
  {
    forall i | 0 <= i < |ss|
      ensures Chunk(RestoreAll(ss)[i]) && |RestoreAll(ss)[i]| == |ss[i]|
    {
      RestoreChunk(ss[i]);
    }
  }

  /**
    For every text without U+0001 the visible characters of the chunks, put
    together, are those of the text, in order. Every chunk is non-empty and
    trimmed. When no merged segment needs breaking, the chunks have at least 12
    characters unless there is only one.
  */
  lemma SegmentationConserves(text: string, isWord: char -> bool)
    ensures Chunks(ChunksOf(text, isWord))
    ensures MARK !in text ==> Inks(ChunksOf(text, isWord)) == Ink(text)
    ensures NoneLong(MergedOf(text, isWord)) ==>
              |ChunksOf(text, isWord)| == 1 || LongEnough(ChunksOf(text, isWord))
  {
    MergedKeeps(text, isWord);
    var merged := MergedOf(text, isWord);
    ExpandKeeps(merged);
    RestoreKeeps(Expand(merged));
    RestoreInks(Expand(merged));
    if NoneLong(merged) {
      ExpandNothing(merged);
    }
  }

  /** `segment_sentences`. */
  method SegmentSentences(text: string, isWord: char -> bool) returns (chunks: seq<string>)
    ensures chunks == ChunksOf(text, isWord)
    ensures Chunks(chunks) && (MARK !in text ==> Inks(chunks) == Ink(text))
  {
    SegmentationConserves(text, isWord);
    assert Strip("") == "";
    if text == "" || Strip(text) == "" {
      BlankText(text, isWord);
      return [];
    }
    var protected := Protect(Strip(text), isWord);
    var raw := NonBlank(Split(Sentences, protected, 0, 0));
    var merged := MergeShort(raw);
    var expanded: seq<string> := [];
    var i := 0;
    while i < |merged|
      invariant 0 <= i <= |merged|
      invariant expanded == Expand(merged[..i])
    {
      var pieces := SplitLong(merged[i]);
      assert Front(merged[..i + 1]) == merged[..i];
      expanded := expanded + pieces;
      i := i + 1;
    }
    assert merged[..i] == merged;
    chunks := RestoreAll(expanded);
  }

  lemma BlankText(text: string, isWord: char -> bool)
    requires Strip(text) == ""
    ensures MergedOf(text, isWord) == [] && Ink(text) == ""
  {
    StripInk(text);
    assert MaskMulti("", 0, isWord) == "";
    assert MaskMulti("", 1, isWord) == "";
    assert MaskMulti("", 2, isWord) == "";
    assert MaskMulti("", 3, isWord) == "";
    assert MaskMulti("", 4, isWord) == "";
    assert Protect("", isWord) == "";
    assert Split(Sentences, "", 0, 0) == [""];
    assert Front([""]) == [];
    assert NonBlank([""]) == [];
  }

  // ---------- The documented lower bound ----------

  lemma {:induction false} NoSpaceNoSplit(kind: Splitter, t: string, start: nat, i: nat, end: nat)
    requires start <= i <= end <= |t| && forall k :: i <= k < end ==> !IsSpace(t[k])
    ensures Split(kind, t, start, i) == Split(kind, t, start, end)
    decreases end - i
  {
    if i < end {
      NoSpaceNoSplit(kind, t, start, i + 1, end);
    }
  }

  /** Clauses joined with one blank. */
  function Joined(parts: seq<string>): string
    requires parts != []
  {
    if |parts| == 1 then parts[0] else Joined(Front(parts)) + " " + Last(parts)
  }

  /** Where chunk k of the packing ends, given the clause each chunk starts with. */
  function GroupEnd(parts: seq<string>, starts: seq<nat>, k: nat): nat
    requires k < |starts|
  {
    if k + 1 < |starts| then starts[k + 1] else |parts|
  }

  /** Chunk k is the clauses from its start up to the next chunk's, joined. */
  ghost predicate Groups(parts: seq<string>, chunks: seq<string>, starts: seq<nat>) {
    && |starts| == |chunks| && (starts != [] ==> starts[0] == 0)
    && forall k: nat :: k < |starts| ==>
         && starts[k] < GroupEnd(parts, starts, k) <= |parts|
         && chunks[k] == Joined(parts[starts[k]..GroupEnd(parts, starts, k)])
  }

  /** No chunk had room for the first clause of the next one. */
  ghost predicate Greedy(parts: seq<string>, chunks: seq<string>, starts: seq<nat>) {
    && |starts| == |chunks|
    && forall k: nat :: k + 1 < |starts| ==> starts[k + 1] < |parts| && |chunks[k]| + 1 + |parts[starts[k + 1]]| > 240
  }

  lemma JoinedSnoc(parts: seq<string>, part: string)
    requires parts != []
    ensures Joined(parts + [part]) == Joined(parts) + " " + part
  {
    assert Front(parts + [part]) == parts;
  }

  // The last group takes one more clause.
  lemma GroupsGrow(front: seq<string>, last: string, out: seq<string>, buf: string, starts: seq<nat>)
    requires Groups(front, out + [buf], starts) && Greedy(front, out + [buf], starts)
    ensures Groups(front + [last], out + [buf + " " + last], starts)
    ensures Greedy(front + [last], out + [buf + " " + last], starts)
  {
    var parts, chunks, chunks' := front + [last], out + [buf], out + [buf + " " + last];
    forall k: nat | k < |starts|
      ensures starts[k] < GroupEnd(parts, starts, k) <= |parts|
      ensures chunks'[k] == Joined(parts[starts[k]..GroupEnd(parts, starts, k)])
    {
      if k + 1 < |starts| {
        assert starts[k + 1] < GroupEnd(front, starts, k + 1) <= |front|;
        assert chunks'[k] == chunks[k];
        assert parts[starts[k]..GroupEnd(parts, starts, k)] == front[starts[k]..GroupEnd(front, starts, k)];
      } else {
        JoinedSnoc(front[starts[k]..], last);
        assert parts[starts[k]..] == front[starts[k]..] + [last];
        assert chunks[k] == buf && front[starts[k]..|front|] == front[starts[k]..];
        assert parts[starts[k]..|parts|] == parts[starts[k]..];
      }
    }
  }

  // A new group starts with the clause that did not fit.
  lemma GroupsStart(front: seq<string>, last: string, out: seq<string>, buf: string, starts: seq<nat>)
    requires Groups(front, out + [buf], starts) && Greedy(front, out + [buf], starts)
    requires |buf| + 1 + |last| > MAX_CHARS
    ensures Groups(front + [last], out + [buf] + [last], starts + [|front|])
    ensures Greedy(front + [last], out + [buf] + [last], starts + [|front|])
  {
    var parts, chunks, chunks', starts' := front + [last], out + [buf], out + [buf] + [last], starts + [|front|];
    forall k: nat | k < |starts'|
      ensures starts'[k] < GroupEnd(parts, starts', k) <= |parts|
      ensures chunks'[k] == Joined(parts[starts'[k]..GroupEnd(parts, starts', k)])
    {
      if k < |starts| {
        assert starts[k] < GroupEnd(front, starts, k) == GroupEnd(parts, starts', k) <= |front|;
        assert chunks'[k] == chunks[k];
        assert parts[starts[k]..GroupEnd(front, starts, k)] == front[starts[k]..GroupEnd(front, starts, k)];
      } else {
        assert parts[|front|..|parts|] == [last];
      }
    }
  }

  /**
    Comma packing is greedy, for every list of clauses: the chunks are
    consecutive groups of clauses, joined, and no chunk had room for the first
    clause of the next one.
  */
  lemma {:induction false} PackingIsGreedy(parts: seq<string>) returns (starts: seq<nat>)
    requires Chunks(parts) && parts != []
    ensures PackOf(parts) == PackAll(parts).out + [PackAll(parts).buf]
    ensures Groups(parts, PackOf(parts), starts) && Greedy(parts, PackOf(parts), starts)
  {
    var front, last := Front(parts), Last(parts);
    FrontLast(parts);
    ChunksFront(parts);
    PackAllInv(parts);
    if front == [] {
      assert parts == [last] && PackAll(parts) == Packing([], last);
      starts := [0];
      assert parts[0..1] == [last] && PackOf(parts) == [last];
    } else {
      PackAllInv(front);
      var p := PackAll(front);
      starts := PackingIsGreedy(front);
      PackStepLengths(p, last);
      if |p.buf| + 1 + |last| > MAX_CHARS {
        GroupsStart(front, last, p.out, p.buf, starts);
        starts := starts + [|front|];
      } else {
        GlueChunks(p.buf, last);
        GroupsGrow(front, last, p.out, p.buf, starts);
      }
    }
  }

  /** Two clauses stay apart exactly when they do not fit together. */
  lemma PackTwo(a: string, b: string)
    requires Chunk(a) && Chunk(b)
    ensures PackOf([a, b]) == if |a| + 1 + |b| > MAX_CHARS then [a, b] else [a + " " + b]
  {
    assert Front([a, b]) == [a] && Front([a]) == [] && Last([a]) == a;
    assert PackAll([a]) == Packing([], a);
    GlueChunks(a, b);
  }

  lemma ClausesOfTail(a: string, s: string)
    requires |a| == 240 && a[239] == ',' && forall k :: 0 <= k < 240 ==> !IsSpace(a[k])
    requires s == a + " b"
    ensures Split(Clauses, s, 0, 0) == [a, "b"]
  {
    assert |s| == 242 && s[240] == ' ' && s[241] == 'b';
    assert forall k :: 0 <= k < 240 ==> s[k] == a[k];
    NoSpaceNoSplit(Clauses, s, 0, 0, 240);
    assert RunEnd(s, 240) == 241;
    NoSpaceNoSplit(Clauses, s, 241, 241, 242);
    assert s[0..240] == a && s[241..] == "b";
  }

  /**
    The 12-character minimum does not survive the breaking of long segments: a
    clause of 240 characters followed by a one-letter one leaves a chunk of one character.
  */
  lemma ShortTailAfterSplit(a: string)
    requires |a| == 240 && a[239] == ',' && forall k :: 0 <= k < 240 ==> !IsSpace(a[k])
    ensures Chunk(a + " b") && |a + " b"| >= MIN_CHARS
    ensures SplitLongOf(a + " b") == [a, "b"]
  {
    var s := a + " b";
    assert s[0] == a[0] && Last(s) == 'b';
    ClausesOfTail(a, s);
    PackTwo(a, "b");
  }

  lemma PackStepLong(p: Packing, part: string)
    requires LongEnough(p.out) && (p.buf != "" ==> Chunk(p.buf) && |p.buf| >= MIN_CHARS)
    requires Chunk(part) && |part| >= MIN_CHARS
    ensures LongEnough(PackStep(p, part).out) && |PackStep(p, part).buf| >= MIN_CHARS
  {
    if p.buf != "" {
      LongSnoc(p.out, p.buf);
      GlueChunks(p.buf, part);
    }
  }

  lemma {:induction false} PackAllLong(parts: seq<string>)
    requires Chunks(parts) && LongEnough(parts)
    ensures LongEnough(PackAll(parts).out) && (parts != [] ==> |PackAll(parts).buf| >= MIN_CHARS)
  {
    if parts != [] {
      ChunksFront(parts);
      LongFront(parts);
      PackAllLong(Front(parts));
      PackAllInv(Front(parts));
      PackStepLong(PackAll(Front(parts)), Last(parts));
    }
  }

  /** It does survive comma packing when every clause has 12 characters itself. */
  lemma LongClausesStayLong(s: string)
    requires Chunk(s) && |s| > MAX_CHARS && |Split(Clauses, s, 0, 0)| > 1
    requires LongEnough(Split(Clauses, s, 0, 0))
    ensures LongEnough(SplitLongOf(s))
  {
    var parts := Split(Clauses, s, 0, 0);
    ClausesAreChunks(s, 0, 0);
    PackAllLong(parts);
    LongSnoc(PackAll(parts).out, PackAll(parts).buf);
  }

  // Comma packing depends on the lengths of the clauses only.

  datatype Lengths = Lengths(out: seq<nat>, buf: nat)

  /** The lengths of the chunks, from those of the clauses: join with one blank while the result fits. */
  function PackLength(p: Lengths, n: nat): Lengths {
    if p.buf == 0 then p.(buf := n)
    else if p.buf + 1 + n > MAX_CHARS then Lengths(p.out + [p.buf], n)
    else p.(buf := p.buf + 1 + n)
  }

  function PackLengths(lens: seq<nat>): Lengths {
    if lens == [] then Lengths([], 0) else PackLength(PackLengths(Front(lens)), Last(lens))
  }

  function LengthsOf(ss: seq<string>): seq<nat> {
    if ss == [] then [] else LengthsOf(Front(ss)) + [|Last(ss)|]
  }

  lemma {:induction false} LengthAt(ss: seq<string>)
    ensures |LengthsOf(ss)| == |ss| && forall i :: 0 <= i < |ss| ==> LengthsOf(ss)[i] == |ss[i]|
  {
    if ss != [] {
      LengthAt(Front(ss));
    }
  }

  lemma LengthsSnoc(ss: seq<string>, s: string)
    ensures LengthsOf(ss + [s]) == LengthsOf(ss) + [|s|]
  {
    assert Front(ss + [s]) == ss;
  }

  lemma PackStepLengths(p: Packing, part: string)
    requires p.buf != "" ==> Chunk(p.buf)
    requires Chunk(part)
    ensures var q := PackStep(p, part);
            if p.buf == "" then q == p.(buf := part)
            else if |p.buf| + 1 + |part| > MAX_CHARS then q == Packing(p.out + [p.buf], part)
            else q.out == p.out && |q.buf| == |p.buf| + 1 + |part|
  {
    if p.buf != "" {
      GlueChunks(p.buf, part);
    }
  }

  /** Packing one clause and packing its length go together. */
  lemma PackStepMatches(p: Packing, l: Lengths, part: string)
    requires l == Lengths(LengthsOf(p.out), |p.buf|)
    requires p.buf != "" ==> Chunk(p.buf)
    requires Chunk(part)
    ensures PackLength(l, |part|) == Lengths(LengthsOf(PackStep(p, part).out), |PackStep(p, part).buf|)
  {
    PackStepLengths(p, part);
    LengthsSnoc(p.out, p.buf);
  }

  lemma {:induction false} PackAllLengths(parts: seq<string>)
    requires Chunks(parts)
    ensures PackLengths(LengthsOf(parts)) == Lengths(LengthsOf(PackAll(parts).out), |PackAll(parts).buf|)
  {
    if parts != [] {
      var front := Front(parts);
      ChunksFront(parts);
      PackAllLengths(front);
      PackAllInv(front);
      PackStepMatches(PackAll(front), PackLengths(LengthsOf(front)), Last(parts));
      LengthsLast(parts);
    }
  }

  lemma LengthsLast(ss: seq<string>)
    requires ss != []
    ensures LengthsOf(ss) != [] && Front(LengthsOf(ss)) == LengthsOf(Front(ss)) && Last(LengthsOf(ss)) == |Last(ss)|
  {
  }

  predicate AllLong(lens: seq<nat>) {
    forall i :: 0 <= i < |lens| ==> lens[i] >= MIN_CHARS
  }

  /**
    Exactly when comma packing keeps the 12-character minimum: decided by the
    clause lengths alone, before any text is joined.
  */
  lemma PackingKeepsMinimumIff(s: string)
    requires Chunk(s) && |s| > MAX_CHARS && |Split(Clauses, s, 0, 0)| > 1
    ensures var p := PackLengths(LengthsOf(Split(Clauses, s, 0, 0)));
            LongEnough(SplitLongOf(s)) <==> AllLong(p.out + [p.buf])
  {
    var parts := Split(Clauses, s, 0, 0);
    ClausesAreChunks(s, 0, 0);
    PackAllLengths(parts);
    PackAllInv(parts);
    var p := PackAll(parts);
    LengthsSnoc(p.out, p.buf);
    LongIffLengths(p.out + [p.buf]);
  }

  lemma LongIffLengths(ss: seq<string>)
    ensures LongEnough(ss) <==> AllLong(LengthsOf(ss))
  {
    LengthAt(ss);
  }

  /** A visible character at k or later, before n. */
  predicate InkWithin(s: string, k: nat, n: nat)
    requires n <= |s|
  {
    exists i :: k <= i < n && !IsSpace(s[i])
  }

  lemma {:induction false} RStripLength(s: string, n: nat)
    ensures |RStrip(s)| > n <==> InkWithin(s, n, |s|)
  {
    if s != [] && IsSpace(Last(s)) {
      RStripLength(Front(s), n);
      assert forall i :: 0 <= i < |s| - 1 ==> Front(s)[i] == s[i];
    } else if s != [] {
      assert n < |s| ==> n <= |s| - 1 < |s| && !IsSpace(s[|s| - 1]);
    }
  }

  lemma {:induction false} LStripLength(s: string, n: nat)
    requires n < |s|
    ensures |LStrip(s)| > n <==> InkWithin(s, 0, |s| - n)
  {
    if IsSpace(s[0]) {
      var t := s[1..];
      assert forall i :: 0 <= i < |t| ==> t[i] == s[i + 1];
      if n < |t| {
        LStripLength(t, n);
        if InkWithin(s, 0, |s| - n) {
          var i :| 0 <= i < |s| - n && !IsSpace(s[i]);
          assert t[i - 1] == s[i];
        }
      } else {
        LStripInk(t);
      }
    } else {
      assert 0 <= 0 < |s| - n && !IsSpace(s[0]);
    }
  }

  lemma LStripNoop(s: string)
    requires s != [] && !IsSpace(s[0])
    ensures LStrip(s) == s
  {
  }

  /** Stripping the halves of a chunk takes blanks at the cut only. */
  lemma HalvesStripped(s: string, ws: nat)
    requires Chunk(s) && 0 < ws < |s|
    ensures Strip(s[..ws]) == RStrip(s[..ws]) && Strip(s[ws..]) == LStrip(s[ws..])
  {
    var a, b := s[..ws], s[ws..];
    assert a[0] == s[0] && Last(b) == Last(s);
    LStripNoop(a);
    LStripInk(b);
  }

  // ---------- The cut near the middle, on text positions ----------

  /**
    A segment above 240 characters without a clause boundary is cut at the last
    blank before 40 characters past its middle: its two sides there, stripped.
    When that blank comes before position 12, or there is none, it stays whole.
  */
  lemma HardCut(s: string)
    requires Chunk(s) && |s| > 240 && |Split(Clauses, s, 0, 0)| == 1
    ensures forall p: nat :: p < |s| / 2 + 40 && s[p] == ' ' && (forall q :: p < q < |s| / 2 + 40 ==> s[q] != ' ') ==>
              SplitLongOf(s) == if p >= 12 then [Strip(s[..p]), Strip(s[p..])] else [s]
    ensures (forall q :: 0 <= q < |s| / 2 + 40 ==> s[q] != ' ') ==> SplitLongOf(s) == [s]
  {
    var ws := MiddleBlank(s);
    if ws >= 0 {
      assert s[ws] == ' ' && ws < |s| / 2 + 40;
    }
    forall p: nat | p < |s| / 2 + 40 && s[p] == ' ' && (forall q :: p < q < |s| / 2 + 40 ==> s[q] != ' ')
      ensures p == ws
    {
      assert ws >= p;
    }
  }

  lemma StripShortens(s: string)
    ensures |Strip(s)| <= |s|
    ensures s != [] && IsSpace(s[0]) ==> |Strip(s)| < |s|
  {
    StripInk(s);
    if s != [] && IsSpace(s[0]) {
      StripInk(s[1..]);
      assert Strip(s) == Strip(s[1..]);
    }
  }

  /** With a blank within 40 characters of the middle both pieces are about half as long as the segment. */
  lemma HardCutBalanced(s: string, near: nat)
    requires Chunk(s) && |s| > 240 && |Split(Clauses, s, 0, 0)| == 1
    requires |s| / 2 - 40 <= near < |s| / 2 + 40 && s[near] == ' '
    ensures |SplitLongOf(s)| == 2
    ensures |SplitLongOf(s)[0]| <= |s| / 2 + 40 && |SplitLongOf(s)[1]| <= |s| / 2 + 40
  {
    var p := RFindBlank(s, |s| / 2 + 40);
    assert p >= near;
    HardCut(s);
    StripShortens(s[..p]);
    StripShortens(s[p..]);
  }

  // ---------- The minimum, when a segment is cut near the middle ----------

  /** Enough visible text on both sides of a cut at ws, or no cut at all. */
  predicate CutLeavesEnough(s: string, ws: int)
    requires ws < |s|
  {
    || ws < MIN_CHARS
    || (InkWithin(s, MIN_CHARS - 1, ws) && |s| >= MIN_CHARS && InkWithin(s, ws, |s| - MIN_CHARS + 1))
  }

  /**
    Exactly when the cut near the middle keeps the 12-character minimum: there is
    no cut, or a visible character lies at least 11 characters into the first
    half and one at least 12 characters before the end in the second.
  */
  lemma HardSplitKeepsMinimumIff(s: string)
    requires Chunk(s) && |s| > MAX_CHARS
    ensures LongEnough(HardSplit(s)) <==> CutLeavesEnough(s, MiddleBlank(s))
  {
    var ws := MiddleBlank(s);
    if ws >= MIN_CHARS {
      HalvesStripped(s, ws);
      HalfLengths(s, ws);
      var pieces := HardSplit(s);
      assert pieces[0] == RStrip(s[..ws]) && pieces[1] == LStrip(s[ws..]);
    }
  }

  lemma MiddleIsEarly(s: string)
    requires |s| > MAX_CHARS
    ensures MiddleBlank(s) < |s| - MIN_CHARS
  {
  }

  lemma HalfLengths(s: string, ws: nat)
    requires |s| > MAX_CHARS && MIN_CHARS <= ws && ws == MiddleBlank(s)
    ensures |RStrip(s[..ws])| >= MIN_CHARS <==> InkWithin(s, MIN_CHARS - 1, ws)
    ensures |LStrip(s[ws..])| >= MIN_CHARS <==> InkWithin(s, ws, |s| - MIN_CHARS + 1)
  {
    var a, b := s[..ws], s[ws..];
    MiddleIsEarly(s);
    RStripLength(a, MIN_CHARS - 1);
    LStripLength(b, MIN_CHARS - 1);
    assert forall i :: 0 <= i < ws ==> a[i] == s[i];
    assert InkWithin(a, MIN_CHARS - 1, |a|) <==> InkWithin(s, MIN_CHARS - 1, ws);
    if InkWithin(s, ws, |s| - MIN_CHARS + 1) {
      var i :| ws <= i < |s| - MIN_CHARS + 1 && !IsSpace(s[i]);
      assert b[i - ws] == s[i];
    }
  }

  /** Without a clause boundary the minimum is kept whenever no two whitespace characters are adjacent. */
  lemma HardSplitKeepsMinimum(s: string)
    requires Chunk(s) && |s| > MAX_CHARS
    requires forall i :: 0 < i < |s| ==> !(IsSpace(s[i - 1]) && IsSpace(s[i]))
    ensures LongEnough(HardSplit(s))
  {
    var ws := MiddleBlank(s);
    MiddleIsEarly(s);
    HardSplitKeepsMinimumIff(s);
    if ws >= MIN_CHARS {
      assert !IsSpace(s[ws - 1]) && !IsSpace(s[ws + 1]);
    }
  }

  // ---------- The minimum, for a whole text ----------

  /**
    The merged segment keeps the minimum: it is neither too short nor broken
    badly. Only lengths and whitespace of the segment matter.
  */
  ghost predicate KeepsMinimum(s: string) {
    if |s| <= MAX_CHARS then |s| >= MIN_CHARS
    else
      var parts := Split(Clauses, s, 0, 0);
      if |parts| == 1 then CutLeavesEnough(s, MiddleBlank(s))
      else var p := PackLengths(LengthsOf(parts)); AllLong(p.out + [p.buf])
  }

  lemma SplitLongMinimumIff(s: string)
    requires Chunk(s)
    ensures LongEnough(SplitLongOf(s)) <==> KeepsMinimum(s)
  {
    if |s| <= MAX_CHARS {
      assert SplitLongOf(s)[0] == s;
    } else if |Split(Clauses, s, 0, 0)| == 1 {
      HardSplitKeepsMinimumIff(s);
    } else {
      PackingKeepsMinimumIff(s);
    }
  }

  lemma LongAppend(a: seq<string>, b: seq<string>)
    ensures LongEnough(a + b) <==> LongEnough(a) && LongEnough(b)
  {
    if LongEnough(a + b) {
      assert forall i :: 0 <= i < |a| ==> (a + b)[i] == a[i];
      assert forall i :: 0 <= i < |b| ==> (a + b)[|a| + i] == b[i];
    }
  }

  ghost predicate AllKeepMinimum(merged: seq<string>) {
    forall i :: 0 <= i < |merged| ==> KeepsMinimum(merged[i])
  }

  lemma KeepFront(merged: seq<string>)
    requires merged != []
    ensures AllKeepMinimum(merged) <==> AllKeepMinimum(Front(merged)) && KeepsMinimum(Last(merged))
  {
    assert forall i :: 0 <= i < |merged| - 1 ==> Front(merged)[i] == merged[i];
  }

  lemma {:induction false} ExpandMinimumIff(merged: seq<string>)
    requires Chunks(merged)
    ensures LongEnough(Expand(merged)) <==> AllKeepMinimum(merged)
  {
    if merged != [] {
      ChunksFront(merged);
      ExpandMinimumIff(Front(merged));
      SplitLongMinimumIff(Last(merged));
      LongAppend(Expand(Front(merged)), SplitLongOf(Last(merged)));
      KeepFront(merged);
    }
  }

  lemma RestoreLong(ss: seq<string>)
    ensures LongEnough(RestoreAll(ss)) <==> LongEnough(ss)
  {
    assert forall i :: 0 <= i < |ss| ==> |RestoreAll(ss)[i]| == |ss[i]|;
  }

  /**
    Exactly when every chunk of a text has the documented 12 characters: each
    merged segment has them, and each one above 240 can be broken without
    leaving a short piece.
  */
  lemma MinimumIff(text: string, isWord: char -> bool)
    ensures LongEnough(ChunksOf(text, isWord)) <==> AllKeepMinimum(MergedOf(text, isWord))
  {
    MergedKeeps(text, isWord);
    ExpandMinimumIff(MergedOf(text, isWord));
    RestoreLong(Expand(MergedOf(text, isWord)));
  }

  // A text without sentence ends is one segment.
  lemma OneSegment(t: string, isWord: char -> bool)
    requires Chunk(t) && |t| >= MIN_CHARS && '.' !in t && Split(Sentences, t, 0, 0) == [t]
    ensures MergedOf(t, isWord) == [t]
  {
    StripTrimmed(t);
    PlainProtect(t, isWord);
    assert Front([t]) == [] && NonBlank([]) == [];
    assert NonBlank([t]) == [] + [t];
    assert [] + [t] == [t];
    MergeLeavesLong([t]);
  }

  lemma PlainProtect(t: string, isWord: char -> bool)
    requires '.' !in t
    ensures Protect(t, isWord) == t
  {
    MultiMasks(t, 4, isWord);
    var u := MaskMulti(t, 4, isWord);
    PassMasks(u, 0, Matches(u, TITLES, false, isWord));
    assert forall i :: 0 <= i < |t| ==> u[i] == t[i];
    assert u == t;
  }

  lemma TailIsOneSentence(a: string, t: string)
    requires |a| == 240 && a[239] == ',' && forall k :: 0 <= k < 240 ==> !IsSpace(a[k])
    requires t == a + " b"
    ensures Split(Sentences, t, 0, 0) == [t]
  {
    assert |t| == 242 && t[240] == ' ' && t[241] == 'b';
    assert forall k :: 0 <= k < 240 ==> t[k] == a[k];
    NoSpaceNoSplit(Sentences, t, 0, 0, 240);
    assert RunEnd(t, 240) == 241;
    assert !CutAt(Sentences, t, 240, 241);
    NoSpaceNoSplit(Sentences, t, 0, 241, 242);
    assert t[0..] == t;
  }

  lemma RestorePlain(s: string)
    requires MARK !in s
    ensures Restore(s) == s
  {
  }

  /**
    A text on which the segmenter breaks the documented minimum: one clause of
    240 characters followed by a one-letter one gives a chunk of one character.
  */
  lemma ShortChunkFromText(a: string, isWord: char -> bool)
    requires |a| == 240 && a[239] == ',' && forall k :: 0 <= k < 240 ==> !IsSpace(a[k])
    requires '.' !in a && MARK !in a
    ensures ChunksOf(a + " b", isWord) == [a, "b"]
    ensures !LongEnough(ChunksOf(a + " b", isWord))
  {
    var t := a + " b";
    ShortTailAfterSplit(a);
    TailIsOneSentence(a, t);
    OneSegment(t, isWord);
    assert Front([t]) == [] && Expand([]) == [];
    assert Expand([t]) == [] + [a, "b"];
    assert [] + [a, "b"] == [a, "b"];
    RestorePlain(a);
    RestorePlain("b");
    assert RestoreAll([a, "b"]) == [a, "b"];
    assert [a, "b"][1] == "b";
  }
}
