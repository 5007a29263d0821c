/** Turkish number words: the verbaliser and a decoder that undoes it. */
module Numbers {
  import opened Prelude

  type NonZeroDigit = d: int | 1 <= d <= 9 witness 1
  type Digit = d: int | 0 <= d <= 9
  type ScaleIndex = k: int | 1 <= k <= 4 witness 1

  datatype Word =
    | Zero
    | Minus
    | Comma
    | One(d: NonZeroDigit)
    | Ten(t: NonZeroDigit)
    | Hundred
    | Scale(k: ScaleIndex)

  function Text(w: Word): string {
    match w
    case Zero => "sıfır"
    case Minus => "eksi"
    case Comma => "virgül"
    case One(d) => ["bir", "iki", "üç", "dört", "beş", "altı", "yedi", "sekiz", "dokuz"][d - 1]
    case Ten(t) => ["on", "yirmi", "otuz", "kırk", "elli", "altmış", "yetmiş", "seksen", "doksan"][t - 1]
    case Hundred => "yüz"
    case Scale(k) => ["bin", "milyon", "milyar", "trilyon"][k - 1]
  }

  function Value(k: ScaleIndex): nat {
    if k == 1 then 1_000 else if k == 2 then 1_000_000 else if k == 3 then 1_000_000_000 else 1_000_000_000_000
  }

  /** How many of scale k there are in n, and what is left below it. */
  function CountAt(n: nat, k: ScaleIndex): (c: nat)
    ensures n < Bound(k) ==> c < 1000
  {
    if k == 1 then n / 1_000 else if k == 2 then n / 1_000_000
    else if k == 3 then n / 1_000_000_000 else n / 1_000_000_000_000
  }

  function RestAt(n: nat, k: ScaleIndex): (r: nat)
    ensures r < Bound(k - 1)
  {
    if k == 1 then n % 1_000 else if k == 2 then n % 1_000_000
    else if k == 3 then n % 1_000_000_000 else n % 1_000_000_000_000
  }

  /** What the scales up to k can express. */
  function Bound(k: int): nat
    requires 0 <= k <= 4
  {
    if k == 0 then 1000 else 1000 * Value(k)
  }

  const LIMIT := 1_000_000_000_000_000

  // ---------- The words of a number ----------

  function BelowThousand(n: nat): seq<Word>
    requires n < 1000
  {
    HundredWords(n / 100) + TenWords(n % 100 / 10) + OneWords(n % 10)
  }

  /** "yüz" stands alone for one hundred. */
  function HundredWords(h: nat): seq<Word>
    requires h < 10
  {
    if h == 0 then [] else if h == 1 then [Hundred] else [One(h), Hundred]
  }

  function TenWords(t: nat): seq<Word>
    requires t < 10
  {
    if t == 0 then [] else [Ten(t)]
  }

  function OneWords(d: nat): seq<Word>
    requires d < 10
  {
    if d == 0 then [] else [One(d)]
  }

  /** The words of one scale: "bin" stands alone for one thousand. */
  function ScaleWords(count: nat, k: ScaleIndex): seq<Word>
    requires count < 1000
  {
    if count == 0 then []
    else if k == 1 && count == 1 then [Scale(1)]
    else BelowThousand(count) + [Scale(k)]
  }

  /** The words from scale k downwards. */
  function WordsFrom(n: nat, k: int): seq<Word>
    requires 0 <= k <= 4
    requires n < Bound(k)
    decreases k
  {
    if k == 0 then BelowThousand(n)
    else ScaleWords(CountAt(n, k), k) + WordsFrom(RestAt(n, k), k - 1)
  }

  function NumberWords(n: int): seq<Word>
    requires -LIMIT < n < LIMIT
    decreases n < 0
  {
    if n == 0 then [Zero] else if n < 0 then [Minus] + NumberWords(-n) else WordsFrom(n, 4)
  }

  // ---------- The decoder ----------

  datatype Reading = Reading(negative: bool, total: nat, group: nat)

  function Hear(r: Reading, w: Word): Reading {
    match w
    case Zero => r
    case Minus => r.(negative := true)
    case Comma => r
    case One(d) => r.(group := r.group + d)
    case Ten(t) => r.(group := r.group + 10 * t)
    case Hundred => r.(group := if r.group == 0 then 100 else 100 * r.group)
    case Scale(k) => r.(total := r.total + (if r.group == 0 then 1 else r.group) * Value(k), group := 0)
  }

  function Listen(r: Reading, ws: seq<Word>): Reading {
    if ws == [] then r else Hear(Listen(r, Front(ws)), Last(ws))
  }

  function Decode(ws: seq<Word>): int {
    var r := Listen(Reading(false, 0, 0), ws);
    if r.negative then -(r.total + r.group) else r.total + r.group
  }

  lemma {:induction false} ListenAppend(r: Reading, a: seq<Word>, b: seq<Word>)
    ensures Listen(r, a + b) == Listen(Listen(r, a), b)
  {
    if b == [] {
      assert a + b == a;
    } else {
      assert Front(a + b) == a + Front(b);
      ListenAppend(r, a, Front(b));
    }
  }

  lemma ListenOne(r: Reading, w: Word)
    ensures Listen(r, [w]) == Hear(r, w)
  {
    assert Front([w]) == [];
  }

  lemma HundredHeard(r: Reading, h: nat)
    requires h < 10 && r.group == 0
    ensures Listen(r, HundredWords(h)) == r.(group := 100 * h)
  {
    if h == 1 {
      ListenOne(r, Hundred);
    } else if h > 1 {
      assert Front([One(h), Hundred]) == [One(h)];
      ListenOne(r, One(h));
    }
  }

  lemma TensHeard(r: Reading, t: nat, d: nat)
    requires t < 10 && d < 10
    ensures Listen(r, TenWords(t) + OneWords(d)) == r.(group := r.group + 10 * t + d)
  {
    ListenAppend(r, TenWords(t), OneWords(d));
    if t > 0 {
      ListenOne(r, Ten(t));
    }
    if d > 0 {
      ListenOne(Listen(r, TenWords(t)), One(d));
    }
  }

  lemma DigitsHeard(r: Reading, h: nat, t: nat, d: nat)
    requires h < 10 && t < 10 && d < 10 && r.group == 0
    ensures Listen(r, HundredWords(h) + TenWords(t) + OneWords(d)) == r.(group := 100 * h + 10 * t + d)
  {
    HundredHeard(r, h);
    TensHeard(r.(group := 100 * h), t, d);
    ListenAppend(r, HundredWords(h), TenWords(t) + OneWords(d));
    assert HundredWords(h) + TenWords(t) + OneWords(d) == HundredWords(h) + (TenWords(t) + OneWords(d));
  }

  lemma BelowThousandHeard(r: Reading, n: nat)
    requires n < 1000 && r.group == 0
    ensures Listen(r, BelowThousand(n)) == r.(group := n)
  {
    var h, t, d := n / 100, n % 100 / 10, n % 10;
    assert n == 100 * h + 10 * t + d;
    DigitsHeard(r, h, t, d);
  }

  lemma ScaleHeard(r: Reading, count: nat, k: ScaleIndex)
    requires count < 1000 && r.group == 0
    ensures Listen(r, ScaleWords(count, k)) == r.(total := r.total + count * Value(k))
  {
    if k == 1 && count == 1 {
      ListenOne(r, Scale(1));
    } else if count > 0 {
      BelowThousandHeard(r, count);
      ListenAppend(r, BelowThousand(count), [Scale(k)]);
      ListenOne(Listen(r, BelowThousand(count)), Scale(k));
    }
  }

  lemma SplitAtScale(n: nat, k: ScaleIndex)
    requires n < Bound(k)
    ensures CountAt(n, k) < 1000 && RestAt(n, k) < Bound(k - 1)
    ensures n == CountAt(n, k) * Value(k) + RestAt(n, k)
    ensures WordsFrom(n, k) == ScaleWords(CountAt(n, k), k) + WordsFrom(RestAt(n, k), k - 1)
  {
  }

  lemma {:induction false} WordsHeard(r: Reading, n: nat, k: int)
    requires 0 <= k <= 4 && r.group == 0
    requires n < Bound(k)
    ensures var s := Listen(r, WordsFrom(n, k));
            s.negative == r.negative && s.total + s.group == r.total + n
    decreases k
  {
    if k == 0 {
      BelowThousandHeard(r, n);
    } else {
      var count, rest := CountAt(n, k), RestAt(n, k);
      SplitAtScale(n, k);
      ScaleHeard(r, count, k);
      ListenAppend(r, ScaleWords(count, k), WordsFrom(rest, k - 1));
      WordsHeard(r.(total := r.total + count * Value(k)), rest, k - 1);
    }
  }

  lemma DecodePositive(r: Reading, n: nat)
    requires 0 < n < LIMIT && r == Reading(r.negative, 0, 0)
    ensures var s := Listen(r, NumberWords(n)); s.negative == r.negative && s.total + s.group == n
  {
    WordsHeard(r, n, 4);
  }

  /** Every number in range is recovered from its words. */
  lemma DecodeWords(n: int)
    requires -LIMIT < n < LIMIT
    ensures Decode(NumberWords(n)) == n
  {
    var start := Reading(false, 0, 0);
    if n == 0 {
      ListenOne(start, Zero);
    } else if n > 0 {
      DecodePositive(start, n);
    } else {
      ListenAppend(start, [Minus], NumberWords(-n));
      ListenOne(start, Minus);
      DecodePositive(Reading(true, 0, 0), -n);
    }
  }

  // ---------- The canonical form ----------

  predicate Digitlike(w: Word) {
    w.One? || w.Ten? || w.Hundred?
  }

  /** b may come right after a: hundreds, tens, ones, then a scale; one hundred is the bare word. */
  predicate Follows(a: Word, b: Word) {
    match a
    case Minus => Digitlike(b) || b == Scale(1)
    case One(d) => (b == Hundred && d >= 2) || b.Scale?
    case Ten(_) => b.One? || b.Scale?
    case Hundred => b.Ten? || b.One? || b.Scale?
    case Scale(k) => Digitlike(b) || (b == Scale(1) && k > 1)
    case _ => false
  }

  /**
    The only way a number is said: words in the order of Follows, so "bir" never
    stands before "yüz"; "bir" stands before "bin" only behind a ten or a hundred
    of its own group; and no scale above "bin" is ever bare.
  */
  ghost predicate Canonical(ws: seq<Word>) {
    InOrder(ws) && BirBehind(ws) && NoBareScale(ws)
  }

  ghost predicate InOrder(ws: seq<Word>) {
    forall i :: 0 <= i < |ws| - 1 ==> Follows(ws[i], ws[i + 1])
  }

  ghost predicate BirBehind(ws: seq<Word>) {
    forall i :: 0 <= i < |ws| - 1 && ws[i] == One(1) && ws[i + 1] == Scale(1) ==>
      i > 0 && (ws[i - 1].Ten? || ws[i - 1] == Hundred)
  }

  ghost predicate NoBareScale(ws: seq<Word>) {
    forall i :: 0 <= i < |ws| && ws[i].Scale? && ws[i].k >= 2 ==> i > 0 && Digitlike(ws[i - 1])
  }

  lemma OrderAppend(a: seq<Word>, b: seq<Word>)
    requires InOrder(a) && InOrder(b) && (a != [] && b != [] ==> Follows(Last(a), b[0]))
    ensures InOrder(a + b)
  {
    var ws := a + b;
    forall i | 0 <= i < |ws| - 1
      ensures Follows(ws[i], ws[i + 1])
    {
      if i >= |a| {
        assert Follows(b[i - |a|], b[i - |a| + 1]);
      } else if i < |a| - 1 {
        assert Follows(a[i], a[i + 1]);
      }
    }
  }

  lemma BirAppend(a: seq<Word>, b: seq<Word>)
    requires BirBehind(a) && BirBehind(b) && (a != [] && b != [] ==> !Last(a).One?)
    ensures BirBehind(a + b)
  {
    var ws := a + b;
    forall i | 0 <= i < |ws| - 1 && ws[i] == One(1) && ws[i + 1] == Scale(1)
      ensures i > 0 && (ws[i - 1].Ten? || ws[i - 1] == Hundred)
    {
      if i >= |a| {
        assert b[i - |a|] == One(1) && b[i - |a| + 1] == Scale(1);
      } else {
        assert i < |a| - 1 && a[i] == One(1) && a[i + 1] == Scale(1);
      }
    }
  }

  lemma BareAppend(a: seq<Word>, b: seq<Word>)
    requires NoBareScale(a) && NoBareScale(b)
    ensures NoBareScale(a + b)
  {
    var ws := a + b;
    forall i | 0 <= i < |ws| && ws[i].Scale? && ws[i].k >= 2
      ensures i > 0 && Digitlike(ws[i - 1])
    {
      if i >= |a| {
        assert ws[i] == b[i - |a|];
      }
    }
  }

  lemma CanonicalAppend(a: seq<Word>, b: seq<Word>)
    requires Canonical(a) && Canonical(b)
    requires a != [] && b != [] ==> !Last(a).One? && Follows(Last(a), b[0])
    ensures Canonical(a + b)
  {
    OrderAppend(a, b);
    BirAppend(a, b);
    BareAppend(a, b);
  }

  // A group below one thousand: at most four words, hundreds first.
  lemma GroupCanonical(n: nat)
    requires n < 1000
    ensures Canonical(BelowThousand(n)) && (n > 0 <==> BelowThousand(n) != [])
    ensures forall i :: 0 <= i < |BelowThousand(n)| ==> Digitlike(BelowThousand(n)[i])
  {
    var h, t, d := n / 100, n % 100 / 10, n % 10;
    assert n == 100 * h + 10 * t + d;
    HundredsTens(h, t);
    WithOnes(HundredWords(h) + TenWords(t), d);
  }

  lemma OnesCanonical(d: nat)
    requires d < 10
    ensures Canonical(OneWords(d)) && (OneWords(d) == [] <==> d == 0)
    ensures OneWords(d) != [] ==> OneWords(d)[0].One?
    ensures forall i :: 0 <= i < |OneWords(d)| ==> Digitlike(OneWords(d)[i])
  {
  }

  lemma DigitsAppend(a: seq<Word>, b: seq<Word>)
    requires (forall i :: 0 <= i < |a| ==> Digitlike(a[i])) && forall i :: 0 <= i < |b| ==> Digitlike(b[i])
    ensures forall i :: 0 <= i < |a + b| ==> Digitlike((a + b)[i])
  {
  }

  lemma WithOnes(a: seq<Word>, d: nat)
    requires d < 10 && Canonical(a) && (a != [] ==> Last(a).Ten? || Last(a).Hundred?)
    requires forall i :: 0 <= i < |a| ==> Digitlike(a[i])
    ensures Canonical(a + OneWords(d)) && (a + OneWords(d) == [] <==> a == [] && d == 0)
    ensures forall i :: 0 <= i < |a + OneWords(d)| ==> Digitlike((a + OneWords(d))[i])
  {
    OnesCanonical(d);
    OnesFollow(a, OneWords(d));
    DigitsAppend(a, OneWords(d));
  }

  lemma OnesFollow(a: seq<Word>, b: seq<Word>)
    requires Canonical(a) && Canonical(b) && (a != [] ==> Last(a).Ten? || Last(a).Hundred?) && (b != [] ==> b[0].One?)
    ensures Canonical(a + b)
  {
    CanonicalAppend(a, b);
  }

  // Only one is said "bir" and nothing else.
  lemma OnlyOneIsBir(n: nat)
    requires n < 1000 && n != 1
    ensures BelowThousand(n) != [One(1)]
  {
    var h, t, d := n / 100, n % 100 / 10, n % 10;
    assert n == 100 * h + 10 * t + d;
    var ws := BelowThousand(n);
    if h > 0 {
      assert ws[0] == HundredWords(h)[0];
    } else if t > 0 {
      assert HundredWords(h) == [] && ws[0] == Ten(t);
    } else {
      assert HundredWords(h) == [] && TenWords(t) == [] && ws == OneWords(d);
    }
  }

  lemma HundredsTens(h: nat, t: nat)
    requires h < 10 && t < 10
    ensures var a := HundredWords(h) + TenWords(t);
            && Canonical(a) && (a == [] <==> h == 0 && t == 0)
            && (a != [] ==> Last(a).Ten? || Last(a).Hundred?)
            && forall i :: 0 <= i < |a| ==> Digitlike(a[i])
  {
    assert Canonical(HundredWords(h)) && Canonical(TenWords(t));
    CanonicalAppend(HundredWords(h), TenWords(t));
  }

  lemma ScaleCanonical(count: nat, k: ScaleIndex)
    requires count < 1000
    ensures Canonical(ScaleWords(count, k))
    ensures count > 0 ==> ScaleWords(count, k) != [] && Last(ScaleWords(count, k)) == Scale(k)
    ensures count > 0 ==> Digitlike(ScaleWords(count, k)[0]) || (k == 1 && ScaleWords(count, k) == [Scale(1)])
    ensures count == 0 ==> ScaleWords(count, k) == []
  {
    GroupCanonical(count);
    if count > 0 && !(k == 1 && count == 1) {
      if k == 1 {
        OnlyOneIsBir(count);
      }
      AddScale(BelowThousand(count), k);
    }
  }

  lemma AddScale(g: seq<Word>, k: ScaleIndex)
    requires Canonical(g) && g != [] && forall i :: 0 <= i < |g| ==> Digitlike(g[i])
    requires k == 1 ==> g != [One(1)]
    ensures Canonical(g + [Scale(k)])
  {
    var ws := g + [Scale(k)];
    OrderAppend(g, [Scale(k)]);
    assert NoBareScale(ws) by {
      assert forall i :: 0 <= i < |g| ==> !g[i].Scale?;
    }
    assert |g| == 1 ==> g == [g[0]];
    forall i | 0 <= i < |ws| - 1 && ws[i] == One(1) && ws[i + 1] == Scale(1)
      ensures i > 0 && (ws[i - 1].Ten? || ws[i - 1] == Hundred)
    {
      assert i == |g| - 1;
      if |g| >= 2 {
        assert Follows(g[|g| - 2], g[|g| - 1]);
      }
    }
  }

  /** A word the words below scale k may start with. */
  predicate Starts(w: Word, k: int) {
    Digitlike(w) || (w == Scale(1) && k >= 1)
  }

  lemma {:induction false} FromCanonical(n: nat, k: int)
    requires 0 <= k <= 4 && n < Bound(k)
    ensures Canonical(WordsFrom(n, k))
    ensures WordsFrom(n, k) != [] ==> Starts(WordsFrom(n, k)[0], k)
    decreases k
  {
    if k == 0 {
      GroupCanonical(n);
    } else {
      var a, b := ScaleWords(CountAt(n, k), k), WordsFrom(RestAt(n, k), k - 1);
      ScaleCanonical(CountAt(n, k), k);
      FromCanonical(RestAt(n, k), k - 1);
      CanonicalAppend(a, b);
    }
  }

  /** Every number in range is said in canonical form; zero is a word of its own. */
  lemma NumberCanonical(n: int)
    requires -LIMIT < n < LIMIT
    ensures if n == 0 then NumberWords(n) == [Zero] else Canonical(NumberWords(n))
    ensures NumberWords(n) != [] && (NumberWords(n)[0] == Minus <==> n < 0)
  {
    NumberWordsNonEmpty(n);
    if n > 0 {
      FromCanonical(n, 4);
    } else if n < 0 {
      FromCanonical(-n, 4);
      NumberWordsNonEmpty(-n);
      CanonicalAppend([Minus], NumberWords(-n));
    }
  }

  /** Zero and the two bare words, as text. */
  lemma SpokenExamples()
    ensures Render(NumberWords(0)) == "sıfır"
    ensures Render(NumberWords(100)) == "yüz"
    ensures Render(NumberWords(1_000)) == "bin"
  {
    assert RestAt(1_000, 1) == 0 && CountAt(1_000, 1) == 1 && CountAt(1_000, 2) == 0 && CountAt(1_000, 3) == 0 && CountAt(1_000, 4) == 0;
    assert WordsFrom(0, 0) == [] && WordsFrom(1_000, 1) == [Scale(1)];
    assert WordsFrom(1_000, 2) == [Scale(1)] && WordsFrom(1_000, 3) == [Scale(1)] && WordsFrom(1_000, 4) == [Scale(1)];
    assert BelowThousand(100) == [Hundred] && WordsFrom(100, 0) == [Hundred] && WordsFrom(100, 1) == [Hundred];
    assert WordsFrom(100, 2) == [Hundred] && WordsFrom(100, 3) == [Hundred] && WordsFrom(100, 4) == [Hundred];
    RenderOne(Zero);
    RenderOne(Hundred);
    RenderOne(Scale(1));
  }

  lemma GroupsSpoken()
    ensures BelowThousand(1) == [One(1)]
    ensures BelowThousand(234) == [One(2), Hundred, Ten(3), One(4)]
    ensures BelowThousand(567) == [One(5), Hundred, Ten(6), One(7)]
  {
  }

  lemma ThousandsSpoken()
    ensures WordsFrom(234_567, 1) == [One(2), Hundred, Ten(3), One(4), Scale(1), One(5), Hundred, Ten(6), One(7)]
  {
    GroupsSpoken();
    assert CountAt(234_567, 1) == 234 && RestAt(234_567, 1) == 567;
    assert WordsFrom(234_567, 1) == ScaleWords(234, 1) + BelowThousand(567);
  }

  lemma NothingAbove(n: nat)
    requires n < Bound(2)
    ensures WordsFrom(n, 4) == WordsFrom(n, 2)
  {
    assert CountAt(n, 4) == 0 && RestAt(n, 4) == n && CountAt(n, 3) == 0 && RestAt(n, 3) == n;
    assert WordsFrom(n, 3) == WordsFrom(n, 2) && WordsFrom(n, 4) == WordsFrom(n, 3);
  }

  lemma MillionsSpoken(n: nat, tail: seq<Word>)
    requires n == 1_234_567 && tail == WordsFrom(234_567, 1)
    ensures WordsFrom(n, 2) == [One(1), Scale(2)] + tail
  {
    assert CountAt(n, 2) == 1 && RestAt(n, 2) == 234_567;
    assert BelowThousand(1) + [Scale(2)] == [One(1), Scale(2)];
  }

  lemma BelowBillions(n: nat, words: seq<Word>)
    requires 0 < n < Bound(2) && WordsFrom(n, 2) == words
    ensures NumberWords(n) == words
  {
    NothingAbove(n);
  }

  /** The documentation's example. */
  lemma DocumentedExample(n: nat, tail: seq<Word>)
    requires n == 1_234_567
    requires tail == [One(2), Hundred, Ten(3), One(4), Scale(1), One(5), Hundred, Ten(6), One(7)]
    ensures NumberWords(n) == [One(1), Scale(2)] + tail
  {
    ThousandsSpoken();
    MillionsSpoken(n, tail);
    BelowBillions(n, [One(1), Scale(2)] + tail);
  }

  // ---------- Text ----------

  function Join(parts: seq<string>): string {
    if parts == [] then ""
    else if |parts| == 1 then parts[0]
    else Join(Front(parts)) + " " + Last(parts)
  }

  function Texts(ws: seq<Word>): seq<string> {
    seq(|ws|, i requires 0 <= i < |ws| => Text(ws[i]))
  }

  function Render(ws: seq<Word>): string {
    Join(Texts(ws))
  }

  lemma {:induction false} JoinAppend(a: seq<string>, b: seq<string>)
    requires a != [] && b != []
    ensures Join(a + b) == Join(a) + " " + Join(b)
  {
    assert Front(a + b) == a + Front(b) && Last(a + b) == Last(b);
    if |b| == 1 {
      assert a + Front(b) == a;
    } else {
      JoinAppend(a, Front(b));
    }
  }

  lemma RenderAppend(a: seq<Word>, b: seq<Word>)
    requires a != [] && b != []
    ensures Render(a + b) == Render(a) + " " + Render(b)
  {
    assert Texts(a + b) == Texts(a) + Texts(b);
    JoinAppend(Texts(a), Texts(b));
  }

  lemma RenderOne(w: Word)
    ensures Render([w]) == Text(w)
  {
    assert Texts([w]) == [Text(w)];
  }

  /** Splitting at blanks undoes the joining. */
  function Split(s: string): (parts: seq<string>)
    ensures parts != []
  {
    if s == [] then [[]]
    else
      var before := Split(Front(s));
      if Last(s) == ' ' then before + [[]] else Front(before) + [Last(before) + [Last(s)]]
  }

  lemma {:induction false} SplitWord(s: string, w: string)
    requires ' ' !in w
    ensures Split(s + w) == Front(Split(s)) + [Last(Split(s)) + w]
  {
    if w == [] {
      assert s + w == s && Last(Split(s)) + w == Last(Split(s));
    } else {
      assert Front(s + w) == s + Front(w) && Last(s + w) == Last(w);
      SplitWord(s, Front(w));
      assert Last(Split(s)) + Front(w) + [Last(w)] == Last(Split(s)) + w;
    }
  }

  lemma {:induction false} SplitJoin(parts: seq<string>)
    requires parts != [] && forall i :: 0 <= i < |parts| ==> ' ' !in parts[i]
    ensures Split(Join(parts)) == parts
  {
    if |parts| == 1 {
      SplitWord("", parts[0]);
      assert "" + parts[0] == parts[0];
    } else {
      var before := Join(Front(parts)) + " ";
      assert Front(before) == Join(Front(parts));
      SplitJoin(Front(parts));
      SplitWord(before, Last(parts));
      assert Join(parts) == before + Last(parts);
      assert Split(before) == Front(parts) + [[]];
      assert [] + Last(parts) == Last(parts);
      assert parts == Front(parts) + [Last(parts)];
    }
  }

  /** Length, first two letters and last letter tell all the words apart. */
  function Shape(s: string): (nat, char, char, char)
    requires |s| >= 2
  {
    (|s|, s[0], s[1], s[|s| - 1])
  }

  lemma TextsDiffer(a: Word, b: Word)
    requires Text(a) == Text(b)
    ensures a == b
  {
    assert Shape(Text(a)) == Shape(Text(b));
  }

  lemma NoBlanks(w: Word)
    ensures ' ' !in Text(w)
  {
  }

  ghost function WordOf(s: string): Option<Word> {
    if exists w: Word :: Text(w) == s then
      var w: Word :| Text(w) == s;
      Some(w)
    else None
  }

  lemma WordOfText(w: Word)
    ensures WordOf(Text(w)) == Some(w)
  {
    TextsDiffer(WordOf(Text(w)).value, w);
  }

  ghost function ParseWords(parts: seq<string>): Option<seq<Word>> {
    if parts == [] then Some([])
    else
      match (ParseWords(Front(parts)), WordOf(Last(parts)))
      case (Some(ws), Some(w)) => Some(ws + [w])
      case _ => None
  }

  lemma {:induction false} ParseTexts(ws: seq<Word>)
    ensures ParseWords(Texts(ws)) == Some(ws)
  {
    if ws != [] {
      assert Front(Texts(ws)) == Texts(Front(ws));
      ParseTexts(Front(ws));
      assert Last(Texts(ws)) == Text(Last(ws));
      WordOfText(Last(ws));
      assert Front(ws) + [Last(ws)] == ws;
    }
  }

  lemma ParseRendered(ws: seq<Word>)
    requires ws != []
    ensures ParseWords(Split(Render(ws))) == Some(ws)
  {
    forall i | 0 <= i < |ws|
      ensures ' ' !in Texts(ws)[i]
    {
      NoBlanks(ws[i]);
    }
    SplitJoin(Texts(ws));
    ParseTexts(ws);
  }

  lemma NumberWordsNonEmpty(n: int)
    requires -LIMIT < n < LIMIT
    ensures NumberWords(n) != []
  {
    DecodeWords(n);
    assert Decode([]) == 0;
  }

  /** Verbalisation is injective as text, in spite of the bare "yüz" and the bare "bin". */
  lemma VerbalisationInjective(n: int, m: int)
    requires -LIMIT < n < LIMIT && -LIMIT < m < LIMIT
    ensures Render(NumberWords(n)) == Render(NumberWords(m)) ==> n == m
  {
    NumberWordsNonEmpty(n);
    NumberWordsNonEmpty(m);
    ParseRendered(NumberWords(n));
    ParseRendered(NumberWords(m));
    DecodeWords(n);
    DecodeWords(m);
  }

  // ---------- The verbaliser ----------

  /** The parts appended so far spell these words. */
  predicate Spells(parts: seq<string>, words: seq<Word>) {
    Join(parts) == Render(words) && (parts == [] <==> words == [])
  }

  method AppendPart(parts: seq<string>, w: Word, ghost words: seq<Word>) returns (r: seq<string>)
    requires Spells(parts, words)
    ensures Spells(r, words + [w])
  {
    AppendWord(parts, words, w);
    r := parts + [Text(w)];
  }

  method HundredPart(h: nat) returns (r: seq<string>)
    requires h < 10
    ensures Spells(r, HundredWords(h))
  {
    r := [];
    if h == 1 {
      r := AppendPart(r, Hundred, []);
      assert [] + [Hundred] == HundredWords(h);
    } else if h > 1 {
      TwoWords(One(h), Hundred);
      r := [Text(One(h)) + " " + Text(Hundred)];
    }
  }

  /** `_below_thousand`. */
  method BelowThousandText(n: nat) returns (r: string)
    requires n < 1000
    ensures r == Render(BelowThousand(n))
  {
    if n == 0 {
      return "";
    }
    var hundreds, rem := n / 100, n % 100;
    var parts := HundredPart(hundreds);
    ghost var words := HundredWords(hundreds);
    var tens, ones := rem / 10, rem % 10;
    if tens > 0 {
      parts := AppendPart(parts, Ten(tens), words);
    }
    assert tens == 0 ==> words + TenWords(tens) == words;
    words := words + TenWords(tens);
    if ones > 0 {
      parts := AppendPart(parts, One(ones), words);
    }
    assert ones == 0 ==> words + OneWords(ones) == words;
    assert n % 100 % 10 == n % 10;
    r := Join(parts);
  }

  lemma TwoWords(a: Word, b: Word)
    ensures Render([a, b]) == Text(a) + " " + Text(b)
  {
    RenderOne(a);
    RenderOne(b);
    RenderAppend([a], [b]);
    assert [a] + [b] == [a, b];
  }

  lemma AppendWord(parts: seq<string>, words: seq<Word>, w: Word)
    requires Spells(parts, words)
    ensures Spells(parts + [Text(w)], words + [w])
  {
    RenderOne(w);
    AppendGroup(parts, words, [w], Text(w));
  }

  lemma AppendGroup(parts: seq<string>, words: seq<Word>, ws: seq<Word>, text: string)
    requires Spells(parts, words)
    requires ws != [] && text == Render(ws)
    ensures Spells(parts + [text], words + ws)
  {
    if parts == [] {
      assert parts + [text] == [text] && words + ws == ws;
    } else {
      JoinAppend(parts, [text]);
      RenderAppend(words, ws);
    }
  }

  /** `number_to_turkish`; None is the ValueError for numbers out of range. */
  method NumberToTurkish(n: int) returns (r: Option<string>)
    ensures r.None? <==> n <= -LIMIT || n >= LIMIT
    ensures r.Some? ==> r.value == Render(NumberWords(n))
    decreases n < 0
  {
    if n == 0 {
      RenderOne(Zero);
      return Some("sıfır");
    }
    if n < 0 {
      var positive := NumberToTurkish(-n);
      if positive.None? {
        return None;
      }
      RenderNegative(-n);
      return Some("eksi " + positive.value);
    }
    if n >= LIMIT {
      return None;
    }
    var text := PositiveText(n, 4);
    r := Some(text);
  }

  lemma RenderNegative(n: int)
    requires 0 < n < LIMIT
    ensures Render(NumberWords(-n)) == "eksi " + Render(NumberWords(n))
  {
    NumberWordsNonEmpty(n);
    RenderAppend([Minus], NumberWords(n));
    RenderOne(Minus);
    assert "eksi" + " " == "eksi ";
  }

  method PositiveText(n: nat, top: int) returns (r: string)
    requires 0 <= top <= 4 && n < Bound(top)
    ensures r == Render(WordsFrom(n, top))
  {
    NothingSaid(n, top);
    r := ScaleLoop(n, top, WordsFrom(n, top));
  }

  /** The scale loop of `number_to_turkish`. */
  method ScaleLoop(n: nat, top: int, ghost goal: seq<Word>) returns (r: string)
    requires Spells([], []) && Remaining([], n, top, goal)
    ensures r == Render(goal)
  {
    var parts: seq<string> := [];
    ghost var words: seq<Word> := [];
    var remainder: nat, k: int := n, top;
    while k > 0
      invariant Spells(parts, words) && Remaining(words, remainder, k, goal)
    {
      parts, remainder, words := ScaleStep(parts, remainder, k, words, goal);
      k := k - 1;
    }
    r := FinishPositive(parts, remainder, words, goal);
  }

  /** What has been said and what is still to say make up the goal. */
  ghost predicate Remaining(words: seq<Word>, rest: nat, k: int, goal: seq<Word>) {
    0 <= k <= 4 && rest < Bound(k) && exists tail: seq<Word> :: IsRest(tail, rest, k) && words + tail == goal
  }

  /** The words still to say. */
  ghost predicate IsRest(tail: seq<Word>, rest: nat, k: int)
    requires 0 <= k <= 4 && rest < Bound(k)
  {
    tail == WordsFrom(rest, k)
  }

  /** The group below one thousand, if any, and the final join. */
  lemma NothingSaid(n: nat, k: int)
    requires 0 <= k <= 4 && n < Bound(k)
    ensures Spells([], []) && Remaining([], n, k, WordsFrom(n, k))
  {
    assert IsRest(WordsFrom(n, k), n, k) && [] + WordsFrom(n, k) == WordsFrom(n, k);
  }

  method FinishPositive(parts: seq<string>, rest: nat, ghost words: seq<Word>, ghost goal: seq<Word>) returns (r: string)
    requires Spells(parts, words) && Remaining(words, rest, 0, goal)
    ensures r == Render(goal)
  {
    if rest > 0 {
      var text := BelowThousandText(rest);
      AppendGroup(parts, words, BelowThousand(rest), text);
      return Join(parts + [text]);
    }
    assert words + WordsFrom(rest, 0) == words;
    r := Join(parts);
  }

  /** One round of the scale loop. */
  method ScaleStep(parts: seq<string>, n: nat, k: int, ghost words: seq<Word>, ghost goal: seq<Word>)
    returns (r: seq<string>, rest: nat, ghost said: seq<Word>)
    requires 1 <= k && Spells(parts, words) && Remaining(words, n, k, goal)
    ensures Spells(r, said) && Remaining(said, rest, k - 1, goal)
  {
    if n >= Value(k) {
      var count := CountAt(n, k);
      var text := ScaleText(count, k);
      SplitAtScale(n, k);
      AppendGroup(parts, words, ScaleWords(count, k), text);
      r, rest, said := parts + [text], RestAt(n, k), words + ScaleWords(count, k);
      Reassociate(words, ScaleWords(count, k), WordsFrom(rest, k - 1));
      assert IsRest(WordsFrom(rest, k - 1), rest, k - 1);
    } else {
      NothingAtScale(n, k);
      r, rest, said := parts, n, words;
      assert IsRest(WordsFrom(rest, k - 1), rest, k - 1);
    }
  }

  lemma Reassociate(a: seq<Word>, b: seq<Word>, c: seq<Word>)
    ensures a + b + c == a + (b + c)
  {
  }

  lemma NothingAtScale(n: nat, k: ScaleIndex)
    requires n < Value(k)
    ensures n < Bound(k - 1)
    ensures WordsFrom(n, k) == WordsFrom(n, k - 1)
  {
    assert CountAt(n, k) == 0 && RestAt(n, k) == n;
    assert [] + WordsFrom(n, k - 1) == WordsFrom(n, k - 1);
  }

  method ScaleText(count: nat, k: ScaleIndex) returns (text: string)
    requires 1 <= count < 1000
    ensures text == Render(ScaleWords(count, k))
  {
    RenderOne(Scale(k));
    if k == 1 && count == 1 {
      return Text(Scale(1));
    }
    var below := BelowThousandText(count);
    text := below + " " + Text(Scale(k));
    RenderAppend(BelowThousand(count), [Scale(k)]);
  }

  // ---------- Decimals ----------

  function DigitWord(d: Digit): Word {
    if d == 0 then Zero else One(d)
  }

  function DigitWords(frac: seq<Digit>): seq<Word> {
    seq(|frac|, i requires 0 <= i < |frac| => DigitWord(frac[i]))
  }

  /** The words of a decimal given as sign, whole part and fraction digits. */
  function DecimalWords(negative: bool, whole: nat, frac: seq<Digit>): seq<Word>
    requires whole < LIMIT
  {
    Signed(negative, NumberWords(whole)) + [Comma] + DigitWords(frac)
  }

  predicate Plain(ws: seq<Word>) {
    forall i :: 0 <= i < |ws| ==> !ws[i].Comma? && !ws[i].Minus?
  }

  lemma PlainAppend(a: seq<Word>, b: seq<Word>)
    requires Plain(a) && Plain(b)
    ensures Plain(a + b)
  {
  }

  lemma PlainScale(count: nat, k: ScaleIndex)
    requires count < 1000
    ensures Plain(ScaleWords(count, k)) && Plain(BelowThousand(count))
  {
    PlainAppend(HundredWords(count / 100), TenWords(count % 100 / 10));
    PlainAppend(HundredWords(count / 100) + TenWords(count % 100 / 10), OneWords(count % 10));
    PlainAppend(BelowThousand(count), [Scale(k)]);
  }

  lemma {:induction false} NoCommaFrom(n: nat, k: int)
    requires 0 <= k <= 4 && n < Bound(k)
    ensures Plain(WordsFrom(n, k))
    decreases k
  {
    if k == 0 {
      PlainScale(n, 1);
    } else {
      SplitAtScale(n, k);
      PlainScale(CountAt(n, k), k);
      NoCommaFrom(RestAt(n, k), k - 1);
      PlainAppend(ScaleWords(CountAt(n, k), k), WordsFrom(RestAt(n, k), k - 1));
    }
  }

  lemma SplitsUniquely(a: seq<Word>, b: seq<Word>, c: seq<Word>, d: seq<Word>)
    requires a + [Comma] + b == c + [Comma] + d
    requires Comma !in a && Comma !in c
    ensures a == c && b == d
  {
    var l, r := a + [Comma] + b, c + [Comma] + d;
    assert l[|a|] == Comma && r[|c|] == Comma;
    assert forall i :: 0 <= i < |a| ==> l[i] == a[i] && a[i] in a;
    assert forall i :: 0 <= i < |c| ==> r[i] == c[i] && c[i] in c;
    assert |a| == |c|;
    assert l[..|a|] == a && r[..|c|] == c;
    assert l[|a| + 1..] == b && r[|c| + 1..] == d;
  }

  lemma DigitWordsInjective(f1: seq<Digit>, f2: seq<Digit>)
    requires DigitWords(f1) == DigitWords(f2)
    ensures f1 == f2
  {
    assert |f1| == |DigitWords(f1)| == |f2|;
    forall i | 0 <= i < |f1|
      ensures f1[i] == f2[i]
    {
      assert DigitWords(f1)[i] == DigitWords(f2)[i];
    }
  }

  function Signed(negative: bool, ws: seq<Word>): seq<Word> {
    if negative then [Minus] + ws else ws
  }

  lemma SignSplits(n1: bool, a: seq<Word>, n2: bool, b: seq<Word>)
    requires a != [] && b != [] && !a[0].Minus? && !b[0].Minus?
    requires Signed(n1, a) == Signed(n2, b)
    ensures n1 == n2 && a == b
  {
    assert Signed(n1, a)[0] == Signed(n2, b)[0];
    assert n1 ==> Signed(n1, a)[1..] == a;
    assert n2 ==> Signed(n2, b)[1..] == b;
  }

  lemma WholeWords(w: nat)
    requires w < LIMIT
    ensures Comma !in NumberWords(w) && NumberWords(w) != [] && !NumberWords(w)[0].Minus?
  {
    NoCommaFrom(w, 4);
    NumberWordsNonEmpty(w);
  }

  /**
    Decimals keep everything: sign, whole part and every fraction digit,
    leading and trailing zeros included, can be read back from the text.
  */
  lemma DecimalInjective(n1: bool, w1: nat, f1: seq<Digit>, n2: bool, w2: nat, f2: seq<Digit>)
    requires w1 < LIMIT && w2 < LIMIT
    ensures Render(DecimalWords(n1, w1, f1)) == Render(DecimalWords(n2, w2, f2)) ==> n1 == n2 && w1 == w2 && f1 == f2
  {
    ParseRendered(DecimalWords(n1, w1, f1));
    ParseRendered(DecimalWords(n2, w2, f2));
    WholeWords(w1);
    WholeWords(w2);
    if DecimalWords(n1, w1, f1) == DecimalWords(n2, w2, f2) {
      SplitsUniquely(Signed(n1, NumberWords(w1)), DigitWords(f1), Signed(n2, NumberWords(w2)), DigitWords(f2));
      SignSplits(n1, NumberWords(w1), n2, NumberWords(w2));
      DecodeWords(w1);
      DecodeWords(w2);
      DigitWordsInjective(f1, f2);
    }
  }
}
