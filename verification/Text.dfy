/** Whitespace handling shared by the segmenter and the WebSocket buffer. */
module Text {
  import opened Prelude

  /** The characters Python's `str.isspace`, `strip` and `\s` agree on. */
  predicate IsSpace(c: char) {
    var n := c as int;
    || 9 <= n <= 13 || 28 <= n <= 32 || n == 0x85 || n == 0xA0 || n == 0x1680 || 0x2000 <= n <= 0x200A
    || n == 0x2028 || n == 0x2029 || n == 0x202F || n == 0x205F || n == 0x3000
  }

  /** The visible content: everything but whitespace, in order. */
  function Ink(s: string): string {
    if s == [] then []
    else if IsSpace(Last(s)) then Ink(Front(s))
    else Ink(Front(s)) + [Last(s)]
  }

  function Inks(ss: seq<string>): string {
    if ss == [] then [] else Inks(Front(ss)) + Ink(Last(ss))
  }

  function LStrip(s: string): string {
    if s != [] && IsSpace(s[0]) then LStrip(s[1..]) else s
  }

  function RStrip(s: string): string {
    if s != [] && IsSpace(Last(s)) then RStrip(Front(s)) else s
  }

  function Strip(s: string): string {
    RStrip(LStrip(s))
  }

  predicate Trimmed(s: string) {
    s != [] ==> !IsSpace(s[0]) && !IsSpace(Last(s))
  }

  predicate Blank(s: string) {
    forall i :: 0 <= i < |s| ==> IsSpace(s[i])
  }

  lemma InkSnoc(s: string, c: char)
    ensures Ink(s + [c]) == if IsSpace(c) then Ink(s) else Ink(s) + [c]
  {
    assert Front(s + [c]) == s;
  }

  lemma InkAppendSnoc(a: string, b: string, c: char)
    requires Ink(a + b) == Ink(a) + Ink(b)
    ensures Ink(a + (b + [c])) == Ink(a) + Ink(b + [c])
  {
    InkSnoc(a + b, c);
    InkSnoc(b, c);
    assert a + (b + [c]) == a + b + [c];
  }

  lemma {:induction false} InkAppend(a: string, b: string)
    ensures Ink(a + b) == Ink(a) + Ink(b)
  {
    if b == [] {
      assert a + b == a;
    } else {
      InkAppend(a, Front(b));
      InkAppendSnoc(a, Front(b), Last(b));
      assert b == Front(b) + [Last(b)];
    }
  }

  lemma {:induction false} InkBlank(s: string)
    requires Blank(s)
    ensures Ink(s) == []
  {
    if s != [] {
      InkBlank(Front(s));
    }
  }

  lemma {:induction false} InksAppend(a: seq<string>, b: seq<string>)
    ensures Inks(a + b) == Inks(a) + Inks(b)
  {
    if b == [] {
      assert a + b == a;
    } else {
      InksAppend(a, Front(b));
      InksSnoc(a + Front(b), Last(b));
      assert a + b == a + Front(b) + [Last(b)];
      InksBy(b);
    }
  }

  lemma InksBy(ss: seq<string>)
    requires ss != []
    ensures Inks(ss) == Inks(Front(ss)) + Ink(Last(ss))
  {
  }

  lemma InksOne(s: string)
    ensures Inks([s]) == Ink(s)
  {
    assert Front([s]) == [];
  }

  lemma InksSnoc(ss: seq<string>, s: string)
    ensures Inks(ss + [s]) == Inks(ss) + Ink(s)
  {
    assert Front(ss + [s]) == ss;
  }

  lemma {:induction false} LStripInk(s: string)
    ensures Ink(LStrip(s)) == Ink(s)
    ensures LStrip(s) != [] ==> !IsSpace(LStrip(s)[0])
    ensures |LStrip(s)| <= |s|
    ensures s != [] && !IsSpace(Last(s)) ==> LStrip(s) != [] && Last(LStrip(s)) == Last(s)
  {
    if s != [] && IsSpace(s[0]) {
      LStripInk(s[1..]);
      assert s == [s[0]] + s[1..];
      InkAppend([s[0]], s[1..]);
      InkBlank([s[0]]);
    }
  }

  lemma {:induction false} RStripInk(s: string)
    ensures Ink(RStrip(s)) == Ink(s)
    ensures RStrip(s) != [] ==> !IsSpace(Last(RStrip(s)))
    ensures |RStrip(s)| <= |s|
    ensures s != [] && !IsSpace(s[0]) ==> RStrip(s) != [] && RStrip(s)[0] == s[0]
  {
    if s != [] && IsSpace(Last(s)) {
      RStripInk(Front(s));
    }
  }

  lemma StripInk(s: string)
    ensures Ink(Strip(s)) == Ink(s)
    ensures Trimmed(Strip(s))
    ensures |Strip(s)| <= |s|
    ensures s != [] && (!IsSpace(s[0]) || !IsSpace(Last(s))) ==> Strip(s) != []
  {
    LStripInk(s);
    RStripInk(LStrip(s));
  }

  lemma StripTrimmed(s: string)
    requires Trimmed(s)
    ensures Strip(s) == s
  {
  }

  lemma InkNothing(s: string)
    ensures Ink(Strip(s)) == [] <==> Strip(s) == []
  {
    StripInk(s);
  }

  /** `s.rfind(" ", 0, end)`: the last blank before `end`, or -1. */
  function RFindBlank(s: string, end: nat): (at: int)
    requires end <= |s|
    ensures -1 <= at < end
    ensures at >= 0 ==> s[at] == ' '
    ensures forall i :: at < i < end ==> s[i] != ' '
  {
    if end == 0 then -1 else if s[end - 1] == ' ' then end - 1 else RFindBlank(s, end - 1)
  }
}
