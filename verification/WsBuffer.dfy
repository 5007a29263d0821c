/** The WebSocket text buffer: accumulate, flush at sentence ends, on demand, at the ceiling and on close. */
module WsBuffer {
  import opened Prelude
  import opened Text

  const MIN_BUFFER_CHARS := 12
  const MAX_BUFFER_CHARS := 240
  const OVERFLOW_CHARS := 20000

  /** One thing the receive loop sees. */
  datatype Message =
    | IdleTimeout
    | Malformed
    | Object(configOk: bool, close: bool, text: Option<string>, flush: bool)

  /** What became of accepted text. */
  datatype Piece = Flushed(text: string) | Dropped(text: string)

  // ---------- Sentence ends ----------

  /** A terminator at i followed by whitespace or by the end. */
  predicate SentenceEnd(buf: string, i: nat) {
    i < |buf| && buf[i] in ".!?" && (i + 1 == |buf| || IsSpace(buf[i + 1]))
  }

  /** What ends a sentence, character by character. */
  lemma SentenceEndIff(buf: string, i: nat)
    ensures SentenceEnd(buf, i) <==>
      && i < |buf| && (buf[i] == '.' || buf[i] == '!' || buf[i] == '?')
      && (i == |buf| - 1 || IsSpace(buf[i + 1]))
  {
  }

  /** `end` is just after the last sentence end. */
  ghost predicate LastSentence(b: string, end: nat) {
    0 < end <= |b| && SentenceEnd(b, end - 1) && forall i: nat :: end <= i < |b| ==> !SentenceEnd(b, i)
  }

  /** The position just after the last sentence end, or 0. */
  function LastEnd(buf: string, n: nat): (end: nat)
    requires n <= |buf|
    ensures end <= n && (end > 0 ==> SentenceEnd(buf, end - 1))
    ensures forall i :: end <= i < n ==> !SentenceEnd(buf, i)
  {
    if n == 0 then 0 else if SentenceEnd(buf, n - 1) then n else LastEnd(buf, n - 1)
  }

  datatype Parts = Parts(segment: string, remainder: string)

  function AtBoundary(buf: string): Parts {
    var end := LastEnd(buf, |buf|);
    if end == 0 then Parts("", buf) else Parts(Strip(buf[..end]), LStrip(buf[end..]))
  }

  /** `_split_at_last_boundary`. */
  method SplitAtLastBoundary(buf: string) returns (parts: Parts)
    ensures parts == AtBoundary(buf)
    ensures forall end: nat :: LastSentence(buf, end) ==> parts == Parts(Strip(buf[..end]), LStrip(buf[end..]))
    ensures (forall i: nat :: !SentenceEnd(buf, i)) ==> parts == Parts("", buf)
  {
    var lastEnd := -1;
    var i := 0;
    while i < |buf|
      invariant 0 <= i <= |buf|
      invariant lastEnd == if LastEnd(buf, i) == 0 then -1 else LastEnd(buf, i)
    {
      if buf[i] in ".!?" && (i + 1 == |buf| || IsSpace(buf[i + 1])) {
        lastEnd := i + 1;
      }
      i := i + 1;
    }
    BoundaryLiterally(buf);
    if lastEnd <= 0 {
      return Parts("", buf);
    }
    return Parts(Strip(buf[..lastEnd]), LStrip(buf[lastEnd..]));
  }

  lemma BoundaryLiterally(buf: string)
    ensures forall end: nat :: LastSentence(buf, end) ==> AtBoundary(buf) == Parts(Strip(buf[..end]), LStrip(buf[end..]))
    ensures (forall i: nat :: !SentenceEnd(buf, i)) ==> AtBoundary(buf) == Parts("", buf)
  {
    var last := LastEnd(buf, |buf|);
    forall end: nat | LastSentence(buf, end)
      ensures end == last
    {
      LastIs(buf, end);
    }
  }

  lemma LastIs(buf: string, end: nat)
    requires LastSentence(buf, end)
    ensures LastEnd(buf, |buf|) == end
  {
    var last := LastEnd(buf, |buf|);
    assert SentenceEnd(buf, end - 1);
    assert last >= end;
    assert last > 0 ==> SentenceEnd(buf, last - 1);
  }

  // ---------- One flush decision ----------

  /** Where the ceiling cuts: the last blank before it, or the ceiling itself. */
  function Ceiling(buf: string): (cut: nat)
    requires |buf| >= MAX_BUFFER_CHARS
    ensures 0 < cut <= MAX_BUFFER_CHARS
  {
    var blank := RFindBlank(buf, MAX_BUFFER_CHARS);
    if blank <= 0 then MAX_BUFFER_CHARS else blank
  }

  function Decide(buf: string, force: bool): Parts {
    var parts := AtBoundary(buf);
    if force then Parts(Strip(buf), "")
    else if |parts.segment| >= MIN_BUFFER_CHARS then parts
    else if |buf| >= MAX_BUFFER_CHARS then Parts(Strip(buf[..Ceiling(buf)]), LStrip(buf[Ceiling(buf)..]))
    else Parts("", buf)
  }

  lemma CutInk(buf: string, cut: nat)
    requires cut <= |buf|
    ensures Ink(buf) == Ink(Strip(buf[..cut])) + Ink(LStrip(buf[cut..]))
    ensures Trimmed(Strip(buf[..cut])) && |LStrip(buf[cut..])| <= |buf| - cut
  {
    assert buf == buf[..cut] + buf[cut..];
    InkAppend(buf[..cut], buf[cut..]);
    StripInk(buf[..cut]);
    LStripInk(buf[cut..]);
  }

  /**
    Whatever the branch, the decision conserves the visible text in order and
    yields a trimmed segment; a buffer at the ceiling gets strictly shorter.
  */
  lemma DecideConserves(buf: string, force: bool)
    ensures var p := Decide(buf, force);
            && Ink(p.segment) + Ink(p.remainder) == Ink(buf)
            && Trimmed(p.segment)
            && |p.remainder| <= |buf|
            && (|buf| >= MAX_BUFFER_CHARS ==> |p.remainder| < |buf|)
            && (force ==> p.remainder == "")
  {
    if force {
      StripInk(buf);
    } else {
      CutInk(buf, LastEnd(buf, |buf|));
      if |buf| >= MAX_BUFFER_CHARS {
        CutInk(buf, Ceiling(buf));
      }
    }
  }

  lemma {:induction false} RStripNoop(s: string)
    requires s != [] && !IsSpace(Last(s))
    ensures RStrip(s) == s
  {
  }

  /** A boundary segment ends with its terminator, and no sentence end is left behind in the remainder. */
  lemma BoundaryIsLast(buf: string)
    ensures AtBoundary(buf).segment != "" ==> Last(AtBoundary(buf).segment) in ".!?"
    ensures AtBoundary(buf).segment == "" ==> forall i: nat :: !SentenceEnd(buf, i)
    ensures forall i: nat :: !SentenceEnd(AtBoundary(buf).remainder, i)
  {
    var end := LastEnd(buf, |buf|);
    if end > 0 {
      assert Last(buf[..end]) == buf[end - 1] && !IsSpace(buf[end - 1]);
      LStripInk(buf[..end]);
      RStripNoop(LStrip(buf[..end]));
      NoEndBehind(buf, end);
    }
  }

  lemma {:induction false} NoEndBehind(buf: string, from: nat)
    requires from <= |buf| && forall i :: from <= i < |buf| ==> !SentenceEnd(buf, i)
    ensures forall i: nat :: !SentenceEnd(LStrip(buf[from..]), i)
    decreases |buf| - from
  {
    var rest := buf[from..];
    if rest != [] && IsSpace(rest[0]) {
      assert rest[1..] == buf[from + 1..];
      NoEndBehind(buf, from + 1);
    } else {
      forall i: nat
        ensures !SentenceEnd(rest, i)
      {
        assert i < |rest| ==> !SentenceEnd(buf, from + i);
      }
    }
  }

  /**
    An unforced flush happens for exactly two reasons: a sentence of at least 12
    characters is complete, or the buffer reached 240; then the segment is at most
    240 long and no word is cut unless the first 240 characters hold no blank after the first.
  */
  lemma UnforcedFlush(buf: string)
    ensures var p := Decide(buf, false);
            var sentence := |AtBoundary(buf).segment| >= MIN_BUFFER_CHARS;
            && (p.segment != "" ==> sentence || |buf| >= MAX_BUFFER_CHARS)
            && (sentence ==> p.segment != "" && Last(p.segment) in ".!?")
            && (!sentence && |buf| >= MAX_BUFFER_CHARS ==>
                  && |p.segment| <= MAX_BUFFER_CHARS
                  && (buf[Ceiling(buf)..] == [] || buf[Ceiling(buf)] == ' '
                      || forall i :: 1 <= i < MAX_BUFFER_CHARS ==> buf[i] != ' '))
            && (!sentence && |buf| < MAX_BUFFER_CHARS ==> p == Parts("", buf))
  {
    BoundaryIsLast(buf);
    if |buf| >= MAX_BUFFER_CHARS {
      StripInk(buf[..Ceiling(buf)]);
    }
  }

  /** The blank at which a buffer at the ceiling is cut: the last one after the first character, or the ceiling. */
  ghost predicate CeilingCut(b: string, cut: nat) {
    && 0 < cut <= 240 <= |b| && (cut < 240 ==> b[cut] == ' ')
    && forall i :: cut < i < 240 || (cut == 240 && 0 < i < 240) ==> b[i] != ' '
  }

  lemma DecideForced(b: string)
    ensures Decide(b, true) == Parts(Strip(b), "")
  {
  }

  lemma DecideSentence(b: string, end: nat)
    requires LastSentence(b, end) && |Strip(b[..end])| >= 12
    ensures Decide(b, false) == Parts(Strip(b[..end]), LStrip(b[end..]))
  {
    LastIs(b, end);
  }

  lemma DecideCeiling(b: string, cut: nat)
    requires CeilingCut(b, cut) && forall end: nat :: LastSentence(b, end) ==> |Strip(b[..end])| < 12
    ensures Decide(b, false) == Parts(Strip(b[..cut]), LStrip(b[cut..]))
  {
    SegmentIsShort(b);
    assert Ceiling(b) == cut;
  }

  lemma DecideWaits(b: string)
    requires |b| < 240 && forall end: nat :: LastSentence(b, end) ==> |Strip(b[..end])| < 12
    ensures Decide(b, false) == Parts("", b)
  {
    SegmentIsShort(b);
  }

  lemma SegmentIsShort(b: string)
    requires forall end: nat :: LastSentence(b, end) ==> |Strip(b[..end])| < 12
    ensures |AtBoundary(b).segment| < 12
  {
    var last := LastEnd(b, |b|);
    if last > 0 {
      assert LastSentence(b, last);
    }
  }

  // ---------- The connection ----------

  /** The visible text of the pieces, in order. */
  function PiecesInk(ps: seq<Piece>): string {
    if ps == [] then [] else PiecesInk(Front(ps)) + Ink(Last(ps).text)
  }

  function Segments(ps: seq<Piece>): seq<string> {
    if ps == [] then []
    else if Last(ps).Flushed? then Segments(Front(ps)) + [Last(ps).text]
    else Segments(Front(ps))
  }

  /** Visible characters lost to overflow. */
  function DroppedCount(ps: seq<Piece>): nat {
    if ps == [] then 0
    else DroppedCount(Front(ps)) + if Last(ps).Dropped? then |Ink(Last(ps).text)| else 0
  }

  lemma {:induction false} SentPlusDropped(ps: seq<Piece>)
    ensures |PiecesInk(ps)| == |Inks(Segments(ps))| + DroppedCount(ps)
  {
    if ps != [] {
      SentPlusDropped(Front(ps));
      if Last(ps).Flushed? {
        InksSnoc(Segments(Front(ps)), Last(ps).text);
      }
    }
  }

  lemma {:induction false} NoneLost(ps: seq<Piece>)
    requires DroppedCount(ps) == 0
    ensures Inks(Segments(ps)) == PiecesInk(ps)
  {
    if ps != [] {
      NoneLost(Front(ps));
      if Last(ps).Flushed? {
        InksSnoc(Segments(Front(ps)), Last(ps).text);
      } else {
        assert Ink(Last(ps).text) == [];
      }
    }
  }

  /** Everything visible was sent exactly when every dropped buffer was blank. */
  lemma AllSentIff(ps: seq<Piece>)
    ensures Inks(Segments(ps)) == PiecesInk(ps) <==> DroppedCount(ps) == 0
  {
    SentPlusDropped(ps);
    if DroppedCount(ps) == 0 {
      NoneLost(ps);
    }
  }

  lemma PieceSnoc(ps: seq<Piece>, p: Piece)
    ensures PiecesInk(ps + [p]) == PiecesInk(ps) + Ink(p.text)
    ensures Segments(ps + [p]) == if p.Flushed? then Segments(ps) + [p.text] else Segments(ps)
    ensures DroppedCount(ps + [p]) == DroppedCount(ps) + if p.Dropped? then |Ink(p.text)| else 0
  {
    assert Front(ps + [p]) == ps;
  }

  /** Conservation: all accepted text is in the pieces or still buffered. */
  ghost predicate Accounted(accepted: string, pieces: seq<Piece>, buffer: string) {
    Ink(accepted) == PiecesInk(pieces) + Ink(buffer)
  }

  lemma AccountText(accepted: string, pieces: seq<Piece>, buffer: string, text: string)
    requires Accounted(accepted, pieces, buffer)
    ensures Accounted(accepted + text, pieces, buffer + text)
  {
    InkAppend(accepted, text);
    InkAppend(buffer, text);
  }

  lemma AccountPiece(accepted: string, pieces: seq<Piece>, buffer: string, p: Piece, rest: string)
    requires Accounted(accepted, pieces, buffer) && Ink(p.text) + Ink(rest) == Ink(buffer)
    ensures Accounted(accepted, pieces + [p], rest)
  {
    PieceSnoc(pieces, p);
  }

  predicate Speakable(segments: seq<string>) {
    forall i :: 0 <= i < |segments| ==> segments[i] != "" && Trimmed(segments[i])
  }

  lemma SendKeeps(
    accepted: string, pieces: seq<Piece>, buffer: string, sent: seq<string>, segment: string, remainder: string
  )
    requires Accounted(accepted, pieces, buffer) && sent == Segments(pieces) && Speakable(sent)
    requires segment != "" && Trimmed(segment) && Ink(segment) + Ink(remainder) == Ink(buffer)
    ensures Accounted(accepted, pieces + [Flushed(segment)], remainder)
    ensures sent + [segment] == Segments(pieces + [Flushed(segment)]) && Speakable(sent + [segment])
    ensures DroppedCount(pieces + [Flushed(segment)]) == DroppedCount(pieces)
  {
    AccountPiece(accepted, pieces, buffer, Flushed(segment), remainder);
    PieceSnoc(pieces, Flushed(segment));
    SpeakableSnoc(sent, segment);
  }

  lemma SpeakableSnoc(sent: seq<string>, segment: string)
    requires Speakable(sent) && segment != "" && Trimmed(segment)
    ensures Speakable(sent + [segment])
  {
  }

  class Connection {
    var buffer: string
    var sent: seq<string>
    ghost var accepted: string
    ghost var pieces: seq<Piece>

    ghost predicate Valid()
      reads this
    {
      && |buffer| <= OVERFLOW_CHARS
      && sent == Segments(pieces) && Speakable(sent)
      && Accounted(accepted, pieces, buffer)
    }

    constructor ()
      ensures Valid() && buffer == "" && sent == [] && accepted == "" && pieces == []
    {
      buffer, sent, accepted, pieces := "", [], "", [];
    }

    /** Sends a non-empty segment of the buffer and keeps the remainder. */
    method Send(segment: string, remainder: string)
      requires Valid() && Trimmed(segment) && |remainder| <= |buffer|
      requires Ink(segment) + Ink(remainder) == Ink(buffer)
      modifies this
      ensures Valid() && buffer == remainder && accepted == old(accepted)
      ensures sent == if segment == "" then old(sent) else old(sent) + [segment]
      ensures DroppedCount(pieces) == old(DroppedCount(pieces))
    {
      if segment != "" {
        SendKeeps(accepted, pieces, buffer, sent, segment, remainder);
        sent := sent + [segment];
        pieces := pieces + [Flushed(segment)];
      }
      buffer := remainder;
    }

    /** Adds the text of one message, or drops the buffer when it would grow past 20000 characters. */
    method Accumulate(text: string) returns (ok: bool)
      requires Valid()
      modifies this
      ensures Valid() && sent == old(sent)
      ensures ok == (|old(buffer)| + |text| <= OVERFLOW_CHARS)
      ensures ok ==>
        buffer == old(buffer) + text && accepted == old(accepted) + text
        && DroppedCount(pieces) == old(DroppedCount(pieces))
      ensures !ok ==>
        buffer == "" && accepted == old(accepted)
        && DroppedCount(pieces) == old(DroppedCount(pieces)) + |Ink(old(buffer))|
    {
      if |buffer| + |text| > OVERFLOW_CHARS {
        AccountPiece(accepted, pieces, buffer, Dropped(buffer), "");
        PieceSnoc(pieces, Dropped(buffer));
        pieces := pieces + [Dropped(buffer)];
        buffer := "";
        return false;
      }
      AccountText(accepted, pieces, buffer, text);
      buffer := buffer + text;
      accepted := accepted + text;
      return true;
    }

    /** The flush decision on the current buffer. */
    method FlushDue(force: bool)
      requires Valid()
      modifies this
      ensures Valid() && accepted == old(accepted)
      ensures var p := Decide(old(buffer), force);
              && buffer == p.remainder
              && sent == if p.segment == "" then old(sent) else old(sent) + [p.segment]
      ensures DroppedCount(pieces) == old(DroppedCount(pieces))
    {
      var parts := SplitAtLastBoundary(buffer);
      var segment, remainder := parts.segment, parts.remainder;
      DecideConserves(buffer, force);
      if force {
        segment, remainder := Strip(buffer), "";
      } else if segment != "" && |segment| >= MIN_BUFFER_CHARS {
      } else if |buffer| >= MAX_BUFFER_CHARS {
        var cut: int := RFindBlank(buffer, MAX_BUFFER_CHARS);
        if cut <= 0 {
          cut := MAX_BUFFER_CHARS;
        }
        segment, remainder := Strip(buffer[..cut]), LStrip(buffer[cut..]);
      } else {
        segment, remainder := "", buffer;
      }
      Send(segment, remainder);
    }

    /** A message that reaches the flush decision. */
    method Take(text: Option<string>, flush: bool)
      requires Valid()
      modifies this
      ensures Valid()
      ensures var t := Turn(old(buffer), text, flush);
              && buffer == t.remainder
              && sent == if t.segment == "" then old(sent) else old(sent) + [t.segment]
      ensures accepted == old(accepted) + if TooMuch(old(buffer), text) then "" else Given(text)
      ensures DroppedCount(pieces) == old(DroppedCount(pieces)) + if TooMuch(old(buffer), text) then |Ink(old(buffer))| else 0
    {
      if text.Some? {
        var ok := Accumulate(text.value);
        if !ok {
          return;
        }
      }
      assert buffer == old(buffer) + Given(text);
      FlushDue(flush);
    }

    /** One turn of the receive loop; false ends it. */
    method Receive(m: Message) returns (more: bool)
      requires Valid()
      modifies this
      ensures Valid()
      ensures more == !Ends(m)
      ensures Heard(m, old(buffer), old(accepted), old(DroppedCount(pieces)), buffer, accepted, DroppedCount(pieces))
      ensures sent == if Said(m, old(buffer)) == "" then old(sent) else old(sent) + [Said(m, old(buffer))]
      // Anything but an accepted object leaves the buffer alone and sends nothing.
      ensures !(m.Object? && m.configOk && !m.close) ==> buffer == old(buffer) && sent == old(sent)
      // Overflow empties the buffer and sends nothing.
      ensures m.Object? && m.configOk && !m.close && |old(buffer)| + |Given(m.text)| > 20000 ==>
                buffer == "" && sent == old(sent)
      // A forced flush sends the whole buffer, stripped, unless it is blank.
      ensures m.Object? && m.configOk && !m.close && |old(buffer)| + |Given(m.text)| <= 20000 && m.flush ==>
                var whole := Strip(old(buffer) + Given(m.text));
                buffer == "" && sent == if whole == "" then old(sent) else old(sent) + [whole]
      // Otherwise: a long enough sentence, the ceiling, or nothing yet.
      ensures m.Object? && m.configOk && !m.close && |old(buffer)| + |Given(m.text)| <= 20000 && !m.flush ==>
                UnforcedTurn(old(buffer) + Given(m.text), old(sent), buffer, sent)
    {
      TurnSays(buffer, sent, m);
      if m.IdleTimeout? {
        return false;
      }
      if m.Malformed? || !m.configOk {
        return true;
      }
      if m.close {
        return false;
      }
      Take(m.text, m.flush);
      return true;
    }

    /** The drain on close. */
    method Drain()
      requires Valid()
      modifies this
      ensures Valid() && accepted == old(accepted) && Ink(buffer) == []
      ensures sent == if Strip(old(buffer)) == "" then old(sent) else old(sent) + [Strip(old(buffer))]
      ensures DroppedCount(pieces) == old(DroppedCount(pieces))
    {
      StripInk(buffer);
      InkNothing(buffer);
      var tail := Strip(buffer);
      if tail != "" {
        Send(tail, "");
      }
    }
  }

  predicate Ends(m: Message) {
    m.IdleTimeout? || (m.Object? && m.configOk && m.close)
  }

  /** The message reaches the flush decision. */
  predicate Flushes(m: Message) {
    m.Object? && m.configOk && !m.close
  }

  function Given(text: Option<string>): string {
    if text.Some? then text.value else ""
  }

  predicate TooMuch(buffer: string, text: Option<string>) {
    text.Some? && |buffer| + |text.value| > OVERFLOW_CHARS
  }

  /** Overflow empties the buffer and sends nothing; otherwise the flush decision on the longer buffer. */
  function Turn(buffer: string, text: Option<string>, flush: bool): Parts {
    if TooMuch(buffer, text) then Parts("", "") else Decide(buffer + Given(text), flush)
  }

  /** The segment one message makes the connection send, or "". */
  function Said(m: Message, buffer: string): string {
    if Flushes(m) then Turn(buffer, m.text, m.flush).segment else ""
  }

  /** The three cases of an unforced flush decision on the text b. */
  ghost predicate UnforcedTurn(b: string, sent: seq<string>, buffer': string, sent': seq<string>) {
    && (forall end: nat :: LastSentence(b, end) && |Strip(b[..end])| >= 12 ==>
          sent' == sent + [Strip(b[..end])] && buffer' == LStrip(b[end..]))
    && ((forall end: nat :: LastSentence(b, end) ==> |Strip(b[..end])| < 12) ==>
          && (|b| < 240 ==> sent' == sent && buffer' == b)
          && (forall cut: nat :: CeilingCut(b, cut) ==>
                && buffer' == LStrip(b[cut..])
                && sent' == if Strip(b[..cut]) == "" then sent else sent + [Strip(b[..cut])]))
  }

  lemma UnforcedIs(b: string, sent: seq<string>)
    ensures var p := Decide(b, false);
            UnforcedTurn(b, sent, p.remainder, if p.segment == "" then sent else sent + [p.segment])
  {
    forall end: nat | LastSentence(b, end) && |Strip(b[..end])| >= 12
      ensures Decide(b, false) == Parts(Strip(b[..end]), LStrip(b[end..]))
    {
      DecideSentence(b, end);
    }
    if forall end: nat :: LastSentence(b, end) ==> |Strip(b[..end])| < 12 {
      if |b| < 240 {
        DecideWaits(b);
      }
      forall cut: nat | CeilingCut(b, cut)
        ensures Decide(b, false) == Parts(Strip(b[..cut]), LStrip(b[cut..]))
      {
        DecideCeiling(b, cut);
      }
    }
  }

  /** What a message that reaches the flush decision leads to. */
  lemma TurnSays(buffer: string, sent: seq<string>, m: Message)
    ensures Flushes(m) ==>
              var t, b := Turn(buffer, m.text, m.flush), buffer + Given(m.text);
              var sent' := if t.segment == "" then sent else sent + [t.segment];
              if |buffer| + |Given(m.text)| > 20000 && m.text.Some? then t == Parts("", "")
              else if m.flush then t == Parts(Strip(b), "")
              else UnforcedTurn(b, sent, t.remainder, sent')
  {
    if Flushes(m) && !m.flush {
      UnforcedIs(buffer + Given(m.text), sent);
    }
  }

  /** What one message does to the buffer, the accepted text and the count of dropped characters. */
  ghost predicate Heard(
    m: Message, buffer: string, accepted: string, dropped: nat, buffer': string, accepted': string, dropped': nat
  ) {
    if !Flushes(m) then buffer' == buffer && accepted' == accepted && dropped' == dropped
    else
      && buffer' == Turn(buffer, m.text, m.flush).remainder
      && if TooMuch(buffer, m.text) then accepted' == accepted && dropped' == dropped + |Ink(buffer)|
         else accepted' == accepted + Given(m.text) && dropped' == dropped
  }

  /** The text of the messages up to the one that ends the session. */
  function TextUntilEnd(ms: seq<Message>): string {
    if ms == [] || Ends(ms[0]) then ""
    else (if Flushes(ms[0]) then Given(ms[0].text) else "") + TextUntilEnd(ms[1..])
  }

  /** No message of the session overflows the buffer. */
  predicate OverflowFree(ms: seq<Message>, buffer: string) {
    if ms == [] || Ends(ms[0]) then true
    else if !Flushes(ms[0]) then OverflowFree(ms[1..], buffer)
    else !TooMuch(buffer, ms[0].text) && OverflowFree(ms[1..], Turn(buffer, ms[0].text, ms[0].flush).remainder)
  }

  /** What is known after i messages of a session that never overflows. */
  ghost predicate OnTrack(ms: seq<Message>, i: nat, buffer: string, accepted: string, dropped: nat)
    requires i <= |ms|
  {
    OverflowFree(ms, "") ==>
      && dropped == 0 && OverflowFree(ms[i..], buffer)
      && TextUntilEnd(ms) == accepted + TextUntilEnd(ms[i..])
  }

  lemma TrackStep(
    ms: seq<Message>, i: nat, buffer: string, accepted: string, dropped: nat,
    buffer': string, accepted': string, dropped': nat
  )
    requires i < |ms| && OnTrack(ms, i, buffer, accepted, dropped) && !Ends(ms[i])
    requires Heard(ms[i], buffer, accepted, dropped, buffer', accepted', dropped')
    ensures OnTrack(ms, i + 1, buffer', accepted', dropped')
  {
    assert ms[i..][1..] == ms[i + 1..];
    var t, rest := if Flushes(ms[i]) then Given(ms[i].text) else "", TextUntilEnd(ms[i + 1..]);
    assert accepted + (t + rest) == accepted + t + rest;
    assert accepted + "" == accepted;
  }

  lemma TrackDone(ms: seq<Message>, i: nat, buffer: string, accepted: string, dropped: nat)
    requires i <= |ms| && OnTrack(ms, i, buffer, accepted, dropped)
    requires i == |ms| || Ends(ms[i])
    ensures OverflowFree(ms, "") ==> dropped == 0 && TextUntilEnd(ms) == accepted
  {
    assert TextUntilEnd(ms[i..]) == "";
    assert accepted + "" == accepted;
  }

  lemma CancelSuffix(a: string, b: string, c: string)
    ensures a + c == b + c <==> a == b
  {
    if a + c == b + c {
      assert a == (a + c)[..|a|] && b == (b + c)[..|b|];
    }
  }

  lemma AllAccounted(accepted: string, pieces: seq<Piece>, buffer: string)
    requires Accounted(accepted, pieces, buffer)
    ensures Ink(accepted) == PiecesInk(pieces) + Ink(buffer)
    ensures Inks(Segments(pieces)) + Ink(buffer) == Ink(accepted) <==> DroppedCount(pieces) == 0
  {
    AllSentIff(pieces);
    CancelSuffix(Inks(Segments(pieces)), PiecesInk(pieces), Ink(buffer));
  }

  method ReceiveOne(c: Connection, ms: seq<Message>, i: nat) returns (more: bool)
    requires c.Valid() && i < |ms|
    requires OnTrack(ms, i, c.buffer, c.accepted, DroppedCount(c.pieces))
    modifies c
    ensures c.Valid() && more == !Ends(ms[i])
    ensures OnTrack(ms, if more then i + 1 else i, c.buffer, c.accepted, DroppedCount(c.pieces))
  {
    ghost var buffer, accepted, dropped := c.buffer, c.accepted, DroppedCount(c.pieces);
    more := c.Receive(ms[i]);
    if more {
      TrackStep(ms, i, buffer, accepted, dropped, c.buffer, c.accepted, DroppedCount(c.pieces));
    }
  }

  /** The receive loop, on a fresh connection. */
  method ReceiveAll(c: Connection, ms: seq<Message>) returns (ended: bool)
    requires c.Valid() && c.buffer == "" && c.accepted == "" && c.pieces == []
    modifies c
    ensures c.Valid()
    ensures ended <==> exists i :: 0 <= i < |ms| && Ends(ms[i])
    ensures OverflowFree(ms, "") ==> DroppedCount(c.pieces) == 0 && TextUntilEnd(ms) == c.accepted
  {
    ended := false;
    var i := 0;
    assert "" + TextUntilEnd(ms) == TextUntilEnd(ms);
    while i < |ms|
      invariant 0 <= i <= |ms| && c.Valid()
      invariant !ended && forall k :: 0 <= k < i ==> !Ends(ms[k])
      invariant OnTrack(ms, i, c.buffer, c.accepted, DroppedCount(c.pieces))
    {
      var more := ReceiveOne(c, ms, i);
      if !more {
        ended := true;
        break;
      }
      i := i + 1;
    }
    TrackDone(ms, i, c.buffer, c.accepted, DroppedCount(c.pieces));
  }

  /**
    A whole connection: the messages, then the drain when one of them ended the
    loop or the client is still there. A client that disconnects instead leaves
    exactly the buffered text unsent.
  */
  method Session(ms: seq<Message>, disconnects: bool)
    returns (sent: seq<string>, ghost pieces: seq<Piece>, ghost accepted: string, ghost unsent: string)
    ensures sent == Segments(pieces) && Speakable(sent)
    ensures Ink(accepted) == PiecesInk(pieces) + Ink(unsent)
    ensures !disconnects || (exists i :: 0 <= i < |ms| && Ends(ms[i])) ==> Ink(unsent) == []
    ensures Inks(sent) + Ink(unsent) == Ink(accepted) <==> DroppedCount(pieces) == 0
    ensures OverflowFree(ms, "") ==> Inks(sent) + Ink(unsent) == Ink(TextUntilEnd(ms))
  {
    var c := new Connection();
    var ended := ReceiveAll(c, ms);
    if ended || !disconnects {
      c.Drain();
    }
    sent, pieces, accepted, unsent := c.sent, c.pieces, c.accepted, c.buffer;
    AllAccounted(accepted, pieces, unsent);
  }
}
