/**
  The worker's own code: the one-job pipeline and the consumer around it, in
  the form the source has. Answers from Redis, the database, the artifact store
  and the engine are arbitrary. Each method is proved to perform only sequences
  of operations that the handlers of the Delivery protocol perform.
*/
module Worker {
  import opened Prelude
  import opened ResultStream
  import opened Delivery

  // ---------- Operation sequences of one handler ----------

  /** A handler's next state, leaving stream positions aside. */
  function Move(h: Handler, op: Op, wellFormed: bool, maxRetries: int): Handler
    requires Fits(h, op)
  {
    Advance(h, op, wellFormed, maxRetries, 0)
  }

  /** Where a sequence of operations leads, if each fits the point it is performed at. */
  function Walk(h: Handler, ops: seq<Op>, wellFormed: bool, maxRetries: int): Option<Handler> {
    if ops == [] then Some(h)
    else
      match Walk(h, Front(ops), wellFormed, maxRetries)
      case None => None
      case Some(g) => if Fits(g, Last(ops)) then Some(Move(g, Last(ops), wellFormed, maxRetries)) else None
  }

  lemma WalkSnoc(h: Handler, ops: seq<Op>, op: Op, wellFormed: bool, maxRetries: int)
    requires Walk(h, ops, wellFormed, maxRetries).Some?
    requires Fits(Walk(h, ops, wellFormed, maxRetries).value, op)
    ensures Walk(h, ops + [op], wellFormed, maxRetries)
         == Some(Move(Walk(h, ops, wellFormed, maxRetries).value, op, wellFormed, maxRetries))
  {
    assert Front(ops + [op]) == ops;
  }

  lemma WalkOne(h: Handler, op: Op, wellFormed: bool, maxRetries: int)
    requires Fits(h, op)
    ensures Walk(h, [op], wellFormed, maxRetries) == Some(Move(h, op, wellFormed, maxRetries))
  {
    WalkSnoc(h, [], op, wellFormed, maxRetries);
    assert [] + [op] == [op];
  }

  lemma WalkTwo(h: Handler, first: Op, second: Op, wellFormed: bool, maxRetries: int)
    requires Fits(h, first) && Fits(Move(h, first, wellFormed, maxRetries), second)
    ensures Walk(h, [first, second], wellFormed, maxRetries)
         == Some(Move(Move(h, first, wellFormed, maxRetries), second, wellFormed, maxRetries))
  {
    WalkOne(h, first, wellFormed, maxRetries);
    WalkSnoc(h, [first], second, wellFormed, maxRetries);
    assert [first] + [second] == [first, second];
  }

  lemma {:induction false} WalkAppend(h: Handler, a: seq<Op>, b: seq<Op>, wellFormed: bool, maxRetries: int)
    requires Walk(h, a, wellFormed, maxRetries).Some?
    ensures Walk(h, a + b, wellFormed, maxRetries)
         == Walk(Walk(h, a, wellFormed, maxRetries).value, b, wellFormed, maxRetries)
  {
    if b == [] {
      assert a + b == a;
    } else {
      assert Front(a + b) == a + Front(b);
      WalkAppend(h, a, Front(b), wellFormed, maxRetries);
    }
  }

  /** A handler of the protocol and its position-free image. */
  predicate SameButPositions(g: Handler, h: Handler) {
    g.entry == h.entry && g.delivery == h.delivery && g.pc == h.pc && g.attempt == h.attempt && g.pieces == h.pieces
  }

  /** Any operation the worker code performs is one the interleaved protocol performs, with the same result. */
  lemma MoveIsProtocolStep(w: World, i: nat, op: Op, g: Handler)
    requires Enabled(w, Work(i, op)) && SameButPositions(g, w.handlers[i])
    ensures Fits(g, op)
    ensures SameButPositions(Move(g, op, w.jobs[w.handlers[i].entry], w.maxRetries), WorkStep(w, i, op).handlers[i])
  {
  }

  /** The operations of handler i, in order. */
  function OpsOf(acts: seq<Act>, i: nat): seq<Op> {
    if acts == [] then []
    else if Last(acts).Work? && Last(acts).h == i then OpsOf(Front(acts), i) + [Last(acts).op]
    else OpsOf(Front(acts), i)
  }

  /** Handler i has done exactly ops since it took its entry. */
  ghost predicate HasWalked(w: World, i: nat, ops: seq<Op>) {
    && i < |w.handlers| && w.handlers[i].entry < |w.jobs|
    && var h := w.handlers[i];
       var g := Walk(Fresh(h.entry, h.delivery), ops, w.jobs[h.entry], w.maxRetries);
       g.Some? && SameButPositions(g.value, h)
  }

  lemma WalkedOn(w: World, i: nat, ops: seq<Op>, op: Op)
    requires HasWalked(w, i, ops) && Enabled(w, Work(i, op))
    ensures HasWalked(WorkStep(w, i, op), i, ops + [op])
  {
    var h := w.handlers[i];
    var g := Walk(Fresh(h.entry, h.delivery), ops, w.jobs[h.entry], w.maxRetries).value;
    MoveIsProtocolStep(w, i, op, g);
    WalkSnoc(Fresh(h.entry, h.delivery), ops, op, w.jobs[h.entry], w.maxRetries);
    SameStart(w, i, op);
  }

  lemma SameStart(w: World, i: nat, op: Op)
    requires Enabled(w, Work(i, op))
    ensures var w' := WorkStep(w, i, op);
            && w'.jobs == w.jobs && w'.maxRetries == w.maxRetries && |w'.handlers| == |w.handlers|
            && w'.handlers[i].entry == w.handlers[i].entry && w'.handlers[i].delivery == w.handlers[i].delivery
            && forall j :: 0 <= j < |w.handlers| && j != i ==> w'.handlers[j] == w.handlers[j]
  {
  }

  lemma WalkedBy(w: World, a: Act, i: nat, ops: seq<Op>)
    requires HasWalked(w, i, ops) && Enabled(w, a) && !(a.Work? && a.h == i)
    ensures HasWalked(Apply(w, a), i, ops)
  {
    if a.Work? {
      SameStart(w, a.h, a.op);
    }
  }

  lemma JustBorn(w: World, e: nat)
    requires Enabled(w, Fetch(e))
    ensures HasWalked(FetchStep(w, e), |w.handlers|, [])
  {
  }

  lemma OtherBirths(w: World, a: Act)
    requires Enabled(w, a)
    ensures |Apply(w, a).handlers| == |w.handlers| + if a.Fetch? then 1 else 0
  {
    if a.Work? {
      SameStart(w, a.h, a.op);
    }
  }

  lemma {:induction false} NothingBeforeBirth(ws: seq<World>, acts: seq<Act>, t: nat, i: nat)
    requires IsRun(ws, acts) && t < |ws| && |ws[t].handlers| <= i
    ensures OpsOf(acts[..t], i) == []
    decreases t
  {
    if t > 0 {
      OtherBirths(ws[t - 1], acts[t - 1]);
      NothingBeforeBirth(ws, acts, t - 1, i);
      assert Front(acts[..t]) == acts[..t - 1] && Last(acts[..t]) == acts[t - 1];
    }
  }

  /**
    In every run, whatever the interleaving, each handler's own operations are
    one path of the worker from pick-up on, and lead it to where it stands.
  */
  lemma {:induction false} EveryHandlerWalks(ws: seq<World>, acts: seq<Act>, t: nat, i: nat)
    requires IsRun(ws, acts) && t < |ws| && i < |ws[t].handlers|
    ensures HasWalked(ws[t], i, OpsOf(acts[..t], i))
    decreases t
  {
    if t > 0 {
      var w, a := ws[t - 1], acts[t - 1];
      assert Front(acts[..t]) == acts[..t - 1] && Last(acts[..t]) == a;
      OtherBirths(w, a);
      if i < |w.handlers| {
        EveryHandlerWalks(ws, acts, t - 1, i);
        if a.Work? && a.h == i {
          WalkedOn(w, i, OpsOf(acts[..t - 1], i), a.op);
        } else {
          WalkedBy(w, a, i, OpsOf(acts[..t - 1], i));
        }
      } else {
        NothingBeforeBirth(ws, acts, t - 1, i);
        JustBorn(w, a.entry);
      }
    }
  }

  // ---------- Alignment ----------

  /** A sampleRate of 0 stands for an absent one. */
  datatype SynthChunk = SynthChunk(pcm: Bytes, sampleRate: nat, text: Option<string>)

  datatype AlignRow = AlignRow(seqNo: nat, startMs: nat, endMs: nat, text: string)

  function Rate(c: SynthChunk, engineRate: nat): nat {
    var r := if c.sampleRate != 0 then c.sampleRate else engineRate;
    if r == 0 then 1 else r
  }

  function Millis(samples: nat, rate: nat): nat
    requires rate > 0
  {
    samples * 1000 / rate
  }

  lemma {:induction false} RealProduct(a: int, b: nat)
    ensures (a * b) as real == a as real * b as real
  {
    if b > 0 {
      RealProduct(a, b - 1);
      assert a * b == a * (b - 1) + a;
      assert a as real * b as real == a as real * (b - 1) as real + a as real;
    }
  }

  lemma ScaledOrder(a: real, b: real, r: real)
    requires r > 0.0
    ensures a < b ==> a * r < b * r
  {
    if a < b {
      assert (b - a) * r > 0.0;
    }
  }

  lemma QuotientBetween(q: real, x: real, y: real, r: real)
    requires r > 0.0
    ensures x * r == y && q * r <= y < (q + 1.0) * r ==> q <= x < q + 1.0
  {
    ScaledOrder(x, q, r);
    ScaledOrder(q + 1.0, x, r);
  }

  lemma QuotientTimes(s: real, r: real)
    requires r > 0.0
    ensures (s / r * 1000.0) * r == s * 1000.0
  {
    var x := s / r;
    assert x * r == s;
    assert (x * 1000.0) * r == x * r * 1000.0;
  }

  /** Whole milliseconds: the source's division and truncation, in exact arithmetic. */
  lemma MillisTruncates(samples: nat, rate: nat)
    requires rate > 0
    ensures Millis(samples, rate) == (samples as real / rate as real * 1000.0).Floor
  {
    var q := Millis(samples, rate);
    var x := samples as real / rate as real * 1000.0;
    assert q * rate <= samples * 1000 < (q + 1) * rate;
    RealProduct(q, rate);
    RealProduct(q + 1, rate);
    QuotientTimes(samples as real, rate as real);
    QuotientBetween(q as real, x, samples as real * 1000.0, rate as real);
  }

  function Samples(cs: seq<SynthChunk>): nat {
    if cs == [] then 0 else Samples(Front(cs)) + |Last(cs).pcm| / 2
  }

  function Pcms(cs: seq<SynthChunk>): seq<Bytes> {
    seq(|cs|, i requires 0 <= i < |cs| => cs[i].pcm)
  }

  /** The billed duration of a buffer. */
  function DurationMs(pcm: Bytes, engineRate: nat): nat {
    Millis(|pcm| / 2, if engineRate == 0 then 1 else engineRate)
  }

  predicate RowOf(rows: seq<AlignRow>, cs: seq<SynthChunk>, engineRate: nat, i: nat)
    requires i < |rows| == |cs|
  {
    && rows[i].seqNo == i
    && rows[i].startMs == Millis(Samples(cs[..i]), Rate(cs[i], engineRate))
    && rows[i].endMs == Millis(Samples(cs[..i + 1]), Rate(cs[i], engineRate))
    && rows[i].text == (if cs[i].text.Some? then cs[i].text.value else "")
  }

  predicate AlignmentOf(rows: seq<AlignRow>, cs: seq<SynthChunk>, engineRate: nat) {
    |rows| == |cs| && forall i :: 0 <= i < |rows| ==> RowOf(rows, cs, engineRate, i)
  }

  lemma DivMonotone(a: nat, b: nat, c: nat)
    requires a <= b && c > 0
    ensures a / c <= b / c
  {
    var d := b / c - a / c;
    assert d * c == (b - b % c) - (a - a % c);
    assert d * c + c > 0;
    assert d <= -1 ==> d * c + c <= 0;
  }

  lemma {:induction false} EvenSamples(cs: seq<SynthChunk>)
    requires forall i :: 0 <= i < |cs| ==> |cs[i].pcm| % 2 == 0
    ensures |Flatten(Pcms(cs))| == 2 * Samples(cs)
  {
    if cs != [] {
      EvenSamples(Front(cs));
      assert Pcms(cs) == Pcms(Front(cs)) + [Last(cs).pcm];
      FlattenSnoc(Pcms(Front(cs)), Last(cs).pcm);
    }
  }

  lemma MillisBracket(samples: nat, rate: nat)
    requires rate > 0
    ensures Millis(samples, rate) * rate <= samples * 1000 < (Millis(samples, rate) + 1) * rate
  {
  }

  /**
    Each row's times are whole milliseconds at the chunk's own rate, or at the
    engine's when the chunk has none: the last not after the chunk's first sample,
    and the last not after its end.
  */
  lemma RowTimes(rows: seq<AlignRow>, cs: seq<SynthChunk>, engineRate: nat, i: nat)
    requires AlignmentOf(rows, cs, engineRate) && i < |rows|
    ensures var r := if cs[i].sampleRate != 0 then cs[i].sampleRate else if engineRate != 0 then engineRate else 1;
            && rows[i].startMs * r <= Samples(cs[..i]) * 1000 < (rows[i].startMs + 1) * r
            && rows[i].endMs * r <= (Samples(cs[..i]) + |cs[i].pcm| / 2) * 1000 < (rows[i].endMs + 1) * r
  {
    assert RowOf(rows, cs, engineRate, i);
    assert Front(cs[..i + 1]) == cs[..i];
    MillisBracket(Samples(cs[..i]), Rate(cs[i], engineRate));
    MillisBracket(Samples(cs[..i + 1]), Rate(cs[i], engineRate));
  }

  lemma RowInOrder(rows: seq<AlignRow>, cs: seq<SynthChunk>, engineRate: nat, i: nat)
    requires AlignmentOf(rows, cs, engineRate) && i < |rows|
    ensures rows[i].seqNo == i && rows[i].startMs <= rows[i].endMs
  {
    assert RowOf(rows, cs, engineRate, i);
    assert Front(cs[..i + 1]) == cs[..i];
    DivMonotone(Samples(cs[..i]) * 1000, Samples(cs[..i + 1]) * 1000, Rate(cs[i], engineRate));
  }

  lemma FirstStartsAtZero(rows: seq<AlignRow>, cs: seq<SynthChunk>, engineRate: nat)
    requires AlignmentOf(rows, cs, engineRate) && cs != []
    ensures rows[0].startMs == 0
  {
    assert RowOf(rows, cs, engineRate, 0) && cs[..0] == [];
  }

  lemma LastEndsAtDuration(rows: seq<AlignRow>, cs: seq<SynthChunk>, engineRate: nat)
    requires AlignmentOf(rows, cs, engineRate) && cs != []
    requires forall i :: 0 <= i < |cs| ==> |cs[i].pcm| % 2 == 0
    requires Last(cs).sampleRate == 0 || Last(cs).sampleRate == engineRate
    ensures Last(rows).endMs == DurationMs(Flatten(Pcms(cs)), engineRate)
  {
    EvenSamples(cs);
    assert RowOf(rows, cs, engineRate, |cs| - 1) && cs[..|cs|] == cs;
  }

  /**
    For a constant sample rate and even-length chunks the rows tile the audio:
    numbered from 0, starting at 0, each starting where the previous one ended,
    never running backwards, and ending at the billed duration.
  */
  lemma AlignmentTiles(rows: seq<AlignRow>, cs: seq<SynthChunk>, engineRate: nat)
    requires AlignmentOf(rows, cs, engineRate) && cs != []
    requires forall i :: 0 <= i < |cs| ==> |cs[i].pcm| % 2 == 0 && (cs[i].sampleRate == 0 || cs[i].sampleRate == engineRate)
    ensures forall i :: 0 <= i < |rows| ==> rows[i].seqNo == i && rows[i].startMs <= rows[i].endMs
    ensures rows[0].startMs == 0
    ensures forall i :: 0 <= i < |rows| - 1 ==> rows[i + 1].startMs == rows[i].endMs
    ensures Last(rows).endMs == DurationMs(Flatten(Pcms(cs)), engineRate)
  {
    forall i: nat | i < |rows|
      ensures rows[i].seqNo == i && rows[i].startMs <= rows[i].endMs
    {
      RowInOrder(rows, cs, engineRate, i);
    }
    FirstStartsAtZero(rows, cs, engineRate);
    forall i: nat | i < |rows| - 1
      ensures rows[i + 1].startMs == rows[i].endMs
    {
      assert RowOf(rows, cs, engineRate, i) && RowOf(rows, cs, engineRate, i + 1);
    }
    LastEndsAtDuration(rows, cs, engineRate);
  }

  // ---------- The pipeline ----------

  datatype Raised = Returned | PoisonJob | TransientFailure | Unexpected

  /** What kind of end one handling came to; Escaped means an exception left the handler. */
  datatype Outcome = Succeeded | WasPoison | WasTransient | WasUnexpected | Escaped

  /** The voice lookup; some licences make a watermark mandatory, and it needs an active key. */
  datatype Voice = LookupRaised | NotVisible | Found(mustWatermark: bool, keyBound: bool)

  datatype Reference = Resolved | Missing | ResolveRaised

  /** Recording a terminal failure: the message, and how publishing and persisting it go. */
  datatype Failing = Failing(why: string, sent: Io, persisted: Io)

  /** Everything the outside world answers while one job is processed. */
  datatype Answers = Answers(
    deleted: Io,
    voice: Voice,
    applier: bool,            // is the watermark applier available here?
    reference: Reference,
    modelKnown: bool,
    crashes: bool,            // does the engine raise after its last chunk?
    publishes: nat -> Io,     // the XADD of each chunk
    canArchive: bool,         // is an archive callable configured?
    uri: string,
    stored: Io,
    committed: Io,
    finished: Io,
    failing: Failing)

  function Fresh(entry: nat, delivery: nat): Handler {
    Handler(entry, delivery, Counting, 0, 0, [], [])
  }

  /**
    `mark_terminal_failure`: publish the error, then persist the failure; it
    raises unless both succeed. An empty message falls back to the error code.
    `h` is the handler at the point of failing; the ghost results say what was done.
  */
  method MarkTerminalFailure(failing: Failing, code: string, maxRetries: int, ghost h: Handler)
    returns (raised: bool, ghost ops: seq<Op>, ghost after: Handler)
    requires h.pc.Erring? && code != ""
    ensures Walk(h, ops, true, maxRetries) == Some(after)
    ensures raised <==> !failing.sent.Ok? || !failing.persisted.Ok?
    ensures after == h.(pc := if raised then Broken(h.pc.verdict) else Copying(h.pc.verdict))
    ensures ops != [] && ops[0] == SendError(if failing.why != "" then failing.why else code, failing.sent)
    ensures if failing.sent.Ok? then |ops| == 2 && ops[1] == PersistFailure(failing.persisted) else |ops| == 1
  {
    var message := if failing.why != "" then failing.why else code;
    ghost var send, persist := SendError(message, failing.sent), PersistFailure(failing.persisted);
    after := Move(h, send, true, maxRetries);
    if failing.sent != Ok {
      WalkOne(h, send, true, maxRetries);
      return true, [send], after;
    }
    WalkTwo(h, send, persist, true, maxRetries);
    ops, after := [send, persist], Move(after, persist, true, maxRetries);
    raised := failing.persisted != Ok;
  }

  /** The chunk loop of `process_one_job`: publish each chunk as the engine yields it. */
  method PublishChunks(engine: seq<SynthChunk>, a: Answers, engineRate: nat, maxRetries: int, ghost h: Handler)
    returns (ok: bool, pcm: Bytes, alignment: seq<AlignRow>, ghost ops: seq<Op>, ghost after: Handler)
    requires h.pc.Synthesizing? && h.pieces == []
    ensures ok <==> !a.crashes && forall k :: 0 <= k < |engine| ==> a.publishes(k).Ok?
    ensures Walk(h, ops, true, maxRetries) == Some(after)
    ensures after.entry == h.entry && after.attempt == h.attempt
    ensures ok ==> after.pc.Synthesizing? && after.pieces == Pcms(engine) && pcm == Flatten(Pcms(engine))
    ensures ok ==> AlignmentOf(alignment, engine, engineRate)
    ensures !ok ==> after.pc.Recounting?
  {
    pcm, alignment, ops, after := [], [], [], h;
    var seqNo, cumulative := 0, 0;
    assert engine[..0] == [];
    while seqNo < |engine|
      invariant 0 <= seqNo <= |engine|
      invariant Walk(h, ops, true, maxRetries) == Some(after)
      invariant after.pc.Synthesizing? && after.entry == h.entry && after.attempt == h.attempt
      invariant after.pieces == Pcms(engine[..seqNo]) && pcm == Flatten(after.pieces)
      invariant Aligned(alignment, cumulative, engine[..seqNo], engineRate) && Sent(a, seqNo)
    {
      var chunk := engine[seqNo];
      ChunkTaken(engine, seqNo);
      ok, ops, after := PublishChunk(chunk, a.publishes(seqNo), maxRetries, h, ops, after);
      if !ok {
        return;
      }
      pcm := pcm + chunk.pcm;
      var row, samples := NextRow(chunk, engineRate, cumulative, seqNo);
      AlignedNext(alignment, cumulative, engine[..seqNo], chunk, engineRate, row, samples);
      alignment, cumulative := alignment + [row], samples;
      seqNo := seqNo + 1;
    }
    assert engine[..seqNo] == engine;
    ok := !a.crashes;
    if a.crashes {
      WalkSnoc(h, ops, EngineCrash, true, maxRetries);
      ops, after := ops + [EngineCrash], Move(after, EngineCrash, true, maxRetries);
    }
  }

  /** The first n chunks were published. */
  predicate Sent(a: Answers, n: nat) {
    forall k :: 0 <= k < n ==> a.publishes(k).Ok?
  }

  /** `publish_chunk`: one XADD, which may raise before or after taking effect. */
  method PublishChunk(chunk: SynthChunk, io: Io, maxRetries: int, ghost h: Handler, ghost before: seq<Op>, ghost now: Handler)
    returns (ok: bool, ghost ops: seq<Op>, ghost after: Handler)
    requires Walk(h, before, true, maxRetries) == Some(now) && now.pc.Synthesizing?
    ensures Walk(h, ops, true, maxRetries) == Some(after) && after.entry == now.entry && after.attempt == now.attempt
    ensures ops == before + [Emit(chunk.pcm, chunk.text, io)] && (ok <==> io.Ok?)
    ensures ok ==> after.pc.Synthesizing? && after.pieces == now.pieces + [chunk.pcm]
    ensures ok ==> Flatten(after.pieces) == Flatten(now.pieces) + chunk.pcm
    ensures !ok ==> after.pc.Recounting?
  {
    ghost var op := Emit(chunk.pcm, chunk.text, io);
    ChunkSent(h, before, now, op, maxRetries);
    ops, after := before + [op], Move(now, op, true, maxRetries);
    ok := io == Ok;
  }

  /** The alignment row of one chunk, and the samples so far with it. */
  method NextRow(chunk: SynthChunk, engineRate: nat, cumulative: nat, seqNo: nat) returns (row: AlignRow, samples: nat)
    ensures samples == cumulative + |chunk.pcm| / 2
    ensures row.seqNo == seqNo && row.text == if chunk.text.Some? then chunk.text.value else ""
    ensures row.startMs == Millis(cumulative, Rate(chunk, engineRate)) && row.endMs == Millis(samples, Rate(chunk, engineRate))
  {
    var chunkRate := if chunk.sampleRate != 0 then chunk.sampleRate else engineRate;
    if chunkRate == 0 {
      chunkRate := 1;
    }
    var start := Millis(cumulative, chunkRate);
    samples := cumulative + |chunk.pcm| / 2;
    row := AlignRow(seqNo, start, Millis(samples, chunkRate), if chunk.text.Some? then chunk.text.value else "");
  }

  lemma ChunkSent(h: Handler, ops: seq<Op>, g: Handler, op: Op, maxRetries: int)
    requires Walk(h, ops, true, maxRetries) == Some(g) && g.pc.Synthesizing? && op.Emit?
    ensures var g' := Move(g, op, true, maxRetries);
            && Walk(h, ops + [op], true, maxRetries) == Some(g')
            && g'.entry == g.entry && g'.attempt == g.attempt
            && if op.io.Ok? then
                 g'.pc.Synthesizing? && g'.pieces == g.pieces + [op.pcm]
                 && Flatten(g'.pieces) == Flatten(g.pieces) + op.pcm
               else g'.pc.Recounting?
  {
    WalkSnoc(h, ops, op, true, maxRetries);
    FlattenSnoc(g.pieces, op.pcm);
  }

  lemma ChunkTaken(engine: seq<SynthChunk>, n: nat)
    requires n < |engine|
    ensures engine[..n + 1] == engine[..n] + [engine[n]]
    ensures Samples(engine[..n + 1]) == Samples(engine[..n]) + |engine[n].pcm| / 2
    ensures Pcms(engine[..n + 1]) == Pcms(engine[..n]) + [engine[n].pcm]
  {
    assert Front(engine[..n + 1]) == engine[..n];
  }

  predicate Aligned(rows: seq<AlignRow>, cumulative: nat, cs: seq<SynthChunk>, engineRate: nat) {
    AlignmentOf(rows, cs, engineRate) && cumulative == Samples(cs)
  }

  lemma AlignedNext(
    rows: seq<AlignRow>, cumulative: nat, cs: seq<SynthChunk>, c: SynthChunk, engineRate: nat,
    row: AlignRow, samples: nat
  )
    requires Aligned(rows, cumulative, cs, engineRate) && samples == cumulative + |c.pcm| / 2
    requires row.seqNo == |rows| && row.text == if c.text.Some? then c.text.value else ""
    requires row.startMs == Millis(cumulative, Rate(c, engineRate)) && row.endMs == Millis(samples, Rate(c, engineRate))
    ensures Aligned(rows + [row], samples, cs + [c], engineRate)
  {
    AlignSnoc(rows, cs, c, engineRate, row.startMs, row.endMs);
    assert Front(cs + [c]) == cs;
  }

  lemma AlignSnoc(rows: seq<AlignRow>, cs: seq<SynthChunk>, c: SynthChunk, engineRate: nat, start: nat, end: nat)
    requires AlignmentOf(rows, cs, engineRate)
    requires start == Millis(Samples(cs), Rate(c, engineRate))
    requires end == Millis(Samples(cs) + |c.pcm| / 2, Rate(c, engineRate))
    ensures AlignmentOf(rows + [AlignRow(|rows|, start, end, if c.text.Some? then c.text.value else "")], cs + [c], engineRate)
  {
    var all := cs + [c];
    var rows' := rows + [AlignRow(|rows|, start, end, if c.text.Some? then c.text.value else "")];
    assert all[..|cs|] == cs && all[..|cs| + 1] == all && Front(all) == cs;
    forall i: nat | i < |rows'|
      ensures RowOf(rows', all, engineRate, i)
    {
      if i < |rows| {
        assert RowOf(rows, cs, engineRate, i);
        assert all[..i] == cs[..i] && all[..i + 1] == cs[..i + 1];
      }
    }
  }

  /** The job has everything it needs: voice, mandatory watermark, reference audio and model preset. */
  predicate Prepared(a: Answers) {
    && a.deleted.Ok? && a.voice.Found? && (a.voice.mustWatermark ==> a.voice.keyBound && a.applier)
    && a.reference.Resolved? && a.modelKnown
  }

  /** Nothing a retry could change: no such voice, key, reference or model. */
  predicate Refused(a: Answers) {
    && a.deleted.Ok?
    && (a.voice.NotVisible?
        || (a.voice.Found? && a.voice.mustWatermark && !a.voice.keyBound)
        || (a.voice.Found? && (a.voice.mustWatermark ==> a.applier)
            && (a.reference.Missing? || (a.reference.Resolved? && !a.modelKnown))))
  }

  predicate NoApplier(a: Answers) {
    a.deleted.Ok? && a.voice.Found? && a.voice.mustWatermark && a.voice.keyBound && !a.applier
  }

  /** Every chunk was published and the engine finished. */
  predicate Spoken(a: Answers, engine: seq<SynthChunk>) {
    !a.crashes && forall k :: 0 <= k < |engine| ==> a.publishes(k).Ok?
  }

  predicate Silent(engine: seq<SynthChunk>) {
    Flatten(Pcms(engine)) == []
  }

  predicate Delivers(a: Answers, engine: seq<SynthChunk>) {
    && Prepared(a) && Spoken(a, engine) && a.canArchive && !Silent(engine)
    && a.stored.Ok? && a.uri != "" && a.committed.Ok? && a.finished.Ok?
  }

  /** The job is beyond repair. */
  predicate Hopeless(a: Answers, engine: seq<SynthChunk>) {
    Refused(a) || (Prepared(a) && Spoken(a, engine) && a.canArchive && Silent(engine))
  }

  predicate Recorded(f: Failing) {
    f.sent.Ok? && f.persisted.Ok?
  }

  function ResultOf(a: Answers, engine: seq<SynthChunk>): Raised {
    if Delivers(a, engine) then Returned
    else if Hopeless(a, engine) then if Recorded(a.failing) then PoisonJob else Unexpected
    else if NoApplier(a) || Prepared(a) then TransientFailure
    else Unexpected
  }

  /**
    `process_one_job`. A normal return has published the final after the
    commit; PoisonJob has published and persisted the failure; the other two
    leave the entry for a retry. Each result is decided by the answers alone.
  */
  method ProcessOneJob(engine: seq<SynthChunk>, a: Answers, engineRate: nat, maxRetries: int, ghost h: Handler)
    returns (result: Raised, alignment: seq<AlignRow>, durationMs: nat, ghost ops: seq<Op>, ghost after: Handler)
    requires h.pc.Resetting? && h.pieces == []
    ensures Walk(h, ops, true, maxRetries) == Some(after)
    ensures match result
            case Returned => after.pc == Acking(Delivered)
            case PoisonJob => after.pc == Copying(Poisoned)
            case TransientFailure => after.pc.Recounting?
            case Unexpected => after.pc.Recounting?
    ensures result == Returned <==>
      && a.deleted.Ok? && a.voice.Found? && (a.voice.mustWatermark ==> a.voice.keyBound && a.applier)
      && a.reference.Resolved? && a.modelKnown
      && !a.crashes && (forall k :: 0 <= k < |engine| ==> a.publishes(k).Ok?)
      && a.canArchive && Flatten(Pcms(engine)) != []
      && a.stored.Ok? && a.uri != "" && a.committed.Ok? && a.finished.Ok?
    ensures result == PoisonJob <==>
      && a.deleted.Ok? && a.failing.sent.Ok? && a.failing.persisted.Ok?
      && (a.voice.NotVisible?
          || (a.voice.Found? && a.voice.mustWatermark && !a.voice.keyBound)
          || (a.voice.Found? && (a.voice.mustWatermark ==> a.applier)
              && (a.reference.Missing?
                  || (a.reference.Resolved?
                      && (!a.modelKnown
                          || (!a.crashes && (forall k :: 0 <= k < |engine| ==> a.publishes(k).Ok?)
                              && a.canArchive && Flatten(Pcms(engine)) == []))))))
    ensures result == TransientFailure <==>
      && a.deleted.Ok? && a.voice.Found? && (a.voice.mustWatermark ==> a.voice.keyBound)
      && ((a.voice.mustWatermark && !a.applier)
          || (a.reference.Resolved? && a.modelKnown
              && (a.crashes || (exists k :: 0 <= k < |engine| && !a.publishes(k).Ok?) || !a.canArchive
                  || (Flatten(Pcms(engine)) != []
                      && !(a.stored.Ok? && a.uri != "" && a.committed.Ok? && a.finished.Ok?)))))
    ensures result == ResultOf(a, engine)
    ensures result.Returned? ==>
              && AlignmentOf(alignment, engine, engineRate)
              && durationMs == DurationMs(Flatten(Pcms(engine)), engineRate)
              && after.pieces == Pcms(engine)
  {
    alignment, durationMs := [], 0;
    var found;
    found, ops, after := ResetAndResolve(a, maxRetries, h);
    match found {
      case Some(PoisonJob) =>
        result, ops, after := Poisoning(a.failing, maxRetries, h, ops, after);
        return;
      case Some(r) =>
        return r, alignment, durationMs, ops, after;
      case None =>
    }

    ghost var more: seq<Op>;
    var ok, pcm;
    ok, pcm, alignment, more, after := PublishChunks(engine, a, engineRate, maxRetries, after);
    WalkAppend(h, ops, more, true, maxRetries);
    ops := ops + more;
    if !ok {
      return TransientFailure, alignment, durationMs, ops, after;
    }
    if !a.canArchive {
      WalkSnoc(h, ops, EngineCrash, true, maxRetries);
      ops, after := ops + [EngineCrash], Move(after, EngineCrash, true, maxRetries);
      return TransientFailure, alignment, durationMs, ops, after;
    }
    WalkSnoc(h, ops, EngineEnd, true, maxRetries);
    ops, after := ops + [EngineEnd], Move(after, EngineEnd, true, maxRetries);
    if pcm == [] {
      result, ops, after := Poisoning(a.failing, maxRetries, h, ops, after);
      return;
    }
    durationMs := DurationMs(pcm, engineRate);
    result, ops, after := ArchiveCommitFinish(a, maxRetries, h, ops, after);
  }

  /**
    Steps 1 to 3 of the pipeline: delete the result stream, then resolve what the
    job needs. None goes on to synthesis; PoisonJob has its failure still to record.
  */
  method ResetAndResolve(a: Answers, maxRetries: int, ghost h: Handler)
    returns (stop: Option<Raised>, ghost ops: seq<Op>, ghost after: Handler)
    requires h.pc.Resetting? && h.pieces == []
    ensures Walk(h, ops, true, maxRetries) == Some(after) && after.pieces == []
    ensures stop == if Prepared(a) then None else if Refused(a) then Some(PoisonJob)
                    else if NoApplier(a) then Some(TransientFailure) else Some(Unexpected)
    ensures if stop.None? then after.pc.Synthesizing?
            else if stop.value.PoisonJob? then after.pc.Erring? && after.pc.verdict == Poisoned
            else after.pc.Recounting?
  {
    ghost var reset := Reset(a.deleted);
    after := Move(h, reset, true, maxRetries);
    if a.deleted != Ok {
      WalkOne(h, reset, true, maxRetries);
      return Some(Unexpected), [reset], after;
    }
    stop := Resolving(a);
    ghost var found := if stop.None? then Usable else if stop.value.PoisonJob? then Unusable else Unavailable;
    WalkTwo(h, reset, Resolve(found), true, maxRetries);
    ops, after := [reset, Resolve(found)], Move(after, Resolve(found), true, maxRetries);
  }

  /** The checks between the DEL and the engine, in the source's order. */
  method Resolving(a: Answers) returns (stop: Option<Raised>)
    requires a.deleted.Ok?
    ensures stop == if Prepared(a) then None else if Refused(a) then Some(PoisonJob)
                    else if NoApplier(a) then Some(TransientFailure) else Some(Unexpected)
  {
    if a.voice.LookupRaised? {
      return Some(Unexpected);
    }
    if a.voice.Found? && a.voice.mustWatermark {
      if !a.voice.keyBound {
        return Some(PoisonJob);
      }
      if !a.applier {
        return Some(TransientFailure);
      }
    }
    if a.voice.NotVisible? {
      return Some(PoisonJob);
    }
    if a.reference.Missing? {
      return Some(PoisonJob);
    }
    if a.reference.ResolveRaised? {
      return Some(Unexpected);
    }
    if !a.modelKnown {
      return Some(PoisonJob);
    }
    stop := None;
  }

  /** A poison branch of the pipeline: record the failure, then raise PoisonJob. */
  method Poisoning(failing: Failing, maxRetries: int, ghost h: Handler, ghost before: seq<Op>, ghost now: Handler)
    returns (result: Raised, ghost ops: seq<Op>, ghost after: Handler)
    requires Walk(h, before, true, maxRetries) == Some(now)
    requires now.pc.Erring? && now.pc.verdict == Poisoned
    ensures Walk(h, ops, true, maxRetries) == Some(after)
    ensures result == if failing.sent.Ok? && failing.persisted.Ok? then PoisonJob else Unexpected
    ensures if result.PoisonJob? then after.pc == Copying(Poisoned) else after.pc.Recounting?
  {
    ghost var more: seq<Op>;
    var raised;
    raised, more, after := MarkTerminalFailure(failing, "poison", maxRetries, now);
    WalkAppend(h, before, more, true, maxRetries);
    ops := before + more;
    result := if raised then Unexpected else PoisonJob;
  }

  /** Steps 5 to 7 of the pipeline: archive, commit, and only then the final marker. */
  method ArchiveCommitFinish(a: Answers, maxRetries: int, ghost h: Handler, ghost before: seq<Op>, ghost now: Handler)
    returns (result: Raised, ghost ops: seq<Op>, ghost after: Handler)
    requires Walk(h, before, true, maxRetries) == Some(now) && now.pc.Archiving?
    ensures Walk(h, ops, true, maxRetries) == Some(after)
    ensures after.pieces == now.pieces
    ensures result == if a.stored.Ok? && a.uri != "" && a.committed.Ok? && a.finished.Ok? then Returned else TransientFailure
    ensures if result.Returned? then after.pc == Acking(Delivered) else after.pc.Recounting?
    ensures result == Returned ==> ops == before + [Archive(a.uri, Ok), CommitTx(Ok), SendFinal(Ok)]
  {
    ops, after := before, now;
    WalkSnoc(h, ops, Archive(a.uri, a.stored), true, maxRetries);
    ops, after := ops + [Archive(a.uri, a.stored)], Move(after, Archive(a.uri, a.stored), true, maxRetries);
    if a.stored != Ok || a.uri == "" {
      return TransientFailure, ops, after;
    }
    WalkSnoc(h, ops, CommitTx(a.committed), true, maxRetries);
    ops, after := ops + [CommitTx(a.committed)], Move(after, CommitTx(a.committed), true, maxRetries);
    if a.committed != Ok {
      return TransientFailure, ops, after;
    }
    WalkSnoc(h, ops, SendFinal(a.finished), true, maxRetries);
    ops, after := ops + [SendFinal(a.finished)], Move(after, SendFinal(a.finished), true, maxRetries);
    if a.finished != Ok {
      return TransientFailure, ops, after;
    }
    assert ops == before + [Archive(a.uri, Ok), CommitTx(Ok), SendFinal(Ok)];
    result := Returned;
  }

  // ---------- The consumer ----------

  /** What the consumer's own calls answer while it handles one entry. */
  datatype Handling = Handling(
    attempt: nat,             // the delivery count read at pick-up
    recount: nat,             // and read again after a failure
    failing: Failing,         // recording the failure once retries ran out
    copied: Io,               // the copy to the dead-letter stream
    acked: Io,
    responseError: bool)      // is a failing XACK one that is swallowed?

  /** The acknowledgement lets no exception out. */
  predicate AckReturns(k: Handling) {
    k.acked.Ok? || k.responseError
  }

  /** A failed attempt leaves the entry for a retry, or gives it up in full. */
  predicate Settles(k: Handling, maxRetries: int) {
    k.recount < maxRetries || (Recorded(k.failing) && k.copied.Ok? && AckReturns(k))
  }

  function OutcomeOf(wellFormed: bool, a: Answers, engine: seq<SynthChunk>, k: Handling, maxRetries: int): Outcome {
    if !wellFormed then if k.copied.Ok? && AckReturns(k) then WasPoison else Escaped
    else
      match ResultOf(a, engine)
      case Returned => if AckReturns(k) then Succeeded else Escaped
      case PoisonJob => if AckReturns(k) then WasPoison else Escaped
      case TransientFailure => if Settles(k, maxRetries) then WasTransient else Escaped
      case Unexpected => if Settles(k, maxRetries) then WasUnexpected else Escaped
  }

  /** A dead-letter copy is counted. */
  predicate CountsCopy(wellFormed: bool, a: Answers, engine: seq<SynthChunk>, k: Handling, maxRetries: int) {
    && k.copied.Ok?
    && if !wellFormed then AckReturns(k)
       else ResultOf(a, engine).PoisonJob?
            || (!ResultOf(a, engine).Returned? && k.recount >= maxRetries && Settles(k, maxRetries))
  }

  class WorkerConsumer {
    const maxRetries: int
    var acked: nat
    var poisoned: nat
    var transientFailures: nat
    var unknownFailures: nat
    var claimed: nat
    var dlqed: nat
    var inFlight: nat

    constructor (maxRetries: int)
      ensures this.maxRetries == maxRetries
      ensures acked == poisoned == transientFailures == unknownFailures == claimed == dlqed == inFlight == 0
    {
      this.maxRetries := maxRetries;
      acked, poisoned, transientFailures, unknownFailures, claimed, dlqed, inFlight := 0, 0, 0, 0, 0, 0, 0;
    }

    /** The outcome counters move by exactly one, in the slot the outcome names, and not at all if an exception escaped. */
    twostate predicate CountedAs(o: Outcome)
      reads this
    {
      && acked == old(acked) + (if o == Succeeded then 1 else 0)
      && poisoned == old(poisoned) + (if o == WasPoison then 1 else 0)
      && transientFailures == old(transientFailures) + (if o == WasTransient then 1 else 0)
      && unknownFailures == old(unknownFailures) + (if o == WasUnexpected then 1 else 0)
      && inFlight == old(inFlight)
    }

    /** `_ack`: a ResponseError is swallowed, anything else escapes. */
    method Ack(k: Handling, ghost h: Handler, wellFormed: bool) returns (escaped: bool, ghost op: Op, ghost after: Handler)
      requires h.pc.Acking?
      ensures op == SendAck(k.acked) && after == Move(h, op, wellFormed, maxRetries) && after.pc.Idle?
      ensures escaped <==> !k.acked.Ok? && !k.responseError
    {
      op := SendAck(k.acked);
      after := Move(h, op, wellFormed, maxRetries);
      escaped := k.acked != Ok && !k.responseError;
    }

    /** `_maybe_dlq_and_ack`: give up on the entry once its delivery count reaches the budget. */
    method MaybeDlqAndAck(k: Handling, ghost h: Handler)
      returns (done: bool, escaped: bool, ghost ops: seq<Op>, ghost after: Handler)
      requires h.pc.Recounting?
      ensures Walk(h, ops, true, maxRetries) == Some(after) && after.pc.Idle?
      ensures ops != [] && ops[0] == Recount(k.recount)
      ensures done <==>
        && k.recount >= maxRetries && k.failing.sent.Ok? && k.failing.persisted.Ok? && k.copied.Ok?
        && (k.acked.Ok? || k.responseError)
      ensures escaped <==> k.recount >= maxRetries && !done
      ensures done ==> |ops| == 5 && ops[1].SendError? && ops[1].io.Ok? && ops[2] == PersistFailure(Ok)
                       && ops[3] == CopyToDlq(Ok) && ops[4] == SendAck(k.acked)
      ensures k.recount < maxRetries ==> |ops| == 1
    {
      ops := [Recount(k.recount)];
      WalkSnoc(h, [], ops[0], true, maxRetries);
      assert [] + ops == ops;
      after := Move(h, ops[0], true, maxRetries);
      done, escaped := false, false;
      if k.recount < maxRetries {
        return;
      }
      ghost var more: seq<Op>;
      escaped, more, after := MarkTerminalFailure(k.failing, "max_retries", maxRetries, after);
      WalkAppend(h, ops, more, true, maxRetries);
      ops := ops + more;
      if escaped {
        return;
      }
      escaped, more, after := CopyAndAck(k, h, ops, after);
      ops := ops + more;
      done := !escaped;
    }

    /** The end of giving up: the dead-letter copy, then the acknowledgement. */
    method CopyAndAck(k: Handling, ghost h: Handler, ghost before: seq<Op>, ghost now: Handler)
      returns (escaped: bool, ghost ops: seq<Op>, ghost after: Handler)
      requires Walk(h, before, true, maxRetries) == Some(now) && now.pc.Copying? && !now.pc.verdict.Poisoned?
      ensures Walk(h, before + ops, true, maxRetries) == Some(after) && after.pc.Idle?
      ensures escaped <==> !(k.copied.Ok? && (k.acked.Ok? || k.responseError))
      ensures !escaped ==> ops == [CopyToDlq(Ok), SendAck(k.acked)]
    {
      ops := [CopyToDlq(k.copied)];
      WalkSnoc(h, before, CopyToDlq(k.copied), true, maxRetries);
      after := Move(now, CopyToDlq(k.copied), true, maxRetries);
      if k.copied != Ok {
        escaped := true;
        return;
      }
      ghost var op: Op;
      ghost var acking := after;
      escaped, op, after := Ack(k, acking, true);
      WalkSnoc(h, before + ops, op, true, maxRetries);
      assert before + (ops + [op]) == before + ops + [op];
      ops := ops + [op];
    }

    /**
      `_handle_one`. Whatever the outside world answers, the operations are a
      complete path of a protocol handler from pick-up to return, the answers
      decide the outcome, and the counters record it.
    */
    method HandleOne(entry: nat, ghost delivery: nat, wellFormed: bool, engine: seq<SynthChunk>, a: Answers,
                     k: Handling, engineRate: nat)
      returns (outcome: Outcome, ghost ops: seq<Op>, ghost after: Handler)
      modifies this
      ensures Walk(Fresh(entry, delivery), ops, wellFormed, maxRetries) == Some(after) && after.pc.Idle?
      ensures outcome == OutcomeOf(wellFormed, a, engine, k, maxRetries)
      ensures CountedAs(outcome) && claimed == old(claimed)
      ensures dlqed == old(dlqed) + if CountsCopy(wellFormed, a, engine, k, maxRetries) then 1 else 0
      ensures ops != [] && ops[0] == Count(k.attempt)
      ensures outcome == Succeeded || outcome == WasPoison ==> Last(ops) == SendAck(k.acked)
      ensures outcome == WasTransient || outcome == WasUnexpected ==>
                Last(ops) == if k.recount < maxRetries then Recount(k.recount) else SendAck(k.acked)
    {
      ghost var h := Fresh(entry, delivery);
      WalkOne(h, Count(k.attempt), wellFormed, maxRetries);
      ops, after := [Count(k.attempt)], Move(h, Count(k.attempt), wellFormed, maxRetries);
      if !wellFormed {
        outcome, ops, after := DrainMalformed(k, h, ops, after);
      } else {
        outcome, ops, after := HandleDecoded(engine, a, k, engineRate, h, ops, after);
      }
    }

    /** The handling of a decodable entry: run the pipeline, then the branch its result selects. */
    method HandleDecoded(engine: seq<SynthChunk>, a: Answers, k: Handling, engineRate: nat,
                         ghost h: Handler, ghost before: seq<Op>, ghost now: Handler)
      returns (outcome: Outcome, ghost ops: seq<Op>, ghost after: Handler)
      requires Walk(h, before, true, maxRetries) == Some(now) && now.pc.Resetting? && now.pieces == []
      modifies this
      ensures Walk(h, ops, true, maxRetries) == Some(after) && after.pc.Idle?
      ensures outcome == OutcomeOf(true, a, engine, k, maxRetries)
      ensures CountedAs(outcome) && claimed == old(claimed)
      ensures dlqed == old(dlqed) + if CountsCopy(true, a, engine, k, maxRetries) then 1 else 0
      ensures before <= ops && ops != []
      ensures outcome == Succeeded || outcome == WasPoison ==> Last(ops) == SendAck(k.acked)
      ensures outcome == WasTransient || outcome == WasUnexpected ==>
                Last(ops) == if k.recount < maxRetries then Recount(k.recount) else SendAck(k.acked)
    {
      var result, _, _, more, between := ProcessOneJob(engine, a, engineRate, maxRetries, now);
      WalkAppend(h, before, more, true, maxRetries);
      ops, after := before + more, between;
      if result == PoisonJob {
        outcome, ops, after := FinishPoison(k, h, ops, after);
      } else if result == Returned {
        outcome, ops, after := FinishSuccess(k, h, ops, after);
      } else {
        outcome, ops, after := FinishFailure(result, k, h, ops, after);
      }
    }

    /** The two failure branches: retry or give up. */
    method FinishFailure(result: Raised, k: Handling, ghost h: Handler, ghost before: seq<Op>, ghost now: Handler)
      returns (outcome: Outcome, ghost ops: seq<Op>, ghost after: Handler)
      requires Walk(h, before, true, maxRetries) == Some(now) && now.pc.Recounting?
      requires result.TransientFailure? || result.Unexpected?
      modifies this
      ensures Walk(h, ops, true, maxRetries) == Some(after) && after.pc.Idle?
      ensures outcome == if !Settles(k, maxRetries) then Escaped else if result.TransientFailure? then WasTransient else WasUnexpected
      ensures CountedAs(outcome) && claimed == old(claimed)
      ensures dlqed == old(dlqed) + if k.recount >= maxRetries && Settles(k, maxRetries) then 1 else 0
      ensures before <= ops && ops != []
      ensures outcome != Escaped ==> Last(ops) == if k.recount < maxRetries then Recount(k.recount) else SendAck(k.acked)
    {
      var done, escaped, rest, end := MaybeDlqAndAck(k, now);
      WalkAppend(h, before, rest, true, maxRetries);
      ops, after := before + rest, end;
      assert Last(ops) == Last(rest);
      if escaped {
        return Escaped, ops, after;
      }
      if done {
        dlqed := dlqed + 1;
      }
      if result == TransientFailure {
        outcome := WasTransient;
        transientFailures := transientFailures + 1;
      } else {
        outcome := WasUnexpected;
        unknownFailures := unknownFailures + 1;
      }
    }

    method FinishSuccess(k: Handling, ghost h: Handler, ghost before: seq<Op>, ghost now: Handler)
      returns (outcome: Outcome, ghost ops: seq<Op>, ghost after: Handler)
      requires Walk(h, before, true, maxRetries) == Some(now) && now.pc == Acking(Delivered)
      modifies this
      ensures Walk(h, ops, true, maxRetries) == Some(after) && after.pc.Idle?
      ensures outcome == if k.acked.Ok? || k.responseError then Succeeded else Escaped
      ensures CountedAs(outcome) && claimed == old(claimed) && dlqed == old(dlqed)
      ensures ops == before + [SendAck(k.acked)]
    {
      ghost var op: Op;
      var escaped;
      escaped, op, after := Ack(k, now, true);
      WalkSnoc(h, before, op, true, maxRetries);
      ops := before + [op];
      if escaped {
        return Escaped, ops, after;
      }
      acked := acked + 1;
      outcome := Succeeded;
    }

    /** The poison branch acknowledges even when the dead-letter copy fails. */
    method FinishPoison(k: Handling, ghost h: Handler, ghost before: seq<Op>, ghost now: Handler)
      returns (outcome: Outcome, ghost ops: seq<Op>, ghost after: Handler)
      requires Walk(h, before, true, maxRetries) == Some(now) && now.pc == Copying(Poisoned)
      modifies this
      ensures Walk(h, ops, true, maxRetries) == Some(after) && after.pc.Idle?
      ensures outcome == if k.acked.Ok? || k.responseError then WasPoison else Escaped
      ensures CountedAs(outcome) && claimed == old(claimed)
      ensures dlqed == old(dlqed) + if k.copied.Ok? then 1 else 0
      ensures ops == before + [CopyToDlq(k.copied), SendAck(k.acked)]
    {
      ghost var copy := CopyToDlq(k.copied);
      ghost var acking := Move(now, copy, true, maxRetries);
      if k.copied == Ok {
        dlqed := dlqed + 1;
      }
      ghost var ack: Op;
      var escaped;
      escaped, ack, after := Ack(k, acking, true);
      WalkTwo(now, copy, ack, true, maxRetries);
      WalkAppend(h, before, [copy, ack], true, maxRetries);
      ops := before + [copy, ack];
      if escaped {
        return Escaped, ops, after;
      }
      poisoned := poisoned + 1;
      outcome := WasPoison;
    }

    /** The malformed-payload branch: raw copy first, then the acknowledgement. */
    method DrainMalformed(k: Handling, ghost h: Handler, ghost before: seq<Op>, ghost now: Handler)
      returns (outcome: Outcome, ghost ops: seq<Op>, ghost after: Handler)
      requires Walk(h, before, false, maxRetries) == Some(now) && now.pc == Copying(Malformed)
      modifies this
      ensures Walk(h, ops, false, maxRetries) == Some(after) && after.pc.Idle?
      ensures outcome == if k.copied.Ok? && (k.acked.Ok? || k.responseError) then WasPoison else Escaped
      ensures CountedAs(outcome) && claimed == old(claimed)
      ensures dlqed == old(dlqed) + if outcome == WasPoison then 1 else 0
      ensures before <= ops && ops != []
      ensures outcome == WasPoison ==> ops == before + [CopyToDlq(Ok), SendAck(k.acked)]
    {
      ghost var copy := CopyToDlq(k.copied);
      ghost var acking := Move(now, copy, false, maxRetries);
      if k.copied != Ok {
        WalkSnoc(h, before, copy, false, maxRetries);
        return Escaped, before + [copy], acking;
      }
      ghost var ack: Op;
      var escaped;
      escaped, ack, after := Ack(k, acking, false);
      WalkTwo(now, copy, ack, false, maxRetries);
      WalkAppend(h, before, [copy, ack], false, maxRetries);
      ops := before + [copy, ack];
      if escaped {
        return Escaped, ops, after;
      }
      poisoned, dlqed := poisoned + 1, dlqed + 1;
      outcome := WasPoison;
    }

    /**
      `_tick`: at most one entry per tick, with the in-flight gauge restored
      whatever happens; None pulled is a timeout or a swallowed ResponseError.
    */
    method Tick(pulled: Option<nat>, ghost delivery: nat, wellFormed: bool, engine: seq<SynthChunk>, a: Answers,
                k: Handling, engineRate: nat)
      returns (handled: bool, outcome: Outcome)
      modifies this
      ensures handled == (pulled.Some? && outcome != Escaped)
      ensures outcome == if pulled.Some? then OutcomeOf(wellFormed, a, engine, k, maxRetries) else Escaped
      ensures CountedAs(outcome) && claimed == old(claimed)
      ensures acked + poisoned + transientFailures + unknownFailures
           == old(acked + poisoned + transientFailures + unknownFailures) + if handled then 1 else 0
    {
      outcome := Escaped;
      if pulled.None? {
        return false, outcome;
      }
      inFlight := inFlight + 1;
      var o, ops, after := HandleOne(pulled.value, delivery, wellFormed, engine, a, k, engineRate);
      inFlight := Max(0, inFlight - 1);
      outcome := o;
      handled := outcome != Escaped;
    }

    /**
      `_xautoclaim_sweep`: at most one stale entry is claimed, counted and handled.
      A ResponseError, like an empty answer, is None.
    */
    method XautoclaimSweep(answer: Option<nat>, ghost delivery: nat, wellFormed: bool, engine: seq<SynthChunk>,
                           a: Answers, k: Handling, engineRate: nat)
      returns (outcome: Option<Outcome>, ghost ops: seq<Op>)
      modifies this
      ensures outcome == if answer.Some? then Some(OutcomeOf(wellFormed, a, engine, k, maxRetries)) else None
      ensures claimed == old(claimed) + if answer.Some? then 1 else 0
      ensures inFlight == old(inFlight)
      ensures outcome.None? ==> ops == [] && CountedAs(Escaped) && dlqed == old(dlqed)
      ensures outcome.Some? ==>
                && CountedAs(outcome.value)
                && exists after :: Walk(Fresh(answer.value, delivery), ops, wellFormed, maxRetries) == Some(after) && after.pc.Idle?
    {
      if answer.None? {
        return None, [];
      }
      claimed := claimed + 1;
      var o, done, after := HandleOne(answer.value, delivery, wellFormed, engine, a, k, engineRate);
      outcome, ops := Some(o), done;
    }
  }

  /**
    What the answers mean for one entry: it counts as a success exactly when its
    payload decodes, its audio was archived, committed and finished, and the
    acknowledgement let no exception out.
  */
  lemma SucceedsIff(wellFormed: bool, a: Answers, engine: seq<SynthChunk>, k: Handling, maxRetries: int)
    ensures OutcomeOf(wellFormed, a, engine, k, maxRetries) == Succeeded <==>
      && wellFormed && a.deleted.Ok? && a.voice.Found? && (a.voice.mustWatermark ==> a.voice.keyBound && a.applier)
      && a.reference.Resolved? && a.modelKnown
      && !a.crashes && (forall k :: 0 <= k < |engine| ==> a.publishes(k).Ok?)
      && a.canArchive && Flatten(Pcms(engine)) != []
      && a.stored.Ok? && a.uri != "" && a.committed.Ok? && a.finished.Ok?
      && (k.acked.Ok? || k.responseError)
  {
  }

  /** The other outcomes, by what the pipeline raised; whatever is not an outcome escaped. */
  lemma FailsIff(wellFormed: bool, a: Answers, engine: seq<SynthChunk>, k: Handling, maxRetries: int)
    ensures var o, acks := OutcomeOf(wellFormed, a, engine, k, maxRetries), k.acked.Ok? || k.responseError;
            var raised := ResultOf(a, engine);
            var retried := k.recount < maxRetries;
            var gaveUp := k.recount >= maxRetries && k.failing.sent.Ok? && k.failing.persisted.Ok? && k.copied.Ok? && acks;
            && (o == WasPoison <==> acks && if wellFormed then raised == PoisonJob else k.copied.Ok?)
            && (o == WasTransient <==> wellFormed && raised == TransientFailure && (retried || gaveUp))
            && (o == WasUnexpected <==> wellFormed && raised == Unexpected && (retried || gaveUp))
            && (CountsCopy(wellFormed, a, engine, k, maxRetries) <==>
                  || (!wellFormed && k.copied.Ok? && acks)
                  || (wellFormed && raised == PoisonJob && k.copied.Ok?)
                  || (wellFormed && (raised == TransientFailure || raised == Unexpected) && gaveUp))
  {
  }
}
