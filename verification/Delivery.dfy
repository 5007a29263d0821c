/**
  The job delivery protocol for one request, as a step system.

  Any number of job entries, workers and attempts interleave freely. Every
  Redis or database operation may raise, before or after taking effect; a
  worker that dies or stalls is a handler that takes no further step. The
  result stream is kept as its whole publication history together with the
  position `cut` up to which it has been deleted, so that entry ids increase
  across deletions.
*/
module Delivery {
  import opened Prelude
  import opened ResultStream

  /** Ok: took effect and returned. Lost: raised, no effect. Late: took effect, then raised. */
  datatype Io = Ok | Lost | Late

  predicate Took(io: Io) {
    !io.Lost?
  }

  /** Outcome of resolving voice, watermark key, reference audio and model preset. */
  datatype Resolution = Usable | Unusable | Unavailable

  /** Why an entry is about to be acknowledged. */
  datatype Verdict = Delivered | Poisoned | Exhausted(count: int) | Malformed

  // ---------- One worker handling one delivery ----------

  datatype Pc =
    | Counting
    | Resetting
    | Resolving
    | Synthesizing
    | Archiving
    | Committing(uri: string)
    | Finalizing
    | Recounting
    | Erring(verdict: Verdict, errSeq: nat)
    | Persisting(verdict: Verdict)
    | Copying(verdict: Verdict)
    | Acking(verdict: Verdict)
    | Idle

  /**
    `delivery` is the delivery number Redis assigned when this handler took the
    entry; `attempt` is the epoch the handler read back. `mark` is where the
    stream was cut by this handler's own DEL; `pieces` and `spots` are the
    chunks it has published and buffered, and where they were published.
  */
  datatype Handler = Handler(
    entry: nat,
    delivery: nat,
    pc: Pc,
    attempt: int,
    mark: nat,
    pieces: seq<Bytes>,
    spots: seq<nat>)

  datatype Op =
    | Count(n: nat)
    | Reset(io: Io)
    | Resolve(found: Resolution)
    | Emit(pcm: Bytes, text: Option<string>, io: Io)
    | EngineEnd
    | EngineCrash
    | Archive(uri: string, io: Io)
    | CommitTx(io: Io)
    | SendFinal(io: Io)
    | Recount(n: nat)
    | SendError(message: string, io: Io)
    | PersistFailure(io: Io)
    | CopyToDlq(io: Io)
    | SendAck(io: Io)

  /** The operation is the next one at the handler's program point. */
  predicate Fits(h: Handler, op: Op) {
    match op
    case Count(_) => h.pc.Counting?
    case Reset(_) => h.pc.Resetting?
    case Resolve(_) => h.pc.Resolving?
    case Emit(_, _, _) => h.pc.Synthesizing?
    case EngineEnd => h.pc.Synthesizing?
    case EngineCrash => h.pc.Synthesizing?
    case Archive(_, _) => h.pc.Archiving?
    case CommitTx(_) => h.pc.Committing?
    case SendFinal(_) => h.pc.Finalizing?
    case Recount(_) => h.pc.Recounting?
    case SendError(message, _) => h.pc.Erring? && message != ""
    case PersistFailure(_) => h.pc.Persisting?
    case CopyToDlq(_) => h.pc.Copying?
    case SendAck(_) => h.pc.Acking?
  }

  /**
    Where an exception raised while recording a terminal failure leads: out of
    the pipeline into the unknown-exception branch when the pipeline was
    recording a poison job, out of the handler altogether otherwise.
  */
  function Broken(v: Verdict): Pc {
    if v.Poisoned? then Recounting else Idle
  }

  /** The handler after its operation. `here` is the length of the publication history before it. */
  function Advance(h: Handler, op: Op, wellFormed: bool, maxRetries: int, here: nat): Handler
    requires Fits(h, op)
  {
    match op
    case Count(n) =>
      if wellFormed then h.(attempt := n, pc := Resetting) else h.(attempt := n, pc := Copying(Malformed))
    case Reset(io) => if io.Ok? then h.(mark := here, pc := Resolving) else h.(pc := Recounting)
    case Resolve(found) =>
      (match found
       case Usable => h.(pc := Synthesizing)
       case Unusable => h.(pc := Erring(Poisoned, 0))
       case Unavailable => h.(pc := Recounting))
    case Emit(pcm, _, io) =>
      if io.Ok? then h.(pieces := h.pieces + [pcm], spots := h.spots + [here]) else h.(pc := Recounting)
    case EngineEnd =>
      if Flatten(h.pieces) == [] then h.(pc := Erring(Poisoned, |h.pieces|)) else h.(pc := Archiving)
    case EngineCrash => h.(pc := Recounting)
    case Archive(uri, io) => if io.Ok? && uri != "" then h.(pc := Committing(uri)) else h.(pc := Recounting)
    case CommitTx(io) => if io.Ok? then h.(pc := Finalizing) else h.(pc := Recounting)
    case SendFinal(io) => if io.Ok? then h.(pc := Acking(Delivered)) else h.(pc := Recounting)
    case Recount(n) => if n < maxRetries then h.(pc := Idle) else h.(pc := Erring(Exhausted(n), 0))
    case SendError(_, io) => h.(pc := if io.Ok? then Persisting(h.pc.verdict) else Broken(h.pc.verdict))
    case PersistFailure(io) => h.(pc := if io.Ok? then Copying(h.pc.verdict) else Broken(h.pc.verdict))
    case CopyToDlq(io) =>
      // A poison job is acknowledged even when its forensic copy could not be written.
      h.(pc := if io.Ok? || h.pc.verdict.Poisoned? then Acking(h.pc.verdict) else Idle)
    case SendAck(_) => h.(pc := Idle)
  }

  // ---------- Shared state ----------

  datatype Row = Row(status: Status, uri: Option<string>, expired: bool)
  datatype Usage = Usage(who: nat, ok: bool)
  datatype Entry = Entry(who: nat, chunk: TtsResult)

  /** History of durable effects, in the order they happened. */
  datatype Event =
    | Archived(who: nat, pcm: Bytes)
    | Committed(who: nat, uri: string, row: Option<Row>)
    | FinalSent(who: nat, at: nat)
    | ErrorSent(who: nat)
    | FailPersisted(who: nat)
    | Copied(who: nat)
    | Acked(who: nat, entry: nat, verdict: Verdict)

  datatype World = World(
    maxRetries: int,
    jobs: seq<bool>,          // one flag per job entry: does its payload decode?
    cursor: nat,              // entries below it have been delivered at least once
    pel: map<nat, nat>,       // pending entries and their delivery counts
    handlers: seq<Handler>,
    usage: seq<Usage>,        // usage rows carrying this request id
    row: Option<Row>,         // the idempotency row
    published: seq<Entry>,    // everything ever added to the result stream
    cut: nat,                 // published[cut..] is the stream's present content
    pos: nat,                 // the reader's last id
    got: seq<nat>,            // positions the reader has fetched
    readerDone: bool,
    log: seq<Event>)

  datatype Act =
    | Submit(wellFormed: bool)
    | Fetch(entry: nat)
    | Work(h: nat, op: Op)
    | Reserve
    | Expire
    | RemoveRow
    | Poll(n: nat)
    | Quit
    | Vanish

  predicate Init(w: World) {
    && w.jobs == [] && w.cursor == 0 && w.pel == map[] && w.handlers == [] && w.usage == []
    && w.row.None? && w.published == [] && w.cut == 0 && w.pos == 0 && w.got == []
    && !w.readerDone && w.log == []
  }

  /** A delivery count read returns the count, or 1 when the read fails or the entry is no longer pending. */
  predicate CountReadable(w: World, entry: nat, n: nat) {
    n == 1 || (entry in w.pel && n == w.pel[entry])
  }

  predicate OpEnabled(w: World, i: nat, op: Op)
    requires i < |w.handlers|
  {
    && Fits(w.handlers[i], op)
    && (op.Count? || op.Recount? ==> CountReadable(w, w.handlers[i].entry, op.n))
    // The unique constraint on the usage table's request id.
    && (op.CommitTx? && Took(op.io) ==> w.usage == [])
  }

  predicate Enabled(w: World, a: Act) {
    match a
    case Submit(_) => true
    case Fetch(e) => e < |w.jobs| && (e == w.cursor || e in w.pel)
    case Work(i, op) => i < |w.handlers| && w.handlers[i].entry < |w.jobs| && OpEnabled(w, i, op)
    case Reserve => w.row.None?
    case Expire => w.row.Some?
    case RemoveRow => w.row.Some?
    case Poll(n) => !w.readerDone && 1 <= n <= 64 && Max(w.cut, w.pos) + n <= |w.published|
    case Quit => true
    case Vanish => true
  }

  predicate Visible(row: Option<Row>) {
    row.Some? && !row.value.expired
  }

  function CompletedRow(row: Option<Row>, uri: string): Option<Row> {
    if Visible(row) then Some(row.value.(status := Complete, uri := Some(uri))) else row
  }

  function FailedRow(row: Option<Row>): Option<Row> {
    if Visible(row) then Some(row.value.(status := Failed)) else row
  }

  function AudioChunk(h: Handler, pcm: Bytes, text: Option<string>): TtsResult {
    TtsResult("", |h.pieces|, pcm, text, false, None, h.attempt)
  }

  function FinalChunk(h: Handler): TtsResult {
    TtsResult("", |h.pieces|, [], None, true, None, h.attempt)
  }

  /** A terminal error is stamped with the handler's epoch, or with the recounted one when retries ran out. */
  function ErrorChunk(h: Handler, message: string): TtsResult
    requires h.pc.Erring?
  {
    var epoch := if h.pc.verdict.Exhausted? then h.pc.verdict.count else h.attempt;
    TtsResult("", h.pc.errSeq, [], None, false, Some(message), epoch)
  }

  function Publish(w: World, i: nat, c: TtsResult): World {
    w.(published := w.published + [Entry(i, c)])
  }

  function Record(w: World, e: Event): World {
    w.(log := w.log + [e])
  }

  /** What an operation does to the shared state, the handler itself aside. */
  function Effect(w: World, i: nat, op: Op): World
    requires i < |w.handlers| && Fits(w.handlers[i], op)
  {
    var h := w.handlers[i];
    match op
    case Reset(io) => if Took(io) then w.(cut := |w.published|) else w
    case Emit(pcm, text, io) => if Took(io) then Publish(w, i, AudioChunk(h, pcm, text)) else w
    case Archive(_, io) => if Took(io) then Record(w, Archived(i, Flatten(h.pieces))) else w
    case CommitTx(io) =>
      if Took(io) then
        var row := CompletedRow(w.row, h.pc.uri);
        Record(w.(usage := w.usage + [Usage(i, true)], row := row), Committed(i, h.pc.uri, row))
      else w
    case SendFinal(io) =>
      if Took(io) then Record(Publish(w, i, FinalChunk(h)), FinalSent(i, |w.published|)) else w
    case SendError(message, io) =>
      if Took(io) then Record(Publish(w, i, ErrorChunk(h, message)), ErrorSent(i)) else w
    case PersistFailure(io) =>
      if Took(io) then
        var usage := if w.usage == [] then [Usage(i, false)] else w.usage;
        Record(w.(usage := usage, row := FailedRow(w.row)), FailPersisted(i))
      else w
    case CopyToDlq(io) => if Took(io) then Record(w, Copied(i)) else w
    case SendAck(io) =>
      if Took(io) then Record(w.(pel := w.pel - {h.entry}), Acked(i, h.entry, h.pc.verdict)) else w
    case _ => w
  }

  function WorkStep(w: World, i: nat, op: Op): World
    requires Enabled(w, Work(i, op))
  {
    var h := w.handlers[i];
    Effect(w, i, op).(handlers := w.handlers[i := Advance(h, op, w.jobs[h.entry], w.maxRetries, |w.published|)])
  }

  function FetchStep(w: World, e: nat): World {
    var n := if e in w.pel then w.pel[e] + 1 else 1;
    w.(cursor := if e == w.cursor then e + 1 else w.cursor,
    pel := w.pel[e := n],
    handlers := w.handlers + [Handler(e, n, Counting, 0, 0, [], [])])
  }

  function Apply(w: World, a: Act): World
    requires Enabled(w, a)
  {
    match a
    case Submit(ok) => w.(jobs := w.jobs + [ok])
    case Fetch(e) => FetchStep(w, e)
    case Work(i, op) => WorkStep(w, i, op)
    case Reserve => w.(row := Some(Row(Processing, None, false)))
    case Expire => w.(row := Some(w.row.value.(expired := true)))
    case RemoveRow => w.(row := None)
    case Poll(n) =>
      var from := Max(w.cut, w.pos);
      w.(pos := from + n, got := w.got + seq(n, k => from + k))
    case Quit => w.(cut := |w.published|, readerDone := true)
    case Vanish => w.(cut := |w.published|)
  }

  // ---------- Runs ----------

  ghost predicate Steps(ws: seq<World>, acts: seq<Act>) {
    && |ws| == |acts| + 1
    && forall t :: 0 <= t < |acts| ==> Enabled(ws[t], acts[t]) && ws[t + 1] == Apply(ws[t], acts[t])
  }

  ghost predicate IsRun(ws: seq<World>, acts: seq<Act>) {
    Steps(ws, acts) && Init(ws[0])
  }

  /** Entries the reader has received, in order. */
  function Fetched(w: World): seq<TtsResult>
    requires forall t :: 0 <= t < |w.got| ==> w.got[t] < |w.published|
  {
    seq(|w.got|, t requires 0 <= t < |w.got| => w.published[w.got[t]].chunk)
  }
}
