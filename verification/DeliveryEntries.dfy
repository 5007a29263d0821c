/** What each operation puts on the result stream, and when a terminal error reaches the client. */
module DeliveryEntries {
  import opened Prelude
  import opened ResultStream
  import opened Delivery
  import opened DeliverySafety
  import opened DeliveryAudio

  // ---------- Where epoch numbers come from ----------

  /** Handler i performed op at some earlier point of the run. */
  ghost predicate Did(acts: seq<Act>, t: nat, i: nat, op: Op) {
    exists y :: 0 <= y < t && y < |acts| && acts[y] == Work(i, op)
  }

  lemma DidBefore(acts: seq<Act>, t: nat, u: nat, i: nat, op: Op)
    requires Did(acts, t, i, op) && t <= u
    ensures Did(acts, u, i, op)
  {
  }

  ghost predicate Recounted(acts: seq<Act>, t: nat, i: nat) {
    exists n: nat :: Did(acts, t, i, Recount(n))
  }

  predicate HasVerdict(pc: Pc) {
    pc.Erring? || pc.Persisting? || pc.Copying? || pc.Acking?
  }

  predicate GaveUp(pc: Pc) {
    HasVerdict(pc) && pc.verdict.Exhausted?
  }

  /** The handler's epoch is the count it read, and a verdict of exhaustion carries the count it read again. */
  ghost predicate EpochRead(acts: seq<Act>, t: nat, i: nat, h: Handler) {
    && (!h.pc.Counting? ==> h.attempt >= 0 && Did(acts, t, i, Count(h.attempt)))
    && (GaveUp(h.pc) ==> h.pc.verdict.count >= 0 && Did(acts, t, i, Recount(h.pc.verdict.count)))
    && (Recounted(acts, t, i) ==> h.pc.Idle? || GaveUp(h.pc))
  }

  // What one operation does to the epoch and the verdict.
  lemma EpochMove(w: World, i: nat, op: Op)
    requires Enabled(w, Work(i, op))
    ensures var h, h' := w.handlers[i], WorkStep(w, i, op).handlers[i];
            && (if op.Count? then h'.attempt == op.n else h'.attempt == h.attempt && !h.pc.Counting?)
            && (GaveUp(h'.pc) ==>
                  if op.Recount? then h'.pc.verdict.count == op.n else GaveUp(h.pc) && h'.pc.verdict == h.pc.verdict)
            && !h.pc.Idle?
            && (op.Recount? || GaveUp(h.pc) ==> h'.pc.Idle? || GaveUp(h'.pc))
            && (op.Recount? ==> !GaveUp(h.pc))
  {
  }

  lemma DidNow(acts: seq<Act>, t: nat, i: nat, op: Op)
    requires t < |acts| && acts[t] == Work(i, op)
    ensures Did(acts, t + 1, i, op)
  {
  }

  // After one more act, what handler i did is what it did before, plus this act.
  lemma RecountedStep(acts: seq<Act>, t: nat, i: nat)
    requires t < |acts|
    ensures Recounted(acts, t + 1, i) ==> Recounted(acts, t, i) || (acts[t].Work? && acts[t].h == i && acts[t].op.Recount?)
  {
    if Recounted(acts, t + 1, i) {
      var n: nat :| Did(acts, t + 1, i, Recount(n));
      var y :| 0 <= y < t + 1 && y < |acts| && acts[y] == Work(i, Recount(n));
      if y < t {
        assert Did(acts, t, i, Recount(n));
      }
    }
  }

  lemma EpochOwnStep(w: World, acts: seq<Act>, t: nat, i: nat)
    requires t < |acts| && acts[t].Work? && acts[t].h == i && Enabled(w, acts[t])
    requires EpochRead(acts, t, i, w.handlers[i])
    ensures EpochRead(acts, t + 1, i, WorkStep(w, i, acts[t].op).handlers[i])
  {
    var h, op := w.handlers[i], acts[t].op;
    EpochMove(w, i, op);
    DidNow(acts, t, i, op);
    RecountedStep(acts, t, i);
    if !h.pc.Counting? {
      DidBefore(acts, t, t + 1, i, Count(h.attempt));
    }
    if GaveUp(h.pc) {
      DidBefore(acts, t, t + 1, i, Recount(h.pc.verdict.count));
    }
  }

  lemma EpochStays(acts: seq<Act>, t: nat, i: nat, h: Handler)
    requires t < |acts| && !(acts[t].Work? && acts[t].h == i) && EpochRead(acts, t, i, h)
    ensures EpochRead(acts, t + 1, i, h)
  {
    RecountedStep(acts, t, i);
    if !h.pc.Counting? {
      DidBefore(acts, t, t + 1, i, Count(h.attempt));
    }
    if GaveUp(h.pc) {
      DidBefore(acts, t, t + 1, i, Recount(h.pc.verdict.count));
    }
  }

  lemma {:induction false} UnbornDidNothing(ws: seq<World>, acts: seq<Act>, t: nat, i: nat, op: Op)
    requires IsRun(ws, acts) && t < |ws| && |ws[t].handlers| <= i
    ensures !Did(acts, t, i, op)
  {
    if t > 0 {
      HandlersGrow(ws[t - 1], acts[t - 1]);
      UnbornDidNothing(ws, acts, t - 1, i, op);
    }
  }

  lemma HandlersGrow(w: World, a: Act)
    requires Enabled(w, a)
    ensures |Apply(w, a).handlers| == |w.handlers| + if a.Fetch? then 1 else 0
    ensures forall j :: 0 <= j < |w.handlers| && !(a.Work? && a.h == j) ==> Apply(w, a).handlers[j] == w.handlers[j]
    ensures a.Fetch? ==> Apply(w, a).handlers[|w.handlers|].pc.Counting?
  {
    if a.Work? {
      WorkShape(w, a.h, a.op);
    }
  }

  lemma {:induction false} EpochsAlways(ws: seq<World>, acts: seq<Act>, t: nat, i: nat)
    requires IsRun(ws, acts) && t < |ws| && i < |ws[t].handlers|
    ensures EpochRead(acts, t, i, ws[t].handlers[i])
  {
    if t > 0 {
      var w, a := ws[t - 1], acts[t - 1];
      HandlersGrow(w, a);
      if i < |w.handlers| {
        EpochsAlways(ws, acts, t - 1, i);
        if a.Work? && a.h == i {
          EpochOwnStep(w, acts, t - 1, i);
        } else {
          EpochStays(acts, t - 1, i, w.handlers[i]);
        }
      } else {
        BornFresh(ws, acts, t, i);
      }
    }
  }

  lemma BornFresh(ws: seq<World>, acts: seq<Act>, t: nat, i: nat)
    requires IsRun(ws, acts) && 0 < t < |ws| && |ws[t - 1].handlers| <= i < |ws[t].handlers|
    ensures EpochRead(acts, t, i, ws[t].handlers[i])
  {
    HandlersGrow(ws[t - 1], acts[t - 1]);
    RecountedStep(acts, t - 1, i);
    if Recounted(acts, t, i) {
      var n: nat :| Did(acts, t - 1, i, Recount(n));
      UnbornDidNothing(ws, acts, t - 1, i, Recount(n));
    }
  }

  // ---------- Entries stay where they were put ----------

  lemma {:induction false} EntriesStay(ws: seq<World>, acts: seq<Act>, t: nat, u: nat)
    requires IsRun(ws, acts) && t <= u < |ws|
    ensures ws[t].published <= ws[u].published
    decreases u
  {
    if t < u {
      EntriesStay(ws, acts, t, u - 1);
      StepAppends(ws[u - 1], acts[u - 1]);
    }
  }

  lemma StepAppends(w: World, a: Act)
    requires Enabled(w, a)
    ensures w.published <= Apply(w, a).published
    ensures Apply(w, a).published != w.published ==> a.Work? && (a.op.Emit? || a.op.SendFinal? || a.op.SendError?)
  {
  }

  /** The operation publishes, and it took effect. */
  predicate Publishes(a: Act) {
    || (a.Work? && a.op.Emit? && Took(a.op.io)) || (a.Work? && a.op.SendFinal? && Took(a.op.io))
    || (a.Work? && a.op.SendError? && Took(a.op.io))
  }

  lemma PublishStep(w: World, a: Act)
    requires Enabled(w, a) && Publishes(a)
    ensures |Apply(w, a).published| == |w.published| + 1
    ensures var h, e := w.handlers[a.h], Last(Apply(w, a).published);
            && e.who == a.h
            && match a.op
               case Emit(pcm, text, _) =>
                 && e.chunk.pcm == pcm && e.chunk.sentence == text && e.chunk.error == None && !e.chunk.final
                 && e.chunk.seqNo == |h.pieces| && e.chunk.attempt == h.attempt
               case SendFinal(_) =>
                 && e.chunk.pcm == [] && e.chunk.sentence == None && e.chunk.error == None && e.chunk.final
                 && e.chunk.seqNo == |h.pieces| && e.chunk.attempt == h.attempt
               case SendError(message, _) =>
                 && message != ""
                 && e.chunk.pcm == [] && e.chunk.sentence == None && e.chunk.error == Some(message) && !e.chunk.final
                 && e.chunk.attempt == if h.pc.verdict.Exhausted? then h.pc.verdict.count else h.attempt
  {
  }

  /** Audio of handler i, under the delivery count it read. */
  ghost predicate IsAudio(acts: seq<Act>, t: nat, e: Entry, i: nat, pcm: Bytes, text: Option<string>) {
    && e.who == i && !e.chunk.final && e.chunk.error == None && e.chunk.pcm == pcm && e.chunk.sentence == text
    && e.chunk.attempt >= 0 && Did(acts, t, i, Count(e.chunk.attempt))
  }

  /** The final marker of handler i, without audio, under the delivery count it read. */
  ghost predicate IsFinal(acts: seq<Act>, t: nat, e: Entry, i: nat) {
    && e.who == i && e.chunk.final && e.chunk.error == None && e.chunk.pcm == [] && e.chunk.sentence == None
    && e.chunk.attempt >= 0 && Did(acts, t, i, Count(e.chunk.attempt))
  }

  /** A terminal error of handler i with this message, under the count it read last: again, if it ever read again. */
  ghost predicate IsFailure(acts: seq<Act>, t: nat, e: Entry, i: nat, message: string) {
    && e.who == i && !e.chunk.final && e.chunk.error == Some(message) && message != "" && e.chunk.pcm == []
    && e.chunk.sentence == None && e.chunk.attempt >= 0
    && if Recounted(acts, t, i) then Did(acts, t, i, Recount(e.chunk.attempt)) else Did(acts, t, i, Count(e.chunk.attempt))
  }

  /**
    In every run, what a publishing operation put on the stream, and keeps there:
    its own payload under the epoch the handler read. An error is stamped with the
    recounted delivery count when retries ran out.
  */
  lemma WhatIsPublished(ws: seq<World>, acts: seq<Act>, x: nat, u: nat)
    requires IsRun(ws, acts) && x < u < |ws| && Publishes(acts[x])
    ensures |ws[x].published| < |ws[u].published| && acts[x].h < |ws[x].handlers|
    ensures var e, i := ws[u].published[|ws[x].published|], acts[x].h;
            match acts[x].op
            case Emit(pcm, text, _) => IsAudio(acts, x, e, i, pcm, text) && e.chunk.seqNo == |ws[x].handlers[i].pieces|
            case SendFinal(_) => IsFinal(acts, x, e, i) && e.chunk.seqNo == |ws[x].handlers[i].pieces|
            case SendError(message, _) => IsFailure(acts, x, e, i, message)
  {
    var i := acts[x].h;
    assert Enabled(ws[x], acts[x]);
    PublishStep(ws[x], acts[x]);
    EntriesStay(ws, acts, x + 1, u);
    EpochsAlways(ws, acts, x, i);
    assert ws[u].published[|ws[x].published|] == Last(ws[x + 1].published);
    PublisherPoint(ws[x], i, acts[x].op);
    PublisherVerdict(ws, acts, x);
  }

  lemma PublisherPoint(w: World, i: nat, op: Op)
    requires Enabled(w, Work(i, op)) && Publishes(Work(i, op))
    ensures var pc := w.handlers[i].pc;
            && !pc.Counting? && !pc.Idle? && (op.SendError? <==> pc.Erring?) && (!op.SendError? ==> !HasVerdict(pc))
  {
  }

  lemma PublisherVerdict(ws: seq<World>, acts: seq<Act>, x: nat)
    requires IsRun(ws, acts) && x < |acts| && Publishes(acts[x])
    ensures var i := acts[x].h;
            i < |ws[x].handlers| && (Recounted(acts, x, i) ==> acts[x].op.SendError? && GaveUp(ws[x].handlers[i].pc))
  {
    assert Enabled(ws[x], acts[x]);
    EpochsAlways(ws, acts, x, acts[x].h);
    PublisherPoint(ws[x], acts[x].h, acts[x].op);
  }

  // ---------- When a terminal error reaches the client ----------

  /**
    A published error the reader has fetched ends the drain, with its message,
    exactly when no larger epoch and no believed terminal entry was fetched before it.
  */
  lemma ErrorReachesClientIff(ws: seq<World>, acts: seq<Act>, x: nat, u: nat, t: nat)
    requires IsRun(ws, acts) && x < u < |ws| && Publishes(acts[x]) && acts[x].op.SendError?
    requires Fetches(ws[u]) && t < |ws[u].got| && ws[u].got[t] == |ws[x].published|
    ensures var es := Fetched(ws[u]);
            && (StopsAt(es, t) <==> forall j :: 0 <= j < t ==> es[j].attempt <= es[t].attempt && !Ends(es, j))
            && (forall r :: DrainedAt(es, t, r) ==> r.error == Some(acts[x].op.message))
  {
    WhatIsPublished(ws, acts, x, u);
    var es := Fetched(ws[u]);
    assert es[t] == ws[u].published[|ws[x].published|].chunk;
    StopsIff(es, t);
  }

  lemma StopsIff(es: seq<TtsResult>, t: nat)
    requires t < |es| && Terminal(es[t]) && es[t].attempt >= 0
    ensures StopsAt(es, t) <==> forall j :: 0 <= j < t ==> es[j].attempt <= es[t].attempt && !Ends(es, j)
  {
    forall j: nat | j < t
      ensures Ends(es[..t], j) == Ends(es, j)
    {
      PrefixDetermines(es, t, j);
    }
  }
}
