/** When a terminal failure can still overwrite the status of a request that has been committed. */
module DeliveryOverwrites {
  import opened Prelude
  import opened ResultStream
  import opened Delivery
  import opened DeliverySafety

  /** No new job is queued, and the row neither expires nor is removed. */
  predicate Settling(a: Act) {
    !a.Submit? && !a.Expire? && !a.RemoveRow?
  }

  ghost predicate OverwriteCanFollow(w: World) {
    exists ws, acts ::
      && Steps(ws, acts) && ws[0] == w && (forall x :: 0 <= x < |acts| ==> Settling(acts[x]))
      && Last(ws).row.Some? && Last(ws).row.value.status == Failed
  }

  /** A recount of this entry can reach the retry budget now. */
  predicate CanRunOut(w: World, entry: nat) {
    w.maxRetries <= 1 || (entry in w.pel && w.pel[entry] >= w.maxRetries)
  }

  /** The handler has not returned and can still come to persist a failure. */
  predicate CanPersist(w: World, h: Handler) {
    h.entry < |w.jobs| && w.jobs[h.entry] &&
    match h.pc
    case Counting => true
    case Resetting => true
    case Resolving => true
    case Erring(_, _) => true
    case Persisting(_) => true
    case Synthesizing => Flatten(h.pieces) == [] || CanRunOut(w, h.entry)
    case Archiving => CanRunOut(w, h.entry)
    case Committing(_) => CanRunOut(w, h.entry)
    case Finalizing => CanRunOut(w, h.entry)
    case Recounting => CanRunOut(w, h.entry)
    case _ => false
  }

  /** A decodable entry that is pending, or has not been delivered yet. */
  predicate CanBeDelivered(w: World, e: nat) {
    e < |w.jobs| && w.jobs[e] && (e in w.pel || w.cursor <= e)
  }

  ghost predicate Threatened(w: World) {
    || (exists i: nat :: i < |w.handlers| && CanPersist(w, w.handlers[i]))
    || (exists e: nat :: CanBeDelivered(w, e))
  }

  // ---------- No threat, no overwrite ----------

  /** Past the payload check a handler works on a decodable entry, unless it is draining a malformed one. */
  ghost predicate Decoded(w: World) {
    forall i :: 0 <= i < |w.handlers| ==> w.handlers[i].entry < |w.jobs| && DecodedAt(w, w.handlers[i])
  }

  predicate DecodedAt(w: World, h: Handler)
    requires h.entry < |w.jobs|
  {
    || w.jobs[h.entry] || h.pc.Counting? || h.pc.Idle?
    || ((h.pc.Copying? || h.pc.Acking?) && h.pc.verdict.Malformed?)
  }

  lemma StepKeepsDecoded(w: World, a: Act)
    requires Decoded(w) && Enabled(w, a)
    ensures Decoded(Apply(w, a))
  {
    var w' := Apply(w, a);
    assert w.jobs <= w'.jobs;
    forall j: nat | j < |w'.handlers|
      ensures w'.handlers[j].entry < |w'.jobs| && DecodedAt(w', w'.handlers[j])
    {
      if j < |w.handlers| {
        assert DecodedAt(w, w.handlers[j]);
      }
    }
  }

  lemma {:induction false} DecodedAlways(ws: seq<World>, acts: seq<Act>, t: nat)
    requires IsRun(ws, acts) && t < |ws|
    ensures Decoded(ws[t])
  {
    if t > 0 {
      DecodedAlways(ws, acts, t - 1);
      StepKeepsDecoded(ws[t - 1], acts[t - 1]);
    }
  }

  /** A handler that cannot come to persist a failure still cannot after its own step. */
  lemma OwnStepHarmless(w: World, i: nat, op: Op)
    requires Enabled(w, Work(i, op)) && CanPersist(WorkStep(w, i, op), WorkStep(w, i, op).handlers[i])
    ensures CanPersist(w, w.handlers[i])
  {
  }

  lemma OtherStepHarmless(w: World, i: nat, op: Op, j: nat)
    requires Enabled(w, Work(i, op)) && j < |w.handlers| && j != i
    requires CanPersist(WorkStep(w, i, op), WorkStep(w, i, op).handlers[j])
    ensures CanPersist(w, w.handlers[j])
  {
  }

  lemma DeliveryHarmless(w: World, a: Act, e: nat)
    requires Enabled(w, a) && Settling(a) && CanBeDelivered(Apply(w, a), e)
    ensures CanBeDelivered(w, e)
  {
  }

  lemma FetchHarmless(w: World, e: nat, j: nat)
    requires Enabled(w, Fetch(e)) && !CanBeDelivered(w, e) && j < |FetchStep(w, e).handlers|
    requires CanPersist(FetchStep(w, e), FetchStep(w, e).handlers[j])
    ensures j < |w.handlers| && CanPersist(w, w.handlers[j])
  {
  }

  lemma ThreatIsOld(w: World, a: Act)
    requires Enabled(w, a) && Settling(a) && Threatened(Apply(w, a))
    ensures Threatened(w)
  {
    var w' := Apply(w, a);
    if i: nat :| i < |w'.handlers| && CanPersist(w', w'.handlers[i]) {
      if a.Work? {
        if a.h == i {
          OwnStepHarmless(w, i, a.op);
        } else {
          OtherStepHarmless(w, a.h, a.op, i);
        }
      } else if !a.Fetch? {
        assert CanPersist(w, w.handlers[i]);
      } else if !CanBeDelivered(w, a.entry) {
        FetchHarmless(w, a.entry, i);
      }
    } else {
      var e: nat :| CanBeDelivered(w', e);
      DeliveryHarmless(w, a, e);
    }
  }

  lemma OverwriteNeedsThreat(w: World, a: Act)
    requires Enabled(w, a) && Settling(a) && Decoded(w)
    requires w.row.Some? && !w.row.value.status.Failed?
    ensures Apply(w, a).row.Some? && (Apply(w, a).row.value.status.Failed? ==> Threatened(w))
  {
    if a.Work? && a.op.PersistFailure? {
      assert DecodedAt(w, w.handlers[a.h]);
      assert CanPersist(w, w.handlers[a.h]);
    }
  }

  lemma {:induction false} CalmAlways(ws: seq<World>, acts: seq<Act>, t: nat)
    requires Steps(ws, acts) && t < |ws| && forall x :: 0 <= x < |acts| ==> Settling(acts[x])
    requires Decoded(ws[0]) && !Threatened(ws[0]) && ws[0].row.Some? && !ws[0].row.value.status.Failed?
    ensures Decoded(ws[t]) && !Threatened(ws[t]) && ws[t].row.Some? && !ws[t].row.value.status.Failed?
  {
    if t > 0 {
      CalmAlways(ws, acts, t - 1);
      StepKeepsDecoded(ws[t - 1], acts[t - 1]);
      OverwriteNeedsThreat(ws[t - 1], acts[t - 1]);
      if Threatened(ws[t]) {
        ThreatIsOld(ws[t - 1], acts[t - 1]);
      }
    }
  }

  // ---------- Every threat can come true ----------

  lemma StepFirst(w: World, a: Act)
    requires Enabled(w, a) && Settling(a) && OverwriteCanFollow(Apply(w, a))
    ensures OverwriteCanFollow(w)
  {
    var ws, acts :|
      && Steps(ws, acts) && ws[0] == Apply(w, a) && (forall x :: 0 <= x < |acts| ==> Settling(acts[x]))
      && Last(ws).row.Some? && Last(ws).row.value.status == Failed;
    var ws', acts' := [w] + ws, [a] + acts;
    forall x | 0 <= x < |acts'|
      ensures Settling(acts'[x]) && Enabled(ws'[x], acts'[x]) && ws'[x + 1] == Apply(ws'[x], acts'[x])
    {
      if x > 0 {
        assert acts'[x] == acts[x - 1] && ws'[x] == ws[x - 1] && ws'[x + 1] == ws[x];
      }
    }
    assert Steps(ws', acts') && Last(ws') == Last(ws);
  }

  lemma FromPersisting(w: World, i: nat)
    requires Visible(w.row) && i < |w.handlers| && w.handlers[i].entry < |w.jobs| && w.handlers[i].pc.Persisting?
    ensures OverwriteCanFollow(w)
  {
    var a := Work(i, PersistFailure(Ok));
    var w' := Apply(w, a);
    assert Steps([w, w'], [a]) && Last([w, w']) == w';
  }

  lemma FromErring(w: World, i: nat)
    requires Visible(w.row) && i < |w.handlers| && w.handlers[i].entry < |w.jobs| && w.handlers[i].pc.Erring?
    ensures OverwriteCanFollow(w)
  {
    var a := Work(i, SendError("failed", Ok));
    FromPersisting(Apply(w, a), i);
    StepFirst(w, a);
  }

  lemma FromRecounting(w: World, i: nat)
    requires Visible(w.row) && i < |w.handlers| && w.handlers[i].entry < |w.jobs| && w.handlers[i].pc.Recounting?
    requires CanRunOut(w, w.handlers[i].entry)
    ensures OverwriteCanFollow(w)
  {
    var a := Work(i, Recount(if w.maxRetries <= 1 then 1 else w.pel[w.handlers[i].entry]));
    FromErring(Apply(w, a), i);
    StepFirst(w, a);
  }

  /** The next step of handler i on its way to persisting a failure. */
  function Worsen(h: Handler): Op {
    match h.pc
    case Counting => Count(1)
    case Resetting => Reset(Ok)
    case Resolving => Resolve(Unusable)
    case Synthesizing => if Flatten(h.pieces) == [] then EngineEnd else EngineCrash
    case Archiving => Archive("", Lost)
    case Committing(_) => CommitTx(Lost)
    case _ => SendFinal(Lost)
  }

  lemma WorsenStep(w: World, i: nat)
    requires Visible(w.row) && i < |w.handlers| && CanPersist(w, w.handlers[i])
    requires !w.handlers[i].pc.Recounting? && !w.handlers[i].pc.Erring? && !w.handlers[i].pc.Persisting?
    ensures var a := Work(i, Worsen(w.handlers[i]));
            && Enabled(w, a) && Visible(Apply(w, a).row) && CanPersist(Apply(w, a), Apply(w, a).handlers[i])
            && Rank(Apply(w, a).handlers[i].pc) < Rank(w.handlers[i].pc)
  {
  }

  /** Steps to go, at most. */
  function Rank(pc: Pc): nat {
    match pc
    case Counting => 4
    case Resetting => 3
    case Resolving => 2
    case Synthesizing => 2
    case Archiving => 2
    case Committing(_) => 2
    case Finalizing => 2
    case _ => 1
  }

  lemma {:induction false} FromHandler(w: World, i: nat)
    requires Visible(w.row) && i < |w.handlers| && CanPersist(w, w.handlers[i])
    ensures OverwriteCanFollow(w)
    decreases Rank(w.handlers[i].pc)
  {
    if w.handlers[i].pc.Persisting? {
      FromPersisting(w, i);
    } else if w.handlers[i].pc.Erring? {
      FromErring(w, i);
    } else if w.handlers[i].pc.Recounting? {
      FromRecounting(w, i);
    } else {
      var a := Work(i, Worsen(w.handlers[i]));
      WorsenStep(w, i);
      FromHandler(Apply(w, a), i);
      StepFirst(w, a);
    }
  }

  lemma {:induction false} FromDelivery(w: World, e: nat)
    requires Visible(w.row) && CanBeDelivered(w, e)
    ensures OverwriteCanFollow(w)
    decreases e - w.cursor
  {
    if e in w.pel || e == w.cursor {
      FromHandler(Apply(w, Fetch(e)), |w.handlers|);
      StepFirst(w, Fetch(e));
    } else {
      var w' := Apply(w, Fetch(w.cursor));
      FromDelivery(w', e);
      StepFirst(w, Fetch(w.cursor));
    }
  }

  /**
    Exactly when the status a commit wrote can still turn to `failed`: some
    handler that has not returned can still come to persist a failure, or a
    decodable entry is pending or undelivered. Otherwise the status stands,
    whatever happens next, for as long as the row lives and no job is queued.
  */
  lemma OverwriteCanFollowIff(ws: seq<World>, acts: seq<Act>)
    requires IsRun(ws, acts) && Visible(Last(ws).row) && Last(ws).row.value.status == Complete
    ensures OverwriteCanFollow(Last(ws)) <==> Threatened(Last(ws))
  {
    var w := Last(ws);
    DecodedAlways(ws, acts, |ws| - 1);
    if Threatened(w) {
      if i: nat :| i < |w.handlers| && CanPersist(w, w.handlers[i]) {
        FromHandler(w, i);
      } else {
        var e: nat :| CanBeDelivered(w, e);
        FromDelivery(w, e);
      }
    } else if OverwriteCanFollow(w) {
      var vs, bs :|
        && Steps(vs, bs) && vs[0] == w && (forall x :: 0 <= x < |bs| ==> Settling(bs[x]))
        && Last(vs).row.Some? && Last(vs).row.value.status == Failed;
      CalmAlways(vs, bs, |vs| - 1);
    }
  }
}
