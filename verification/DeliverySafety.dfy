/**
  Safety of the delivery protocol over all runs: one usage row, one final,
  commit before final, terminal failure is absorbing, and no entry is
  acknowledged without its outcome having been made durable.
*/
module DeliverySafety {
  import opened Prelude
  import opened ResultStream
  import opened Delivery

  // ---------- What the history contains ----------

  ghost predicate HasCommit(log: seq<Event>, i: nat) {
    exists t :: 0 <= t < |log| && log[t].Committed? && log[t].who == i
  }

  ghost predicate HasFinal(log: seq<Event>, i: nat) {
    exists t :: 0 <= t < |log| && log[t].FinalSent? && log[t].who == i
  }

  ghost predicate HasArchive(log: seq<Event>, i: nat) {
    exists t :: 0 <= t < |log| && log[t].Archived? && log[t].who == i
  }

  lemma HistoryGrows(log: seq<Event>, e: Event, i: nat)
    ensures HasCommit(log + [e], i) == (HasCommit(log, i) || (e.Committed? && e.who == i))
    ensures HasFinal(log + [e], i) == (HasFinal(log, i) || (e.FinalSent? && e.who == i))
    ensures HasArchive(log + [e], i) == (HasArchive(log, i) || (e.Archived? && e.who == i))
  {
    var l := log + [e];
    assert l[|log|] == e;
    assert forall t :: 0 <= t < |log| ==> l[t] == log[t];
  }

  /** The durable outcome that entitles a handler to acknowledge its entry. */
  ghost predicate Justified(log: seq<Event>, jobs: seq<bool>, i: nat, entry: nat, v: Verdict) {
    entry < |jobs| &&
    match v
    case Delivered => HasCommit(log, i) && HasFinal(log, i)
    case Poisoned => ErrorSent(i) in log && FailPersisted(i) in log
    case Exhausted(_) => ErrorSent(i) in log && FailPersisted(i) in log && Copied(i) in log
    case Malformed => !jobs[entry] && Copied(i) in log
  }

  /** Everything recorded so far was preceded by what it depends on. */
  ghost predicate EventSound(log: seq<Event>, jobs: seq<bool>, t: nat)
    requires t < |log|
  {
    match log[t]
    case FinalSent(i, _) => HasCommit(log[..t], i)
    case Committed(i, uri, row) =>
      && HasArchive(log[..t], i)
      && uri != ""
      && (Visible(row) ==> row.value.status == Complete && row.value.uri == Some(uri))
    case Acked(i, entry, v) => Justified(log[..t], jobs, i, entry, v)
    case _ => true
  }

  ghost predicate LogSound(w: World) {
    forall t :: 0 <= t < |w.log| ==> EventSound(w.log, w.jobs, t)
  }

  /** What a handler's program point says about its own past. */
  ghost predicate Earned(w: World, i: nat)
    requires i < |w.handlers|
  {
    var h := w.handlers[i];
    && h.entry < |w.jobs|
    && match h.pc
       case Committing(uri) => uri != "" && HasArchive(w.log, i)
       case Finalizing => HasCommit(w.log, i)
       case Erring(v, _) => v.Poisoned? || v.Exhausted?
       case Persisting(v) => (v.Poisoned? || v.Exhausted?) && ErrorSent(i) in w.log
       case Copying(v) =>
         if v.Malformed? then !w.jobs[h.entry]
         else (v.Poisoned? || v.Exhausted?) && ErrorSent(i) in w.log && FailPersisted(i) in w.log
       case Acking(v) => Justified(w.log, w.jobs, i, h.entry, v)
       case _ => true
  }

  ghost predicate AllEarned(w: World) {
    forall i :: 0 <= i < |w.handlers| ==> Earned(w, i)
  }

  predicate PastCommit(pc: Pc) {
    !(pc.Counting? || pc.Resetting? || pc.Resolving? || pc.Synthesizing? || pc.Archiving? || pc.Committing?)
  }

  predicate PastFinal(pc: Pc) {
    PastCommit(pc) && !pc.Finalizing?
  }

  /** The usage table agrees with the commits and the persisted failures. */
  ghost predicate UsageAgrees(w: World) {
    && |w.usage| <= 1
    && (forall t :: 0 <= t < |w.log| && w.log[t].Committed? ==> w.usage == [Usage(w.log[t].who, true)])
    && (forall t :: 0 <= t < |w.log| && w.log[t].FailPersisted? ==> w.usage != [])
  }

  /** A handler that committed, or published its final, is past that point for good. */
  ghost predicate PointsAgree(w: World) {
    && (forall t :: 0 <= t < |w.log| && w.log[t].Committed? ==>
          w.log[t].who < |w.handlers| && PastCommit(w.handlers[w.log[t].who].pc))
    && (forall t :: 0 <= t < |w.log| && w.log[t].FinalSent? ==>
          w.log[t].who < |w.handlers| && PastFinal(w.handlers[w.log[t].who].pc))
  }

  ghost predicate OnceOnly(log: seq<Event>) {
    && (forall s, t :: 0 <= s < t < |log| ==> !(log[s].FinalSent? && log[t].FinalSent?))
    && (forall s, t :: 0 <= s < t < |log| ==> !(log[s].Committed? && log[t].Committed?))
  }

  /** The idempotency row never claims more than the usage table shows. */
  ghost predicate RowHonest(w: World) {
    w.row.Some? ==>
      && (w.row.value.status == Complete ==> w.usage != [] && w.usage[0].ok && w.row.value.uri.Some?)
      && (w.row.value.status == Failed ==> w.usage != [])
  }

  ghost predicate Inv(w: World) {
    LogSound(w) && AllEarned(w) && UsageAgrees(w) && PointsAgree(w) && OnceOnly(w.log) && RowHonest(w)
  }

  // ---------- Every step keeps the invariant ----------

  lemma LogSoundSnoc(w: World, e: Event)
    requires LogSound(w)
    requires EventSound(w.log + [e], w.jobs, |w.log|)
    ensures forall t :: 0 <= t <= |w.log| ==> EventSound(w.log + [e], w.jobs, t)
  {
    forall t: nat | t < |w.log|
      ensures EventSound(w.log + [e], w.jobs, t)
    {
      assert EventSound(w.log, w.jobs, t);
      assert (w.log + [e])[..t] == w.log[..t];
    }
  }

  lemma LogSoundWork(w: World, i: nat, op: Op)
    requires Inv(w) && Enabled(w, Work(i, op))
    ensures LogSound(WorkStep(w, i, op))
  {
    var w' := WorkStep(w, i, op);
    assert Earned(w, i);
    if w'.log != w.log {
      var e := Last(w'.log);
      assert w'.log == w.log + [e] && w'.log[..|w.log|] == w.log;
      if e.FinalSent? || e.Committed? || e.Acked? {
        assert EventSound(w'.log, w.jobs, |w.log|);
      }
      LogSoundSnoc(w, e);
    }
  }

  /** The shape of a handler's step: at most one event, its own, and only its own handler moves. */
  lemma WorkShape(w: World, i: nat, op: Op)
    requires Enabled(w, Work(i, op))
    ensures var w' := WorkStep(w, i, op);
            && w'.jobs == w.jobs && |w'.handlers| == |w.handlers|
            && (forall j :: 0 <= j < |w.handlers| && j != i ==> w'.handlers[j] == w.handlers[j])
            && w'.handlers[i].entry == w.handlers[i].entry
            && w.log <= w'.log && |w'.log| <= |w.log| + 1
            && (w'.log != w.log ==> Last(w'.log).who == i)
  {
  }

  lemma EarnedPersists(w: World, w': World, j: nat)
    requires j < |w.handlers| && j < |w'.handlers| && w'.handlers[j] == w.handlers[j]
    requires w.jobs <= w'.jobs && w.log <= w'.log && |w'.log| <= |w.log| + 1
    requires Earned(w, j)
    ensures Earned(w', j)
  {
    if w'.log != w.log {
      assert w'.log == w.log + [Last(w'.log)];
      HistoryGrows(w.log, Last(w'.log), j);
      assert forall x :: x in w.log ==> x in w'.log;
    } else {
      assert w'.log == w.log;
    }
  }

  // What the one event a step records is.
  lemma EventOf(w: World, i: nat, op: Op)
    requires Enabled(w, Work(i, op)) && WorkStep(w, i, op).log != w.log
    ensures WorkStep(w, i, op).log == w.log + [Last(WorkStep(w, i, op).log)]
    ensures var e := Last(WorkStep(w, i, op).log);
            && (op.Archive? ==> e.Archived? && e.who == i) && (op.CommitTx? ==> e.Committed? && e.who == i)
            && (op.SendFinal? ==> e.FinalSent? && e.who == i) && (op.SendError? ==> e == ErrorSent(i))
            && (op.PersistFailure? ==> e == FailPersisted(i)) && (op.CopyToDlq? ==> e == Copied(i))
  {
  }

  lemma EarnedSelf(w: World, i: nat, op: Op)
    requires Enabled(w, Work(i, op)) && Earned(w, i)
    ensures Earned(WorkStep(w, i, op), i)
  {
    var w' := WorkStep(w, i, op);
    if w'.log != w.log {
      var e := Last(w'.log);
      EventOf(w, i, op);
      HistoryGrows(w.log, e, i);
      assert forall x :: x in w.log ==> x in w'.log;
      assert e in w'.log;
    }
  }

  lemma UsageWork(w: World, i: nat, op: Op)
    requires Inv(w) && Enabled(w, Work(i, op))
    ensures UsageAgrees(WorkStep(w, i, op))
  {
    var w' := WorkStep(w, i, op);
    WorkShape(w, i, op);
    assert forall t :: 0 <= t < |w.log| ==> w'.log[t] == w.log[t];
    if op.CommitTx? && Took(op.io) {
      assert w'.usage == [Usage(i, true)];
    }
  }

  lemma RowWork(w: World, i: nat, op: Op)
    requires RowHonest(w) && Enabled(w, Work(i, op))
    ensures RowHonest(WorkStep(w, i, op))
  {
  }

  lemma PointsAdvance(w: World, i: nat, op: Op)
    requires Enabled(w, Work(i, op))
    ensures var before, after, w' := w.handlers[i].pc, WorkStep(w, i, op).handlers[i].pc, WorkStep(w, i, op);
            && (PastCommit(before) ==> PastCommit(after)) && (PastFinal(before) ==> PastFinal(after))
            && (w'.log != w.log && Last(w'.log).Committed? ==> PastCommit(after))
            && (w'.log != w.log && Last(w'.log).FinalSent? ==> PastFinal(after))
  {
  }

  lemma PointsWork(w: World, i: nat, op: Op)
    requires PointsAgree(w) && Enabled(w, Work(i, op))
    ensures PointsAgree(WorkStep(w, i, op))
  {
    var w' := WorkStep(w, i, op);
    WorkShape(w, i, op);
    PointsAdvance(w, i, op);
    PointsPersist(w, w', i);
  }

  lemma PointsPersist(w: World, w': World, i: nat)
    requires PointsAgree(w) && i < |w.handlers| == |w'.handlers|
    requires forall j :: 0 <= j < |w.handlers| && j != i ==> w'.handlers[j] == w.handlers[j]
    requires w.log <= w'.log && |w'.log| <= |w.log| + 1 && (w'.log != w.log ==> Last(w'.log).who == i)
    requires PastCommit(w.handlers[i].pc) ==> PastCommit(w'.handlers[i].pc)
    requires PastFinal(w.handlers[i].pc) ==> PastFinal(w'.handlers[i].pc)
    requires w'.log != w.log && Last(w'.log).Committed? ==> PastCommit(w'.handlers[i].pc)
    requires w'.log != w.log && Last(w'.log).FinalSent? ==> PastFinal(w'.handlers[i].pc)
    ensures PointsAgree(w')
  {
    assert forall t :: 0 <= t < |w.log| ==> w'.log[t] == w.log[t];
  }

  lemma OnceWork(w: World, i: nat, op: Op)
    requires Inv(w) && Enabled(w, Work(i, op))
    ensures OnceOnly(WorkStep(w, i, op).log)
  {
    var w' := WorkStep(w, i, op);
    WorkShape(w, i, op);
    assert forall t :: 0 <= t < |w.log| ==> w'.log[t] == w.log[t];
    if op.SendFinal? {
      OnlyCommitterFinishes(w, i);
    }
  }

  // A final needs an earlier commit, and there is only one committer.
  lemma FinalBelongsToCommitter(w: World, t: nat)
    requires Inv(w) && t < |w.log| && w.log[t].FinalSent?
    ensures w.usage == [Usage(w.log[t].who, true)]
  {
    assert EventSound(w.log, w.jobs, t);
    var d :| 0 <= d < |w.log[..t]| && w.log[..t][d].Committed? && w.log[..t][d].who == w.log[t].who;
    assert w.log[d] == w.log[..t][d];
  }

  // Whoever is about to publish the final is the one that committed, so nobody published it before.
  lemma OnlyCommitterFinishes(w: World, i: nat)
    requires Inv(w) && i < |w.handlers| && w.handlers[i].pc.Finalizing?
    ensures forall t :: 0 <= t < |w.log| ==> !w.log[t].FinalSent?
  {
    assert Earned(w, i);
    var c :| 0 <= c < |w.log| && w.log[c].Committed? && w.log[c].who == i;
    forall t | 0 <= t < |w.log|
      ensures !w.log[t].FinalSent?
    {
      if w.log[t].FinalSent? {
        FinalBelongsToCommitter(w, t);
      }
    }
  }

  lemma WorkKeepsInv(w: World, i: nat, op: Op)
    requires Inv(w) && Enabled(w, Work(i, op))
    ensures Inv(WorkStep(w, i, op))
  {
    var w' := WorkStep(w, i, op);
    WorkShape(w, i, op);
    LogSoundWork(w, i, op);
    UsageWork(w, i, op);
    RowWork(w, i, op);
    PointsWork(w, i, op);
    OnceWork(w, i, op);
    EarnedSelf(w, i, op);
    forall j: nat | j < |w'.handlers|
      ensures Earned(w', j)
    {
      if j != i {
        EarnedPersists(w, w', j);
      }
    }
  }

  lemma StepKeepsInv(w: World, a: Act)
    requires Inv(w) && Enabled(w, a)
    ensures Inv(Apply(w, a))
  {
    var w' := Apply(w, a);
    if a.Work? {
      WorkKeepsInv(w, a.h, a.op);
    } else {
      assert w'.log == w.log && w'.usage == w.usage && w.handlers <= w'.handlers && w.jobs <= w'.jobs;
      forall j: nat | j < |w'.handlers|
        ensures Earned(w', j)
      {
        if j < |w.handlers| {
          EarnedPersists(w, w', j);
        }
      }
      forall t: nat | t < |w.log|
        ensures EventSound(w'.log, w'.jobs, t)
      {
        assert EventSound(w.log, w.jobs, t);
      }
    }
  }

  lemma {:induction false} InvAlways(ws: seq<World>, acts: seq<Act>, t: nat)
    requires IsRun(ws, acts) && t < |ws|
    ensures Inv(ws[t])
  {
    if t > 0 {
      InvAlways(ws, acts, t - 1);
      StepKeepsInv(ws[t - 1], acts[t - 1]);
    }
  }

  // ---------- Billing and ordering, over all runs ----------

  /**
    In every state of every run there is at most one usage row, at most one
    final has ever been published, and at most one commit has ever succeeded.
  */
  lemma AtMostOnce(ws: seq<World>, acts: seq<Act>, t: nat)
    requires IsRun(ws, acts) && t < |ws|
    ensures |ws[t].usage| <= 1
    ensures forall a, b :: 0 <= a < b < |ws[t].log| ==>
              !(ws[t].log[a].FinalSent? && ws[t].log[b].FinalSent?) && !(ws[t].log[a].Committed? && ws[t].log[b].Committed?)
  {
    InvAlways(ws, acts, t);
  }

  /**
    A final was preceded by its own attempt's commit, which was preceded by
    that attempt's archive. The commit left the attempt's `ok` usage row, and,
    unless the idempotency row had expired or was gone, `complete` with a
    non-empty response URI.
  */
  lemma CommitBeforeFinal(ws: seq<World>, acts: seq<Act>, t: nat, f: nat)
    requires IsRun(ws, acts) && t < |ws|
    requires f < |ws[t].log| && ws[t].log[f].FinalSent?
    ensures ws[t].usage == [Usage(ws[t].log[f].who, true)]
    ensures exists c, a :: 0 <= a < c < f
              && ws[t].log[a].Archived? && ws[t].log[a].who == ws[t].log[f].who
              && ws[t].log[c].Committed? && ws[t].log[c].who == ws[t].log[f].who && ws[t].log[c].uri != ""
              && (Visible(ws[t].log[c].row) ==>
                    ws[t].log[c].row == Some(Row(Complete, Some(ws[t].log[c].uri), false)))
  {
    InvAlways(ws, acts, t);
    var w := ws[t];
    FinalBelongsToCommitter(w, f);
    assert EventSound(w.log, w.jobs, f);
    var c :| 0 <= c < |w.log[..f]| && w.log[..f][c].Committed? && w.log[..f][c].who == w.log[f].who;
    assert EventSound(w.log, w.jobs, c);
    var a :| 0 <= a < |w.log[..c]| && w.log[..c][a].Archived? && w.log[..c][a].who == w.log[c].who;
    assert w.log[a] == w.log[..c][a] && w.log[c] == w.log[..f][c];
  }

  /** Retries run out only once the delivery count that was read reached the budget. */
  predicate Spent(maxRetries: int, v: Verdict) {
    v.Exhausted? ==> v.count >= maxRetries
  }

  predicate SpentAt(maxRetries: int, pc: Pc) {
    pc.Erring? || pc.Persisting? || pc.Copying? || pc.Acking? ==> Spent(maxRetries, pc.verdict)
  }

  ghost predicate BudgetInv(w: World) {
    && (forall i :: 0 <= i < |w.handlers| ==> SpentAt(w.maxRetries, w.handlers[i].pc))
    && (forall t :: 0 <= t < |w.log| && w.log[t].Acked? ==> Spent(w.maxRetries, w.log[t].verdict))
  }

  lemma BudgetWork(w: World, i: nat, op: Op)
    requires Enabled(w, Work(i, op)) && SpentAt(w.maxRetries, w.handlers[i].pc)
    ensures var w' := WorkStep(w, i, op);
            && w'.maxRetries == w.maxRetries && SpentAt(w.maxRetries, w'.handlers[i].pc)
            && (w'.log != w.log && Last(w'.log).Acked? ==> Spent(w.maxRetries, Last(w'.log).verdict))
  {
  }

  lemma StepKeepsBudget(w: World, a: Act)
    requires BudgetInv(w) && Enabled(w, a)
    ensures BudgetInv(Apply(w, a)) && Apply(w, a).maxRetries == w.maxRetries
  {
    var w' := Apply(w, a);
    if a.Work? {
      WorkShape(w, a.h, a.op);
      BudgetWork(w, a.h, a.op);
      assert forall t :: 0 <= t < |w.log| ==> w'.log[t] == w.log[t];
    }
  }

  lemma {:induction false} BudgetAlways(ws: seq<World>, acts: seq<Act>, t: nat)
    requires IsRun(ws, acts) && t < |ws|
    ensures BudgetInv(ws[t]) && ws[t].maxRetries == ws[0].maxRetries
  {
    if t > 0 {
      BudgetAlways(ws, acts, t - 1);
      StepKeepsBudget(ws[t - 1], acts[t - 1]);
    }
  }

  /** No silent loss: every acknowledgement in every run is backed by an earlier durable outcome. */
  lemma NoSilentLoss(ws: seq<World>, acts: seq<Act>, t: nat, k: nat)
    requires IsRun(ws, acts) && t < |ws|
    requires k < |ws[t].log| && ws[t].log[k].Acked?
    ensures var e, before := ws[t].log[k], ws[t].log[..k];
            e.entry < |ws[t].jobs| &&
            match e.verdict
            case Delivered => HasCommit(before, e.who) && HasFinal(before, e.who)
            case Poisoned => ErrorSent(e.who) in before && FailPersisted(e.who) in before
            case Exhausted(count) =>
              && count >= ws[t].maxRetries
              && ErrorSent(e.who) in before && FailPersisted(e.who) in before && Copied(e.who) in before
            case Malformed => !ws[t].jobs[e.entry] && Copied(e.who) in before
  {
    InvAlways(ws, acts, t);
    BudgetAlways(ws, acts, t);
    assert EventSound(ws[t].log, ws[t].jobs, k);
  }

  /** Only an acknowledgement removes a delivered entry from the pending list. */
  lemma PendingUntilAcked(w: World, a: Act, e: nat)
    requires Enabled(w, a) && e in w.pel
    ensures e in Apply(w, a).pel || exists i, v :: Apply(w, a).log == w.log + [Acked(i, e, v)]
  {
    if a.Work? && e !in Apply(w, a).pel {
      assert Apply(w, a).log == w.log + [Acked(a.h, e, w.handlers[a.h].pc.verdict)];
    }
  }

  // ---------- What the usage row says ----------

  /** The billing row names the attempt and the way it ended. */
  ghost predicate UsageTells(w: World) {
    w.usage != [] ==>
      if w.usage[0].ok then HasCommit(w.log, w.usage[0].who) else FailPersisted(w.usage[0].who) in w.log
  }

  lemma UsageMove(w: World, i: nat, op: Op)
    requires Enabled(w, Work(i, op)) && WorkStep(w, i, op).usage != w.usage
    ensures (op.CommitTx? && WorkStep(w, i, op).usage == w.usage + [Usage(i, true)])
         || (op.PersistFailure? && w.usage == [] && WorkStep(w, i, op).usage == [Usage(i, false)])
    ensures WorkStep(w, i, op).log != w.log
  {
  }

  lemma UsageChange(w: World, a: Act)
    requires Enabled(w, a)
    ensures w.log <= Apply(w, a).log
    ensures var w' := Apply(w, a);
            w'.usage != w.usage ==>
              && a.Work? && |w'.log| == |w.log| + 1
              && ((w'.usage == w.usage + [Usage(a.h, true)] && Last(w'.log).Committed? && Last(w'.log).who == a.h)
                  || (w.usage == [] && w'.usage == [Usage(a.h, false)] && Last(w'.log) == FailPersisted(a.h)))
  {
    if a.Work? {
      WorkShape(w, a.h, a.op);
      if Apply(w, a).usage != w.usage {
        UsageMove(w, a.h, a.op);
        EventOf(w, a.h, a.op);
      }
    }
  }

  lemma StepKeepsTelling(w: World, a: Act)
    requires Inv(w) && UsageTells(w) && Enabled(w, a)
    ensures UsageTells(Apply(w, a))
  {
    var w' := Apply(w, a);
    UsageChange(w, a);
    if w'.usage != w.usage {
      StepKeepsInv(w, a);
      assert w'.log[|w.log|] == Last(w'.log);
    } else if w.usage != [] && w.usage[0].ok {
      var t :| 0 <= t < |w.log| && w.log[t].Committed? && w.log[t].who == w.usage[0].who;
      assert w'.log[t] == w.log[t];
    } else if w.usage != [] {
      assert forall x :: x in w.log ==> x in w'.log;
    }
  }

  lemma {:induction false} TellsAlways(ws: seq<World>, acts: seq<Act>, t: nat)
    requires IsRun(ws, acts) && t < |ws|
    ensures UsageTells(ws[t])
  {
    if t > 0 {
      TellsAlways(ws, acts, t - 1);
      InvAlways(ws, acts, t - 1);
      StepKeepsTelling(ws[t - 1], acts[t - 1]);
    }
  }

  /**
    In every state of every run the usage row is `ok` exactly when its attempt
    committed, and an `error` row was written by an attempt that persisted a failure.
  */
  lemma UsageTellsOutcome(ws: seq<World>, acts: seq<Act>, t: nat)
    requires IsRun(ws, acts) && t < |ws| && ws[t].usage != []
    ensures ws[t].usage[0].ok <==> HasCommit(ws[t].log, ws[t].usage[0].who)
    ensures !ws[t].usage[0].ok ==> FailPersisted(ws[t].usage[0].who) in ws[t].log
  {
    InvAlways(ws, acts, t);
    TellsAlways(ws, acts, t);
  }

  // ---------- Terminal failure ----------

  ghost predicate FailureRecorded(w: World) {
    exists t :: 0 <= t < |w.log| && w.log[t].FailPersisted?
  }

  ghost predicate SomeoneFinalizing(w: World) {
    exists i :: 0 <= i < |w.handlers| && w.handlers[i].pc.Finalizing?
  }

  ghost predicate FinalRecorded(w: World) {
    exists t :: 0 <= t < |w.log| && w.log[t].FinalSent?
  }

  ghost predicate CommitRecorded(w: World) {
    exists t :: 0 <= t < |w.log| && w.log[t].Committed?
  }

  // With a usage row in place no attempt can commit, so no new one reaches the finalizing point.
  lemma NoNewCommit(w: World, a: Act)
    requires Enabled(w, a) && w.usage != []
    ensures Apply(w, a).usage == w.usage
    ensures CommitRecorded(Apply(w, a)) ==> CommitRecorded(w)
  {
    var w' := Apply(w, a);
    if CommitRecorded(w') {
      var t :| 0 <= t < |w'.log| && w'.log[t].Committed?;
      assert t < |w.log| && w.log[t].Committed?;
    }
  }

  lemma NoNewFinalizer(w: World, a: Act)
    requires Enabled(w, a) && w.usage != []
    ensures SomeoneFinalizing(Apply(w, a)) ==> SomeoneFinalizing(w)
  {
    var w' := Apply(w, a);
    if SomeoneFinalizing(w') {
      var i :| 0 <= i < |w'.handlers| && w'.handlers[i].pc.Finalizing?;
      assert i < |w.handlers| && w.handlers[i].pc.Finalizing?;
    }
  }

  lemma FinalNeedsFinalizer(w: World, a: Act)
    requires Enabled(w, a)
    ensures FinalRecorded(Apply(w, a)) ==> FinalRecorded(w) || SomeoneFinalizing(w)
  {
    var w' := Apply(w, a);
    if FinalRecorded(w') {
      var t :| 0 <= t < |w'.log| && w'.log[t].FinalSent?;
      if t < |w.log| {
        assert w.log[t].FinalSent?;
      } else {
        assert w.handlers[a.h].pc.Finalizing?;
      }
    }
  }

  lemma {:induction false} AfterUsage(ws: seq<World>, acts: seq<Act>, t: nat)
    requires Steps(ws, acts) && t < |ws| && Inv(ws[0]) && ws[0].usage != []
    ensures Inv(ws[t]) && ws[t].usage == ws[0].usage
    ensures CommitRecorded(ws[t]) ==> CommitRecorded(ws[0])
    ensures SomeoneFinalizing(ws[t]) ==> SomeoneFinalizing(ws[0])
    ensures FinalRecorded(ws[t]) ==> FinalRecorded(ws[0]) || SomeoneFinalizing(ws[0])
  {
    if t > 0 {
      AfterUsage(ws, acts, t - 1);
      StepKeepsInv(ws[t - 1], acts[t - 1]);
      NoNewCommit(ws[t - 1], acts[t - 1]);
      NoNewFinalizer(ws[t - 1], acts[t - 1]);
      FinalNeedsFinalizer(ws[t - 1], acts[t - 1]);
    }
  }

  ghost predicate FinalCanFollow(w: World) {
    exists ws, acts :: Steps(ws, acts) && ws[0] == w && FinalRecorded(Last(ws))
  }

  lemma FailureHasUsage(w: World)
    requires Inv(w) && FailureRecorded(w)
    ensures w.usage != []
  {
  }

  /**
    Once a terminal failure has been persisted no attempt can commit any more.
    A final may still appear, in exactly one case: some attempt had committed
    before and is about to publish it. So `failed` shuts out every attempt that
    has not yet committed, and no others.
  */
  lemma FinalAfterFailureIff(ws: seq<World>, acts: seq<Act>)
    requires IsRun(ws, acts) && FailureRecorded(Last(ws)) && !FinalRecorded(Last(ws))
    ensures FinalCanFollow(Last(ws)) <==> SomeoneFinalizing(Last(ws))
  {
    var w := Last(ws);
    InvAlways(ws, acts, |ws| - 1);
    FailureHasUsage(w);
    if SomeoneFinalizing(w) {
      var i: nat :| i < |w.handlers| && w.handlers[i].pc.Finalizing?;
      assert Earned(w, i);
      var a := Work(i, SendFinal(Ok));
      var w' := Apply(w, a);
      assert w'.log[|w.log|].FinalSent?;
      assert Steps([w, w'], [a]) && Last([w, w']) == w';
    }
    if FinalCanFollow(w) {
      var vs, bs :| Steps(vs, bs) && vs[0] == w && FinalRecorded(Last(vs));
      AfterUsage(vs, bs, |vs| - 1);
    }
  }

  /** After a persisted failure no commit is ever added, whatever happens next. */
  lemma NoCommitAfterFailure(ws: seq<World>, acts: seq<Act>, t: nat, u: nat)
    requires IsRun(ws, acts) && t <= u < |ws| && FailureRecorded(ws[t])
    ensures CommitRecorded(ws[u]) ==> CommitRecorded(ws[t])
    ensures ws[u].usage == ws[t].usage != []
  {
    InvAlways(ws, acts, t);
    FailureHasUsage(ws[t]);
    var vs, bs := ws[t..], acts[t..];
    forall k | 0 <= k < |bs|
      ensures Enabled(vs[k], bs[k]) && vs[k + 1] == Apply(vs[k], bs[k])
    {
      assert vs[k] == ws[t + k] && vs[k + 1] == ws[t + k + 1] && bs[k] == acts[t + k];
    }
    AfterUsage(vs, bs, u - t);
  }

  lemma FailedStays(w: World, a: Act)
    requires Inv(w) && Enabled(w, a) && !a.RemoveRow?
    requires w.row.Some? && w.row.value.status == Failed
    ensures Apply(w, a).row.Some? && Apply(w, a).row.value.status == Failed
  {
  }

  /** A worker changes a row it can see only: a commit sets `complete`, a terminal failure `failed`, nothing else writes. */
  lemma WorkerWritesVisible(w: World, i: nat, op: Op)
    requires Enabled(w, Work(i, op))
    ensures w.row.None? || w.row.value.expired ==> WorkStep(w, i, op).row == w.row
    ensures WorkStep(w, i, op).row != w.row ==>
              && WorkStep(w, i, op).row.Some? && !WorkStep(w, i, op).row.value.expired
              && ((op.CommitTx? && WorkStep(w, i, op).row.value.status == Complete)
                  || (op.PersistFailure? && WorkStep(w, i, op).row.value.status == Failed
                      && WorkStep(w, i, op).row.value.uri == w.row.value.uri))
  {
  }

  /** `failed` is absorbing for the life of the row: it only ends with the row itself. */
  lemma {:induction false} FailedIsAbsorbing(ws: seq<World>, acts: seq<Act>, t: nat, u: nat)
    requires IsRun(ws, acts) && t <= u < |ws|
    requires ws[t].row.Some? && ws[t].row.value.status == Failed
    requires forall k :: t <= k < u ==> !acts[k].RemoveRow?
    ensures ws[u].row.Some? && ws[u].row.value.status == Failed
    decreases u
  {
    if u > t {
      FailedIsAbsorbing(ws, acts, t, u - 1);
      InvAlways(ws, acts, u - 1);
      FailedStays(ws[u - 1], acts[u - 1]);
    }
  }
}
