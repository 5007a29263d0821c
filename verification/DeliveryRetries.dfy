/** The retry budget bounds how often an entry is handled, when nothing dies mid-handler. */
module DeliveryRetries {
  import opened Prelude
  import opened Delivery
  import opened DeliverySafety
  import opened DeliveryAudio

  /** How many deliveries of entry e have been handled. */
  function Times(hs: seq<Handler>, e: nat): nat {
    if hs == [] then 0 else Times(Front(hs), e) + if Last(hs).entry == e then 1 else 0
  }

  /**
    The budget, also when it is configured to zero or less: the first delivery always happens.
  */
  function Budget(w: World): int {
    Max(1, w.maxRetries)
  }

  ghost predicate Live(w: World, e: nat) {
    exists i :: 0 <= i < |w.handlers| && w.handlers[i].entry == e && !w.handlers[i].pc.Idle?
  }

  /**
    An entry is delivered again only after its previous handler returned; count
    reads return the count; terminal writes and acknowledgements succeed.
  */
  ghost predicate Calm(w: World, a: Act)
    requires Enabled(w, a)
  {
    match a
    case Fetch(e) => !Live(w, e)
    case Work(i, op) =>
      (match op
       case Count(n) => w.handlers[i].entry in w.pel && n == w.pel[w.handlers[i].entry]
       case Recount(n) => w.handlers[i].entry in w.pel && n == w.pel[w.handlers[i].entry]
       case SendError(_, io) => io.Ok?
       case PersistFailure(io) => io.Ok?
       case CopyToDlq(io) => io.Ok?
       case SendAck(io) => io.Ok?
       case _ => true)
    case _ => true
  }

  /** A handler that has not returned has its entry pending, and is the entry's latest. */
  ghost predicate LiveLatest(w: World) {
    && (forall i :: 0 <= i < |w.handlers| && !w.handlers[i].pc.Idle? ==> w.handlers[i].entry in w.pel)
    && (forall i, j :: 0 <= i < j < |w.handlers| && w.handlers[i].entry == w.handlers[j].entry ==> w.handlers[i].pc.Idle?)
  }

  ghost predicate CountsAgree(w: World) {
    forall e :: e in w.pel ==> w.pel[e] == Times(w.handlers, e) && (Live(w, e) || w.pel[e] < w.maxRetries)
  }

  ghost predicate WithinBudget(w: World) {
    forall e :: Times(w.handlers, e) <= Budget(w)
  }

  ghost predicate RetryInv(w: World) {
    DeliveryInv(w) && LiveLatest(w) && CountsAgree(w) && WithinBudget(w)
  }

  lemma {:induction false} TimesUpdate(hs: seq<Handler>, i: nat, h: Handler, e: nat)
    requires i < |hs| && h.entry == hs[i].entry
    ensures Times(hs[i := h], e) == Times(hs, e)
  {
    var hs' := hs[i := h];
    if i == |hs| - 1 {
      assert Front(hs') == Front(hs);
    } else {
      assert Front(hs') == Front(hs)[i := h];
      TimesUpdate(Front(hs), i, h, e);
    }
  }

  lemma {:induction false} NeverHandled(hs: seq<Handler>, e: nat)
    requires forall i :: 0 <= i < |hs| ==> hs[i].entry != e
    ensures Times(hs, e) == 0
  {
    if hs != [] {
      NeverHandled(Front(hs), e);
    }
  }

  lemma FetchCounts(w: World, e: nat)
    requires RetryInv(w) && Enabled(w, Fetch(e)) && Calm(w, Fetch(e))
    ensures CountsAgree(FetchStep(w, e)) && WithinBudget(FetchStep(w, e))
  {
    var w' := FetchStep(w, e);
    assert Front(w'.handlers) == w.handlers;
    var n := |w.handlers|;
    assert w'.handlers[n].entry == e && !w'.handlers[n].pc.Idle?;
    if e !in w.pel {
      NeverHandled(w.handlers, e);
    }
    assert Times(w'.handlers, e) == w'.pel[e] <= Budget(w);
    forall x | x in w'.pel
      ensures w'.pel[x] == Times(w'.handlers, x) && (Live(w', x) || w'.pel[x] < w'.maxRetries)
    {
      if x != e && Live(w, x) {
        var i :| 0 <= i < |w.handlers| && w.handlers[i].entry == x && !w.handlers[i].pc.Idle?;
        assert w'.handlers[i] == w.handlers[i];
      }
    }
  }

  lemma FetchLatest(w: World, e: nat)
    requires RetryInv(w) && Enabled(w, Fetch(e)) && Calm(w, Fetch(e))
    ensures LiveLatest(FetchStep(w, e))
  {
    var w' := FetchStep(w, e);
    forall i | 0 <= i < |w.handlers|
      ensures w'.handlers[i] == w.handlers[i] && (w.handlers[i].entry == e ==> w.handlers[i].pc.Idle?)
    {
    }
  }

  /** What a handler's step means for the budget: it returns only with the entry acknowledged or budget left. */
  lemma ReturnShape(w: World, i: nat, op: Op)
    requires RetryInv(w) && AllEarned(w) && Enabled(w, Work(i, op)) && Calm(w, Work(i, op))
    ensures var w' := WorkStep(w, i, op);
            && w'.handlers == w.handlers[i := w'.handlers[i]]
            && w'.handlers[i].entry == w.handlers[i].entry
            && w'.maxRetries == w.maxRetries
            && w'.pel == (if op.SendAck? then w.pel - {w.handlers[i].entry} else w.pel)
            && !w.handlers[i].pc.Idle?
            && (w'.handlers[i].pc.Idle? ==> op.SendAck? || w.pel[w.handlers[i].entry] < w.maxRetries)
            && (op.SendAck? ==> w'.handlers[i].pc.Idle?)
  {
    assert Earned(w, i);
  }

  lemma WorkCounts(w: World, i: nat, op: Op)
    requires RetryInv(w) && AllEarned(w) && Enabled(w, Work(i, op)) && Calm(w, Work(i, op))
    ensures CountsAgree(WorkStep(w, i, op)) && WithinBudget(WorkStep(w, i, op))
  {
    var w' := WorkStep(w, i, op);
    var h, h' := w.handlers[i], w'.handlers[i];
    ReturnShape(w, i, op);
    forall e: nat
      ensures Times(w'.handlers, e) == Times(w.handlers, e)
    {
      TimesUpdate(w.handlers, i, h', e);
    }
    forall x | x in w'.pel
      ensures Live(w', x) || w'.pel[x] < w'.maxRetries
    {
      if Live(w, x) {
        var j :| 0 <= j < |w.handlers| && w.handlers[j].entry == x && !w.handlers[j].pc.Idle?;
        if j != i {
          assert w'.handlers[j] == w.handlers[j];
        } else if !h'.pc.Idle? {
          assert w'.handlers[i].entry == x;
        }
      }
    }
  }

  lemma WorkLatest(w: World, i: nat, op: Op)
    requires RetryInv(w) && AllEarned(w) && Enabled(w, Work(i, op)) && Calm(w, Work(i, op))
    ensures LiveLatest(WorkStep(w, i, op))
  {
    var w' := WorkStep(w, i, op);
    ReturnShape(w, i, op);
    forall j | 0 <= j < |w.handlers| && j != i
      ensures w'.handlers[j] == w.handlers[j]
      ensures w.handlers[j].entry == w.handlers[i].entry ==> w.handlers[j].pc.Idle?
    {
    }
  }

  lemma StepKeepsRetry(w: World, a: Act)
    requires RetryInv(w) && AllEarned(w) && Enabled(w, a) && Calm(w, a)
    ensures RetryInv(Apply(w, a))
  {
    if a.Fetch? {
      StepKeepsDelivery(w, a);
      FetchCounts(w, a.entry);
      FetchLatest(w, a.entry);
    } else if a.Work? {
      StepKeepsDelivery(w, a);
      WorkCounts(w, a.h, a.op);
      WorkLatest(w, a.h, a.op);
    } else {
      StepKeepsDelivery(w, a);
      var w' := Apply(w, a);
      assert w'.handlers == w.handlers && w'.pel == w.pel && w'.maxRetries == w.maxRetries;
      assert forall e :: Live(w, e) == Live(w', e);
    }
  }

  /**
    Bounded retries: in every such run every entry is handled at most
    `maxRetries` times (and the first time in any case); its delivery count is
    the number of times it was handled; and an entry left pending by its last
    handler still has budget.
  */
  lemma {:induction false} BoundedRetries(ws: seq<World>, acts: seq<Act>, t: nat)
    requires IsRun(ws, acts) && t < |ws|
    requires forall x :: 0 <= x < |acts| ==> Enabled(ws[x], acts[x]) && Calm(ws[x], acts[x])
    ensures RetryInv(ws[t])
    ensures forall e :: Times(ws[t].handlers, e) <= Budget(ws[t])
    ensures forall e :: e in ws[t].pel && !Live(ws[t], e) ==> Times(ws[t].handlers, e) == ws[t].pel[e] < ws[t].maxRetries
  {
    if t > 0 {
      BoundedRetries(ws, acts, t - 1);
      InvAlways(ws, acts, t - 1);
      StepKeepsRetry(ws[t - 1], acts[t - 1]);
    }
  }
}
