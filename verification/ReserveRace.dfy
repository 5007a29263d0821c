/**
  Concurrent reservations of one idempotency key, and the submissions that
  follow them. Sessions interleave at every database operation; an uncommitted
  insert is invisible to reads and blocks other inserts. The row leaves the
  table in one step (rollback or purge), so no expired row lingers under the key.
*/
module ReserveRace {
  import opened Prelude
  import Idempotency

  /** The synchronous and streaming handlers submit only a new reservation; the asynchronous one discards that flag. */
  datatype Kind = Flagged | Unflagged

  datatype Answer =
    | New(life: nat)
    | Replay(life: nat)
    | Conflict(life: nat)
    | RawError

  datatype Point = Peeking | Asking | Inserting | Holding | Rechecking | Reinserting | Answered | Finished

  datatype Caller = Caller(kind: Kind, hash: string, at: Point, answer: Option<Answer>)

  /** `hashes` and `winners` list, per row lifetime so far, the body hash and the caller that inserted it. */
  datatype World = World(
    callers: seq<Caller>,
    row: Option<nat>,
    holder: Option<nat>,
    hashes: seq<string>,
    winners: seq<nat>,
    submits: seq<(nat, nat)>)   // (caller, lifetime) of each job put on the queue

  datatype Act =
    | Arrive(kind: Kind, hash: string)
    | Peek(i: nat)
    | Look(i: nat)
    | Insert(i: nat)
    | Commit(i: nat)
    | Abort(i: nat)
    | Submit(i: nat, enqueued: bool, raised: bool)
    | Purge

  predicate At(w: World, i: nat, p: Point) {
    i < |w.callers| && w.callers[i].at == p
  }

  function LifeOf(a: Answer): nat {
    match a
    case New(l) => l
    case Replay(l) => l
    case Conflict(l) => l
    case RawError => 0
  }

  /** A handler goes on to submit after a new reservation; the asynchronous one also after a replay. */
  predicate Submits(c: Caller) {
    c.answer.Some? && (c.answer.value.New? || (c.kind.Unflagged? && c.answer.value.Replay?))
  }

  predicate Enabled(w: World, a: Act) {
    match a
    case Arrive(_, _) => true
    case Peek(i) => At(w, i, Peeking)
    case Look(i) => At(w, i, Asking) || At(w, i, Rechecking)
    case Insert(i) => (At(w, i, Inserting) || At(w, i, Reinserting)) && w.holder.None?
    case Commit(i) => At(w, i, Holding)
    case Abort(i) => At(w, i, Holding)
    case Submit(i, enqueued, raised) => At(w, i, Answered) && Submits(w.callers[i]) && (enqueued || raised)
    case Purge => w.row.Some?
  }

  function Classify(c: Caller, life: nat, rowHash: string): Caller {
    if rowHash != c.hash then c.(at := Answered, answer := Some(Conflict(life)))
    else c.(at := Answered, answer := Some(Replay(life)))
  }

  function Put(w: World, i: nat, c: Caller): World
    requires i < |w.callers|
  {
    w.(callers := w.callers[i := c])
  }

  predicate WellFormed(w: World) {
    w.row.Some? ==> w.row.value < |w.hashes|
  }

  function Apply(w: World, a: Act): World
    requires WellFormed(w) && Enabled(w, a)
  {
    match a
    case Arrive(kind, hash) =>
      w.(callers := w.callers + [Caller(kind, hash, if kind.Flagged? then Asking else Peeking, None)])
    case Peek(i) =>
      // The asynchronous handler answers from an existing row without reserving or submitting.
      Put(w, i, w.callers[i].(at := if w.row.Some? then Finished else Asking))
    case Look(i) =>
      var c := w.callers[i];
      if w.row.Some? then Put(w, i, Classify(c, w.row.value, w.hashes[w.row.value]))
      else Put(w, i, c.(at := if c.at.Asking? then Inserting else Reinserting))
    case Insert(i) =>
      var c := w.callers[i];
      if w.row.None? then Put(w, i, c.(at := Holding)).(holder := Some(i))
      else if c.at.Inserting? then Put(w, i, c.(at := Rechecking))
      else Put(w, i, c.(at := Finished, answer := Some(RawError)))
    case Commit(i) =>
      var life := |w.hashes|;
      Put(w, i, w.callers[i].(at := Answered, answer := Some(New(life)))).(
      row := Some(life), holder := None, hashes := w.hashes + [w.callers[i].hash], winners := w.winners + [i])
    case Abort(i) => Put(w, i, w.callers[i].(at := Finished, answer := Some(RawError))).(holder := None)
    case Submit(i, enqueued, raised) =>
      var done := Put(w, i, w.callers[i].(at := Finished));
      var sent := if enqueued then done.(submits := w.submits + [(i, LifeOf(w.callers[i].answer.value))]) else done;
      if raised then sent.(row := None) else sent
    case Purge => w.(row := None)
  }

  // ---------- Invariant ----------

  predicate Settled(p: Point) {
    p.Answered? || p.Finished?
  }

  ghost predicate CallerInv(w: World, i: nat)
    requires i < |w.callers|
  {
    var c := w.callers[i];
    && (c.at.Holding? <==> w.holder == Some(i))
    && (c.answer.Some? ==> Settled(c.at))
    && (c.at.Answered? ==> c.answer.Some?)
    && (c.answer.Some? && !c.answer.value.RawError? ==> LifeOf(c.answer.value) < |w.hashes|)
    && (forall l :: 0 <= l < |w.winners| ==> (c.answer == Some(New(l)) <==> w.winners[l] == i))
    && (c.answer.Some? && c.answer.value.New? ==> w.hashes[c.answer.value.life] == c.hash)
    && (c.answer.Some? && c.answer.value.Replay? ==> w.hashes[c.answer.value.life] == c.hash)
    && (c.answer.Some? && c.answer.value.Conflict? ==> w.hashes[c.answer.value.life] != c.hash)
  }

  ghost predicate SubmitInv(w: World, s: nat)
    requires s < |w.submits|
  {
    var i := w.submits[s].0;
    && i < |w.callers|
    && w.callers[i].at.Finished?
    && Submits(w.callers[i])
    && w.submits[s].1 == LifeOf(w.callers[i].answer.value)
  }

  ghost predicate Inv(w: World) {
    && |w.winners| == |w.hashes|
    && (w.row.Some? ==> w.row.value == |w.hashes| - 1)
    && (w.holder.Some? ==> w.holder.value < |w.callers| && w.row.None?)
    && (forall l :: 0 <= l < |w.winners| ==> w.winners[l] < |w.callers|)
    && (forall i :: 0 <= i < |w.callers| ==> CallerInv(w, i))
    && (forall s :: 0 <= s < |w.submits| ==> SubmitInv(w, s))
    && (forall s, t :: 0 <= s < t < |w.submits| ==> w.submits[s].0 != w.submits[t].0)
  }

  // A caller that is not the one acting sees at most a new lifetime that is not its own.
  lemma BystanderStep(w: World, a: Act, j: nat)
    requires Inv(w) && Enabled(w, a) && j < |w.callers| && Apply(w, a).callers[j] == w.callers[j]
    requires a.Commit? ==> a.i != j
    requires a.Insert? || a.Abort? ==> a.i != j
    ensures CallerInv(Apply(w, a), j)
  {
    assert CallerInv(w, j);
    match a
    case Commit(i) => assert CallerInv(w, i);
    case Insert(i) => assert CallerInv(w, i);
    case Abort(i) => assert CallerInv(w, i);
    case _ =>
  }

  predicate Acts(a: Act, j: nat) {
    !a.Arrive? && !a.Purge? && a.i == j
  }

  lemma ActorStep(w: World, a: Act, j: nat)
    requires Inv(w) && Enabled(w, a) && j < |w.callers| && Acts(a, j)
    ensures CallerInv(Apply(w, a), j)
  {
    assert CallerInv(w, j);
  }

  // What a step does to the caller that takes it and to all others.
  lemma CallersStep(w: World, a: Act, j: nat)
    requires Inv(w) && Enabled(w, a) && j < |Apply(w, a).callers|
    ensures CallerInv(Apply(w, a), j)
  {
    if j < |w.callers| {
      if Acts(a, j) {
        ActorStep(w, a, j);
      } else {
        BystanderStep(w, a, j);
      }
    }
  }

  lemma SubmitsStep(w: World, a: Act, s: nat)
    requires Inv(w) && Enabled(w, a) && s < |Apply(w, a).submits|
    ensures SubmitInv(Apply(w, a), s)
  {
    var w' := Apply(w, a);
    if s < |w.submits| {
      assert SubmitInv(w, s) && w'.submits[s] == w.submits[s];
      assert w'.callers[w.submits[s].0] == w.callers[w.submits[s].0];
    }
  }

  lemma StepKeepsInv(w: World, a: Act)
    requires Inv(w) && Enabled(w, a)
    ensures Inv(Apply(w, a))
  {
    var w' := Apply(w, a);
    forall j: nat | j < |w'.callers|
      ensures CallerInv(w', j)
    {
      CallersStep(w, a, j);
    }
    forall s: nat | s < |w'.submits|
      ensures SubmitInv(w', s)
    {
      SubmitsStep(w, a, s);
    }
    if a.Submit? {
      forall s | 0 <= s < |w.submits|
        ensures w.submits[s].0 != a.i
      {
        assert SubmitInv(w, s);
      }
    }
    if a.Commit? {
      assert CallerInv(w, a.i);
    }
  }

  // ---------- Runs ----------

  const Empty := World([], None, None, [], [], [])

  ghost predicate IsRun(ws: seq<World>, acts: seq<Act>) {
    && |ws| == |acts| + 1 && ws[0] == Empty
    && forall t :: 0 <= t < |acts| ==>
         WellFormed(ws[t]) && Enabled(ws[t], acts[t]) && ws[t + 1] == Apply(ws[t], acts[t])
  }

  lemma {:induction false} InvAlways(ws: seq<World>, acts: seq<Act>, t: nat)
    requires IsRun(ws, acts) && t < |ws|
    ensures Inv(ws[t])
  {
    if t > 0 {
      InvAlways(ws, acts, t - 1);
      StepKeepsInv(ws[t - 1], acts[t - 1]);
    }
  }

  /**
    Exactly one caller is told it made the reservation, per row lifetime; a
    replay is answered only with a row of the same body, a conflict only with a
    row of a different one.
  */
  lemma OneWinnerPerLifetime(ws: seq<World>, acts: seq<Act>, t: nat, life: nat)
    requires IsRun(ws, acts) && t < |ws| && life < |ws[t].hashes|
    ensures |ws[t].winners| == |ws[t].hashes|
    ensures exists i :: 0 <= i < |ws[t].callers| && ws[t].callers[i].answer == Some(New(life))
    ensures forall i :: 0 <= i < |ws[t].callers| ==>
              (ws[t].callers[i].answer == Some(New(life)) <==> i == ws[t].winners[life])
    ensures forall i :: 0 <= i < |ws[t].callers| && ws[t].callers[i].answer == Some(Replay(life)) ==>
              ws[t].hashes[life] == ws[t].callers[i].hash
    ensures forall i :: 0 <= i < |ws[t].callers| && ws[t].callers[i].answer == Some(Conflict(life)) ==>
              ws[t].hashes[life] != ws[t].callers[i].hash
  {
    InvAlways(ws, acts, t);
    var w := ws[t];
    assert CallerInv(w, w.winners[life]);
    forall i: nat | i < |w.callers|
      ensures w.callers[i].answer == Some(New(life)) <==> i == w.winners[life]
      ensures w.callers[i].answer == Some(Replay(life)) ==> w.hashes[life] == w.callers[i].hash
      ensures w.callers[i].answer == Some(Conflict(life)) ==> w.hashes[life] != w.callers[i].hash
    {
      assert CallerInv(w, i);
    }
  }

  // ---------- What the primary key guarantees ----------

  /** The row leaves the table: a purge, or the rollback of a failed submission. */
  predicate Removes(a: Act) {
    a.Purge? || (a.Submit? && a.raised)
  }

  /** A row that nobody removes stays, and shuts out every other insert. */
  lemma {:induction false} RowLasts(ws: seq<World>, acts: seq<Act>, t: nat, u: nat)
    requires IsRun(ws, acts) && t <= u < |ws| && ws[t].row.Some?
    requires forall x :: t <= x < u ==> !Removes(acts[x])
    ensures ws[u].row == ws[t].row && ws[u].hashes == ws[t].hashes && ws[u].winners == ws[t].winners
    decreases u
  {
    if t < u {
      RowLasts(ws, acts, t, u - 1);
      RowBlocks(ws, acts, u - 1);
    }
  }

  lemma HolderSeesNoRow(w: World, i: nat)
    requires Inv(w) && i < |w.callers| && w.callers[i].at.Holding?
    ensures w.row.None?
  {
    assert CallerInv(w, i);
  }

  lemma RowBlocks(ws: seq<World>, acts: seq<Act>, t: nat)
    requires IsRun(ws, acts) && t < |acts| && ws[t].row.Some? && !Removes(acts[t])
    ensures ws[t + 1].row == ws[t].row && ws[t + 1].hashes == ws[t].hashes && ws[t + 1].winners == ws[t].winners
  {
    InvAlways(ws, acts, t);
    if acts[t].Commit? {
      HolderSeesNoRow(ws[t], acts[t].i);
    }
  }

  /** Two reservations of one key, however they interleave, need a removal strictly between their commits. */
  lemma SecondWinnerNeedsRemoval(ws: seq<World>, acts: seq<Act>, a: nat, b: nat)
    requires IsRun(ws, acts) && a < b < |acts| && acts[a].Commit? && acts[b].Commit?
    ensures exists x :: a < x < b && Removes(acts[x])
  {
    if forall x :: a < x < b ==> !Removes(acts[x]) {
      RowLasts(ws, acts, a + 1, b);
      InvAlways(ws, acts, b);
      HolderSeesNoRow(ws[b], acts[b].i);
      assert false;
    }
  }

  /** Without removals one reservation is made at most. */
  lemma {:induction false} OneLifetime(ws: seq<World>, acts: seq<Act>, t: nat)
    requires IsRun(ws, acts) && t < |ws| && forall x :: 0 <= x < t ==> !Removes(acts[x])
    ensures |ws[t].hashes| <= 1 && (ws[t].hashes != [] ==> ws[t].row.Some?)
  {
    if t > 0 {
      OneLifetime(ws, acts, t - 1);
      if ws[t - 1].row.Some? {
        RowBlocks(ws, acts, t - 1);
      }
    }
  }

  /**
    In a run that removes no row, at most one caller is ever told it made the
    reservation, every other answer is about that same row, and at most one job
    comes from the synchronous and streaming handlers.
  */
  lemma OneReservation(ws: seq<World>, acts: seq<Act>, t: nat, i: nat, j: nat)
    requires IsRun(ws, acts) && t < |ws| && forall x :: 0 <= x < t ==> !Removes(acts[x])
    requires i < |ws[t].callers| && j < |ws[t].callers|
    requires ws[t].callers[i].answer.Some? && ws[t].callers[i].answer.value.New?
    ensures ws[t].callers[j].answer.Some? && ws[t].callers[j].answer.value.New? ==> i == j
    ensures ws[t].callers[j].answer.Some? && !ws[t].callers[j].answer.value.RawError? ==>
              LifeOf(ws[t].callers[j].answer.value) == LifeOf(ws[t].callers[i].answer.value)
    ensures forall a :: 0 <= a < |ws[t].submits| && Flagging(ws[t], a) ==> ws[t].submits[a].0 == i
    ensures forall a, b :: 0 <= a < b < |ws[t].submits| ==> ws[t].submits[a].0 != ws[t].submits[b].0
  {
    InvAlways(ws, acts, t);
    OneLifetime(ws, acts, t);
    var w := ws[t];
    assert CallerInv(w, i) && CallerInv(w, j);
    forall a: nat | a < |w.submits| && Flagging(w, a)
      ensures w.submits[a].0 == i
    {
      assert SubmitInv(w, a) && CallerInv(w, w.submits[a].0);
    }
  }

  /** The submission was made by a synchronous or streaming handler. */
  predicate Flagging(w: World, s: nat)
    requires s < |w.submits|
  {
    w.submits[s].0 < |w.callers| && w.callers[w.submits[s].0].kind.Flagged?
  }

  lemma FlaggedSubmitReserved(w: World, s: nat)
    requires Inv(w) && s < |w.submits|
    ensures w.submits[s].0 < |w.callers|
    ensures Flagging(w, s) ==> w.callers[w.submits[s].0].answer.Some? && w.callers[w.submits[s].0].answer.value.New?
  {
    assert SubmitInv(w, s);
  }

  /** The synchronous and streaming handlers put at most one job on the queue per reservation, namely the winner's. */
  lemma AtMostOneSubmit(ws: seq<World>, acts: seq<Act>, t: nat)
    requires IsRun(ws, acts) && t < |ws|
    requires forall i :: 0 <= i < |ws[t].callers| ==> ws[t].callers[i].kind.Flagged?
    ensures forall a, b :: 0 <= a < b < |ws[t].submits| ==> ws[t].submits[a].1 != ws[t].submits[b].1
    ensures forall a :: 0 <= a < |ws[t].submits| ==>
              ws[t].submits[a].1 < |ws[t].winners| && ws[t].winners[ws[t].submits[a].1] == ws[t].submits[a].0
    ensures |ws[t].submits| > 1 ==> exists x :: 0 <= x < t && Removes(acts[x])
  {
    InvAlways(ws, acts, t);
    var w := ws[t];
    if |w.submits| > 1 && forall x :: 0 <= x < t ==> !Removes(acts[x]) {
      FlaggedSubmitReserved(w, 0);
      FlaggedSubmitReserved(w, 1);
      assert Flagging(w, 0) && Flagging(w, 1);
      OneReservation(ws, acts, t, w.submits[0].0, w.submits[0].0);
      assert false;
    }
    forall a: nat | a < |w.submits|
      ensures w.submits[a].1 < |w.winners| && w.winners[w.submits[a].1] == w.submits[a].0
    {
      assert SubmitInv(w, a) && CallerInv(w, w.submits[a].0);
    }
  }

  /** Every job on the queue belongs to a reservation made with the submitting caller's own body, whatever the handler. */
  lemma SubmittedBodyMatches(ws: seq<World>, acts: seq<Act>, t: nat, a: nat)
    requires IsRun(ws, acts) && t < |ws| && a < |ws[t].submits|
    ensures ws[t].submits[a].0 < |ws[t].callers| && ws[t].submits[a].1 < |ws[t].hashes|
    ensures ws[t].hashes[ws[t].submits[a].1] == ws[t].callers[ws[t].submits[a].0].hash
  {
    InvAlways(ws, acts, t);
    assert SubmitInv(ws[t], a) && CallerInv(ws[t], ws[t].submits[a].0);
  }

  // ---------- The asynchronous handler ----------

  lemma RunStep(ws: seq<World>, acts: seq<Act>, a: Act)
    requires IsRun(ws, acts) && WellFormed(Last(ws)) && Enabled(Last(ws), a)
    ensures IsRun(ws + [Apply(Last(ws), a)], acts + [a])
  {
    var ws', acts' := ws + [Apply(Last(ws), a)], acts + [a];
    forall t | 0 <= t < |acts'|
      ensures WellFormed(ws'[t]) && Enabled(ws'[t], acts'[t]) && ws'[t + 1] == Apply(ws'[t], acts'[t])
    {
      if t < |acts| {
        assert ws'[t] == ws[t] && ws'[t + 1] == ws[t + 1];
      }
    }
  }

  ghost predicate Reachable(w: World) {
    exists ws, acts :: IsRun(ws, acts) && Last(ws) == w
  }

  lemma Reach(w: World, a: Act)
    requires Reachable(w) && WellFormed(w) && Enabled(w, a)
    ensures Reachable(Apply(w, a))
  {
    var ws, acts :| IsRun(ws, acts) && Last(ws) == w;
    RunStep(ws, acts, a);
    assert Last(ws + [Apply(w, a)]) == Apply(w, a);
  }

  /** The kinds and bodies of the requests, in order of arrival. */
  type Arrivals = seq<(Kind, string)>

  function ArrivalsOf(w: World): Arrivals {
    seq(|w.callers|, i requires 0 <= i < |w.callers| => (w.callers[i].kind, w.callers[i].hash))
  }

  /** Two jobs on the queue for one reservation. */
  ghost predicate SubmitsTwice(w: World) {
    exists a, b :: 0 <= a < b < |w.submits| && w.submits[a].1 == w.submits[b].1
  }

  /** An asynchronous request shares its body with another request. */
  ghost predicate Risky(arr: Arrivals) {
    exists u, v :: 0 <= u < |arr| && 0 <= v < |arr| && u != v && arr[u].1 == arr[v].1 && arr[u].0.Unflagged?
  }

  lemma TwiceNeedsRisk(w: World)
    requires Inv(w) && SubmitsTwice(w)
    ensures Risky(ArrivalsOf(w))
  {
    var a, b :| 0 <= a < b < |w.submits| && w.submits[a].1 == w.submits[b].1;
    var i, j := w.submits[a].0, w.submits[b].0;
    assert SubmitInv(w, a) && SubmitInv(w, b) && CallerInv(w, i) && CallerInv(w, j);
    var arr := ArrivalsOf(w);
    assert i != j && arr[i].1 == arr[j].1 && (arr[i].0.Unflagged? || arr[j].0.Unflagged?);
  }

  function Newcomer(r: (Kind, string)): Caller {
    Caller(r.0, r.1, if r.0.Flagged? then Asking else Peeking, None)
  }

  /** Everybody has arrived, nobody has looked yet. */
  function Waiting(arr: Arrivals): World {
    Empty.(callers := seq(|arr|, i requires 0 <= i < |arr| => Newcomer(arr[i])))
  }

  lemma {:induction false} ReachWaiting(arr: Arrivals)
    ensures Reachable(Waiting(arr))
  {
    if arr == [] {
      assert IsRun([Empty], []) && Last([Empty]) == Empty;
      assert Waiting(arr).callers == [];
    } else {
      var w := Waiting(Front(arr));
      ReachWaiting(Front(arr));
      Reach(w, Arrive(Last(arr).0, Last(arr).1));
      assert Waiting(arr).callers == w.callers + [Newcomer(Last(arr))];
    }
  }

  /** Caller i asks the table next, whichever handler it belongs to. */
  lemma ReachAsking(w: World, i: nat)
    requires Reachable(w) && i < |w.callers| && w.row.None? && w.callers[i] == Newcomer((w.callers[i].kind, w.callers[i].hash))
    ensures Reachable(w.(callers := w.callers[i := w.callers[i].(at := Asking)]))
  {
    if w.callers[i].kind.Flagged? {
      assert w.callers[i := w.callers[i].(at := Asking)] == w.callers;
    } else {
      Reach(w, Peek(i));
    }
  }

  /** Both callers are past the first look at the row, and it was not there. */
  lemma ReachBothAsking(arr: Arrivals, u: nat, v: nat)
    requires u < |arr| && v < |arr| && u != v
    ensures exists w :: Reachable(w) && BothAsking(w, arr, u, v)
  {
    ReachWaiting(arr);
    var w := Waiting(arr);
    ReachAsking(w, u);
    var w1 := w.(callers := w.callers[u := w.callers[u].(at := Asking)]);
    ReachAsking(w1, v);
    var w2 := w1.(callers := w1.callers[v := w1.callers[v].(at := Asking)]);
    assert ArrivalsOf(w2) == arr;
    assert BothAsking(w2, arr, u, v);
  }

  ghost predicate BothAsking(w: World, arr: Arrivals, u: nat, v: nat) {
    && ArrivalsOf(w) == arr && u < |w.callers| && v < |w.callers|
    && w == Empty.(callers := w.callers)
    && w.callers[u].at.Asking? && w.callers[v].at.Asking? && w.callers[u].answer.None? && w.callers[v].answer.None?
  }

  /** v reserves and u, which asked before the commit or after it, replays. */
  lemma ReachReplay(w: World, arr: Arrivals, u: nat, v: nat)
    requires Reachable(w) && BothAsking(w, arr, u, v) && u != v && arr[u].1 == arr[v].1
    ensures exists w' :: Reachable(w') && Raced(w', arr, u, v)
  {
    Reach(w, Look(v));
    var w1 := Apply(w, Look(v));
    Reach(w1, Insert(v));
    var w2 := Apply(w1, Insert(v));
    Reach(w2, Commit(v));
    var w3 := Apply(w2, Commit(v));
    assert w3.hashes == [arr[v].1] && w3.row == Some(0);
    assert ArrivalsOf(w3) == arr;
    ReachAnswer(w3, arr, u, v);
  }

  lemma ReachAnswer(w: World, arr: Arrivals, u: nat, v: nat)
    requires Reachable(w) && ArrivalsOf(w) == arr && u < |w.callers| && v < |w.callers| && u != v
    requires w.row == Some(0) && w.hashes == [arr[v].1] && arr[u].1 == arr[v].1 && w.submits == []
    requires w.callers[v].at.Answered? && w.callers[v].answer == Some(New(0))
    requires w.callers[u].at.Asking? && w.callers[u].answer.None?
    ensures exists w' :: Reachable(w') && Raced(w', arr, u, v)
  {
    assert ArrivalsOf(w)[u] == arr[u];
    Reach(w, Look(u));
    var w' := Apply(w, Look(u));
    assert ArrivalsOf(w') == arr;
    assert Raced(w', arr, u, v);
  }

  ghost predicate Raced(w: World, arr: Arrivals, u: nat, v: nat) {
    && ArrivalsOf(w) == arr && u < |w.callers| && v < |w.callers| && |w.hashes| == 1 && WellFormed(w) && w.submits == []
    && w.callers[v].at.Answered? && w.callers[v].answer == Some(New(0))
    && w.callers[u].at.Answered? && w.callers[u].answer == Some(Replay(0))
  }

  lemma ReachTwice(w: World, arr: Arrivals, u: nat, v: nat)
    requires Reachable(w) && Raced(w, arr, u, v) && u != v && arr[u].0.Unflagged?
    ensures exists w' :: Reachable(w') && ArrivalsOf(w') == arr && w'.hashes == w.hashes && w'.submits == [(v, 0), (u, 0)]
  {
    assert ArrivalsOf(w)[u] == arr[u];
    Reach(w, Submit(v, true, false));
    var w1 := Apply(w, Submit(v, true, false));
    assert w1.submits == [(v, 0)];
    Reach(w1, Submit(u, true, false));
    var w2 := Apply(w1, Submit(u, true, false));
    assert w2.submits == [(v, 0), (u, 0)];
    assert ArrivalsOf(w2) == arr;
  }

  /** The race, for any two such requests among any others. */
  lemma RaceSubmitsTwice(arr: Arrivals, u: nat, v: nat)
    requires u < |arr| && v < |arr| && u != v && arr[u].1 == arr[v].1 && arr[u].0.Unflagged?
    ensures exists w :: Reachable(w) && ArrivalsOf(w) == arr && |w.hashes| == 1 && w.submits == [(v, 0), (u, 0)]
  {
    ReachBothAsking(arr, u, v);
    var w :| Reachable(w) && BothAsking(w, arr, u, v);
    ReachReplay(w, arr, u, v);
    var w' :| Reachable(w') && Raced(w', arr, u, v);
    ReachTwice(w', arr, u, v);
  }

  /**
    Exactly when one reservation can put two jobs on the queue, decided by the
    requests alone: some asynchronous request shares its body with another request.
    With synchronous and streaming requests only, or with distinct bodies, never.
  */
  lemma SubmitsTwiceIff(arr: Arrivals)
    ensures (exists w :: Reachable(w) && ArrivalsOf(w) == arr && SubmitsTwice(w)) <==> Risky(arr)
  {
    if Risky(arr) {
      var u, v :| 0 <= u < |arr| && 0 <= v < |arr| && u != v && arr[u].1 == arr[v].1 && arr[u].0.Unflagged?;
      RaceSubmitsTwice(arr, u, v);
      var w :| Reachable(w) && ArrivalsOf(w) == arr && w.submits == [(v, 0), (u, 0)];
      assert w.submits[0].1 == w.submits[1].1;
    }
    if exists w :: Reachable(w) && ArrivalsOf(w) == arr && SubmitsTwice(w) {
      var w :| Reachable(w) && ArrivalsOf(w) == arr && SubmitsTwice(w);
      var ws, acts :| IsRun(ws, acts) && Last(ws) == w;
      InvAlways(ws, acts, |ws| - 1);
      TwiceNeedsRisk(w);
    }
  }

  /** Two racing asynchronous requests with one key put two jobs on the queue for one reservation. */
  lemma AsyncSubmitsTwice()
    ensures exists w :: Reachable(w) && |w.hashes| == 1 && w.submits == [(0, 0), (1, 0)]
  {
    RaceSubmitsTwice([(Unflagged, "h"), (Unflagged, "h")], 1, 0);
  }

  // ---------- The table behind the race ----------

  /** The idempotency table of one key that nobody else uses: at most this row, unexpired at time 0. */
  function TableOf(w: World): map<nat, Idempotency.Row>
    requires WellFormed(w)
  {
    if w.row.Some? then map[0 := Idempotency.Row(0, w.hashes[w.row.value], Processing, None, None, 1)] else map[]
  }

  predicate AtSameCaller(w: World, i: nat, c: Caller, p: Point) {
    WellFormed(w) && At(w, i, p) && w.callers[i].hash == c.hash && (p.Inserting? || p.Reinserting? ==> w.holder.None?)
  }

  /** An answer and the table's own outcome say the same. */
  predicate SameAnswer(a: Option<Answer>, r: Idempotency.Reservation) {
    && a.Some? && (a.value.Replay? <==> r.Replay?) && (a.value.Conflict? <==> r.Conflict?)
    && (a.value.RawError? <==> r.IntegrityError?) && (a.value.New? <==> r.New?)
  }

  /**
    A racing caller goes through `reserve_or_get` as the table does: whatever
    the worlds it meets at its four statements, it is answered, or allowed to
    insert, exactly as `Outcome` says for the tables of those worlds.
  */
  lemma RaceFollowsTable(w0: World, w1: World, w2: World, w3: World, i: nat, c: Caller)
    requires AtSameCaller(w0, i, c, Asking) && AtSameCaller(w1, i, c, Inserting)
    requires AtSameCaller(w2, i, c, Rechecking) && AtSameCaller(w3, i, c, Reinserting)
    ensures var r := Idempotency.Outcome(TableOf(w0), TableOf(w1), TableOf(w2), TableOf(w3), 0, 0, 0, c.hash, 1);
            if w0.row.Some? then SameAnswer(Apply(w0, Look(i)).callers[i].answer, r)
            else if w1.row.None? then r.New? && Apply(w1, Insert(i)).holder == Some(i)
            else if w2.row.Some? then SameAnswer(Apply(w2, Look(i)).callers[i].answer, r)
            else if w3.row.None? then r.New? && Apply(w3, Insert(i)).holder == Some(i)
            else SameAnswer(Apply(w3, Insert(i)).callers[i].answer, r)
  {
  }
}
