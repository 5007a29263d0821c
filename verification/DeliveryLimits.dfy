/**
  Where the protocol's documented promises stop: concrete runs in which they
  fail, and the exact condition under which a status promise holds.
*/
module DeliveryLimits {
  import opened Prelude
  import opened ResultStream
  import opened Delivery
  import opened DeliverySafety
  import opened DeliveryAudio

  ghost predicate Reachable(w: World) {
    exists ws, acts :: IsRun(ws, acts) && Last(ws) == w
  }

  lemma ReachStep(w: World, a: Act)
    requires Reachable(w) && Enabled(w, a)
    ensures Reachable(Apply(w, a))
  {
    var ws, acts :| IsRun(ws, acts) && Last(ws) == w;
    var ws', acts' := ws + [Apply(w, a)], acts + [a];
    forall t | 0 <= t < |acts'|
      ensures Enabled(ws'[t], acts'[t]) && ws'[t + 1] == Apply(ws'[t], acts'[t])
    {
      if t < |acts| {
        assert Enabled(ws[t], acts[t]) && ws'[t + 1] == ws[t + 1];
      }
    }
    assert IsRun(ws', acts') && Last(ws') == Apply(w, a);
  }

  function Start(maxRetries: int): World {
    World(maxRetries, [], 0, map[], [], [], None, [], 0, 0, [], false, [])
  }

  lemma StartReachable(maxRetries: int)
    ensures Reachable(Start(maxRetries))
  {
    assert IsRun([Start(maxRetries)], []) && Last([Start(maxRetries)]) == Start(maxRetries);
  }

  /** A handler that has emitted one piece at position `spot`. */
  function Spoken(delivery: nat, attempt: int, pc: Pc, mark: nat, piece: Bytes, spot: nat): Handler {
    Handler(0, delivery, pc, attempt, mark, [piece], [spot])
  }

  /** One entry, delivered once and handled once so far. */
  function Solo(maxRetries: int, h: Handler): World {
    Start(maxRetries).(jobs := [true], cursor := 1, pel := map[0 := 1],
    row := Some(Row(Processing, None, false)), handlers := [h])
  }

  lemma ReachDelivered(maxRetries: int)
    ensures Reachable(Solo(maxRetries, Handler(0, 1, Counting, 0, 0, [], [])))
  {
    StartReachable(maxRetries);
    var w0 := Start(maxRetries);
    ReachStep(w0, Reserve);
    var w1 := Apply(w0, Reserve);
    ReachStep(w1, Submit(true));
    var w2 := Apply(w1, Submit(true));
    ReachStep(w2, Fetch(0));
    assert Apply(w2, Fetch(0)) == Solo(maxRetries, Handler(0, 1, Counting, 0, 0, [], []));
  }

  lemma ReachSynthesizing(maxRetries: int)
    ensures Reachable(Solo(maxRetries, Handler(0, 1, Synthesizing, 1, 0, [], [])))
  {
    ReachDelivered(maxRetries);
    var w3 := Solo(maxRetries, Handler(0, 1, Counting, 0, 0, [], []));
    ReachStep(w3, Work(0, Count(1)));
    var w4 := Solo(maxRetries, Handler(0, 1, Resetting, 1, 0, [], []));
    assert Apply(w3, Work(0, Count(1))) == w4;
    ReachStep(w4, Work(0, Reset(Ok)));
    var w5 := Solo(maxRetries, Handler(0, 1, Resolving, 1, 0, [], []));
    assert Apply(w4, Work(0, Reset(Ok))) == w5;
    ReachStep(w5, Work(0, Resolve(Usable)));
    assert Apply(w5, Work(0, Resolve(Usable))) == Solo(maxRetries, Handler(0, 1, Synthesizing, 1, 0, [], []));
  }

  function Piece(attempt: int, b: Byte): TtsResult {
    TtsResult("", 0, [b], None, false, None, attempt)
  }

  function OnePiece(maxRetries: int, pc: Pc, log: seq<Event>): World {
    Solo(maxRetries, Spoken(1, 1, pc, 0, [7], 0)).(published := [Entry(0, Piece(1, 7))], log := log)
  }

  lemma OnePieceList()
    ensures forall b: Byte :: Flatten([[b]]) == [b]
  {
    forall b: Byte
      ensures Flatten([[b]]) == [b]
    {
      FlattenSnoc([], [b]);
      assert [] + [[b]] == [[b]];
    }
  }

  lemma ReachCommitting(maxRetries: int)
    ensures Reachable(OnePiece(maxRetries, Committing("uri"), [Archived(0, [7])]))
  {
    ReachSynthesizing(maxRetries);
    var w6 := Solo(maxRetries, Handler(0, 1, Synthesizing, 1, 0, [], []));
    ReachStep(w6, Work(0, Emit([7], None, Ok)));
    var w7 := OnePiece(maxRetries, Synthesizing, []);
    OnePieceList();
    assert w6.published + [Entry(0, Piece(1, 7))] == w7.published;
    assert w6.handlers[0].pieces + [[7]] == w7.handlers[0].pieces && w6.handlers[0].spots + [0] == w7.handlers[0].spots;
    assert Apply(w6, Work(0, Emit([7], None, Ok))) == w7;
    ReachStep(w7, Work(0, EngineEnd));
    var w8 := OnePiece(maxRetries, Archiving, []);
    assert Apply(w7, Work(0, EngineEnd)) == w8;
    ReachStep(w8, Work(0, Archive("uri", Ok)));
    assert Apply(w8, Work(0, Archive("uri", Ok))) == OnePiece(maxRetries, Committing("uri"), [Archived(0, [7])]);
  }

  // ---------- A final does not guarantee a `complete` status ----------

  /**
    A run in which the final has been published, the row is visible, and its
    status is `failed`: the XADD of the final raised after taking effect, and
    the retry budget was already spent.
  */
  lemma FinalWithoutComplete()
    ensures exists w :: Reachable(w) && FinalRecorded(w) && Visible(w.row) && w.row.value.status == Failed
  {
    ReachCommitting(1);
    var w0 := OnePiece(1, Committing("uri"), [Archived(0, [7])]);
    ReachStep(w0, Work(0, CommitTx(Ok)));
    var row := Some(Row(Complete, Some("uri"), false));
    var w1 := OnePiece(1, Finalizing, [Archived(0, [7]), Committed(0, "uri", row)]).(usage := [Usage(0, true)], row := row);
    assert Apply(w0, Work(0, CommitTx(Ok))) == w1;
    ReachStep(w1, Work(0, SendFinal(Late)));
    var w2 := Apply(w1, Work(0, SendFinal(Late)));
    assert w2.log[2].FinalSent?;
    assert w2.handlers == [Spoken(1, 1, Recounting, 0, [7], 0)] && w2.row == row && w2.usage == w1.usage && w2.maxRetries == 1;
    FailThenOverwrite(w2);
  }

  lemma FailThenOverwrite(w: World)
    requires Reachable(w) && FinalRecorded(w) && Visible(w.row) && w.jobs == [true] && w.maxRetries == 1
    requires |w.handlers| == 1 && w.handlers[0].pc.Recounting? && w.handlers[0].entry == 0
    ensures exists w' :: Reachable(w') && FinalRecorded(w') && Visible(w'.row) && w'.row.value.status == Failed
  {
    ReachStep(w, Work(0, Recount(1)));
    var w1 := Apply(w, Work(0, Recount(1)));
    ReachStep(w1, Work(0, SendError("failed", Ok)));
    var w2 := Apply(w1, Work(0, SendError("failed", Ok)));
    ReachStep(w2, Work(0, PersistFailure(Ok)));
    var w3 := Apply(w2, Work(0, PersistFailure(Ok)));
    var t :| 0 <= t < |w.log| && w.log[t].FinalSent?;
    assert w3.log[t].FinalSent?;
  }

  predicate Overwrites(a: Act) {
    a.Work? && a.op.PersistFailure? && Took(a.op.io)
  }

  /**
    Exactly when the committed status lasts: from a commit that wrote the
    visible row, as long as the row neither expires nor is removed, it reads
    `complete` with the committed URI if and only if no terminal failure has
    been persisted since.
  */
  lemma {:induction false} CompleteLastsIff(ws: seq<World>, acts: seq<Act>, c: nat, i: nat, u: nat)
    requires IsRun(ws, acts) && c < u < |ws|
    requires acts[c].Work? && acts[c].h == i && acts[c].op.CommitTx? && Took(acts[c].op.io) && Visible(ws[c].row)
    requires forall x :: c < x < u ==> !acts[x].RemoveRow? && !acts[x].Expire?
    ensures Visible(ws[u].row) && ws[u].usage != [] && ws[u].row.value.uri == ws[c + 1].row.value.uri
    ensures ws[u].row.value.status in {Complete, Failed}
    ensures ws[u].row.value.status == Complete <==> forall x :: c < x < u ==> !Overwrites(acts[x])
    decreases u
  {
    assert Enabled(ws[c], acts[c]);
    if u > c + 1 {
      CompleteLastsIff(ws, acts, c, i, u - 1);
      StatusStep(ws[u - 1], acts[u - 1]);
    }
  }

  lemma StatusWork(w: World, i: nat, op: Op)
    requires Enabled(w, Work(i, op)) && Visible(w.row) && w.usage != []
    ensures var w' := WorkStep(w, i, op);
            && w'.usage == w.usage
            && w'.row == if Overwrites(Work(i, op)) then Some(w.row.value.(status := Failed)) else w.row
  {
  }

  lemma StatusStep(w: World, a: Act)
    requires Enabled(w, a) && Visible(w.row) && w.usage != []
    requires !a.RemoveRow? && !a.Expire?
    ensures Visible(Apply(w, a).row) && Apply(w, a).usage != [] && Apply(w, a).row.value.uri == w.row.value.uri
    ensures Apply(w, a).row.value.status == if Overwrites(a) then Failed else w.row.value.status
  {
    if a.Work? {
      StatusWork(w, a.h, a.op);
    }
  }

  // ---------- A final after a persisted failure ----------

  /** The one remaining entry was delivered again, and the second handler is at `pc`. */
  function Rival(w: World, pc: Pc): World
    requires |w.handlers| >= 1
  {
    w.(pel := map[0 := 2], handlers := [w.handlers[0], Handler(0, 2, pc, 2, 0, [], [])])
  }

  lemma ReachRivalRecounting(w: World)
    requires Reachable(w) && |w.handlers| == 1 && w.jobs == [true] && w.cursor == 1 && w.pel == map[0 := 1]
    ensures Reachable(Rival(w, Recounting))
  {
    ReachStep(w, Fetch(0));
    var w1 := Rival(w, Counting).(handlers := [w.handlers[0], Handler(0, 2, Counting, 0, 0, [], [])]);
    assert Apply(w, Fetch(0)) == w1;
    ReachStep(w1, Work(1, Count(2)));
    assert Apply(w1, Work(1, Count(2))) == Rival(w, Resetting);
    ReachStep(Rival(w, Resetting), Work(1, Reset(Lost)));
    assert Apply(Rival(w, Resetting), Work(1, Reset(Lost))) == Rival(w, Recounting);
  }

  lemma RivalFails(w: World)
    requires Reachable(w) && |w.handlers| == 2 && w.jobs == [true] && w.pel == map[0 := 2] && w.maxRetries == 2
    requires w.handlers[0].pc.Finalizing? && w.handlers[1].pc.Recounting? && w.handlers[1].entry == 0
    requires !FinalRecorded(w)
    ensures exists w' :: Reachable(w') && FailureRecorded(w') && !FinalRecorded(w') && SomeoneFinalizing(w')
  {
    ReachStep(w, Work(1, Recount(2)));
    var w1 := Apply(w, Work(1, Recount(2)));
    ReachStep(w1, Work(1, SendError("failed", Ok)));
    var w2 := Apply(w1, Work(1, SendError("failed", Ok)));
    ReachStep(w2, Work(1, PersistFailure(Ok)));
    var w3 := Apply(w2, Work(1, PersistFailure(Ok)));
    assert w3.log == w.log + [ErrorSent(1), FailPersisted(1)];
    assert w3.log[|w.log| + 1].FailPersisted? && w3.handlers[0].pc.Finalizing?;
  }

  /**
    A run in which a failure has been persisted while an attempt that had
    committed has yet to publish its final: another attempt could not delete
    the stream, and that delivery exhausted the budget.
  */
  lemma FailureBeforeFinal()
    ensures exists w :: Reachable(w) && FailureRecorded(w) && !FinalRecorded(w) && SomeoneFinalizing(w)
  {
    ReachCommitting(2);
    var w0 := OnePiece(2, Committing("uri"), [Archived(0, [7])]);
    ReachStep(w0, Work(0, CommitTx(Ok)));
    var w1 := Apply(w0, Work(0, CommitTx(Ok)));
    assert w1.handlers == [Spoken(1, 1, Finalizing, 0, [7], 0)];
    ReachRivalRecounting(w1);
    RivalFails(Rival(w1, Recounting));
  }

  // ---------- Why the audio theorem needs its conditions ----------

  /** A drain of everything fetched ends without error at handler k's final, with this audio. */
  ghost predicate DrainsTo(w: World, k: nat, pcm: Bytes) {
    && Fetches(w)
    && exists t: nat, n: nat :: DrainedAt(Fetched(w), t, Drained(pcm, n, None)) && w.published[w.got[t]].who == k
  }

  /** Nothing was deleted since handler k cleared the stream. */
  ghost predicate Undisturbed(w: World, k: nat) {
    k < |w.handlers| && w.cut <= w.handlers[k].mark
  }

  /**
    A later attempt that starts before the final is read truncates the audio
    silently: the committed attempt's chunk is deleted, its final is not.
  */
  lemma LateStartTruncates()
    ensures exists w :: Reachable(w) && Archived(0, [7]) in w.log && DrainsTo(w, 0, [])
  {
    ReachCommitting(3);
    var w0 := OnePiece(3, Committing("uri"), [Archived(0, [7])]);
    ReachStep(w0, Work(0, CommitTx(Ok)));
    var w1 := Apply(w0, Work(0, CommitTx(Ok)));
    var h0 := Spoken(1, 1, Finalizing, 0, [7], 0);
    assert w1.handlers == [h0] && w1.published == w0.published && w1.cut == 0 && w1.got == [] && w1.pos == 0;
    assert Archived(0, [7]) in w1.log;
    RestartWipes(w1, h0);
  }

  lemma RestartWipes(w1: World, h0: Handler)
    requires Reachable(w1) && w1.handlers == [h0] && h0 == Spoken(1, 1, Finalizing, 0, [7], 0)
    requires w1.jobs == [true] && w1.cursor == 1 && w1.pel == map[0 := 1] && |w1.published| == 1
    requires w1.cut == 0 && w1.pos == 0 && w1.got == [] && !w1.readerDone && Archived(0, [7]) in w1.log
    ensures exists w :: Reachable(w) && Archived(0, [7]) in w.log && DrainsTo(w, 0, [])
  {
    ReachStep(w1, Fetch(0));
    var w2 := w1.(pel := map[0 := 2], handlers := [h0, Handler(0, 2, Counting, 0, 0, [], [])]);
    assert Apply(w1, Fetch(0)) == w2;
    ReachStep(w2, Work(1, Count(2)));
    var w3 := w2.(handlers := [h0, Handler(0, 2, Resetting, 2, 0, [], [])]);
    assert Apply(w2, Work(1, Count(2))) == w3;
    ReachStep(w3, Work(1, Reset(Ok)));
    var w4 := w3.(cut := 1, handlers := [h0, Handler(0, 2, Resolving, 2, 1, [], [])]);
    assert Apply(w3, Work(1, Reset(Ok))) == w4;
    ReadOnlyFinal(w4, h0);
  }

  lemma ReadOnlyFinal(w: World, h0: Handler)
    requires Reachable(w) && |w.handlers| == 2 && w.handlers[0] == h0 == Spoken(1, 1, Finalizing, 0, [7], 0)
    requires w.jobs == [true] && |w.published| == 1 && w.cut == 1 && w.pos == 0 && w.got == [] && !w.readerDone
    requires Archived(0, [7]) in w.log
    ensures exists w' :: Reachable(w') && Archived(0, [7]) in w'.log && DrainsTo(w', 0, [])
  {
    ReachStep(w, Work(0, SendFinal(Ok)));
    var w1 := Apply(w, Work(0, SendFinal(Ok)));
    ReachStep(w1, Poll(1));
    var w2 := Apply(w1, Poll(1));
    assert w2.got == [1] && w2.published[1] == Entry(0, FinalChunk(h0));
    assert Fetched(w2) == [FinalChunk(h0)];
    assert StopsAt(Fetched(w2), 0) && Fetched(w2)[..0] == [];
    assert DrainedAt(Fetched(w2), 0, Drained([], |Audio(Fetched(w2)[..0], Fetched(w2)[0].attempt)|, None));
    assert Archived(0, [7]) in w1.log;
  }

  function Twin(pc0: Pc, pc1: Pc, attempt: int): World {
    Solo(3, Handler(0, 1, pc0, attempt, 0, [], [])).(
    pel := map[0 := 2],
    handlers := [Handler(0, 1, pc0, attempt, 0, [], []), Handler(0, 2, pc1, attempt, 0, [], [])])
  }

  // Both handlers read the delivery count only after the second delivery.
  lemma ReachTwins()
    ensures Reachable(Twin(Synthesizing, Synthesizing, 2))
  {
    ReachDelivered(3);
    var w0 := Solo(3, Handler(0, 1, Counting, 0, 0, [], []));
    ReachStep(w0, Fetch(0));
    var w1 := Twin(Counting, Counting, 0);
    assert Apply(w0, Fetch(0)) == w1;
    ReachStep(w1, Work(0, Count(2)));
    var w2 := w1.(handlers := w1.handlers[0 := Handler(0, 1, Resetting, 2, 0, [], [])]);
    assert Apply(w1, Work(0, Count(2))) == w2;
    ReachStep(w2, Work(1, Count(2)));
    assert Apply(w2, Work(1, Count(2))) == Twin(Resetting, Resetting, 2);
    TwinsSynthesize();
  }

  lemma TwinsSynthesize()
    requires Reachable(Twin(Resetting, Resetting, 2))
    ensures Reachable(Twin(Synthesizing, Synthesizing, 2))
  {
    var w0 := Twin(Resetting, Resetting, 2);
    ReachStep(w0, Work(0, Reset(Ok)));
    assert Apply(w0, Work(0, Reset(Ok))) == Twin(Resolving, Resetting, 2);
    ReachStep(Twin(Resolving, Resetting, 2), Work(1, Reset(Ok)));
    assert Apply(Twin(Resolving, Resetting, 2), Work(1, Reset(Ok))) == Twin(Resolving, Resolving, 2);
    TwinsResolve();
  }

  lemma TwinsResolve()
    requires Reachable(Twin(Resolving, Resolving, 2))
    ensures Reachable(Twin(Synthesizing, Synthesizing, 2))
  {
    ReachStep(Twin(Resolving, Resolving, 2), Work(0, Resolve(Usable)));
    assert Apply(Twin(Resolving, Resolving, 2), Work(0, Resolve(Usable))) == Twin(Synthesizing, Resolving, 2);
    ReachStep(Twin(Synthesizing, Resolving, 2), Work(1, Resolve(Usable)));
    assert Apply(Twin(Synthesizing, Resolving, 2), Work(1, Resolve(Usable))) == Twin(Synthesizing, Synthesizing, 2);
  }

  function Spoken2(pc0: Pc, pc1: Pc, log: seq<Event>): World {
    Twin(pc0, pc1, 2).(
    handlers := [Spoken(1, 2, pc0, 0, [7], 0), Spoken(2, 2, pc1, 0, [9], 1)],
    published := [Entry(0, Piece(2, 7)), Entry(1, Piece(2, 9))],
    log := log)
  }

  function FirstSpoke(): World {
    var w := Twin(Synthesizing, Synthesizing, 2);
    w.(handlers := [Spoken(1, 2, Synthesizing, 0, [7], 0), w.handlers[1]], published := [Entry(0, Piece(2, 7))])
  }

  lemma ReachFirstSpoke()
    ensures Reachable(FirstSpoke())
  {
    ReachTwins();
    var w0, w1 := Twin(Synthesizing, Synthesizing, 2), FirstSpoke();
    ReachStep(w0, Work(0, Emit([7], None, Ok)));
    assert [] + [[7]] == [[7]];
    assert w0.handlers[0].pieces + [[7]] == w1.handlers[0].pieces && w0.handlers[0].spots + [0] == w1.handlers[0].spots;
    assert w0.published + [Entry(0, Piece(2, 7))] == w1.published;
    assert Apply(w0, Work(0, Emit([7], None, Ok))) == w1;
  }

  lemma ReachSpokenTwins()
    ensures Reachable(Spoken2(Synthesizing, Synthesizing, []))
  {
    ReachFirstSpoke();
    var w1, w2 := FirstSpoke(), Spoken2(Synthesizing, Synthesizing, []);
    ReachStep(w1, Work(1, Emit([9], None, Ok)));
    assert w1.handlers[1].pieces + [[9]] == w2.handlers[1].pieces && w1.handlers[1].spots + [1] == w2.handlers[1].spots;
    assert w1.published + [Entry(1, Piece(2, 9))] == w2.published;
    assert Apply(w1, Work(1, Emit([9], None, Ok))) == w2;
  }

  /**
    Two attempts that share an epoch number mix their audio: nothing is deleted
    after the finishing attempt's own start, the drain reports no error, and
    yet it returns the other attempt's byte.
  */
  lemma SharedEpochMixesAudio()
    ensures exists w :: Reachable(w) && Archived(1, [9]) in w.log && Undisturbed(w, 1) && DrainsTo(w, 1, [7])
  {
    ReachSpokenTwins();
    OnePieceList();
    var w0 := Spoken2(Synthesizing, Synthesizing, []);
    ReachStep(w0, Work(1, EngineEnd));
    var w1 := Spoken2(Synthesizing, Archiving, []);
    assert Apply(w0, Work(1, EngineEnd)) == w1;
    ReachStep(w1, Work(1, Archive("uri", Ok)));
    var w2 := Spoken2(Synthesizing, Committing("uri"), [Archived(1, [9])]);
    assert Apply(w1, Work(1, Archive("uri", Ok))) == w2;
    ReachStep(w2, Work(1, CommitTx(Ok)));
    var w3 := Apply(w2, Work(1, CommitTx(Ok)));
    var h1 := Spoken(2, 2, Finalizing, 0, [9], 1);
    assert w3.handlers[1] == h1 && w3.published == w2.published && w3.got == [];
    assert Archived(1, [9]) in w3.log;
    ReadMixed(w3, h1);
  }

  lemma ReadMixed(w: World, h1: Handler)
    requires Reachable(w) && |w.handlers| == 2 && w.handlers[1] == h1 == Spoken(2, 2, Finalizing, 0, [9], 1)
    requires w.jobs == [true] && w.published == [Entry(0, Piece(2, 7)), Entry(1, Piece(2, 9))]
    requires w.cut == 0 && w.pos == 0 && w.got == [] && !w.readerDone && Archived(1, [9]) in w.log
    ensures exists w' :: Reachable(w') && Archived(1, [9]) in w'.log && Undisturbed(w', 1) && DrainsTo(w', 1, [7])
  {
    ReachStep(w, Work(1, SendFinal(Ok)));
    var w1 := Apply(w, Work(1, SendFinal(Ok)));
    assert w1.published == w.published + [Entry(1, FinalChunk(h1))] && w1.handlers[1].mark == 0;
    assert Archived(1, [9]) in w1.log;
    ReachStep(w1, Poll(3));
    var w2 := Apply(w1, Poll(3));
    assert w2.got == [0, 1, 2];
    DrainMixed(w2, h1);
  }

  lemma DrainMixed(w: World, h1: Handler)
    requires h1 == Spoken(2, 2, Finalizing, 0, [9], 1) && w.got == [0, 1, 2]
    requires w.published == [Entry(0, Piece(2, 7)), Entry(1, Piece(2, 9))] + [Entry(1, FinalChunk(h1))]
    ensures DrainsTo(w, 1, [7])
  {
    var es := [Piece(2, 7), Piece(2, 9), FinalChunk(h1)];
    assert Fetched(w) == es;
    MixedDrained(es);
  }

  lemma MixedDrained(es: seq<TtsResult>)
    requires es == [Piece(2, 7), Piece(2, 9), TtsResult("", 1, [], None, true, None, 2)]
    ensures exists n: nat :: DrainedAt(es, 2, Drained([7], n, None))
  {
    MixedAudio(es);
    var n := |Audio(es[..2], 2)|;
    assert DrainedAt(es, 2, Drained([7], n, None));
  }

  lemma MixedAudio(es: seq<TtsResult>)
    requires es == [Piece(2, 7), Piece(2, 9), TtsResult("", 1, [], None, true, None, 2)]
    ensures StopsAt(es, 2) && Flatten(Audio(es[..2], 2)) == [7]
  {
    OnePieceList();
    var one, two := [Piece(2, 7)], [Piece(2, 7), Piece(2, 9)];
    assert es[..2] == two && Front(two) == one && Front(one) == [];
    assert SameSlot(two[0], two[1]);
    assert Audio(one, 2) == [[7]] by {
      assert Audio([], 2) + [[7]] == [[7]];
    }
    assert Audio(two, 2) == [[7]];
    assert !Ends(two, 0) && !Ends(two, 1);
  }
}
