/**
  End-to-end audio: what the synchronous drain returns, against what the
  finishing attempt archived.
*/
module DeliveryAudio {
  import opened Prelude
  import opened ResultStream
  import opened Delivery
  import opened DeliverySafety

  // ---------- What each handler has put on the stream ----------

  predicate IsPiece(e: Entry, i: nat, h: Handler, q: nat)
    requires q < |h.pieces|
  {
    e.who == i && !Terminal(e.chunk) && e.chunk.seqNo == q && e.chunk.attempt == h.attempt && e.chunk.pcm == h.pieces[q]
  }

  /** The handler's buffered pieces are on the stream, in order, after its own DEL. */
  ghost predicate PiecesPublished(w: World, i: nat)
    requires i < |w.handlers|
  {
    var h := w.handlers[i];
    && |h.spots| == |h.pieces|
    && h.mark <= |w.published|
    && (forall q :: 0 <= q < |h.spots| ==> h.mark <= h.spots[q] < |w.published| && IsPiece(w.published[h.spots[q]], i, h, q))
    && (forall q, r :: 0 <= q < r < |h.spots| ==> h.spots[q] < h.spots[r])
    && (h.pc.Counting? || h.pc.Resetting? ==> h.spots == [])
  }

  /** While a final is still possible, and once it is out, nothing but the buffered pieces is on the stream. */
  ghost predicate NothingElse(w: World, i: nat)
    requires i < |w.handlers|
  {
    !PastFinal(w.handlers[i].pc) || HasFinal(w.log, i) ==>
      forall p :: 0 <= p < |w.published| && w.published[p].who == i && !Terminal(w.published[p].chunk) ==>
        p in w.handlers[i].spots
  }

  /** Who may have written an entry, and what a final entry implies. */
  ghost predicate EntrySound(w: World, p: nat)
    requires p < |w.published|
  {
    var e := w.published[p];
    && e.who < |w.handlers|
    && !w.handlers[e.who].pc.Counting?
    && (!Terminal(e.chunk) || e.chunk.final ==> e.chunk.attempt == w.handlers[e.who].attempt)
    && (e.chunk.final ==> HasFinal(w.log, e.who) && forall s :: s in w.handlers[e.who].spots ==> s < p)
  }

  predicate PastArchive(pc: Pc) {
    !(pc.Counting? || pc.Resetting? || pc.Resolving? || pc.Synthesizing? || pc.Archiving?)
  }

  /** An archived artifact holds the handler's pieces, which no longer change. */
  ghost predicate ArchivesAgree(w: World) {
    forall t :: 0 <= t < |w.log| && w.log[t].Archived? ==>
      && w.log[t].who < |w.handlers|
      && PastArchive(w.handlers[w.log[t].who].pc)
      && w.log[t].pcm == Flatten(w.handlers[w.log[t].who].pieces)
  }

  ghost predicate StreamInv(w: World) {
    && (forall i :: 0 <= i < |w.handlers| ==> PiecesPublished(w, i) && NothingElse(w, i))
    && (forall p :: 0 <= p < |w.published| ==> EntrySound(w, p))
    && ArchivesAgree(w)
  }

  /** The shape of a handler's step on the stream: at most one entry, its own. */
  lemma StreamShape(w: World, i: nat, op: Op)
    requires Enabled(w, Work(i, op))
    ensures var w' := WorkStep(w, i, op);
            && w.published <= w'.published && |w'.published| <= |w.published| + 1
            && (w'.published != w.published ==> Last(w'.published).who == i)
  {
  }

  lemma PiecesEmit(w: World, i: nat, op: Op)
    requires StreamInv(w) && Enabled(w, Work(i, op)) && op.Emit? && op.io.Ok?
    ensures PiecesPublished(WorkStep(w, i, op), i)
  {
    assert PiecesPublished(w, i);
    var h, w' := w.handlers[i], WorkStep(w, i, op);
    var h' := w'.handlers[i];
    assert h'.pieces == h.pieces + [op.pcm] && h'.spots == h.spots + [|w.published|];
    forall q | 0 <= q < |h'.spots|
      ensures h'.mark <= h'.spots[q] < |w'.published| && IsPiece(w'.published[h'.spots[q]], i, h', q)
    {
      if q < |h.spots| {
        assert IsPiece(w.published[h.spots[q]], i, h, q);
      }
    }
  }

  lemma PiecesWork(w: World, i: nat, op: Op)
    requires StreamInv(w) && Enabled(w, Work(i, op))
    ensures PiecesPublished(WorkStep(w, i, op), i)
  {
    assert PiecesPublished(w, i);
    if op.Emit? && op.io.Ok? {
      PiecesEmit(w, i, op);
    } else {
      StreamShape(w, i, op);
      var h, w' := w.handlers[i], WorkStep(w, i, op);
      var h' := w'.handlers[i];
      assert h'.pieces == h.pieces && h'.spots == h.spots;
      forall q | 0 <= q < |h.spots|
        ensures h'.mark <= h.spots[q] < |w'.published| && IsPiece(w'.published[h.spots[q]], i, h', q)
      {
        assert IsPiece(w.published[h.spots[q]], i, h, q);
      }
    }
  }

  lemma NothingElseWork(w: World, i: nat, op: Op)
    requires Inv(w) && StreamInv(w) && Enabled(w, Work(i, op))
    ensures NothingElse(WorkStep(w, i, op), i)
  {
    var w' := WorkStep(w, i, op);
    WorkShape(w, i, op);
    StreamShape(w, i, op);
    assert NothingElse(w, i);
    if w'.log != w.log {
      assert w'.log == w.log + [Last(w'.log)];
      HistoryGrows(w.log, Last(w'.log), i);
    } else {
      assert w'.log == w.log;
    }
    assert HasFinal(w.log, i) ==> PastFinal(w.handlers[i].pc);
  }

  // A new audio piece comes after every older final, because its publisher has none.
  lemma OldEntryWork(w: World, i: nat, op: Op, p: nat)
    requires Inv(w) && StreamInv(w) && Enabled(w, Work(i, op)) && p < |w.published|
    ensures EntrySound(WorkStep(w, i, op), p)
  {
    var w' := WorkStep(w, i, op);
    WorkShape(w, i, op);
    StreamShape(w, i, op);
    var j := w.published[p].who;
    assert EntrySound(w, p) && w'.published[p] == w.published[p];
    if w'.log != w.log {
      assert w'.log == w.log + [Last(w'.log)];
      HistoryGrows(w.log, Last(w'.log), j);
    } else {
      assert w'.log == w.log;
    }
    if j == i {
      assert HasFinal(w.log, i) ==> PastFinal(w.handlers[i].pc);
      assert PastFinal(w.handlers[i].pc) ==> w'.handlers[i].spots == w.handlers[i].spots;
      assert !w.handlers[i].pc.Counting? ==> w'.handlers[i].attempt == w.handlers[i].attempt;
    }
  }

  lemma NewEntryWork(w: World, i: nat, op: Op)
    requires Inv(w) && StreamInv(w) && Enabled(w, Work(i, op)) && WorkStep(w, i, op).published != w.published
    ensures EntrySound(WorkStep(w, i, op), |w.published|)
  {
    var w' := WorkStep(w, i, op);
    assert PiecesPublished(w, i);
    if op.SendFinal? {
      assert w'.log == w.log + [FinalSent(i, |w.published|)];
      HistoryGrows(w.log, Last(w'.log), i);
      forall s | s in w.handlers[i].spots
        ensures s < |w.published|
      {
      }
    }
  }

  lemma ArchiveFixed(w: World, i: nat, op: Op)
    requires Enabled(w, Work(i, op))
    ensures var h, w' := w.handlers[i], WorkStep(w, i, op);
            && (PastArchive(h.pc) ==> PastArchive(w'.handlers[i].pc) && w'.handlers[i].pieces == h.pieces)
            && (w'.log != w.log && Last(w'.log).Archived? ==>
                  PastArchive(w'.handlers[i].pc) && Last(w'.log).pcm == Flatten(w'.handlers[i].pieces))
  {
  }

  lemma ArchivesPersist(w: World, w': World, i: nat)
    requires ArchivesAgree(w) && i < |w.handlers| == |w'.handlers|
    requires forall j :: 0 <= j < |w.handlers| && j != i ==> w'.handlers[j] == w.handlers[j]
    requires w.log <= w'.log && |w'.log| <= |w.log| + 1 && (w'.log != w.log ==> Last(w'.log).who == i)
    requires PastArchive(w.handlers[i].pc) ==>
      PastArchive(w'.handlers[i].pc) && w'.handlers[i].pieces == w.handlers[i].pieces
    requires w'.log != w.log && Last(w'.log).Archived? ==>
      PastArchive(w'.handlers[i].pc) && Last(w'.log).pcm == Flatten(w'.handlers[i].pieces)
    ensures ArchivesAgree(w')
  {
    assert forall t :: 0 <= t < |w.log| ==> w'.log[t] == w.log[t];
  }

  lemma ArchivesWork(w: World, i: nat, op: Op)
    requires ArchivesAgree(w) && Enabled(w, Work(i, op))
    ensures ArchivesAgree(WorkStep(w, i, op))
  {
    WorkShape(w, i, op);
    ArchiveFixed(w, i, op);
    ArchivesPersist(w, WorkStep(w, i, op), i);
  }

  lemma StreamPersists(w: World, w': World, j: nat)
    requires j < |w.handlers| && j < |w'.handlers| && w'.handlers[j] == w.handlers[j]
    requires w.published <= w'.published && |w'.published| <= |w.published| + 1
    requires w'.published != w.published ==> Last(w'.published).who != j
    requires w.log <= w'.log && |w'.log| <= |w.log| + 1
    requires w'.log != w.log ==> Last(w'.log).who != j
    requires PiecesPublished(w, j) && NothingElse(w, j)
    ensures PiecesPublished(w', j) && NothingElse(w', j)
  {
    if w'.log != w.log {
      assert w'.log == w.log + [Last(w'.log)];
      HistoryGrows(w.log, Last(w'.log), j);
    } else {
      assert w'.log == w.log;
    }
  }

  lemma StepKeepsStream(w: World, a: Act)
    requires Inv(w) && StreamInv(w) && Enabled(w, a)
    ensures StreamInv(Apply(w, a))
  {
    var w' := Apply(w, a);
    if a.Work? {
      WorkShape(w, a.h, a.op);
      StreamShape(w, a.h, a.op);
      PiecesWork(w, a.h, a.op);
      NothingElseWork(w, a.h, a.op);
      ArchivesWork(w, a.h, a.op);
      forall p: nat | p < |w'.published|
        ensures EntrySound(w', p)
      {
        if p < |w.published| {
          OldEntryWork(w, a.h, a.op, p);
        } else {
          NewEntryWork(w, a.h, a.op);
        }
      }
      forall j: nat | j < |w'.handlers|
        ensures PiecesPublished(w', j) && NothingElse(w', j)
      {
        if j != a.h {
          StreamPersists(w, w', j);
        }
      }
    } else {
      OtherKeepsStream(w, a);
    }
  }

  lemma OtherKeepsStream(w: World, a: Act)
    requires Inv(w) && StreamInv(w) && Enabled(w, a) && !a.Work?
    ensures StreamInv(Apply(w, a))
  {
    var w' := Apply(w, a);
    assert w'.log == w.log && w'.published == w.published && w.handlers <= w'.handlers;
    forall j: nat | j < |w'.handlers|
      ensures PiecesPublished(w', j) && NothingElse(w', j)
    {
      if j < |w.handlers| {
        StreamPersists(w, w', j);
      } else {
        forall p: nat | p < |w.published|
          ensures w.published[p].who != j
        {
          assert EntrySound(w, p);
        }
      }
    }
    forall p: nat | p < |w'.published|
      ensures EntrySound(w', p)
    {
      assert EntrySound(w, p);
    }
  }

  // ---------- What the reader has fetched ----------

  /** Positions are fetched in increasing order, and nothing still on the stream below `pos` was missed. */
  ghost predicate ReaderInv(w: World) {
    && w.cut <= |w.published| && w.pos <= |w.published|
    && (forall t :: 0 <= t < |w.got| ==> w.got[t] < w.pos)
    && (forall s, t :: 0 <= s < t < |w.got| ==> w.got[s] < w.got[t])
    && (forall p :: w.cut <= p < w.pos ==> p in w.got)
  }

  lemma StepKeepsReader(w: World, a: Act)
    requires ReaderInv(w) && Enabled(w, a)
    ensures ReaderInv(Apply(w, a))
  {
    var w' := Apply(w, a);
    match a
    case Poll(n) =>
      var from := Max(w.cut, w.pos);
      var fetched := seq(n, k => from + k);
      assert w'.got == w.got + fetched;
      forall p | w'.cut <= p < w'.pos
        ensures p in w'.got
      {
        if p >= from {
          assert fetched[p - from] == p && w'.got[|w.got| + (p - from)] == p;
        } else {
          assert p in w.got;
        }
      }
    case Work(i, op) =>
      StreamShape(w, i, op);
      assert w'.got == w.got && w'.pos == w.pos && (w'.cut == w.cut || w'.cut == |w.published|);
    case _ =>
  }

  lemma {:induction false} AllInvAlways(ws: seq<World>, acts: seq<Act>, t: nat)
    requires IsRun(ws, acts) && t < |ws|
    ensures Inv(ws[t]) && StreamInv(ws[t]) && ReaderInv(ws[t])
  {
    if t > 0 {
      AllInvAlways(ws, acts, t - 1);
      StepKeepsInv(ws[t - 1], acts[t - 1]);
      StepKeepsStream(ws[t - 1], acts[t - 1]);
      StepKeepsReader(ws[t - 1], acts[t - 1]);
    }
  }

  // ---------- The drained audio is the archived audio ----------

  predicate Fetches(w: World) {
    forall t :: 0 <= t < |w.got| ==> w.got[t] < |w.published|
  }

  /** Entry j is audio of attempt a and the first to carry its number: the drain keeps it. */
  predicate Audible(es: seq<TtsResult>, a: int, j: nat) {
    j < |es| && !Terminal(es[j]) && es[j].attempt == a && FirstOfSlot(es, j)
  }

  lemma AudibleFront(es: seq<TtsResult>, a: int, j: nat)
    requires es != [] && j < |es| - 1
    ensures Audible(Front(es), a, j) == Audible(es, a, j)
  {
  }

  /** If the entries the drain keeps are those at positions idx, in order, its audio is their payloads. */
  lemma {:induction false} AudioIs(es: seq<TtsResult>, a: int, idx: seq<nat>, pieces: seq<Bytes>)
    requires |idx| == |pieces|
    requires forall q, r :: 0 <= q < r < |idx| ==> idx[q] < idx[r]
    requires forall q :: 0 <= q < |idx| ==> Audible(es, a, idx[q]) && es[idx[q]].pcm == pieces[q]
    requires forall j: nat :: Audible(es, a, j) ==> j in idx
    ensures Audio(es, a) == pieces
  {
    if es == [] {
      assert idx == [];
    } else {
      var n := |es| - 1;
      forall j: nat | j < n
        ensures Audible(Front(es), a, j) == Audible(es, a, j)
      {
        AudibleFront(es, a, j);
      }
      if Audible(es, a, n) {
        assert Last(idx) == n;
        AudioIs(Front(es), a, Front(idx), Front(pieces));
        FrontLast(pieces);
      } else {
        assert forall q :: 0 <= q < |idx| ==> idx[q] != n;
        AudioIs(Front(es), a, idx, pieces);
      }
    }
  }

  /** The first entry in j's slot. */
  lemma {:induction false} FirstInSlot(es: seq<TtsResult>, j: nat) returns (i: nat)
    requires j < |es| && !Terminal(es[j])
    ensures i <= j && SameSlot(es[i], es[j]) && FirstOfSlot(es, i)
  {
    if FirstOfSlot(es, j) {
      i := j;
    } else {
      var m: nat :| m < j && SameSlot(es[m], es[j]);
      i := FirstInSlot(es, m);
    }
  }

  /** The reader has stopped at the final of handler k. */
  ghost predicate StoppedBy(w: World, k: nat, t: nat) {
    && k < |w.handlers| && t < |w.got| && Fetches(w)
    && StopsAt(Fetched(w), t) && w.published[w.got[t]].who == k && Fetched(w)[t].final
  }

  /** Piece q of k reached the reader before position n of its input. */
  ghost predicate Arrived(w: World, k: nat, q: nat, n: nat)
    requires k < |w.handlers|
  {
    q < |w.handlers[k].spots| && exists j: nat :: j < n && j < |w.got| && w.got[j] == w.handlers[k].spots[q]
  }

  /**
    Every piece of k reached the reader, and audio that another attempt sent
    under k's epoch number arrived only after k's own piece of the same number.
  */
  ghost predicate OwnPiecesFirst(w: World, k: nat, t: nat)
    requires StoppedBy(w, k, t)
  {
    && (forall q: nat :: q < |w.handlers[k].spots| ==> Arrived(w, k, q, t))
    && (forall j: nat :: j < t && Foreign(w, k, j) ==>
          Fetched(w)[j].seqNo >= 0 && Arrived(w, k, Fetched(w)[j].seqNo, j))
  }

  /** Entry j of the reader's input is audio of another attempt under k's epoch number. */
  predicate Foreign(w: World, k: nat, j: nat)
    requires k < |w.handlers| && Fetches(w)
  {
    && j < |w.got| && w.published[w.got[j]].who != k
    && !Terminal(Fetched(w)[j]) && Fetched(w)[j].attempt == w.handlers[k].attempt
  }

  /** The entries the drain keeps are exactly k's pieces. */
  ghost predicate KeepsOwnPieces(w: World, k: nat, t: nat)
    requires StoppedBy(w, k, t)
  {
    && (forall q: nat :: q < |w.handlers[k].spots| ==> Arrived(w, k, q, t))
    && (forall j: nat :: j < t ==> (Audible(Fetched(w), w.handlers[k].attempt, j) <==> w.got[j] in w.handlers[k].spots))
  }

  // What a fetched entry of k is: the piece with its number.
  lemma OwnEntry(w: World, k: nat, t: nat, j: nat) returns (q: nat)
    requires StreamInv(w) && StoppedBy(w, k, t) && j < t
    requires w.published[w.got[j]].who == k && !Terminal(Fetched(w)[j])
    ensures q < |w.handlers[k].spots| && w.got[j] == w.handlers[k].spots[q]
    ensures Fetched(w)[j].seqNo == q && Fetched(w)[j].attempt == w.handlers[k].attempt
  {
    assert EntrySound(w, w.got[t]) && NothingElse(w, k) && PiecesPublished(w, k);
    assert w.got[j] in w.handlers[k].spots;
    q :| 0 <= q < |w.handlers[k].spots| && w.handlers[k].spots[q] == w.got[j];
    assert IsPiece(w.published[w.handlers[k].spots[q]], k, w.handlers[k], q);
  }

  lemma SpotEntry(w: World, k: nat, t: nat, j: nat, q: nat)
    requires StreamInv(w) && StoppedBy(w, k, t) && j < |w.got| && q < |w.handlers[k].spots|
    requires w.got[j] == w.handlers[k].spots[q]
    ensures w.published[w.got[j]].who == k && !Terminal(Fetched(w)[j])
    ensures Fetched(w)[j].seqNo == q && Fetched(w)[j].attempt == w.handlers[k].attempt
    ensures q < |w.handlers[k].pieces| && Fetched(w)[j].pcm == w.handlers[k].pieces[q]
  {
    assert PiecesPublished(w, k);
    assert IsPiece(w.published[w.handlers[k].spots[q]], k, w.handlers[k], q);
  }

  lemma EarlierDiffers(w: World, k: nat, t: nat, j: nat, q: nat, i: nat)
    requires StreamInv(w) && ReaderInv(w) && StoppedBy(w, k, t) && OwnPiecesFirst(w, k, t) && i < j < t
    requires q < |w.handlers[k].spots| && w.got[j] == w.handlers[k].spots[q]
    requires !Terminal(Fetched(w)[i]) && Fetched(w)[i].attempt == w.handlers[k].attempt
    ensures Fetched(w)[i].seqNo != q
  {
    assert w.got[i] < w.got[j];
    if w.published[w.got[i]].who == k {
      var p := OwnEntry(w, k, t, i);
    } else {
      assert Foreign(w, k, i);
      var m: nat :| m < i && w.got[m] == w.handlers[k].spots[Fetched(w)[i].seqNo];
      assert w.got[m] < w.got[j];
    }
  }

  // Under the condition, k's own piece is the first of its slot.
  lemma OwnIsAudible(w: World, k: nat, t: nat, j: nat, q: nat)
    requires StreamInv(w) && ReaderInv(w) && StoppedBy(w, k, t) && OwnPiecesFirst(w, k, t) && j < t
    requires q < |w.handlers[k].spots| && w.got[j] == w.handlers[k].spots[q]
    ensures Audible(Fetched(w), w.handlers[k].attempt, j)
  {
    var es := Fetched(w);
    SpotEntry(w, k, t, j, q);
    forall i: nat | i < j
      ensures !SameSlot(es[i], es[j])
    {
      if !Terminal(es[i]) && es[i].attempt == w.handlers[k].attempt {
        EarlierDiffers(w, k, t, j, q, i);
      }
    }
  }

  // Under the condition, audio of another attempt is never the first of its slot.
  lemma ForeignIsDropped(w: World, k: nat, t: nat, j: nat)
    requires StreamInv(w) && StoppedBy(w, k, t) && OwnPiecesFirst(w, k, t) && j < t && Foreign(w, k, j)
    ensures !Audible(Fetched(w), w.handlers[k].attempt, j)
  {
    var q := Fetched(w)[j].seqNo;
    var m: nat :| m < j && w.got[m] == w.handlers[k].spots[q];
    SpotEntry(w, k, t, m, q);
    assert SameSlot(Fetched(w)[m], Fetched(w)[j]);
  }

  /**
    The exact condition for the drain to keep the finishing attempt's pieces
    and nothing else, whatever was deleted and whoever else wrote meanwhile.
  */
  lemma KeepsOwnPiecesIff(w: World, k: nat, t: nat)
    requires Inv(w) && StreamInv(w) && ReaderInv(w) && StoppedBy(w, k, t)
    ensures KeepsOwnPieces(w, k, t) <==> OwnPiecesFirst(w, k, t)
  {
    var es, h := Fetched(w), w.handlers[k];
    if OwnPiecesFirst(w, k, t) {
      forall j: nat | j < t
        ensures Audible(es, h.attempt, j) <==> w.got[j] in h.spots
      {
        if w.got[j] in h.spots {
          var q: nat :| q < |h.spots| && h.spots[q] == w.got[j];
          OwnIsAudible(w, k, t, j, q);
        } else if Audible(es, h.attempt, j) {
          if w.published[w.got[j]].who == k {
            var q := OwnEntry(w, k, t, j);
          } else {
            ForeignIsDropped(w, k, t, j);
          }
        }
      }
    }
    if KeepsOwnPieces(w, k, t) {
      forall j: nat | j < t && Foreign(w, k, j)
        ensures es[j].seqNo >= 0 && Arrived(w, k, es[j].seqNo, j)
      {
        OwnPrecedes(w, k, t, j);
      }
    }
  }

  lemma OwnPrecedes(w: World, k: nat, t: nat, j: nat)
    requires StreamInv(w) && StoppedBy(w, k, t) && KeepsOwnPieces(w, k, t) && j < t && Foreign(w, k, j)
    ensures Fetched(w)[j].seqNo >= 0 && Arrived(w, k, Fetched(w)[j].seqNo, j)
  {
    var es, h := Fetched(w), w.handlers[k];
    var i := FirstInSlot(es, j);
    assert Audible(es, h.attempt, i);
    var q: nat :| q < |h.spots| && h.spots[q] == w.got[i];
    SpotEntry(w, k, t, i, q);
  }

  /** Nothing was deleted since k cleared the stream. */
  ghost predicate FinishedBy(w: World, k: nat, t: nat) {
    StoppedBy(w, k, t) && w.cut <= w.handlers[k].mark
  }

  /** No other attempt has published audio under k's epoch number. */
  ghost predicate EpochOwned(w: World, k: nat)
    requires k < |w.handlers|
  {
    forall p :: 0 <= p < |w.published| && !Terminal(w.published[p].chunk) && w.published[p].chunk.attempt == w.handlers[k].attempt ==>
      w.published[p].who == k
  }

  /** Where in the reader's input each piece of k arrived. */
  lemma {:induction false} PiecesFetched(w: World, k: nat, t: nat, n: nat) returns (idx: seq<nat>)
    requires StreamInv(w) && ReaderInv(w) && StoppedBy(w, k, t) && n <= |w.handlers[k].spots|
    requires forall q: nat :: q < n ==> Arrived(w, k, q, t)
    ensures |idx| == n
    ensures forall q :: 0 <= q < n ==> idx[q] < t && w.got[idx[q]] == w.handlers[k].spots[q]
    ensures forall q, r :: 0 <= q < r < n ==> idx[q] < idx[r]
  {
    var h := w.handlers[k];
    assert PiecesPublished(w, k);
    if n == 0 {
      idx := [];
    } else {
      idx := PiecesFetched(w, k, t, n - 1);
      assert Arrived(w, k, n - 1, t);
      var i: nat :| i < t && i < |w.got| && w.got[i] == h.spots[n - 1];
      forall q | 0 <= q < n - 1
        ensures idx[q] < i
      {
        assert w.got[idx[q]] < w.got[i];
      }
      idx := idx + [i];
    }
  }

  /** Keeping exactly k's pieces, the drain returns k's buffer. */
  lemma KeptIsBuffer(w: World, k: nat, t: nat)
    requires StreamInv(w) && ReaderInv(w) && StoppedBy(w, k, t) && KeepsOwnPieces(w, k, t)
    ensures Audio(Fetched(w)[..t], Fetched(w)[t].attempt) == w.handlers[k].pieces
  {
    var es, h := Fetched(w), w.handlers[k];
    assert EntrySound(w, w.got[t]) && PiecesPublished(w, k);
    var idx := PiecesFetched(w, k, t, |h.spots|);
    forall j: nat | j < t
      ensures Audible(es[..t], h.attempt, j) == Audible(es, h.attempt, j)
    {
    }
    forall q | 0 <= q < |idx|
      ensures Audible(es[..t], h.attempt, idx[q]) && es[..t][idx[q]].pcm == h.pieces[q]
    {
      SpotEntry(w, k, t, idx[q], q);
      assert w.got[idx[q]] in h.spots;
    }
    forall j: nat | Audible(es[..t], h.attempt, j)
      ensures j in idx
    {
      assert w.got[j] in h.spots;
      var q: nat :| q < |h.spots| && h.spots[q] == w.got[j];
      assert w.got[idx[q]] == w.got[j] && idx[q] == j;
    }
    AudioIs(es[..t], h.attempt, idx, h.pieces);
  }

  // A piece published after the last deletion was fetched before the final.
  lemma UncutPieceArrived(w: World, k: nat, t: nat, q: nat)
    requires StreamInv(w) && ReaderInv(w) && FinishedBy(w, k, t) && q < |w.handlers[k].spots|
    ensures Arrived(w, k, q, t)
  {
    var h := w.handlers[k];
    assert PiecesPublished(w, k) && EntrySound(w, w.got[t]);
    var s := h.spots[q];
    assert s in h.spots && w.cut <= s < w.got[t] < w.pos;
    assert s in w.got;
    var i: nat :| i < |w.got| && w.got[i] == s;
    assert i < t;
  }

  /**
    When the drain stops at k's final, nothing was deleted since k's own DEL,
    and k's epoch number is k's alone, the drained audio is k's buffer: stray
    chunks of older attempts and chunks lost to older deletions do not matter.
  */
  lemma DrainEqualsBuffer(w: World, k: nat, t: nat)
    requires Inv(w) && StreamInv(w) && ReaderInv(w)
    requires FinishedBy(w, k, t) && EpochOwned(w, k)
    ensures Audio(Fetched(w)[..t], Fetched(w)[t].attempt) == w.handlers[k].pieces
  {
    forall q: nat | q < |w.handlers[k].spots|
      ensures Arrived(w, k, q, t)
    {
      UncutPieceArrived(w, k, t, q);
    }
    assert forall j: nat :: j < t ==> !Foreign(w, k, j);
    KeepsOwnPiecesIff(w, k, t);
    KeptIsBuffer(w, k, t);
  }

  /** Acts after which earlier content of the stream is gone. */
  predicate Cuts(a: Act) {
    (a.Work? && a.op.Reset? && Took(a.op.io)) || a.Quit? || a.Vanish?
  }

  lemma {:induction false} CutStays(ws: seq<World>, acts: seq<Act>, s: nat, k: nat, m: nat)
    requires IsRun(ws, acts) && s < m < |ws| && acts[s] == Work(k, Reset(Ok))
    requires forall x :: s < x < m ==> !Cuts(acts[x])
    ensures k < |ws[m].handlers| && ws[m].cut == ws[m].handlers[k].mark
    ensures !ws[m].handlers[k].pc.Counting? && !ws[m].handlers[k].pc.Resetting?
    decreases m
  {
    if m == s + 1 {
      assert Enabled(ws[s], acts[s]);
    } else {
      CutStays(ws, acts, s, k, m - 1);
      CutStep(ws[m - 1], acts[m - 1], k);
    }
  }

  /** Those acts leave the stream empty; no other act deletes anything. */
  lemma DeletesIff(w: World, a: Act)
    requires Enabled(w, a)
    ensures Cuts(a) ==> Apply(w, a).cut == |Apply(w, a).published| == |w.published|
    ensures !Cuts(a) ==> Apply(w, a).cut == w.cut
  {
  }

  predicate Started(h: Handler) {
    !h.pc.Counting? && !h.pc.Resetting?
  }

  lemma MarkFixed(w: World, i: nat, op: Op)
    requires Enabled(w, Work(i, op)) && Started(w.handlers[i])
    ensures Started(WorkStep(w, i, op).handlers[i]) && WorkStep(w, i, op).handlers[i].mark == w.handlers[i].mark
  {
  }

  lemma CutFixed(w: World, i: nat, op: Op)
    requires Enabled(w, Work(i, op)) && !Cuts(Work(i, op))
    ensures WorkStep(w, i, op).cut == w.cut
  {
  }

  lemma CutStep(w: World, a: Act, k: nat)
    requires Enabled(w, a) && !Cuts(a) && k < |w.handlers| && w.cut == w.handlers[k].mark
    requires Started(w.handlers[k])
    ensures k < |Apply(w, a).handlers| && Apply(w, a).cut == Apply(w, a).handlers[k].mark
    ensures Started(Apply(w, a).handlers[k])
  {
    if a.Work? {
      CutFixed(w, a.h, a.op);
      WorkShape(w, a.h, a.op);
      if a.h == k {
        MarkFixed(w, k, a.op);
      }
    }
  }

  /**
    End to end: in every run where the reader's drain ends at the final of
    attempt k, and between k's DEL and that moment no other attempt starts and
    nobody else deletes the stream, the body returned is the bytes k archived,
    with one sentence counted per piece and no error.
  */
  lemma EndToEndAudio(ws: seq<World>, acts: seq<Act>, s: nat, m: nat, k: nat, t: nat, r: Drained)
    requires IsRun(ws, acts) && s < m < |ws| && acts[s] == Work(k, Reset(Ok))
    requires forall x :: s < x < m ==> !Cuts(acts[x])
    requires Fetches(ws[m]) && DrainedAt(Fetched(ws[m]), t, r) && r.error.None?
    requires ws[m].published[ws[m].got[t]].who == k && k < |ws[m].handlers|
    requires EpochOwned(ws[m], k)
    ensures exists a :: 0 <= a < |ws[m].log| && ws[m].log[a] == Archived(k, r.pcm)
    ensures forall a :: 0 <= a < |ws[m].log| && ws[m].log[a].Archived? && ws[m].log[a].who == k ==> ws[m].log[a].pcm == r.pcm
    ensures r.sentences == |ws[m].handlers[k].pieces|
  {
    AllInvAlways(ws, acts, m);
    CutStays(ws, acts, s, k, m);
    var w := ws[m];
    assert FinishedBy(w, k, t);
    DrainEqualsBuffer(w, k, t);
    ArchiveOfFinisher(ws, acts, m, k, t);
  }

  /**
    End to end, in every run whatever and whoever deleted the stream: when the
    drain ends without error at the final of attempt k, it kept exactly k's
    pieces if and only if every piece reached the reader and no other attempt's
    audio under the same epoch number overtook k's own. It then returned the
    bytes k archived.
  */
  lemma EndToEndIff(ws: seq<World>, acts: seq<Act>, m: nat, k: nat, t: nat, r: Drained)
    requires IsRun(ws, acts) && m < |ws| && k < |ws[m].handlers|
    requires Fetches(ws[m]) && DrainedAt(Fetched(ws[m]), t, r) && r.error.None?
    requires ws[m].published[ws[m].got[t]].who == k
    ensures StoppedBy(ws[m], k, t)
    ensures KeepsOwnPieces(ws[m], k, t) <==> OwnPiecesFirst(ws[m], k, t)
    ensures OwnPiecesFirst(ws[m], k, t) ==>
              && r.sentences == |ws[m].handlers[k].pieces|
              && (exists a :: 0 <= a < |ws[m].log| && ws[m].log[a] == Archived(k, r.pcm))
  {
    AllInvAlways(ws, acts, m);
    var w := ws[m];
    KeepsOwnPiecesIff(w, k, t);
    if OwnPiecesFirst(w, k, t) {
      KeptIsBuffer(w, k, t);
      ArchiveOfFinisher(ws, acts, m, k, t);
    }
  }

  lemma ArchiveOfFinisher(ws: seq<World>, acts: seq<Act>, m: nat, k: nat, t: nat)
    requires IsRun(ws, acts) && m < |ws| && StoppedBy(ws[m], k, t)
    ensures exists a :: 0 <= a < |ws[m].log| && ws[m].log[a] == Archived(k, Flatten(ws[m].handlers[k].pieces))
  {
    AllInvAlways(ws, acts, m);
    var w := ws[m];
    assert EntrySound(w, w.got[t]);
    var f: nat :| f < |w.log| && w.log[f].FinalSent? && w.log[f].who == k;
    CommitBeforeFinal(ws, acts, m, f);
    var a :| 0 <= a < |w.log| && w.log[a].Archived? && w.log[a].who == k;
    assert w.log[a] == Archived(k, Flatten(w.handlers[k].pieces));
  }

  // ---------- When epoch numbers are unique ----------

  /** Deliveries of one entry are numbered in increasing order. */
  ghost predicate DeliveryInv(w: World) {
    && w.cursor <= |w.jobs|
    && (forall e :: e in w.pel ==> e < w.cursor)
    && (forall i :: 0 <= i < |w.handlers| ==> w.handlers[i].entry < w.cursor)
    && (forall i :: 0 <= i < |w.handlers| && w.handlers[i].entry in w.pel ==>
          w.handlers[i].delivery <= w.pel[w.handlers[i].entry])
    && (forall i, j :: 0 <= i < j < |w.handlers| && w.handlers[i].entry == w.handlers[j].entry ==>
          w.handlers[i].delivery < w.handlers[j].delivery)
  }

  // An operation neither delivers anything nor renumbers a delivery.
  lemma DeliveryWork(w: World, i: nat, op: Op)
    requires Enabled(w, Work(i, op))
    ensures var w' := WorkStep(w, i, op);
            && w'.cursor == w.cursor && w'.jobs == w.jobs && |w'.handlers| == |w.handlers|
            && (forall j :: 0 <= j < |w.handlers| ==>
                  w'.handlers[j].entry == w.handlers[j].entry && w'.handlers[j].delivery == w.handlers[j].delivery)
            && (forall e :: e in w'.pel ==> e in w.pel && w'.pel[e] == w.pel[e])
  {
  }

  lemma StepKeepsDelivery(w: World, a: Act)
    requires DeliveryInv(w) && Enabled(w, a)
    ensures DeliveryInv(Apply(w, a))
  {
    if a.Work? {
      DeliveryWork(w, a.h, a.op);
    }
  }

  /** Every handler past its count read has its delivery number as epoch. */
  ghost predicate EpochsAgree(w: World) {
    forall i :: 0 <= i < |w.handlers| && !w.handlers[i].pc.Counting? ==> w.handlers[i].attempt == w.handlers[i].delivery
  }

  lemma EpochWork(w: World, i: nat, op: Op)
    requires Enabled(w, Work(i, op)) && (op.Count? ==> op.n == w.handlers[i].delivery)
    requires !w.handlers[i].pc.Counting? ==> w.handlers[i].attempt == w.handlers[i].delivery
    ensures WorkStep(w, i, op).handlers[i].attempt == w.handlers[i].delivery == WorkStep(w, i, op).handlers[i].delivery
  {
  }

  lemma StepKeepsEpochs(w: World, a: Act)
    requires EpochsAgree(w) && Enabled(w, a) && (a.Work? && a.op.Count? ==> a.op.n == w.handlers[a.h].delivery)
    ensures EpochsAgree(Apply(w, a))
  {
    if a.Work? {
      WorkShape(w, a.h, a.op);
      EpochWork(w, a.h, a.op);
    }
  }

  /** Each handler reads the count before the entry is delivered again, and the read succeeds. */
  ghost predicate PromptCounts(ws: seq<World>, acts: seq<Act>)
    requires Steps(ws, acts)
  {
    forall x :: 0 <= x < |acts| && acts[x].Work? && acts[x].op.Count? ==>
      assert Enabled(ws[x], acts[x]); acts[x].op.n == ws[x].handlers[acts[x].h].delivery
  }

  lemma {:induction false} EpochIsDelivery(ws: seq<World>, acts: seq<Act>, t: nat)
    requires IsRun(ws, acts) && PromptCounts(ws, acts) && t < |ws|
    ensures DeliveryInv(ws[t]) && EpochsAgree(ws[t])
  {
    if t > 0 {
      EpochIsDelivery(ws, acts, t - 1);
      assert Enabled(ws[t - 1], acts[t - 1]);
      StepKeepsDelivery(ws[t - 1], acts[t - 1]);
      StepKeepsEpochs(ws[t - 1], acts[t - 1]);
    }
  }

  /** With a single job entry for the request and prompt count reads, every epoch number has one owner. */
  lemma PromptCountsOwnEpochs(ws: seq<World>, acts: seq<Act>, t: nat, k: nat)
    requires IsRun(ws, acts) && PromptCounts(ws, acts) && t < |ws| && |ws[t].jobs| <= 1
    requires k < |ws[t].handlers| && !ws[t].handlers[k].pc.Counting?
    ensures EpochOwned(ws[t], k)
  {
    AllInvAlways(ws, acts, t);
    EpochIsDelivery(ws, acts, t);
    var w := ws[t];
    forall p | 0 <= p < |w.published| && !Terminal(w.published[p].chunk) && w.published[p].chunk.attempt == w.handlers[k].attempt
      ensures w.published[p].who == k
    {
      assert EntrySound(w, p);
      var j := w.published[p].who;
      assert w.handlers[j].delivery == w.handlers[k].delivery;
    }
  }
}
