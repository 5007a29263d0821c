/**
  The gateway's reader of a per-request result stream: the attempt-aware
  de-duplicating consumer and the drain behind the synchronous endpoint.

  The reference definition is declarative: it says, for a sequence of entries,
  which of them may reach the client, without any running state.
*/
module ResultStream {
  import opened Prelude

  /** One chunk on the per-request stream. */
  datatype TtsResult = TtsResult(
    requestId: string,
    seqNo: int,
    pcm: Bytes,
    sentence: Option<string>,
    final: bool,
    error: Option<string>,
    attempt: int)

  /** An error field holding the empty string does not count as an error. */
  predicate IsError(c: TtsResult) {
    c.error.Some? && c.error.value != ""
  }

  predicate Terminal(c: TtsResult) {
    c.final || IsError(c)
  }

  // ---------- The declarative filter ----------

  /** Entry i belongs to the newest attempt seen up to and including i. */
  predicate Current(es: seq<TtsResult>, i: nat)
    requires i < |es|
  {
    es[i].attempt >= -1 && forall j :: 0 <= j < i ==> es[j].attempt <= es[i].attempt
  }

  predicate SameSlot(a: TtsResult, b: TtsResult) {
    !Terminal(a) && a.attempt == b.attempt && a.seqNo == b.seqNo
  }

  /** No earlier audio entry of the same attempt carries the same sequence number. */
  predicate FirstOfSlot(es: seq<TtsResult>, i: nat)
    requires i < |es|
  {
    forall j :: 0 <= j < i ==> !SameSlot(es[j], es[i])
  }

  /** Entry i is a terminal entry the reader believes. */
  predicate Ends(es: seq<TtsResult>, i: nat)
    requires i < |es|
  {
    Terminal(es[i]) && Current(es, i)
  }

  predicate Open(es: seq<TtsResult>) {
    forall j :: 0 <= j < |es| ==> !Ends(es, j)
  }

  predicate Kept(es: seq<TtsResult>, i: nat)
    requires i < |es|
  {
    && Current(es, i)
    && (Terminal(es[i]) || FirstOfSlot(es, i))
    && Open(es[..i])
  }

  function Filtered(es: seq<TtsResult>): seq<TtsResult> {
    if es == [] then []
    else Filtered(Front(es)) + if Kept(es, |es| - 1) then [Last(es)] else []
  }

  /** The positions that survive the filter. */
  function KeptAt(es: seq<TtsResult>): seq<nat> {
    if es == [] then []
    else KeptAt(Front(es)) + if Kept(es, |es| - 1) then [|es| - 1] else []
  }

  // Whether an entry is current, ends the stream or is kept depends on what came before it only.
  lemma PrefixDetermines(es: seq<TtsResult>, n: nat, i: nat)
    requires i < n <= |es|
    ensures Current(es[..n], i) == Current(es, i)
    ensures Ends(es[..n], i) == Ends(es, i)
    ensures Kept(es[..n], i) == Kept(es, i)
  {
    assert es[..n][..i] == es[..i];
    assert forall j :: 0 <= j < n ==> es[..n][j] == es[j];
  }

  lemma {:induction false} KeptAtExact(es: seq<TtsResult>)
    ensures |KeptAt(es)| == |Filtered(es)|
    ensures forall p :: 0 <= p < |KeptAt(es)| ==>
              KeptAt(es)[p] < |es| && Kept(es, KeptAt(es)[p]) && Filtered(es)[p] == es[KeptAt(es)[p]]
    ensures forall i :: 0 <= i < |es| && Kept(es, i) ==> i in KeptAt(es)
  {
    if es != [] {
      var f := Front(es);
      KeptAtExact(f);
      forall i: nat | i < |f|
        ensures Kept(f, i) == Kept(es, i) && f[i] == es[i]
      {
        PrefixDetermines(es, |f|, i);
      }
    }
  }

  lemma {:induction false} KeptAtIncreases(es: seq<TtsResult>)
    ensures forall p :: 0 <= p < |KeptAt(es)| ==> KeptAt(es)[p] < |es|
    ensures forall p, q :: 0 <= p < q < |KeptAt(es)| ==> KeptAt(es)[p] < KeptAt(es)[q]
  {
    if es != [] {
      KeptAtIncreases(Front(es));
    }
  }

  lemma TerminalEntryEndsIt(es: seq<TtsResult>, i: nat, j: nat)
    requires i < j < |es| && Kept(es, j) && Current(es, i)
    ensures !Terminal(es[i])
  {
    PrefixDetermines(es, j, i);
    assert !Ends(es[..j], i);
  }

  ghost predicate CurrentSomewhere(es: seq<TtsResult>, c: TtsResult) {
    exists i :: 0 <= i < |es| && es[i] == c && Current(es, i)
  }

  /**
    What the client can rely on, for every entry sequence: attempts never
    decrease, audio sequence numbers are distinct within an attempt, nothing
    from a superseded attempt appears, and a terminal chunk is unique and last.
  */
  lemma FilteredIsOrderly(es: seq<TtsResult>)
    ensures forall p, q :: 0 <= p < q < |Filtered(es)| ==>
              Filtered(es)[p].attempt <= Filtered(es)[q].attempt
    ensures forall p, q :: 0 <= p < q < |Filtered(es)| && !Terminal(Filtered(es)[q]) ==>
              !SameSlot(Filtered(es)[p], Filtered(es)[q])
    ensures forall p :: 0 <= p < |Filtered(es)| && Terminal(Filtered(es)[p]) ==> p == |Filtered(es)| - 1
    ensures forall p :: 0 <= p < |Filtered(es)| ==> CurrentSomewhere(es, Filtered(es)[p])
  {
    KeptAtExact(es);
    KeptAtIncreases(es);
    var at, out := KeptAt(es), Filtered(es);
    forall p | 0 <= p < |out| - 1
      ensures !Terminal(out[p])
    {
      TerminalEntryEndsIt(es, at[p], at[p + 1]);
    }
    forall p | 0 <= p < |out|
      ensures CurrentSomewhere(es, out[p])
    {
      assert es[at[p]] == out[p] && Current(es, at[p]);
    }
  }

  /** Once a believed terminal entry has arrived, later entries change nothing. */
  lemma {:induction false} FilteredStops(es: seq<TtsResult>, more: seq<TtsResult>)
    requires !Open(es)
    ensures Filtered(es + more) == Filtered(es)
    ensures !Open(es + more)
  {
    if more == [] {
      assert es + more == es;
    } else {
      FilteredStops(es, Front(more));
      var all := es + more;
      assert Front(all) == es + Front(more);
      var e :| 0 <= e < |es| && Ends(es, e);
      assert all[..|es|] == es;
      PrefixDetermines(all, |es|, e);
      PrefixDetermines(all, |all| - 1, e);
      assert !Open(all[..|all| - 1]);
    }
  }

  lemma FilteredSnoc(es: seq<TtsResult>, c: TtsResult)
    requires Open(es)
    ensures Kept(es + [c], |es|) == (Current(es + [c], |es|) && (Terminal(c) || FirstOfSlot(es + [c], |es|)))
    ensures Filtered(es + [c]) == Filtered(es) + if Kept(es + [c], |es|) then [c] else []
    ensures Open(es + [c]) == !Ends(es + [c], |es|)
  {
    var all := es + [c];
    assert Front(all) == es == all[..|es|];
    forall j: nat | j < |es|
      ensures Ends(all, j) == Ends(es, j)
    {
      PrefixDetermines(all, |es|, j);
    }
  }

  // ---------- The consumer loop ----------

  /** The newest attempt among the entries, or -1. */
  function Newest(es: seq<TtsResult>): int {
    if es == [] then -1 else Max(Newest(Front(es)), Last(es).attempt)
  }

  lemma {:induction false} NewestBounds(es: seq<TtsResult>)
    ensures Newest(es) >= -1
    ensures forall j :: 0 <= j < |es| ==> es[j].attempt <= Newest(es)
    ensures Newest(es) == -1 || exists j :: 0 <= j < |es| && es[j].attempt == Newest(es)
  {
    if es != [] {
      NewestBounds(Front(es));
      assert forall j :: 0 <= j < |es| - 1 ==> Front(es)[j] == es[j];
    }
  }

  lemma NewestSnoc(es: seq<TtsResult>, c: TtsResult)
    ensures Newest(es + [c]) == Max(Newest(es), c.attempt)
    ensures Current(es + [c], |es|) == (c.attempt >= Newest(es))
  {
    assert Front(es + [c]) == es;
    NewestBounds(es);
    var all := es + [c];
    if c.attempt < Newest(es) && c.attempt >= -1 {
      var j :| 0 <= j < |es| && es[j].attempt == Newest(es);
      assert all[j].attempt > all[|es|].attempt;
    }
  }

  /** Sequence numbers already used by audio of the newest attempt. */
  ghost predicate SeenExactly(es: seq<TtsResult>, current: int, seen: set<int>) {
    && current == Newest(es)
    && (forall j :: 0 <= j < |es| && es[j].attempt == current && !Terminal(es[j]) ==> es[j].seqNo in seen)
    && (forall n :: n in seen ==> exists j :: 0 <= j < |es| && es[j].attempt == current && !Terminal(es[j]) && es[j].seqNo == n)
  }

  lemma FreshMeansUnseen(es: seq<TtsResult>, current: int, seen: set<int>, c: TtsResult)
    requires SeenExactly(es, current, seen) && c.attempt >= current
    ensures FirstOfSlot(es + [c], |es|) == !(c.attempt == current && c.seqNo in seen)
  {
    NewestBounds(es);
    var all := es + [c];
    assert forall j :: 0 <= j < |es| ==> all[j] == es[j];
    if c.attempt == current && c.seqNo in seen {
      var j :| 0 <= j < |es| && es[j].attempt == current && !Terminal(es[j]) && es[j].seqNo == c.seqNo;
      assert SameSlot(all[j], all[|es|]);
    }
  }

  lemma SeenStep(es: seq<TtsResult>, current: int, seen: set<int>, c: TtsResult)
    requires SeenExactly(es, current, seen)
    ensures c.attempt < current ==> SeenExactly(es + [c], current, seen)
    ensures c.attempt >= current ==>
              var kept := if c.attempt > current then {} else seen;
              SeenExactly(es + [c], c.attempt, kept + if Terminal(c) then {} else {c.seqNo})
  {
    NewestSnoc(es, c);
    NewestBounds(es);
    var all := es + [c];
    assert forall j :: 0 <= j < |es| ==> all[j] == es[j];
    assert all[|es|] == c;
  }

  /** One entry through the loop body, in each of its branches. */
  lemma ReaderStep(es: seq<TtsResult>, current: int, seen: set<int>, c: TtsResult)
    requires Open(es) && SeenExactly(es, current, seen)
    ensures var all := es + [c];
            var kept := if c.attempt > current then {} else seen;
            if c.attempt < current then
              Open(all) && SeenExactly(all, current, seen) && Filtered(all) == Filtered(es)
            else if Terminal(c) then
              !Open(all) && Filtered(all) == Filtered(es) + [c]
            else if c.seqNo in kept then
              Open(all) && SeenExactly(all, c.attempt, kept) && Filtered(all) == Filtered(es)
            else
              Open(all) && SeenExactly(all, c.attempt, kept + {c.seqNo}) && Filtered(all) == Filtered(es) + [c]
  {
    FilteredSnoc(es, c);
    NewestSnoc(es, c);
    SeenStep(es, current, seen, c);
    if c.attempt >= current {
      FreshMeansUnseen(es, current, seen, c);
      var kept := if c.attempt > current then {} else seen;
      if c.seqNo in kept {
        assert kept + {c.seqNo} == kept;
      }
    }
  }

  /** What the consumer's variables mean after reading es without reaching an end. */
  ghost predicate Tracks(es: seq<TtsResult>, current: int, seen: set<int>, out: seq<TtsResult>) {
    Open(es) && SeenExactly(es, current, seen) && out == Filtered(es)
  }

  /** One turn of the inner loop of `consume_result_stream`. */
  method ConsumeOne(chunk: TtsResult, current0: int, seen0: set<int>, out0: seq<TtsResult>,
                    ghost read: seq<TtsResult>)
    returns (current: int, seen: set<int>, out: seq<TtsResult>, ended: bool)
    requires Tracks(read, current0, seen0, out0)
    ensures !ended ==> Tracks(read + [chunk], current, seen, out)
    ensures ended ==> !Open(read + [chunk]) && out == Filtered(read + [chunk])
  {
    current, seen, out, ended := current0, seen0, out0, false;
    var isTerminal := IsError(chunk) || chunk.final;
    ReaderStep(read, current, seen, chunk);
    if chunk.attempt > current {
      current := chunk.attempt;
      seen := {};
    } else if chunk.attempt < current {
      return;
    }
    if chunk.seqNo in seen && !isTerminal {
      return;
    }
    if !isTerminal {
      seen := seen + {chunk.seqNo};
    }
    out := out + [chunk];
    ended := isTerminal;
  }

  /** The inner loop of `consume_result_stream`: one XREAD response. */
  method ConsumeBatch(entries: seq<TtsResult>, current0: int, seen0: set<int>, out0: seq<TtsResult>,
                      ghost read: seq<TtsResult>)
    returns (current: int, seen: set<int>, out: seq<TtsResult>, ended: bool)
    requires Tracks(read, current0, seen0, out0)
    ensures !ended ==> Tracks(read + entries, current, seen, out)
    ensures ended ==> !Open(read + entries) && out == Filtered(read + entries)
  {
    current, seen, out, ended := current0, seen0, out0, false;
    var k := 0;
    assert read + entries[..0] == read;
    while k < |entries|
      invariant 0 <= k <= |entries|
      invariant Tracks(read + entries[..k], current, seen, out)
    {
      current, seen, out, ended := ConsumeOne(entries[k], current, seen, out, read + entries[..k]);
      assert read + entries[..k + 1] == read + entries[..k] + [entries[k]];
      k := k + 1;
      if ended {
        FilteredStops(read + entries[..k], entries[k..]);
        assert read + entries == read + entries[..k] + entries[k..];
        return;
      }
    }
    assert entries[..k] == entries;
  }

  /**
    `consume_result_stream`. Each element of `polls` is what one XREAD returned
    before the deadline; an empty poll is a block interval with nothing new.
    Running out of polls is the deadline passing. `deletes` counts stream DELs.
  */
  method ConsumeResultStream(polls: seq<seq<TtsResult>>, deleteOnFinish: bool)
    returns (out: seq<TtsResult>, timedOut: bool, deletes: nat)
    ensures out == Filtered(Flatten(polls))
    ensures timedOut == Open(Flatten(polls))
    ensures deletes == if deleteOnFinish then 1 else 0
  {
    out, timedOut, deletes := [], true, 0;
    var current, seen: set<int> := -1, {};
    var cleanedUp := false;
    var i := 0;
    while i < |polls|
      invariant 0 <= i <= |polls|
      invariant Tracks(Flatten(polls[..i]), current, seen, out)
    {
      var ended;
      current, seen, out, ended := ConsumeBatch(polls[i], current, seen, out, Flatten(polls[..i]));
      FlattenSnoc(polls[..i], polls[i]);
      assert polls[..i + 1] == polls[..i] + [polls[i]];
      i := i + 1;
      if ended {
        FlattenAppend(polls[..i], polls[i..]);
        assert polls == polls[..i] + polls[i..];
        FilteredStops(Flatten(polls[..i]), Flatten(polls[i..]));
        timedOut := false;
        if deleteOnFinish && !cleanedUp {
          deletes := deletes + 1;
          cleanedUp := true;
        }
        break;
      }
    }
    if timedOut {
      assert polls[..i] == polls;
    }
    if deleteOnFinish && !cleanedUp {
      deletes := deletes + 1;
      cleanedUp := true;
    }
  }

  // ---------- The synchronous drain ----------

  /** The audio of attempt a: for each sequence number, the first entry that carried it. */
  function Audio(es: seq<TtsResult>, a: int): seq<Bytes> {
    if es == [] then []
    else Audio(Front(es), a) +
         if !Terminal(Last(es)) && Last(es).attempt == a && FirstOfSlot(es, |es| - 1) then [Last(es).pcm] else []
  }

  /** Position t holds the entry at which the reader stops. */
  predicate StopsAt(es: seq<TtsResult>, t: nat) {
    t < |es| && Ends(es, t) && Open(es[..t])
  }

  lemma {:induction false} StopExists(es: seq<TtsResult>)
    requires !Open(es)
    ensures exists t: nat :: StopsAt(es, t)
  {
    var f := Front(es);
    if Open(f) {
      var e :| 0 <= e < |es| && Ends(es, e);
      if e < |f| {
        PrefixDetermines(es, |f|, e);
      }
      assert StopsAt(es, |es| - 1);
    } else {
      StopExists(f);
      var t: nat :| StopsAt(f, t);
      PrefixDetermines(es, |f|, t);
      assert es[..t] == f[..t];
      assert StopsAt(es, t);
    }
  }

  lemma StopUnique(es: seq<TtsResult>, t: nat, u: nat)
    requires StopsAt(es, t) && StopsAt(es, u)
    ensures t == u
  {
    if t < u {
      PrefixDetermines(es, u, t);
    } else if u < t {
      PrefixDetermines(es, t, u);
    }
  }

  /** The audio of the attempt that ends the stream, as kept by the consumer. */
  function Pieces(out: seq<TtsResult>, a: int): seq<Bytes> {
    if out == [] then []
    else Pieces(Front(out), a) + if !Terminal(Last(out)) && Last(out).attempt == a then [Last(out).pcm] else []
  }

  lemma {:induction false} NoPiecesOf(out: seq<TtsResult>, a: int)
    requires forall p :: 0 <= p < |out| ==> out[p].attempt < a
    ensures Pieces(out, a) == []
  {
    if out != [] {
      NoPiecesOf(Front(out), a);
    }
  }

  lemma {:induction false} PiecesAreAudio(es: seq<TtsResult>, a: int)
    requires Open(es) && a >= -1
    requires forall j :: 0 <= j < |es| ==> es[j].attempt <= a
    ensures Pieces(Filtered(es), a) == Audio(es, a)
  {
    if es != [] {
      var f, c := Front(es), Last(es);
      assert es == f + [c];
      forall j: nat | j < |f|
        ensures Ends(f, j) == Ends(es, j)
      {
        PrefixDetermines(es, |f|, j);
      }
      PiecesAreAudio(f, a);
      FilteredSnoc(f, c);
      if Kept(es, |f|) {
        assert Front(Filtered(es)) == Filtered(f) && Last(Filtered(es)) == c;
      } else {
        assert Filtered(es) == Filtered(f);
      }
      if c.attempt == a {
        assert Current(es, |f|);
      }
    }
  }

  datatype Drained = Timeout | Drained(pcm: Bytes, sentences: nat, error: Option<string>)

  /** What a drain must return when the reader stops at t. */
  predicate DrainedAt(es: seq<TtsResult>, t: nat, r: Drained) {
    && StopsAt(es, t)
    && r.Drained?
    && r.pcm == Flatten(Audio(es[..t], es[t].attempt))
    && r.sentences == |Audio(es[..t], es[t].attempt)|
    && r.error == if IsError(es[t]) then es[t].error else None
  }

  lemma FilteredEndsAtStop(es: seq<TtsResult>, t: nat)
    requires StopsAt(es, t)
    ensures Filtered(es) == Filtered(es[..t]) + [es[t]]
    ensures forall p :: 0 <= p < |Filtered(es[..t])| ==> !Terminal(Filtered(es[..t])[p])
  {
    var upTo := es[..t + 1];
    assert upTo == es[..t] + [es[t]];
    PrefixDetermines(es, t + 1, t);
    FilteredSnoc(es[..t], es[t]);
    assert !Open(upTo);
    FilteredStops(upTo, es[t + 1..]);
    assert es == upTo + es[t + 1..];
    KeptAtExact(es[..t]);
    forall p | 0 <= p < |Filtered(es[..t])|
      ensures !Terminal(Filtered(es[..t])[p])
    {
      assert !Ends(es[..t], KeptAt(es[..t])[p]);
    }
  }

  /** Attempts never decrease and only the last chunk can be terminal: the shape of the consumer's output. */
  predicate Orderly(out: seq<TtsResult>) {
    && (forall p :: 0 <= p < |out| ==> out[p].attempt >= -1)
    && (forall p, q :: 0 <= p < q < |out| ==> out[p].attempt <= out[q].attempt)
    && (forall p :: 0 <= p < |out| - 1 ==> !Terminal(out[p]))
  }

  /** The loop of `collect_pcm_until_final` over the chunks the consumer yields. */
  method DrainLoop(out: seq<TtsResult>) returns (buffer: Bytes, sentences: nat, error: Option<string>)
    requires Orderly(out)
    ensures out != [] && Terminal(Last(out)) ==>
              var pieces := Pieces(Front(out), Last(out).attempt);
              && buffer == Flatten(pieces)
              && sentences == |pieces|
              && error == if IsError(Last(out)) then Last(out).error else None
  {
    buffer, sentences, error := [], 0, None;
    var current := -1;
    ghost var pieces: seq<Bytes> := [];
    var p := 0;
    while p < |out|
      invariant 0 <= p <= |out|
      invariant current >= -1
      invariant p == 0 ==> current == -1
      invariant p > 0 ==> current == out[p - 1].attempt && !Terminal(out[p - 1])
      invariant pieces == Pieces(out[..p], current)
      invariant buffer == Flatten(pieces) && sentences == |pieces|
      invariant error.None?
    {
      var chunk := out[p];
      assert Front(out[..p + 1]) == out[..p] && Last(out[..p + 1]) == chunk;
      if chunk.attempt > current {
        NoPiecesOf(out[..p], chunk.attempt);
        current := chunk.attempt;
        buffer, sentences := [], 0;
        pieces := [];
      }
      if IsError(chunk) {
        error := chunk.error;
        assert out[..p] == Front(out);
        return;
      }
      if chunk.final {
        assert out[..p] == Front(out);
        return;
      }
      FlattenSnoc(pieces, chunk.pcm);
      pieces := pieces + [chunk.pcm];
      buffer := buffer + chunk.pcm;
      sentences := sentences + 1;
      p := p + 1;
    }
  }

  lemma OutputIsOrderly(es: seq<TtsResult>)
    ensures Orderly(Filtered(es))
  {
    FilteredIsOrderly(es);
    KeptAtExact(es);
  }

  lemma DrainIsAudio(es: seq<TtsResult>, t: nat)
    requires StopsAt(es, t)
    ensures Filtered(es) != [] && Last(Filtered(es)) == es[t]
    ensures Pieces(Front(Filtered(es)), es[t].attempt) == Audio(es[..t], es[t].attempt)
  {
    FilteredEndsAtStop(es, t);
    assert Front(Filtered(es)) == Filtered(es[..t]);
    PiecesAreAudio(es[..t], es[t].attempt);
  }

  /** `collect_pcm_until_final`: one body for the client, built from the last attempt only. */
  method CollectPcmUntilFinal(polls: seq<seq<TtsResult>>, deleteOnFinish: bool) returns (r: Drained)
    ensures r.Timeout? == Open(Flatten(polls))
    ensures !r.Timeout? ==> exists t: nat :: DrainedAt(Flatten(polls), t, r)
    ensures forall t: nat :: StopsAt(Flatten(polls), t) ==> DrainedAt(Flatten(polls), t, r)
  {
    var out, timedOut, deletes := ConsumeResultStream(polls, deleteOnFinish);
    ghost var es := Flatten(polls);
    OutputIsOrderly(es);
    var buffer, sentences, error := DrainLoop(out);
    if timedOut {
      forall t: nat
        ensures !StopsAt(es, t)
      {
      }
      return Timeout;
    }
    StopExists(es);
    ghost var t: nat :| StopsAt(es, t);
    DrainIsAudio(es, t);
    r := Drained(buffer, sentences, error);
    assert DrainedAt(es, t, r);
    forall u: nat | StopsAt(es, u)
      ensures DrainedAt(es, u, r)
    {
      StopUnique(es, t, u);
    }
  }
}
