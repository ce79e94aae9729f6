/** The encryptor's calls on one file, in the order a caller makes them, refine a plain map from
    block numbers to bytes: create, stage, commit, ask for the size, read back. */
module FileRoundTrip {
  import opened Outcomes
  import opened ByteStore
  import opened Aead
  import opened ChunkedFile
  import opened FileSession
  import opened ConcurrentStaging

  /** The reference: the bytes each block holds after the first `k` calls. */
  function Blocks(calls: seq<Call>, k: nat): map<nat, seq<byte>>
    requires k <= |calls|
  {
    if k == 0 then map[] else Blocks(calls, k - 1)[calls[k - 1].block := calls[k - 1].data]
  }

  /** The reference plaintext of blocks 0..n-1. */
  function Plain(blocks: map<nat, seq<byte>>, n: nat): seq<byte> {
    if n == 0 then [] else Plain(blocks, n - 1) + if n - 1 in blocks then blocks[n - 1] else []
  }

  /** The view of the file after the first `k` calls, made one after the other. */
  function StageAll(f: File, v: FileView, k: nat): FileView
    requires k <= |f.calls|
  {
    if k == 0 then v
    else
      var call := f.calls[k - 1];
      Staged(f.cipher, f.bs, StageAll(f, v, k - 1), BlockOffset(f.bs, call.block), call.data, Some(call.nonce)).1
  }

  predicate Empty(v: FileView) { v.content.None? || v.content == Some([]) }

  /** The view of a file that is open in state `s`. */
  function ViewOf(s: State): FileView { FileView(Some(s.bytes), true, Some(s.record)) }

  /** A call that runs alone is its two steps, one after the other. */
  lemma CallIsTwoSteps(f: File, r: State, i: nat)
    requires f.CanWrite(r, i)
    ensures f.CanRecord(f.DoWrite(r, i), i)
    ensures Staged(f.cipher, f.bs, ViewOf(r), BlockOffset(f.bs, f.calls[i].block), f.calls[i].data, Some(f.calls[i].nonce))
         == (Ok(()), ViewOf(f.DoRecord(f.DoWrite(r, i), i)))
  {
    BlockAtSpan(f.bs, f.calls[i].block, 0);
  }

  /** The blocks of state `s` are those of the reference after `k` calls. */
  ghost predicate Refines(f: File, s: State, k: nat)
    requires k <= |f.calls|
  {
    && s.writer.Keys == Blocks(f.calls, k).Keys
    && forall b :: b in s.writer ==> s.writer[b] < |f.calls| && f.Block(s, b) == Blocks(f.calls, k)[b]
  }

  /** Sequential calls are one of the interleavings, and every one of them succeeds. */
  lemma {:induction false} SequentialCallsAreARun(f: File, v: FileView, k: nat) returns (s: State)
    requires Empty(v) && k <= |f.calls|
    ensures f.Reachable(s) && |s.phases| == |f.calls|
    ensures forall i :: 0 <= i < |f.calls| ==> s.phases[i] == if i < k then Finished else Waiting
    ensures StageAll(f, Created(v), k) == ViewOf(s)
    ensures Refines(f, s, k)
  {
    if k == 0 {
      s := f.Init();
      assert f.Run([s], s);
    } else {
      var r := SequentialCallsAreARun(f, v, k - 1);
      s := NextCall(f, r, k - 1);
    }
  }

  /** One more call: it takes its two steps, with the effect of the call on the view. */
  lemma NextCall(f: File, r: State, i: nat) returns (s: State)
    requires f.Reachable(r) && f.CanWrite(r, i) && Refines(f, r, i)
    ensures f.Reachable(s) && s.phases == r.phases[i := Finished] && Refines(f, s, i + 1)
    ensures Staged(f.cipher, f.bs, ViewOf(r), BlockOffset(f.bs, f.calls[i].block), f.calls[i].data, Some(f.calls[i].nonce)).1
         == ViewOf(s)
  {
    CallIsTwoSteps(f, r, i);
    var t := f.DoWrite(r, i);
    s := f.DoRecord(t, i);
    Extend(f, r, t, i);
    Extend(f, t, s, i);
    RefinesNext(f, r, i);
    assert s.phases == r.phases[i := Finished];
  }

  lemma RefinesNext(f: File, r: State, i: nat)
    requires f.CanWrite(r, i) && Refines(f, r, i)
    ensures f.CanRecord(f.DoWrite(r, i), i) && Refines(f, f.DoRecord(f.DoWrite(r, i), i), i + 1)
  {
    var s := f.DoRecord(f.DoWrite(r, i), i);
    forall b | b in s.writer ensures s.writer[b] < |f.calls| && f.Block(s, b) == Blocks(f.calls, i + 1)[b] {
      if b != f.calls[i].block { assert b in r.writer; }
    }
  }

  lemma Extend(f: File, r: State, s: State, i: nat)
    requires f.Reachable(r) && (f.WriteStep(r, s, i) || f.RecordStep(r, s, i))
    ensures f.Reachable(s)
  {
    var run: seq<State> :| f.Run(run, r);
    var longer := run + [s];
    assert longer[..|longer| - 1] == run;
    assert f.Run(longer, s);
  }

  lemma {:induction false} SamePlain(f: File, s: State, blocks: map<nat, seq<byte>>, n: nat)
    requires s.writer.Keys == blocks.Keys
    requires forall b :: b in s.writer ==> f.Block(s, b) == blocks[b]
    ensures f.Logical(s, n) == Plain(blocks, n)
  {
    if n > 0 { SamePlain(f, s, blocks, n - 1); }
  }

  /** The state behind the view after every call has returned. */
  lemma AfterAllCalls(f: File, v: FileView, last: nat, tail: nat) returns (s: State)
    requires f.Legal() && f.Covers(last, tail) && Empty(v)
    ensures f.Reachable(s) && f.AllFinished(s)
    ensures StageAll(f, Created(v), |f.calls|) == ViewOf(s)
    ensures f.Logical(s, last + 1) == Plain(Blocks(f.calls, |f.calls|), last + 1)
  {
    s := SequentialCallsAreARun(f, v, |f.calls|);
    SamePlain(f, s, Blocks(f.calls, |f.calls|), last + 1);
  }

  /** Create over empty storage, stage, commit: the size attribute before and after the commit is
      the length of the reference plaintext, and the commit drops the cached state. */
  lemma CreateStageCommitSize(f: File, v: FileView, last: nat, tail: nat)
    requires f.Legal() && f.Covers(last, tail) && Empty(v)
    ensures var staged := StageAll(f, Created(v), |f.calls|);
            var plain := Plain(Blocks(f.calls, |f.calls|), last + 1);
            var (r, stored) := Committed(f.bs, staged);
            && r.Ok? && !stored.cached && stored.record.None?
            && |plain| == BlockOffset(f.bs, last) + tail
            && SizeOf(f.bs, staged) == Ok(|plain|) == SizeOf(f.bs, stored)
  {
    var s := AfterAllCalls(f, v, last, tail);
    f.CommittedSize(s, last, tail);
  }

  /** ... and every block-aligned read of at most one block returns that slice of the plaintext. */
  lemma CreateStageCommitRead(f: File, v: FileView, last: nat, tail: nat, b: nat, buffer: seq<byte>)
    requires f.Legal() && f.Covers(last, tail) && Empty(v)
    requires BlockOffset(f.bs, b) <= |Plain(Blocks(f.calls, |f.calls|), last + 1)|
    requires ReadLength(|Plain(Blocks(f.calls, |f.calls|), last + 1)|, BlockOffset(f.bs, b), |buffer|) <= f.bs
    ensures var stored := Committed(f.bs, StageAll(f, Created(v), |f.calls|)).1;
            var plain := Plain(Blocks(f.calls, |f.calls|), last + 1);
            var at := BlockOffset(f.bs, b);
            var n := ReadLength(|plain|, at, |buffer|);
            var r := ReadInto(f.cipher, f.bs, stored.content, |plain|, at, buffer);
            r.Ok? && r.value.0 == n && |r.value.1| == |buffer| && r.value.1[..n] == plain[at..at + n]
  {
    var s := AfterAllCalls(f, v, last, tail);
    f.ReadReturnsSlice(s, last, tail, b, buffer);
  }
}
