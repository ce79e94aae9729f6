/** Stage calls into a committed file that nobody has open, with the lookup of the handle, its store,
    the size, the trailer and the store of the record as separate steps, as the two maps are used.
    Each call takes its steps in order; the steps of different calls interleave freely. */
module RacingOpens {
  import opened Outcomes
  import opened ByteStore
  import opened Aead
  import opened ChunkedFile
  import FileSession
  import ConcurrentStaging
  import Reopen

  /** A record is named after the call that made it. */
  datatype Phase =
    | Looking                  // about to load the handle
    | Missed                   // there was none; the file is opened
    | Opened                   // the handle is stored
    | Sized(size: nat)         // the size of the file has been read
    | Rebuilt(meta: ChunkMeta) // and the trailer
    | Found                    // there was a handle; about to load the record
    | Holding(record: nat)     // has a record
    | Written(record: nat)     // the chunk is written
    | Finished(record: nat)    // the record is updated
    | Failed
  {
    predicate Done() { Finished? || Failed? }

    predicate Has(r: nat) { this == Holding(r) || this == Written(r) || this == Finished(r) }
  }

  /** `current` is the record in the map. */
  datatype State = State(
    bytes: seq<byte>, handle: bool, current: Option<nat>, records: map<nat, ChunkMeta>, phases: seq<Phase>)

  datatype Race = Race(cipher: Cipher, bs: BlockSize, calls: seq<ConcurrentStaging.Call>, stored: seq<byte>, end: ChunkMeta)
  {
    /** The stored bytes are a committed file with the record `end`. */
    ghost predicate Legal() {
      && cipher.Sound() && (forall i :: 0 <= i < |calls| ==> |calls[i].data| <= bs)
      && Reopen.IsCommitted(bs, FileSession.FileView(Some(stored), false, None), end)
    }

    function Init(): State { State(stored, false, None, map[], seq(|calls|, _ => Looking)) }

    /** The record rebuilt from a size read earlier and the trailer read now. */
    function FromSize(bytes: seq<byte>, size: nat): Phase {
      if size % ChunkSize(bs) == 0 then Rebuilt(NO_BLOCK)
      else if size % ChunkSize(bs) != PADDING_LENGTH_SIZE || size < PADDING_LENGTH_SIZE || |bytes| < size then Failed
      else Rebuilt(ChunkMeta(size / ChunkSize(bs), GetInt64(bytes[size - PADDING_LENGTH_SIZE..size])))
    }

    function Go(s: State, i: nat, p: Phase): State
      requires i < |s.phases|
    {
      s.(phases := s.phases[i := p])
    }

    function StoreRecord(s: State, i: nat, m: ChunkMeta): State {
      s.(current := Some(i), records := s.records[i := m])
    }

    function WriteBlock(s: State, i: nat): State
      requires i < |calls|
    {
      s.(bytes := WriteChunk(cipher, bs, s.bytes, calls[i].block, calls[i].nonce, calls[i].data))
    }

    function NoteRecord(s: State, i: nat, r: nat): State
      requires i < |calls| && r in s.records
    {
      s.(records := s.records[r := NoteBlock(s.records[r], calls[i].block, PaddingOf(bs, calls[i].data))])
    }

    /** Where call `i` goes next. */
    function NextPhase(s: State, i: nat): Option<Phase>
      requires i < |s.phases|
    {
      match s.phases[i]
      case Looking => Some(if s.handle then Found else Missed)
      case Missed => Some(Opened)
      case Opened => Some(Sized(|s.bytes|))
      case Sized(size) => Some(FromSize(s.bytes, size))
      case Rebuilt(_) => Some(Holding(i))
      case Found => Some(if s.current.Some? then Holding(s.current.value) else Failed)
      case Holding(r) => Some(Written(r))
      case Written(r) => if r in s.records then Some(Finished(r)) else None
      case Finished(_) => None
      case Failed => None
    }

    /** What it does on the way. */
    function Effect(s: State, i: nat): State
      requires i < |calls| && i < |s.phases|
    {
      match s.phases[i]
      case Missed => s.(handle := true)
      case Rebuilt(m) => StoreRecord(s, i, m)
      case Holding(_) => WriteBlock(s, i)
      case Written(r) => if r in s.records then NoteRecord(s, i, r) else s
      case _ => s
    }

    /** The next step of call `i`; None when it is done. */
    function Step(s: State, i: nat): Option<State> {
      if i >= |calls| || |s.phases| != |calls| || NextPhase(s, i).None? then None
      else Some(Go(Effect(s, i), i, NextPhase(s, i).value))
    }

    /** The calls that step, in order. */
    function Exec(schedule: seq<nat>): Option<State> {
      if schedule == [] then Some(Init())
      else
        var n := |schedule| - 1;
        match Exec(schedule[..n])
        case None => None
        case Some(s) => Step(s, schedule[n])
    }

    ghost predicate Reachable(s: State) { exists schedule: seq<nat> :: Exec(schedule) == Some(s) }

    predicate AllDone(s: State) {
      |s.phases| == |calls| && forall i :: 0 <= i < |calls| ==> s.phases[i].Done()
    }

    /** The record a commit would use reaches every block of a finished call. */
    predicate Covers(s: State) {
      |s.phases| == |calls| &&
      forall i :: 0 <= i < |calls| && s.phases[i].Finished? ==>
        s.current.Some? && s.current.value in s.records
        && calls[i].block <= s.records[s.current.value].farthestBlockSeen
    }

    // ----- what every interleaving keeps -----

    /** The size of the committed file, or that of whole chunks past its end. */
    ghost predicate GoodSize(size: nat) {
      size == |stored| || exists n: nat :: n > end.farthestBlockSeen + 1 && size == ChunkOffset(bs, n)
    }

    ghost predicate SizeInv(s: State) {
      && GoodSize(|s.bytes|)
      && forall i :: 0 <= i < |s.phases| && s.phases[i].Sized? ==> GoodSize(s.phases[i].size) && s.phases[i].size <= |s.bytes|
    }

    ghost predicate RecordInv(s: State) {
      && |s.phases| == |calls|
      && (s.current.Some? ==> s.current.value in s.records)
      && (forall r :: r in s.records ==> r < |calls| && s.phases[r].Has(r))
      && (forall i :: 0 <= i < |calls| ==> HolderInv(s, i))
    }

    ghost predicate HolderInv(s: State, i: nat)
      requires i < |calls| == |s.phases|
    {
      match s.phases[i]
      case Holding(r) => r in s.records
      case Written(r) => r in s.records
      case Finished(r) => r in s.records && calls[i].block <= s.records[r].farthestBlockSeen
      case _ => true
    }

    lemma Sizes(size: nat)
      requires Legal() && GoodSize(size)
      ensures size == |stored| ==> size / ChunkSize(bs) == end.farthestBlockSeen + 1 && size % ChunkSize(bs) == PADDING_LENGTH_SIZE
      ensures size != |stored| ==> size % ChunkSize(bs) == 0 && size > |stored|
    {
      if size == |stored| {
        SpanSplits(ChunkSize(bs), end.farthestBlockSeen + 1, PADDING_LENGTH_SIZE);
      } else {
        var n: nat :| n > end.farthestBlockSeen + 1 && size == ChunkOffset(bs, n);
        SpanSplits(ChunkSize(bs), n, 0);
        ConcurrentStaging.SpanGrows(ChunkSize(bs), end.farthestBlockSeen + 2, n);
      }
    }

    /** A chunk write leaves the size alone or makes it that of the chunks up to the one written. */
    lemma WriteSize(s: State, i: nat)
      requires Legal() && i < |calls| && GoodSize(|s.bytes|)
      ensures |s.bytes| <= |WriteBlock(s, i).bytes| && GoodSize(|WriteBlock(s, i).bytes|)
      ensures calls[i].block <= end.farthestBlockSeen ==> |WriteBlock(s, i).bytes| == |s.bytes|
      ensures ChunkOffset(bs, calls[i].block + 1) <= |WriteBlock(s, i).bytes|
    {
      var call := calls[i];
      WriteChunkFraming(cipher, bs, s.bytes, call.block, call.nonce, call.data);
      SizeAfter(|s.bytes|, call.block);
    }

    lemma SizeAfter(size: nat, block: nat)
      requires Legal() && GoodSize(size)
      ensures GoodSize(if size < ChunkOffset(bs, block + 1) then ChunkOffset(bs, block + 1) else size)
      ensures block <= end.farthestBlockSeen ==> ChunkOffset(bs, block + 1) <= size
    {
      if block <= end.farthestBlockSeen {
        ConcurrentStaging.SpanGrows(ChunkSize(bs), block + 1, end.farthestBlockSeen + 1);
        Sizes(size);
      }
    }

    lemma StepKeepsSizes(s: State, i: nat, s': State)
      requires Legal() && SizeInv(s) && Step(s, i) == Some(s')
      ensures SizeInv(s')
    {
      if s.phases[i].Holding? { WriteSize(s, i); }
      forall k | 0 <= k < |s'.phases| && s'.phases[k].Sized?
        ensures GoodSize(s'.phases[k].size) && s'.phases[k].size <= |s'.bytes|
      {
        if k != i { assert s'.phases[k] == s.phases[k]; }
      }
    }

    lemma OwnHolder(s: State, i: nat, s': State)
      requires RecordInv(s) && Step(s, i) == Some(s')
      ensures HolderInv(s', i)
    {
      assert HolderInv(s, i);
    }

    lemma OtherHolder(s: State, i: nat, s': State, k: nat)
      requires RecordInv(s) && Step(s, i) == Some(s') && k < |calls| && k != i
      ensures s'.phases[k] == s.phases[k] && HolderInv(s', k)
    {
      assert HolderInv(s, k);
    }

    /** A record is made by a call that goes on to hold it. */
    lemma StepKeepsOwners(s: State, i: nat, s': State, r: nat)
      requires RecordInv(s) && Step(s, i) == Some(s') && r in s'.records
      ensures r < |calls| && s'.phases[r].Has(r)
    {
      if r in s.records { assert s.phases[r].Has(r); }
    }

    lemma StepKeepsRecords(s: State, i: nat, s': State)
      requires RecordInv(s) && Step(s, i) == Some(s')
      ensures RecordInv(s')
    {
      forall r | r in s'.records ensures r < |calls| && s'.phases[r].Has(r) { StepKeepsOwners(s, i, s', r); }
      forall k | 0 <= k < |calls| ensures HolderInv(s', k) {
        if k == i { OwnHolder(s, i, s'); } else { OtherHolder(s, i, s', k); }
      }
    }

    lemma {:induction false} ExecKeepsInv(schedule: seq<nat>, s: State)
      requires Legal() && Exec(schedule) == Some(s)
      ensures SizeInv(s) && RecordInv(s)
    {
      if schedule != [] {
        var n := |schedule| - 1;
        var r := Exec(schedule[..n]).value;
        ExecKeepsInv(schedule[..n], r);
        StepKeepsSizes(r, schedule[n], s);
        StepKeepsRecords(r, schedule[n], s);
      }
    }

    lemma ReachableInv(s: State)
      requires Legal() && Reachable(s)
      ensures SizeInv(s) && RecordInv(s)
    {
      var schedule: seq<nat> :| Exec(schedule) == Some(s);
      ExecKeepsInv(schedule, s);
    }

    // ----- calls that never lose a block -----

    predicate OnlyOldBlocks() { forall i :: 0 <= i < |calls| ==> calls[i].block <= end.farthestBlockSeen }

    predicate OneBlock() { forall i, j :: 0 <= i < |calls| && 0 <= j < |calls| ==> calls[i].block == calls[j].block }

    /** While only old blocks are staged the size never changes and every record is one past the end. */
    ghost predicate OldInv(s: State) {
      && |s.bytes| == |stored|
      && (forall i :: 0 <= i < |s.phases| && s.phases[i].Sized? ==> s.phases[i].size == |stored|)
      && (forall i :: 0 <= i < |s.phases| && s.phases[i].Rebuilt? ==> s.phases[i].meta.farthestBlockSeen == end.farthestBlockSeen + 1)
      && (forall r :: r in s.records ==> s.records[r].farthestBlockSeen == end.farthestBlockSeen + 1)
    }

    lemma StepKeepsOld(s: State, i: nat, s': State)
      requires Legal() && OnlyOldBlocks() && SizeInv(s) && OldInv(s) && Step(s, i) == Some(s')
      ensures OldInv(s')
    {
      Sizes(|stored|);
      if s.phases[i].Holding? { WriteSize(s, i); }
      forall k | 0 <= k < |s'.phases| && k != i ensures s'.phases[k] == s.phases[k] {}
    }

    lemma {:induction false} ExecKeepsOld(schedule: seq<nat>, s: State)
      requires Legal() && OnlyOldBlocks() && Exec(schedule) == Some(s)
      ensures OldInv(s)
    {
      if schedule != [] {
        var n := |schedule| - 1;
        var r := Exec(schedule[..n]).value;
        ExecKeepsOld(schedule[..n], r);
        ExecKeepsInv(schedule[..n], r);
        StepKeepsOld(r, schedule[n], s);
      }
    }

    /** A record in the map belongs to a call that has updated it, once all calls are done. */
    lemma SomeRecord(s: State, i: nat)
      requires Legal() && Reachable(s) && AllDone(s) && i < |calls| && s.phases[i].Finished?
      ensures s.current.Some? && s.current.value in s.records && s.current.value < |calls|
      ensures calls[s.current.value].block <= s.records[s.current.value].farthestBlockSeen
    {
      var schedule: seq<nat> :| Exec(schedule) == Some(s);
      ExecKeepsInv(schedule, s);
      ExecKeepsCurrent(schedule, s);
      assert HolderInv(s, i);
      var c := s.current.value;
      assert s.phases[c].Has(c) && s.phases[c].Done();
      assert HolderInv(s, c);
    }

    lemma {:induction false} ExecKeepsCurrent(schedule: seq<nat>, s: State)
      requires Exec(schedule) == Some(s)
      ensures s.records != map[] ==> s.current.Some?
    {
      if schedule != [] {
        var n := |schedule| - 1;
        ExecKeepsCurrent(schedule[..n], Exec(schedule[..n]).value);
      }
    }

    lemma SafeCallsAreCovered(s: State)
      requires Legal() && Reachable(s) && AllDone(s) && (OnlyOldBlocks() || OneBlock())
      ensures Covers(s)
    {
      forall i | 0 <= i < |calls| && s.phases[i].Finished?
        ensures s.current.Some? && s.current.value in s.records
             && calls[i].block <= s.records[s.current.value].farthestBlockSeen
      {
        SomeRecord(s, i);
        if OnlyOldBlocks() {
          var schedule: seq<nat> :| Exec(schedule) == Some(s);
          ExecKeepsOld(schedule, s);
        }
      }
    }

    // ----- and calls that can -----

    lemma Do(s: State, i: nat) returns (s': State)
      requires Reachable(s) && Step(s, i).Some?
      ensures Reachable(s') && Step(s, i) == Some(s')
    {
      var schedule: seq<nat> :| Exec(schedule) == Some(s);
      s' := Step(s, i).value;
      var longer := schedule + [i];
      assert longer[..|longer| - 1] == schedule;
      assert Exec(longer) == Some(s');
    }

    /** The first `n` calls look before anyone has stored a handle. */
    lemma {:induction false} LookAll(n: nat) returns (s: State)
      requires n <= |calls|
      ensures Reachable(s) && s.bytes == stored && !s.handle && s.current.None? && s.records == map[]
      ensures s.phases == seq(|calls|, i => if i < n then Missed else Looking)
    {
      if n == 0 {
        s := Init();
        assert Exec([]) == Some(s);
      } else {
        var r := LookAll(n - 1);
        s := Do(r, n - 1);
      }
    }

    lemma SizeAlone(s: State, k: nat) returns (s': State)
      requires Reachable(s) && k < |calls| == |s.phases| && s.phases[k] == Missed
      ensures Reachable(s') && s' == s.(handle := true, phases := s.phases[k := Sized(|s.bytes|)])
    {
      s' := Do(s, k);
      s' := Do(s', k);
    }

    /** A call that found no handle opens the file and stores its own record. */
    lemma OpenAlone(s: State, k: nat) returns (s': State)
      requires Legal() && Reachable(s) && k < |calls| == |s.phases| && s.phases[k] == Missed
      ensures Reachable(s') && s'.bytes == s.bytes && s'.current == Some(k) && k in s'.records
      ensures s'.phases == s.phases[k := Holding(k)]
      ensures |s.bytes| != |stored| ==> s'.records[k] == NO_BLOCK
    {
      ReachableInv(s);
      Sizes(|s.bytes|);
      var r := SizeAlone(s, k);
      s' := RebuildAlone(r, k, FromSize(r.bytes, |r.bytes|).meta);
    }

    lemma RebuildAlone(s: State, k: nat, m: ChunkMeta) returns (s': State)
      requires Reachable(s) && k < |calls| == |s.phases| && s.phases[k].Sized?
      requires FromSize(s.bytes, s.phases[k].size) == Rebuilt(m)
      ensures Reachable(s') && s'.bytes == s.bytes && s'.current == Some(k) && s'.records == s.records[k := m]
      ensures s'.phases == s.phases[k := Holding(k)]
    {
      s' := Do(s, k);
      s' := Do(s', k);
    }

    /** It writes its chunk and updates that record. */
    lemma FinishAlone(s: State, k: nat) returns (s': State)
      requires Reachable(s) && k < |calls| == |s.phases| && s.phases[k] == Holding(k) && k in s.records
      ensures Reachable(s') && s'.bytes == WriteBlock(s, k).bytes && s'.current == s.current && k in s'.records
      ensures s'.records[k] == NoteBlock(s.records[k], calls[k].block, PaddingOf(bs, calls[k].data))
      ensures s'.phases == s.phases[k := Finished(k)]
    {
      s' := Do(s, k);
      s' := Do(s', k);
      assert s'.phases == s.phases[k := Finished(k)];
    }

    lemma RunAlone(s: State, k: nat) returns (s': State)
      requires Legal() && Reachable(s) && k < |calls| == |s.phases| && s.phases[k] == Missed
      ensures Reachable(s') && s'.current == Some(k) && k in s'.records && s'.phases == s.phases[k := Finished(k)]
      ensures |s'.bytes| >= |s.bytes| && ChunkOffset(bs, calls[k].block + 1) <= |s'.bytes|
      ensures |s.bytes| != |stored| ==> s'.records[k].farthestBlockSeen == calls[k].block
    {
      var r := OpenAlone(s, k);
      ReachableInv(r);
      WriteSize(r, k);
      s' := FinishAlone(r, k);
    }

    /** The phases after all calls but `j` have run, up to call `n`. */
    function AllBut(j: nat, n: nat): seq<Phase> {
      seq(|calls|, i requires 0 <= i => if i < n && i != j then Finished(i) else Missed)
    }

    lemma {:induction false} RunOthers(j: nat, n: nat) returns (s: State)
      requires Legal() && n <= |calls|
      ensures Reachable(s) && s.phases == AllBut(j, n)
      ensures forall i :: 0 <= i < n && i != j ==> ChunkOffset(bs, calls[i].block + 1) <= |s.bytes|
    {
      if n == 0 {
        s := LookAll(|calls|);
        assert s.phases == AllBut(j, 0);
      } else {
        var r := RunOthers(j, n - 1);
        if n - 1 == j {
          s := r;
        } else {
          s := RunAlone(r, n - 1);
        }
        assert s.phases == AllBut(j, n);
      }
    }

    lemma {:induction false} FarthestCall(n: nat) returns (a: nat)
      requires 0 < n <= |calls|
      ensures a < n && forall i :: 0 <= i < n ==> calls[i].block <= calls[a].block
    {
      if n == 1 {
        a := 0;
      } else {
        a := FarthestCall(n - 1);
        if calls[a].block < calls[n - 1].block { a := n - 1; }
      }
    }

    /** A new block and a smaller one. */
    lemma TwoBlocks() returns (a: nat, j: nat)
      requires !OnlyOldBlocks() && !OneBlock()
      ensures a < |calls| && j < |calls| && calls[a].block > end.farthestBlockSeen && calls[j].block < calls[a].block
    {
      a := FarthestCall(|calls|);
      var p, q :| 0 <= p < |calls| && 0 <= q < |calls| && calls[p].block != calls[q].block;
      j := if calls[p].block == calls[a].block then q else p;
    }

    /** Everyone misses the handle, and the call with the smaller block comes last: its record, rebuilt
        from a file that ends with a chunk, is the one a commit uses. */
    lemma LastRecordWins(a: nat, j: nat) returns (s: State)
      requires Legal() && a < |calls| && j < |calls|
      requires calls[a].block > end.farthestBlockSeen && calls[j].block < calls[a].block
      ensures Reachable(s) && s.phases == AllBut(|calls|, |calls|) && |s.bytes| >= ChunkOffset(bs, calls[a].block + 1)
      ensures s.current == Some(j) && j in s.records && s.records[j].farthestBlockSeen == calls[j].block
    {
      var r := RunOthers(j, |calls|);
      ConcurrentStaging.SpanGrows(ChunkSize(bs), end.farthestBlockSeen + 2, calls[a].block + 1);
      assert |r.bytes| > |stored|;
      s := RunAlone(r, j);
      assert s.phases == AllBut(|calls|, |calls|);
    }

    /** Unless only old blocks or only one block is staged, some interleaving lets every call succeed and
        loses the block of one of them: the record in the map ends before it, and the file reports no
        bytes at all once it is committed. */
    lemma BlockIsLost() returns (s: State, a: nat)
      requires Legal() && !OnlyOldBlocks() && !OneBlock()
      ensures Reachable(s) && AllDone(s) && (forall i :: 0 <= i < |calls| ==> s.phases[i].Finished?)
      ensures a < |calls| && s.current.Some? && s.current.value in s.records
      ensures calls[a].block > s.records[s.current.value].farthestBlockSeen
      ensures SizeOnDisk(bs, CommitBytes(bs, s.bytes, s.records[s.current.value])) == 0
    {
      var j: nat;
      a, j := TwoBlocks();
      s := LastRecordWins(a, j);
      CutShort(s, a, s.records[j]);
    }

    lemma CutShort(s: State, a: nat, m: ChunkMeta)
      requires Legal() && Reachable(s) && a < |calls| && calls[a].block > end.farthestBlockSeen
      requires 0 <= m.farthestBlockSeen < calls[a].block && |s.bytes| >= ChunkOffset(bs, calls[a].block + 1)
      ensures SizeOnDisk(bs, CommitBytes(bs, s.bytes, m)) == 0
    {
      ReachableInv(s);
      ConcurrentStaging.SpanGrows(ChunkSize(bs), end.farthestBlockSeen + 2, calls[a].block + 1);
      Sizes(|s.bytes|);
      ConcurrentStaging.SpanGrows(ChunkSize(bs), m.farthestBlockSeen + 2, calls[a].block + 1);
      TrailerInside(s.bytes, m);
    }

    /** A trailer written inside a file of whole chunks is not found again. */
    lemma TrailerInside(bytes: seq<byte>, m: ChunkMeta)
      requires m.farthestBlockSeen >= 0 && ChunkOffset(bs, m.farthestBlockSeen + 1) + PADDING_LENGTH_SIZE <= |bytes|
      requires |bytes| % ChunkSize(bs) == 0
      ensures SizeOnDisk(bs, CommitBytes(bs, bytes, m)) == 0
    {
      assert |CommitBytes(bs, bytes, m)| == |bytes|;
    }

    /** In every interleaving the record a commit uses reaches every block of a finished call, if and
        only if the calls stage only blocks the file has, or all stage the same block. */
    lemma CoversExactlyWhen()
      requires Legal()
      ensures (forall s :: Reachable(s) && AllDone(s) ==> Covers(s)) <==> OnlyOldBlocks() || OneBlock()
    {
      if OnlyOldBlocks() || OneBlock() {
        forall s | Reachable(s) && AllDone(s) ensures Covers(s) { SafeCallsAreCovered(s); }
      } else {
        var s, a := BlockIsLost();
        assert !Covers(s);
      }
    }

    // ----- calls that fail because of another -----

    predicate NoneFailed(s: State) { forall i :: 0 <= i < |s.phases| ==> s.phases[i] != Failed }

    ghost predicate AloneInv(s: State) {
      && |s.phases| == |calls| == 1 && (s.handle ==> !s.phases[0].Looking?)
      && !s.phases[0].Found? && !s.phases[0].Failed?
    }

    lemma {:induction false} AloneNeverFails(schedule: seq<nat>, s: State)
      requires Legal() && |calls| == 1 && Exec(schedule) == Some(s)
      ensures AloneInv(s)
    {
      if schedule != [] {
        var n := |schedule| - 1;
        var r := Exec(schedule[..n]).value;
        AloneNeverFails(schedule[..n], r);
        ExecKeepsInv(schedule[..n], r);
        if r.phases[0].Sized? { Sizes(r.phases[0].size); }
      }
    }

    /** The second call finds the handle of the first before there is a record. */
    lemma SecondCallFails() returns (s: State)
      requires |calls| >= 2
      ensures Reachable(s) && s.phases[..2] == [Opened, Failed]
    {
      s := LookAll(1);
      s := Do(s, 0);
      s := Do(s, 1);
      s := Do(s, 1);
    }

    /** In every interleaving every call succeeds, if and only if there is at most one. */
    lemma AllSucceedExactlyWhen()
      requires Legal()
      ensures (forall s :: Reachable(s) ==> NoneFailed(s)) <==> |calls| <= 1
    {
      if |calls| <= 1 {
        forall s | Reachable(s) ensures NoneFailed(s) {
          ReachableInv(s);
          var schedule: seq<nat> :| Exec(schedule) == Some(s);
          if |calls| == 1 { AloneNeverFails(schedule, s); }
        }
      } else {
        var s := SecondCallFails();
        assert s.phases[..2][1] == Failed;
        assert !NoneFailed(s);
      }
    }
  }
}
