/** Blocks of view data: reserving room, appending values, and an undo log that gives back a captured state. */
module MultiBuffer {
  import opened Basics
  import opened Layout

  /** A block's bytes and the bytes it has room for. */
  datatype Block = Block(bytes: seq<Byte>, cap: nat)

  /** The undo log: how many blocks there were, the lengths of those appended to since, and which one was current. */
  datatype Log = Log(blockCount: nat, blockLengths: map<nat, nat>, currentOutput: nat)

  datatype State = State(blocks: seq<Block>, current: nat, log: Log)

  function RoundUpToMultipleOf64(n: nat): nat {
    (n + 63) / 64 * 64
  }

  lemma {:induction false} RoundedUp(n: nat)
    ensures n <= RoundUpToMultipleOf64(n) < n + 64 && RoundUpToMultipleOf64(n) % 64 == 0
  {}

  function Room(b: Block): int {
    b.cap - |b.bytes|
  }

  predicate Sound(s: State) {
    && (forall i :: 0 <= i < |s.blocks| ==> |s.blocks[i].bytes| <= s.blocks[i].cap)
    && (s.blocks != [] ==> s.current < |s.blocks|)
    && (s.blocks == [] ==> s.current == 0)
  }

  // ---------------------------------------------------------------------------------------------
  // Operations on states
  // ---------------------------------------------------------------------------------------------

  /** The first of n blocks with room, or n. */
  function Underfull(blocks: seq<Block>, nbytes: nat, n: nat): (i: nat)
    requires n <= |blocks|
    ensures i <= n && (i < n ==> nbytes <= Room(blocks[i]))
  {
    if n == 0 then 0
    else
      var i := Underfull(blocks, nbytes, n - 1);
      if i < n - 1 || nbytes <= Room(blocks[n - 1]) then i else n
  }

  function NewBlock(nbytes: nat, blockSize: nat): Block {
    Block([], RoundUpToMultipleOf64(if nbytes < blockSize then blockSize else nbytes))
  }

  /** Room in the current block, else in some block, else in a new one. */
  function Reserved(s: State, nbytes: nat, blockSize: nat): State {
    if s.blocks == [] then s.(blocks := [NewBlock(nbytes, blockSize)], current := 0)
    else if s.current < |s.blocks| && nbytes <= Room(s.blocks[s.current]) then s
    else
      var i := Underfull(s.blocks, nbytes, |s.blocks|);
      if i < |s.blocks| then s.(current := i)
      else s.(blocks := s.blocks + [NewBlock(nbytes, blockSize)], current := |s.blocks|)
  }

  ghost predicate HasRoom(s: State, n: nat) {
    s.current < |s.blocks| && n <= Room(s.blocks[s.current])
  }

  lemma {:induction false} ReservedHasRoom(s: State, nbytes: nat, blockSize: nat)
    requires Sound(s)
    ensures Sound(Reserved(s, nbytes, blockSize)) && HasRoom(Reserved(s, nbytes, blockSize), nbytes)
  {
    assert NewBlock(nbytes, blockSize).cap >= nbytes;
  }

  /**
   A block that has room is used: the current one, else the first. Only when none has room a block is added, and it has
   room for a whole block size and for the value.
   */
  lemma {:induction false} ReservedWhere(s: State, nbytes: nat, blockSize: nat)
    requires Sound(s)
    ensures var r := Reserved(s, nbytes, blockSize);
            if forall i :: 0 <= i < |s.blocks| ==> |s.blocks[i].bytes| + nbytes > s.blocks[i].cap then
              && |r.blocks| == |s.blocks| + 1 && r.blocks[..|s.blocks|] == s.blocks && r.current == |s.blocks|
              && r.blocks[r.current].bytes == [] && blockSize <= r.blocks[r.current].cap
            else
              && r.blocks == s.blocks
              && (|s.blocks[s.current].bytes| + nbytes <= s.blocks[s.current].cap ==> r.current == s.current)
              && (|s.blocks[s.current].bytes| + nbytes > s.blocks[s.current].cap ==>
                    forall i :: 0 <= i < r.current ==> |s.blocks[i].bytes| + nbytes > s.blocks[i].cap)
  {
    UnderfullIsFirst(s.blocks, nbytes, |s.blocks|);
  }

  lemma {:induction false} UnderfullIsFirst(blocks: seq<Block>, nbytes: nat, n: nat)
    requires n <= |blocks|
    ensures forall i :: 0 <= i < Underfull(blocks, nbytes, n) ==> Room(blocks[i]) < nbytes
  {
    if n > 0 { UnderfullIsFirst(blocks, nbytes, n - 1); }
  }

  /** The log remembers a block's length the first time the block grows. */
  function Recorded(log: Log, index: nat, length: nat): Log {
    if index >= log.blockCount || index in log.blockLengths then log
    else log.(blockLengths := log.blockLengths[index := length])
  }

  /** A value behind the current block's bytes. */
  function Appended(s: State, v: seq<Byte>): State
    requires s.current < |s.blocks|
  {
    var b := s.blocks[s.current];
    s.(blocks := s.blocks[s.current := b.(bytes := b.bytes + v)], log := Recorded(s.log, s.current, |b.bytes|))
  }

  /** Where the value went, in 32-bit numbers. */
  function HeaderFor(s: State, v: seq<Byte>): Header
    requires s.current < |s.blocks|
  {
    Ref(|v|, W32.Wrap(s.current), W32.Wrap(|s.blocks[s.current].bytes|))
  }

  function Captured(s: State): State {
    s.(log := Log(|s.blocks|, map[], s.current))
  }

  /** A block cut to a length; shrinking gives up the room behind it. */
  function Resized(b: Block, n: nat): Block {
    Block(if n <= |b.bytes| then b.bytes[..n] else b.bytes, RoundUpToMultipleOf64(n))
  }

  /** A cut block keeps less than 64 bytes of room. */
  lemma {:induction false} ResizedRoom(b: Block, n: nat)
    requires n <= |b.bytes|
    ensures Resized(b, n).bytes == b.bytes[..n] && 0 <= Room(Resized(b, n)) < 64
  {
    RoundedUp(n);
  }

  function Undone(s: State): State {
    State(UndoneBlocks(s, Smaller(s.log.blockCount, |s.blocks|)), s.log.currentOutput, s.log)
  }

  function UndoneBlocks(s: State, n: nat): (blocks: seq<Block>)
    requires n <= |s.blocks|
    ensures |blocks| == n
    ensures forall i {:trigger blocks[i]} :: 0 <= i < n ==>
              blocks[i] == if i in s.log.blockLengths then Resized(s.blocks[i], s.log.blockLengths[i]) else s.blocks[i]
  {
    if n == 0 then []
    else
      var block := s.blocks[n - 1];
      UndoneBlocks(s, n - 1) + [if n - 1 in s.log.blockLengths then Resized(block, s.log.blockLengths[n - 1])
          else block]
  }

  // ---------------------------------------------------------------------------------------------
  // Whole runs
  // ---------------------------------------------------------------------------------------------

  /** Puts a value: reserve room, then append. Reservations alone happen too. */
  datatype Op = Reserve(nbytes: nat) | Put(v: seq<Byte>)

  ghost function Step(s: State, op: Op, blockSize: nat): State
    requires Sound(s)
  {
    match op
    case Reserve(nbytes) => Reserved(s, nbytes, blockSize)
    case Put(v) =>
      ReservedHasRoom(s, |v|, blockSize);
      Appended(Reserved(s, |v|, blockSize), v)
  }

  lemma {:induction false} StepSound(s: State, op: Op, blockSize: nat)
    requires Sound(s)
    ensures Sound(Step(s, op, blockSize))
  {
    ReservedHasRoom(s, if op.Reserve? then op.nbytes else |op.v|, blockSize);
  }

  /** The state after the first n operations. */
  ghost function Run(s: State, ops: seq<Op>, blockSize: nat, n: nat): (r: State)
    requires Sound(s) && n <= |ops|
    ensures Sound(r)
  {
    if n == 0 then s
    else
      StepSound(Run(s, ops, blockSize, n - 1), ops[n - 1], blockSize);
      Step(Run(s, ops, blockSize, n - 1), ops[n - 1], blockSize)
  }

  /** Every block of `a` is a block of `b` that has only grown at its end. */
  ghost predicate Extends(a: State, b: State) {
    |a.blocks| <= |b.blocks| && forall i :: 0 <= i < |a.blocks| ==> BlockExtends(a, b, i)
  }

  ghost predicate BlockExtends(a: State, b: State, i: int)
    requires 0 <= i < |a.blocks| && i < |b.blocks|
  {
    |a.blocks[i].bytes| <= |b.blocks[i].bytes| && b.blocks[i].bytes[..|a.blocks[i].bytes|] == a.blocks[i].bytes
  }

  lemma {:induction false} StepExtends(s: State, op: Op, blockSize: nat)
    requires Sound(s)
    ensures Extends(s, Step(s, op, blockSize))
  {
    var t := Step(s, op, blockSize);
    if op.Put? { ReservedHasRoom(s, |op.v|, blockSize); }
    forall i | 0 <= i < |s.blocks| ensures i < |t.blocks| && BlockExtends(s, t, i) {}
  }

  lemma {:induction false} ExtendsTransitive(a: State, b: State, c: State)
    requires Extends(a, b) && Extends(b, c)
    ensures Extends(a, c)
  {
    forall i | 0 <= i < |a.blocks| ensures BlockExtends(a, c, i) {
      assert BlockExtends(a, b, i) && BlockExtends(b, c, i);
      var n := |a.blocks[i].bytes|;
      assert c.blocks[i].bytes[..n] == c.blocks[i].bytes[..|b.blocks[i].bytes|][..n];
    }
  }

  lemma {:induction false} RunExtends(s: State, ops: seq<Op>, blockSize: nat, n: nat)
    requires Sound(s) && n <= |ops|
    ensures Extends(s, Run(s, ops, blockSize, n))
  {
    if n == 0 {
      assert forall i :: 0 <= i < |s.blocks| ==> BlockExtends(s, s, i);
    } else {
      RunExtends(s, ops, blockSize, n - 1);
      StepExtends(Run(s, ops, blockSize, n - 1), ops[n - 1], blockSize);
      ExtendsTransitive(s, Run(s, ops, blockSize, n - 1), Run(s, ops, blockSize, n));
    }
  }

  ghost function BytesOf(blocks: seq<Block>): (bytes: seq<seq<Byte>>)
    ensures |bytes| == |blocks| && forall i {:trigger bytes[i]} :: 0 <= i < |blocks| ==> bytes[i] == blocks[i].bytes
  {
    if blocks == [] then [] else BytesOf(blocks[..|blocks| - 1]) + [blocks[|blocks| - 1].bytes]
  }

  /** What the current blocks resolve a header to stays the same as blocks grow. */
  lemma {:induction false} ResolvesSame(a: State, b: State, h: Header)
    requires Extends(a, b) && HeaderFits(h, BytesOf(a.blocks))
    ensures HeaderFits(h, BytesOf(b.blocks)) && Resolve(h, BytesOf(b.blocks)) == Resolve(h, BytesOf(a.blocks))
  {
    if h.Ref? {
      assert BlockExtends(a, b, h.buffer);
      PrefixPart(a.blocks[h.buffer].bytes, b.blocks[h.buffer].bytes, h.start, h.start + h.size);
    }
  }

  lemma {:induction false} PrefixPart<T>(s: seq<T>, longer: seq<T>, a: int, b: int)
    requires s <= longer && 0 <= a <= b <= |s|
    ensures longer[a..b] == s[a..b]
  {}

  /** The header of an appended value resolves to it, as long as its place can be written in 32 bits. */
  lemma {:induction false} AppendedResolves(s: State, v: seq<Byte>)
    requires Sound(s) && HasRoom(s, |v|) && s.current <= W32.Limit() && |s.blocks[s.current].bytes| <= W32.Limit()
    ensures var t := Appended(s, v);
            HeaderFits(HeaderFor(s, v), BytesOf(t.blocks)) && Resolve(HeaderFor(s, v), BytesOf(t.blocks)) == v
  {
    var t, b := Appended(s, v), s.blocks[s.current].bytes;
    assert BytesOf(t.blocks)[s.current] == b + v && (b + v)[|b|..|b| + |v|] == v;
  }

  /** Views are stable: whatever is reserved and appended later, a header resolves to the bytes it was written for. */
  lemma {:induction false} ViewsStable(s: State, v: seq<Byte>, ops: seq<Op>, blockSize: nat)
    requires Sound(s) && HasRoom(s, |v|) && s.current <= W32.Limit() && |s.blocks[s.current].bytes| <= W32.Limit()
    ensures Sound(Appended(s, v))
    ensures Resolve(HeaderFor(s, v), BytesOf(Run(Appended(s, v), ops, blockSize, |ops|).blocks)) == v
  {
    AppendedResolves(s, v);
    RunExtends(Appended(s, v), ops, blockSize, |ops|);
    ResolvesSame(Appended(s, v), Run(Appended(s, v), ops, blockSize, |ops|), HeaderFor(s, v));
  }

  // ---------------------------------------------------------------------------------------------
  // Undo
  // ---------------------------------------------------------------------------------------------

  /**
   The log of `s` leads back to `a`: unlogged blocks are as they were, logged ones have grown from the logged length.
   */
  ghost predicate LeadsBack(a: State, s: State) {
    && s.log.blockCount == |a.blocks| <= |s.blocks| && s.log.currentOutput == a.current
    && (forall i :: i in s.log.blockLengths ==> i < |a.blocks|)
    && forall i :: 0 <= i < |a.blocks| ==> BlockLeadsBack(a, s, i)
  }

  ghost predicate BlockLeadsBack(a: State, s: State, i: int)
    requires 0 <= i < |a.blocks| && i < |s.blocks|
  {
    && BlockExtends(a, s, i)
    && (if i in s.log.blockLengths then s.log.blockLengths[i] == |a.blocks[i].bytes| else s.blocks[i] == a.blocks[i])
  }

  lemma {:induction false} StepLeadsBack(a: State, s: State, op: Op, blockSize: nat)
    requires Sound(s) && LeadsBack(a, s)
    ensures LeadsBack(a, Step(s, op, blockSize))
  {
    var t := Step(s, op, blockSize);
    if op.Put? { ReservedHasRoom(s, |op.v|, blockSize); }
    forall i | 0 <= i < |a.blocks| ensures i < |t.blocks| && BlockLeadsBack(a, t, i) {
      assert BlockLeadsBack(a, s, i);
    }
  }

  lemma {:induction false} RunLeadsBack(a: State, ops: seq<Op>, blockSize: nat, n: nat)
    requires Sound(a) && n <= |ops|
    ensures Sound(Captured(a)) && LeadsBack(a, Run(Captured(a), ops, blockSize, n))
  {
    if n == 0 {
      assert forall i :: 0 <= i < |a.blocks| ==> BlockLeadsBack(a, Captured(a), i);
    } else {
      RunLeadsBack(a, ops, blockSize, n - 1);
      StepLeadsBack(a, Run(Captured(a), ops, blockSize, n - 1), ops[n - 1], blockSize);
    }
  }

  lemma {:induction false} UndoLeadsBack(a: State, s: State)
    requires Sound(a) && LeadsBack(a, s)
    ensures BytesOf(Undone(s).blocks) == BytesOf(a.blocks) && Undone(s).current == a.current && Sound(Undone(s))
  {
    var u := Undone(s);
    forall i | 0 <= i < |a.blocks|
      ensures u.blocks[i].bytes == a.blocks[i].bytes && |u.blocks[i].bytes| <= u.blocks[i].cap
    {
      assert BlockLeadsBack(a, s, i);
    }
  }

  /**
   Undo after any run of reservations and appends gives back the captured blocks, their lengths and the current block.
   */
  lemma {:induction false} UndoGivesBack(a: State, ops: seq<Op>, blockSize: nat)
    requires Sound(a)
    ensures Sound(Captured(a))
    ensures var u := Undone(Run(Captured(a), ops, blockSize, |ops|));
            BytesOf(u.blocks) == BytesOf(a.blocks) && u.current == a.current && Sound(u)
  {
    RunLeadsBack(a, ops, blockSize, |ops|);
    UndoLeadsBack(a, Run(Captured(a), ops, blockSize, |ops|));
  }

  // ---------------------------------------------------------------------------------------------
  // The builder
  // ---------------------------------------------------------------------------------------------

  class MultiBufferBuilder {
    var blocks: seq<Block>
    var currentOutBuffer: nat
    var checkpoint: Log
    const blockSize: nat

    ghost function Value(): State
      reads this
    {
      State(blocks, currentOutBuffer, checkpoint)
    }

    constructor (size: nat)
      ensures Value() == State([], 0, Log(0, map[], 0)) && Sound(Value()) && blockSize == size
    {
      blocks, currentOutBuffer, checkpoint, blockSize := [], 0, Log(0, map[], 0), size;
    }

    /** Makes room for a value in the current block, in another one that has room, or in a new block. */
    method Reserve(nbytes: nat)
      requires Sound(Value())
      modifies this
      ensures Sound(Value()) && Value() == Reserved(old(Value()), nbytes, blockSize) && HasRoom(Value(), nbytes)
    {
      ReservedHasRoom(Value(), nbytes, blockSize);
      if |blocks| == 0 {
        currentOutBuffer := 0;
        blocks := [NewBlock(nbytes, blockSize)];
        return;
      }
      if nbytes <= Room(blocks[currentOutBuffer]) {
        return;
      }
      for i := 0 to |blocks|
        invariant blocks == old(blocks) && Value() == old(Value()) && Underfull(blocks, nbytes, i) == i
      {
        if nbytes <= Room(blocks[i]) {
          UnderfullFirst(blocks, nbytes, i, |blocks|);
          currentOutBuffer := i;
          return;
        }
      }
      currentOutBuffer := |blocks|;
      blocks := blocks + [NewBlock(nbytes, blockSize)];
    }

    /** Appends a value to the current block and returns its header; the block's length is logged first. */
    method UnsafeAppend(v: seq<Byte>) returns (hdr: Header)
      requires Sound(Value()) && HasRoom(Value(), |v|)
      modifies this
      ensures Sound(Value()) && Value() == Appended(old(Value()), v) && hdr == HeaderFor(old(Value()), v)
    {
      var idx, buf := currentOutBuffer, blocks[currentOutBuffer];
      var offset := |buf.bytes|;
      checkpoint := Recorded(checkpoint, idx, offset);
      hdr := Ref(|v|, W32.Wrap(idx), W32.Wrap(offset));
      blocks := blocks[idx := buf.(bytes := buf.bytes + v)];
    }

    method Capture()
      modifies this
      ensures Value() == Captured(old(Value()))
    {
      checkpoint := Log(|blocks|, map[], currentOutBuffer);
    }

    /** Drops new blocks, cuts logged ones, in any order, and makes the captured block current. */
    method Restore()
      requires checkpoint.blockCount <= |blocks| && forall i :: i in checkpoint.blockLengths ==>
                 i < checkpoint.blockCount
      modifies this
      ensures Value() == Undone(old(Value()))
    {
      blocks := blocks[..checkpoint.blockCount];
      var kept, keys := blocks, checkpoint.blockLengths.Keys;
      while keys != {}
        invariant keys <= checkpoint.blockLengths.Keys && checkpoint == old(checkpoint) && |blocks| == |kept|
        invariant forall i: nat :: i < |kept| ==>
                    blocks[i] == if i in checkpoint.blockLengths
                        && i !in keys then Resized(kept[i], checkpoint.blockLengths[i]) else kept[i]
        decreases |keys|
      {
        var i: nat :| i in keys;
        blocks := blocks[i := Resized(blocks[i], checkpoint.blockLengths[i])];
        keys := keys - {i};
      }
      currentOutBuffer := checkpoint.currentOutput;
      assert blocks == UndoneBlocks(old(Value()), checkpoint.blockCount);
    }
  }

  lemma {:induction false} UnderfullFirst(blocks: seq<Block>, nbytes: nat, i: nat, n: nat)
    requires i < n <= |blocks| && Underfull(blocks, nbytes, i) == i && nbytes <= Room(blocks[i])
    ensures Underfull(blocks, nbytes, n) == i
  {
    if i < n - 1 { UnderfullFirst(blocks, nbytes, i, n - 1); }
  }
}
