/** Regular files of the in-memory file system: a buffer that grows by whole blocks. */
module TempFiles {
  import opened Words

  /** data is the buffer, size and blocks are st_size and st_blocks. */
  datatype File = File(data: seq<Byte>, size: nat, blocks: nat)

  predicate FileOk(f: File)
  {
    f.blocks >= 1 && |f.data| == f.blocks * FRAME && f.size <= f.blocks * FRAME
  }

  /** A new regular file: one zeroed block, all of it counted as contents. */
  function Created(): (f: File)
    ensures FileOk(f)
  {
    File(seq(FRAME, _ => 0), FRAME, 1)
  }

  function LastPage(count: nat, offset: nat): nat { (offset + count) / FRAME }

  /** Whether a write of count bytes at offset reallocates. */
  predicate Grows(f: File, count: nat, offset: nat) { f.blocks <= LastPage(count, offset) }

  /** New room after a reallocation: the old contents, then whatever memory held. */
  predicate Room(f: File, count: nat, offset: nat, junk: seq<Byte>)
  {
    |junk| == if Grows(f, count, offset) then (LastPage(count, offset) + 1) * FRAME - |f.data| else 0
  }

  function Grown(f: File, count: nat, offset: nat, junk: seq<Byte>): File
  {
    if Grows(f, count, offset) then File(f.data + junk, offset + count, LastPage(count, offset) + 1) else f
  }

  lemma GrownFits(f: File, count: nat, offset: nat, junk: seq<Byte>)
    requires FileOk(f) && Room(f, count, offset, junk)
    ensures FileOk(Grown(f, count, offset, junk)) && offset + count <= |Grown(f, count, offset, junk).data|
    ensures f.size <= Grown(f, count, offset, junk).size && f.data <= Grown(f, count, offset, junk).data
  {
    var p := LastPage(count, offset);
    assert offset + count < (p + 1) * FRAME && p * FRAME <= offset + count;
    if Grows(f, count, offset) {
      assert f.blocks * FRAME <= p * FRAME;
    } else {
      assert (p + 1) * FRAME <= f.blocks * FRAME;
    }
  }

  function Write(f: File, buff: seq<Byte>, offset: nat, junk: seq<Byte>): (g: File)
    requires FileOk(f) && Room(f, |buff|, offset, junk)
    ensures FileOk(g) && f.size <= g.size && |f.data| <= |g.data| && offset + |buff| <= |g.data|
  {
    GrownFits(f, |buff|, offset, junk);
    var g := Grown(f, |buff|, offset, junk);
    g.(data := g.data[..offset] + buff + g.data[offset + |buff|..])
  }

  /** A write puts its bytes in place and changes no other byte that was there. */
  lemma WriteBytes(f: File, buff: seq<Byte>, offset: nat, junk: seq<Byte>, i: nat)
    requires FileOk(f) && Room(f, |buff|, offset, junk)
    ensures offset <= i < offset + |buff| ==> Write(f, buff, offset, junk).data[i] == buff[i - offset]
    ensures i < |f.data| && !(offset <= i < offset + |buff|) ==> Write(f, buff, offset, junk).data[i] == f.data[i]
  {
    GrownFits(f, |buff|, offset, junk);
  }

  /** After a write the file's size covers it exactly when it lay inside the old size or reallocated. */
  lemma SizeCoversExactly(f: File, buff: seq<Byte>, offset: nat, junk: seq<Byte>)
    requires FileOk(f) && Room(f, |buff|, offset, junk)
    ensures offset + |buff| <= Write(f, buff, offset, junk).size <==>
      offset + |buff| <= f.size || Grows(f, |buff|, offset)
  {
  }

  // ----- Runs -----

  datatype Op = Op(buff: seq<Byte>, offset: nat, junk: seq<Byte>)

  predicate Fits(f: File, op: Op) { FileOk(f) && Room(f, |op.buff|, op.offset, op.junk) }

  /** Every reallocation along the run finds room of the right length. */
  predicate RunFits(f: File, ops: seq<Op>)
    decreases |ops|
  {
    FileOk(f) &&
    (ops == [] || (Fits(f, ops[0]) && RunFits(Write(f, ops[0].buff, ops[0].offset, ops[0].junk), ops[1..])))
  }

  function After(f: File, ops: seq<Op>): File
    requires RunFits(f, ops)
    decreases |ops|
  {
    if ops == [] then f else After(Write(f, ops[0].buff, ops[0].offset, ops[0].junk), ops[1..])
  }

  /** The byte last written at i, if any write reached it. */
  function LastWritten(ops: seq<Op>, i: nat): Option<Byte>
    decreases |ops|
  {
    if ops == [] then None
    else
      var later, op := LastWritten(ops[1..], i), ops[0];
      if later.Some? then later
      else if op.offset <= i < op.offset + |op.buff| then Some(op.buff[i - op.offset])
      else None
  }

  /** Over any run of writes: the invariant holds, the size never goes down, the last value written to
      every byte is there, and bytes of the first block that no write reached are still zero. */
  lemma {:induction false} RunKeepsWrites(f: File, ops: seq<Op>, i: nat)
    requires RunFits(f, ops)
    ensures FileOk(After(f, ops)) && f.size <= After(f, ops).size && |f.data| <= |After(f, ops).data|
    ensures LastWritten(ops, i).Some? ==> i < |After(f, ops).data| && After(f, ops).data[i] == LastWritten(ops, i).value
    ensures LastWritten(ops, i).None? && i < |f.data| ==> After(f, ops).data[i] == f.data[i]
    decreases |ops|
  {
    if ops != [] {
      var op := ops[0];
      WriteBytes(f, op.buff, op.offset, op.junk, i);
      RunKeepsWrites(Write(f, op.buff, op.offset, op.junk), ops[1..], i);
    }
  }

  /** How many bytes a read copies: up to the size, which is subtracted from in 64 bits, so that from an
      offset past it hardly anything is cut off. */
  function Count(f: File, count: nat, offset: nat): (n: nat)
    requires offset < WORD
  {
    var max := if offset <= f.size then f.size - offset else WORD - (offset - f.size);
    if count > max then max else count
  }

  /** What a read returns; None when the copy leaves the buffer. */
  function Read(f: File, count: nat, offset: nat): Option<seq<Byte>>
    requires offset < WORD
  {
    var n := Count(f, count, offset);
    if offset + n <= |f.data| then Some(f.data[offset..offset + n]) else None
  }

  /** A read returns all it was asked for exactly when that lies inside the size or, from an offset past
      the size, inside the buffer. */
  lemma WholeReadExactly(f: File, count: nat, offset: nat)
    requires FileOk(f) && |f.data| < WORD && offset < WORD
    ensures (Read(f, count, offset).Some? && |Read(f, count, offset).value| == count) <==>
            (offset + count <= f.size || (f.size < offset && offset + count <= |f.data|))
  {
  }

  /** Two writes after which a read from before the size does not reach the second, although a read from
      past the size does. */
  lemma SizeLagsBehind(junk: seq<Byte>)
    requires |junk| == FRAME
    ensures
      var g := Write(Write(Created(), [1], 5000, junk), [2], 6000, []);
      && g.size == 5001 && Read(g, 1001, 5000) == Some([1]) && Read(g, 1, 6000) == Some([2])
  {
    assert LastPage(1, 5000) == 1 && LastPage(1, 6000) == 1;
    var f := Write(Created(), [1], 5000, junk);
    var g := Write(f, [2], 6000, []);
    WriteBytes(Created(), [1], 5000, junk, 5000);
    WriteBytes(f, [2], 6000, [], 5000);
    WriteBytes(f, [2], 6000, [], 6000);
    assert g.data[5000..5001] == [1] && g.data[6000..6001] == [2];
  }

  /** A read after any run of writes returns the last byte written at every place that was written. */
  lemma ReadBack(ops: seq<Op>, count: nat, offset: nat, k: nat)
    requires RunFits(Created(), ops) && offset < WORD && Read(After(Created(), ops), count, offset).Some?
    requires k < |Read(After(Created(), ops), count, offset).value|
    ensures
      var r := Read(After(Created(), ops), count, offset).value;
      && (LastWritten(ops, offset + k).Some? ==> r[k] == LastWritten(ops, offset + k).value)
      && (LastWritten(ops, offset + k).None? && offset + k < FRAME ==> r[k] == 0)
  {
    RunKeepsWrites(Created(), ops, offset + k);
  }

  // ----- In place -----

  class TmpFile {
    var data: array<Byte>
    var size: nat
    var blocks: nat
    var offset: nat

    function Contents(): File
      reads this, data
    {
      File(data[..], size, blocks)
    }

    constructor ()
      ensures fresh(data) && Contents() == Created() && offset == 0
    {
      data, size, blocks, offset := new Byte[FRAME](_ => 0), FRAME, 1, 0;
      new;
      assert data[..] == Created().data;
    }

    /** kheap_realloc to n bytes: a fresh buffer that starts with the old contents. */
    method Realloc(n: nat) returns (ghost junk: seq<Byte>)
      requires n >= data.Length
      modifies this`data
      ensures fresh(data) && data[..] == old(data[..]) + junk && data.Length == n
    {
      var bigger := new Byte[n];
      for i := 0 to data.Length
        invariant data == old(data) && i <= data.Length && bigger[..i] == data[..i] && data[..] == old(data[..])
      {
        bigger[i] := data[i];
      }
      junk := bigger[data.Length..];
      assert bigger[..] == bigger[..data.Length] + junk;
      data := bigger;
    }

    /** Copies buff into the buffer at o. */
    method CopyIn(buff: seq<Byte>, o: nat)
      requires o + |buff| <= data.Length
      modifies data
      ensures data[..] == old(data[..o]) + buff + old(data[o + |buff|..])
    {
      for i := 0 to |buff|
        invariant data[..] == old(data[..o]) + buff[..i] + old(data[o + i..])
      {
        data[o + i] := buff[i];
      }
    }

    method WriteAt(buff: seq<Byte>, o: nat) returns (count: nat, ghost junk: seq<Byte>)
      requires FileOk(Contents())
      modifies this`data, this`size, this`blocks, data
      ensures Room(old(Contents()), |buff|, o, junk) && Contents() == Write(old(Contents()), buff, o, junk)
      ensures count == |buff|
    {
      ghost var f := Contents();
      var page := (o + |buff|) / FRAME;
      junk := [];
      if blocks <= page {
        junk := Realloc((page + 1) * FRAME);
        blocks := page + 1;
        size := o + |buff|;
      }
      GrownFits(f, |buff|, o, junk);
      CopyIn(buff, o);
      count := |buff|;
    }

    /** None is a copy that leaves the buffer. */
    method ReadAt(wanted: nat, o: nat) returns (buff: Option<seq<Byte>>)
      requires FileOk(Contents()) && o < WORD
      modifies this`offset
      ensures buff == Read(old(Contents()), wanted, o)
      ensures offset == old(offset) + if buff.Some? then |buff.value| else 0
    {
      var max := if o <= size then size - o else WORD - (o - size);
      var count := if wanted > max then max else wanted;
      if o + count > data.Length { return None; }
      buff := Some(data[o..o + count]);
      offset := offset + count;
    }
  }
}
