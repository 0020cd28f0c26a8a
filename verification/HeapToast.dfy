/** amcheck's check of a toasted value: its chunks, in the order the toast index
    returns them. */
module HeapToast {
  import opened Optional

  const CHUNK := 1996
  const TWO32 := 0x1_0000_0000

  /** chunk_seq and chunk_data; None is null, and a size is None when the varlena
      header is of no known kind. */
  datatype Chunk = Chunk(seqno: Option<int>, data: Option<Option<int>>)

  /** Conversion to a signed 32-bit integer. */
  function Int32(x: int): int
  {
    var m := x % TWO32;
    if m < TWO32 / 2 then m else m - TWO32
  }

  /** (extsize - 1) / CHUNK in unsigned 32-bit arithmetic. */
  function LastSeq(extsize: nat): nat { ((extsize - 1) % TWO32) / CHUNK }

  function ExpectedSize(extsize: nat, seqno: int): int
  {
    if seqno < LastSeq(extsize) then CHUNK else Int32(extsize - LastSeq(extsize) * CHUNK)
  }

  /** The chunk that should come i-th. */
  function Whole(extsize: nat, i: int): Chunk { Chunk(Some(i), Some(Some(ExpectedSize(extsize, i)))) }

  /** check_toast_tuple. */
  method CheckChunk(c: Chunk, expected: int, extsize: nat) returns (report: bool, next: int)
    ensures report <==> !(c == Whole(extsize, expected) && expected <= LastSeq(extsize))
    ensures !report ==> next == expected + 1
  {
    if c.seqno.None? {
      return true, expected;
    }
    var seqno := c.seqno.value;
    report := seqno != expected;
    next := seqno + 1;
    if c.data.None? || c.data.value.None? || seqno > LastSeq(extsize) {
      return true, next;
    }
    if c.data.value.value != ExpectedSize(extsize, seqno) {
      report := true;
    }
  }

  /** The chunks are numbered 0 to the last one, in order, each of its full size. */
  predicate Complete(chunks: seq<Chunk>, extsize: nat)
  {
    |chunks| == LastSeq(extsize) + 1 && forall i :: 0 <= i < |chunks| ==> chunks[i] == Whole(extsize, i)
  }

  /** check_toasted_attribute. */
  method CheckToasted(chunks: seq<Chunk>, extsize: nat) returns (report: bool)
    ensures report <==> !Complete(chunks, extsize)
  {
    report := false;
    var expected := 0;
    var i := 0;
    while i < |chunks|
      invariant 0 <= i <= |chunks|
      invariant report <==> exists k :: 0 <= k < i && !(chunks[k] == Whole(extsize, k) && k <= LastSeq(extsize))
      invariant !report ==> expected == i
    {
      var r;
      r, expected := CheckChunk(chunks[i], expected, extsize);
      report := report || r;
      i := i + 1;
    }
    if |chunks| == 0 || expected <= LastSeq(extsize) {
      report := true;
    } else if !report {
      assert chunks[|chunks| - 1] == Whole(extsize, |chunks| - 1) && |chunks| - 1 <= LastSeq(extsize);
    }
  }

  /** For a value of some size: as many chunks as it takes, numbered from 0, each of 1996
      bytes but the last, which has the rest. */
  lemma CompleteIff(chunks: seq<Chunk>, extsize: nat)
    requires 0 < extsize < TWO32
    ensures Complete(chunks, extsize) <==>
      && chunks != [] && 1996 * (|chunks| - 1) < extsize <= 1996 * |chunks|
      && forall i :: 0 <= i < |chunks| ==>
           chunks[i] == Chunk(Some(i), Some(Some(if i + 1 < |chunks| then 1996 else extsize - 1996 * (|chunks| - 1))))
  {
    LastSize(extsize);
  }

  // --------------------------------------------------------------- the sum

  function SizeOf(c: Chunk): int { if c.data.Some? && c.data.value.Some? then c.data.value.value else 0 }

  function Total(chunks: seq<Chunk>, n: nat): int
    requires n <= |chunks|
  {
    if n == 0 then 0 else Total(chunks, n - 1) + SizeOf(chunks[n - 1])
  }

  lemma {:induction false} FullChunks(chunks: seq<Chunk>, extsize: nat, n: nat)
    requires n <= |chunks| && n <= LastSeq(extsize) && forall i :: 0 <= i < n ==> chunks[i] == Whole(extsize, i)
    ensures Total(chunks, n) == n * CHUNK
  {
    if n > 0 {
      FullChunks(chunks, extsize, n - 1);
    }
  }

  /** The size the chunks of an accepted value add up to. */
  function Promised(extsize: nat): nat { if extsize == 0 then TWO32 else extsize }

  lemma LastSize(extsize: nat)
    requires extsize < TWO32
    ensures LastSeq(extsize) * CHUNK < Promised(extsize) <= (LastSeq(extsize) + 1) * CHUNK
    ensures ExpectedSize(extsize, LastSeq(extsize)) == Promised(extsize) - LastSeq(extsize) * CHUNK
  {
  }

  /** With nothing reported the chunk sizes add up to the external size, unless that is
      zero: the unsigned subtraction then asks for all of 2^32 bytes. */
  lemma CompleteAddsUp(chunks: seq<Chunk>, extsize: nat)
    requires extsize < TWO32 && Complete(chunks, extsize)
    ensures Total(chunks, |chunks|) == Promised(extsize)
    ensures Total(chunks, |chunks|) == extsize <==> extsize > 0
  {
    LastSize(extsize);
    FullChunks(chunks, extsize, LastSeq(extsize));
  }
}
