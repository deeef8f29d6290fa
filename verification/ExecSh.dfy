/** The growing read buffer of __exec_sh (mtk/debug_tool/src/functions.c:23-43). A run is the sequence
    of chunks fread returned before it returned none; malloc and realloc are taken to succeed. */
module ExecSh {

  type Byte = bv8

  const BUFFER_SIZE := 256   // the most one fread returns
  const INITIAL_ALLOC := 256

  /** All chunks in order. */
  function Concat(chunks: seq<seq<Byte>>): (r: seq<Byte>) {
    if chunks == [] then [] else chunks[0] + Concat(chunks[1..])
  }

  lemma {:induction false} ConcatAppend(chunks: seq<seq<Byte>>, c: seq<Byte>)
    ensures Concat(chunks + [c]) == Concat(chunks) + c
  {
    if chunks == [] {
      assert chunks + [c] == [c] && [c][1..] == [];
    } else {
      assert (chunks + [c])[1..] == chunks[1..] + [c];
      ConcatAppend(chunks[1..], c);
    }
  }

  /** Capacity, length, and the bytes realloc had to carry over so far. */
  datatype Growth = Growth(alloc: nat, len: nat, copied: nat)

  /** One turn of the loop: at most one doubling, whatever the chunk needs. */
  function Read(g: Growth, chread: nat): Growth {
    if g.len + chread >= g.alloc then Growth(2 * g.alloc, g.len + chread, g.copied + g.alloc)
    else Growth(g.alloc, g.len + chread, g.copied)
  }

  function ReadAll(initial: nat, sizes: seq<nat>): Growth
    decreases |sizes|
  {
    if sizes == [] then Growth(initial, 0, 0)
    else Read(ReadAll(initial, sizes[..|sizes| - 1]), sizes[|sizes| - 1])
  }

  /** fread returns between 1 and limit bytes, or ends the loop. */
  predicate ChunkSizes(sizes: seq<nat>, limit: nat) {
    forall k :: 0 <= k < |sizes| ==> 1 <= sizes[k] <= limit
  }

  /** For every run whose chunks are no larger than the initial capacity: the length stays below the
      capacity, the capacity is at most twice the length, and all reallocations together carried less
      than the final capacity. */
  lemma {:induction false} GrowthBounds(initial: nat, sizes: seq<nat>)
    requires initial > 0 && ChunkSizes(sizes, initial)
    ensures var g := ReadAll(initial, sizes);
            && g.len < g.alloc && initial <= g.alloc
            && (g.alloc == initial || g.alloc <= 2 * g.len)
            && g.copied == g.alloc - initial <= 2 * g.len
    decreases |sizes|
  {
    if sizes != [] {
      GrowthBounds(initial, sizes[..|sizes| - 1]);
    }
  }

  /** One doubling per chunk always makes room if and only if no chunk can exceed the initial
      capacity. */
  lemma OneDoublingSuffices(initial: nat, limit: nat)
    requires initial > 0
    ensures limit <= initial <==>
            forall sizes: seq<nat> :: ChunkSizes(sizes, limit) ==>
              ReadAll(initial, sizes).len < ReadAll(initial, sizes).alloc
  {
    if limit <= initial {
      forall sizes: seq<nat> | ChunkSizes(sizes, limit)
        ensures ReadAll(initial, sizes).len < ReadAll(initial, sizes).alloc
      {
        assert ChunkSizes(sizes, initial);
        GrowthBounds(initial, sizes);
      }
    } else {
      var sizes := Overflowing(initial, limit);
      assert ChunkSizes(sizes, limit);
    }
  }

  /** Fill the buffer up to its last byte, then read a full chunk. */
  lemma Overflowing(initial: nat, limit: nat) returns (sizes: seq<nat>)
    requires 0 < initial < limit
    ensures ChunkSizes(sizes, limit) && ReadAll(initial, sizes).len >= ReadAll(initial, sizes).alloc
  {
    if initial == 1 {
      sizes := [limit];
      assert ReadAll(initial, sizes[..0]) == Growth(initial, 0, 0);
    } else {
      sizes := [initial - 1, limit];
      assert sizes[..1] == [initial - 1] && [initial - 1][..0] == [];
      assert ReadAll(initial, [initial - 1]) == Read(ReadAll(initial, []), initial - 1);
    }
  }

  /** With a size_t that holds twice the whole output, none of the sums and doublings wraps. */
  lemma NoWrap(sizes: seq<nat>, k: nat, sizeMax: nat)
    requires ChunkSizes(sizes, BUFFER_SIZE) && k < |sizes|
    requires 2 * ReadAll(INITIAL_ALLOC, sizes).len <= sizeMax && 2 * INITIAL_ALLOC <= sizeMax
    ensures var g := ReadAll(INITIAL_ALLOC, sizes[..k]);
            && g.len + sizes[k] <= sizeMax
            && (g.len + sizes[k] >= g.alloc ==> 2 * g.alloc <= sizeMax)
  {
    LenGrows(INITIAL_ALLOC, sizes, k + 1);
    assert sizes[..k + 1][..k] == sizes[..k];
    GrowthBounds(INITIAL_ALLOC, sizes[..k]);
  }

  lemma {:induction false} LenGrows(initial: nat, sizes: seq<nat>, k: nat)
    requires k <= |sizes|
    ensures ReadAll(initial, sizes[..k]).len <= ReadAll(initial, sizes).len
    decreases |sizes| - k
  {
    if k < |sizes| {
      assert sizes[..k + 1][..k] == sizes[..k];
      LenGrows(initial, sizes, k + 1);
    } else {
      assert sizes[..k] == sizes;
    }
  }

  function Sizes(chunks: seq<seq<Byte>>): (r: seq<nat>)
    ensures |r| == |chunks| && forall k :: 0 <= k < |r| ==> r[k] == |chunks[k]|
  {
    seq(|chunks|, i requires 0 <= i < |chunks| => |chunks[i]|)
  }

  /** realloc: the old contents at the start of a larger block; used of them matter to the caller. */
  method Realloc(out: array<Byte>, ghost used: nat, alloc: nat) returns (bigger: array<Byte>)
    requires used <= out.Length <= alloc
    ensures fresh(bigger) && bigger.Length == alloc
    ensures bigger[..out.Length] == out[..] && bigger[..used] == out[..used]
  {
    bigger := new Byte[alloc];
    var i := 0;
    while i < out.Length
      invariant 0 <= i <= out.Length && bigger[..i] == out[..i]
    {
      bigger[i] := out[i];
      i := i + 1;
    }
    assert bigger[..used] == bigger[..out.Length][..used];
  }

  /** Copies the chunk behind the first at bytes of the block, every byte inside it. */
  method Store(out: array<Byte>, at: nat, buffer: seq<Byte>)
    requires at + |buffer| <= out.Length
    modifies out
    ensures out[..at + |buffer|] == old(out[..at]) + buffer
  {
    var i := 0;
    while i < |buffer|
      invariant 0 <= i <= |buffer|
      invariant out[..at + i] == old(out[..at]) + buffer[..i]
    {
      out[at + i] := buffer[i];
      i := i + 1;
    }
  }

  lemma NextChunk(chunks: seq<seq<Byte>>, n: nat)
    requires n < |chunks| && forall k :: 0 <= k < |chunks| ==> 1 <= |chunks[k]| <= BUFFER_SIZE
    ensures Concat(chunks[..n + 1]) == Concat(chunks[..n]) + chunks[n]
    ensures var g := ReadAll(INITIAL_ALLOC, Sizes(chunks)[..n]);
            var g' := ReadAll(INITIAL_ALLOC, Sizes(chunks)[..n + 1]);
            g' == Read(g, |chunks[n]|) && g'.len < g'.alloc
  {
    ConcatAppend(chunks[..n], chunks[n]);
    assert chunks[..n + 1] == chunks[..n] + [chunks[n]];
    assert Sizes(chunks)[..n + 1][..n] == Sizes(chunks)[..n];
    GrowthBounds(INITIAL_ALLOC, Sizes(chunks)[..n + 1]);
  }

  /** One turn of the loop. */
  method Turn(out: array<Byte>, len: nat, ghost copied: nat, buffer: seq<Byte>)
    returns (bigger: array<Byte>, newLen: nat, ghost newCopied: nat)
    requires len < out.Length && len + |buffer| < 2 * out.Length
    modifies out
    ensures bigger == out || fresh(bigger)
    ensures Growth(bigger.Length, newLen, newCopied) == Read(Growth(out.Length, len, copied), |buffer|)
    ensures newLen <= bigger.Length && bigger[..newLen] == old(out[..len]) + buffer
  {
    bigger, newCopied := out, copied;
    if len + |buffer| >= out.Length {
      newCopied := copied + out.Length;
      bigger := Realloc(out, len, out.Length * 2);
    }
    Store(bigger, len, buffer);
    newLen := len + |buffer|;
  }

  /** The buffer holds the whole output in order and has room to spare. copied counts the bytes of the
      old blocks handed to realloc. */
  method Collect(chunks: seq<seq<Byte>>) returns (out: array<Byte>, len: nat, ghost copied: nat)
    requires forall k :: 0 <= k < |chunks| ==> 1 <= |chunks[k]| <= BUFFER_SIZE
    ensures fresh(out) && len < out.Length && out[..len] == Concat(chunks)
    ensures Growth(out.Length, len, copied) == ReadAll(INITIAL_ALLOC, Sizes(chunks))
    ensures out.Length == 256 || out.Length <= 2 * len
    ensures copied <= 2 * len
  {
    len := 0;
    copied := 0;
    out := new Byte[INITIAL_ALLOC];
    var n := 0;
    while n < |chunks|
      invariant 0 <= n <= |chunks|
      invariant fresh(out) && len < out.Length && out[..len] == Concat(chunks[..n])
      invariant Growth(out.Length, len, copied) == ReadAll(INITIAL_ALLOC, Sizes(chunks)[..n])
    {
      NextChunk(chunks, n);
      out, len, copied := Turn(out, len, copied, chunks[n]);
      n := n + 1;
    }
    assert chunks[..n] == chunks && Sizes(chunks)[..n] == Sizes(chunks);
    GrowthBounds(INITIAL_ALLOC, Sizes(chunks));
  }

  /** NULL when popen fails. Otherwise the buffer, whose length the caller is not told. */
  method ExecSh(started: bool, chunks: seq<seq<Byte>>) returns (out: array?<Byte>)
    requires forall k :: 0 <= k < |chunks| ==> 1 <= |chunks[k]| <= BUFFER_SIZE
    ensures out == null <==> !started
    ensures out != null ==> |Concat(chunks)| < out.Length && out[..|Concat(chunks)|] == Concat(chunks)
  {
    if !started {
      return null;
    }
    var buffer, len, _ := Collect(chunks);
    assert |buffer[..len]| == len;
    out := buffer;
  }
}
