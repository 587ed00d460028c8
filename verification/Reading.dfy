// What BGET and PTR# return over whole runs: a file to its end, and from wherever PTR is set.

module Reading {
  import opened Bytes
  import opened Channels

  // ---- Reading a file to its end ----

  function Gets(handle: byte, n: nat): seq<Op> { if n == 0 then [] else [Get(handle)] + Gets(handle, n - 1) }

  // From PTR on: every byte left, then $fe with carry set, then the error.
  lemma {:induction false} ReadsToEnd(fs: Files, image: seq<byte>, handle: byte)
    requires AllOnImage(fs, image) && OffsetOf(handle) in fs
    requires var f := fs[OffsetOf(handle)]; !f.warned
    ensures var f := fs[OffsetOf(handle)];
      var left := f.extent - f.ptr;
      Run(fs, image, Gets(handle, left + 2)).1 == Following(f, image, left) + [EndOfFile, EofError]
    decreases fs[OffsetOf(handle)].extent - fs[OffsetOf(handle)].ptr
  {
    hide OffsetOf, Step, Run, Gets, Following;
    var f := fs[OffsetOf(handle)];
    var left := f.extent - f.ptr;
    GetOutcome(fs, image, handle);
    FirstGet(fs, image, handle, left + 1);
    if left == 0 {
      EndOutcome(fs, image, handle);
    } else {
      var (next, out) := Step(fs, image, Get(handle));
      ReadsToEnd(next, image, handle);
      FollowingFirst(f, image, left - 1);
      var rest := Following(next[OffsetOf(handle)], image, left - 1);
      assert [out] + (rest + [EndOfFile, EofError]) == [out] + rest + [EndOfFile, EofError];
    }
  }

  lemma GetOutcome(fs: Files, image: seq<byte>, handle: byte)
    requires AllOnImage(fs, image) && OffsetOf(handle) in fs
    ensures var y := OffsetOf(handle);
      var f := fs[y];
      var (next, out) := Step(fs, image, Get(handle));
      && y in next
      && (f.ptr < f.extent ==> next[y] == f.(ptr := f.ptr + 1) && out == Byte(image[256 * f.start + f.ptr]))
      && (f.ptr == f.extent && !f.warned ==> next[y] == f.(warned := true) && out == EndOfFile)
      && (f.ptr == f.extent && f.warned ==> next == fs && out == EofError)
  {
    hide OffsetOf;
  }

  // At the end of the file.
  lemma EndOutcome(fs: Files, image: seq<byte>, handle: byte)
    requires AllOnImage(fs, image) && OffsetOf(handle) in fs
    requires var f := fs[OffsetOf(handle)]; f.ptr == f.extent && !f.warned
    ensures var f := fs[OffsetOf(handle)];
      Run(fs, image, Gets(handle, 2)).1 == Following(f, image, 0) + [EndOfFile, EofError]
  {
    hide OffsetOf, Step;
    GetOutcome(fs, image, handle);
    FirstGet(fs, image, handle, 1);
    var next := Step(fs, image, Get(handle)).0;
    GetOutcome(next, image, handle);
    FirstGet(next, image, handle, 0);
    assert Gets(handle, 0) == [];
  }

  lemma FirstGet(fs: Files, image: seq<byte>, handle: byte, n: nat)
    requires AllOnImage(fs, image)
    ensures var (next, out) := Step(fs, image, Get(handle));
      Run(fs, image, Gets(handle, n + 1)).1 == [out] + Run(next, image, Gets(handle, n)).1
  {
    assert Gets(handle, n + 1)[1..] == Gets(handle, n);
  }

  // ---- Seeking and reading on ----

  lemma {:induction false} GetsCount(handle: byte, n: nat)
    ensures |Gets(handle, n)| == n && CountOf(Gets(handle, n), OffsetOf(handle)) == n
    ensures forall i :: 0 <= i < n ==> Gets(handle, n)[i] == Get(handle)
  {
    hide OffsetOf;
    if n > 0 {
      GetsCount(handle, n - 1);
      assert Gets(handle, n)[1..] == Gets(handle, n - 1);
    }
  }

  lemma {:induction false} OwnOutcomes(handle: byte, n: nat, outs: seq<Outcome>)
    requires |outs| == n == |Gets(handle, n)|
    ensures OutcomesOf(Gets(handle, n), outs, OffsetOf(handle)) == outs
  {
    hide OffsetOf;
    if n > 0 {
      assert Gets(handle, n)[1..] == Gets(handle, n - 1);
      OwnOutcomes(handle, n - 1, outs[1..]);
      assert outs == [outs[0]] + outs[1..];
    }
  }

  // Reading never moves another file.
  lemma {:induction false} OthersStay(fs: Files, image: seq<byte>, handle: byte, n: nat, z: byte)
    requires AllOnImage(fs, image) && z in fs && z != OffsetOf(handle)
    ensures Run(fs, image, Gets(handle, n)).0[z] == fs[z]
    decreases n
  {
    hide OffsetOf, Step;
    if n > 0 {
      var next := Step(fs, image, Get(handle)).0;
      StepOn(fs, image, z, Get(handle));
      OthersStay(next, image, handle, n - 1, z);
      assert Gets(handle, n)[1..] == Gets(handle, n - 1);
    }
  }

  // n bytes from PTR.
  lemma ReadsFrom(fs: Files, image: seq<byte>, handle: byte, n: nat)
    requires AllOnImage(fs, image) && OffsetOf(handle) in fs
    requires fs[OffsetOf(handle)].ptr + n <= fs[OffsetOf(handle)].extent
    ensures var (y, f) := (OffsetOf(handle), fs[OffsetOf(handle)]);
      var (after, outs) := Run(fs, image, Gets(handle, n));
      && after == fs[y := f.(ptr := f.ptr + n)]
      && |outs| == n && forall i :: 0 <= i < n ==> outs[i] == Byte(image[256 * f.start + f.ptr + i])
  {
    hide OffsetOf, Run, Gets, CountOf, Following, OutcomesOf;
    var y, ops := OffsetOf(handle), Gets(handle, n);
    var f := fs[y];
    var (after, outs) := Run(fs, image, ops);
    GetsCount(handle, n);
    ReadsOn(fs, image, y, ops);
    OwnOutcomes(handle, n, outs);
    forall i | 0 <= i < n
      ensures outs[i] == Byte(image[256 * f.start + f.ptr + i])
    {
      FollowingAt(f, image, n, i);
    }
    forall z | z in fs && z != y
      ensures after[z] == fs[z]
    {
      OthersStay(fs, image, handle, n, z);
    }
    assert after == fs[y := f.(ptr := f.ptr + n)];
  }

  lemma SeekFirst(fs: Files, image: seq<byte>, handle: byte, to: nat, ops: seq<Op>)
    requires AllOnImage(fs, image)
    ensures var (next, out) := Step(fs, image, Seek(handle, to));
      Run(fs, image, [Seek(handle, to)] + ops) == (Run(next, image, ops).0, [out] + Run(next, image, ops).1)
  {
    hide Step;
    assert ([Seek(handle, to)] + ops)[1..] == ops;
  }

  // PTR#= inside the file or at its end, and n bytes from there; no other file moves.
  lemma SeekReads(fs: Files, image: seq<byte>, handle: byte, to: nat, n: nat)
    requires AllOnImage(fs, image) && OffsetOf(handle) in fs && to + n <= fs[OffsetOf(handle)].extent
    ensures var (y, f) := (OffsetOf(handle), fs[OffsetOf(handle)]);
      var (after, outs) := Run(fs, image, [Seek(handle, to)] + Gets(handle, n));
      && after == fs[y := f.(ptr := to + n, warned := false)]
      && |outs| == n + 1 && outs[0] == Done
      && forall i :: 1 <= i <= n ==> outs[i] == Byte(image[256 * f.start + to + i - 1])
  {
    hide OffsetOf, Run, Gets;
    SeekFirst(fs, image, handle, to, Gets(handle, n));
    var next := Step(fs, image, Seek(handle, to)).0;
    ReadsFrom(next, image, handle, n);
  }

  // At the end of the file: the end is reported again, then the error.
  lemma SeekEnd(fs: Files, image: seq<byte>, handle: byte)
    requires AllOnImage(fs, image) && OffsetOf(handle) in fs
    ensures var f := fs[OffsetOf(handle)];
      Run(fs, image, [Seek(handle, f.extent)] + Gets(handle, 2)).1 == [Done, EndOfFile, EofError]
  {
    hide OffsetOf, Run, Gets;
    var f := fs[OffsetOf(handle)];
    SeekFirst(fs, image, handle, f.extent, Gets(handle, 2));
    var next := Step(fs, image, Seek(handle, f.extent)).0;
    EndOutcome(next, image, handle);
    assert Following(next[OffsetOf(handle)], image, 0) == [];
    assert [Done] + ([] + [EndOfFile, EofError]) == [Done, EndOfFile, EofError];
  }

  // Beyond it: an error, with PTR left at the end; what has been reported stays reported.
  lemma SeekBeyond(fs: Files, image: seq<byte>, handle: byte, to: nat)
    requires AllOnImage(fs, image) && OffsetOf(handle) in fs && to > fs[OffsetOf(handle)].extent
    ensures var (y, f) := (OffsetOf(handle), fs[OffsetOf(handle)]);
      Run(fs, image, [Seek(handle, to)]) == (fs[y := f.(ptr := f.extent)], [ReadOnlyError])
  {
    hide OffsetOf;
    SeekFirst(fs, image, handle, to, []);
    assert [Seek(handle, to)] + [] == [Seek(handle, to)];
    assert [ReadOnlyError] + [] == [ReadOnlyError];
  }
}
