/** A stream over several files that reads as one file. */
module MergedFileStreams {

  import opened ByteStrings

  function Sum(sizes: seq<nat>): nat {
    if sizes == [] then 0 else sizes[0] + Sum(sizes[1..])
  }

  lemma {:induction false} SumPrefix(sizes: seq<nat>, i: nat)
    requires i < |sizes|
    ensures Sum(sizes[..i + 1]) == Sum(sizes[..i]) + sizes[i] <= Sum(sizes)
  {
    if i > 0 {
      SumPrefix(sizes[1..], i - 1);
      assert sizes[..i + 1][1..] == sizes[1..][..i] && sizes[..i][1..] == sizes[1..][..i - 1];
    } else {
      assert sizes[..1][1..] == [] && sizes[..0] == [];
    }
  }

  /** Each file holds at least the bytes it is declared to have. */
  ghost predicate Hold(files: seq<Bytes>, sizes: seq<nat>) {
    |files| == |sizes| && forall i :: 0 <= i < |files| ==> sizes[i] <= |files[i]|
  }

  /** The single file: the declared part of every file, one after the other. */
  ghost function Whole(files: seq<Bytes>, sizes: seq<nat>): (w: Bytes)
    requires Hold(files, sizes)
    ensures |w| == Sum(sizes)
  {
    if files == [] then [] else files[0][..sizes[0]] + Whole(files[1..], sizes[1..])
  }

  /** A part of one file is the same part of the whole. */
  lemma {:induction false} PartOfWhole(files: seq<Bytes>, sizes: seq<nat>, i: nat, from: nat, n: nat)
    requires Hold(files, sizes) && i < |files| && from + n <= sizes[i]
    ensures var at := Sum(sizes[..i]) + from;
            at + n <= Sum(sizes) && Whole(files, sizes)[at..at + n] == files[i][from..from + n]
  {
    var first, rest := files[0][..sizes[0]], Whole(files[1..], sizes[1..]);
    if i == 0 {
      assert sizes[..0] == [];
      PartOfFirst(files[0], sizes[0], rest, from, n);
    } else {
      PartOfWhole(files[1..], sizes[1..], i - 1, from, n);
      FirstSize(sizes, i);
      PartOfRest(first, rest, Sum(sizes[1..][..i - 1]) + from, n);
    }
  }

  lemma FirstSize(sizes: seq<nat>, i: nat)
    requires 0 < i <= |sizes|
    ensures Sum(sizes[..i]) == sizes[0] + Sum(sizes[1..][..i - 1])
  {
    assert sizes[..i][1..] == sizes[1..][..i - 1];
  }

  lemma PartOfFirst(file: Bytes, size: nat, rest: Bytes, from: nat, n: nat)
    requires from + n <= size <= |file|
    ensures (file[..size] + rest)[from..from + n] == file[from..from + n]
  {
  }

  lemma PartOfRest(first: Bytes, rest: Bytes, at: nat, n: nat)
    requires at + n <= |rest|
    ensures (first + rest)[|first| + at..|first| + at + n] == rest[at..at + n]
  {
  }

  class MergedFileStream {
    const files: seq<Bytes>
    const sizes: seq<nat>
    var offsets: seq<nat>
    var offset: nat

    /** Every file is followed by the next: `offsets` are the sums of the sizes before. */
    ghost predicate Valid()
      reads this
    {
      Hold(files, sizes) && |offsets| == |sizes| && forall i :: 0 <= i < |offsets| ==> offsets[i] == Sum(sizes[..i])
    }

    ghost function Content(): Bytes
      requires Hold(files, sizes)
    {
      Whole(files, sizes)
    }

    constructor (files: seq<Bytes>, sizes: seq<nat>)
      requires Hold(files, sizes)
      ensures Valid() && this.files == files && this.sizes == sizes && offset == 0
    {
      this.files, this.sizes, offset := files, sizes, 0;
      offsets := [];
      new;
      var o := 0;
      for i := 0 to |sizes|
        invariant |offsets| == i && o == Sum(sizes[..i]) && offset == 0
        invariant forall k :: 0 <= k < i ==> offsets[k] == Sum(sizes[..k])
      {
        SumPrefix(sizes, i);
        offsets := offsets + [o];
        o := o + sizes[i];
      }
    }

    /** The file that has the byte at `at`, or -1 past the end; files without bytes never do. */
    method GetFileFor(at: nat) returns (file: int)
      requires Valid()
      ensures at < Sum(sizes) ==> 0 <= file < |sizes| && offsets[file] <= at < offsets[file] + sizes[file]
      ensures at >= Sum(sizes) ==> file == -1
    {
      file := 0;
      assert sizes[..0] == [];
      while file < |offsets|
        invariant 0 <= file <= |offsets| && Sum(sizes[..file]) <= at
      {
        SumPrefix(sizes, file);
        if at >= offsets[file] && at < offsets[file] + sizes[file] {
          return;
        }
        file := file + 1;
      }
      assert sizes[..file] == sizes;
      return -1;
    }

    /** Fills the first `length` bytes of `out` with the next bytes of the single file. */
    method Read(out: array<byte>, length: nat) returns (didRead: nat)
      requires Valid() && length <= out.Length && (length > 0 ==> offset + length <= Sum(sizes))
      modifies out, this`offset
      ensures Valid() && didRead == length && offset == old(offset) + length
      ensures length > 0 ==> out[..length] == Content()[old(offset)..old(offset) + length]
      ensures out[length..] == old(out[length..])
    {
      var toRead := length;
      didRead := 0;
      ghost var goal := if length > 0 then Content()[offset..offset + length] else [];
      while toRead > 0
        invariant toRead >= 0 && didRead + toRead == length && offset == old(offset) + didRead
        invariant out[..didRead] == goal[..didRead] && out[length..] == old(out[length..])
        decreases toRead
      {
        ghost var done := out[..didRead];
        var thisRead, r := ReadOne(out, didRead, toRead);
        PartOfPart(Content(), old(offset), length, didRead, r);
        assert out[..didRead + r] == done + goal[didRead..didRead + r];
        didRead := didRead + r;
        offset := offset + r;
        toRead := toRead - r;
        if r != thisRead {
          break;
        }
      }
    }

    /** Reads from the file that has the next byte, at most to its end. */
    method ReadOne(out: array<byte>, at: nat, toRead: nat) returns (thisRead: nat, r: nat)
      requires Valid() && 0 < toRead && at + toRead <= out.Length && offset + toRead <= Sum(sizes)
      modifies out
      ensures 0 < r == thisRead <= toRead
      ensures out[..at] == old(out[..at]) && out[at..at + r] == Content()[offset..offset + r] && out[at + r..] == old(out[at + r..])
    {
      var file := GetFileFor(offset);
      SumPrefix(sizes, file);
      var from := offset - offsets[file];
      var left := offsets[file] + sizes[file] - offset;
      thisRead := if toRead < left then toRead else left;
      PartOfWhole(files, sizes, file, from, thisRead);
      r := CopyInto(out, at, files[file], from, thisRead);
    }

    function Tell(): nat
      reads this
    {
      offset
    }

    method Set(at: nat)
      requires Valid()
      modifies this`offset
      ensures Valid() && offset == at
    {
      offset := at;
    }
  }

  lemma PartOfPart(w: Bytes, from: nat, n: nat, at: nat, m: nat)
    requires from + n <= |w| && at + m <= n
    ensures w[from..from + n][at..at + m] == w[from + at..from + at + m]
    ensures w[from..from + n][..at] + w[from..from + n][at..at + m] == w[from..from + n][..at + m]
  {
    var part := w[from..from + n];
    assert forall k :: 0 <= k < n ==> part[k] == w[from + k];
    var x, y := part[at..at + m], w[from + at..from + at + m];
    assert forall k :: 0 <= k < m ==> x[k] == part[at + k];
    assert |x| == |y| && forall k :: 0 <= k < m ==> x[k] == y[k];
  }

  /** Reads up to `n` bytes of a file from a position, as many as the file still has. */
  method CopyInto(out: array<byte>, at: nat, file: Bytes, from: nat, n: nat) returns (r: nat)
    requires at + n <= out.Length
    modifies out
    ensures r == if from + n <= |file| then n else if from <= |file| then |file| - from else 0
    ensures out[..at] == old(out[..at]) && out[at + r..] == old(out[at + r..])
    ensures r > 0 ==> out[at..at + r] == file[from..from + r]
  {
    r := 0;
    while r < n && from + r < |file|
      invariant r <= n && (r > 0 ==> from + r <= |file|)
      invariant out[..at] == old(out[..at]) && out[at + r..] == old(out[at + r..])
      invariant r > 0 ==> out[at..at + r] == file[from..from + r]
    {
      ghost var before := out[at..at + r];
      out[at + r] := file[from + r];
      r := r + 1;
      assert out[at..at + r] == before + [out[at + r - 1]];
      assert file[from..from + r] == file[from..from + r - 1] + [file[from + r - 1]];
    }
  }

  // ---------------------------------------------------------------- sequences of operations

  datatype Op = Set(at: nat) | Read(length: nat)

  /** The operations stay within the file. */
  predicate Within(total: nat, offset: nat, ops: seq<Op>)
    decreases |ops|
  {
    ops == []
    || match ops[0]
       case Set(at) => Within(total, at, ops[1..])
       case Read(n) => offset + n <= total && Within(total, offset + n, ops[1..])
  }

  /** What the operations read from a single file, and the offset after each. */
  function OnSingleFile(w: Bytes, offset: nat, ops: seq<Op>): seq<(Bytes, nat)>
    requires Within(|w|, offset, ops)
    decreases |ops|
  {
    if ops == [] then []
    else match ops[0]
      case Set(at) => [([], at)] + OnSingleFile(w, at, ops[1..])
      case Read(n) => [(w[offset..offset + n], offset + n)] + OnSingleFile(w, offset + n, ops[1..])
  }

  /** The same operations on the merged stream give the same bytes and offsets. */
  method Replay(stream: MergedFileStream, ops: seq<Op>) returns (results: seq<(Bytes, nat)>)
    requires stream.Valid() && Within(Sum(stream.sizes), stream.offset, ops)
    modifies stream`offset
    ensures results == OnSingleFile(stream.Content(), old(stream.offset), ops)
    decreases |ops|
  {
    if ops == [] {
      return [];
    }
    var bytes: Bytes := [];
    match ops[0] {
      case Set(at) => stream.Set(at);
      case Read(n) =>
        var buffer := new byte[n];
        ghost var at := stream.offset;
        var r := stream.Read(buffer, n);
        bytes := buffer[..n];
        assert bytes == stream.Content()[at..at + n];
    }
    var now := stream.Tell();
    var rest := Replay(stream, ops[1..]);
    return [(bytes, now)] + rest;
  }
}
