/** A chunk kept in memory: a buffer that grows as it is written to, read and written in one piece
    or through a vector of pieces. */
module MemCache {

  type Bytes = seq<int>

  const ENOMEM: int := 12

  // ---------------------------------------------------------------- what a file is

  function Zeros(n: nat): (z: Bytes)
    ensures |z| == n
  {
    seq(n, _ => 0)
  }

  /** A file after a store at an offset: a gap before it is filled with zeros, and what lies behind
      it stays. */
  ghost function Stored(file: Bytes, offset: nat, src: Bytes): Bytes {
    var padded := if |file| < offset then file + Zeros(offset - |file|) else file;
    padded[..offset] + src + (if offset + |src| < |padded| then padded[offset + |src|..] else [])
  }

  /** The bytes of a file from an offset on, at most so many. */
  ghost function Loaded(file: Bytes, offset: int, size: int): Bytes {
    if offset < 0 || offset >= |file| || size <= 0 then []
    else if offset + size < |file| then file[offset..offset + size] else file[offset..]
  }

  /** As many bytes as are wanted, or as there are from there on, and in their places. */
  lemma LoadedExactly(file: Bytes, offset: int, size: int)
    ensures var r := Loaded(file, offset, size);
            && (0 <= offset < |file| && size > 0 ==> |r| == if size < |file| - offset then size else |file| - offset)
            && (offset < 0 || offset >= |file| || size <= 0 ==> r == [])
            && forall i | 0 <= i < |r| :: r[i] == file[offset + i]
  {
  }

  /** The pieces of a vector one after the other. */
  ghost function Joined(iov: seq<Bytes>): Bytes {
    if iov == [] then [] else iov[0] + Joined(iov[1..])
  }

  ghost function First(s: Bytes, n: int): Bytes {
    if n <= 0 then [] else if n < |s| then s[..n] else s
  }

  ghost function Slice(file: Bytes, at: nat, n: nat): Bytes
    requires at + n <= |file|
  {
    file[at..at + n]
  }

  /** Two stores end to end are one. */
  lemma StoredTwice(file: Bytes, offset: nat, a: Bytes, b: Bytes)
    ensures Stored(Stored(file, offset, a), offset + |a|, b) == Stored(file, offset, a + b)
  {
  }

  lemma JoinedSnoc(iov: seq<Bytes>, i: nat)
    requires i < |iov|
    ensures Joined(iov[..i + 1]) == Joined(iov[..i]) + iov[i]
  {
    JoinedConcat(iov[..i], [iov[i]]);
    assert iov[..i] + [iov[i]] == iov[..i + 1];
    assert Joined([iov[i]]) == iov[i] + Joined([]);
  }

  lemma JoinedFirst(a: seq<Bytes>)
    requires a != []
    ensures Joined(a) == a[0] + Joined(a[1..])
  {
  }

  lemma JoinedNone(a: seq<Bytes>)
    requires a == []
    ensures Joined(a) == []
  {
  }

  lemma Regrouped(x: Bytes, y: Bytes, z: Bytes)
    ensures x + (y + z) == (x + y) + z
  {
  }

  lemma {:induction false} JoinedConcat(a: seq<Bytes>, b: seq<Bytes>)
    ensures Joined(a + b) == Joined(a) + Joined(b)
  {
    hide Joined;
    if a == [] {
      JoinedNone(a);
      assert a + b == b;
    } else {
      JoinedConcat(a[1..], b);
      JoinedFirst(a);
      JoinedFirst(a + b);
      assert (a + b)[1..] == a[1..] + b && (a + b)[0] == a[0];
      Regrouped(a[0], Joined(a[1..]), Joined(b));
    }
  }

  /** Reading back what a store has put there. */
  lemma LoadStored(file: Bytes, offset: nat, src: Bytes)
    ensures Loaded(Stored(file, offset, src), offset, |src|) == src
    ensures |Stored(file, offset, src)| == if offset + |src| > |file| then offset + |src| else |file|
    ensures forall i | |file| <= i < offset :: Stored(file, offset, src)[i] == 0
    ensures forall i | 0 <= i < |file| && !(offset <= i < offset + |src|) :: Stored(file, offset, src)[i] == file[i]
  {
  }

  ghost predicate BeginsWith(d: Bytes, file: Bytes) { |file| <= |d| && d[..|file|] == file }

  lemma Beginning(d: Bytes, file: Bytes)
    requires BeginsWith(d, file)
    ensures |file| <= |d| && d[..|file|] == file
  {
  }

  /** What has been taken of a vector when its first i pieces have been looked at. */
  ghost predicate Gathered(iov: seq<Bytes>, i: nat, want: nat, done: Bytes)
    requires i <= |iov|
  {
    done == First(Joined(iov[..i]), want) && (|done| < want ==> done == Joined(iov[..i]))
  }

  lemma NoneGathered(iov: seq<Bytes>, want: nat)
    ensures Gathered(iov, 0, want, [])
  {
    assert iov[..0] == [];
  }

  lemma NextPiece(iov: seq<Bytes>, i: nat, want: nat, done: Bytes)
    requires i < |iov| && Gathered(iov, i, want, done) && |done| < want
    ensures var n := if want - |done| < |iov[i]| then want - |done| else |iov[i]|;
            Gathered(iov, i + 1, want, done + iov[i][..n])
  {
    JoinedSnoc(iov, i);
    hide Joined;
  }

  /** A buffer whose beginning is a file, after a copy into it, begins with the file after that
      store. */
  lemma CopiedIn(d: Bytes, file: Bytes, at: nat, src: Bytes)
    requires BeginsWith(d, file) && at <= |file| && at + |src| <= |d|
    ensures BeginsWith(d[..at] + src + d[at + |src|..], Stored(file, at, src))
  {
    var (d', file') := (d[..at] + src + d[at + |src|..], Stored(file, at, src));
    forall k | 0 <= k < |file'| ensures d'[k] == file'[k] {
      if k < |file| { assert d[k] == d[..|file|][k]; }
    }
  }

  lemma StoredNothing(file: Bytes, offset: nat)
    ensures Stored(file, offset, []) == if |file| < offset then file + Zeros(offset - |file|) else file
  {
  }

  lemma StoredLength(file: Bytes, offset: nat, src: Bytes)
    ensures |Stored(file, offset, src)| == if |file| < offset + |src| then offset + |src| else |file|
  {
  }

  function Sum(lens: seq<nat>): nat { if lens == [] then 0 else lens[0] + Sum(lens[1..]) }

  lemma {:induction false} SumSnoc(lens: seq<nat>, i: nat)
    requires i < |lens|
    ensures Sum(lens[..i + 1]) == Sum(lens[..i]) + lens[i]
  {
    if i > 0 {
      SumSnoc(lens[1..], i - 1);
      assert lens[..i + 1][1..] == lens[1..][..i] && lens[..i][1..] == lens[1..][..i - 1];
    }
  }

  lemma {:induction false} SumPrefix(lens: seq<nat>, i: nat)
    requires i <= |lens|
    ensures Sum(lens[..i]) <= Sum(lens) && (i == |lens| ==> Sum(lens[..i]) == Sum(lens))
    decreases |lens| - i
  {
    if i < |lens| {
      SumSnoc(lens, i);
      SumPrefix(lens, i + 1);
    } else {
      assert lens[..i] == lens;
    }
  }

  /** The pieces handed out so far, with `more` of `total` bytes to go: each is as long as it may be,
      but for the last when the bytes run out. */
  ghost predicate Handed(pieces: seq<Bytes>, lens: seq<nat>, more: nat, total: nat) {
    && |pieces| <= |lens| && more <= total
    && (forall j | 0 <= j < |pieces| :: |pieces[j]| <= lens[j] && (more > 0 || j < |pieces| - 1 ==> |pieces[j]| == lens[j]))
    && if more > 0 then total - more == Sum(lens[..|pieces|]) else total <= Sum(lens[..|pieces|])
  }

  lemma NothingHanded(lens: seq<nat>, total: nat)
    requires total > 0
    ensures Handed([], lens, total, total)
  {
    assert Sum(lens[..0]) == 0;
  }

  lemma OneMoreHanded(pieces: seq<Bytes>, lens: seq<nat>, more: nat, total: nat, piece: Bytes)
    requires Handed(pieces, lens, more, total) && more > 0 && |pieces| < |lens|
    requires |piece| == if more < lens[|pieces|] then more else lens[|pieces|]
    ensures Handed(pieces + [piece], lens, more - |piece|, total)
  {
    hide Sum;
    SumSnoc(lens, |pieces|);
  }

  lemma AllHanded(pieces: seq<Bytes>, lens: seq<nat>, more: nat, total: nat)
    requires Handed(pieces, lens, more, total) && (more == 0 || |pieces| == |lens|)
    ensures |pieces| <= |lens| && forall i | 0 <= i < |pieces| :: |pieces[i]| <= lens[i]
    ensures forall i | 0 <= i < |pieces| - 1 :: |pieces[i]| == lens[i]
    ensures total - more == if total < Sum(lens) then total else Sum(lens)
  {
    hide Sum;
    SumPrefix(lens, |pieces|);
  }

  // ---------------------------------------------------------------- the entry

  class Entry {
    const blkSize: nat
    var data: array<int>
    var size: nat

    ghost predicate Valid()
      reads this
    {
      size <= data.Length
    }

    ghost function Contents(): Bytes
      reads this, data
      requires Valid()
    {
      data[..size]
    }

    constructor (n: nat)
      ensures Valid() && Contents() == [] && blkSize == n && data.Length == n && fresh(data)
    {
      blkSize := n;
      data := new int[n](_ => 0);
      size := 0;
    }

    /** A read: what there is of the bytes asked for. */
    method Read(offset: int, want: int) returns (dest: Bytes)
      requires Valid()
      ensures dest == Loaded(Contents(), offset, want)
    {
      dest := [];
      if offset < 0 {
        return;
      }
      var bytesRead := if want < size - offset then want else size - offset;
      if bytesRead > 0 {
        dest := data[offset..offset + bytesRead];
      }
    }

    /** A read into pieces of given lengths: the same bytes as one read of them all, filling the
        pieces in order. */
    method Readv(offset0: int, lens: seq<nat>, want: int) returns (pieces: seq<Bytes>, bytesRead: nat)
      requires Valid()
      ensures |pieces| <= |lens| && forall i | 0 <= i < |pieces| :: |pieces[i]| <= lens[i]
      ensures forall i | 0 <= i < |pieces| - 1 :: |pieces[i]| == lens[i]
      ensures Joined(pieces) == Loaded(Contents(), offset0, if want < Sum(lens) then want else Sum(lens))
      ensures bytesRead == |Joined(pieces)|
    {
      pieces, bytesRead := [], 0;
      if offset0 < 0 {
        return;
      }
      var total := if want < size - offset0 then want else size - offset0;
      if total <= 0 {
        return;
      }
      pieces, bytesRead := Scatter(offset0, lens, total);
      SumPrefix(lens, |pieces|);
    }

    /** Hand the bytes from an offset on out to pieces of given lengths. */
    method Scatter(offset0: nat, lens: seq<nat>, total: nat) returns (pieces: seq<Bytes>, bytesRead: nat)
      requires Valid() && offset0 + total <= size && total > 0
      ensures |pieces| <= |lens| && forall i | 0 <= i < |pieces| :: |pieces[i]| <= lens[i]
      ensures forall i | 0 <= i < |pieces| - 1 :: |pieces[i]| == lens[i]
      ensures bytesRead == if total < Sum(lens) then total else Sum(lens)
      ensures bytesRead <= total && Joined(pieces) == Slice(data[..], offset0, bytesRead)
    {
      hide Joined, Sum, Slice, Handed;
      ghost var file := data[..];
      pieces := [];
      var offset: nat, left: nat := offset0, total;
      NothingJoined(file, offset0);
      NothingHanded(lens, total);
      while |pieces| < |lens| && left > 0
        invariant left <= total && offset == offset0 + (total - left) && |pieces| <= |lens|
        invariant Handed(pieces, lens, left, total)
        invariant Joined(pieces) == Slice(file, offset0, total - left)
      {
        var n := if left < lens[|pieces|] then left else lens[|pieces|];
        var piece := Block(offset, n);
        OnePiece(pieces, file, offset0, total - left, n);
        OneMoreHanded(pieces, lens, left, total, piece);
        pieces := pieces + [piece];
        offset := offset + n;
        left := left - n;
      }
      AllHanded(pieces, lens, left, total);
      bytesRead := total - left;
    }

    function Block(at: nat, n: nat): (b: Bytes)
      requires at + n <= data.Length
      reads this, data
      ensures |b| == n && b == Slice(data[..], at, n)
    {
      data[at..at + n]
    }

    lemma NothingJoined(file: Bytes, at: nat)
      ensures Joined([]) == []
      ensures at <= |file| ==> Slice(file, at, 0) == []
    {
    }

    lemma OnePiece(pieces: seq<Bytes>, file: Bytes, from: nat, at: nat, n: nat)
      requires from + at + n <= |file| && Joined(pieces) == Slice(file, from, at)
      ensures Joined(pieces + [Slice(file, from + at, n)]) == Slice(file, from, at + n)
    {
      var more := pieces + [Slice(file, from + at, n)];
      JoinedSnoc(more, |pieces|);
      assert more[..|pieces|] == pieces && more[..|pieces| + 1] == more;
    }

    /** Room for so many bytes, in a larger buffer if need be and if there is memory for one. */
    method Grow(total: nat, enough: bool) returns (ok: bool)
      requires Valid()
      modifies this`data
      ensures Valid() && Contents() == old(Contents()) && (data == old(data) || fresh(data))
      ensures ok == (total <= old(data.Length) || enough)
      ensures ok ==> data.Length >= total
    {
      ok := true;
      if total > data.Length {
        if !enough {
          return false;
        }
        var bigger := new int[total];
        forall k | 0 <= k < size { bigger[k] := data[k]; }
        data := bigger;
      }
    }

    /** Zeros from the end of the file to an offset. */
    method FillGap(offset: nat)
      requires Valid() && offset <= data.Length
      modifies data
      ensures BeginsWith(data[..], Stored(old(Contents()), offset, []))
    {
      StoredNothing(Contents(), offset);
      if size < offset {
        forall k | size <= k < offset { data[k] := 0; }
      }
    }

    method CopyIn(at: nat, src: Bytes)
      requires at + |src| <= data.Length
      modifies data
      ensures data[..] == old(data[..])[..at] + src + old(data[..])[at + |src|..]
    {
      forall k | 0 <= k < |src| { data[at + k] := src[k]; }
    }

    /** One more piece of a store that has got so far. */
    method StorePiece(at: nat, piece: Bytes, ghost file: Bytes, ghost offset0: nat, ghost done: Bytes)
      requires at + |piece| <= data.Length && at == offset0 + |done|
      requires BeginsWith(data[..], Stored(file, offset0, done))
      modifies data
      ensures BeginsWith(data[..], Stored(file, offset0, done + piece))
    {
      StoredLength(file, offset0, done);
      StoredTwice(file, offset0, done, piece);
      CopiedIn(data[..], Stored(file, offset0, done), at, piece);
      hide Stored;
      CopyIn(at, piece);
    }

    /** A store of one piece. */
    method Write(offset: nat, src: Bytes, enough: bool) returns (code: int)
      requires Valid()
      modifies this, data
      ensures Valid() && (data == old(data) || fresh(data))
      ensures code == if offset + |src| <= old(data.Length) || enough then |src| else -ENOMEM
      ensures Contents() == if code == -ENOMEM then old(Contents()) else Stored(old(Contents()), offset, src)
    {
      var ok := Grow(offset + |src|, enough);
      if !ok {
        return -ENOMEM;
      }
      ghost var file := Contents();
      FillGap(offset);
      hide Stored, BeginsWith;
      StorePiece(offset, src, file, offset, []);
      assert [] + src == src;
      StoredLength(file, offset, src);
      Beginning(data[..], Stored(file, offset, src));
      size := if |src| + offset < size then size else |src| + offset;
      code := |src|;
    }

    /** Copy the pieces of a vector in, one behind the other. */
    method StorePieces(offset0: nat, iov: seq<Bytes>, want: nat, ghost file: Bytes) returns (offset: nat)
      requires offset0 + want <= data.Length && BeginsWith(data[..], Stored(file, offset0, []))
      modifies data
      ensures offset == offset0 + |First(Joined(iov), want)|
      ensures BeginsWith(data[..], Stored(file, offset0, First(Joined(iov), want)))
    {
      hide Stored, Gathered, BeginsWith, First, Joined;
      NoneGathered(iov, want);
      ghost var done: Bytes := [];
      var left: nat, i: nat := want, 0;
      offset := offset0;
      while i < |iov| && left > 0
        invariant i <= |iov| && |done| + left == want && offset == offset0 + |done|
        invariant Gathered(iov, i, want, done) && BeginsWith(data[..], Stored(file, offset0, done))
      {
        var n := if left < |iov[i]| then left else |iov[i]|;
        NextPiece(iov, i, want, done);
        StorePiece(offset, iov[i][..n], file, offset0, done);
        done := done + iov[i][..n];
        offset := offset + n;
        left := left - n;
        i := i + 1;
      }
      AllOrEnough(iov, i, want, done);
    }

    /** A store of the pieces of a vector, at most so many bytes in all: the same as one store of
        the bytes the pieces make up. */
    method Writev(offset0: nat, iov: seq<Bytes>, want: nat, enough: bool) returns (code: int)
      requires Valid()
      modifies this, data
      ensures Valid() && (data == old(data) || fresh(data))
      ensures code == if offset0 + want <= old(data.Length) || enough then |First(Joined(iov), want)| else -ENOMEM
      ensures Contents() == if code == -ENOMEM then old(Contents()) else Stored(old(Contents()), offset0, First(Joined(iov), want))
    {
      hide Stored, BeginsWith, First, Joined;
      var ok := Grow(offset0 + want, enough);
      if !ok {
        return -ENOMEM;
      }
      ghost var file := Contents();
      FillGap(offset0);
      var offset := StorePieces(offset0, iov, want, file);
      ghost var all := Stored(file, offset0, First(Joined(iov), want));
      StoredLength(file, offset0, First(Joined(iov), want));
      Beginning(data[..], all);
      size := if offset < size then size else offset;
      code := offset - offset0;
    }

    /** Cut the file off.  A large buffer is given up for one of the usual size when nothing is
        left in it. */
    method Truncate(length: nat, enough: bool)
      requires Valid()
      modifies this
      ensures Valid() && (data == old(data) || fresh(data))
      ensures Contents() == if length < |old(Contents())| then old(Contents())[..length] else old(Contents())
      ensures length == 0 && enough && old(data.Length) > blkSize ==> data.Length == blkSize
    {
      if length == 0 && data.Length > blkSize && enough {
        data := new int[blkSize];
        size := 0;
      }
      if length < size {
        size := length;
      }
    }
  }

  /** Going through the vector until it or the bytes wanted run out. */
  lemma AllOrEnough(iov: seq<Bytes>, i: nat, want: nat, done: Bytes)
    requires i <= |iov| && Gathered(iov, i, want, done) && (i == |iov| || |done| == want)
    ensures done == First(Joined(iov), want)
  {
    JoinedConcat(iov[..i], iov[i..]);
    assert iov[..i] + iov[i..] == iov;
  }
}
