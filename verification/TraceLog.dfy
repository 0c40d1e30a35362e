/** The in-memory trace log: variable-length records in a circular array of words, read by
    position in the endless stream of all the words ever logged. */
module TraceLog {

  /** A 32-bit word as its four bytes, least significant first. */
  datatype Word = Word(b0: nat, b1: nat, b2: nat, b3: nat)

  function FromInt(x: nat): Word {
    Word(x % 0x100, x / 0x100 % 0x100, x / 0x10000 % 0x100, x / 0x1000000 % 0x100)
  }

  /** The record size kept in the top byte of a record's first word. */
  function SizeOf(w: Word): nat { w.b3 }

  function ByteOf(w: Word, k: nat): nat
    requires k < 4
  {
    if k == 0 then w.b0 else if k == 1 then w.b1 else if k == 2 then w.b2 else w.b3
  }

  function WithByte(w: Word, k: nat, b: nat): (r: Word)
    requires k < 4
    ensures forall j | 0 <= j < 4 :: ByteOf(r, j) == if j == k then b else ByteOf(w, j)
  {
    if k == 0 then w.(b0 := b) else if k == 1 then w.(b1 := b) else if k == 2 then w.(b2 := b) else w.(b3 := b)
  }

  /** The first word of a record: its size, and the types of its four parameters. */
  function Header(size: nat, t1: nat, t2: nat, t3: nat, t4: nat): Word {
    FromInt(size * 0x1000000 + t1 * 0x40000 + t2 * 0x1000 + t3 * 0x40 + t4)
  }

  /** Six bits a type leave the top byte to the size, as long as that fits. */
  lemma HeaderKeepsSize(size: nat, t1: nat, t2: nat, t3: nat, t4: nat)
    requires t1 < 0x40 && t2 < 0x40 && t3 < 0x40 && t4 < 0x40
    ensures SizeOf(Header(size, t1, t2, t3, t4)) == size % 0x100
  {
    var low := t1 * 0x40000 + t2 * 0x1000 + t3 * 0x40 + t4;
    assert low < 0x1000000;
    assert (size * 0x1000000 + low) / 0x1000000 == size;
  }

  /** A word read as a number. */
  function ToInt(w: Word): nat { w.b0 + w.b1 * 0x100 + w.b2 * 0x10000 + w.b3 * 0x1000000 }

  /** Storing keeps the number modulo the word. */
  lemma WordComesBack(x: nat)
    ensures ToInt(FromInt(x)) == x % 0x1_0000_0000
  {
    var (d1, d2, d3) := (x / 0x100, x / 0x10000, x / 0x1000000);
    assert d1 / 0x100 == d2 && d2 / 0x100 == d3 && d3 / 0x100 == x / 0x1_0000_0000;
    assert x == x % 0x100 + 0x100 * d1 && d1 == d1 % 0x100 + 0x100 * d2 && d2 == d2 % 0x100 + 0x100 * d3;
  }

  /** What a reader takes the size and the types of the four parameters to be. */
  datatype Fields = Fields(size: nat, t1: nat, t2: nat, t3: nat, t4: nat)

  function HeaderFields(w: Word): Fields { FieldsOf(ToInt(w)) }

  function FieldsOf(x: nat): Fields {
    Fields(x / 0x1000000 % 0x100, x / 0x40000 % 0x40, x / 0x1000 % 0x40, x / 0x40 % 0x40, x % 0x40)
  }

  lemma SixBits(x: nat, high: nat, low: nat)
    requires x == high * 0x40 + low && low < 0x40
    ensures x / 0x40 == high && x % 0x40 == low
  {
  }

  lemma SixBitsOn(x: nat)
    ensures x / 0x1000 == x / 0x40 / 0x40 && x / 0x40000 == x / 0x1000 / 0x40 && x / 0x1000000 == x / 0x40000 / 0x40
  {
  }

  lemma FieldsApart(size: nat, t1: nat, t2: nat, t3: nat, t4: nat)
    requires size <= 255 && t1 < 0x40 && t2 < 0x40 && t3 < 0x40 && t4 < 0x40
    ensures var x := size * 0x1000000 + t1 * 0x40000 + t2 * 0x1000 + t3 * 0x40 + t4;
            x < 0x1_0000_0000 && FieldsOf(x) == Fields(size, t1, t2, t3, t4)
  {
    var (a, b, c) := (size * 0x40 + t1, (size * 0x40 + t1) * 0x40 + t2, ((size * 0x40 + t1) * 0x40 + t2) * 0x40 + t3);
    SixBits(a, size, t1);
    SixBits(b, a, t2);
    SixBits(c, b, t3);
    SixBits(c * 0x40 + t4, c, t4);
    SixBitsOn(c * 0x40 + t4);
  }

  /** A record's first word is read as it was written. */
  lemma HeaderComesBack(size: nat, t1: nat, t2: nat, t3: nat, t4: nat)
    requires size <= 255 && t1 < 0x40 && t2 < 0x40 && t3 < 0x40 && t4 < 0x40
    ensures HeaderFields(Header(size, t1, t2, t3, t4)) == Fields(size, t1, t2, t3, t4)
  {
    hide FromInt, ToInt, FieldsOf;
    FieldsApart(size, t1, t2, t3, t4);
    WordComesBack(size * 0x1000000 + t1 * 0x40000 + t2 * 0x1000 + t3 * 0x40 + t4);
  }

  // ---------------------------------------------------------------- records

  /** These words are a number of whole records, one after the other. */
  ghost predicate Framed(ws: seq<Word>) {
    ws == [] || (1 <= SizeOf(ws[0]) <= |ws| && Framed(ws[SizeOf(ws[0])..]))
  }

  ghost predicate IsRecord(ws: seq<Word>) { ws != [] && SizeOf(ws[0]) == |ws| }

  lemma {:induction false} FramedJoin(a: seq<Word>, b: seq<Word>)
    requires Framed(a) && Framed(b)
    ensures Framed(a + b)
  {
    if a == [] {
      assert a + b == b;
    } else {
      var n := SizeOf(a[0]);
      FramedJoin(a[n..], b);
      assert (a + b)[n..] == a[n..] + b;
    }
  }

  lemma RecordFramed(ws: seq<Word>)
    requires IsRecord(ws)
    ensures Framed(ws)
  {
    assert ws[|ws|..] == [];
  }

  /** Taking the first record off leaves whole records, and what has been taken off stays a
      number of whole records. */
  lemma FirstRecord(gone: seq<Word>, ws: seq<Word>)
    requires Framed(gone) && Framed(ws) && ws != []
    ensures 1 <= SizeOf(ws[0]) <= |ws|
    ensures Framed(ws[SizeOf(ws[0])..]) && Framed(gone + ws[..SizeOf(ws[0])])
  {
    var n := SizeOf(ws[0]);
    RecordFramed(ws[..n]);
    FramedJoin(gone, ws[..n]);
  }

  /** The same for the words of a stream on either side of a position in it. */
  lemma OldestRecord(stream: seq<Word>, base: nat)
    requires base < |stream| && Framed(stream[base..]) && Framed(stream[..base])
    ensures var n := SizeOf(stream[base]);
            && 1 <= n <= |stream| - base && IsRecord(stream[base..base + n])
            && Framed(stream[base + n..]) && Framed(stream[..base + n])
  {
    var n := SizeOf(stream[base]);
    FirstRecord(stream[..base], stream[base..]);
    assert stream[base + n..] == stream[base..][n..];
    assert stream[..base + n] == stream[..base] + stream[base..][..n];
  }

  lemma EatenMore(stream: seq<Word>, start: nat, here: nat, now: nat)
    requires start <= here <= now <= |stream| && Framed(stream[start..here]) && IsRecord(stream[here..now])
    ensures Framed(stream[start..now])
  {
    RecordFramed(stream[here..now]);
    FramedJoin(stream[start..here], stream[here..now]);
    assert stream[start..now] == stream[start..here] + stream[here..now];
  }

  lemma NothingEaten(stream: seq<Word>, start: nat)
    ensures start <= |stream| ==> Framed(stream[start..start])
  {
    if start <= |stream| { assert stream[start..start] == []; }
  }

  // ---------------------------------------------------------------- strings

  /** The words that a string and its final null take up. */
  function StringWords(s: seq<nat>): nat { |s| / 4 + 1 }

  /** These words hold the string, null-terminated, in memory order; what is left of the last
      word is whatever was there before. */
  ghost predicate HoldsString(ws: seq<Word>, s: seq<nat>) {
    && |ws| == StringWords(s)
    && forall i, j | 0 <= i < |ws| && 0 <= j < 4 && 4 * i + j <= |s| :: ByteOf(ws[i], j) == (s + [0])[4 * i + j]
  }

  /** The bytes, word by word, and those of the last word if it is not full. */
  lemma StringHeld(ws: seq<Word>, s: seq<nat>, words: nat, last: Word)
    requires words <= |ws| && |ws| == StringWords(s) && |s| + 1 <= 4 * words + 4
    requires forall i, j | 0 <= i < words && 0 <= j < 4 && 4 * i + j <= |s| :: ByteOf(ws[i], j) == (s + [0])[4 * i + j]
    requires words < |ws| ==> ws[words] == last
    requires forall j | 0 <= j < 4 && 4 * words + j <= |s| :: ByteOf(last, j) == (s + [0])[4 * words + j]
    ensures HoldsString(ws, s)
  {
  }

  /** Reading the string back up to the first null. */
  ghost function StringAt(ws: seq<Word>, k: nat): seq<nat>
    decreases 4 * |ws| - k
  {
    if k >= 4 * |ws| || ByteOf(ws[k / 4], k % 4) == 0 then []
    else [ByteOf(ws[k / 4], k % 4)] + StringAt(ws, k + 1)
  }

  lemma {:induction false} StringComesBackFrom(ws: seq<Word>, s: seq<nat>, k: nat)
    requires HoldsString(ws, s) && (forall j | 0 <= j < |s| :: s[j] != 0) && k <= |s|
    ensures StringAt(ws, k) == s[k..]
    decreases |s| - k
  {
    assert ByteOf(ws[k / 4], k % 4) == (s + [0])[4 * (k / 4) + k % 4];
    if k < |s| {
      StringComesBackFrom(ws, s, k + 1);
      assert s[k..] == [s[k]] + s[k + 1..];
    }
  }

  /** A string without nulls is read back as it was logged, whatever the stale bytes. */
  lemma StringComesBack(ws: seq<Word>, s: seq<nat>)
    requires HoldsString(ws, s) && forall j | 0 <= j < |s| :: s[j] != 0
    ensures StringAt(ws, 0) == s
  {
    StringComesBackFrom(ws, s, 0);
  }

  // ---------------------------------------------------------------- parameters

  const TYPE_HYPER: nat := 3
  const TYPE_STRING: nat := 4
  const TYPE_FID: nat := 5
  const TYPE_UNIXDATE: nat := 6
  const TYPE_INT32: nat := 7
  const TYPE_INT64: nat := 8
  const INFO_TIMESTAMP: nat := 9004

  /** A parameter of a record, as it is handed in. */
  datatype Param =
    | Absent
    | Text(bytes: seq<nat>)
    | Pair(kind: nat, high: Word, low: Word)
    | Fid(cell: Word, volume: Word, vnode: Word, unique: Word)
    | Int32(value: Word)
    | Long(kind: nat, value: Word)

  ghost predicate ParamOk(p: Param) {
    match p
    case Text(bytes) => forall k | 0 <= k < |bytes| :: bytes[k] != 0
    case Pair(kind, _, _) => kind == TYPE_HYPER || kind == TYPE_INT64
    case Long(kind, _) => 0 < kind < 0x40 && kind !in {TYPE_HYPER, TYPE_STRING, TYPE_FID, TYPE_INT32, TYPE_INT64}
    case _ => true
  }

  function TypeOf(p: Param): nat {
    match p
    case Absent => 0
    case Text(_) => TYPE_STRING
    case Pair(kind, _, _) => kind
    case Fid(_, _, _, _) => TYPE_FID
    case Int32(_) => TYPE_INT32
    case Long(kind, _) => kind
  }

  /** What a parameter adds to the size of its record.  A long is one word here. */
  function ParamSize(p: Param): nat {
    match p
    case Absent => 0
    case Text(bytes) => (|bytes| + 4) / 4
    case Pair(_, _, _) => 2
    case Fid(_, _, _, _) => 4
    case Int32(_) => 1
    case Long(_, _) => 1
  }

  /** These words are the parameter. */
  ghost predicate Renders(ws: seq<Word>, p: Param) {
    match p
    case Absent => ws == []
    case Text(bytes) => HoldsString(ws, bytes)
    case Pair(_, high, low) => ws == [high, low]
    case Fid(cell, volume, vnode, unique) => ws == [cell, volume, vnode, unique]
    case Int32(value) => ws == [value]
    case Long(_, value) => ws == [value]
  }

  /** The size that is counted beforehand is the size that is written. */
  lemma RenderedSize(ws: seq<Word>, p: Param)
    requires Renders(ws, p)
    ensures |ws| == ParamSize(p)
  {
  }

  /** What a record says besides its parameters. */
  datatype Head = Head(op: nat, thread: nat, stamp: Word)

  /** The words of the four parameters. */
  datatype Rendered = Rendered(w1: seq<Word>, w2: seq<Word>, w3: seq<Word>, w4: seq<Word>)

  ghost predicate AllRendered(p1: Param, p2: Param, p3: Param, p4: Param, ws: Rendered) {
    Renders(ws.w1, p1) && Renders(ws.w2, p2) && Renders(ws.w3, p3) && Renders(ws.w4, p4)
  }

  ghost function RecordOf(size: nat, head: Head, p1: Param, p2: Param, p3: Param, p4: Param, ws: Rendered): seq<Word> {
    [Header(size, TypeOf(p1), TypeOf(p2), TypeOf(p3), TypeOf(p4)), FromInt(head.op), FromInt(head.thread), head.stamp] +
    ws.w1 + ws.w2 + ws.w3 + ws.w4
  }

  ghost function TimestampRecord(stamp: Word, sec: nat): seq<Word> {
    [FromInt(5 * 0x1000000 + TYPE_UNIXDATE * 0x40000), FromInt(INFO_TIMESTAMP), FromInt(0), stamp, FromInt(sec)]
  }

  lemma TimestampIsRecord(stamp: Word, sec: nat)
    ensures IsRecord(TimestampRecord(stamp, sec))
  {
  }

  lemma TypeFits(p: Param)
    requires ParamOk(p)
    ensures TypeOf(p) < 0x40
  {
  }

  /** The size in the header is the number of words that follow it, itself included. */
  lemma RecordIsRecord(size: nat, head: Head, p1: Param, p2: Param, p3: Param, p4: Param, ws: Rendered)
    requires size == 4 + ParamSize(p1) + ParamSize(p2) + ParamSize(p3) + ParamSize(p4) <= 255
    requires ParamOk(p1) && ParamOk(p2) && ParamOk(p3) && ParamOk(p4) && AllRendered(p1, p2, p3, p4, ws)
    ensures IsRecord(RecordOf(size, head, p1, p2, p3, p4, ws))
  {
    hide Header, Renders, ParamSize, SizeOf, TypeOf, ParamOk, FromInt;
    TypeFits(p1);
    TypeFits(p2);
    TypeFits(p3);
    TypeFits(p4);
    RenderedSize(ws.w1, p1);
    RenderedSize(ws.w2, p2);
    RenderedSize(ws.w3, p3);
    RenderedSize(ws.w4, p4);
    HeaderKeepsSize(size, TypeOf(p1), TypeOf(p2), TypeOf(p3), TypeOf(p4));
  }

  lemma FourParts(h: seq<Word>, a: seq<Word>, b: seq<Word>, c: seq<Word>, d: seq<Word>)
    ensures var r := h + a + b + c + d;
            && r[|h|..|h| + |a|] == a && r[|h| + |a|..|h| + |a| + |b|] == b
            && r[|h| + |a| + |b|..|h| + |a| + |b| + |c|] == c && r[|h| + |a| + |b| + |c|..] == d
  {
  }

  /** What a reader makes of a record: its fields, and each parameter in the words for it. */
  lemma RecordReads(size: nat, head: Head, p1: Param, p2: Param, p3: Param, p4: Param, ws: Rendered)
    requires size == 4 + ParamSize(p1) + ParamSize(p2) + ParamSize(p3) + ParamSize(p4) <= 255
    requires ParamOk(p1) && ParamOk(p2) && ParamOk(p3) && ParamOk(p4) && AllRendered(p1, p2, p3, p4, ws)
    ensures var r := RecordOf(size, head, p1, p2, p3, p4, ws);
            var (n1, n2, n3) := (4 + ParamSize(p1), 4 + ParamSize(p1) + ParamSize(p2), size - ParamSize(p4));
            && |r| == size && HeaderFields(r[0]) == Fields(size, TypeOf(p1), TypeOf(p2), TypeOf(p3), TypeOf(p4))
            && ToInt(r[1]) == head.op % 0x1_0000_0000 && ToInt(r[2]) == head.thread % 0x1_0000_0000 && r[3] == head.stamp
            && Renders(r[4..n1], p1) && Renders(r[n1..n2], p2) && Renders(r[n2..n3], p3) && Renders(r[n3..], p4)
  {
    hide Header, HeaderFields, Renders, ParamSize, TypeOf, ParamOk, FromInt, ToInt;
    TypeFits(p1);
    TypeFits(p2);
    TypeFits(p3);
    TypeFits(p4);
    HeaderComesBack(size, TypeOf(p1), TypeOf(p2), TypeOf(p3), TypeOf(p4));
    WordComesBack(head.op);
    WordComesBack(head.thread);
    RenderedSize(ws.w1, p1);
    RenderedSize(ws.w2, p2);
    RenderedSize(ws.w3, p3);
    RenderedSize(ws.w4, p4);
    var r := RecordOf(size, head, p1, p2, p3, p4, ws);
    assert r == r[..4] + ws.w1 + ws.w2 + ws.w3 + ws.w4;
    FourParts(r[..4], ws.w1, ws.w2, ws.w3, ws.w4);
  }

  /** And of a timestamp record: the whole time as a date. */
  lemma TimestampReads(stamp: Word, sec: nat)
    ensures var r := TimestampRecord(stamp, sec);
            && |r| == 5 && HeaderFields(r[0]) == Fields(5, TYPE_UNIXDATE, 0, 0, 0)
            && ToInt(r[1]) == INFO_TIMESTAMP && ToInt(r[2]) == 0 && r[3] == stamp
            && ToInt(r[4]) == sec % 0x1_0000_0000
  {
    hide FromInt, ToInt, HeaderFields;
    HeaderComesBack(5, TYPE_UNIXDATE, 0, 0, 0);
    WordComesBack(INFO_TIMESTAMP);
    WordComesBack(0);
    WordComesBack(sec);
  }

  /** No more has gone than had to go: without the last record that went, too little was free. */
  ghost predicate JustEnough(stream: seq<Word>, was: nat, now: nat, size: nat, space: nat) {
    was <= now <= |stream| &&
    (now > was ==> exists b: nat :: was <= b < now && IsRecord(stream[b..now]) && size - (|stream| - b) <= space)
  }

  /** The same for a timestamp record, if one is due, and the record after it, if it is not too big. */
  ghost predicate JustEnoughForBoth(stream: seq<Word>, was: nat, now: nat, size: nat, timestamp: seq<Word>, record: nat) {
    exists between: nat :: MadeInTurn(stream, was, between, now, size, timestamp, record)
  }

  ghost predicate MadeInTurn(stream: seq<Word>, was: nat, between: nat, now: nat, size: nat, timestamp: seq<Word>, record: nat) {
    && (if timestamp == [] then between == was else JustEnough(stream, was, between, size, |timestamp|))
    && (if record > 255 then now == between else JustEnough(stream + timestamp, between, now, size, record))
  }

  // ---------------------------------------------------------------- the log

  /** Where the k-th word of the log is, counting around the end of the array. */
  function Slot(first: nat, size: nat, k: nat): int {
    if first + k < size then first + k else first + k - size
  }

  /** How the words from the off-th on lie in the array: up to the end of the log, or up to the
      end of the array and then from its beginning, or all in the part that has gone around. */
  lemma Layout(first: nat, size: nat, elements: nat, off: nat)
    requires first < size && elements < size && off < elements
    ensures var (ix, free) := (Slot(first, size, off), Slot(first, size, elements));
            if ix < first then free < first && free - ix == elements - off
            else if first <= free then free - ix == elements - off
            else elements - off == size - ix + free && Slot(first, size, off + (size - ix)) == 0
  {
  }

  /** The array holds the last `elements` words of the stream, from `first` on. */
  ghost predicate RingOf(data: seq<Word>, first: nat, elements: nat, stream: seq<Word>, base: nat) {
    && first < |data| && elements < |data| && |stream| == base + elements
    && forall k | 0 <= k < elements :: data[Slot(first, |data|, k)] == stream[base + k]
  }

  lemma DropWords(data: seq<Word>, first: nat, elements: nat, stream: seq<Word>, base: nat, n: nat)
    requires RingOf(data, first, elements, stream, base) && n <= elements
    ensures Slot(first, |data|, n) >= 0
    ensures RingOf(data, Slot(first, |data|, n), elements - n, stream, base + n)
    ensures Slot(Slot(first, |data|, n), |data|, elements - n) == Slot(first, |data|, elements)
  {
    var first' := Slot(first, |data|, n);
    forall k | 0 <= k < elements - n ensures data[Slot(first', |data|, k)] == stream[base + n + k] {
      assert Slot(first', |data|, k) == Slot(first, |data|, n + k);
    }
  }

  lemma AddWord(data: seq<Word>, first: nat, elements: nat, stream: seq<Word>, base: nat, w: Word)
    requires RingOf(data, first, elements, stream, base) && elements + 1 < |data|
    ensures var free := Slot(first, |data|, elements);
            && 0 <= free < |data|
            && RingOf(data[free := w], first, elements + 1, stream + [w], base)
            && Slot(first, |data|, elements + 1) == if free + 1 >= |data| then 0 else free + 1
  {
    var free := Slot(first, |data|, elements);
    forall k | 0 <= k < elements + 1 ensures data[free := w][Slot(first, |data|, k)] == (stream + [w])[base + k] {
    }
  }

  lemma FirstWord(data: seq<Word>, first: nat, elements: nat, stream: seq<Word>, base: nat)
    requires RingOf(data, first, elements, stream, base) && elements > 0
    ensures first < |data| && base < |stream| == base + elements && data[first] == stream[base]
  {
    assert data[Slot(first, |data|, 0)] == stream[base + 0];
  }

  lemma RingFacts(data: seq<Word>, first: nat, elements: nat, stream: seq<Word>, base: nat)
    requires RingOf(data, first, elements, stream, base)
    ensures first < |data| && elements < |data| && |stream| == base + elements
  {
  }

  /** A stretch of the log that does not go around the end of the array. */
  lemma Segment(data: seq<Word>, first: nat, elements: nat, stream: seq<Word>, base: nat, off: nat, ix: nat, n: nat)
    requires RingOf(data, first, elements, stream, base)
    requires off + n <= elements && ix == Slot(first, |data|, off) && ix + n <= |data|
    ensures base + off + n <= |stream| && data[ix..ix + n] == stream[base + off..base + off + n]
  {
    var (a, b) := (data[ix..ix + n], stream[base + off..base + off + n]);
    forall j | 0 <= j < n ensures a[j] == b[j] {
      assert Slot(first, |data|, off + j) == ix + j;
    }
  }

  function Min(a: int, b: int): int { if a < b then a else b }

  ghost function Slice(s: seq<Word>, from: nat, n: nat): seq<Word>
    requires from + n <= |s|
  {
    s[from..from + n]
  }

  lemma EmptySlice(s: seq<Word>, from: nat)
    ensures from <= |s| ==> Slice(s, from, 0) == []
  {
  }

  lemma JoinSlices(s: seq<Word>, from: nat, n: nat, m: nat)
    requires from + n + m <= |s|
    ensures Slice(s, from, n) + Slice(s, from + n, m) == Slice(s, from, n + m)
  {
  }

  /** A store into the free position is not in the log yet. */
  lemma ScratchWord(data: seq<Word>, first: nat, elements: nat, stream: seq<Word>, base: nat, w: Word)
    requires RingOf(data, first, elements, stream, base)
    ensures 0 <= Slot(first, |data|, elements) < |data|
    ensures RingOf(data[Slot(first, |data|, elements) := w], first, elements, stream, base)
  {
  }

  class Log {
    const logSize: nat
    const datap: array<Word>
    var logElements: nat
    var firstUsed: nat
    var firstFree: nat
    var baseCookie: nat
    var lastTS: int

    /** Every word ever logged; the array holds the last `logElements` of them. */
    ghost var stream: seq<Word>

    ghost predicate Ring()
      reads this, datap
    {
      && datap.Length == logSize && RingOf(datap[..], firstUsed, logElements, stream, baseCookie)
      && firstFree == Slot(firstUsed, logSize, logElements)
    }

    ghost function Live(): seq<Word>
      reads this, datap
      requires Ring()
    {
      stream[baseCookie..]
    }

    /** What is in the log is whole records, and so is what has been dropped. */
    ghost predicate Valid()
      reads this, datap
    {
      Ring() && Framed(Live()) && Framed(stream[..baseCookie])
    }

    constructor (size: nat, data: array<Word>)
      requires size > 0 && data.Length == size
      ensures Valid() && logSize == size && stream == [] && baseCookie == 0 && datap == data
    {
      logSize := size;
      datap := data;
      logElements, firstUsed, firstFree, baseCookie, lastTS := 0, 0, 0, 0, 0;
      stream := [];
    }

    /** Eat the oldest record. */
    method EatRecord()
      requires Valid() && logElements > 0
      modifies this`logElements, this`firstUsed, this`baseCookie
      ensures Valid() && old(baseCookie) < baseCookie <= |stream|
      ensures IsRecord(stream[old(baseCookie)..baseCookie])
    {
      hide RingOf, Framed, IsRecord;
      FirstWord(datap[..], firstUsed, logElements, stream, baseCookie);
      OldestRecord(stream, baseCookie);
      var tsize := SizeOf(datap[firstUsed]);
      DropWords(datap[..], firstUsed, logElements, stream, baseCookie, tsize);
      logElements := logElements - tsize;
      firstUsed := firstUsed + tsize;
      if firstUsed >= logSize {
        firstUsed := firstUsed - logSize;
      }
      baseCookie := baseCookie + tsize;
    }

    /** Eat records until there are more than `minSpace` words free: whole records go, from the
        oldest on, no more than need to, and the base moves by exactly their words. */
    method GetLogSpace(minSpace: nat)
      requires Valid() && minSpace < logSize
      modifies this`logElements, this`firstUsed, this`baseCookie
      ensures Valid() && logSize - logElements > minSpace
      ensures old(baseCookie) <= baseCookie <= |stream| && Framed(stream[old(baseCookie)..baseCookie])
      ensures JustEnough(stream, old(baseCookie), baseCookie, logSize, minSpace)
    {
      hide RingOf, Framed, IsRecord;
      ghost var start := baseCookie;
      NothingEaten(stream, start);
      RingFacts(datap[..], firstUsed, logElements, stream, baseCookie);
      while logSize - logElements <= minSpace
        invariant Valid() && |stream| == baseCookie + logElements
        invariant start <= baseCookie && Framed(stream[start..baseCookie])
        invariant JustEnough(stream, start, baseCookie, logSize, minSpace)
        decreases |stream| - baseCookie
      {
        ghost var here := baseCookie;
        EatRecord();
        EatenMore(stream, start, here, baseCookie);
        RingFacts(datap[..], firstUsed, logElements, stream, baseCookie);
      }
    }

    /** One more word at the end of the stream. */
    method AppendInt32(w: Word)
      requires Ring() && logElements + 1 < logSize
      modifies this`logElements, this`firstFree, this`stream, datap
      ensures Ring() && stream == old(stream) + [w] && logElements == old(logElements) + 1
    {
      AddWord(datap[..], firstUsed, logElements, stream, baseCookie, w);
      hide RingOf;
      datap[firstFree] := w;
      assert datap[..] == old(datap[..])[old(firstFree) := w];
      firstFree := firstFree + 1;
      if firstFree >= logSize {
        firstFree := 0;
      }
      logElements := logElements + 1;
      stream := stream + [w];
    }

    /** The word at the free position has been used up: it is part of the log now. */
    method CountWord(ghost w: Word)
      requires Ring() && logElements + 1 < logSize && datap[firstFree] == w
      modifies this`logElements, this`firstFree, this`stream
      ensures Ring() && stream == old(stream) + [w] && logElements == old(logElements) + 1
    {
      AddWord(datap[..], firstUsed, logElements, stream, baseCookie, w);
      hide RingOf;
      assert datap[..][firstFree := w] == datap[..];
      firstFree := firstFree + 1;
      if firstFree >= logSize {
        firstFree := 0;
      }
      logElements := logElements + 1;
      stream := stream + [w];
    }

    method PutByte(k: nat, b: nat)
      requires Ring() && k < 4
      modifies datap
      ensures Ring() && firstFree < datap.Length && datap[firstFree] == WithByte(old(datap[firstFree]), k, b)
    {
      var w := WithByte(datap[firstFree], k, b);
      ScratchWord(datap[..], firstUsed, logElements, stream, baseCookie, w);
      hide RingOf;
      datap[firstFree] := w;
      assert datap[..] == old(datap[..])[firstFree := w];
    }

    /** A string with its final null, a byte at a time across as many words as it takes. */
    method AppendString(s: seq<nat>)
      requires Ring() && logElements + StringWords(s) < logSize
      modifies this`logElements, this`firstFree, this`stream, datap
      ensures Ring() && logElements == old(logElements) + StringWords(s)
      ensures |stream| == |old(stream)| + StringWords(s) && old(stream) <= stream
      ensures HoldsString(stream[|old(stream)|..], s)
    {
      assert firstFree < datap.Length;
      hide RingOf, Slot, HoldsString;
      ghost var was, before, full := |stream|, stream, s + [0];
      var n, bib := 0, 0;
      ghost var words, done: seq<Word> := 0, [];
      while n <= |s|
        invariant n <= |s| + 1 && n == 4 * words + bib && bib < 4 && Ring() && firstFree < datap.Length
        invariant logElements == old(logElements) + words && stream == before + done && |done| == words
        invariant forall i, j | 0 <= i < words && 0 <= j < 4 :: ByteOf(done[i], j) == full[4 * i + j]
        invariant forall j | 0 <= j < bib :: ByteOf(datap[firstFree], j) == full[4 * words + j]
      {
        PutByte(bib, if n < |s| then s[n] else 0);
        bib := bib + 1;
        n := n + 1;
        if bib >= 4 {
          done := done + [datap[firstFree]];
          CountWord(datap[firstFree]);
          bib := 0;
          words := words + 1;
        }
      }
      ghost var last := datap[firstFree];
      if bib > 0 {
        CountWord(datap[firstFree]);
        done := done + [last];
      }
      assert stream[was..] == done;
      StringHeld(done, s, words, last);
    }

    /** A parameter, in as many words as were counted for it. */
    method AppendParam(p: Param) returns (ghost ws: seq<Word>)
      requires Ring() && logElements + ParamSize(p) < logSize
      modifies this`logElements, this`firstFree, this`stream, datap
      ensures Ring() && stream == old(stream) + ws && logElements == old(logElements) + ParamSize(p)
      ensures Renders(ws, p)
    {
      hide RingOf, HoldsString, Slot;
      ghost var before := stream;
      match p {
        case Absent =>
        case Text(bytes) =>
          AppendString(bytes);
        case Pair(_, high, low) =>
          AppendInt32(high);
          AppendInt32(low);
        case Fid(cell, volume, vnode, unique) =>
          AppendInt32(cell);
          AppendInt32(volume);
          AppendInt32(vnode);
          AppendInt32(unique);
        case Int32(value) =>
          AppendInt32(value);
        case Long(_, value) =>
          AppendInt32(value);
      }
      ws := stream[|before|..];
      assert stream == before + ws;
    }

    /** Four fixed words. */
    method AppendFour(a: Word, b: Word, c: Word, d: Word)
      requires Ring() && logElements + 4 < logSize
      modifies this`logElements, this`firstFree, this`stream, datap
      ensures Ring() && stream == old(stream) + [a, b, c, d] && logElements == old(logElements) + 4
    {
      hide RingOf, Slot;
      AppendInt32(a);
      AppendInt32(b);
      AppendInt32(c);
      AppendInt32(d);
    }

    /** Room for a record of this size, at the expense of the oldest ones if need be. */
    method MakeRoom(size: nat)
      requires Valid() && size < logSize
      modifies this`logElements, this`firstUsed, this`baseCookie
      ensures Valid() && logElements + size < logSize && old(baseCookie) <= baseCookie <= |stream|
      ensures JustEnough(stream, old(baseCookie), baseCookie, logSize, size)
    {
      hide IsRecord, Framed;
      if logSize - logElements <= size {
        GetLogSpace(size);
      }
    }

    /** A record has been added at the end of whole records. */
    lemma StillFramed(before: seq<Word>, record: seq<Word>)
      requires Ring() && stream == before + record && IsRecord(record) && baseCookie <= |before|
      requires Framed(before[baseCookie..]) && Framed(before[..baseCookie])
      ensures Valid()
    {
      RecordFramed(record);
      FramedJoin(before[baseCookie..], record);
      assert stream[baseCookie..] == before[baseCookie..] + record;
      assert stream[..baseCookie] == before[..baseCookie];
    }

    /** Every thousand seconds or so the whole time is logged. */
    method AppendTimestamp(stamp: Word, sec: nat)
      requires Valid() && logSize > 5
      modifies this, datap
      ensures Valid() && lastTS == sec && stream == old(stream) + TimestampRecord(stamp, sec)
      ensures JustEnough(old(stream), old(baseCookie), baseCookie, logSize, 5)
    {
      hide RingOf, Slot, Framed, FromInt, JustEnough;
      MakeRoom(5);
      ghost var before := stream;
      AppendFour(FromInt(5 * 0x1000000 + TYPE_UNIXDATE * 0x40000), FromInt(INFO_TIMESTAMP), FromInt(0), stamp);
      AppendInt32(FromInt(sec));
      lastTS := sec;
      assert stream == before + TimestampRecord(stamp, sec);
      TimestampIsRecord(stamp, sec);
      StillFramed(before, TimestampRecord(stamp, sec));
    }

    /** The body of a record whose size has been counted and fits. */
    method AppendSized(size: nat, head: Head, p1: Param, p2: Param, p3: Param, p4: Param)
      returns (ghost ws: Rendered)
      requires Valid() && size == 4 + ParamSize(p1) + ParamSize(p2) + ParamSize(p3) + ParamSize(p4) <= 255 && size < logSize
      requires ParamOk(p1) && ParamOk(p2) && ParamOk(p3) && ParamOk(p4)
      modifies this`logElements, this`firstUsed, this`firstFree, this`baseCookie, this`stream, datap
      ensures Valid() && JustEnough(old(stream), old(baseCookie), baseCookie, logSize, size)
      ensures stream == old(stream) + RecordOf(size, head, p1, p2, p3, p4, ws)
      ensures AllRendered(p1, p2, p3, p4, ws)
    {
      hide RingOf, Slot, Framed, FromInt, Renders, ParamSize, Header, JustEnough;
      MakeRoom(size);
      ghost var before := stream;
      AppendFour(Header(size, TypeOf(p1), TypeOf(p2), TypeOf(p3), TypeOf(p4)), FromInt(head.op), FromInt(head.thread), head.stamp);
      ghost var w1 := AppendParam(p1);
      ghost var w2 := AppendParam(p2);
      ghost var w3 := AppendParam(p3);
      ghost var w4 := AppendParam(p4);
      ws := Rendered(w1, w2, w3, w4);
      assert stream == before + RecordOf(size, head, p1, p2, p3, p4, ws);
      RecordIsRecord(size, head, p1, p2, p3, p4, ws);
      StillFramed(before, RecordOf(size, head, p1, p2, p3, p4, ws));
    }

    /** Log a record: a timestamp record before it if one is due, and nothing more if the record
        is too big for its size to be expressed.  Making room never ends if the log is no larger
        than what is to be appended. */
    method AppendRecord(op: nat, p1: Param, p2: Param, p3: Param, p4: Param, thread: nat, sec: nat, usec: nat)
      returns (ghost ws: Rendered)
      requires Valid() && (sec - lastTS > 1024 ==> logSize > 5)
      requires var size := 4 + ParamSize(p1) + ParamSize(p2) + ParamSize(p3) + ParamSize(p4);
               size <= 255 ==> size < logSize
      requires ParamOk(p1) && ParamOk(p2) && ParamOk(p3) && ParamOk(p4)
      modifies this, datap
      ensures Valid()
      ensures lastTS == if sec - old(lastTS) > 1024 then sec else old(lastTS)
      ensures var stamp := FromInt(sec % 1024 * 1000000 + usec);
              var size := 4 + ParamSize(p1) + ParamSize(p2) + ParamSize(p3) + ParamSize(p4);
              && (size <= 255 ==> AllRendered(p1, p2, p3, p4, ws))
              && stream == old(stream) + (if sec - old(lastTS) > 1024 then TimestampRecord(stamp, sec) else [])
                         + (if size > 255 then [] else RecordOf(size, Head(op, thread, stamp), p1, p2, p3, p4, ws))
              && JustEnoughForBoth(old(stream), old(baseCookie), baseCookie, logSize,
                                   if sec - old(lastTS) > 1024 then TimestampRecord(stamp, sec) else [], size)
    {
      hide Valid, FromInt, Renders, RecordOf, ParamOk, ParamSize, JustEnough;
      ghost var was := stream;
      var stamp := FromInt(sec % 1024 * 1000000 + usec);
      if sec - lastTS > 1024 {
        AppendTimestamp(stamp, sec);
      } else {
        assert was + [] == was;
      }
      ghost var from, between, timestamp := old(baseCookie), baseCookie, if sec - old(lastTS) > 1024 then TimestampRecord(stamp, sec) else [];
      var rsize := 4 + ParamSize(p1) + ParamSize(p2) + ParamSize(p3) + ParamSize(p4);
      ws := Rendered([], [], [], []);
      if rsize <= 255 {
        ws := AppendSized(rsize, Head(op, thread, stamp), p1, p2, p3, p4);
      }
      assert MadeInTurn(was, from, between, baseCookie, logSize, timestamp, rsize);
    }

    /** One block of words, which is a slice of the stream. */
    method CopyBlock(ix: nat, n: nat, ghost off: nat) returns (out: seq<Word>)
      requires Ring() && off + n <= logElements && ix == Slot(firstUsed, logSize, off) && ix + n <= logSize
      ensures baseCookie + off + n <= |stream| && out == Slice(stream, baseCookie + off, n) && |out| == n
    {
      Segment(datap[..], firstUsed, logElements, stream, baseCookie, off, ix, n);
      out := datap[ix..ix + n];
    }

    /** What lies between array position ix and the end of the array or of the log.  Words still
        wanted after that are at the beginning of the array. */
    method CopyTail(ix0: nat, inWords0: int, ghost off: nat) returns (out: seq<Word>, ix: nat, inWords: int)
      requires Ring() && off < logElements && ix0 == Slot(firstUsed, logSize, off)
      ensures inWords == inWords0 - |out| && off + |out| <= logElements && baseCookie + off + |out| <= |stream|
      ensures out == Slice(stream, baseCookie + off, |out|)
      ensures inWords <= 0 ==> |out| == if inWords0 > 0 then inWords0 else 0
      ensures inWords > 0 && firstUsed > firstFree ==>
                ix == Slot(firstUsed, logSize, off + |out|) && off + |out| + (firstFree - ix) == logElements
      ensures inWords > 0 && firstUsed <= firstFree ==> off + |out| == logElements
    {
      RingFacts(datap[..], firstUsed, logElements, stream, baseCookie);
      Layout(firstUsed, logSize, logElements, off);
      hide RingOf, Slice, Slot;
      out, ix, inWords := [], ix0, inWords0;
      EmptySlice(stream, baseCookie + off);
      if ix >= firstUsed {
        var end := if firstUsed <= firstFree then firstFree else logSize;
        var nwords := if end - ix < inWords then end - ix else inWords;
        if nwords > 0 {
          out := CopyBlock(ix, nwords, off);
          inWords := inWords - nwords;
        }
        ix := 0;
      }
    }

    /** Copy the words from array position ix on, going around the end of the array if the log
        does. */
    method CopyFrom(ix0: nat, inWords0: int, ghost off: nat) returns (out: seq<Word>)
      requires Ring() && off < logElements && ix0 == Slot(firstUsed, logSize, off)
      ensures |out| == Min(if inWords0 > 0 then inWords0 else 0, logElements - off)
      ensures baseCookie + off + |out| <= |stream| && out == Slice(stream, baseCookie + off, |out|)
    {
      var ix, inWords;
      out, ix, inWords := CopyTail(ix0, inWords0, off);
      RingFacts(datap[..], firstUsed, logElements, stream, baseCookie);
      hide RingOf, Slice, Slot;
      if firstUsed > firstFree && ix < firstFree && inWords > 0 {
        var nwords := if firstFree - ix < inWords then firstFree - ix else inWords;
        ghost var n := |out|;
        var rest := CopyBlock(ix, nwords, off + n);
        JoinSlices(stream, baseCookie + off, n, nwords);
        out := out + rest;
      }
    }

    /** Copy out up to `bufSize` words from a position in the stream: exactly the slice of the
        stream there, however it lies in the array.  A position that has been overtaken is moved
        up to the oldest record, and that is reported unless it was the start. */
    method CopyOut(bufSize: int, cookie: nat) returns (out: seq<Word>, newCookie: nat, missed: bool)
      requires Valid()
      ensures newCookie == (if cookie < baseCookie then baseCookie else cookie)
      ensures missed <==> 0 < cookie < baseCookie
      ensures newCookie >= |stream| ==> out == []
      ensures newCookie < |stream| ==>
                out == stream[newCookie..newCookie + Min(if bufSize > 0 then bufSize else 0, |stream| - newCookie)]
    {
      RingFacts(datap[..], firstUsed, logElements, stream, baseCookie);
      hide RingOf, Framed;
      out, missed := [], false;
      newCookie := cookie;
      if newCookie < baseCookie {
        missed := newCookie > 0;
        newCookie := baseCookie;
      }
      var ix := firstUsed + (newCookie - baseCookie);
      if ix >= logSize {
        ix := ix - logSize;
      }
      if newCookie - baseCookie < logElements {
        out := CopyFrom(ix, bufSize, newCookie - baseCookie);
      }
    }
  }
}
