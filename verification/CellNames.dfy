/** The list of cell names and their numbers, and the file it is kept in between starts: the file
    is read back into the list it was written from, and numbers are never given out twice. */
module CellNames {
  import opened Common

  type Byte = n: nat | n < 0x100

  type Int32 = n: int | -0x8000_0000 <= n < 0x8000_0000

  /** The largest and the smallest. */
  const LAST: int := 0x7fff_ffff
  const LEAST: int := -0x8000_0000

  /** One more, in 32-bit arithmetic. */
  function Next32(n: Int32): Int32 { if n == LAST then LEAST else n + 1 }

  /** A name, as its bytes without the final null. */
  type Name = seq<Byte>

  datatype CellName = CellName(cellnum: Int32, cellname: Name, used: bool)

  // ---------------------------------------------------------------- 32-bit integers in a file

  const TWO32: int := 0x1_0000_0000

  predicate IsInt32(n: int) { -0x8000_0000 <= n < 0x8000_0000 }

  /** A 32-bit integer as four bytes, least significant first. */
  function Word(n: int): (b: seq<Byte>)
    ensures |b| == 4
  {
    var u := n % TWO32;
    [u % 0x100, u / 0x100 % 0x100, u / 0x10000 % 0x100, u / 0x1000000]
  }

  function FromWord(b: seq<Byte>): Int32
    requires |b| == 4
  {
    var u := b[0] as int + b[1] as int * 0x100 + b[2] as int * 0x10000 + b[3] as int * 0x1000000;
    if u >= 0x8000_0000 then u - TWO32 else u
  }

  lemma WordComesBack(n: int)
    requires IsInt32(n)
    ensures FromWord(Word(n)) == n
  {
    var u := n % TWO32;
    var (a, b, c) := (u / 0x100, u / 0x10000, u / 0x1000000);
    assert b == a / 0x100 && c == b / 0x100;
    assert u == u % 0x100 + a * 0x100 && a == a % 0x100 + b * 0x100 && b == b % 0x100 + c * 0x100;
  }

  const MAGIC: int := 0xf32817cd

  /** The magic number as the signed integer it is read as. */
  const SIGNED_MAGIC: int := MAGIC - TWO32

  // ---------------------------------------------------------------- records

  /** A C string ends at the first null. */
  function UpToNull(s: Name): Name {
    if s == [] || s[0] == 0 then [] else [s[0]] + UpToNull(s[1..])
  }

  ghost predicate NoNull(s: Name) { forall i | 0 <= i < |s| :: s[i] != 0 }

  lemma {:induction false} UpToNullOfWhole(s: Name)
    requires NoNull(s)
    ensures UpToNull(s) == s
  {
    if s != [] { UpToNullOfWhole(s[1..]); }
  }

  function EncodeOne(c: CellName): seq<Byte> {
    Word(MAGIC) + Word(c.cellnum) + Word(|c.cellname|) + c.cellname
  }

  /** The file that is written: the names in use, from the head of the list on. */
  function Encode(list: seq<CellName>): seq<Byte> {
    if list == [] then [] else (if list[0].used then EncodeOne(list[0]) else []) + Encode(list[1..])
  }

  datatype Record = Record(cellnum: Int32, name: Name, size: nat)

  /** The record at the front of a file, if a whole one is there. */
  function ReadRecord(file: seq<Byte>): (r: Option<Record>)
    ensures r.Some? ==> 0 < r.value.size <= |file|
  {
    if |file| < 4 || FromWord(file[..4]) != SIGNED_MAGIC then None
    else if |file| < 8 then None
    else if |file| < 12 then None
    else
      var clen := FromWord(file[8..12]);
      if clen < 0 || |file| < 12 + clen then None
      else Some(Record(FromWord(file[4..8]), UpToNull(file[12..12 + clen]), 12 + clen))
  }

  ghost predicate Writable(c: CellName) {
    0 < c.cellnum && NoNull(c.cellname) && IsInt32(|c.cellname|)
  }

  lemma RecordComesBack(c: CellName, tail: seq<Byte>)
    requires Writable(c)
    ensures ReadRecord(EncodeOne(c) + tail) == Some(Record(c.cellnum, c.cellname, |EncodeOne(c)|))
    ensures (EncodeOne(c) + tail)[|EncodeOne(c)|..] == tail
  {
    var file := EncodeOne(c) + tail;
    var n := |c.cellname|;
    hide Word, FromWord, UpToNull;
    assert file[..4] == Word(MAGIC) && file[4..8] == Word(c.cellnum) && file[8..12] == Word(n) && file[12..12 + n] == c.cellname;
    WordComesBack(c.cellnum);
    WordComesBack(n);
    MagicComesBack();
    UpToNullOfWhole(c.cellname);
  }

  lemma MagicComesBack()
    ensures FromWord(Word(MAGIC)) == SIGNED_MAGIC
  {
  }

  lemma BytesComeBack(b: seq<Byte>)
    requires |b| == 4
    ensures Word(FromWord(b)) == b
  {
    var u := b[0] as int + b[1] as int * 0x100 + b[2] as int * 0x10000 + b[3] as int * 0x1000000;
    assert FromWord(b) % TWO32 == u;
    BytesOf(b[0], b[1], b[2], b[3]);
  }

  lemma BytesOf(b0: int, b1: int, b2: int, b3: int)
    requires 0 <= b0 < 0x100 && 0 <= b1 < 0x100 && 0 <= b2 < 0x100 && 0 <= b3 < 0x100
    ensures var u := b0 + b1 * 0x100 + b2 * 0x10000 + b3 * 0x1000000;
            u % 0x100 == b0 && u / 0x100 % 0x100 == b1 && u / 0x10000 % 0x100 == b2 && u / 0x1000000 == b3
  {
    var u := b0 + b1 * 0x100 + b2 * 0x10000 + b3 * 0x1000000;
    assert u / 0x100 == b1 + b2 * 0x100 + b3 * 0x10000 && u / 0x10000 == b2 + b3 * 0x100;
  }

  lemma FrontParts(a: seq<Byte>, b: seq<Byte>, c: seq<Byte>, d: seq<Byte>, file: seq<Byte>)
    requires |a| == |b| == |c| == 4 && a + b + c + d <= file
    ensures file[..4] == a && file[4..8] == b && file[8..12] == c && |file| >= 12 + |d| && file[12..12 + |d|] == d
  {
    var front := a + b + c + d;
    assert front[..4] == a && front[4..8] == b && front[8..12] == c && front[12..] == d;
    assert file[..|front|] == front;
    assert file[..4] == front[..4] && file[4..8] == front[4..8] && file[8..12] == front[8..12] && file[12..12 + |d|] == front[12..];
  }

  /** The file begins with a record of this number and these bytes of a name. */
  ghost predicate Begins(file: seq<Byte>, cellnum: Int32, raw: Name) {
    IsInt32(|raw|) && Word(MAGIC) + Word(cellnum) + Word(|raw|) + raw <= file
  }

  lemma BegunIsRead(file: seq<Byte>, cellnum: Int32, raw: Name)
    requires Begins(file, cellnum, raw)
    ensures ReadRecord(file) == Some(Record(cellnum, UpToNull(raw), 12 + |raw|))
  {
    hide Word, FromWord, UpToNull;
    var n := |raw|;
    FrontParts(Word(MAGIC), Word(cellnum), Word(n), raw, file);
    WordComesBack(cellnum);
    WordComesBack(n);
    MagicComesBack();
  }

  lemma ReadIsBegun(file: seq<Byte>) returns (raw: Name)
    requires ReadRecord(file).Some?
    ensures Begins(file, ReadRecord(file).value.cellnum, raw)
  {
    hide Word, FromWord, UpToNull;
    var n := FromWord(file[8..12]);
    raw := file[12..12 + n];
    BytesComeBack(file[..4]);
    BytesComeBack(file[4..8]);
    BytesComeBack(file[8..12]);
    SameMagic();
    assert file[..12 + n] == file[..4] + file[4..8] + file[8..12] + raw;
  }

  lemma SameMagic()
    ensures Word(SIGNED_MAGIC) == Word(MAGIC)
  {
  }

  /** A record is read exactly where one has been written: the magic number, a number, a length, and that
      many bytes, of which the name is what comes before the first null. */
  lemma ReadsExactlyRecords(file: seq<Byte>)
    ensures ReadRecord(file).Some? <==> exists cellnum: Int32, raw: Name :: Begins(file, cellnum, raw)
    ensures forall cellnum: Int32, raw: Name | Begins(file, cellnum, raw) ::
              ReadRecord(file) == Some(Record(cellnum, UpToNull(raw), 12 + |raw|))
  {
    hide Begins, ReadRecord;
    forall cellnum: Int32, raw: Name | Begins(file, cellnum, raw)
      ensures ReadRecord(file) == Some(Record(cellnum, UpToNull(raw), 12 + |raw|))
    {
      BegunIsRead(file, cellnum, raw);
    }
    if ReadRecord(file).Some? {
      var raw := ReadIsBegun(file);
    }
  }

  // ---------------------------------------------------------------- the list

  /** The list, head first, and the next number to give out. */
  datatype State = State(list: seq<CellName>, next: Int32)

  const START: State := State([], 1)

  /** Numbers and names are distinct, and the next number is above them all. */
  ghost predicate StateOk(s: State) {
    && s.next >= 1
    && (forall i | 0 <= i < |s.list| :: s.list[i].cellnum < s.next)
    && (forall i, j | 0 <= i < j < |s.list| ::
          s.list[i].cellnum != s.list[j].cellnum && s.list[i].cellname != s.list[j].cellname)
  }

  /** Number 0 asks for the next one. */
  function NumberFor(s: State, cellnum: Int32): Int32 { if cellnum == 0 then s.next else cellnum }

  /** A new name at the head of the list. */
  function New(s: State, name: Name, cellnum: Int32): State {
    var n := NumberFor(s, cellnum);
    State([CellName(n, name, false)] + s.list, if n >= s.next then Next32(n) else s.next)
  }

  predicate HasName(list: seq<CellName>, name: Name) { exists i :: 0 <= i < |list| && list[i].cellname == name }

  predicate HasNumber(list: seq<CellName>, n: int) { exists i :: 0 <= i < |list| && list[i].cellnum == n }

  /** Numbers that are asked for by 0 or are not taken stay distinct, and so does a new name.  The
      next number stays above them all if and only if there is one above the new one. */
  lemma NewOk(s: State, name: Name, cellnum: Int32)
    requires StateOk(s) && !HasName(s.list, name) && (cellnum == 0 || !HasNumber(s.list, cellnum))
    ensures StateOk(New(s, name, cellnum)) <==> NumberFor(s, cellnum) != LAST
  {
    var s' := New(s, name, cellnum);
    forall j | 0 <= j < |s.list| ensures s.list[j].cellname != name && s.list[j].cellnum != s'.list[0].cellnum {
      assert !HasName(s.list, name);
    }
    if NumberFor(s, cellnum) == LAST { LastIsNeverOk(s', 0); }
  }

  lemma LastIsNeverOk(s: State, i: nat)
    requires i < |s.list| && s.list[i].cellnum == LAST
    ensures !StateOk(s)
  {
  }

  /** Reading a file record by record, until there is no record or a name or number is there
      already. */
  function Decode(file: seq<Byte>, s: State): State
    decreases |file|
  {
    match ReadRecord(file)
    case None => s
    case Some(r) =>
      if HasName(s.list, r.name) || HasNumber(s.list, r.cellnum) then s
      else Decode(file[r.size..], New(s, r.name, r.cellnum))
  }

  /** The last 32-bit number is given to some record that is accepted. */
  predicate TakesLast(file: seq<Byte>, s: State)
    decreases |file|
  {
    match ReadRecord(file)
    case None => false
    case Some(r) =>
      !HasName(s.list, r.name) && !HasNumber(s.list, r.cellnum) &&
      (NumberFor(s, r.cellnum) == LAST || TakesLast(file[r.size..], New(s, r.name, r.cellnum)))
  }

  /** Reading only puts names in front of those there are. */
  lemma {:induction false} DecodeKeeps(file: seq<Byte>, s: State)
    ensures var list := Decode(file, s).list; |list| >= |s.list| && list[|list| - |s.list|..] == s.list
    decreases |file|
  {
    var r := ReadRecord(file);
    if r.Some? && !HasName(s.list, r.value.name) && !HasNumber(s.list, r.value.cellnum) {
      var s' := New(s, r.value.name, r.value.cellnum);
      DecodeKeeps(file[r.value.size..], s');
      var list := Decode(file, s).list;
      assert list[|list| - |s.list|..] == list[|list| - |s'.list|..][1..];
    }
  }

  /** Whatever the file, reading it keeps names and numbers distinct and the next number above them
      all, if and only if the last 32-bit number is not given out. */
  lemma {:induction false} DecodeOk(file: seq<Byte>, s: State)
    requires StateOk(s)
    ensures StateOk(Decode(file, s)) <==> !TakesLast(file, s)
    decreases |file|
  {
    var r := ReadRecord(file);
    if r.Some? && !HasName(s.list, r.value.name) && !HasNumber(s.list, r.value.cellnum) {
      var (rest, s') := (file[r.value.size..], New(s, r.value.name, r.value.cellnum));
      NewOk(s, r.value.name, r.value.cellnum);
      if NumberFor(s, r.value.cellnum) == LAST {
        DecodeKeeps(rest, s');
        var list := Decode(rest, s').list;
        assert list[|list| - |s'.list|] == s'.list[0];
        LastIsNeverOk(Decode(rest, s'), |list| - |s'.list|);
      } else {
        DecodeOk(rest, s');
      }
    }
  }

  /** One record with the last number is enough: the next number given out is negative. */
  lemma LastNumberOverflows(c: CellName)
    requires Writable(c) && c.cellnum == LAST
    ensures !StateOk(Decode(EncodeOne(c), START)) && Decode(EncodeOne(c), START).next == LEAST
  {
    OneRecord(c, START);
    LastIsNeverOk(New(START, c.cellname, c.cellnum), 0);
  }

  /** The names in use entered one after the other. */
  ghost function Entered(list: seq<CellName>, s: State): State {
    if list == [] then s
    else Entered(list[1..], if list[0].used then New(s, list[0].cellname, list[0].cellnum) else s)
  }

  /** No name or number of one list is in the other. */
  ghost predicate Apart(list: seq<CellName>, other: seq<CellName>) {
    forall i | 0 <= i < |list| :: !HasName(other, list[i].cellname) && !HasNumber(other, list[i].cellnum)
  }

  ghost predicate DistinctCells(list: seq<CellName>) {
    forall i, j | 0 <= i < j < |list| :: list[i].cellnum != list[j].cellnum && list[i].cellname != list[j].cellname
  }

  lemma NotZero(c: CellName)
    requires Writable(c)
    ensures c.cellnum > 0
  {
  }

  lemma ApartHead(list: seq<CellName>, other: seq<CellName>)
    requires list != [] && Apart(list, other) && DistinctCells(list)
    ensures !HasName(other, list[0].cellname) && !HasNumber(other, list[0].cellnum)
    ensures Apart(list[1..], other) && DistinctCells(list[1..])
  {
    var rest := list[1..];
    forall i | 0 <= i < |rest| ensures !HasName(other, rest[i].cellname) && !HasNumber(other, rest[i].cellnum) {
      assert rest[i] == list[i + 1];
    }
  }

  lemma ApartAfterNew(list: seq<CellName>, s: State)
    requires list != [] && Apart(list, s.list) && DistinctCells(list) && list[0].cellnum != 0
    ensures Apart(list[1..], New(s, list[0].cellname, list[0].cellnum).list) && DistinctCells(list[1..])
  {
    var (rest, s') := (list[1..], New(s, list[0].cellname, list[0].cellnum));
    forall i | 0 <= i < |rest| ensures !HasName(s'.list, rest[i].cellname) && !HasNumber(s'.list, rest[i].cellnum) {
      assert rest[i] == list[i + 1];
      forall j | 0 <= j < |s'.list| ensures s'.list[j].cellname != rest[i].cellname && s'.list[j].cellnum != rest[i].cellnum {
        if j > 0 {
          assert s'.list[j] == s.list[j - 1];
          assert !HasName(s.list, list[i + 1].cellname) && !HasNumber(s.list, list[i + 1].cellnum);
        }
      }
    }
  }

  lemma OneComesBack(c: CellName, more: seq<Byte>, s: State)
    requires Writable(c) && !HasName(s.list, c.cellname) && !HasNumber(s.list, c.cellnum)
    ensures Decode(EncodeOne(c) + more, s) == Decode(more, New(s, c.cellname, c.cellnum))
  {
    RecordComesBack(c, more);
    hide EncodeOne, ReadRecord, Writable, New;
  }

  /** What was written is read back name by name; reading then goes on with whatever the file has
      behind it. */
  lemma {:induction false} WrittenComesBack(list: seq<CellName>, tail: seq<Byte>, s: State)
    requires (forall i | 0 <= i < |list| :: Writable(list[i])) && DistinctCells(list) && Apart(list, s.list)
    ensures Decode(Encode(list) + tail, s) == Decode(tail, Entered(list, s))
  {
    hide EncodeOne, ReadRecord, Writable, Apart, DistinctCells, Decode;
    if list == [] {
      assert Encode(list) + tail == tail;
    } else {
      var (c, rest) := (list[0], list[1..]);
      forall i | 0 <= i < |rest| ensures Writable(rest[i]) {
        assert rest[i] == list[i + 1];
      }
      ApartHead(list, s.list);
      NotZero(c);
      if c.used {
        ApartAfterNew(list, s);
        assert Encode(list) + tail == EncodeOne(c) + (Encode(rest) + tail);
        OneComesBack(c, Encode(rest) + tail, s);
        WrittenComesBack(rest, tail, New(s, c.cellname, c.cellnum));
      } else {
        assert Encode(list) + tail == Encode(rest) + tail;
        WrittenComesBack(rest, tail, s);
      }
    }
  }

  /** The names in use, in the order of the list. */
  ghost function InUse(list: seq<CellName>): seq<CellName> {
    if list == [] then [] else (if list[0].used then [list[0]] else []) + InUse(list[1..])
  }

  ghost function Reversed(list: seq<CellName>): seq<CellName> {
    if list == [] then [] else Reversed(list[1..]) + [list[0].(used := false)]
  }

  lemma UsedOnce(list: seq<CellName>, s: State)
    requires list != [] && list[0].used && list[0].cellnum > 0
    ensures var (c, s') := (list[0], New(s, list[0].cellname, list[0].cellnum));
            && Entered(list, s) == Entered(list[1..], s') && s'.list == [c.(used := false)] + s.list
            && Reversed(InUse(list)) == Reversed(InUse(list[1..])) + [c.(used := false)]
  {
    hide Entered;
    var (c, rest) := (list[0], InUse(list[1..]));
    assert InUse(list) == [c] + rest && ([c] + rest)[1..] == rest;
    assert Entered(list, s) == Entered(list[1..], New(s, c.cellname, c.cellnum)) by { EnteredUsed(list, s); }
  }

  lemma EnteredUsed(list: seq<CellName>, s: State)
    requires list != [] && list[0].used
    ensures Entered(list, s) == Entered(list[1..], New(s, list[0].cellname, list[0].cellnum))
  {
    hide New;
  }

  lemma {:induction false} EnteredReverses(list: seq<CellName>, s: State)
    requires forall i | 0 <= i < |list| :: list[i].cellnum > 0
    ensures Entered(list, s).list == Reversed(InUse(list)) + s.list
  {
    hide New, Reversed;
    if list == [] {
      assert Reversed([]) == [] by { NothingReversed(); }
    } else if list[0].used {
      var (c, s') := (list[0].(used := false), New(s, list[0].cellname, list[0].cellnum));
      UsedOnce(list, s);
      EnteredReverses(list[1..], s');
      assert Reversed(InUse(list[1..])) + ([c] + s.list) == (Reversed(InUse(list[1..])) + [c]) + s.list;
    } else {
      EnteredReverses(list[1..], s);
      assert InUse(list) == InUse(list[1..]);
    }
  }

  lemma NothingReversed()
    ensures Reversed([]) == []
  {
  }

  /** A whole record at the front of a file, of a name and number not in the list. */
  predicate BringsBack(file: seq<Byte>, list: seq<CellName>) {
    var r := ReadRecord(file);
    r.Some? && !HasName(list, r.value.name) && !HasNumber(list, r.value.cellnum)
  }

  /** Reading into an empty list what was written, with anything behind it, gives the names in use,
      the other way round and each with its number, if and only if what is behind does not start
      with a record of a name and number not written. */
  lemma RoundTripBeforeTail(list: seq<CellName>, tail: seq<Byte>)
    requires (forall i | 0 <= i < |list| :: Writable(list[i])) && DistinctCells(list)
    ensures Decode(Encode(list) + tail, START).list == Reversed(InUse(list)) <==> !BringsBack(tail, Reversed(InUse(list)))
  {
    hide Encode, ReadRecord, Entered;
    var s := Entered(list, START);
    WrittenComesBack(list, tail, START);
    EnteredReverses(list, START);
    assert s.list == Reversed(InUse(list));
    if BringsBack(tail, s.list) {
      var r := ReadRecord(tail).value;
      DecodeKeeps(tail[r.size..], New(s, r.name, r.cellnum));
    }
  }

  lemma RoundTrip(list: seq<CellName>)
    requires (forall i | 0 <= i < |list| :: Writable(list[i])) && DistinctCells(list)
    ensures Decode(Encode(list), START).list == Reversed(InUse(list))
  {
    RoundTripBeforeTail(list, []);
    NoRecord();
    assert Encode(list) + [] == Encode(list);
  }

  lemma NothingToEncode()
    ensures Encode([]) == []
  {
  }

  lemma EncodeStep(list: seq<CellName>, i: nat)
    requires i < |list|
    ensures Encode(list[i..]) == (if list[i].used then EncodeOne(list[i]) else []) + Encode(list[i + 1..])
  {
    hide EncodeOne;
    assert list[i..][1..] == list[i + 1..];
  }

  /** The file after writing: it is not cut off where writing ends. */
  function Rewritten(list: seq<CellName>, file: seq<Byte>): seq<Byte> {
    Encode(list) + if |file| > |Encode(list)| then file[|Encode(list)|..] else []
  }

  /** So a name of an earlier file comes back exactly when its record starts where writing ends. */
  lemma RewrittenRoundTrip(list: seq<CellName>, file: seq<Byte>)
    requires (forall i | 0 <= i < |list| :: Writable(list[i])) && DistinctCells(list)
    ensures Decode(Rewritten(list, file), START).list == Reversed(InUse(list)) <==>
            |file| <= |Encode(list)| || !BringsBack(file[|Encode(list)|..], Reversed(InUse(list)))
  {
    RoundTripBeforeTail(list, if |file| > |Encode(list)| then file[|Encode(list)|..] else []);
    NoRecord();
  }

  /** What such a name does: one stale record behind the names written. */
  lemma OldTailComesBack(list: seq<CellName>, stale: CellName)
    requires (forall i | 0 <= i < |list| :: Writable(list[i])) && DistinctCells(list)
    requires Writable(stale) && !HasName(Reversed(InUse(list)), stale.cellname) && !HasNumber(Reversed(InUse(list)), stale.cellnum)
    ensures Decode(Encode(list) + EncodeOne(stale), START).list == [stale.(used := false)] + Reversed(InUse(list))
  {
    hide EncodeOne, Encode, Decode, Entered, ReadRecord;
    var s := Entered(list, START);
    WrittenComesBack(list, EncodeOne(stale), START);
    EnteredReverses(list, START);
    assert s.list == Reversed(InUse(list));
    OneRecord(stale, s);
  }

  /** A file of one record. */
  lemma OneRecord(c: CellName, s: State)
    requires Writable(c) && !HasName(s.list, c.cellname) && !HasNumber(s.list, c.cellnum)
    ensures Decode(EncodeOne(c), s) == New(s, c.cellname, c.cellnum)
  {
    hide EncodeOne, ReadRecord;
    RecordComesBack(c, []);
    assert EncodeOne(c) + [] == EncodeOne(c);
    NoRecord();
    var rest := EncodeOne(c)[|EncodeOne(c)|..];
    assert rest == [];
    assert Decode(rest, New(s, c.cellname, c.cellnum)) == New(s, c.cellname, c.cellnum);
  }

  lemma NoRecord()
    ensures ReadRecord([]) == None
  {
  }

  // ---------------------------------------------------------------- the table in the kernel

  class Table {
    /** The list, head first. */
    var list: seq<CellName>
    var next: Int32
    var dirty: bool

    ghost function Value(): State
      reads this
    {
      State(list, next)
    }

    ghost predicate Valid()
      reads this
    {
      StateOk(Value())
    }

    constructor ()
      ensures Valid() && list == [] && next == 1 && !dirty
    {
      list, next, dirty := [], 1, false;
    }

    /** The caller has looked the name and the number up.  The list stays in order exactly as long
        as the last number is not given out. */
    method NewName(name: Name, cellnum: Int32)
      requires Valid() && !HasName(list, name) && (cellnum == 0 || !HasNumber(list, cellnum))
      modifies this`list, this`next
      ensures Value() == New(old(Value()), name, cellnum)
      ensures Valid() <==> (if cellnum == 0 then old(next) else cellnum) != LAST
    {
      NewOk(Value(), name, cellnum);
      var n := if cellnum == 0 then next else cellnum;
      list := [CellName(n, name, false)] + list;
      if n >= next {
        next := Next32(n);
      }
    }

    method LookupId(cellnum: Int32) returns (i: int)
      ensures i == -1 <==> !HasNumber(list, cellnum)
      ensures i != -1 ==> 0 <= i < |list| && list[i].cellnum == cellnum
    {
      i := 0;
      while i < |list|
        invariant 0 <= i <= |list| && forall j | 0 <= j < i :: list[j].cellnum != cellnum
      {
        if list[i].cellnum == cellnum {
          return;
        }
        i := i + 1;
      }
      i := -1;
    }

    method LookupName(name: Name) returns (i: int)
      ensures i == -1 <==> !HasName(list, name)
      ensures i != -1 ==> 0 <= i < |list| && list[i].cellname == name
    {
      i := 0;
      while i < |list|
        invariant 0 <= i <= |list| && forall j | 0 <= j < i :: list[j].cellname != name
      {
        if list[i].cellname == name {
          return;
        }
        i := i + 1;
      }
      i := -1;
    }

    /** Note that a name is in use: it is worth writing from now on. */
    method Ref(i: nat)
      requires Valid() && i < |list|
      modifies this`list, this`dirty
      ensures Valid() && list == old(list)[i := old(list)[i].(used := true)]
      ensures dirty == (old(dirty) || !old(list)[i].used)
    {
      if !list[i].used {
        list := list[i := list[i].(used := true)];
        dirty := true;
      }
    }

    /** Load the list from a file. */
    method Init(file: seq<Byte>)
      requires Valid()
      modifies this
      ensures Value() == Decode(file, State(old(list), 1)) && !dirty
      ensures old(list) == [] ==> (Valid() <==> !TakesLast(file, START))
    {
      hide ReadRecord;
      next := 1;
      dirty := false;
      var off := 0;
      ghost var start := Value();
      if list == [] { DecodeOk(file, start); }
      assert file[0..] == file;
      while true
        invariant 0 <= off <= |file| && !dirty
        invariant Decode(file, start) == Decode(file[off..], Value())
        decreases |file| - off
      {
        var r := ReadRecord(file[off..]);
        if r.None? {
          break;
        }
        var byName := LookupName(r.value.name);
        var byNumber := LookupId(r.value.cellnum);
        if byName != -1 || byNumber != -1 {
          break;
        }
        var n := if r.value.cellnum == 0 then next else r.value.cellnum;
        list := [CellName(n, r.value.name, false)] + list;
        if n >= next {
          next := Next32(n);
        }
        assert file[off..][r.value.size..] == file[off + r.value.size..];
        off := off + r.value.size;
      }
    }

    /** Write the names in use to a file, over what it holds. */
    method Write(file: seq<Byte>) returns (written: seq<Byte>)
      requires Valid()
      modifies this`dirty
      ensures !old(dirty) ==> written == file
      ensures old(dirty) ==> written == Rewritten(list, file)
      ensures !dirty
    {
      if !dirty {
        return file;
      }
      dirty := false;
      var out := InUseRecords();
      written := out + if |file| > |out| then file[|out|..] else [];
    }

    method InUseRecords() returns (out: seq<Byte>)
      ensures out == Encode(list)
    {
      hide Encode, EncodeOne;
      out := [];
      var i := 0;
      assert list[0..] == list;
      while i < |list|
        invariant 0 <= i <= |list| && out + Encode(list[i..]) == Encode(list)
      {
        EncodeStep(list, i);
        if list[i].used {
          out := out + EncodeOne(list[i]);
        }
        i := i + 1;
      }
      assert list[i..] == [];
      NothingToEncode();
    }
  }

  const ONE: CellName := CellName(1, [97], true)
  const TWO: CellName := CellName(2, [98], true)

  lemma EncodeTwo(c: CellName, d: CellName)
    ensures Encode([c, d]) == (if c.used then EncodeOne(c) else []) + (if d.used then EncodeOne(d) else [])
  {
    hide EncodeOne;
    assert [c, d][1..] == [d] && [d][1..] == [];
    assert Encode([d]) == if d.used then EncodeOne(d) else [];
  }

  lemma InUseTwo(c: CellName, d: CellName)
    ensures InUse([c, d]) == (if c.used then [c] else []) + (if d.used then [d] else [])
  {
    assert [c, d][1..] == [d] && [d][1..] == [];
    assert InUse([d]) == if d.used then [d] else [];
  }

  lemma EnteredTwo()
    ensures Entered([TWO, ONE], START) == State([ONE.(used := false), TWO.(used := false)], 3)
  {
    assert [TWO, ONE][1..] == [ONE] && [ONE][1..] == [];
    var s := New(START, TWO.cellname, 2);
    assert s == State([TWO.(used := false)], 3);
    assert New(s, ONE.cellname, 1) == State([ONE.(used := false), TWO.(used := false)], 3);
    EnteredUsed([TWO, ONE], START);
    EnteredUsed([ONE], s);
  }

  lemma DecodeNothing(s: State)
    ensures Decode([], s) == s
  {
  }

  /** The file written first is not changed by writing the second name alone over it. */
  lemma OverwrittenInPlace()
    ensures var file := Rewritten([TWO, ONE], []);
            && Decode(file, START) == State([ONE.(used := false), TWO.(used := false)], 3)
            && Rewritten([ONE.(used := false), TWO], file) == file
    ensures InUse([ONE.(used := false), TWO]) == [TWO]
  {
    hide EncodeOne, Encode, Decode, Entered, InUse;
    EncodeTwo(TWO, ONE);
    EncodeTwo(ONE.(used := false), TWO);
    InUseTwo(ONE.(used := false), TWO);
    WrittenComesBack([TWO, ONE], [], START);
    DecodeNothing(Entered([TWO, ONE], START));
    EnteredTwo();
    assert Rewritten([TWO, ONE], []) == EncodeOne(TWO) + EncodeOne(ONE);
    assert EncodeOne(ONE) != [] by { RecordComesBack(ONE, []); NoRecord(); }
    assert (EncodeOne(TWO) + EncodeOne(ONE))[|EncodeOne(TWO)|..] == EncodeOne(ONE);
  }

  /** Two names come into use and are written. */
  method FirstStart() returns (file: seq<Byte>)
    ensures file == Rewritten([TWO, ONE], [])
  {
    hide Rewritten;
    var t := new Table();
    t.NewName(ONE.cellname, 0);
    t.NewName(TWO.cellname, 0);
    t.Ref(0);
    t.Ref(1);
    assert t.list == [TWO, ONE];
    file := t.Write([]);
  }

  /** After the next start only one of them does, and the file is written over; the start after that
      finds the forgotten name in it. */
  method ForgottenNameComesBack() returns (kept: seq<CellName>, file: seq<Byte>, read: seq<CellName>)
    ensures file == Rewritten(kept, Rewritten([TWO, ONE], [])) && InUse(kept) == [TWO]
    ensures read == Decode(file, START).list == [ONE.(used := false), TWO.(used := false)]
  {
    hide Decode, Rewritten, InUse, TakesLast;
    OverwrittenInPlace();
    var written := FirstStart();
    var second := new Table();
    second.Init(written);
    second.Ref(1);
    kept := second.list;
    assert kept == [ONE.(used := false), TWO];
    file := second.Write(written);
    var third := new Table();
    third.Init(file);
    read := third.list;
  }
}
