/** The packed list of extended attribute names, daemon/ea.c: from the entries of
    the named attribute directory to FILE_GET_EA_INFORMATION records. */
module EaLists {
  import opened Lists

  type EaName = seq<Byte>

  /** One nfs41_readdir_entry; `next` is its next_entry_offset, 0 at the end. */
  datatype DirEntry = DirEntry(name: EaName, next: nat)

  const PREFIX: EaName := [0x77, 0x69, 0x6E, 0x33, 0x32, 0x2E, 0x65, 0x61, 0x2E]  // "win32.ea."
  const PREFIX_LEN := 9

  predicate IsWinEa(name: EaName) {
    |name| > PREFIX_LEN && name[..PREFIX_LEN] == PREFIX
  }

  /** The Windows EAs in directory order, without the prefix. */
  function WinEas(entries: seq<DirEntry>): seq<EaName> {
    if entries == [] then []
    else
      WinEas(entries[..|entries| - 1])
      + (var name := entries[|entries| - 1].name; if IsWinEa(name) then [name[PREFIX_LEN..]] else [])
  }

  /** The prefix is the text "win32.ea.". */
  lemma PrefixSpelled()
    ensures |PREFIX| == PREFIX_LEN == |"win32.ea."| && forall i :: 0 <= i < PREFIX_LEN ==> PREFIX[i] as int == "win32.ea."[i] as int
  {
  }

  /** A Windows EA is kept under its own name with the prefix put before it. */
  lemma WinEaIff(name: EaName)
    ensures IsWinEa(name) <==> exists n: EaName :: n != [] && name == PREFIX + n
    ensures IsWinEa(name) ==> name == PREFIX + name[PREFIX_LEN..]
  {
    if IsWinEa(name) {
      assert name == PREFIX + name[PREFIX_LEN..];
    }
    if n: EaName :| n != [] && name == PREFIX + n {
      assert name[..PREFIX_LEN] == PREFIX;
    }
  }

  /** Exactly the names whose prefixed form is in the directory are listed. */
  lemma {:induction false} ListedIff(entries: seq<DirEntry>, n: EaName)
    ensures n in WinEas(entries) <==> n != [] && exists i :: 0 <= i < |entries| && entries[i].name == PREFIX + n
  {
    if entries != [] {
      var last := |entries| - 1;
      ListedIff(entries[..last], n);
      WinEaIff(entries[last].name);
      assert IsWinEa(entries[last].name) ==> (entries[last].name[PREFIX_LEN..] == n <==> entries[last].name == PREFIX + n);
      if i :| 0 <= i < |entries| && entries[i].name == PREFIX + n && i < last {
        assert entries[..last][i].name == PREFIX + n;
      }
    }
  }

  function Align4(x: nat): nat
    requires x > 0
  {
    4 + (x - 1) / 4 * 4
  }

  const HEADER := 8  // sizeof(FILE_GET_EA_INFORMATION)
  const NAME_AT := 5 // FIELD_OFFSET(FILE_GET_EA_INFORMATION, EaName)

  /** ALIGNED_EASIZE */
  function AlignedSize(len: nat): (n: nat)
    ensures HEADER + len <= n < HEADER + len + 4
  {
    Align4(HEADER + len)
  }

  /** A record takes the next multiple of four bytes. */
  lemma AlignedToFour(len: nat)
    ensures AlignedSize(len) % 4 == 0 && HEADER + len <= AlignedSize(len) < HEADER + len + 4
  {
  }

  lemma AlignedSizeGrows(a: nat, b: nat)
    requires a <= b
    ensures AlignedSize(a) <= AlignedSize(b)
  {
  }

  function TotalSize(names: seq<EaName>): nat {
    if names == [] then 0 else TotalSize(names[..|names| - 1]) + AlignedSize(|names[|names| - 1]|)
  }

  /** The chain of entries: every entry but the last leads to the next one, and
      the offsets stay inside the buffer. */
  function OffsetSum(entries: seq<DirEntry>): nat {
    if entries == [] then 0 else OffsetSum(entries[..|entries| - 1]) + entries[|entries| - 1].next
  }

  ghost predicate WellFormed(entries: seq<DirEntry>, total: nat) {
    && entries != [] && entries[|entries| - 1].next == 0
    && (forall i :: 0 <= i < |entries| - 1 ==> entries[i].next > 0)
    && OffsetSum(entries) < total
  }

  /** calculate_ea_list_length */
  method CalculateLength(entries: seq<DirEntry>, total: nat) returns (length: nat)
    requires WellFormed(entries, total)
    ensures length == TotalSize(WinEas(entries))
  {
    length := 0;
    var i, remaining := 0, total;
    NothingYet(entries);
    hide WinEas, TotalSize, OffsetSum, AlignedSize;
    hide IsWinEa;
    while remaining > 0
      invariant i < |entries| && remaining > 0 && remaining + OffsetSum(entries[..i]) == total
      invariant length == TotalSize(WinEas(entries[..i]))
      decreases |entries| - i
    {
      var entry := entries[i];
      CountOne(entries, i);
      if IsWinEa(entry.name) {
        PrefixThere(entry.name);
        length := length + AlignedSize(|entry.name| - PREFIX_LEN);
      }
      if entry.next == 0 {
        LastEntry(entries, total, i);
        return;
      }
      OffsetsGrow(entries, i + 1);
      i := i + 1;
      remaining := remaining - entry.next;
    }
  }

  /** What one entry adds. */
  lemma CountOne(entries: seq<DirEntry>, i: nat)
    requires i < |entries|
    ensures OffsetSum(entries[..i + 1]) == OffsetSum(entries[..i]) + entries[i].next
    ensures IsWinEa(entries[i].name) ==>
        && |entries[i].name| > PREFIX_LEN
        && TotalSize(WinEas(entries[..i + 1])) == TotalSize(WinEas(entries[..i])) + AlignedSize(|entries[i].name| - PREFIX_LEN)
    ensures !IsWinEa(entries[i].name) ==> TotalSize(WinEas(entries[..i + 1])) == TotalSize(WinEas(entries[..i]))
  {
    hide WinEas, TotalSize, OffsetSum, AlignedSize;
    OneMore(entries, i);
  }

  lemma LastEntry(entries: seq<DirEntry>, total: nat, i: nat)
    requires WellFormed(entries, total) && i < |entries| && entries[i].next == 0
    ensures entries[..i + 1] == entries
  {
  }

  lemma NothingYet(entries: seq<DirEntry>)
    ensures TotalSize(WinEas(entries[..0])) == 0 && OffsetSum(entries[..0]) == 0
  {
  }

  lemma OneMore(entries: seq<DirEntry>, i: nat)
    requires i < |entries|
    ensures entries[..i + 1][..i] == entries[..i]
    ensures OffsetSum(entries[..i + 1]) == OffsetSum(entries[..i]) + entries[i].next
    ensures IsWinEa(entries[i].name) ==> WinEas(entries[..i + 1]) == WinEas(entries[..i]) + [entries[i].name[PREFIX_LEN..]]
    ensures IsWinEa(entries[i].name) ==>
        TotalSize(WinEas(entries[..i + 1])) == TotalSize(WinEas(entries[..i])) + AlignedSize(|entries[i].name| - PREFIX_LEN)
    ensures !IsWinEa(entries[i].name) ==> WinEas(entries[..i + 1]) == WinEas(entries[..i])
  {
    assert entries[..i + 1][..i] == entries[..i];
    if IsWinEa(entries[i].name) {
      var names := WinEas(entries[..i + 1]);
      assert names[..|names| - 1] == WinEas(entries[..i]);
    }
  }

  lemma {:induction false} OffsetsGrow(entries: seq<DirEntry>, i: nat)
    requires i <= |entries|
    ensures OffsetSum(entries[..i]) <= OffsetSum(entries)
    decreases |entries| - i
  {
    if i < |entries| {
      OneMore(entries, i);
      OffsetsGrow(entries, i + 1);
    } else {
      assert entries[..i] == entries;
    }
  }

  // Records

  function U32(x: nat): (b: seq<Byte>)
    ensures |b| == 4
  {
    [x % 256, x / 0x100 % 256, x / 0x1_0000 % 256, x / 0x100_0000 % 256]
  }

  function FromU32(b: seq<Byte>): nat
    requires |b| == 4
  {
    var b0: nat, b1: nat, b2: nat, b3: nat := b[0], b[1], b[2], b[3];
    b0 + 0x100 * b1 + 0x1_0000 * b2 + 0x100_0000 * b3
  }

  lemma U32RoundTrip(x: nat)
    requires x < 0x1_0000_0000
    ensures FromU32(U32(x)) == x
  {
  }

  function Zeros(n: nat): (z: seq<Byte>)
    ensures |z| == n
  {
    seq<Byte>(n, _ => 0)
  }

  /** One FILE_GET_EA_INFORMATION of `size` bytes. */
  function Record(name: EaName, next: nat, size: nat): (r: seq<Byte>)
    requires |name| < 256 && NAME_AT + |name| <= size
    ensures |r| == size
  {
    U32(next) + [|name|] + name + Zeros(size - NAME_AT - |name|)
  }

  /** EaNameLength is one byte. */
  function Truncated(name: EaName): (t: EaName)
    ensures |t| < 256 && |t| <= |name|
  {
    name[..|name| % 256]
  }

  /** Records that each lead to the one behind it. */
  function Packed(names: seq<EaName>): seq<Byte> {
    if names == [] then []
    else
      var name := Truncated(names[|names| - 1]);
      Packed(names[..|names| - 1]) + Record(name, AlignedSize(|name|), AlignedSize(|name|))
  }

  /** The finished list: the last record leads nowhere. */
  function Closed(names: seq<EaName>): seq<Byte>
    requires names != []
  {
    var name := Truncated(names[|names| - 1]);
    Packed(names[..|names| - 1]) + Record(name, 0, AlignedSize(|name|))
  }

  // Writing the list

  method WriteU32(buffer: array<Byte>, pos: nat, x: nat)
    requires pos + 4 <= buffer.Length
    modifies buffer
    ensures buffer[..] == old(buffer[..pos]) + U32(x) + old(buffer[pos + 4..])
  {
    var b := U32(x);
    buffer[pos], buffer[pos + 1], buffer[pos + 2], buffer[pos + 3] := b[0], b[1], b[2], b[3];
    hide U32;
    assert buffer[..pos] == old(buffer[..pos]) && buffer[pos + 4..] == old(buffer[pos + 4..]);
    assert buffer[pos..pos + 4] == b;
    assert buffer[..] == buffer[..pos] + buffer[pos..pos + 4] + buffer[pos + 4..];
  }

  /** EaNameLength and EaName of the record at `pos` */
  method WriteName(buffer: array<Byte>, pos: nat, name: EaName)
    requires |name| < 256 && pos + NAME_AT + |name| <= buffer.Length
    modifies buffer
    ensures buffer[..] == old(buffer[..pos + 4]) + [|name|] + name + old(buffer[pos + NAME_AT + |name|..])
  {
    var at := pos + NAME_AT;
    buffer[pos + 4] := |name|;
    var i := 0;
    while i < |name|
      invariant i <= |name| && buffer[pos + 4] == |name|
      invariant buffer[at..at + i] == name[..i]
      invariant buffer[..pos + 4] == old(buffer[..pos + 4]) && buffer[at + |name|..] == old(buffer[at + |name|..])
    {
      buffer[at + i] := name[i];
      i := i + 1;
    }
    assert buffer[at..at + |name|] == name;
    assert buffer[..] == buffer[..pos + 4] + buffer[pos + 4..at] + buffer[at..at + |name|] + buffer[at + |name|..];
    assert buffer[pos + 4..at] == [|name|];
  }

  lemma NameOnZeros(p: seq<Byte>, m: nat, name: EaName, size: nat)
    requires |name| < 256 && NAME_AT + |name| <= size <= m
    ensures var b := p + Zeros(m);
      b[..|p| + 4] + [|name|] + name + b[|p| + NAME_AT + |name|..] == p + Record(name, 0, size) + Zeros(m - size)
  {
    var b := p + Zeros(m);
    assert U32(0) == Zeros(4);
    assert b[..|p| + 4] == p + Zeros(4);
    assert b[|p| + NAME_AT + |name|..] == Zeros(m - NAME_AT - |name|);
    assert Zeros(m - NAME_AT - |name|) == Zeros(size - NAME_AT - |name|) + Zeros(m - size);
    hide Zeros, U32;
    Joined(p, Zeros(4), [|name|], name, Zeros(size - NAME_AT - |name|), Zeros(m - size));
  }

  lemma Joined<T>(a: seq<T>, b: seq<T>, c: seq<T>, d: seq<T>, e: seq<T>, f: seq<T>)
    ensures a + b + c + d + (e + f) == a + (b + c + d + e) + f
  {
  }

  lemma NextSet(p: seq<Byte>, name: EaName, x: nat, y: nat, size: nat, z: seq<Byte>)
    requires |name| < 256 && NAME_AT + |name| <= size
    ensures var b := p + Record(name, x, size) + z;
      b[..|p|] + U32(y) + b[|p| + 4..] == p + Record(name, y, size) + z
  {
    hide U32, Zeros;
    var rest := [|name|] + name + Zeros(size - NAME_AT - |name|);
    assert Record(name, x, size) == U32(x) + rest && Record(name, y, size) == U32(y) + rest;
    hide Record;
    var b := p + Record(name, x, size) + z;
    assert b == p + U32(x) + rest + z;
    assert b[..|p|] == p;
    assert b[|p| + 4..] == rest + z;
    assert p + U32(y) + (rest + z) == p + (U32(y) + rest) + z;
  }

  lemma {:induction false} PackedFits(names: seq<EaName>)
    ensures |Packed(names)| <= TotalSize(names)
  {
    if names != [] {
      PackedFits(names[..|names| - 1]);
      var name := names[|names| - 1];
      AlignedSizeGrows(|Truncated(name)|, |name|);
    }
  }

  lemma {:induction false} SizesGrow(entries: seq<DirEntry>, i: nat)
    requires i <= |entries|
    ensures TotalSize(WinEas(entries[..i])) <= TotalSize(WinEas(entries))
    decreases |entries| - i
  {
    if i < |entries| {
      OneMore(entries, i);
      SizesGrow(entries, i + 1);
    } else {
      assert entries[..i] == entries;
    }
  }

  /** Where the last record starts. */
  function LastAt(names: seq<EaName>): Option<nat> {
    if names == [] then None else Some(|Packed(names[..|names| - 1])|)
  }

  /** The buffer holds the records of `names` and then zeros. */
  ghost predicate Holds(buffer: array<Byte>, names: seq<EaName>, pos: nat)
    reads buffer
  {
    pos == |Packed(names)| <= buffer.Length && buffer[..] == Packed(names) + Zeros(buffer.Length - pos)
  }

  /** The buffer holds the finished list and then zeros. */
  ghost predicate Finished(buffer: array<Byte>, names: seq<EaName>)
    reads buffer
  {
    names != [] && |Closed(names)| <= buffer.Length && buffer[..] == Closed(names) + Zeros(buffer.Length - |Closed(names)|)
  }

  /** There is room for the record of the entry. */
  lemma {:induction false} Room(entries: seq<DirEntry>, i: nat, length: nat)
    requires i < |entries| && IsWinEa(entries[i].name) && TotalSize(WinEas(entries)) <= length
    ensures |Packed(WinEas(entries[..i]))| + AlignedSize(|Truncated(entries[i].name[PREFIX_LEN..])|) <= length
  {
    hide Packed, TotalSize, AlignedSize, WinEas;
    OneMore(entries, i);
    SizesGrow(entries, i + 1);
    PackedFits(WinEas(entries[..i]));
    AlignedSizeGrows(|Truncated(entries[i].name[PREFIX_LEN..])|, |entries[i].name| - PREFIX_LEN);
  }

  /** The record of one Windows EA, still without an offset to the next. */
  method AddRecord(buffer: array<Byte>, pos: nat, ghost names: seq<EaName>, name: EaName)
    requires Holds(buffer, names, pos) && pos + AlignedSize(|Truncated(name)|) <= buffer.Length
    modifies buffer
    ensures var t := Truncated(name);
      buffer[..] == Packed(names) + Record(t, 0, AlignedSize(|t|)) + Zeros(buffer.Length - pos - AlignedSize(|t|))
  {
    hide Packed, Record, Zeros, U32, AlignedSize;
    var t := Truncated(name);
    NameOnZeros(Packed(names), buffer.Length - pos, t, AlignedSize(|t|));
    ghost var before := buffer[..];
    WriteName(buffer, pos, t);
    assert before[..pos + 4] == old(buffer[..pos + 4]) && before[pos + NAME_AT + |t|..] == old(buffer[pos + NAME_AT + |t|..]);
  }

  /** Set the offset of the record at `pos`. */
  method SetNext(buffer: array<Byte>, pos: nat, ghost before: seq<Byte>, ghost t: EaName, ghost x: nat, y: nat, ghost size: nat, ghost z: seq<Byte>)
    requires |t| < 256 && NAME_AT + |t| <= size && pos == |before| && buffer[..] == before + Record(t, x, size) + z
    modifies buffer
    ensures buffer[..] == before + Record(t, y, size) + z
  {
    hide Record, U32;
    NextSet(before, t, x, y, size, z);
    ghost var b := buffer[..];
    assert |b| == |before| + size + |z|;
    WriteU32(buffer, pos, y);
    assert b[..pos] == old(buffer[..pos]) && b[pos + 4..] == old(buffer[pos + 4..]);
  }

  /** Every record of the list starts at a multiple of four bytes. */
  lemma {:induction false} RecordsAligned(names: seq<EaName>)
    ensures |Packed(names)| % 4 == 0
  {
    if names != [] {
      var name := Truncated(names[|names| - 1]);
      PackedLast(names);
      hide *;
      RecordsAligned(names[..|names| - 1]);
      AlignedToFour(|name|);
      FoursAdd(|Packed(names[..|names| - 1])|, AlignedSize(|name|));
    }
  }

  lemma FoursAdd(a: nat, b: nat)
    requires a % 4 == 0 && b % 4 == 0
    ensures (a + b) % 4 == 0
  {
  }

  lemma PackedLast(names: seq<EaName>)
    requires names != []
    ensures |Packed(names)| == |Packed(names[..|names| - 1])| + AlignedSize(|Truncated(names[|names| - 1])|)
  {
    hide AlignedSize;
  }

  lemma PackedMore(names: seq<EaName>, name: EaName)
    ensures var t := Truncated(name); Packed(names + [name]) == Packed(names) + Record(t, AlignedSize(|t|), AlignedSize(|t|))
    ensures var t := Truncated(name); Closed(names + [name]) == Packed(names) + Record(t, 0, AlignedSize(|t|))
    ensures LastAt(names + [name]) == Some(|Packed(names)|)
  {
    assert (names + [name])[..|names|] == names;
  }

  /** The last record leads nowhere, also if entries that are no Windows EAs
      come after it. */
  method CloseList(buffer: array<Byte>, pos: nat, last: Option<nat>, ghost names: seq<EaName>)
    requires names != [] && Holds(buffer, names, pos) && last == LastAt(names)
    modifies buffer
    ensures Finished(buffer, names)
  {
    hide Packed, Record, Zeros, AlignedSize, Closed, LastAt, Truncated;
    ghost var n := |names| - 1;
    ghost var front, name := names[..n], names[n];
    ghost var t := Truncated(name);
    assert names == front + [name];
    PackedMore(front, name);
    SetNext(buffer, last.value, Packed(front), t, AlignedSize(|t|), 0, AlignedSize(|t|), Zeros(buffer.Length - pos));
  }

  /** populate_ea_list: the buffer, zeroed and as large as CalculateLength says,
      holds one record for each Windows EA, in order, each leading to the next
      and the last to nothing, whatever entries come after it. */
  method Populate(entries: seq<DirEntry>, total: nat, buffer: array<Byte>)
    requires WellFormed(entries, total) && WinEas(entries) != []
    requires TotalSize(WinEas(entries)) <= buffer.Length && buffer[..] == Zeros(buffer.Length)
    modifies buffer
    ensures Finished(buffer, WinEas(entries))
  {
    var i, pos := 0, 0;
    var last: Option<nat> := None;
    ghost var names: seq<EaName> := WinEas(entries[..0]);
    assert entries[..0] == [] && names == [] && [] + Zeros(buffer.Length) == Zeros(buffer.Length);
    NothingPacked();
    assert Holds(buffer, [], 0);
    hide *;
    LastBeforeEnd(entries, total);
    while true
      invariant i < |entries| && names == WinEas(entries[..i]) && Holds(buffer, names, pos) && last == LastAt(names)
      decreases |entries| - i
    {
      var entry := entries[i];
      OneMore(entries, i);
      var isWinEa := IsWinEa(entry.name);
      if isWinEa {
        PrefixThere(entry.name);
        Room(entries, i, buffer.Length);
        HoldsAt(buffer, names, pos);
        var name := entry.name[PREFIX_LEN..];
        last := Some(pos);
        pos := AppendRecord(buffer, pos, names, name, entry.next == 0);
        names := names + [name];
      }
      if entry.next == 0 {
        assert entries[..i + 1] == entries;
        if !isWinEa {
          CloseList(buffer, pos, last, names);
        }
        return;
      }
      i := i + 1;
    }
  }

  /** The record of a Windows EA: the offset to the next one follows if there is
      another entry. */
  method AppendRecord(buffer: array<Byte>, pos: nat, ghost names: seq<EaName>, name: EaName, end: bool) returns (next: nat)
    requires Holds(buffer, names, pos) && pos + AlignedSize(|Truncated(name)|) <= buffer.Length
    modifies buffer
    ensures !end ==> Holds(buffer, names + [name], next)
    ensures end ==> Finished(buffer, names + [name])
    ensures LastAt(names + [name]) == Some(pos)
  {
    PackedMore(names, name);
    AddRecord(buffer, pos, names, name);
    hide Packed, Record, Zeros, Closed, U32;
    var t := Truncated(name);
    var size := AlignedSize(|t|);
    if end {
      SetNext(buffer, pos, Packed(names), t, 0, 0, size, Zeros(buffer.Length - pos - size));
      next := pos;
    } else {
      SetNext(buffer, pos, Packed(names), t, 0, size, size, Zeros(buffer.Length - pos - size));
      next := pos + size;
    }
  }

  lemma HoldsAt(buffer: array<Byte>, names: seq<EaName>, pos: nat)
    requires Holds(buffer, names, pos)
    ensures pos == |Packed(names)|
  {
  }

  lemma LastBeforeEnd(entries: seq<DirEntry>, total: nat)
    requires WellFormed(entries, total)
    ensures entries != [] && forall i :: 0 <= i < |entries| ==> (entries[i].next == 0 <==> i == |entries| - 1)
  {
  }

  lemma NothingPacked()
    ensures Packed([]) == [] && LastAt([]) == None
  {
  }

  lemma PrefixThere(name: EaName)
    requires IsWinEa(name)
    ensures |name| > PREFIX_LEN
  {
  }

  // Reading the list

  /** What a reader finds that starts at `pos` and follows NextEntryOffset. */
  function Follow(b: seq<Byte>, pos: nat): Option<seq<EaName>>
    decreases |b| - pos
  {
    if pos + NAME_AT > |b| || pos + NAME_AT + b[pos + 4] > |b| then None
    else
      var next, name := FromU32(b[pos..pos + 4]), b[pos + NAME_AT..pos + NAME_AT + b[pos + 4]];
      if next == 0 then Some([name])
      else
        match Follow(b, pos + next)
        case None => None
        case Some(more) => Some([name] + more)
  }

  lemma RecordParts(t: EaName, next: nat, size: nat)
    requires |t| < 256 && NAME_AT + |t| <= size
    ensures var r := Record(t, next, size); r[..4] == U32(next) && r[4] == |t| && r[NAME_AT..NAME_AT + |t|] == t
  {
    hide U32, Zeros;
  }

  lemma FollowOne(b: seq<Byte>, pos: nat, t: EaName, next: nat, size: nat)
    requires |t| < 256 && NAME_AT + |t| <= size && next < 0x1_0000_0000
    requires pos + size <= |b| && b[pos..pos + size] == Record(t, next, size)
    ensures Follow(b, pos) == if next == 0 then Some([t]) else (match Follow(b, pos + next) case None => None case Some(more) => Some([t] + more))
  {
    RecordParts(t, next, size);
    hide Record, U32, FromU32;
    U32RoundTrip(next);
    var r := b[pos..pos + size];
    assert b[pos..pos + 4] == r[..4];
    assert b[pos + 4] == r[4];
    assert b[pos + NAME_AT..pos + NAME_AT + |t|] == r[NAME_AT..NAME_AT + |t|];
  }

  function AllTruncated(names: seq<EaName>): (ts: seq<EaName>)
    ensures |ts| == |names|
  {
    seq(|names|, i requires 0 <= i < |names| => Truncated(names[i]))
  }

  lemma {:induction false} PackedPrefix(names: seq<EaName>, k: nat)
    requires k <= |names|
    ensures Packed(names[..k]) <= Packed(names)
    decreases |names|
  {
    if k == |names| {
      assert names[..k] == names;
    } else {
      var front := names[..|names| - 1];
      PackedPrefix(front, k);
      assert front[..k] == names[..k];
      assert names == front + [names[|names| - 1]];
      PackedMore(front, names[|names| - 1]);
    }
  }

  /** Where the record of name `k` is, and what it leads to. */
  lemma {:induction false} RecordAt(names: seq<EaName>, k: nat, z: seq<Byte>)
    requires k < |names|
    ensures var t, pos := Truncated(names[k]), |Packed(names[..k])|;
      var size := AlignedSize(|t|);
      var next := if k == |names| - 1 then 0 else size;
      && pos + size <= |Closed(names) + z| && (Closed(names) + z)[pos..pos + size] == Record(t, next, size)
      && (k < |names| - 1 ==> |Packed(names[..k + 1])| == pos + size)
  {
    hide Packed, Closed, Record, AlignedSize, Truncated;
    var t, pos := Truncated(names[k]), |Packed(names[..k])|;
    var n := |names| - 1;
    var b := Closed(names) + z;
    assert names == names[..n] + [names[n]];
    PackedMore(names[..n], names[n]);
    if k < n {
      assert names[..k + 1] == names[..k] + [names[k]];
      PackedMore(names[..k], names[k]);
      PackedPrefix(names[..n], k + 1);
      assert names[..n][..k + 1] == names[..k + 1];
      Inside(Packed(names[..k]), Record(t, AlignedSize(|t|), AlignedSize(|t|)), b);
    } else {
      Inside(Packed(names[..k]), Record(t, 0, AlignedSize(|t|)), b);
    }
  }

  lemma Inside(p: seq<Byte>, r: seq<Byte>, b: seq<Byte>)
    requires p + r <= b
    ensures |p| + |r| <= |b| && b[|p|..|p| + |r|] == r
  {
  }

  lemma {:induction false} FollowFrom(names: seq<EaName>, k: nat, z: seq<Byte>)
    requires k < |names|
    ensures Follow(Closed(names) + z, |Packed(names[..k])|) == Some(AllTruncated(names)[k..])
    decreases |names| - k
  {
    hide Follow, Closed, Packed, AlignedSize, Record, Truncated, AllTruncated;
    var t := Truncated(names[k]);
    var b, pos, size := Closed(names) + z, |Packed(names[..k])|, AlignedSize(|t|);
    RecordAt(names, k, z);
    SmallSize(|t|);
    FollowOne(b, pos, t, if k == |names| - 1 then 0 else size, size);
    TruncatedFrom(names, k);
    if k < |names| - 1 {
      FollowFrom(names, k + 1, z);
    }
  }

  lemma TruncatedFrom(names: seq<EaName>, k: nat)
    requires k < |names|
    ensures |AllTruncated(names)| == |names|
    ensures AllTruncated(names)[k..] == [Truncated(names[k])] + AllTruncated(names)[k + 1..]
    ensures k == |names| - 1 ==> AllTruncated(names)[k..] == [Truncated(names[k])]
  {
  }

  lemma SmallSize(len: nat)
    requires len < 256
    ensures 0 < AlignedSize(len) < 0x1_0000_0000
  {
  }

  /** A name that is too long is cut to its length modulo 256. */
  lemma TruncatedLength(name: EaName)
    ensures Truncated(name) <= name && |Truncated(name)| == |name| % 256
  {
  }

  lemma TruncatedIff(names: seq<EaName>)
    ensures AllTruncated(names) == names <==> forall i :: 0 <= i < |names| ==> |names[i]| <= 255
  {
    if forall i :: 0 <= i < |names| ==> |names[i]| <= 255 {
      forall i | 0 <= i < |names| ensures AllTruncated(names)[i] == names[i] {
        assert names[i][..|names[i]|] == names[i];
      }
    } else {
      var i :| 0 <= i < |names| && |names[i]| > 255;
      assert |AllTruncated(names)[i]| < 256;
    }
  }

  /** Following the list visits the Windows EAs of the directory in order and
      with the prefix stripped, exactly if their stripped names fit in the one
      byte of EaNameLength. */
  lemma {:induction false} FollowVisitsAll(entries: seq<DirEntry>, z: seq<Byte>)
    requires WinEas(entries) != []
    ensures Follow(Closed(WinEas(entries)) + z, 0) == Some(AllTruncated(WinEas(entries)))
    ensures Follow(Closed(WinEas(entries)) + z, 0) == Some(WinEas(entries)) <==>
            forall i :: 0 <= i < |WinEas(entries)| ==> |WinEas(entries)[i]| <= 255
  {
    var names := WinEas(entries);
    assert names[..0] == [] && Packed([]) == [];
    hide Follow, Closed, WinEas, Packed, AllTruncated;
    FollowFrom(names, 0, z);
    assert AllTruncated(names)[0..] == AllTruncated(names);
    TruncatedIff(names);
  }

  /** get_ea_list: the list of a directory that has been read. */
  method GetEaList(entries: seq<DirEntry>, total: nat) returns (list: Option<seq<Byte>>)
    requires WellFormed(entries, total)
    ensures list.None? <==> WinEas(entries) == []
    ensures list.Some? ==> Follow(list.value, 0) == Some(AllTruncated(WinEas(entries)))
    ensures list.Some? && (forall i :: 0 <= i < |WinEas(entries)| ==> |WinEas(entries)[i]| <= 255) ==>
        Follow(list.value, 0) == Some(WinEas(entries))
  {
    var size := CalculateLength(entries, total);
    SizeZero(WinEas(entries));
    if size == 0 {
      return None;
    }
    hide *;
    var buffer := new Byte[size](_ => 0);
    ZeroArray(buffer);
    Populate(entries, total, buffer);
    FinishedFollows(entries, buffer);
    list := Some(buffer[..]);
  }

  lemma SizeZero(names: seq<EaName>)
    ensures TotalSize(names) == 0 <==> names == []
  {
  }

  lemma ZeroArray(buffer: array<Byte>)
    requires forall i :: 0 <= i < buffer.Length ==> buffer[i] == 0
    ensures buffer[..] == Zeros(buffer.Length)
  {
  }

  lemma {:induction false} FinishedFollows(entries: seq<DirEntry>, buffer: array<Byte>)
    requires Finished(buffer, WinEas(entries))
    ensures Follow(buffer[..], 0) == Some(AllTruncated(WinEas(entries)))
    ensures (forall i :: 0 <= i < |WinEas(entries)| ==> |WinEas(entries)[i]| <= 255) ==> Follow(buffer[..], 0) == Some(WinEas(entries))
  {
    hide Follow, Closed, WinEas, Zeros;
    FollowVisitsAll(entries, Zeros(buffer.Length - |Closed(WinEas(entries))|));
  }
}
