/** Sparse files over NFSv4.2, daemon/fsctl.c: listing the data sections of a
    file with SEEK, and copying a range with DEALLOCATE and COPY or CLONE. */
module SparseFiles {
  import opened Lists

  datatype Cell = Hole | Data(byte: Byte)

  /** One FILE_ALLOCATED_RANGE_BUFFER. */
  datatype Record = Record(offset: nat, length: nat)

  function Read(src: seq<Cell>, i: nat): Byte {
    if i < |src| && src[i].Data? then src[i].byte else 0
  }

  function ReadByte(dst: seq<Byte>, i: nat): Byte {
    if i < |dst| then dst[i] else 0
  }

  predicate IsData(src: seq<Cell>, i: nat) {
    i < |src| && src[i].Data?
  }

  // What SEEK finds

  function NextData(src: seq<Cell>, from: nat): (d: Option<nat>)
    ensures d.None? ==> forall i: nat :: from <= i ==> !IsData(src, i)
    ensures d.Some? ==> from <= d.value < |src| && src[d.value].Data? && forall i: nat :: from <= i < d.value ==> !IsData(src, i)
    decreases |src| - from
  {
    if from >= |src| then None
    else if src[from].Data? then Some(from)
    else NextData(src, from + 1)
  }

  function NextHole(src: seq<Cell>, from: nat): (h: nat)
    requires from <= |src|
    ensures from <= h <= |src| && (h < |src| ==> src[h].Hole?) && forall i :: from <= i < h ==> src[i].Data?
    decreases |src| - from
  {
    if from == |src| || src[from].Hole? then from else NextHole(src, from + 1)
  }

  /** The data sections from `from` on. */
  function Sections(src: seq<Cell>, from: nat): seq<Record>
    decreases |src| - from
  {
    var d := NextData(src, from);
    if d.None? then []
    else
      var h := NextHole(src, d.value);
      [Record(d.value, h - d.value)] + Sections(src, h)
  }

  /** The sections up to and including the first that starts past `end`. */
  function UpTo(sections: seq<Record>, end: nat): seq<Record> {
    if sections == [] then []
    else if sections[0].offset > end then [sections[0]]
    else [sections[0]] + UpTo(sections[1..], end)
  }

  ghost predicate InSection(r: Record, i: nat) {
    r.offset <= i < r.offset + r.length
  }

  /** A maximal run of data in the file from `from` on. */
  ghost predicate MaximalRun(src: seq<Cell>, from: nat, r: Record) {
    && r.length > 0 && from <= r.offset && r.offset + r.length <= |src|
    && (forall i :: r.offset <= i < r.offset + r.length ==> src[i].Data?)
    && !IsData(src, r.offset + r.length)
    && (r.offset == from || !IsData(src, r.offset - 1))
  }

  /** The sections are in strictly increasing order with a gap between any two. */
  ghost predicate Separated(sections: seq<Record>) {
    forall i, j :: 0 <= i < j < |sections| ==> sections[i].offset + sections[i].length < sections[j].offset
  }

  /** Every section is a maximal run of data. */
  lemma {:induction false} SectionsMaximal(src: seq<Cell>, from: nat, k: nat)
    requires k < |Sections(src, from)|
    ensures MaximalRun(src, from, Sections(src, from)[k])
    decreases k
  {
    var d := NextData(src, from).value;
    var h := NextHole(src, d);
    if k > 0 {
      SectionsMaximal(src, h, k - 1);
      assert Sections(src, from)[k] == Sections(src, h)[k - 1];
    }
  }

  lemma {:induction false} SectionsSeparated(src: seq<Cell>, from: nat)
    ensures Separated(Sections(src, from))
    decreases |src| - from
  {
    var d := NextData(src, from);
    if d.Some? {
      var h := NextHole(src, d.value);
      SectionsSeparated(src, h);
      forall j | 0 <= j < |Sections(src, h)| ensures h < Sections(src, h)[j].offset {
        SectionsMaximal(src, h, j);
      }
    }
  }

  /** Every data byte from `from` on is in a section. */
  lemma {:induction false} SectionsComplete(src: seq<Cell>, from: nat, i: nat) returns (k: nat)
    requires from <= i && IsData(src, i)
    ensures k < |Sections(src, from)| && InSection(Sections(src, from)[k], i)
    decreases |src| - from
  {
    var d := NextData(src, from).value;
    var h := NextHole(src, d);
    if i < h {
      k := 0;
    } else {
      var j := SectionsComplete(src, h, i);
      k := j + 1;
    }
  }

  /** UpTo keeps exactly the sections that start at or before `end`, and after
      them at most one more. */
  lemma {:induction false} UpToExact(sections: seq<Record>, end: nat, k: nat)
    requires Separated(sections) && k < |sections|
    ensures UpTo(sections, end) <= sections
    ensures sections[k].offset <= end ==> k < |UpTo(sections, end)|
    ensures k + 1 < |UpTo(sections, end)| ==> sections[k].offset <= end
    ensures sections[k].offset <= end && k + 1 < |sections| ==> k + 1 < |UpTo(sections, end)|
  {
    var rest := sections[1..];
    if sections[0].offset <= end {
      if k > 0 {
        UpToExact(rest, end, k - 1);
      } else if rest != [] {
        UpToExact(rest, end, 0);
      }
    }
  }

  // The server

  datatype SeekResult = Found(offset: nat, eof: bool) | Nxio | SeekFailed

  /** The server as seen by one request: the source file does not change. `fails`
      says which calls fail, and `short` how much a COPY writes. */
  class Server {
    const src: seq<Cell>
    const fails: nat -> bool
    const short: nat -> nat
    var dst: seq<Byte>
    var calls: nat

    constructor (src: seq<Cell>, dst: seq<Byte>, fails: nat -> bool, short: nat -> nat)
      ensures this.src == src && this.dst == dst && this.fails == fails && this.short == short && calls == 0
    {
      this.src, this.dst, this.fails, this.short, this.calls := src, dst, fails, short, 0;
    }

    method Call() returns (ok: bool)
      modifies this`calls
      ensures ok == !fails(old(calls)) && calls == old(calls) + 1
    {
      ok := !fails(calls);
      calls := calls + 1;
    }

    /** SEEK with NFS4_CONTENT_DATA */
    method SeekData(from: nat) returns (r: SeekResult)
      modifies this`calls
      ensures r.SeekFailed? || r == (match NextData(src, from) case Some(d) => Found(d, false) case None => Nxio)
      ensures (r.SeekFailed? <==> fails(old(calls))) && calls == old(calls) + 1
    {
      var ok := Call();
      var d := NextData(src, from);
      r := if !ok then SeekFailed else if d.Some? then Found(d.value, false) else Nxio;
    }

    /** SEEK with NFS4_CONTENT_HOLE: the end of the file counts as a hole. */
    method SeekHole(from: nat) returns (r: SeekResult)
      requires from <= |src|
      modifies this`calls
      ensures r.SeekFailed? || r == Found(NextHole(src, from), NextHole(src, from) == |src|)
      ensures (r.SeekFailed? <==> fails(old(calls))) && calls == old(calls) + 1
    {
      var ok := Call();
      var h := NextHole(src, from);
      r := if ok then Found(h, h == |src|) else SeekFailed;
    }
  }

  // Listing the data sections

  datatype QueryStatus = QueryOk | MoreData | QueryError

  lemma NextWanted(src: seq<Cell>, next: nat, end: nat, wanted: seq<Record>, n: nat)
    requires n <= |wanted| && wanted[n..] == UpTo(Sections(src, next), end)
    ensures NextData(src, next).None? ==> n == |wanted|
    ensures NextData(src, next).Some? ==>
        var d := NextData(src, next).value;
        var h := NextHole(src, d);
        && n < |wanted| && wanted[n] == Record(d, h - d)
        && wanted[n + 1..] == (if d > end then [] else UpTo(Sections(src, h), end))
        && (h == |src| ==> n + 1 == |wanted|)
  {
    var rest := wanted[n..];
    if NextData(src, next).Some? {
      var h := NextHole(src, NextData(src, next).value);
      var sections := Sections(src, next);
      assert sections[1..] == Sections(src, h);
      assert wanted[n] == rest[0];
      assert wanted[n + 1..] == rest[1..];
    }
  }

  lemma Extend<T>(out: seq<T>, wanted: seq<T>, n: nat)
    requires n < |out| && n < |wanted| && out[..n] == wanted[..n]
    ensures out[n := wanted[n]][..n + 1] == wanted[..n + 1]
  {
  }

  /** query_sparsefile_datasections: the sections up to the first that starts
      past `end`, or as many of them as fit, which is then reported. */
  method QuerySections(server: Server, start: nat, end: nat, out: array<Record>) returns (status: QueryStatus, n: nat)
    modifies out, server`calls
    ensures var wanted := UpTo(Sections(server.src, start), end);
      && n <= out.Length && n <= |wanted| && out[..n] == wanted[..n]
      && (status.QueryOk? ==> n == |wanted|)
      && (status.MoreData? ==> n == out.Length < |wanted|)
      && (status.QueryError? ==> exists i :: old(server.calls) <= i < server.calls && server.fails(i))
  {
    hide UpTo, Sections, NextHole, NextData;
    var src := server.src;
    ghost var wanted := UpTo(Sections(src, start), end);
    var next := start;
    n := 0;
    while true
      invariant n <= out.Length && n <= |wanted|
      invariant out[..n] == wanted[..n]
      invariant wanted[n..] == UpTo(Sections(src, next), end)
      invariant server.calls >= old(server.calls)
      decreases |src| - next
    {
      NextWanted(src, next, end, wanted, n);
      var data := server.SeekData(next);
      if data.Nxio? {
        return QueryOk, n;
      }
      if data.SeekFailed? {
        return QueryError, n;
      }
      var hole := server.SeekHole(data.offset);
      if hole.SeekFailed? {
        return QueryError, n;
      }
      next := hole.offset;
      if n == out.Length {
        return MoreData, n;
      }
      Extend(out[..], wanted, n);
      out[n] := Record(data.offset, hole.offset - data.offset);
      n := n + 1;
      if data.offset > end || data.eof || hole.eof {
        return QueryOk, n;
      }
    }
  }

  // Copying a range

  function Bytes(src: seq<Cell>, from: nat, n: nat): (b: seq<Byte>)
    ensures |b| == n
  {
    seq<Byte>(n, i requires 0 <= i < n => Read(src, from + i))
  }

  /** The file after `bytes` have been written at `at`; it grows if need be. */
  function Overlay(dst: seq<Byte>, at: nat, bytes: seq<Byte>): (r: seq<Byte>)
    ensures |r| == if at + |bytes| > |dst| then at + |bytes| else |dst|
  {
    seq(if at + |bytes| > |dst| then at + |bytes| else |dst|,
        i requires i >= 0 => if at <= i < at + |bytes| then bytes[i - at] else ReadByte(dst, i))
  }

  /** DEALLOCATE: a range inside the file reads as zero. */
  function Punched(dst: seq<Byte>, at: nat, n: nat): (r: seq<Byte>)
    ensures |r| == |dst|
  {
    seq(|dst|, i requires 0 <= i < |dst| => if at <= i < at + n then 0 else dst[i])
  }

  /** Two short writes make one long one. */
  lemma OverlayTwice(dst: seq<Byte>, at: nat, a: seq<Byte>, b: seq<Byte>)
    ensures Overlay(Overlay(dst, at, a), at + |a|, b) == Overlay(dst, at, a + b)
  {
    var x, y := Overlay(Overlay(dst, at, a), at + |a|, b), Overlay(dst, at, a + b);
    forall i: nat | i < |x| ensures x[i] == y[i] {
    }
  }

  lemma BytesSplit(src: seq<Cell>, from: nat, m: nat, n: nat)
    requires m <= n
    ensures Bytes(src, from, n) == Bytes(src, from, m) + Bytes(src, from + m, n - m)
  {
  }

  /** CLONE of one section */
  method Clone(server: Server, from: nat, at: nat, n: nat) returns (ok: bool)
    modifies server
    ensures ok ==> server.dst == Overlay(old(server.dst), at, Bytes(server.src, from, n))
    ensures !ok ==> server.dst == old(server.dst) && server.fails(old(server.calls))
    ensures server.calls > old(server.calls)
  {
    ok := server.Call();
    if ok {
      server.dst := Overlay(server.dst, at, Bytes(server.src, from, n));
    }
  }

  /** COPY of one section, which the server may do in part only */
  method CopySome(server: Server, from: nat, at: nat, n: nat) returns (ok: bool, written: nat)
    requires n > 0
    modifies server
    ensures ok ==> 0 < written <= n && server.dst == Overlay(old(server.dst), at, Bytes(server.src, from, written))
    ensures !ok ==> server.dst == old(server.dst) && written == 0 && server.fails(old(server.calls))
    ensures server.calls > old(server.calls)
  {
    ok := server.Call();
    written := 0;
    if ok {
      var most := server.short(server.calls);
      written := if 0 < most < n then most else n;
      server.dst := Overlay(server.dst, at, Bytes(server.src, from, written));
    }
  }

  /** The first `n` bytes have been written, if any. */
  ghost predicate Partly(was: seq<Byte>, now: seq<Byte>, src: seq<Cell>, from: nat, at: nat, n: nat) {
    now == if n == 0 then was else Overlay(was, at, Bytes(src, from, n))
  }

  /** The COPY loop: whatever the server writes at a time, it ends with the
      same file as one CLONE of the section. */
  method CopyAll(server: Server, from: nat, at: nat, n: nat) returns (ok: bool, ghost copied: nat)
    requires n > 0
    modifies server
    ensures copied <= n && (ok <==> copied == n)
    ensures Partly(old(server.dst), server.dst, server.src, from, at, copied)
    ensures !ok ==> exists i :: old(server.calls) <= i < server.calls && server.fails(i)
    ensures server.calls > old(server.calls)
  {
    hide Overlay, Bytes;
    var left, done := n, 0;
    ok, copied := true, 0;
    ghost var before := server.dst;
    while true
      invariant ok && left > 0 && done + left == n && copied == done && server.calls >= old(server.calls)
      invariant Partly(before, server.dst, server.src, from, at, done)
      decreases left
    {
      var written;
      ok, written := CopySome(server, from + done, at + done, left);
      if !ok {
        return;
      }
      OverlayTwice(before, at, Bytes(server.src, from, done), Bytes(server.src, from + done, written));
      BytesSplit(server.src, from, done, done + written);
      left := left - written;
      done := done + written;
      copied := done;
      if left == 0 {
        return;
      }
    }
  }

  const UINT64_RANGE: nat := 0x1_0000_0000_0000_0000

  /** The request: `count` bytes of the source at `from` go to `at`. */
  datatype Job = Job(from: nat, at: nat, count: nat)

  /** What byte `i` of the destination reads as once the source data below
      `upto` has been copied. */
  function Expected(src: seq<Cell>, was: seq<Byte>, job: Job, upto: nat, i: nat): Byte {
    if i >= job.at && job.from + (i - job.at) < upto && IsData(src, job.from + (i - job.at)) then Read(src, job.from + (i - job.at))
    else if job.at <= i < job.at + job.count then 0
    else ReadByte(was, i)
  }

  ghost predicate CopiedUpTo(src: seq<Cell>, was: seq<Byte>, now: seq<Byte>, job: Job, upto: nat) {
    forall i: nat :: ReadByte(now, i) == Expected(src, was, job, upto, i)
  }

  /** Where the last of the listed sections ends. */
  function EndOf(sections: seq<Record>, from: nat): nat {
    if sections == [] then from else sections[|sections| - 1].offset + sections[|sections| - 1].length
  }

  /** The source is copied up to here: to the end of the first section that
      starts past `end`, or of the last section there is. */
  function CopyTo(src: seq<Cell>, from: nat, end: nat): nat {
    EndOf(UpTo(Sections(src, from), end), from)
  }

  function CopyEnd(src: seq<Cell>, job: Job): nat {
    CopyTo(src, job.from, job.from + job.count)
  }

  /** The end of the range as 64-bit arithmetic has it. */
  function RangeEnd(job: Job): nat {
    (job.from + job.count) % UINT64_RANGE
  }

  function SizeAfter(was: nat, job: Job, upto: nat): nat {
    if upto > job.from && job.at + (upto - job.from) > was then job.at + (upto - job.from) else was
  }

  lemma PunchedIsStart(src: seq<Cell>, was: seq<Byte>, job: Job)
    ensures CopiedUpTo(src, was, Punched(was, job.at, job.count), job, job.from)
  {
  }

  /** Copying the section from `d` to `h` takes the state from `next` to `h`. */
  lemma SectionCopied(src: seq<Cell>, was: seq<Byte>, now: seq<Byte>, job: Job, next: nat, d: nat, h: nat)
    requires CopiedUpTo(src, was, now, job, next)
    requires job.from <= next <= d < h <= |src|
    requires forall i: nat :: next <= i < d ==> !IsData(src, i)
    requires forall i: nat :: d <= i < h ==> IsData(src, i)
    ensures CopiedUpTo(src, was, Overlay(now, job.at + (d - job.from), Bytes(src, d, h - d)), job, h)
  {
    var at := job.at + (d - job.from);
    var after := Overlay(now, at, Bytes(src, d, h - d));
    forall i: nat ensures ReadByte(after, i) == Expected(src, was, job, h, i) {
      assert ReadByte(now, i) == Expected(src, was, job, next, i);
      if at <= i < at + (h - d) {
        assert job.from + (i - job.at) == d + (i - at);
        assert IsData(src, d + (i - at));
      } else if i >= job.at {
        var p := job.from + (i - job.at);
        assert next <= p < d ==> !IsData(src, p);
      }
    }
  }

  datatype CopyStatus = CopyOk | DeallocateError | SeekError | CopyError

  ghost predicate Failed(server: Server, before: nat)
    reads server
  {
    exists i :: before <= i < server.calls && server.fails(i)
  }

  /** The end of what has been copied does not fall, and the section that is
      copied next ends within what is copied in all. */
  lemma EndsInOrder(src: seq<Cell>, from: nat, end: nat, wanted: seq<Record>, n: nat)
    requires wanted == UpTo(Sections(src, from), end) && n <= |wanted|
    ensures EndOf(wanted[..n], from) <= EndOf(wanted, from) == CopyTo(src, from, end)
    ensures n < |wanted| ==> wanted[n].offset + wanted[n].length <= EndOf(wanted, from)
  {
    hide Sections, UpTo, Separated;
    UpToPrefix(Sections(src, from), end);
    SectionsSeparated(src, from);
    if n < |wanted| {
      PrefixEnd(Sections(src, from), wanted, n, from);
    }
    if n > 0 {
      PrefixEnd(Sections(src, from), wanted, n - 1, from);
    } else if wanted != [] {
      SectionsMaximal(src, from, 0);
      PrefixEnd(Sections(src, from), wanted, 0, from);
    }
  }

  /** One round of the loop: the next section, whole. */
  method CopySection(server: Server, job: Job, d: nat, h: nat, clone: bool) returns (ok: bool, ghost copied: nat)
    requires job.from <= d < h
    modifies server
    ensures copied <= h - d && (ok <==> copied == h - d)
    ensures Partly(old(server.dst), server.dst, server.src, d, job.at + (d - job.from), copied)
    ensures !ok ==> Failed(server, old(server.calls))
    ensures server.calls > old(server.calls)
  {
    if clone {
      ok := Clone(server, d, job.at + (d - job.from), h - d);
      copied := if ok then h - d else 0;
    } else {
      ok, copied := CopyAll(server, d, job.at + (d - job.from), h - d);
    }
  }

  /** The source data below `upto` has been copied, and the file is as long as that makes it. */
  ghost predicate Progress(src: seq<Cell>, was: seq<Byte>, now: seq<Byte>, job: Job, upto: nat) {
    CopiedUpTo(src, was, now, job, upto) && |now| == SizeAfter(|was|, job, upto)
  }

  lemma PunchedProgress(src: seq<Cell>, was: seq<Byte>, job: Job)
    ensures Progress(src, was, Punched(was, job.at, job.count), job, job.from)
  {
    hide CopiedUpTo;
    PunchedIsStart(src, was, job);
  }

  /** Part of the next section, from `d` on, has been copied. */
  lemma SectionProgress(src: seq<Cell>, was: seq<Byte>, now: seq<Byte>, after: seq<Byte>, job: Job, next: nat, d: nat, n: nat)
    requires Progress(src, was, now, job, next) && NextData(src, next) == Some(d) && job.from <= next
    requires n <= NextHole(src, d) - d && Partly(now, after, src, d, job.at + (d - job.from), n)
    ensures Progress(src, was, after, job, if n == 0 then next else d + n)
  {
    hide CopiedUpTo, Overlay, Bytes;
    if n > 0 {
      hide NextData, NextHole;
      SectionCopied(src, was, now, job, next, d, d + n);
      OverlaySize(now, job.at + (d - job.from), Bytes(src, d, n));
    }
  }

  lemma OverlaySize(dst: seq<Byte>, at: nat, bytes: seq<Byte>)
    ensures |Overlay(dst, at, bytes)| == if at + |bytes| > |dst| then at + |bytes| else |dst|
  {
  }

  /** duplicate_sparsefile. The check against the end of the range comes after
      the section has been copied, and sections are not cut off at the end. What
      a failed copy leaves is the beginning of the copy. */
  method Duplicate(server: Server, job: Job, clone: bool) returns (status: CopyStatus, ghost upto: nat)
    modifies server
    ensures status.DeallocateError? ==> server.dst == old(server.dst)
    ensures !status.DeallocateError? ==>
        && Progress(server.src, old(server.dst), server.dst, job, upto)
        && job.from <= upto <= CopyTo(server.src, job.from, RangeEnd(job))
    ensures status.CopyOk? ==> upto == CopyTo(server.src, job.from, RangeEnd(job))
    ensures !status.CopyOk? ==> Failed(server, old(server.calls))
  {
    hide Progress, Partly, NextData, NextHole, Punched, UpTo, Sections, EndOf, Failed;
    ghost var was := server.dst;
    upto := job.from;
    var ok := server.Call();
    if !ok {
      FailedNow(server, old(server.calls));
      return DeallocateError, upto;
    }
    server.dst := Punched(server.dst, job.at, job.count);
    PunchedProgress(server.src, was, job);
    var next := job.from;
    var end := RangeEnd(job);
    ghost var wanted, n := UpTo(Sections(server.src, job.from), end), 0;
    NothingCopied(wanted, job.from);
    while true
      invariant server.calls >= old(server.calls)
      invariant n <= |wanted| && wanted[n..] == UpTo(Sections(server.src, next), end)
      invariant job.from <= next == upto == EndOf(wanted[..n], job.from)
      invariant Progress(server.src, was, server.dst, job, next)
      decreases |server.src| - next
    {
      NextWanted(server.src, next, end, wanted, n);
      EndsInOrder(server.src, job.from, end, wanted, n);
      var data := server.SeekData(next);
      if data.Nxio? {
        assert wanted[..n] == wanted;
        return CopyOk, upto;
      }
      if data.SeekFailed? {
        FailedNow(server, old(server.calls));
        return SeekError, upto;
      }
      var hole := server.SeekHole(data.offset);
      if hole.SeekFailed? {
        FailedNow(server, old(server.calls));
        return SeekError, upto;
      }
      ghost var before, copied, called := server.dst, 0, server.calls;
      ok, copied := CopySection(server, job, data.offset, hole.offset, clone);
      SectionProgress(server.src, was, before, server.dst, job, next, data.offset, copied);
      upto := if copied == 0 then next else data.offset + copied;
      if !ok {
        FailedSince(server, old(server.calls), called);
        return CopyError, upto;
      }
      next := hole.offset;
      EndsNext(wanted, n, job.from);
      n := n + 1;
      if data.offset > end || data.eof || hole.eof {
        assert wanted[..n] == wanted;
        return CopyOk, upto;
      }
    }
  }

  lemma FailedNow(server: Server, before: nat)
    requires before < server.calls && server.fails(server.calls - 1)
    ensures Failed(server, before)
  {
  }

  lemma FailedSince(server: Server, before: nat, later: nat)
    requires before <= later && Failed(server, later)
    ensures Failed(server, before)
  {
  }

  lemma NothingCopied(sections: seq<Record>, from: nat)
    ensures EndOf(sections[..0], from) == from
  {
  }

  lemma EndsNext(sections: seq<Record>, n: nat, from: nat)
    requires n < |sections|
    ensures EndOf(sections[..n + 1], from) == sections[n].offset + sections[n].length
  {
  }

  // What a successful copy means

  ghost predicate NoDataFrom(src: seq<Cell>, p: nat) {
    forall i: nat :: p <= i ==> !IsData(src, i)
  }

  /** The requested range reads like the source, holes as zeros. */
  ghost predicate RangeCopied(src: seq<Cell>, now: seq<Byte>, job: Job) {
    forall i: nat :: job.at <= i < job.at + job.count ==> ReadByte(now, i) == Read(src, job.from + (i - job.at))
  }

  ghost predicate OutsideKept(was: seq<Byte>, now: seq<Byte>, job: Job) {
    forall i: nat :: i < job.at || job.at + job.count <= i ==> ReadByte(now, i) == ReadByte(was, i)
  }

  lemma PrefixEnd(all: seq<Record>, some: seq<Record>, k: nat, from: nat)
    requires Separated(all) && some <= all && k < |some|
    ensures all[k].offset + all[k].length <= EndOf(some, from)
  {
    var last := |some| - 1;
    assert some[last] == all[last];
    if k < last {
      assert all[k].offset + all[k].length < all[last].offset;
    }
  }

  lemma {:induction false} UpToPrefix(sections: seq<Record>, end: nat)
    ensures UpTo(sections, end) <= sections
  {
    if sections != [] {
      UpToPrefix(sections[1..], end);
    }
  }

  lemma SectionInEnd(src: seq<Cell>, job: Job, k: nat)
    requires k < |UpTo(Sections(src, job.from), job.from + job.count)|
    ensures UpTo(Sections(src, job.from), job.from + job.count) <= Sections(src, job.from)
    ensures var r := Sections(src, job.from)[k]; r.offset + r.length <= CopyEnd(src, job)
  {
    hide Sections, UpTo, Separated, EndOf;
    var all := Sections(src, job.from);
    var some := UpTo(all, job.from + job.count);
    UpToPrefix(all, job.from + job.count);
    SectionsSeparated(src, job.from);
    PrefixEnd(all, some, k, job.from);
  }

  /** All data up to the end of the range is copied. */
  lemma EndCoversRange(src: seq<Cell>, job: Job, p: nat)
    requires job.from <= p <= job.from + job.count && IsData(src, p)
    ensures p < CopyEnd(src, job)
  {
    hide Sections, UpTo, Separated, CopyEnd;
    var k := SectionsComplete(src, job.from, p);
    SectionsSeparated(src, job.from);
    SectionsMaximal(src, job.from, k);
    assert Sections(src, job.from)[k].offset <= job.from + job.count;
    UpToExact(Sections(src, job.from), job.from + job.count, k);
    SectionInEnd(src, job, k);
  }

  /** If there is data past the range, some of it is copied too. */
  lemma EndOverrunsRange(src: seq<Cell>, job: Job, p: nat) returns (q: nat)
    requires job.from + job.count <= p && IsData(src, p)
    ensures job.from + job.count <= q < CopyEnd(src, job) && IsData(src, q)
  {
    var end := job.from + job.count;
    q := NextData(src, end).value;
    var all := Sections(src, job.from);
    var k := SectionsComplete(src, job.from, q);
    SectionsSeparated(src, job.from);
    hide Sections, UpTo, CopyEnd, NextData;
    if k > 0 {
      SectionsMaximal(src, job.from, k - 1);
      assert IsData(src, all[k - 1].offset);
      assert all[k - 1].offset + all[k - 1].length < all[k].offset;
      assert all[k - 1].offset <= end;
      UpToExact(all, end, k - 1);
    }
    SectionInEnd(src, job, k);
  }

  /** A successful copy makes the range read like the source. */
  lemma RangeIsCopied(src: seq<Cell>, was: seq<Byte>, now: seq<Byte>, job: Job)
    requires CopiedUpTo(src, was, now, job, CopyEnd(src, job))
    ensures RangeCopied(src, now, job)
  {
    hide CopyEnd;
    forall i: nat | job.at <= i < job.at + job.count ensures ReadByte(now, i) == Read(src, job.from + (i - job.at)) {
      assert ReadByte(now, i) == Expected(src, was, job, CopyEnd(src, job), i);
      if IsData(src, job.from + (i - job.at)) {
        EndCoversRange(src, job, job.from + (i - job.at));
      }
    }
  }

  lemma OutsideIsKept(src: seq<Cell>, was: seq<Byte>, now: seq<Byte>, job: Job)
    requires CopiedUpTo(src, was, now, job, CopyEnd(src, job)) && NoDataFrom(src, job.from + job.count)
    ensures OutsideKept(was, now, job)
  {
    hide CopyEnd;
    forall i: nat | i < job.at || job.at + job.count <= i ensures ReadByte(now, i) == ReadByte(was, i) {
      assert ReadByte(now, i) == Expected(src, was, job, CopyEnd(src, job), i);
    }
  }

  /** Two destinations, before and after, that show data past the range being copied. */
  lemma OutsideIsLost(src: seq<Cell>, job: Job, p: nat) returns (was: seq<Byte>, now: seq<Byte>)
    requires job.from + job.count <= p && IsData(src, p)
    ensures job.at + job.count <= |was| && CopiedUpTo(src, was, now, job, CopyEnd(src, job)) && !OutsideKept(was, now, job)
  {
    hide CopyEnd;
    var q := EndOverrunsRange(src, job, p);
    var i := job.at + (q - job.from);
    var other: Byte := (Read(src, q) + 1) % 256;
    was := seq<Byte>(i + 1, _ => other);
    now := Result(src, was, job, CopyEnd(src, job));
    ResultIsCopied(src, was, job, CopyEnd(src, job));
    assert ReadByte(was, i) == other;
    assert ReadByte(now, i) == Expected(src, was, job, CopyEnd(src, job), i);
  }

  ghost function Result(src: seq<Cell>, was: seq<Byte>, job: Job, upto: nat): seq<Byte> {
    seq<Byte>(|was| + job.at + job.count + |src|, i requires i >= 0 => Expected(src, was, job, upto, i))
  }

  lemma ResultIsCopied(src: seq<Cell>, was: seq<Byte>, job: Job, upto: nat)
    ensures CopiedUpTo(src, was, Result(src, was, job, upto), job, upto)
  {
    var now := Result(src, was, job, upto);
    forall i: nat ensures ReadByte(now, i) == Expected(src, was, job, upto, i) {
    }
  }

  /** Bytes outside the range survive, whatever they are, exactly if the source
      has no data past the range. */
  lemma OutsideKeptIff(src: seq<Cell>, job: Job)
    ensures (forall was: seq<Byte>, now: seq<Byte> ::
               CopiedUpTo(src, was, now, job, CopyEnd(src, job)) ==> OutsideKept(was, now, job))
            <==> NoDataFrom(src, job.from + job.count)
  {
    hide CopyEnd, CopiedUpTo, OutsideKept;
    if NoDataFrom(src, job.from + job.count) {
      forall was: seq<Byte>, now: seq<Byte> | CopiedUpTo(src, was, now, job, CopyEnd(src, job)) ensures OutsideKept(was, now, job) {
        OutsideIsKept(src, was, now, job);
      }
    } else {
      var p: nat :| job.from + job.count <= p && IsData(src, p);
      var was, now := OutsideIsLost(src, job, p);
    }
  }

  /** Without data past the range the file does not grow either. */
  lemma SizeIsKept(src: seq<Cell>, was: nat, job: Job)
    requires job.at + job.count <= was && NoDataFrom(src, job.from + job.count)
    ensures SizeAfter(was, job, CopyEnd(src, job)) == was
  {
    var some := UpTo(Sections(src, job.from), job.from + job.count);
    if some != [] {
      var k := |some| - 1;
      SectionInEnd(src, job, k);
      SectionsMaximal(src, job.from, k);
      var r := Sections(src, job.from)[k];
      assert IsData(src, r.offset + r.length - 1);
    }
  }

  // The request

  datatype HandleStatus = Handled | NotSupported | NotSameDevice | InvalidParameter | RpcError(status: CopyStatus)

  /** A LONGLONG, and one that is not negative. */
  type LongLong = x: int | -0x8000_0000_0000_0000 <= x < 0x8000_0000_0000_0000
  type Offset = x: nat | x < 0x8000_0000_0000_0000

  /** 64-bit signed arithmetic wraps. */
  function Wrapped(x: int): LongLong {
    (x + 0x8000_0000_0000_0000) % UINT64_RANGE - 0x8000_0000_0000_0000
  }

  /** The count, cut to what the code takes to fit in the destination. */
  function Fits(at: Offset, count: LongLong, size: nat): LongLong {
    if Wrapped(at + count) > Wrapped(size) then Wrapped(Wrapped(size) - at) else count
  }

  lemma WrappedSame(x: LongLong)
    ensures Wrapped(x) == x
  {
  }

  lemma WrappedOver(x: int)
    requires 0x8000_0000_0000_0000 <= x < UINT64_RANGE
    ensures Wrapped(x) == x - UINT64_RANGE < 0
  {
  }

  /** The copy stays within the destination if and only if the end of the range
      is a LONGLONG, and then it is cut to no less than fits. */
  lemma CutIff(at: Offset, count: LongLong, size: Offset)
    ensures at + Fits(at, count, size) <= size <==> at + count < 0x8000_0000_0000_0000
    ensures at + count < 0x8000_0000_0000_0000 ==> Fits(at, count, size) == if at + count > size then size - at else count
  {
    WrappedSame(size);
    WrappedSame(size - at);
    if at + count < 0x8000_0000_0000_0000 {
      WrappedSame(at + count);
    } else {
      WrappedOver(at + count);
    }
  }

  /** A range that starts at 2^62 and is as long is not cut to a file of ten bytes. */
  lemma LongRangeIsNotCut()
    ensures Fits(0x4000_0000_0000_0000, 0x4000_0000_0000_0000, 10) == 0x4000_0000_0000_0000
  {
    WrappedSame(10);
    WrappedOver(0x8000_0000_0000_0000);
  }

  /** handle_duplicatedata: what is copied is the range that Fits gives. */
  method HandleDuplicate(server: Server, supported: bool, sameDevice: bool, from: Offset, at: Offset, count: LongLong, clone: bool)
    returns (status: HandleStatus)
    modifies server
    ensures status.NotSupported? <==> !supported
    ensures status.NotSameDevice? <==> supported && !sameDevice
    ensures status.InvalidParameter? <==> supported && sameDevice && Fits(at, count, |old(server.dst)|) < 0
    ensures status.Handled? ==>
        var fits := Fits(at, count, |old(server.dst)|);
        && fits >= 0 && RangeCopied(server.src, server.dst, Job(from, at, fits))
        && (NoDataFrom(server.src, from + fits) ==>
              && OutsideKept(old(server.dst), server.dst, Job(from, at, fits))
              && (at + fits <= |old(server.dst)| ==> |server.dst| == |old(server.dst)|))
    ensures status.RpcError? ==> Failed(server, old(server.calls))
    ensures !status.RpcError? && (!status.Handled? || Fits(at, count, |old(server.dst)|) == 0) ==> server.dst == old(server.dst)
  {
    hide Fits;
    if !supported {
      return NotSupported;
    }
    if !sameDevice {
      return NotSameDevice;
    }
    var fits := Fits(at, count, |server.dst|);
    if fits == 0 {
      return Handled;
    }
    if fits < 0 {
      return InvalidParameter;
    }
    var job := Job(from, at, fits);
    ghost var was := server.dst;
    var copied;
    ghost var upto;
    copied, upto := Duplicate(server, job, clone);
    if !copied.CopyOk? {
      return RpcError(copied);
    }
    RangeIsCopied(server.src, was, server.dst, job);
    if NoDataFrom(server.src, from + fits) {
      OutsideIsKept(server.src, was, server.dst, job);
      if at + fits <= |was| {
        SizeIsKept(server.src, |was|, job);
      }
    }
    return Handled;
  }
}
