/** The `valdev` character device: a 4 KiB buffer, a 64-bit counter and file offsets. */
module Valdev {
  import opened Arithmetic
  import opened Bytes

  const BUF_SIZE := 4096
  const ABI_VERSION := 0x1_0000  // (1 << 16) | 0
  const LOFF_MAX := 0x7FFF_FFFF_FFFF_FFFF
  const SEEK_SET := 0
  const SEEK_CUR := 1
  const SEEK_END := 2

  datatype Errno = ENOSPC | ENOTTY | EFAULT | EINVAL | ENOMEM

  datatype Result<+T> = Ok(value: T) | Err(errno: Errno)

  /** How the kernel's copying helpers fare in one call. */
  datatype Luck = Fine | NoMemory | Fault

  /** Everything behind the mutex. */
  datatype Dev = Dev(buf: seq<Byte>, len: nat, counter: nat)

  /** The bytes at and beyond `len` are zero, so holes left by seeking read as zeros. */
  ghost predicate DevOk(d: Dev) {
    && |d.buf| == BUF_SIZE
    && d.len <= BUF_SIZE
    && d.counter < TWO64
    && forall i :: d.len <= i < BUF_SIZE ==> d.buf[i] == 0
  }

  function Min(a: int, b: int): int {
    if a < b then a else b
  }

  function Max(a: int, b: int): int {
    if a < b then b else a
  }

  /** What a read at `pos` sees: nothing past the valid length. */
  function Snapshot(d: Dev, pos: int, count: nat): seq<Byte>
    requires d.len <= |d.buf|
  {
    if pos < 0 || pos >= d.len then [] else d.buf[pos..pos + Min(count, d.len - pos)]
  }

  /** How many bytes of a write at `pos` fit. */
  function Fits(pos: int, count: nat): nat
    requires 0 <= pos < BUF_SIZE
  {
    Min(count, BUF_SIZE - pos)
  }

  function Stored(d: Dev, pos: int, data: seq<Byte>): Dev
    requires |d.buf| == BUF_SIZE && 0 <= pos && pos + |data| <= BUF_SIZE
  {
    d.(buf := d.buf[..pos] + data + d.buf[pos + |data|..], len := Max(d.len, pos + |data|))
  }

  // ----- file operations as state transformers

  datatype ReadReply = ReadReply(result: Result<seq<Byte>>, pos: int)

  ghost function ReadSpec(d: Dev, pos: int, count: nat, luck: Luck): ReadReply
    requires d.len <= |d.buf|
  {
    var bytes := Snapshot(d, pos, count);
    if bytes == [] then ReadReply(Ok([]), pos)
    else match luck
      case Fine => ReadReply(Ok(bytes), pos + |bytes|)
      case NoMemory => ReadReply(Err(ENOMEM), pos)
      case Fault => ReadReply(Err(EFAULT), pos)
  }

  datatype WriteReply = WriteReply(dev: Dev, result: Result<nat>, pos: int)

  ghost function WriteSpec(d: Dev, pos: int, data: seq<Byte>, luck: Luck): WriteReply
    requires |d.buf| == BUF_SIZE
  {
    if data == [] then WriteReply(d, Ok(0), pos)
    else if pos < 0 || pos >= BUF_SIZE then WriteReply(d, Err(ENOSPC), pos)
    else match luck
      case NoMemory => WriteReply(d, Err(ENOMEM), pos)
      case Fault => WriteReply(d, Err(EFAULT), pos)
      case Fine =>
        var n := Fits(pos, |data|);
        WriteReply(Stored(d, pos, data[..n]), Ok(n), pos + n)
  }

  /** `check_add_overflow`, then `vfs_setpos` with the buffer size as limit. */
  function Seek(len: nat, fpos: int, off: int, whence: int): Result<int> {
    if whence !in {SEEK_SET, SEEK_CUR, SEEK_END} then Err(EINVAL)
    else
      var base := if whence == SEEK_SET then 0 else if whence == SEEK_CUR then fpos else len;
      var newPos := base + off;
      if newPos > LOFF_MAX || newPos < -LOFF_MAX - 1 then Err(EINVAL)
      else if newPos < 0 || newPos > BUF_SIZE then Err(EINVAL)
      else Ok(newPos)
  }

  datatype Cmd = GetVersion | AddCounter(delta: nat) | Reset | GetStats | Unknown

  datatype Reply = Version(v: nat) | Counter(v: nat) | Stats(counter: nat, opens: nat, len: nat) | Nothing

  /** The device after module load, and after a reset. */
  function Empty(): (d: Dev)
    ensures DevOk(d)
  {
    Dev(seq(BUF_SIZE, _ => 0), 0, 0)
  }

  // ----- what a call does under the lock

  /** The locked section of a call, with its arguments already checked and copied in. */
  datatype Locked =
    | LRead(from: int, count: nat)
    | LWrite(pos: nat, data: seq<Byte>)
    | LAdd(delta: nat)
    | LReset
    | LStats

  /** What the section leaves in the caller's private memory. */
  datatype Note = NBytes(bytes: seq<Byte>) | NDone | NCounter(value: nat) | NStats(counter: nat, len: nat)

  ghost predicate OpOk(op: Locked) {
    && (op.LWrite? ==> op.data != [] && op.pos + |op.data| <= BUF_SIZE)
    && (op.LAdd? ==> op.delta < TWO64)
  }

  ghost predicate LogOk(h: seq<Locked>) {
    forall k :: 0 <= k < |h| ==> OpOk(h[k])
  }

  ghost function Apply(d: Dev, op: Locked): Dev
    requires |d.buf| == BUF_SIZE && OpOk(op)
    ensures |Apply(d, op).buf| == BUF_SIZE
  {
    match op
    case LWrite(pos, data) => Stored(d, pos, data)
    case LAdd(delta) => d.(counter := (d.counter + delta) % TWO64)
    case LReset => Empty()
    case LRead(_, _) => d
    case LStats => d
  }

  ghost function NoteOf(d: Dev, op: Locked): Note
    requires |d.buf| == BUF_SIZE && d.len <= BUF_SIZE
  {
    match op
    case LRead(pos, count) => NBytes(Snapshot(d, pos, count))
    case LWrite(_, _) => NDone
    case LAdd(delta) => NCounter((d.counter + delta) % TWO64)
    case LReset => NDone
    case LStats => NStats(d.counter, d.len)
  }

  /** The sequential device: a history run in order. */
  ghost function Replay(d: Dev, h: seq<Locked>): Dev
    requires |d.buf| == BUF_SIZE && LogOk(h)
    ensures |Replay(d, h).buf| == BUF_SIZE
  {
    if |h| == 0 then d else Apply(Replay(d, h[..|h| - 1]), h[|h| - 1])
  }

  /** The locked sections a call gets to: none if it fails or is answered before taking the lock. */
  ghost function WriteSections(pos: int, data: seq<Byte>, luck: Luck): (h: seq<Locked>)
    ensures LogOk(h)
  {
    if data == [] || pos < 0 || pos >= BUF_SIZE || !luck.Fine? then [] else [LWrite(pos, data[..Fits(pos, |data|)])]
  }

  ghost function IoctlSections(cmd: Cmd, inFaults: bool): (h: seq<Locked>)
    requires cmd.AddCounter? ==> cmd.delta < TWO64
    ensures LogOk(h)
  {
    match cmd
    case AddCounter(delta) => if inFaults then [] else [LAdd(delta)]
    case Reset => [LReset]
    case GetStats => [LStats]
    case _ => []
  }

  lemma ReplayOne(d: Dev, op: Locked)
    requires |d.buf| == BUF_SIZE && OpOk(op)
    ensures Replay(d, [op]) == Apply(d, op)
  {
    assert [op][..0] == [];
  }

  class Device {
    const buf: array<Byte>
    var len: nat
    var counter: nat
    var opens: nat

    function View(): Dev
      reads this, buf
    {
      Dev(buf[..], len, counter)
    }

    ghost predicate Valid()
      reads this, buf
    {
      DevOk(View())
    }

    constructor ()
      ensures Valid() && View() == Empty() && opens == 0 && fresh(buf)
    {
      buf := new Byte[BUF_SIZE](_ => 0);
      len, counter, opens := 0, 0, 0;
      new;
      assert buf[..] == Empty().buf;
    }

    method Open()
      requires Valid()
      modifies this`opens
      ensures Valid() && opens == old(opens) + 1
    {
      opens := opens + 1;
    }

    method Read(pos: int, count: nat, luck: Luck) returns (r: Result<seq<Byte>>, newPos: int)
      requires Valid()
      ensures ReadReply(r, newPos) == ReadSpec(View(), pos, count, luck)
      ensures r.Ok? ==> NoteOf(View(), LRead(pos, count)) == NBytes(r.value)
      ensures r.Err? ==> newPos == pos && r.errno == (if luck.NoMemory? then ENOMEM else EFAULT) && !luck.Fine?
      ensures 0 <= pos <= BUF_SIZE ==> 0 <= newPos <= BUF_SIZE
    {
      if count == 0 {
        return Ok([]), pos;
      }
      if pos < 0 || pos >= len {
        return Ok([]), pos;
      }
      var n := Min(count, len - pos);
      var snap := buf[pos..pos + n];
      if luck.NoMemory? {
        return Err(ENOMEM), pos;
      }
      if luck.Fault? {
        return Err(EFAULT), pos;
      }
      return Ok(snap), pos + n;
    }

    method Write(pos: int, data: seq<Byte>, luck: Luck) returns (r: Result<nat>, newPos: int)
      requires Valid()
      modifies this`len, buf
      ensures Valid()
      ensures WriteReply(View(), r, newPos) == WriteSpec(old(View()), pos, data, luck)
      ensures View() == Replay(old(View()), WriteSections(pos, data, luck))
      ensures r.Err? ==> View() == old(View()) && newPos == pos
      ensures r.Ok? ==>
        r.value == if data == [] then 0 else if |data| <= BUF_SIZE - pos then |data| else BUF_SIZE - pos
      ensures data != [] && !(0 <= pos < BUF_SIZE) ==> r == Err(ENOSPC)
      ensures data != [] && 0 <= pos < BUF_SIZE && !luck.Fine? ==> r == Err(if luck.NoMemory? then ENOMEM else EFAULT)
      ensures 0 <= pos <= BUF_SIZE ==> 0 <= newPos <= BUF_SIZE
    {
      if data == [] {
        return Ok(0), pos;
      }
      if pos < 0 || pos >= BUF_SIZE {
        return Err(ENOSPC), pos;
      }
      var n := Fits(pos, |data|);
      if luck.NoMemory? {
        return Err(ENOMEM), pos;
      }
      if luck.Fault? {
        return Err(EFAULT), pos;
      }
      var bounce := data[..n];
      forall i | 0 <= i < n {
        buf[pos + i] := bounce[i];
      }
      newPos := pos + n;
      if newPos > len {
        len := newPos;
      }
      r := Ok(n);
      assert buf[..] == Stored(old(View()), pos, bounce).buf;
      ReplayOne(old(View()), LWrite(pos, bounce));
    }

    /**
     * `valdev_ioctl`; a copy-out fault is reported, but what was done under the lock stays done. GET_STATS
     * reads `opens` after the lock is dropped, when `meanwhile` more opens have come in.
     */
    method Ioctl(cmd: Cmd, inFaults: bool, outFaults: bool, meanwhile: nat) returns (r: Result<Reply>)
      requires Valid()
      requires cmd.AddCounter? ==> cmd.delta < TWO64
      modifies this`len, this`counter, this`opens, buf
      ensures Valid()
      ensures View() == match cmd
        case AddCounter(delta) =>
          if inFaults then old(View()) else old(View()).(counter := (old(counter) + delta) % TWO64)
        case Reset => Empty()
        case _ => old(View())
      ensures View() == Replay(old(View()), IoctlSections(cmd, inFaults))
      ensures opens == old(opens) + (if cmd.GetStats? then meanwhile else 0)
      ensures r == match cmd
        case GetVersion => if outFaults then Err(EFAULT) else Ok(Version(65536))
        case AddCounter(_) => if inFaults || outFaults then Err(EFAULT) else Ok(Counter(counter))
        case Reset => Ok(Nothing)
        case GetStats => if outFaults then Err(EFAULT) else Ok(Stats(counter, old(opens) + meanwhile, len))
        case Unknown => Err(ENOTTY)
      ensures r.Ok? && r.value.Counter? ==> NoteOf(old(View()), LAdd(cmd.delta)) == NCounter(r.value.v)
      ensures r.Ok? && r.value.Stats? ==> NoteOf(old(View()), LStats) == NStats(r.value.counter, r.value.len)
    {
      match cmd {
        case GetVersion =>
          r := if outFaults then Err(EFAULT) else Ok(Version(ABI_VERSION));
        case AddCounter(delta) =>
          if inFaults {
            return Err(EFAULT);
          }
          ReplayOne(View(), LAdd(delta));
          counter := (counter + delta) % TWO64;
          r := if outFaults then Err(EFAULT) else Ok(Counter(counter));
        case Reset =>
          ReplayOne(View(), LReset);
          counter := 0;
          len := 0;
          forall i | 0 <= i < buf.Length {
            buf[i] := 0;
          }
          assert buf[..] == Empty().buf;
          r := Ok(Nothing);
        case GetStats =>
          ReplayOne(View(), LStats);
          var c, n := counter, len;
          opens := opens + meanwhile;
          r := if outFaults then Err(EFAULT) else Ok(Stats(c, opens, n));
        case Unknown =>
          r := Err(ENOTTY);
      }
    }

    method Llseek(fpos: int, off: int, whence: int) returns (r: Result<int>, newPos: int)
      requires Valid()
      ensures r == Seek(len, fpos, off, whence)
      ensures r.Err? ==> r.errno == EINVAL
      ensures newPos == if r.Ok? then r.value else fpos
      ensures 0 <= fpos <= BUF_SIZE ==> 0 <= newPos <= BUF_SIZE
    {
      newPos := fpos;
      var base := 0;
      match whence {
        case 0 => base := 0;
        case 1 => base := fpos;
        case 2 => base := len;
        case _ => return Err(EINVAL), fpos;
      }
      var target := base + off;
      if target > LOFF_MAX || target < -LOFF_MAX - 1 {
        return Err(EINVAL), fpos;
      }
      if target < 0 || target > BUF_SIZE {
        return Err(EINVAL), fpos;
      }
      return Ok(target), target;
    }
  }

  // ----- seeking

  /** The three ways to seek: to an offset, by a distance, from the end; anything out of range is EINVAL. */
  lemma SeekMeans(len: nat, fpos: int, off: int)
    requires len <= BUF_SIZE && 0 <= fpos <= BUF_SIZE
    ensures Seek(len, fpos, off, 0) == if 0 <= off <= 4096 then Ok(off) else Err(EINVAL)
    ensures Seek(len, fpos, off, 1) == if 0 <= fpos + off <= 4096 then Ok(fpos + off) else Err(EINVAL)
    ensures Seek(len, fpos, off, 2) == if 0 <= len + off <= 4096 then Ok(len + off) else Err(EINVAL)
    ensures forall whence :: whence < 0 || whence > 2 ==> Seek(len, fpos, off, whence) == Err(EINVAL)
  {
  }

  /** From the end there is nothing to read, and a write appends to the valid bytes. */
  lemma SeekEndAppends(d: Dev, fpos: int, count: nat, data: seq<Byte>)
    requires DevOk(d) && 0 < |data| <= BUF_SIZE - d.len
    ensures var end := Seek(d.len, fpos, 0, SEEK_END);
      && end == Ok(d.len)
      && ReadSpec(d, end.value, count, Fine).result == Ok([])
      && var w := WriteSpec(d, end.value, data, Fine);
         w.result == Ok(|data|) && w.dev.len == d.len + |data| && w.dev.buf[..w.dev.len] == d.buf[..d.len] + data
  {
    assert data[..|data|] == data;
  }

  /** Moving forth and back comes back. */
  lemma SeekThereAndBack(len: nat, fpos: int, distance: int)
    requires len <= BUF_SIZE && 0 <= fpos <= BUF_SIZE && 0 <= fpos + distance <= BUF_SIZE
    ensures var there := Seek(len, fpos, distance, SEEK_CUR);
      && there == Ok(fpos + distance)
      && Seek(len, there.value, -distance, SEEK_CUR) == Ok(fpos) && Seek(len, fpos, 0, SEEK_CUR) == Ok(fpos)
  {
  }

  // ----- the byte stream

  function Flat(chunks: seq<seq<Byte>>): seq<Byte> {
    if |chunks| == 0 then [] else Flat(chunks[..|chunks| - 1]) + chunks[|chunks| - 1]
  }

  /** Successive writes through one file, each from where the last one stopped. */
  ghost function WriteAll(d: Dev, pos: int, chunks: seq<seq<Byte>>): WriteReply
    requires |d.buf| == BUF_SIZE
    ensures |WriteAll(d, pos, chunks).dev.buf| == BUF_SIZE
  {
    if |chunks| == 0 then WriteReply(d, Ok(0), pos)
    else
      var before := WriteAll(d, pos, chunks[..|chunks| - 1]);
      WriteSpec(before.dev, before.pos, chunks[|chunks| - 1], Fine)
  }

  /** Successive reads through one file, concatenated. */
  ghost function ReadAll(d: Dev, pos: int, counts: seq<nat>): ReadReply
    requires d.len <= |d.buf|
    ensures ReadAll(d, pos, counts).result.Ok?
  {
    if |counts| == 0 then ReadReply(Ok([]), pos)
    else
      var before := ReadAll(d, pos, counts[..|counts| - 1]);
      var last := ReadSpec(d, before.pos, counts[|counts| - 1], Fine);
      ReadReply(Ok(before.result.value + last.result.value), last.pos)
  }

  function Total(counts: seq<nat>): nat {
    if |counts| == 0 then 0 else Total(counts[..|counts| - 1]) + counts[|counts| - 1]
  }

  lemma StoreTwice(d: Dev, pos: int, a: seq<Byte>, b: seq<Byte>)
    requires |d.buf| == BUF_SIZE && 0 <= pos && pos + |a| + |b| <= BUF_SIZE
    ensures Stored(Stored(d, pos, a), pos + |a|, b) == Stored(d, pos, a + b)
  {
    assert Stored(Stored(d, pos, a), pos + |a|, b).buf == Stored(d, pos, a + b).buf;
  }

  ghost function AfterWriting(d: Dev, pos: nat, data: seq<Byte>): Dev
    requires |d.buf| == BUF_SIZE && pos + |data| <= BUF_SIZE
  {
    if data == [] then d else Stored(d, pos, data)
  }

  lemma OneWrite(d: Dev, pos: nat, a: seq<Byte>, b: seq<Byte>)
    requires |d.buf| == BUF_SIZE && pos + |a| + |b| <= BUF_SIZE
    ensures var w := WriteSpec(AfterWriting(d, pos, a), pos + |a|, b, Fine);
      w.dev == AfterWriting(d, pos, a + b) && w.pos == pos + |a + b|
  {
    if b == [] {
      assert a + b == a;
    } else {
      assert b[..|b|] == b;
      if a == [] {
        assert a + b == b;
      } else {
        StoreTwice(d, pos, a, b);
      }
    }
  }

  lemma LastWrite(d: Dev, pos: nat, chunks: seq<seq<Byte>>, before: WriteReply)
    requires |d.buf| == BUF_SIZE && |chunks| > 0 && pos + |Flat(chunks)| <= BUF_SIZE
    requires var head := Flat(chunks[..|chunks| - 1]);
      before.pos == pos + |head| && before.dev == AfterWriting(d, pos, head)
    ensures var w := WriteSpec(before.dev, before.pos, chunks[|chunks| - 1], Fine);
      w.pos == pos + |Flat(chunks)| && w.dev == AfterWriting(d, pos, Flat(chunks))
  {
    OneWrite(d, pos, Flat(chunks[..|chunks| - 1]), chunks[|chunks| - 1]);
  }

  /** However a stream is cut into writes, the device ends as after one write of all of it. */
  lemma {:induction false} WritesAddUp(d: Dev, pos: nat, chunks: seq<seq<Byte>>)
    requires |d.buf| == BUF_SIZE && pos + |Flat(chunks)| <= BUF_SIZE
    ensures WriteAll(d, pos, chunks).pos == pos + |Flat(chunks)|
    ensures WriteAll(d, pos, chunks).dev == AfterWriting(d, pos, Flat(chunks))
  {
    if |chunks| == 0 {
    } else {
      var n := |chunks| - 1;
      WritesAddUp(d, pos, chunks[..n]);
      LastWrite(d, pos, chunks, WriteAll(d, pos, chunks[..n]));
    }
  }

  /** A stream longer than the room stores its first `BUF_SIZE - pos` bytes; the rest of it changes nothing. */
  lemma {:induction false} LongStream(d: Dev, pos: nat, chunks: seq<seq<Byte>>)
    requires |d.buf| == BUF_SIZE && pos <= BUF_SIZE
    ensures var w, n := WriteAll(d, pos, chunks), Min(|Flat(chunks)|, BUF_SIZE - pos);
      w.pos == pos + n && w.dev == AfterWriting(d, pos, Flat(chunks)[..n])
  {
    if |chunks| == 0 {
    } else {
      var n := |chunks| - 1;
      LongStream(d, pos, chunks[..n]);
      NextChunk(d, pos, Flat(chunks[..n]), chunks[n]);
    }
  }

  lemma NextChunk(d: Dev, pos: nat, a: seq<Byte>, b: seq<Byte>)
    requires |d.buf| == BUF_SIZE && pos <= BUF_SIZE
    ensures var room := BUF_SIZE - pos;
      var before := a[..Min(|a|, room)];
      var w, n := WriteSpec(AfterWriting(d, pos, before), pos + |before|, b, Fine), Min(|a + b|, room);
      w.pos == pos + n && w.dev == AfterWriting(d, pos, (a + b)[..n])
  {
    var room := BUF_SIZE - pos;
    if |a| >= room {
      assert (a + b)[..room] == a[..room];
    } else {
      var c := b[..Min(|b|, room - |a|)];
      assert (a + b)[..Min(|a + b|, room)] == a + c;
      OneWrite(d, pos, a, c);
      CutWrite(AfterWriting(d, pos, a), pos + |a|, b);
      assert a[..|a|] == a;
    }
  }

  /** A write that does not fit is the write of what fits. */
  lemma CutWrite(d: Dev, pos: nat, data: seq<Byte>)
    requires |d.buf| == BUF_SIZE && pos < BUF_SIZE
    ensures var c, w := data[..Min(|data|, BUF_SIZE - pos)], WriteSpec(d, pos, data, Fine);
      && w.dev == WriteSpec(d, pos, c, Fine).dev && w.pos == WriteSpec(d, pos, c, Fine).pos
      && w.result == Ok(|c|)
  {
    var c := data[..Min(|data|, BUF_SIZE - pos)];
    assert c[..|c|] == c;
  }

  /** Where nothing fits, a non-empty write fails with ENOSPC and changes nothing, whatever else might go wrong. */
  lemma NoRoom(d: Dev, pos: int, data: seq<Byte>, luck: Luck)
    requires |d.buf| == BUF_SIZE && data != [] && !(0 <= pos < BUF_SIZE)
    ensures WriteSpec(d, pos, data, luck) == WriteReply(d, Err(ENOSPC), pos)
  {
  }

  /** Where reading `n` bytes from `pos` stops. */
  function End(d: Dev, pos: nat, n: nat): nat {
    Min(pos + n, d.len)
  }

  lemma OneRead(d: Dev, pos: nat, count: nat)
    requires pos <= d.len <= |d.buf|
    ensures pos <= End(d, pos, count) <= d.len
    ensures ReadSpec(d, pos, count, Fine) == ReadReply(Ok(d.buf[pos..End(d, pos, count)]), End(d, pos, count))
  {
    if pos == End(d, pos, count) {
      assert d.buf[pos..End(d, pos, count)] == [];
    }
  }

  lemma JoinReads(d: Dev, pos: nat, t: nat, c: nat)
    requires pos <= d.len <= |d.buf|
    ensures var mid := End(d, pos, t);
      && pos <= mid <= End(d, mid, c) == End(d, pos, t + c) <= |d.buf|
      && d.buf[pos..mid] + d.buf[mid..End(d, mid, c)] == d.buf[pos..End(d, pos, t + c)]
  {
  }

  /** However the reads are cut, they return one contiguous piece of the valid bytes. */
  lemma {:induction false} ReadsAddUp(d: Dev, pos: nat, counts: seq<nat>)
    requires pos <= d.len <= |d.buf|
    ensures pos <= End(d, pos, Total(counts)) <= d.len
    ensures ReadAll(d, pos, counts) ==
      ReadReply(Ok(d.buf[pos..End(d, pos, Total(counts))]), End(d, pos, Total(counts)))
  {
    if |counts| > 0 {
      var n := |counts| - 1;
      ReadsAddUp(d, pos, counts[..n]);
      OneRead(d, End(d, pos, Total(counts[..n])), counts[n]);
      JoinReads(d, pos, Total(counts[..n]), counts[n]);
    } else {
      assert d.buf[pos..pos] == [];
    }
  }

  /** What is on the device after writing `data` from offset 0: the data, then any older tail. */
  function Overlaid(d: Dev, data: seq<Byte>): (r: seq<Byte>)
    requires d.len <= |d.buf|
    ensures |r| == Max(d.len, |data|)
  {
    data + (if |data| < d.len then d.buf[|data|..d.len] else [])
  }

  /**
   * Round trip: any split of at most 4096 bytes into writes from offset 0, then a seek to 0 and any split into
   * reads, returns those bytes followed by any older tail, as far as the reads ask; end of file comes exactly
   * when they have asked for all of it.
   */
  lemma StreamRoundTrip(d: Dev, chunks: seq<seq<Byte>>, counts: seq<nat>)
    requires DevOk(d) && |Flat(chunks)| <= BUF_SIZE
    ensures var w := WriteAll(d, 0, chunks);
      var fpos := Seek(w.dev.len, w.pos, 0, SEEK_SET);
      var all := Overlaid(d, Flat(chunks));
      && DevOk(w.dev) && fpos.Ok?
      && var r := ReadAll(w.dev, fpos.value, counts);
         && r.result.value == all[..Min(Total(counts), |all|)]
         && (ReadSpec(w.dev, r.pos, 1, Fine).result == Ok([]) <==> Total(counts) >= |all|)
  {
    WritesAddUp(d, 0, chunks);
    ReadBack(d, Flat(chunks), WriteAll(d, 0, chunks).dev, counts);
  }

  lemma ReadBack(d: Dev, data: seq<Byte>, e: Dev, counts: seq<nat>)
    requires DevOk(d) && |data| <= BUF_SIZE && e == AfterWriting(d, 0, data)
    ensures DevOk(e) && var r, all := ReadAll(e, 0, counts), Overlaid(d, data);
      && r.result.value == all[..Min(Total(counts), |all|)]
      && (ReadSpec(e, r.pos, 1, Fine).result == Ok([]) <==> Total(counts) >= |all|)
  {
    StoredOk(d, 0, data);
    ReadsAddUp(e, 0, counts);
    ValidBytesAfterStore(d, data);
    assert e.buf[0..e.len] == Overlaid(d, data);
    assert e.buf[0..End(e, 0, Total(counts))] == e.buf[0..e.len][..End(e, 0, Total(counts))];
  }

  lemma ValidBytesAfterStore(d: Dev, data: seq<Byte>)
    requires DevOk(d) && |data| <= BUF_SIZE
    ensures var e := Stored(d, 0, data); e.buf[0..e.len] == Overlaid(d, data)
  {
    var e := Stored(d, 0, data);
    assert e.buf == data + d.buf[|data|..];
    if |data| < d.len {
      assert e.buf[0..e.len] == data + d.buf[|data|..][..d.len - |data|];
      assert d.buf[|data|..][..d.len - |data|] == d.buf[|data|..d.len];
    } else {
      assert e.buf[0..e.len] == data;
    }
  }

  lemma StoredOk(d: Dev, pos: nat, data: seq<Byte>)
    requires DevOk(d) && pos + |data| <= BUF_SIZE
    ensures DevOk(Stored(d, pos, data))
  {
  }
}
