/** buffer.go: a byte queue in one growing array, with an account of what growing costs. */
module GrowBuffer {
  import opened Bytes
  import opened Streams

  const BOOTSTRAP: nat := 64

  datatype ReadOp = OpInvalid | OpRead

  /** How room is made: there is enough, the bootstrap array is taken, the unread bytes slide to the front,
      or they move to a new array. */
  datatype Growth = Fits | Bootstraps | Slides | Moves

  class Buffer {
    /** b.buf is data[..len]; its capacity is data.Length. */
    var data: array<byte>
    var len: nat
    var off: nat
    /** b.buf == nil: nothing has been written yet. */
    var isNil: bool
    var lastRead: ReadOp

    /** Bytes read so far (less those unread), moved by sliding, moved to a new array; and the
        largest number of unread plus new bytes grow has been asked for. */
    ghost var taken: int
    ghost var slid: nat
    ghost var copied: nat
    ghost var peak: nat

    ghost predicate Valid()
      reads this, data
    {
      && off <= len <= data.Length
      && (isNil ==> data.Length == 0)
      && slid + off <= taken
      && copied <= data.Length <= MaxOf(BOOTSTRAP, 5 * peak)
    }

    ghost function Contents(): seq<byte>
      requires off <= len <= data.Length
      reads `off, `len, `data, data
    {
      data[off..len]
    }

    /** The zero value, ready to use. */
    constructor ()
      ensures Valid() && Contents() == [] && isNil && fresh(data)
      ensures taken == 0 && slid == 0 && copied == 0 && peak == 0
    {
      data := new byte[0];
      len, off, isNil, lastRead := 0, 0, true, OpInvalid;
      taken, slid, copied, peak := 0, 0, 0, 0;
    }

    function Len(): int reads `off, `len { len - off }

    /** Keeps the first n unread bytes; the source panics when there are fewer. */
    method Truncate(n: nat)
      requires Valid() && n <= Len()
      modifies this
      ensures Valid() && data == old(data) && isNil == old(isNil)
      ensures Contents() == old(Contents())[..n]
      ensures n == 0 ==> off == 0
      ensures taken == old(taken) && slid == old(slid) && copied == old(copied) && peak == old(peak)
    {
      lastRead := OpInvalid;
      if n == 0 {
        off := 0;
      }
      len := off + n;
    }

    /** What n more bytes need. */
    function Need(n: nat): Growth
      reads `off, `len, `isNil, `data, data
    {
      if (if Len() == 0 then 0 else len) + n <= data.Length then Fits
      else if isNil && n <= BOOTSTRAP then Bootstraps
      else if Len() + n <= data.Length / 2 then Slides
      else Moves
    }

    /** Unread bytes moved inside the array, and to a new one, to make room for n more. */
    ghost function Sliding(n: nat): int reads `off, `len, `isNil, `data, data { if Need(n).Slides? then Len() else 0 }
    ghost function Moving(n: nat): int reads `off, `len, `isNil, `data, data { if Need(n).Moves? then Len() else 0 }

    /** Makes room for n more bytes and returns where they go. */
    method GrowBy(n: nat) returns (at: nat)
      requires Valid()
      modifies this, data
      ensures Valid() && (if old(Need(n)) in {Fits, Slides} then data == old(data) else fresh(data))
      ensures slid == old(slid + Sliding(n)) && copied == old(copied + Moving(n))
      ensures at + n == len && off <= at && data[off..at] == old(Contents())
      ensures taken == old(taken) && peak == MaxOf(old(peak), old(Len()) + n)
      ensures old(data.Length) <= data.Length
    {
      var m := Len();
      if m == 0 && off != 0 {
        Truncate(0);
      }
      peak := MaxOf(peak, m + n);
      if len + n > data.Length {
        MakeRoom(m, n);
      }
      len := off + m + n;
      at := off + m;
    }

    /** The branches of grow. */
    method MakeRoom(m: nat, n: nat)
      requires Valid() && m == Len() && len + n > data.Length && m + n <= peak && (m == 0 ==> off == 0)
      modifies this`data, this`isNil, this`off, this`slid, this`copied, data
      ensures (if old(Need(n)) in {Fits, Slides} then data == old(data) else fresh(data))
      ensures off == 0 && m + n <= data.Length && data[..m] == old(Contents()) && !isNil
      ensures slid == old(slid + Sliding(n)) && copied == old(copied + Moving(n))
      ensures slid <= taken && copied <= data.Length <= MaxOf(BOOTSTRAP, 5 * peak) && old(data.Length) <= data.Length
    {
      if isNil && n <= BOOTSTRAP {
        data := new byte[BOOTSTRAP];
      } else if m + n <= data.Length / 2 {
        Slide(m);
      } else {
        Reallocate(m, n);
      }
      isNil := false;
      off := 0;
    }

    method Slide(m: nat)
      requires off <= len <= data.Length && m == Len() && m <= off && slid + off <= taken
      modifies this`slid, data
      ensures data[..m] == old(Contents()) && slid <= taken && slid == old(slid) + m
    {
      forall k | 0 <= k < m { data[k] := data[off + k]; }
      slid := slid + m;
    }

    method Reallocate(m: nat, n: nat)
      requires off <= len <= data.Length && m == Len() && copied <= data.Length
      requires m + n > data.Length / 2 && m + n <= peak
      modifies this`data, this`copied
      ensures fresh(data) && m + n <= data.Length && data[..m] == old(Contents())
      ensures copied <= data.Length <= 5 * peak && old(data.Length) <= data.Length
      ensures data.Length == 2 * old(data.Length) + n && copied == old(copied) + m
    {
      var buf := new byte[2 * data.Length + n];
      forall k | 0 <= k < m { buf[k] := data[off + k]; }
      assert buf[..m] == data[off..len];
      data := buf;
      copied := copied + m;
    }

    method Grow(n: nat)
      requires Valid()
      modifies this, data
      ensures Valid() && (data == old(data) || fresh(data)) && Contents() == old(Contents())
      ensures n <= data.Length - len
      ensures taken == old(taken) && peak == MaxOf(old(peak), old(Len()) + n)
      ensures slid == old(slid + Sliding(n)) && copied == old(copied + Moving(n))
    {
      var m := GrowBy(n);
      len := m;
    }

    method Write(p: seq<byte>) returns (n: nat)
      requires Valid()
      modifies this, data
      ensures Valid() && (data == old(data) || fresh(data))
      ensures n == |p| && Contents() == old(Contents()) + p
      ensures taken == old(taken) && peak == MaxOf(old(peak), old(Len()) + |p|)
      ensures slid == old(slid + Sliding(|p|)) && copied == old(copied + Moving(|p|))
    {
      hide Need, Sliding, Moving;
      lastRead := OpInvalid;
      var m := GrowBy(|p|);
      Place(m, p);
      n := |p|;
    }

    /** copy(b.buf[at:], p) */
    method Place(at: nat, p: seq<byte>)
      requires off <= at && at + |p| == len <= data.Length
      modifies data
      ensures Contents() == old(data[off..at]) + p
    {
      forall k | 0 <= k < |p| { data[at + k] := p[k]; }
      assert data[off..len] == data[off..at] + data[at..len];
    }

    method WriteByte(c: byte)
      requires Valid()
      modifies this, data
      ensures Valid() && (data == old(data) || fresh(data))
      ensures Contents() == old(Contents()) + [c] && taken == old(taken) && peak == MaxOf(old(peak), old(Len()) + 1)
      ensures slid == old(slid + Sliding(1)) && copied == old(copied + Moving(1))
    {
      hide Need, Sliding, Moving;
      lastRead := OpInvalid;
      var m := GrowBy(1);
      Place(m, [c]);
    }

    /** Reads into p from its start; None is io.EOF. */
    method Read(p: array<byte>) returns (n: Option<nat>)
      requires Valid() && p != data
      modifies this, p
      ensures Valid() && data == old(data)
      ensures n == None <==> old(Contents()) == [] && p.Length > 0
      ensures n.Some? ==>
        && n.value == Min(p.Length, |old(Contents())|)
        && old(Contents()) == p[..n.value] + Contents() && taken == old(taken) + n.value
      ensures n == None ==> Contents() == [] && taken == old(taken)
      ensures slid == old(slid) && copied == old(copied) && peak == old(peak)
    {
      lastRead := OpInvalid;
      if off >= len {
        Truncate(0);
        return if p.Length == 0 then Some(0) else None;
      }
      var k: nat := Min(p.Length, Len());
      CopyOut(p, k);
      off := off + k;
      taken := taken + k;
      if k > 0 {
        lastRead := OpRead;
      }
      n := Some(k);
    }

    /** copy(p, b.buf[b.off:]) */
    method CopyOut(p: array<byte>, k: nat)
      requires p != data && k <= p.Length && off + k <= len <= data.Length
      modifies p
      ensures p[..k] == data[off..off + k] && data[off..len] == p[..k] + data[off + k..len]
    {
      forall j | 0 <= j < k { p[j] := data[off + j]; }
    }

    /** b.buf[b.off : b.off+k], then b.off += k. */
    method Take(k: nat) returns (p: seq<byte>)
      requires off <= len <= data.Length && k <= len - off
      modifies `off, `taken
      ensures off == old(off) + k && taken == old(taken) + k && |p| == k
      ensures old(Contents()) == p + Contents()
    {
      p := data[off..off + k];
      Halves(data, off, off + k, len);
      off := off + k;
      taken := taken + k;
    }

    method Next(n: nat) returns (p: seq<byte>)
      requires Valid()
      modifies this
      ensures Valid() && data == old(data)
      ensures |p| == Min(n, |old(Contents())|) && old(Contents()) == p + Contents()
      ensures taken == old(taken) + |p|
      ensures slid == old(slid) && copied == old(copied) && peak == old(peak)
    {
      lastRead := OpInvalid;
      var k: nat := Min(n, Len());
      p := Take(k);
      if k > 0 {
        lastRead := OpRead;
      }
    }

    /** None is io.EOF. */
    method ReadByte() returns (c: Option<byte>)
      requires Valid()
      modifies this
      ensures Valid() && data == old(data)
      ensures c == None <==> old(Contents()) == []
      ensures c.Some? ==>
        && old(Contents()) == [c.value] + Contents() && taken == old(taken) + 1
        && lastRead == OpRead && off > 0 && data[off - 1] == c.value
      ensures c == None ==> Contents() == [] && taken == old(taken)
      ensures slid == old(slid) && copied == old(copied) && peak == old(peak)
    {
      lastRead := OpInvalid;
      if off >= len {
        Truncate(0);
        return None;
      }
      var b := data[off];
      Halves(data, off, off + 1, len);
      assert data[off..off + 1] == [b];
      off := off + 1;
      taken := taken + 1;
      lastRead := OpRead;
      c := Some(b);
    }

    /** Gives back the byte before the read position, if the last operation was a read. */
    method UnreadByte() returns (ok: bool)
      requires Valid()
      modifies this
      ensures Valid() && data == old(data) && ok == (old(lastRead) == OpRead) && lastRead == OpInvalid
      ensures ok && old(off) > 0 ==>
        Contents() == [old(data[off - 1])] + old(Contents()) && taken == old(taken) - 1
      ensures !ok || old(off) == 0 ==> Contents() == old(Contents()) && taken == old(taken)
      ensures slid == old(slid) && copied == old(copied) && peak == old(peak)
    {
      if lastRead != OpRead { lastRead := OpInvalid; return false; }
      lastRead := OpInvalid;
      if off > 0 {
        off := off - 1;
        taken := taken - 1;
      }
      ok := true;
    }

    /** The bytes through the first `delim`; false (io.EOF) when there is none. */
    method ReadBytes(delim: byte) returns (line: seq<byte>, found: bool)
      requires Valid()
      modifies this
      ensures Valid() && data == old(data)
      ensures line == Through(old(Contents()), delim) && old(Contents()) == line + Contents()
      ensures found <==> Ends(line, delim)
      ensures taken == old(taken) + |line|
      ensures slid == old(slid) && copied == old(copied) && peak == old(peak)
    {
      hide IndexOf, UpTo, Ends;
      ghost var s := data[off..len];
      var i := IndexOf(data[off..len], delim);
      var end := if i < 0 then len else off + i + 1;
      line := data[off..end];
      assert line == s[..end - off];
      Halves(data, off, end, len);
      taken := taken + (end - off);
      off := end;
      lastRead := OpRead;
      found := i >= 0;
      FirstFound(s, delim);
    }
  }

  function MaxOf(a: int, b: int): int { if a < b then b else a }

  lemma Halves(a: array<byte>, lo: nat, mid: nat, hi: nat)
    requires lo <= mid <= hi <= a.Length
    ensures a[lo..hi] == a[lo..mid] + a[mid..hi]
  {
  }

  /** What was read can be given back: the queue is as it was before. */
  method ReadThenUnread(b: Buffer) returns (c: Option<byte>)
    requires b.Valid()
    modifies b
    ensures b.Valid() && b.Contents() == old(b.Contents())
  {
    c := b.ReadByte();
    if c.Some? {
      var ok := b.UnreadByte();
    }
  }
}
