/** bufio.Reader: a sliding window over a source that delivers its bytes in arbitrary chunks. */
module Bufio {
  import opened Bytes
  import opened Streams

  const MAX_EMPTY_READS: nat := 100

  /** The peer behind an io.Reader. `rest` and `later` are the tape of everything it will still deliver.
      Chunk sizes are arbitrary; an empty read without error may happen at most `patience` times in a row.
      Only a faulty source has faults on its tape, and only a mixing one reports a fault along with bytes. */
  class Source {
    var rest: seq<byte>
    var later: seq<seq<byte>>
    var idle: nat
    var ended: bool
    const patience: nat
    const faulty: bool
    const mixes: bool

    constructor (content: Tape, patience: nat, faulty: bool, mixes: bool)
      requires !faulty ==> content.later == []
      ensures Valid() && !ended && Tape() == content
      ensures this.patience == patience && this.faulty == faulty && this.mixes == mixes
    {
      rest, later, idle, ended := content.now, content.later, 0, false;
      this.patience, this.faulty, this.mixes := patience, faulty, mixes;
    }

    ghost predicate Valid()
      reads this
    {
      idle <= patience && (ended ==> rest == [] && later == []) && (!faulty ==> later == [])
    }

    function Tape(): Tape reads this { Streams.Tape.Tape(rest, later) }

    /** How bytes may arrive: those already on their way and `more`, with faults wherever a faulty source
        cares to have them. */
    predicate Arrives(more: seq<byte>, arrivals: Tape)
      reads this
    {
      && Flat(arrivals) == Flat(Tape()) + more
      && (!faulty ==> arrivals.later == []) && (ended ==> arrivals == Streams.Tape.Tape([], []))
    }

    /** The peer sends more. */
    method Answer(more: seq<byte>, arrivals: Tape)
      requires Valid() && Arrives(more, arrivals)
      modifies `rest, `later
      ensures Valid() && Tape() == arrivals
    {
      rest, later := arrivals.now, arrivals.later;
    }

    /** Never stalls for as long as the reader is prepared to retry, and reports a fault by itself. */
    predicate Orderly() { patience < MAX_EMPTY_READS && !mixes }

    /** Orderly, and never fails. */
    predicate Steady() { Orderly() && !faulty }

    /** Fills a prefix of p[lo..]; the bytes beyond it are unspecified. */
    method Read(p: array<byte>, lo: nat) returns (n: nat, err: Option<Err>)
      requires Valid() && lo < p.Length
      modifies this, p
      ensures Valid()
      ensures n <= p.Length - lo && p[..lo] == old(p[..lo])
      ensures Took(old(Tape()), p[lo..lo + n], err, Tape())
      ensures err in {None, Some(EOF), Some(Fault)}
      ensures (err == Some(EOF) ==> ended) && (old(ended) ==> ended)
      ensures err == Some(Fault) && n > 0 ==> mixes
      ensures n == 0 && err == None ==> idle == old(idle) + 1
    {
      n :| 0 <= n <= p.Length - lo && n <= |rest|;
      var stops: bool := *;
      var end := Some(EndOf(Tape()));
      err := if stops && n == |rest| && (n == 0 || end == Some(EOF) || mixes) then end else None;
      if n == 0 && err == None && idle == patience {
        if rest == [] { err := end; } else { n := 1; }
      }
      forall k | 0 <= k < n { p[lo + k] := rest[k]; }
      assert p[lo..lo + n] == rest[..n] && rest == rest[..n] + rest[n..];
      if err == None {
        rest := rest[n..];
      } else {
        var past := Past(Tape());
        rest, later := past.now, past.later;
      }
      ended := ended || err == Some(EOF);
      idle := if n == 0 && err == None then idle + 1 else 0;
    }
  }

  class Reader {
    const buf: array<byte>
    const rd: Source
    var r: nat
    var w: nat
    var err: Option<Err>
    var lastByte: int
    var lastRuneSize: int
    /** Set for good once a hundred empty reads have been given up on, or a fault has come along with
        bytes that were read past the buffer. */
    ghost var troubled: bool

    ghost predicate Valid()
      reads this, buf, rd
    {
      && MIN_BUFFER <= buf.Length && r <= w <= buf.Length && rd.Valid()
      && -1 <= lastByte < 256
      && err in {None, Some(EOF), Some(Fault), Some(NoProgress)}
      && (err == Some(EOF) ==> rd.ended) && (err == Some(Fault) ==> rd.faulty)
      && (err == Some(NoProgress) ==> troubled)
      && (rd.Orderly() ==> !troubled)
    }

    /** Every byte the caller has not consumed yet, buffered or still with the peer, with the faults it
        will meet; the one in `err` is due behind the window. */
    ghost function Tape(): Tape
      requires r <= w <= buf.Length
      reads `r, `w, `err, buf, rd`rest, rd`later
    {
      TapeWith(err)
    }

    ghost function TapeWith(e: Option<Err>): (t: Tape)
      requires r <= w <= buf.Length
      reads `r, `w, buf, rd`rest, rd`later
    {
      if e == Some(Fault) then Streams.Tape.Tape(buf[r..w], [rd.rest] + rd.later)
      else Streams.Tape.Tape(buf[r..w] + rd.rest, rd.later)
    }

    constructor (rd: Source, size: int)
      requires rd.Valid()
      ensures Valid() && fresh(buf) && this.rd == rd
      ensures buf.Length == if size < MIN_BUFFER then MIN_BUFFER else size
      ensures Tape() == rd.Tape() && !troubled && err == None && lastByte == -1 && r == w == 0
    {
      buf := new byte[if size < MIN_BUFFER then MIN_BUFFER else size];
      this.rd := rd;
      r, w, err, lastByte, lastRuneSize := 0, 0, None, -1, -1;
      troubled := false;
    }

    /** Moves the window to the front of the buffer (the first half of fill). */
    method Slide()
      requires Valid()
      modifies `r, `w, buf
      ensures r == 0 && w == old(w - r) && buf[..w] == old(buf[r..w])
    {
      if r > 0 {
        forall k | 0 <= k < w - r { buf[k] := buf[r + k]; }
        w := w - r;
        r := 0;
      }
    }

    /** One read of the source behind the window. */
    method Pull() returns (n: nat, e: Option<Err>)
      requires Valid() && err == None && r == 0 && w < buf.Length
      modifies `w, buf, rd
      ensures r <= w <= buf.Length && rd.Valid() && w == old(w) + n
      ensures TapeWith(e) == old(Tape())
      ensures e in {None, Some(EOF), Some(Fault)}
      ensures (e == Some(EOF) ==> rd.ended) && (old(rd.ended) ==> rd.ended) && (e == Some(Fault) ==> rd.faulty)
      ensures n == 0 && e == None ==> rd.idle == old(rd.idle) + 1
    {
      ghost var window, before := buf[..w], rd.Tape();
      n, e := rd.Read(buf, w);
      ghost var x := buf[w..w + n];
      assert buf[..w + n] == window + x;
      Assoc(window, x, rd.rest);
      w := w + n;
      assert e == Some(Fault) ==> [rd.rest] + rd.later == before.later;
    }

    /** Slides the window to the front and reads one more chunk behind it. A hundred reads without a byte
        are no progress; any other error is what the source reports behind the window. */
    method Fill()
      requires Valid() && err == None && w - r < buf.Length
      modifies this, buf, rd
      ensures Valid() && r == 0 && Tape() == old(Tape())
      ensures old(w - r) <= w && (err == None ==> old(w - r) < w)
      ensures err == Some(NoProgress) ==> w == old(w - r) && rd.idle >= MAX_EMPTY_READS
      ensures err in {Some(EOF), Some(Fault)} ==> err == Some(EndOf(Tape())) && Tape().now == buf[r..w]
      ensures lastByte == old(lastByte)
      ensures troubled == (old(troubled) || err == Some(NoProgress))
    {
      Slide();
      ghost var held := w;
      var i := MAX_EMPTY_READS;
      while i > 0
        invariant i <= MAX_EMPTY_READS && rd.idle >= MAX_EMPTY_READS - i
        invariant Valid() && r == 0 && err == None && w == held < buf.Length
        invariant Tape() == old(Tape())
        invariant lastByte == old(lastByte) && troubled == old(troubled)
      {
        var n, e := Pull();
        if e != None {
          err := e;
          return;
        }
        if n > 0 { return; }
        i := i - 1;
      }
      err := Some(NoProgress);
      troubled := true;
    }

    method ReadErr() returns (e: Option<Err>)
      requires Valid()
      modifies `err
      ensures Valid() && e == old(err) && err == None
      ensures r == w ==> Took(old(Tape()), [], e, Tape())
      ensures Tape() == if e == Some(Fault) then Forgotten(old(Tape())) else old(Tape())
    {
      e := err;
      err := None;
    }

    /** The tape when a report that was due behind the window has been given before its time. */
    static function Forgotten(t: Tape): Tape {
      if t.later == [] then t else Streams.Tape.Tape(t.now + t.later[0], t.later[1..])
    }

    lemma WindowIsPrefix(m: nat)
      requires m <= w - r && r <= w <= buf.Length
      ensures buf[r..r + m] <= Tape().now
    {
      assert buf[r..r + m] == Tape().now[..m];
    }

    /** A pending report of the source is due behind the window. */
    lemma Due()
      requires Valid() && err in {Some(EOF), Some(Fault)}
      ensures err == Some(EndOf(Tape())) && Tape().now == buf[r..w]
    {
    }

    /** Looks at the next n bytes without consuming any; a report behind them is given, and forgotten. */
    method Peek(n: int) returns (p: seq<byte>, e: Option<Err>)
      requires Valid()
      modifies this, buf, rd
      ensures Valid() && (old(troubled) ==> troubled)
      ensures n < 0 ==> p == [] && e == Some(NegativeCount)
      ensures n > buf.Length ==> p == [] && e == Some(BufferFull)
      ensures 0 <= n <= buf.Length ==>
        && p <= old(Tape()).now && |p| <= n
        && (e == None <==> |p| == n)
        && (!troubled && e != None ==> e == Some(EndOf(old(Tape()))) && p == old(Tape()).now)
      ensures Tape() == if e == Some(Fault) then Forgotten(old(Tape())) else old(Tape())
    {
      hide Tape, TapeWith, Took;
      if n < 0 { return [], Some(NegativeCount); }
      if n > buf.Length { return [], Some(BufferFull); }
      if err in {Some(EOF), Some(Fault)} { Due(); }
      while w - r < n && err == None
        invariant Valid() && Tape() == old(Tape()) && (old(troubled) ==> troubled)
        invariant err in {Some(EOF), Some(Fault)} ==> err == Some(EndOf(Tape())) && Tape().now == buf[r..w]
        decreases buf.Length - (w - r), err == None
      {
        Fill();
      }
      var m := Min(w - r, n);
      e := None;
      p := buf[r..r + m];
      WindowIsPrefix(m);
      if m < n {
        e := ReadErr();
        if e == None { e := Some(BufferFull); }
      }
    }

    /** A large read with an empty buffer goes straight into p. */
    method ReadDirect(p: array<byte>, lo: nat) returns (n: nat, e: Option<Err>)
      requires Valid() && p != buf && lo < p.Length && r == w && err == None
      modifies this, rd, p
      ensures Valid() && (old(troubled) ==> troubled) && r == w
      ensures n <= p.Length - lo && p[..lo] == old(p[..lo])
      ensures Took(old(Tape()), p[lo..lo + n], e, Tape())
      ensures e in {None, Some(EOF), Some(Fault)}
      ensures e == Some(Fault) && n > 0 ==> troubled
      ensures n == 0 && e == None ==> rd.idle == old(rd.idle) + 1
      ensures n > 0 ==> lastByte == p[lo + n - 1] as int
      ensures n == 0 ==> lastByte == old(lastByte)
    {
      NothingHeld();
      n, err := rd.Read(p, lo);
      e := err;
      troubled := troubled || (err == Some(Fault) && n > 0);
      if n > 0 {
        lastByte := p[lo + n - 1] as int;
        lastRuneSize := -1;
      }
      err := None;
      NothingHeld();
    }

    lemma NothingHeld()
      requires r == w <= buf.Length && err != Some(Fault)
      ensures Tape() == rd.Tape()
    {
      assert buf[r..w] == [];
      Units(rd.rest);
    }

    method CopyOut(p: array<byte>, lo: nat, n: nat)
      requires Valid() && p != buf && 0 < n <= w - r && lo + n <= p.Length
      modifies this, p
      ensures Valid() && troubled == old(troubled)
      ensures p[..lo] == old(p[..lo]) && old(Tape()) == Ahead(p[lo..lo + n], Tape())
      ensures r > 0 && lastByte == p[lo + n - 1] as int
    {
      var chunk := Take(n);
      forall k | 0 <= k < n { p[lo + k] := chunk[k]; }
      assert p[lo..lo + n] == chunk;
      lastByte := buf[r - 1] as int;
      lastRuneSize := -1;
    }

    /** Reads into p[lo..]. */
    method Read(p: array<byte>, lo: nat) returns (n: nat, e: Option<Err>)
      requires Valid() && p != buf && lo <= p.Length
      modifies this, buf, rd, p
      ensures Valid() && (old(troubled) ==> troubled)
      ensures n <= p.Length - lo && p[..lo] == old(p[..lo])
      ensures lo < p.Length ==> Took(old(Tape()), p[lo..lo + n], e, Tape())
      ensures lo == p.Length ==> Tape() == if e == Some(Fault) then Forgotten(old(Tape())) else old(Tape())
      ensures e in {None, Some(EOF), Some(Fault)} || troubled
      ensures lo < p.Length && n > 0 && e == Some(Fault) ==> troubled
      ensures lo < p.Length && n == 0 && e == None ==> rd.idle == old(rd.idle) + 1
      ensures n > 0 ==> lastByte == p[lo + n - 1] as int && (r > 0 || w == 0)
      ensures n == 0 ==> lastByte == old(lastByte)
    {
      hide Tape, TapeWith, Forgotten, Took;
      n := p.Length - lo;
      if n == 0 {
        e := ReadErr();
        return 0, e;
      }
      assert p[lo..lo] == [];
      if r == w {
        if err != None {
          e := ReadErr();
          return 0, e;
        }
        if p.Length - lo >= buf.Length {
          n, e := ReadDirect(p, lo);
          return;
        }
        Fill();
        if w == r {
          e := ReadErr();
          return 0, e;
        }
      }
      n := Min(n, w - r);
      CopyOut(p, lo, n);
      JustTook(old(Tape()), p[lo..lo + n], Tape());
      return n, None;
    }

    static lemma JustTook(t: Tape, x: seq<byte>, t': Tape)
      requires t == Ahead(x, t')
      ensures Took(t, x, None, t') && Took(t, x, Some(BufferFull), t')
    {
    }

    method ReadByte() returns (c: byte, e: Option<Err>)
      requires Valid()
      modifies this, buf, rd
      ensures Valid() && (old(troubled) ==> troubled)
      ensures e == None ==> old(Tape()) == Ahead([c], Tape()) && lastByte == c as int && r > 0
      ensures e != None ==> Took(old(Tape()), [], e, Tape()) && (troubled || e in {Some(EOF), Some(Fault)})
    {
      hide Tape, TapeWith, Forgotten, Took;
      lastRuneSize := -1;
      while r == w
        invariant Valid() && Tape() == old(Tape()) && (old(troubled) ==> troubled)
        decreases buf.Length - (w - r), err == None
      {
        if err != None {
          e := ReadErr();
          return 0, e;
        }
        Fill();
      }
      var next := Take(1);
      c := next[0];
      lastByte := c as int;
      return c, None;
    }

    method UnreadByte() returns (e: Option<Err>)
      requires Valid()
      modifies this, buf
      ensures Valid() && troubled == old(troubled)
      ensures e == None <==> old(lastByte) >= 0 && (old(r) > 0 || old(w) == 0)
      ensures e == None ==> Tape() == Ahead([old(lastByte) as byte], old(Tape())) && lastByte == -1
      ensures e != None ==> e == Some(InvalidUnreadByte) && Tape() == old(Tape())
    {
      if lastByte < 0 || (r == 0 && w > 0) {
        return Some(InvalidUnreadByte);
      }
      ghost var window := buf[r..w];
      if r > 0 {
        r := r - 1;
      } else {
        w := 1;
      }
      buf[r] := lastByte as byte;
      assert buf[r..w] == [lastByte as byte] + window;
      Assoc([lastByte as byte], window, rd.rest);
      lastByte := -1;
      lastRuneSize := -1;
      return None;
    }

    function Buffered(): int reads this { w - r }

    /** b.buf[b.r : b.r+n], then b.r += n. */
    method Take(n: nat) returns (p: seq<byte>)
      requires Valid() && n <= w - r
      modifies `r
      ensures Valid() && r == old(r) + n
      ensures |p| == n && (n > 0 ==> p[n - 1] == buf[r - 1]) && p == old(buf[r..r + n])
      ensures old(Tape()) == Ahead(p, Tape())
    {
      p := buf[r..r + n];
      assert buf[r..w] == p + buf[r + n..w];
      Assoc(p, buf[r + n..w], rd.rest);
      r := r + n;
    }

    /** Search the buffer: consume through the first `delim`, if there is one. */
    method TakeThrough(delim: byte) returns (found: bool, line: seq<byte>)
      requires Valid()
      modifies `r
      ensures Valid()
      ensures !found ==> line == [] && r == old(r) && UpTo(buf[r..w], delim) && !Ends(buf[r..w], delim)
      ensures found ==>
        && old(Tape()) == Ahead(line, Tape()) && r >= |line| && 0 < |line| <= buf.Length && buf[r - 1] == line[|line| - 1]
        && UpTo(line, delim) && Ends(line, delim)
    {
      hide Tape, TapeWith, IndexOf, UpTo, Ends;
      var window := buf[r..w];
      FirstFound(window, delim);
      var i := IndexOf(window, delim);
      found, line := i >= 0, [];
      if found {
        Reslice(r, w, i + 1);
        line := Take(i + 1);
      }
    }

    lemma Reslice(lo: nat, hi: nat, n: nat)
      requires lo + n <= hi <= buf.Length
      ensures buf[lo..hi][..n] == buf[lo..lo + n]
    {
    }

    /** The whole window, and the error behind it. */
    method TakeRest() returns (p: seq<byte>, e: Option<Err>)
      requires Valid() && err != None
      modifies `r, `err
      ensures Valid() && p == old(buf[r..w]) && r == w == old(w) && |p| == old(w - r)
      ensures Took(old(Tape()), p, e, Tape()) && e == old(err)
    {
      hide Tape, TapeWith, Forgotten, Took;
      ghost var t := Tape();
      p := Take(w - r);
      ghost var mid := Tape();
      e := ReadErr();
      TookEnd(t, p, mid, e, Tape());
    }

    static lemma TookEnd(t: Tape, x: seq<byte>, mid: Tape, e: Option<Err>, t': Tape)
      requires t == Ahead(x, mid) && Took(mid, [], e, t')
      ensures Took(t, x, e, t')
    {
      TookAfter(t, x, mid, [], e, t');
      Units(x);
    }

    lemma WindowEnds(lo: nat, p: seq<byte>)
      requires lo <= r == w <= buf.Length && p == buf[lo..w]
      ensures r >= |p| && (p != [] ==> r > 0 && buf[r - 1] == p[|p| - 1])
    {
    }

    /** The loop of ReadSlice. */
    method Search(delim: byte) returns (line: seq<byte>, e: Option<Err>)
      requires Valid()
      modifies this, buf, rd
      ensures Valid() && (old(troubled) ==> troubled) && lastByte == old(lastByte)
      ensures Took(old(Tape()), line, e, Tape()) && |line| <= buf.Length
      ensures UpTo(line, delim) && (e == None <==> Ends(line, delim))
      ensures e == Some(BufferFull) ==> |line| == buf.Length
      ensures e in {None, Some(BufferFull), Some(EOF), Some(Fault)} || troubled
      ensures line != [] ==> r >= |line| && buf[r - 1] == line[|line| - 1]
    {
      hide Tape, TapeWith, UpTo, Ends, Took, Forgotten;
      while true
        invariant Valid() && Tape() == old(Tape()) && (old(troubled) ==> troubled)
        invariant lastByte == old(lastByte)
        decreases buf.Length - (w - r), err == None
      {
        var found;
        found, line := TakeThrough(delim);
        if found {
          JustTook(old(Tape()), line, Tape());
          return line, None;
        }
        if err != None {
          ghost var lo := r;
          line, e := TakeRest();
          WindowEnds(lo, line);
          return;
        }
        if Buffered() >= buf.Length {
          line := Take(w - r);
          JustTook(old(Tape()), line, Tape());
          return line, Some(BufferFull);
        }
        Fill();
      }
    }

    /** Up to and including `delim`; what is left before an error; or a full buffer without it. */
    method ReadSlice(delim: byte) returns (line: seq<byte>, e: Option<Err>)
      requires Valid()
      modifies this, buf, rd
      ensures Valid() && (old(troubled) ==> troubled)
      ensures Took(old(Tape()), line, e, Tape()) && |line| <= buf.Length
      ensures UpTo(line, delim) && (e == None <==> Ends(line, delim))
      ensures e == Some(BufferFull) ==> |line| == buf.Length
      ensures e in {None, Some(BufferFull), Some(EOF), Some(Fault)} || troubled
      ensures line != [] ==> r >= |line| && buf[r - 1] == line[|line| - 1] && lastByte == line[|line| - 1] as int
      ensures line == [] ==> lastByte == old(lastByte)
    {
      hide Tape, TapeWith, UpTo, Ends, Took;
      line, e := Search(delim);
      var i := |line| - 1;
      if i >= 0 {
        lastByte := line[i] as int;
      }
    }

    /** Exactly n bytes; what is left before an error; or a full buffer when n exceeds its size. */
    method ReadN(n: nat) returns (p: seq<byte>, e: Option<Err>)
      requires Valid()
      modifies this, buf, rd
      ensures Valid() && (old(troubled) ==> troubled)
      ensures Took(old(Tape()), p, e, Tape()) && |p| <= n
      ensures e == None <==> |p| == n
      ensures e == Some(BufferFull) ==> |p| == buf.Length
      ensures e in {None, Some(BufferFull), Some(EOF), Some(Fault)} || troubled
      ensures lastByte == old(lastByte)
    {
      hide Tape, TapeWith, Took, Forgotten;
      while Buffered() < n
        invariant Valid() && Tape() == old(Tape()) && (old(troubled) ==> troubled)
        invariant lastByte == old(lastByte)
        decreases buf.Length - (w - r), err == None
      {
        if err != None {
          p, e := TakeRest();
          return;
        }
        if Buffered() >= buf.Length {
          p := Take(w - r);
          JustTook(old(Tape()), p, Tape());
          return p, Some(BufferFull);
        }
        Fill();
      }
      p := Take(n);
      JustTook(old(Tape()), p, Tape());
      e := None;
    }

    /** After a full buffer that ends in CR: put the CR back for the next call. */
    method PutBackCR(line: seq<byte>) returns (kept: seq<byte>)
      requires Valid() && line != [] && r > 0 && buf[r - 1] == line[|line| - 1]
      modifies `r
      ensures Valid()
      ensures line[|line| - 1] == CR ==> kept == line[..|line| - 1] && r == old(r) - 1 && Tape() == Ahead([CR], old(Tape()))
      ensures line[|line| - 1] != CR ==> kept == line && r == old(r) && Tape() == old(Tape())
    {
      kept := line;
      if line[|line| - 1] == CR {
        assert buf[r - 1..w] == [CR] + buf[r..w];
        Assoc([CR], buf[r..w], rd.rest);
        r := r - 1;
        kept := line[..|line| - 1];
      }
    }

    /** A report in the middle of a line is swallowed: what arrived before it is returned as a line. */
    method ReadLine() returns (line: seq<byte>, isPrefix: bool, e: Option<Err>)
      requires Valid()
      modifies this, buf, rd
      ensures Valid() && (old(troubled) ==> troubled)
      ensures !troubled ==> IsLineTaken(old(Tape()), buf.Length, line, isPrefix, e, Tape())
      ensures Size(Tape()) <= Size(old(Tape())) && (e == None ==> Size(Tape()) < Size(old(Tape())))
      ensures e != None ==> line == [] && !isPrefix && Took(old(Tape()), [], e, Tape())
      ensures e in {None, Some(EOF), Some(Fault)} || troubled
      ensures e == None ==> r > 0
      ensures isPrefix ==> |line| in {buf.Length, buf.Length - 1} && old(Tape()) == Ahead(line, Tape())
      ensures isPrefix ==> lastByte == if |line| < buf.Length then CR as int else line[|line| - 1] as int
      ensures !troubled && e == None && !isPrefix ==>
        lastByte == if NL in old(Tape()).now then NL as int else line[|line| - 1] as int
    {
      hide Tape, TapeWith, NextLine, TrimEol, Took;
      ghost var t := Tape();
      line, e := ReadSlice(NL);
      TookFlat(t, line, e, Tape());
      isPrefix := e == Some(BufferFull);
      if isPrefix {
        ghost var whole, t' := line, Tape();
        line := PutBackCR(line);
        FullBuffer(t, whole, t', buf.Length);
        e := None;
        return;
      }
      if |line| == 0 {
        if !troubled { NothingLeft(t, e, Tape(), buf.Length); }
        return;
      }
      if !troubled { LineShape(t, line, e, Tape(), buf.Length); }
      e := None;
      line := TrimEol(line);
    }

    static ghost predicate IsLineTaken(t: Tape, cap: nat, line: seq<byte>, isPrefix: bool, e: Option<Err>, t': Tape)
      requires cap >= MIN_BUFFER
    {
      LineTaken(t, cap, true, line, isPrefix, e, t') || LineTaken(t, cap, false, line, isPrefix, e, t')
    }

    static lemma NothingLeft(t: Tape, e: Option<Err>, t': Tape, cap: nat)
      requires cap >= MIN_BUFFER && e in {Some(EOF), Some(Fault)} && Took(t, [], e, t')
      ensures LineTaken(t, cap, true, [], false, e, t')
    {
    }

    static lemma FullBuffer(t: Tape, line: seq<byte>, t': Tape, cap: nat)
      requires cap >= MIN_BUFFER && |line| == cap && Took(t, line, Some(BufferFull), t')
      requires UpTo(line, NL) && !Ends(line, NL)
      ensures line[cap - 1] != CR ==> LineTaken(t, cap, false, line, true, None, t') && t == Ahead(line, t') && Size(t') < Size(t)
      ensures line[cap - 1] == CR ==>
        var text, back := line[..cap - 1], Ahead([CR], t');
        LineTaken(t, cap, false, text, true, None, back) && t == Ahead(text, back) && Size(back) < Size(t)
    {
      var s := t.now;
      assert s[..cap] == line && s[..cap - 1] == line[..cap - 1] && s[cap..] == t'.now;
      assert s[cap - 1..] == [s[cap - 1]] + s[cap..];
      assert IndexOf(s, NL) >= cap || IndexOf(s, NL) == -1;
    }

    static lemma LineShape(t: Tape, line: seq<byte>, e: Option<Err>, t': Tape, cap: nat)
      requires cap >= MIN_BUFFER && 0 < |line| <= cap && Took(t, line, e, t') && e in {None, Some(EOF), Some(Fault)}
      requires UpTo(line, NL) && (e == None <==> Ends(line, NL))
      ensures LineTaken(t, cap, true, TrimEol(line), false, None, t')
      ensures NL in t.now <==> Ends(line, NL)
      ensures !Ends(line, NL) ==> TrimEol(line) == line
    {
      var s := t.now;
      if Ends(line, NL) {
        assert s[|line|..] == t'.now && s[..|line|] == line;
        IndexOfUnique(s, NL, |line| - 1);
        assert s[|line| - 1] in s;
      } else {
        assert NL !in s;
        assert s == line;
      }
    }

    /** The loop of ReadBytes: full buffers, then the last fragment. */
    method Collect(delim: byte) returns (full: seq<seq<byte>>, frag: seq<byte>, e: Option<Err>)
      requires Valid()
      modifies this, buf, rd
      ensures Valid() && (old(troubled) ==> troubled)
      ensures Took(old(Tape()), Flatten(full) + frag, e, Tape())
      ensures e == None <==> Ends(Flatten(full) + frag, delim)
      ensures !troubled ==> Flatten(full) + frag == Through(old(Tape()).now, delim) && e in {None, Some(EOF), Some(Fault)}
    {
      hide Tape, TapeWith, Through, UpTo, Ends, Flatten, Took;
      ghost var t := Tape();
      ghost var done: seq<byte> := [];
      EmptyUpTo(delim);
      NothingTaken(t);
      full := [];
      assert Flatten(full) == [] by { FlattenNone(); }
      while true
        invariant Valid() && (old(troubled) ==> troubled)
        invariant t == Ahead(done, Tape()) && done == Flatten(full)
        invariant UpTo(done, delim) && !Ends(done, delim)
        decreases |Tape().now|
      {
        ghost var mid := Tape();
        frag, e := ReadSlice(delim);
        TookAfter(t, done, mid, frag, e, Tape());
        JoinUpTo(done, frag, delim);
        if e != Some(BufferFull) {
          if !troubled { ThroughShape(t, done + frag, e, Tape(), delim); }
          return;
        }
        FlattenSnoc(full, frag);
        Shorter(mid, frag, Tape());
        full := full + [frag];
        done := done + frag;
        OnlyAhead(t, done, Tape());
      }
    }

    static lemma OnlyAhead(t: Tape, x: seq<byte>, t': Tape)
      requires Took(t, x, Some(BufferFull), t')
      ensures t == Ahead(x, t')
    {
    }

    static lemma Shorter(t: Tape, x: seq<byte>, t': Tape)
      requires Took(t, x, Some(BufferFull), t') && x != []
      ensures |t'.now| < |t.now|
    {
    }

    static lemma NothingTaken(t: Tape)
      ensures t == Ahead([], t)
    {
    }

    static lemma FlattenNone() ensures Flatten([]) == [] {}

    /** Stitches full buffers together: the result does not depend on chunks or buffer size. */
    method ReadBytes(delim: byte) returns (line: seq<byte>, e: Option<Err>)
      requires Valid()
      modifies this, buf, rd
      ensures Valid() && (old(troubled) ==> troubled)
      ensures Took(old(Tape()), line, e, Tape())
      ensures e == None <==> Ends(line, delim)
      ensures !troubled ==> line == Through(old(Tape()).now, delim) && e in {None, Some(EOF), Some(Fault)}
    {
      hide Tape, TapeWith, Through, Ends, Took;
      var full, frag;
      full, frag, e := Collect(delim);
      line := Join(full);
      line := line + frag;
    }

    static method Join(full: seq<seq<byte>>) returns (line: seq<byte>)
      ensures line == Flatten(full)
    {
      line := [];
      for i := 0 to |full|
        invariant line == Flatten(full[..i])
      {
        FlattenSnoc(full[..i], full[i]);
        assert full[..i + 1] == full[..i] + [full[i]];
        line := line + full[i];
      }
      assert full[..|full|] == full;
    }

    static lemma EmptyUpTo(delim: byte)
      ensures UpTo([], delim) && !Ends([], delim)
    {
    }

    static lemma JoinUpTo(done: seq<byte>, frag: seq<byte>, delim: byte)
      requires UpTo(done, delim) && !Ends(done, delim) && UpTo(frag, delim)
      ensures UpTo(done + frag, delim) && (Ends(done + frag, delim) <==> Ends(frag, delim))
    {
    }

    static lemma ThroughShape(t: Tape, line: seq<byte>, e: Option<Err>, t': Tape, delim: byte)
      requires Took(t, line, e, t') && e in {None, Some(EOF), Some(Fault)}
      requires UpTo(line, delim) && (e == None <==> Ends(line, delim))
      ensures Through(t.now, delim) == line
    {
      if Ends(line, delim) {
        IndexOfUnique(t.now, delim, |line| - 1);
      } else {
        assert t.now == line;
      }
    }
  }
}
