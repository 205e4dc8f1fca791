/** bufio.Writer over a sink that may write short, fail, and fail after writing everything. */
module BufferedWriter {
  import opened Bytes

  datatype Err = ShortWrite | SinkError

  /** The io.Writer underneath. It takes a prefix of what it is given; it may stop short without an
      error as long as it takes something. */
  class Sink {
    var delivered: seq<byte>
    ghost var attempts: nat

    constructor ()
      ensures delivered == []
    {
      delivered, attempts := [], 0;
    }

    method Write(p: seq<byte>) returns (n: nat, err: Option<Err>)
      modifies this
      ensures n <= |p| && delivered == old(delivered) + p[..n] && attempts == old(attempts) + 1
      ensures err in {None, Some(SinkError)}
      ensures p != [] && err == None ==> n > 0
    {
      n :| 0 <= n <= |p|;
      err :| err in {None, Some(SinkError)};
      if n == 0 && p != [] {
        err := Some(SinkError);
      }
      delivered := delivered + p[..n];
      attempts := attempts + 1;
    }
  }

  class Writer {
    var err: Option<Err>
    const buf: array<byte>
    var n: nat
    const wr: Sink

    ghost predicate Valid()
      reads this
    {
      n <= buf.Length && buf.Length > 0
    }

    /** Everything accepted: what the sink has, then what is still buffered. */
    ghost function Accepted(): seq<byte>
      requires n <= buf.Length
      reads this, buf, wr
    {
      wr.delivered + buf[..n]
    }

    constructor (wr: Sink, size: int)
      ensures Valid() && fresh(buf) && this.wr == wr && err == None && n == 0
      ensures buf.Length == if size <= 0 then 4096 else size
      ensures Accepted() == wr.delivered
    {
      buf := new byte[if size <= 0 then 4096 else size];
      this.wr, err, n := wr, None, 0;
    }

    function Available(): int reads this { buf.Length - n }

    /** After the first error the sink is never called again. */
    twostate predicate Silent()
      reads this, wr
    {
      old(err) != None ==> err == old(err) && wr.attempts == old(wr.attempts) && wr.delivered == old(wr.delivered)
    }

    method Flush() returns (e: Option<Err>)
      requires Valid()
      modifies this, buf, wr
      ensures Valid() && e == err && Silent()
      ensures Accepted() == old(Accepted())
      ensures err == None ==> n == 0 && wr.delivered == old(Accepted())
    {
      if err != None {
        return err;
      }
      if n == 0 {
        return None;
      }
      ghost var whole, before := buf[..n], wr.delivered;
      var k;
      k, e := wr.Write(buf[..n]);
      if k < n && e == None {
        e := Some(ShortWrite);
      }
      Glue(before, whole, k);
      if e != None {
        if k > 0 && k < n {
          forall j | 0 <= j < n - k { buf[j] := buf[k + j]; }
        }
        assert buf[..n - k] == whole[k..];
        n := n - k;
        err := e;
        return;
      }
      n := 0;
    }

    /** copy(b.buf[b.n:], p): as much of p as there is room for. */
    method Append(p: seq<byte>) returns (k: nat)
      requires Valid()
      modifies `n, buf
      ensures Valid() && k == Min(|p|, old(Available())) && n == old(n) + k
      ensures Accepted() == old(Accepted()) + p[..k]
    {
      k := Min(|p|, Available());
      ghost var held := buf[..n];
      forall j | 0 <= j < k { buf[n + j] := p[j]; }
      assert buf[..n + k] == held + p[..k];
      Assoc(wr.delivered, held, p[..k]);
      n := n + k;
    }

    /** Buffers p, flushing as the buffer fills; with an empty buffer a large p goes straight to the
        sink. nn bytes of p were accepted. */
    method Write(p: seq<byte>) returns (nn: nat, e: Option<Err>)
      requires Valid()
      modifies this, buf, wr
      ensures Valid() && e == err && Silent()
      ensures nn <= |p| && Accepted() == old(Accepted()) + p[..nn]
      ensures e == None ==> nn == |p|
    {
      nn := 0;
      var left := p;
      assert Accepted() == old(Accepted()) + p[..0];
      while |left| > Available() && err == None
        invariant Valid() && Silent()
        invariant nn <= |p| && left == p[nn..] && Accepted() == old(Accepted()) + p[..nn]
        decreases |left|, err == None, n
      {
        var k := SpillOnce(left);
        Prefixes(old(Accepted()), p, nn, k);
        nn := nn + k;
        left := left[k..];
      }
      if err != None {
        return nn, err;
      }
      var k := Append(left);
      Prefixes(old(Accepted()), p, nn, k);
      nn := nn + k;
      e := None;
    }

    /** One turn of Write's loop. */
    method SpillOnce(left: seq<byte>) returns (k: nat)
      requires Valid() && err == None && |left| > Available()
      modifies this, buf, wr
      ensures Valid() && k <= |left| && Accepted() == old(Accepted()) + left[..k]
      ensures err == None ==> k > 0 || n < old(n)
    {
      if n == 0 {
        ghost var before := wr.delivered;
        k, err := wr.Write(left);
        assert Accepted() == before + left[..k];
      } else {
        k := Append(left);
        var _ := Flush();
      }
    }

    method WriteByte(c: byte) returns (e: Option<Err>)
      requires Valid()
      modifies this, buf, wr
      ensures Valid() && e == err && Silent()
      ensures Accepted() == old(Accepted()) + if e == None then [c] else []
    {
      if err != None {
        return err;
      }
      if Available() <= 0 {
        var _ := Flush();
        if err != None { return err; }
      }
      ghost var held := buf[..n];
      buf[n] := c;
      assert buf[..n + 1] == held + [c];
      Assoc(wr.delivered, held, [c]);
      n := n + 1;
      e := None;
    }

    /** Like Write, but always through the buffer. */
    method WriteString(s: seq<byte>) returns (nn: nat, e: Option<Err>)
      requires Valid()
      modifies this, buf, wr
      ensures Valid() && e == err && Silent()
      ensures nn <= |s| && Accepted() == old(Accepted()) + s[..nn]
      ensures e == None ==> nn == |s|
    {
      nn := 0;
      var left := s;
      assert Accepted() == old(Accepted()) + s[..0];
      while |left| > Available() && err == None
        invariant Valid() && Silent()
        invariant nn <= |s| && left == s[nn..] && Accepted() == old(Accepted()) + s[..nn]
        decreases |left|, err == None, n
      {
        var k := Append(left);
        var _ := Flush();
        Prefixes(old(Accepted()), s, nn, k);
        nn := nn + k;
        left := left[k..];
      }
      if err != None {
        return nn, err;
      }
      var k := Append(left);
      Prefixes(old(Accepted()), s, nn, k);
      nn := nn + k;
      e := None;
    }

    static lemma Prefixes(before: seq<byte>, p: seq<byte>, i: nat, k: nat)
      requires i + k <= |p|
      ensures before + p[..i] + p[i..][..k] == before + p[..i + k]
      ensures p[i..][k..] == p[i + k..]
    {
    }
  }
}
