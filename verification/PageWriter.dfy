/** PageWriter: a write buffer that only lets whole pages out by itself. */
module PageWriters {
  import opened Bytes
  import opened ModArith

  const DEFAULT_BUFFER_BYTES: nat := 128 * 1024
  const DEFAULT_PAGE_BYTES: nat := 4096

  /** The distance to the next page boundary; none on a boundary. */
  function ToBoundary(off: nat, page: nat): (d: nat)
    requires page > 0
  {
    if off % page == 0 then 0 else page - off % page
  }

  lemma {:induction false} OnBoundary(off: nat, page: nat)
    requires page > 0
    ensures ToBoundary(off, page) <= page - 1 && (off + ToBoundary(off, page)) % page == 0
  {
    RoundUp(off, page);
  }

  /** Less than the distance does not reach the boundary. */
  lemma {:induction false} ShortOfBoundary(off: nat, n: nat, page: nat)
    requires page > 0 && n < ToBoundary(off, page)
    ensures n + ToBoundary(off + n, page) == ToBoundary(off, page)
  {
    assert off == off / page * page + off % page;
    ModUnique(off + n, page, off / page, off % page + n);
  }

  lemma {:induction false} WithinPage(off: nat, n: nat, page: nat)
    requires page > 0 && off % page == 0 && n <= page
    ensures n + ToBoundary(off + n, page) <= page
  {
    assert off == off / page * page;
    if n < page {
      ModUnique(off + n, page, off / page, n);
    } else {
      assert off + n == (off / page + 1) * page;
      ModOfMultiple(off / page + 1, page);
    }
  }

  class PageWriter {
    var buf: array<byte>
    var bufferedBytes: nat
    var pageOffset: nat
    const pageBytes: nat
    const bufWatermarkBytes: nat
    /** Where the file stood when writing began. */
    ghost const start: nat
    /** The bytes the underlying writer has received. */
    var sink: bytes
    /** The length of the sink after each write to it. */
    ghost var ends: seq<nat>

    ghost predicate Valid()
      reads this, buf
    {
      && pageBytes > 0 && bufWatermarkBytes > 0
      && buf.Length == bufWatermarkBytes + pageBytes
      && Fits(bufferedBytes, pageOffset, pageBytes, bufWatermarkBytes)
      && pageOffset % pageBytes == (start + |sink|) % pageBytes
      && |sink| == (if ends == [] then 0 else ends[|ends| - 1])
    }

    /** The buffer has space up to the next page boundary. */
    static ghost predicate Fits(buffered: nat, pageOffset: nat, page: nat, watermark: nat) {
      page > 0 && buffered + ToBoundary(pageOffset + buffered, page) <= watermark + page
    }

    /** Everything written so far. */
    ghost function Contents(): bytes
      reads this, buf
    {
      sink + if bufferedBytes <= buf.Length then buf[..bufferedBytes] else []
    }

    constructor (pageBytes: int, pageOffset: nat, bufferSize: int)
      ensures Valid() && Contents() == [] && sink == [] && ends == [] && start == pageOffset && fresh(buf)
      ensures this.pageBytes == if pageBytes <= 0 then DEFAULT_PAGE_BYTES else pageBytes
    {
      var page: nat := if pageBytes <= 0 then DEFAULT_PAGE_BYTES else pageBytes;
      var size: nat := if bufferSize <= 0 then DEFAULT_BUFFER_BYTES else bufferSize;
      this.pageBytes, this.bufWatermarkBytes, this.pageOffset := page, size, pageOffset;
      buf := new byte[size + page];
      bufferedBytes, sink, ends, start := 0, [], [], pageOffset;
      new;
      OnBoundary(pageOffset, page);
    }

    /** Flush hands the buffer to the underlying writer. */
    method Flush()
      requires Valid()
      modifies this
      ensures Valid() && buf == old(buf) && bufferedBytes == 0 && sink == Contents() == old(Contents())
      ensures ends == if old(bufferedBytes) == 0 then old(ends) else old(ends) + [|sink|]
    {
      hide ToBoundary;
      FitsBuffer();
      if bufferedBytes == 0 {
        return;
      }
      sink := sink + buf[..bufferedBytes];
      ends := ends + [|sink|];
      Moved(pageOffset, start + |old(sink)|, bufferedBytes, pageBytes);
      pageOffset := (pageOffset + bufferedBytes) % pageBytes;
      bufferedBytes := 0;
      OnBoundary(pageOffset, pageBytes);
    }

    lemma {:induction false} FitsBuffer()
      requires Valid()
      ensures bufferedBytes <= buf.Length
    {
    }

    /** copy(buf[bufferedBytes:], p), for a piece that fits. */
    method Buffer(p: bytes)
      requires Valid() && bufferedBytes + |p| <= buf.Length
      requires Fits(bufferedBytes + |p|, pageOffset, pageBytes, bufWatermarkBytes)
      modifies this`bufferedBytes, buf
      ensures Valid() && Contents() == old(Contents()) + p && bufferedBytes == old(bufferedBytes) + |p|
    {
      hide ToBoundary;
      var base := bufferedBytes;
      forall i | 0 <= i < |p| {
        buf[base + i] := p[i];
      }
      bufferedBytes := base + |p|;
      assert buf[..bufferedBytes] == old(buf[..base]) + p;
    }

    /** The part of Write that fills up the current page; done says that all data went into it. */
    method FillPage(p: bytes) returns (n: nat, done: bool)
      requires Valid()
      modifies this`bufferedBytes, buf
      ensures Valid() && n <= |p| && Contents() == old(Contents()) + p[..n]
      ensures done ==> n == |p|
      ensures !done ==> (pageOffset + bufferedBytes) % pageBytes == 0
    {
      hide PageWriter.Valid;
      Facts();
      var slack: int := pageBytes - ((pageOffset + bufferedBytes) % pageBytes);
      OnBoundary(pageOffset + bufferedBytes, pageBytes);
      n, done := 0, false;
      if slack != pageBytes {
        var partial := slack > |p|;
        if partial {
          ShortOfBoundary(pageOffset + bufferedBytes, |p|, pageBytes);
          slack := |p|;
        } else {
          assert ToBoundary(pageOffset + bufferedBytes + slack, pageBytes) == 0;
        }
        n := slack;
        Buffer(p[..n]);
        Facts();
        if partial {
          done := true;
        }
      } else {
        assert p[..0] == [];
      }
    }

    lemma {:induction false} Facts()
      requires Valid()
      ensures pageBytes > 0 && buf.Length == bufWatermarkBytes + pageBytes
      ensures Fits(bufferedBytes, pageOffset, pageBytes, bufWatermarkBytes)
      ensures pageOffset % pageBytes == (start + |sink|) % pageBytes
    {
    }

    /** Whole pages go to the underlying writer without copying. */
    method WriteDirectly(q: bytes)
      requires Valid() && bufferedBytes == 0 && |q| % pageBytes == 0
      modifies this`sink, this`ends
      ensures Valid() && Contents() == old(Contents()) + q && ends == old(ends) + [|sink|]
      ensures sink == old(sink) + q
    {
      hide ToBoundary, PageWriter.Fits;
      PagesMove(start + |sink|, |q|, pageBytes);
      sink := sink + q;
      ends := ends + [|sink|];
    }

    /** The part of Write after the flush: whole pages directly, the tail into the buffer. */
    method WriteTail(p: bytes)
      requires Valid() && bufferedBytes == 0 && pageOffset % pageBytes == 0
      modifies this, buf
      ensures Valid() && buf == old(buf) && Contents() == old(Contents()) + p
      ensures ends == old(ends) || (ends == old(ends) + [|sink|] && (start + |sink|) % pageBytes == 0)
    {
      hide PageWriter.Valid, ToBoundary, PageWriter.Contents, PageWriter.Fits;
      Facts();
      var rest := p;
      if |rest| > pageBytes {
        var pages := |rest| / pageBytes;
        WholePages(|rest|, pageBytes);
        var size := pages * pageBytes;
        PagesMove(start + |sink|, size, pageBytes);
        WriteDirectly(rest[..size]);
        assert rest == rest[..size] + rest[size..];
        rest := rest[size..];
      }
      if |rest| > 0 {
        Facts();
        RoomAtStart(pageOffset, |rest|, pageBytes, bufWatermarkBytes);
        Buffer(rest);
      }
    }

    /** Write: buffers what fits; otherwise fills the page, flushes, writes whole pages directly and
        keeps the rest. Nothing is lost, and whatever reaches the sink ends on a page boundary. */
    method Write(p: bytes) returns (n: nat)
      requires Valid()
      modifies this, buf
      ensures Valid() && buf == old(buf) && Contents() == old(Contents()) + p && n == |p|
      ensures |p| + old(bufferedBytes) <= bufWatermarkBytes ==> sink == old(sink)
      ensures |old(ends)| <= |ends| && ends[..|old(ends)|] == old(ends)
      ensures forall i :: |old(ends)| <= i < |ends| ==> (start + ends[i]) % pageBytes == 0
    {
      hide PageWriter.Valid, ToBoundary, PageWriter.Contents, PageWriter.Fits;
      Facts();
      if |p| + bufferedBytes <= bufWatermarkBytes {
        RoomBelow(|p| + bufferedBytes, pageOffset, pageBytes, bufWatermarkBytes);
        Buffer(p);
        return |p|;
      }
      var done;
      n, done := FillPage(p);
      if done {
        assert p[..n] == p;
        return;
      }
      assert p == p[..n] + p[n..];
      SinkAligned();
      Flush();
      Facts();
      WriteTail(p[n..]);
      n := |p|;
    }

    /** On a page boundary the sink will be on one, too. */
    lemma {:induction false} SinkAligned()
      requires Valid() && (pageOffset + bufferedBytes) % pageBytes == 0
      ensures (start + |Contents()|) % pageBytes == 0
      ensures pageOffset % pageBytes == (start + |sink|) % pageBytes
    {
      hide ToBoundary;
      FitsBuffer();
      Moved(pageOffset, start + |sink|, bufferedBytes, pageBytes);
    }
  }

  lemma {:induction false} PagesMove(a: nat, n: nat, page: nat)
    requires page > 0 && n % page == 0
    ensures (a + n) % page == a % page
  {
    assert n == n / page * page;
    ModPlusMultiple(a, n / page, page);
  }

  lemma {:induction false} RoomBelow(n: nat, pageOffset: nat, page: nat, watermark: nat)
    requires page > 0 && n <= watermark
    ensures PageWriter.Fits(n, pageOffset, page, watermark)
  {
  }

  lemma {:induction false} RoomAtStart(pageOffset: nat, n: nat, page: nat, watermark: nat)
    requires page > 0 && pageOffset % page == 0 && n <= page
    ensures PageWriter.Fits(n, pageOffset, page, watermark)
  {
    WithinPage(pageOffset, n, page);
  }

  /** Both sides of the page offset move on together. */
  lemma {:induction false} Moved(a: nat, b: nat, n: nat, page: nat)
    requires page > 0 && a % page == b % page
    ensures (a + n) % page % page == (b + n) % page
  {
    ModOfSum(a, n, page);
    ModOfSum(b, n, page);
    ModOfSum(a + n, 0, page);
  }

  lemma {:induction false} WholePages(n: nat, page: nat)
    requires page > 0
    ensures 0 <= n / page * page <= n && n - n / page * page < page && n / page * page % page == 0
  {
  }
}
