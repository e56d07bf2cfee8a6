/**
 * The two bytestream helpers of src/bytestream_helper.c over a stream's
 * buffer: `data` is buf.data[0 .. buf.sz), `eod` the end of the bytes read
 * so far and `pos` the start of the bytes not yet written out.
 *
 * The reader (mrkthr_read_allb) and the writer (mrkthr_write_all) are calls
 * into I/O, so what they deliver is a parameter: the reader's bytes or its
 * error, the writer's return code.  bytestream_grow is foreign too: it
 * either fails or lengthens the buffer by the amount asked for, and the
 * new bytes are taken to be zero.
 */
module Bytes {
  type byte = x: int | 0 <= x < 256

  /** BLOCKSZ: the least amount read_more grows the buffer by. */
  const BLOCKSZ: nat := 4096

  /** What the reader delivers at `eod`: an error (-1), or at most `sz` bytes. */
  datatype ReadResult = ReadError | ReadBytes(bytes: seq<byte>)

  /** What mrkthr_write_all returns: 0 once every byte is out, or a TRRET code. */
  datatype WriteRc = WriteOk | WriteError(code: int)

  /** The stream fields the helpers use. */
  datatype Buf = Buf(data: seq<byte>, eod: nat, pos: nat)

  /** The bytes written out come before the end of data, which lies inside the buffer. */
  predicate BufOk(b: Buf)
  {
    b.pos <= b.eod <= |b.data|
  }

  function Zeros(n: nat): (r: seq<byte>)
    ensures |r| == n
  {
    seq(n, _ => 0)
  }

  /** The amount read_more asks bytestream_grow for, or 0 when it does not call it. */
  function GrowBy(b: Buf, sz: nat): (g: nat)
    ensures b.eod + sz <= |b.data| ==> g == 0
    ensures b.eod + sz > |b.data| ==> g >= BLOCKSZ && g >= b.eod + sz - |b.data|
    ensures b.eod + sz > |b.data| ==> g == BLOCKSZ || g == b.eod + sz - |b.data|
  {
    var need := b.eod + sz - |b.data|;
    if need <= 0 then 0 else if need < BLOCKSZ then BLOCKSZ else need
  }

  /**
   * mrkthr_bytestream_read_more on values: the new state and the return
   * value.  A failed grow gives -1 and changes nothing; otherwise the
   * buffer has room for `sz` more bytes after `eod`, what the reader
   * delivers lands at `eod` and moves it on, and an error gives -1.
   */
  function AfterRead(b: Buf, sz: nat, growFails: bool, input: ReadResult): (r: (Buf, int))
    requires BufOk(b) && (input.ReadBytes? ==> |input.bytes| <= sz)
    ensures BufOk(r.0) && r.0.pos == b.pos
    ensures GrowBy(b, sz) > 0 && growFails ==> r == (b, -1)
    ensures !(GrowBy(b, sz) > 0 && growFails) ==>
      && |r.0.data| == |b.data| + GrowBy(b, sz) && |r.0.data| >= b.eod + sz
      && r.0.data[..b.eod] == b.data[..b.eod]
    ensures !(GrowBy(b, sz) > 0 && growFails) && input.ReadError? ==> r.1 == -1 && r.0.eod == b.eod
    ensures !(GrowBy(b, sz) > 0 && growFails) && input.ReadBytes? ==>
      && r.1 == |input.bytes| && r.0.eod == b.eod + |input.bytes|
      && r.0.data[b.eod..r.0.eod] == input.bytes
  {
    var g := GrowBy(b, sz);
    if g > 0 && growFails then (b, -1)
    else
      var data := b.data + Zeros(g);
      match input
      case ReadError => (b.(data := data), -1)
      case ReadBytes(bs) =>
        var d := data[..b.eod] + bs + data[b.eod + |bs|..];
        assert d[..b.eod] == data[..b.eod] == b.data[..b.eod];
        assert d[b.eod..b.eod + |bs|] == bs;
        (Buf(d, b.eod + |bs|, b.pos), |bs|)
  }

  /** What read_more reads is appended to the bytes read before. */
  lemma ReadAppends(b: Buf, sz: nat, growFails: bool, bs: seq<byte>)
    requires BufOk(b) && |bs| <= sz && !(GrowBy(b, sz) > 0 && growFails)
    ensures AfterRead(b, sz, growFails, ReadBytes(bs)).0.data[..b.eod + |bs|] == b.data[..b.eod] + bs
  {
    var r := AfterRead(b, sz, growFails, ReadBytes(bs)).0;
    assert r.data[..b.eod + |bs|] == r.data[..b.eod] + r.data[b.eod..b.eod + |bs|];
  }

  /** The bytes mrkthr_bytestream_write hands to the writer. */
  function Sent(b: Buf, sz: nat): (r: seq<byte>)
    requires b.pos + sz <= |b.data|
    ensures |r| == sz && forall i :: 0 <= i < sz ==> r[i] == b.data[b.pos + i]
  {
    b.data[b.pos..b.pos + sz]
  }

  /**
   * mrkthr_bytestream_write as written: pos + sz beyond eod gives -1 and
   * no write; otherwise pos moves on by what the writer returns, and that
   * is returned too.  The new pos is a plain integer, since an error code
   * can take it below 0.
   */
  function WroteAsWritten(b: Buf, sz: nat, rc: WriteRc): (r: (int, int))
    ensures b.pos + sz > b.eod ==> r == (b.pos, -1)
    ensures b.pos + sz <= b.eod && rc.WriteOk? ==> r == (b.pos, 0)
  {
    if b.pos + sz > b.eod then (b.pos, -1)
    else
      var nwritten := match rc case WriteOk => 0 case WriteError(code) => code;
      (b.pos + nwritten, nwritten)
  }

  /** Two bytes ready, nothing written out yet. */
  const TwoBytes: Buf := Buf([1, 2], 2, 0)

  /**
   * As written a successful write leaves pos where it was, so the next
   * write of the stream hands the same bytes to the writer again.
   */
  lemma WroteAsWrittenResends()
    ensures WroteAsWritten(TwoBytes, 2, WriteOk) == (0, 0)
    ensures Sent(TwoBytes, 2) + Sent(TwoBytes.(pos := WroteAsWritten(TwoBytes, 2, WriteOk).0), 2) == [1, 2, 1, 2]
  {
    assert Sent(TwoBytes, 2) == [1, 2];
  }

  /**
   * mrkthr_bytestream_write as intended: a successful write moves pos past
   * the `sz` bytes it wrote and returns `sz`; a failed one leaves pos and
   * returns the writer's code.
   */
  function Wrote(b: Buf, sz: nat, rc: WriteRc): (r: (Buf, int))
    requires BufOk(b)
    ensures BufOk(r.0) && r.0.data == b.data && r.0.eod == b.eod
    ensures b.pos + sz > b.eod ==> r == (b, -1)
    ensures b.pos + sz <= b.eod && rc.WriteOk? ==> r.0.pos == b.pos + sz && r.1 == sz
    ensures b.pos + sz <= b.eod && rc.WriteError? ==> r.0 == b && r.1 == rc.code
  {
    if b.pos + sz > b.eod then (b, -1)
    else match rc
      case WriteOk => (b.(pos := b.pos + sz), sz)
      case WriteError(code) => (b, code)
  }

  /** Two successful writes hand the writer consecutive bytes of the stream, each byte once. */
  lemma WritesConsecutive(b: Buf, n1: nat, n2: nat)
    requires BufOk(b) && b.pos + n1 + n2 <= b.eod
    ensures Sent(b, n1) + Sent(Wrote(b, n1, WriteOk).0, n2) == b.data[b.pos..b.pos + n1 + n2]
  {
    var b1 := Wrote(b, n1, WriteOk).0;
    assert b1.pos == b.pos + n1;
    assert b.data[b.pos..b.pos + n1 + n2] == b.data[b.pos..b.pos + n1] + b.data[b.pos + n1..b.pos + n1 + n2];
  }

  /** A bytestream_t, as far as the helpers touch it. */
  class Stream {
    var data: seq<byte>
    var eod: nat
    var pos: nat

    function View(): Buf
      reads this
    {
      Buf(data, eod, pos)
    }

    /** A stream with an `n`-byte buffer and nothing read yet. */
    constructor (n: nat)
      ensures View() == Buf(Zeros(n), 0, 0) && BufOk(View())
    {
      data, eod, pos := Zeros(n), 0, 0;
    }

    /**
     * mrkthr_bytestream_read_more: grow the buffer when `sz` more bytes
     * do not fit after eod, then read at eod; eod moves on by what was
     * read.
     */
    method ReadMore(sz: nat, growFails: bool, input: ReadResult) returns (nread: int)
      requires BufOk(View()) && (input.ReadBytes? ==> |input.bytes| <= sz)
      modifies this
      ensures (View(), nread) == AfterRead(old(View()), sz, growFails, input)
    {
      ghost var b0 := View();
      var need := (eod + sz) - |data|;
      if need > 0 {
        if growFails {
          return -1;
        }
        data := data + Zeros(if need < BLOCKSZ then BLOCKSZ else need);
      }
      assert data == b0.data + Zeros(GrowBy(b0, sz));
      match input {
        case ReadError =>
          nread := -1;
        case ReadBytes(bs) =>
          data := data[..eod] + bs + data[eod + |bs|..];
          eod := eod + |bs|;
          nread := |bs|;
      }
    }

    /**
     * mrkthr_bytestream_write, corrected so that pos moves on by the bytes
     * written (Wrote; the code as written is WroteAsWritten): `sent` is what
     * the writer is given.
     */
    method Write(sz: nat, rc: WriteRc) returns (nwritten: int, sent: seq<byte>)
      requires BufOk(View())
      modifies this
      ensures (View(), nwritten) == Wrote(old(View()), sz, rc)
      ensures old(pos) + sz <= old(eod) ==> sent == Sent(old(View()), sz)
      ensures old(pos) + sz > old(eod) ==> sent == []
    {
      if pos + sz > eod {
        return -1, [];
      }
      sent := data[pos..pos + sz];
      match rc {
        case WriteOk =>
          pos := pos + sz;
          nwritten := sz;
        case WriteError(code) =>
          nwritten := code;
      }
    }
  }
}
