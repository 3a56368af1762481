/**
 * The producer/consumer pipeline of logs.go, run one step at a time: the
 * bounded channel `logChan`, the non-blocking send of `log`/`logf`, the
 * `writer` loop and the free list standing for `bufPool`.
 */
module Pipeline {
  import opened Bytes
  import opened TimeFormat
  import opened Line

  /** The capacity of `logChan` (`make(chan *logEntry, 1024)`). */
  const QueueCap: nat := 1024

  /** A queued entry. Only `buf` is ever set in the source, so only `buf` is kept. */
  datatype LogEntry = LogEntry(buf: seq<byte>)

  /** The bytes of entries written one after another, in order. */
  function Concat(es: seq<LogEntry>): seq<byte> {
    if es == [] then [] else es[0].buf + Concat(es[1..])
  }

  /** The buffers of entries, in order. */
  function Buffers(es: seq<LogEntry>): (bs: seq<seq<byte>>)
    ensures |bs| == |es| && forall i :: 0 <= i < |es| ==> bs[i] == es[i].buf
  {
    seq(|es|, i requires 0 <= i < |es| => es[i].buf)
  }

  function Min(a: int, b: int): int {
    if a <= b then a else b
  }

  /** The queue after `select { case logChan <- e: default: }`. */
  function Offer(q: seq<LogEntry>, e: LogEntry): (r: seq<LogEntry>)
    ensures |q| <= |r| <= |q| + 1 && r[..|q|] == q
    ensures |q| <= QueueCap ==> |r| <= QueueCap
    ensures e in r[|q|..] <==> |q| < QueueCap
  {
    if |q| < QueueCap then q + [e] else q
  }

  /** The queue after a run of sends with no writer step in between. */
  function OfferAll(q: seq<LogEntry>, es: seq<LogEntry>): (r: seq<LogEntry>)
    ensures |q| <= |r| && r[..|q|] == q
    ensures |q| <= QueueCap ==> |r| <= QueueCap
    decreases |es|
  {
    if es == [] then q else OfferAll(Offer(q, es[0]), es[1..])
  }

  // ---------------------------------------------------------------------------
  // Properties of the specification functions.

  /** Writing `a` and then `b` writes the bytes of `a` and then those of `b`. */
  lemma {:induction false} ConcatAppend(a: seq<LogEntry>, b: seq<LogEntry>)
    ensures Concat(a + b) == Concat(a) + Concat(b)
    decreases |a|
  {
    if a == [] {
      assert a + b == b;
    } else {
      assert (a + b)[1..] == a[1..] + b;
      ConcatAppend(a[1..], b);
    }
  }

  /** The buffers of two runs of entries are those of the first run, then those of the second. */
  lemma BuffersAppend(a: seq<LogEntry>, b: seq<LogEntry>)
    ensures Buffers(a + b) == Buffers(a) + Buffers(b)
  {
  }

  /** One more entry written adds exactly its buffer. */
  lemma ConcatSnoc(a: seq<LogEntry>, e: LogEntry)
    ensures Concat(a + [e]) == Concat(a) + e.buf
  {
    ConcatAppend(a, [e]);
    assert Concat([e]) == e.buf + Concat([]);
  }

  /**
   * Drop-newest: from a queue within capacity, a run of sends keeps the queue
   * and admits exactly the leading entries that fit, in their order; every
   * later one is dropped.
   */
  lemma {:induction false} OfferAllAdmitsPrefix(q: seq<LogEntry>, es: seq<LogEntry>)
    requires |q| <= QueueCap
    ensures OfferAll(q, es) == q + es[..Min(|es|, QueueCap - |q|)]
    decreases |es|
  {
    if es == [] {
    } else if |q| < QueueCap {
      OfferAllAdmitsPrefix(q + [es[0]], es[1..]);
      AdmitOne(q, es);
    } else {
      OfferAllAdmitsPrefix(q, es[1..]);
    }
  }

  /** The inductive step of OfferAllAdmitsPrefix when the first entry fits. */
  lemma AdmitOne(q: seq<LogEntry>, es: seq<LogEntry>)
    requires |q| < QueueCap && es != []
    requires OfferAll(q + [es[0]], es[1..]) == q + [es[0]] + es[1..][..Min(|es| - 1, QueueCap - |q| - 1)]
    ensures OfferAll(q, es) == q + es[..Min(|es|, QueueCap - |q|)]
  {
    var n := Min(|es|, QueueCap - |q|);
    assert Min(|es| - 1, QueueCap - |q| - 1) == n - 1;
    assert Offer(q, es[0]) == q + [es[0]];
    assert OfferAll(q, es) == OfferAll(q + [es[0]], es[1..]);
    TakeStep(q, es, n);
  }

  /** Taking the head and then n - 1 of the tail takes n. */
  lemma TakeStep<T>(q: seq<T>, es: seq<T>, n: nat)
    requires 1 <= n <= |es|
    ensures q + [es[0]] + es[1..][..n - 1] == q + es[..n]
  {
    assert es[..n] == [es[0]] + es[1..][..n - 1];
  }

  /** 2000 sends into an empty queue with no writer keep the first 1024, in order. */
  lemma Overload(es: seq<LogEntry>)
    requires |es| == 2000
    ensures OfferAll([], es) == es[..1024]
  {
    OfferAllAdmitsPrefix([], es);
  }

  // ---------------------------------------------------------------------------
  // The pipeline state.

  /**
   * The process-wide state of logs.go as one object: the channel contents,
   * the bytes written to `out`, the pool's free buffers, and whether
   * `os.Exit` has run. `admitted` (every entry the channel accepted) and
   * `written` (every entry the writer has written) are ghost history.
   */
  class Logger {
    const palette: Palette
    var queue: seq<LogEntry>
    var out: seq<byte>
    var free: seq<seq<byte>>
    var exited: bool
    ghost var admitted: seq<LogEntry>
    ghost var written: seq<LogEntry>

    /**
     * The channel never holds more than its capacity; what it accepted is
     * what was written followed by what is still queued (FIFO, nothing lost
     * or repeated); and `out` is exactly the written entries' bytes.
     */
    ghost predicate Valid()
      reads this
    {
      |queue| <= QueueCap && admitted == written + queue && out == Concat(written)
    }

    /** The state `init` leaves behind: an empty channel, an empty pool, nothing written. */
    constructor (palette: Palette)
      ensures Valid() && this.palette == palette
      ensures queue == [] && out == [] && free == [] && !exited && admitted == []
    {
      this.palette := palette;
      queue, out, free, exited := [], [], [], false;
      admitted, written := [], [];
    }

    /**
     * `bufPool.Get()`: a free buffer is taken if there is one (its old bytes
     * still in it), otherwise `New` makes an empty one.
     */
    method GetBuffer() returns (b: seq<byte>)
      modifies this`free
      ensures old(free) == [] ==> b == [] && free == []
      ensures old(free) != [] ==> b == old(free)[|old(free)| - 1] && free == old(free)[..|old(free)| - 1]
    {
      if free == [] {
        b := [];
      } else {
        b := free[|free| - 1];
        free := free[..|free| - 1];
      }
    }

    /** `bufPool.Put`: the buffer becomes free again, contents and all. */
    method PutBuffer(b: seq<byte>)
      modifies this`free
      ensures free == old(free) + [b]
    {
      free := free + [b];
    }

    /**
     * The non-blocking send: below capacity the entry joins the tail,
     * otherwise it is dropped and the queue is left exactly as it was.
     */
    method TrySend(e: LogEntry) returns (sent: bool)
      requires Valid()
      modifies this`queue, this`admitted
      ensures Valid()
      ensures sent <==> |old(queue)| < QueueCap
      ensures queue == Offer(old(queue), e)
      ensures queue == (if sent then old(queue) + [e] else old(queue))
      ensures admitted == (if sent then old(admitted) + [e] else old(admitted))
    {
      sent := |queue| < QueueCap;
      if sent {
        queue := queue + [e];
        admitted := admitted + [e];
      }
    }

    /**
     * `log`: take a buffer from the pool, build the line in it, offer it to
     * the channel. A dropped line's buffer is not given back to the pool.
     * Nothing is written to `out` by a producer.
     */
    method Log(tag: seq<byte>, color: seq<byte>, msg: seq<byte>, c: Clock)
      requires Valid() && !exited
      modifies this`free, this`queue, this`admitted
      ensures Valid()
      ensures var e := LogEntry(FormatLine(color, tag, msg, palette.reset, ToStamp(c)));
        && queue == Offer(old(queue), e)
        && admitted == (if |old(queue)| < QueueCap then old(admitted) + [e] else old(admitted))
      ensures free == if old(free) == [] then [] else old(free)[..|old(free)| - 1]
    {
      var stale := GetBuffer();
      var line := BuildLine(stale, color, tag, msg, palette.reset, c);
      var _ := TrySend(LogEntry(line));
    }

    /**
     * `logf`: the same steps, with `rendered` standing for the bytes
     * `fmt.Appendf` adds for the format and its arguments.
     */
    method Logf(tag: seq<byte>, color: seq<byte>, rendered: seq<byte>, c: Clock)
      requires Valid() && !exited
      modifies this`free, this`queue, this`admitted
      ensures Valid()
      ensures var e := LogEntry(FormatLine(color, tag, rendered, palette.reset, ToStamp(c)));
        && queue == Offer(old(queue), e)
        && admitted == (if |old(queue)| < QueueCap then old(admitted) + [e] else old(admitted))
      ensures free == if old(free) == [] then [] else old(free)[..|old(free)| - 1]
    {
      Log(tag, color, rendered, c);
    }

    /**
     * The `log` call of the entry points Debug, Info, Warn, Error and Fatal,
     * with the level's tag and colour. Fatal's `os.Exit(0)` is the separate
     * step Exit, so writer steps may run in between.
     */
    method Emit(l: Level, msg: seq<byte>, c: Clock)
      requires Valid() && !exited
      modifies this`free, this`queue, this`admitted
      ensures Valid()
      ensures var e := LogEntry(FormatLine(ColorOf(palette, l), Tag(l), msg, palette.reset, ToStamp(c)));
        && queue == Offer(old(queue), e)
        && admitted == (if |old(queue)| < QueueCap then old(admitted) + [e] else old(admitted))
      ensures free == if old(free) == [] then [] else old(free)[..|old(free)| - 1]
      ensures out == old(out)
    {
      var tag, color := Tag(l), ColorOf(palette, l);
      Log(tag, color, msg, c);
    }

    /** The `logf` call of Debugf, Infof, Warnf, Errorf and Fatalf, as Emit with the rendered message. */
    method Emitf(l: Level, rendered: seq<byte>, c: Clock)
      requires Valid() && !exited
      modifies this`free, this`queue, this`admitted
      ensures Valid()
      ensures var e := LogEntry(FormatLine(ColorOf(palette, l), Tag(l), rendered, palette.reset, ToStamp(c)));
        && queue == Offer(old(queue), e)
        && admitted == (if |old(queue)| < QueueCap then old(admitted) + [e] else old(admitted))
      ensures free == if old(free) == [] then [] else old(free)[..|old(free)| - 1]
      ensures out == old(out)
    {
      var tag, color := Tag(l), ColorOf(palette, l);
      Logf(tag, color, rendered, c);
    }

    /**
     * `os.Exit(0)` after Fatal's or Fatalf's line: the process ends with
     * whatever the writer has written so far; nothing is flushed.
     */
    method Exit()
      requires Valid() && !exited
      modifies this`exited
      ensures Valid() && exited
    {
      exited := true;
    }

    /**
     * One turn of the `writer` loop: the head entry leaves the queue, its
     * buffer is written to `out` once and goes back to the pool. With an
     * empty queue the writer would block; here nothing happens.
     */
    method WriterStep() returns (wrote: bool)
      requires Valid() && !exited
      modifies this`queue, this`out, this`free, this`written
      ensures Valid()
      ensures wrote <==> old(queue) != []
      ensures wrote ==> var e := old(queue)[0];
        && queue == old(queue)[1..]
        && out == old(out) + e.buf
        && free == old(free) + [e.buf]
      ensures !wrote ==> queue == old(queue) && out == old(out) && free == old(free)
    {
      if queue == [] {
        wrote := false;
        return;
      }
      var e := queue[0];
      queue := queue[1..];
      ConcatSnoc(written, e);
      written := written + [e];
      out := out + e.buf;
      PutBuffer(e.buf);
      wrote := true;
    }

    /**
     * The `writer` loop run until the channel is empty: every queued entry
     * is written once, in FIFO order, and its buffer returned to the pool.
     */
    method Drain()
      requires Valid() && !exited
      modifies this`queue, this`out, this`free, this`written
      ensures Valid()
      ensures queue == []
      ensures out == old(out) + Concat(old(queue))
      ensures free == old(free) + Buffers(old(queue))
    {
      ghost var q0 := queue;
      ghost var k := 0;
      while queue != []
        invariant Valid()
        invariant 0 <= k <= |q0| && queue == q0[k..]
        invariant out == old(out) + Concat(q0[..k])
        invariant free == old(free) + Buffers(q0[..k])
        decreases |queue|
      {
        assert q0[..k + 1] == q0[..k] + [q0[k]];
        ConcatSnoc(q0[..k], q0[k]);
        var _ := WriterStep();
        k := k + 1;
      }
      assert q0[..k] == q0;
    }
  }

  /**
   * In every reachable state, what `out` holds followed by what is still
   * queued is every accepted entry's bytes, in the order accepted.
   */
  lemma Accounted(lg: Logger)
    requires lg.Valid()
    ensures lg.out + Concat(lg.queue) == Concat(lg.admitted)
  {
    ConcatAppend(lg.written, lg.queue);
  }

  /**
   * Entries sent while no writer has run yet, then a full drain: the output
   * is exactly the first `QueueCap` of them (all of them if fewer), each
   * once, in the order sent.
   */
  method SendThenDrain(p: Palette, es: seq<LogEntry>) returns (bytesOut: seq<byte>)
    ensures bytesOut == Concat(es[..Min(|es|, QueueCap)])
  {
    var lg := new Logger(p);
    var i := 0;
    while i < |es|
      invariant 0 <= i <= |es|
      invariant lg.Valid() && !lg.exited && lg.out == []
      invariant lg.queue == es[..Min(i, QueueCap)]
    {
      assert es[..i + 1] == es[..i] + [es[i]];
      var _ := lg.TrySend(es[i]);
      i := i + 1;
    }
    lg.Drain();
    bytesOut := lg.out;
  }

  /**
   * `Fatal` on a fresh logger: the line is queued, then the process exits.
   * Whether the line reaches `out` depends on whether the writer takes it
   * before `os.Exit` runs; both outcomes are possible.
   */
  method FatalOutcome(p: Palette, msg: seq<byte>, c: Clock, writerFirst: bool) returns (bytesOut: seq<byte>)
    ensures bytesOut == if writerFirst then FormatLine(p.red, Tag(Fatal), msg, p.reset, ToStamp(c)) else []
  {
    var lg := new Logger(p);
    lg.Emit(Fatal, msg, c);
    if writerFirst {
      var _ := lg.WriterStep();
    }
    lg.Exit();
    bytesOut := lg.out;
  }
}
