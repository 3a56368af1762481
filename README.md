# logs: an asynchronous console logger, modelled in Dafny

`logs.go` is a small Go logging package. Each call to `Debug`, `Info`, `Warn`,
`Error` or `Fatal` (or one of their `f` variants) does three things. It takes
a byte buffer from a `sync.Pool`. It formats the line
`<colour>[HH:MM:SS.mmm] [LEVEL] <message><reset>\n` into that buffer. Then it
offers the buffer to a channel of capacity 1024 without blocking, and the
entry is silently dropped when the channel is full. A single `writer`
goroutine takes entries off the channel in order, writes each buffer to `out`
and puts it back into the pool.

The model has four modules:

- `Bytes` (bytes.dfy): the byte type, the ASCII codes used, and Go's
  `byte(x)` conversion, integer division and remainder written out.
- `TimeFormat` (timefmt.dfy): `append2`, `append3` and `appendTime` as
  methods that take the slice and return the extended slice. There is also
  a parser for the `HH:MM:SS.mmm` field, which serves as the inverse of the
  formatter.
- `Line` (line.dfy): the level tags and the specification function
  `FormatLine`. `BuildLine` is the imperative construction from `log`/`logf`
  and is proved equal to `FormatLine`. `ParseLine` is its inverse, with
  round trips proved in both directions.
- `Pipeline` (pipeline.dfy): the goroutine/channel pipeline as a sequential
  state machine. It is a class `Logger` holding the queue, the bytes written
  to `out`, the pool's free list and an "exited" flag. Ghost history
  (`admitted`, `written`) supports the invariant that output plus queue is
  every accepted entry, in FIFO order, each once.

Behaviour of the code that a reader might expect otherwise, and that the
model follows:

- The framing of a line is 19 bytes: `[` (1), timestamp (12), `] [` (3),
  `] ` (2) and a newline (1). So a line's length is the sum of its parts
  plus 19.
- When the channel is full, the dropped entry's buffer is not returned to
  the pool (logs.go:82-85, logs.go:106-109): it is simply abandoned.
- There is no shutdown or flush protocol. `Fatal`/`Fatalf` enqueue their
  line and then call `os.Exit(0)` (logs.go:140, logs.go:146). That is two
  steps in the model: `Emit`/`Emitf` with level `Fatal`, then `Exit`. The
  writer runs concurrently, so it may or may not take the line in between.
  The fatal line may therefore reach `out` or be lost. `FatalOutcome` shows
  both cases. After `Exit` no operation can run.
- `*bp = buf` (logs.go:81, logs.go:105) stores into a pool pointer that is
  never put back; the writer puts `&e.buf` instead. The store has no
  observable effect and is not modelled.

## Model

| member | source | states |
|---|---|---|
| `Bytes.ToByte` | logs.go:113 | Go's `byte(int)` keeps the value mod 256, and is the identity on 0..255 |
| `Bytes.GoQuot` | logs.go:113 | Go's `/` on int truncates toward zero: for a >= 0, d*q <= a < d*q + d; for a < 0, d*q - d < a <= d*q |
| `Bytes.GoRem` | logs.go:113 | Go's `%` satisfies a == d*q + r, lies strictly between -d and d, and has the sign of the dividend (never positive for a < 0, the Euclidean remainder for a >= 0) |
| `TimeFormat.ToStamp` | logs.go:126 | `ns / 1e6` truncates: for a valid clock the millisecond field is in 0..999, with ms*10^6 <= ns < (ms+1)*10^6 |
| `TimeFormat.Digits2` | logs.go:113 | append2 always adds exactly two bytes, whatever v is |
| `TimeFormat.Digits3` | logs.go:117-121 | append3 always adds exactly three bytes, whatever v is |
| `TimeFormat.RenderTime` | logs.go:127-133 | the timestamp field is always 12 bytes, whatever the clock reads |
| `TimeFormat.Append2` | logs.go:112-114 | exactly two bytes are appended; the old contents are a preserved prefix; for 0 <= v <= 99 the two bytes are digits that spell v |
| `TimeFormat.Append3` | logs.go:116-122 | exactly three bytes are appended; the old contents are a preserved prefix; for 0 <= v <= 999 the three bytes are digits that spell v |
| `TimeFormat.AppendTime` | logs.go:124-134 | exactly 12 bytes are appended after the unchanged prefix; for a valid clock they parse back to hour, minute, second and truncated millisecond |
| `TimeFormat.Digits2Value` | logs.go:112-114 | for 0..99 the bytes are `'0'+v/10` then `'0'+v%10`, both digits, and they decode to v |
| `TimeFormat.Digits3Value` | logs.go:116-122 | for 0..999 the bytes are hundreds, tens and units digits and decode to v |
| `TimeFormat.Digits2OfValue` | logs.go:112-114 | any two digits are what append2 produces for the number they spell |
| `TimeFormat.Digits3OfValue` | logs.go:116-122 | any three digits are what append3 produces for the number they spell |
| `TimeFormat.ParseRender` | logs.go:124-134 | a rendered timestamp whose fields fit their widths parses back to the same fields |
| `TimeFormat.RenderParse` | logs.go:124-134 | every 12-byte field the parser accepts is exactly the rendering of what it returns |
| `TimeFormat.TimeShape` | logs.go:124-134 | for a valid clock the timestamp is `DD:DD:DD.DDD`: digits except ':' at 2 and 5 and '.' at 8; it reads back as h, m, s, ns/10^6 |
| `TimeFormat.RenderDigits` | logs.go:124-134 | digit by digit, each field is zero-padded to its width (2, 2, 2, 3) |
| `TimeFormat.ExampleTime` | logs.go:124-134 | 07:05:09 plus 3,999,999 ns prints as `07:05:09.003` (zero padding, truncation) |
| `Line.Tag` | logs.go:39-43 | each level tag is 1 to 5 bytes long and contains no ']' |
| `Line.ColorOf` | logs.go:136-146 | the colour each entry point passes: Debug cyan, Info green, Warn yellow, Error purple, Fatal red |
| `Line.TagInjective` | logs.go:39-43 | distinct levels have distinct tags |
| `Line.BuildLine` | logs.go:67-79 | the line built in a pooled buffer equals FormatLine of the inputs alone (the stale contents play no part) and is 19 bytes longer than its parts |
| `Line.FormatLine` | logs.go:71-79 | length of a line = \|colour\| + \|tag\| + \|message\| + \|reset\| + 19; it starts with the colour and ends with a newline |
| `Line.FormatLayout` | logs.go:71-79 | colour, '[', timestamp, `] [`, tag, `] `, message, reset and newline sit at their offsets, in that order |
| `Line.IndexOf` | logs.go:74-76 | the first ']' (or the end) is found, with none before it |
| `Line.SplitAtTag` | logs.go:74-77 | in `tag + "] " + msg` with a bracket-free tag, the first ']' ends the tag and the message follows the space |
| `Line.Reassemble` | logs.go:71-79 | a byte sequence with every part in its place equals the formatted line |
| `Line.ParseLine` | logs.go:71-79 | whatever is parsed as the tag contains no ']' |
| `Line.ParseFormat` | logs.go:71-79 | a formatted line (bracket-free tag, valid clock) parses back to its stamp, tag and message |
| `Line.FormatParse` | logs.go:71-79 | a line the parser accepts is exactly FormatLine of the parsed parts |
| `Line.LevelLineParses` | logs.go:136-146 | the line of every entry point parses back to that level's tag and the message |
| `Pipeline.Concat` | logs.go:56-57 | the bytes `out` receives when entries are written one after another |
| `Pipeline.BuffersAppend` | logs.go:55-58 | the buffers handed back to the pool for two runs of writes are those of the first run, then those of the second |
| `Pipeline.Offer` | logs.go:82-85 | a send never alters the queued entries, adds at most one, admits the new entry iff the queue is below 1024, and never exceeds 1024 |
| `Pipeline.OfferAll` | logs.go:82-85 | a burst of sends never alters or reorders what was already queued, and never takes a queue within capacity over 1024 |
| `Pipeline.OfferAllAdmitsPrefix` | logs.go:82-85 | a burst of sends with no writer step admits exactly the leading entries that fit, in order; every later one is dropped |
| `Pipeline.Overload` | logs.go:106-109 | 2000 sends into an empty channel with capacity 1024 keep exactly the first 1024, in order |
| `Pipeline.ConcatAppend` | logs.go:55-60 | writing two runs of entries writes the first run's bytes then the second's |
| `Pipeline.ConcatSnoc` | logs.go:57 | writing one more entry appends exactly its buffer |
| `Pipeline.Accounted` | logs.go:55-60 | in every valid state, out followed by the queued bytes equals the bytes of every accepted entry in acceptance order |
| `Pipeline.Logger.Valid` | logs.go:23 | the invariant every step keeps: at most 1024 queued; accepted entries are the written ones followed by the queued ones; `out` is the written entries' bytes |
| `Pipeline.Logger.constructor` | logs.go:20-29 | the initial state: empty channel, empty pool, nothing written, not exited |
| `Pipeline.Logger.GetBuffer` | logs.go:67 | `bufPool.Get` returns a free buffer with its old contents if there is one, else a new empty one |
| `Pipeline.Logger.PutBuffer` | logs.go:58 | `bufPool.Put` adds the buffer, contents and all, to the free list |
| `Pipeline.Logger.TrySend` | logs.go:82-85 | the send succeeds iff fewer than 1024 are queued; if so the entry is appended at the tail, otherwise the queue is exactly as before; the invariant is kept |
| `Pipeline.Logger.Log` | logs.go:66-86 | one buffer leaves the pool; the entry offered is FormatLine of the inputs; the queue becomes Offer of it; `out` is untouched |
| `Pipeline.Logger.Logf` | logs.go:88-110 | the same as Log, with the message replaced by the rendered format bytes |
| `Pipeline.Logger.Emit` | logs.go:136-140 | the `log` call of each entry point, with the level's tag and colour: one buffer leaves the pool, the queue becomes Offer of the line, the entry is accepted iff fewer than 1024 were queued, `out` is untouched |
| `Pipeline.Logger.Emitf` | logs.go:142-146 | the same as Emit, for the formatted variants |
| `Pipeline.Logger.Exit` | logs.go:140 | `os.Exit(0)` after a fatal line: the process ends, nothing is flushed, the invariant still holds |
| `Pipeline.Logger.WriterStep` | logs.go:56-58 | with a non-empty queue the head leaves the queue, its buffer is appended to `out` once and then goes back to the pool, and the rest keeps its order; with an empty queue nothing changes |
| `Pipeline.Logger.Drain` | logs.go:55-60 | afterwards the queue is empty, `out` has gained exactly the concatenation of the queued buffers in FIFO order, and the pool has gained those buffers in order |
| `Pipeline.FatalOutcome` | logs.go:140 | on a fresh logger, Fatal's line is in `out` at exit if the writer took it first, and `out` is empty otherwise |
| `Pipeline.SendThenDrain` | logs.go:55-60 | sends with no writer running, then a drain, output exactly the first min(n, 1024) entries, in order, each once |

## Left out

- Concurrency: the goroutine, channel synchronisation and `sync.Pool`
  internals (logs.go:24-29, logs.go:52) are modelled as sequential steps
  on one `Logger` object. Any interleaving of producer and writer steps
  keeps `Valid()`.
- Pipeline.Logger.GetBuffer: `sync.Pool.Get` may return any free buffer,
  or a new one even when some are free. The model always takes the most
  recently freed one.
- Buffer capacity: the 256-byte capacity hint of `New` (logs.go:26)
  affects only allocation, so it is not modelled. Slices are values
  (`seq`), so aliasing of backing arrays is not captured either.
- `*[]byte` arguments: `append2`, `append3` and `appendTime` take a pointer
  to the caller's local slice. They are modelled as methods that take the
  slice and return the extended one, which the caller rebinds.
- The clock: `time.Now()` and the `time.Time` accessors (logs.go:70,
  logs.go:125-126) are replaced by a `Clock` parameter. Its `Valid()`
  states the accessors' ranges.
- `fmt.Appendf` (logs.go:100) is foreign formatting code. Its output is the
  opaque `rendered` byte sequence passed to `Logf`/`Emitf`.
- `init` (logs.go:46-53) reads the environment (`NO_COLOR`) and detects a
  terminal. This is I/O and configuration, and it is not modelled.
- The colour-table contents (logs.go:30-37) are an arbitrary `Palette`.
- `SetOutput` (logs.go:62-64): `out` is modelled as the accumulated bytes
  written. `Write`'s result is ignored by the code (logs.go:57), so a
  write never fails in the model.
- The unused `level`/`color` fields of `logEntry` (logs.go:15-16) are not
  kept.
- `os.Exit` is modelled as the step `Logger.Exit`, which sets the `exited`
  flag. The producer entry points and the writer require the flag to be
  false, since no code runs after exit. The process exit itself is not
  modelled.
- `ansi/ansi_windows.go` (console mode syscalls) and `logs_bench_test.go`
  (a benchmark with no assertions) are not part of this model.
