/** The two 2048-byte rings of the JTAG UART driver: index arithmetic, the live
    contents of a ring, and the contiguous runs that `read` and `write` copy. */
module Ring {

  /** ALTERA_AVALON_JTAG_UART_BUF_LEN */
  const N: nat := 2048

  type Byte = x: int | 0 <= x < 256

  predicate Index(i: int) {
    0 <= i < N
  }

  /** An index moved on by `n`, round the end of the buffer. */
  function Advance(i: nat, n: nat): (r: nat)
    ensures r < N
  {
    (i + n) % N
  }

  /** The number of bytes between the index `out` and the index `inn`. */
  function Len(out: nat, inn: nat): (n: nat)
    requires Index(out) && Index(inn)
    ensures n < N
  {
    if out <= inn then inn - out else N - out + inn
  }

  function Free(out: nat, inn: nat): nat
    requires Index(out) && Index(inn)
  {
    N - 1 - Len(out, inn)
  }

  /** The slot that holds the `k`th live byte. */
  function Slot(out: nat, k: nat): (i: nat)
    requires Index(out) && k < N
    ensures Index(i)
  {
    if out + k < N then out + k else out + k - N
  }

  /** The live bytes of the ring, oldest first. */
  function Window(buf: seq<Byte>, out: nat, inn: nat): (w: seq<Byte>)
    requires |buf| == N && Index(out) && Index(inn)
    ensures |w| == Len(out, inn)
  {
    seq(Len(out, inn), k requires 0 <= k < Len(out, inn) => buf[Slot(out, k)])
  }

  /** Slot `i` holds a byte that has been stored and not yet consumed. */
  predicate Live(out: nat, inn: nat, i: nat)
    requires Index(out) && Index(inn) && Index(i)
  {
    Len(out, i) < Len(out, inn)
  }

  /** The contiguous free space that `write` computes from its two snapshots. */
  function FreeRun(inn: nat, out: nat): int
    requires Index(out) && Index(inn)
  {
    if inn < out then out - 1 - inn
    else if out > 0 then N - inn
    else N - 1 - inn
  }

  /** The contiguous data that `read` computes from its two snapshots. */
  function DataRun(inn: nat, out: nat): int
    requires Index(out) && Index(inn)
  {
    if inn >= out then inn - out else N - out
  }

  /** The segment that `write` may fill never passes the end of the array, never
      reaches a live byte, and is empty exactly when the ring is full. */
  lemma FreeRunIsSafe(inn: nat, out: nat)
    requires Index(out) && Index(inn)
    ensures 0 <= FreeRun(inn, out) <= Free(out, inn)
    ensures inn + FreeRun(inn, out) <= N
    ensures FreeRun(inn, out) == 0 <==> Len(out, inn) == N - 1
    ensures forall i :: inn <= i < inn + FreeRun(inn, out) ==> !Live(out, inn, i)
  {
  }

  /** The segment that `read` may copy lies inside the array, holds only live
      bytes, and is empty exactly when the ring is empty. */
  lemma DataRunIsSafe(inn: nat, out: nat)
    requires Index(out) && Index(inn)
    ensures 0 <= DataRun(inn, out) <= Len(out, inn)
    ensures out + DataRun(inn, out) <= N
    ensures DataRun(inn, out) == 0 <==> inn == out
    ensures forall i :: out <= i < out + DataRun(inn, out) ==> Live(out, inn, i)
  {
  }

  /** Storing outside the live bytes leaves the contents alone. */
  lemma StoreOutside(buf: seq<Byte>, out: nat, inn: nat, i: nat, b: Byte)
    requires |buf| == N && Index(out) && Index(inn) && Index(i)
    requires !Live(out, inn, i)
    ensures Window(buf[i := b], out, inn) == Window(buf, out, inn)
  {
  }

  /** Moving `inn` forward over `n` filled slots appends exactly those slots. */
  lemma Publish(buf: seq<Byte>, out: nat, inn: nat, n: nat)
    requires |buf| == N && Index(out) && Index(inn)
    requires n <= Free(out, inn) && inn + n <= N
    ensures Len(out, Advance(inn, n)) == Len(out, inn) + n
    ensures Window(buf, out, Advance(inn, n)) == Window(buf, out, inn) + buf[inn..inn + n]
  {
    assert Advance(inn, n) == if inn + n < N then inn + n else inn + n - N;
    assert Len(out, Advance(inn, n)) == Len(out, inn) + n;
  }

  /** Moving `out` forward over `n` live slots removes exactly the first `n` bytes. */
  lemma Consume(buf: seq<Byte>, out: nat, inn: nat, n: nat)
    requires |buf| == N && Index(out) && Index(inn)
    requires n <= Len(out, inn) && out + n <= N
    ensures Len(Advance(out, n), inn) == Len(out, inn) - n
    ensures Window(buf, out, inn) == buf[out..out + n] + Window(buf, Advance(out, n), inn)
  {
    assert Advance(out, n) == if out + n < N then out + n else out + n - N;
    assert Len(Advance(out, n), inn) == Len(out, inn) - n;
  }

  /** The interrupt routine's one-byte append at `inn`. */
  lemma Append(buf: seq<Byte>, out: nat, inn: nat, b: Byte)
    requires |buf| == N && Index(out) && Index(inn)
    requires Advance(inn, 1) != out
    ensures Len(out, inn) < N - 1
    ensures Len(out, Advance(inn, 1)) == Len(out, inn) + 1
    ensures Window(buf[inn := b], out, Advance(inn, 1)) == Window(buf, out, inn) + [b]
  {
    assert Advance(inn, 1) == if inn + 1 < N then inn + 1 else 0;
    StoreOutside(buf, out, inn, inn, b);
    Publish(buf[inn := b], out, inn, 1);
    assert buf[inn := b][inn..inn + 1] == [b];
  }

  /** The full test of the interrupt routine. */
  lemma FullTest(out: nat, inn: nat)
    requires Index(out) && Index(inn)
    ensures Advance(inn, 1) == out <==> Len(out, inn) == N - 1
  {
    assert Advance(inn, 1) == if inn + 1 < N then inn + 1 else 0;
  }
}
