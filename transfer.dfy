/** `download_book` of main.py: the streamed body is written chunk by chunk while a
    counter of received bytes drives a 50-cell progress bar. */
module Transfer {
  import opened Util

  const MiB := 1024 * 1024
  const BarWidth := 50
  const FullCell := '\U{2588}'
  const EmptyCell := '.'

  /** The streamed reply: its content-length header, parsed, when present, and the
      chunks `iter_content` yields for a requested chunk size. */
  datatype Response = Response(contentLength: Option<int>, body: int -> seq<seq<byte>>)

  /** What one call leaves behind: the bytes written to the file, the final value of
      the `downloaded` counter, the bars drawn, and how the call ended. */
  datatype Download = Download(written: seq<byte>, downloaded: int, bars: seq<string>, status: Status)

  function Abs(x: int): nat {
    if x < 0 then -x else x
  }

  /** `int(a / b)`: the quotient rounded toward zero, as truncating a float does (the
      float's rounding on huge operands is not modelled). */
  function TruncDiv(a: int, b: int): (q: int)
    requires b != 0
    ensures a >= 0 && b > 0 ==> q == a / b
    ensures Abs(q * b) <= Abs(a) < Abs(q * b) + Abs(b)
    ensures q == 0 || (q < 0) == ((a < 0) != (b < 0))
  {
    var m := Abs(a) / Abs(b);
    var q := if (a < 0) == (b < 0) then m else -m;
    TruncBounds(a, b, m, q);
    q
  }

  lemma TruncBounds(a: int, b: int, m: int, q: int)
    requires b != 0 && m == Abs(a) / Abs(b)
    requires q == if (a < 0) == (b < 0) then m else -m
    ensures a >= 0 && b > 0 ==> q == a / b
    ensures Abs(q * b) <= Abs(a) < Abs(q * b) + Abs(b)
    ensures q == 0 || (q < 0) == ((a < 0) != (b < 0))
  {
    DivBounds(Abs(a), Abs(b), m);
    assert Abs(q) == m;
    AbsOfProduct(q, b);
  }

  lemma DivBounds(x: nat, n: int, m: int)
    requires n > 0 && m == x / n
    ensures 0 <= m && m * n <= x < m * n + n
  {
    assert x == m * n + x % n;
  }

  lemma AbsOfProduct(x: int, y: int)
    ensures Abs(x * y) == Abs(x) * Abs(y)
  {
    if x < 0 {
      assert x * y == -((-x) * y);
    }
    if y < 0 {
      assert Abs(x) * y == -(Abs(x) * (-y));
    }
  }

  /** The chunk size requested from `iter_content`. */
  function ChunkSize(total: int): (r: int)
    ensures r >= MiB
    ensures r == MiB || r == TruncDiv(total, 1000)
    ensures total >= 0 ==> r >= total / 1000
  {
    var perMille := TruncDiv(total, 1000);
    if perMille > MiB then perMille else MiB
  }

  /** How many cells of the bar are full. */
  function Done(downloaded: int, total: int): int
    requires total != 0
  {
    TruncDiv(BarWidth * downloaded, total)
  }

  /** The bar's cells: `done` full cells, then `50 - done` dots. */
  function Bar(done: int): string {
    Repeat(FullCell, done) + Repeat(EmptyCell, BarWidth - done)
  }

  /** The chunks joined in order. */
  function Flatten(chunks: seq<seq<byte>>): seq<byte> {
    if chunks == [] then []
    else Flatten(chunks[..|chunks| - 1]) + chunks[|chunks| - 1]
  }

  /** The chunks `if chunk:` lets through, in order. */
  function NonEmpty(chunks: seq<seq<byte>>): seq<seq<byte>> {
    if chunks == [] then []
    else NonEmpty(chunks[..|chunks| - 1])
         + (if chunks[|chunks| - 1] != [] then [chunks[|chunks| - 1]] else [])
  }

  /** The sum of the chunks' lengths. */
  function Received(chunks: seq<seq<byte>>): nat {
    if chunks == [] then 0
    else Received(chunks[..|chunks| - 1]) + |chunks[|chunks| - 1]|
  }

  /** The bars drawn: one after each non-empty chunk, for the bytes received so far. */
  function Progress(chunks: seq<seq<byte>>, total: int): seq<string>
    requires total != 0
  {
    if chunks == [] then []
    else Progress(chunks[..|chunks| - 1], total)
         + (if chunks[|chunks| - 1] != [] then [Bar(Done(Received(chunks), total))] else [])
  }

  /** The first non-empty chunk, or nothing. */
  function FirstNonEmpty(chunks: seq<seq<byte>>): seq<byte> {
    if chunks == [] then []
    else if chunks[0] != [] then chunks[0]
    else FirstNonEmpty(chunks[1..])
  }

  /** What `download_book` leaves behind. Without a content-length the file is opened
      and truncated, then the undefined name `response` raises NameError. With one, the non-empty chunks are
      written in order, `downloaded` counts their bytes, and a bar is drawn after each;
      a content-length of 0 lets the first non-empty chunk be written and then divides
      by zero. */
  function Outcome(response: Response): Download {
    match response.contentLength
    case None => Download([], 0, [], Raised(NameError))
    case Some(total) =>
      var chunks := response.body(ChunkSize(total));
      if total != 0 then
        Download(Flatten(NonEmpty(chunks)), Received(chunks), Progress(chunks, total), Completed)
      else
        var first := FirstNonEmpty(chunks);
        Download(first, |first|, [], if first == [] then Completed else Raised(ZeroDivisionError))
  }

  /** The chunk loop of `download_book`, step by step: it leaves `Outcome(response)`. */
  method DownloadBook(response: Response) returns (d: Download)
    ensures d == Outcome(response)
  {
    if response.contentLength.None? {
      return Download([], 0, [], Raised(NameError));
    }
    var total := response.contentLength.value;
    var chunks := response.body(ChunkSize(total));
    var written: seq<byte> := [];
    var downloaded := 0;
    var bars: seq<string> := [];
    var i := 0;
    while i < |chunks|
      invariant 0 <= i <= |chunks|
      invariant total != 0 ==> && written == Flatten(NonEmpty(chunks[..i]))
                               && downloaded == Received(chunks[..i])
                               && bars == Progress(chunks[..i], total)
      invariant total == 0 ==> && written == [] && downloaded == 0 && bars == []
                               && forall k :: 0 <= k < i ==> chunks[k] == []
    {
      var chunk := chunks[i];
      ChunkStep(chunks, i, total);
      if chunk != [] {
        downloaded := downloaded + |chunk|;
        written := written + chunk;
        if total == 0 {
          FirstNonEmptyAt(chunks, i);
          return Download(written, downloaded, bars, Raised(ZeroDivisionError));
        }
        bars := bars + [Bar(Done(downloaded, total))];
      }
      i := i + 1;
    }
    assert chunks[..i] == chunks;
    if total == 0 {
      NoNonEmpty(chunks);
    }
    d := Download(written, downloaded, bars, Completed);
  }

  /** One more chunk extends each of the running definitions by that chunk alone. */
  lemma ChunkStep(chunks: seq<seq<byte>>, i: nat, total: int)
    requires i < |chunks|
    ensures Flatten(NonEmpty(chunks[..i + 1])) == Flatten(NonEmpty(chunks[..i])) + chunks[i]
    ensures Received(chunks[..i + 1]) == Received(chunks[..i]) + |chunks[i]|
    ensures total != 0 ==>
              Progress(chunks[..i + 1], total) == Progress(chunks[..i], total)
              + (if chunks[i] != [] then [Bar(Done(Received(chunks[..i + 1]), total))] else [])
  {
    var pre, c := chunks[..i], chunks[i];
    assert chunks[..i + 1][..i] == pre;
    var kept := NonEmpty(pre);
    if c != [] {
      assert NonEmpty(chunks[..i + 1]) == kept + [c];
      assert (kept + [c])[..|kept|] == kept;
    } else {
      assert NonEmpty(chunks[..i + 1]) == kept + [];
      assert kept + [] == kept;
    }
  }

  lemma {:induction false} FirstNonEmptyAt(chunks: seq<seq<byte>>, i: nat)
    requires i < |chunks| && chunks[i] != []
    requires forall k :: 0 <= k < i ==> chunks[k] == []
    ensures FirstNonEmpty(chunks) == chunks[i]
  {
    if i > 0 {
      FirstNonEmptyAt(chunks[1..], i - 1);
    }
  }

  lemma {:induction false} NoNonEmpty(chunks: seq<seq<byte>>)
    requires forall k :: 0 <= k < |chunks| ==> chunks[k] == []
    ensures FirstNonEmpty(chunks) == []
  {
    if chunks != [] {
      NoNonEmpty(chunks[1..]);
    }
  }

  /** Empty chunks change nothing: writing only the non-empty ones writes every byte. */
  lemma {:induction false} EmptyChunksChangeNothing(chunks: seq<seq<byte>>)
    ensures Flatten(NonEmpty(chunks)) == Flatten(chunks)
    ensures Received(NonEmpty(chunks)) == Received(chunks)
  {
    if chunks != [] {
      var init, last := chunks[..|chunks| - 1], chunks[|chunks| - 1];
      EmptyChunksChangeNothing(init);
      var kept := NonEmpty(init) + (if last != [] then [last] else []);
      assert kept == NonEmpty(chunks);
      if last != [] {
        assert kept[..|kept| - 1] == NonEmpty(init);
      } else {
        assert kept == NonEmpty(init);
        assert Flatten(chunks) == Flatten(init) + [];
        assert Received(chunks) == Received(init) + 0;
      }
    }
  }

  /** The `downloaded` counter is the number of bytes written. */
  lemma {:induction false} ReceivedIsWritten(chunks: seq<seq<byte>>)
    ensures Received(chunks) == |Flatten(chunks)| == |Flatten(NonEmpty(chunks))|
  {
    if chunks != [] {
      ReceivedIsWritten(chunks[..|chunks| - 1]);
    }
    EmptyChunksChangeNothing(chunks);
  }

  /** While 0 <= downloaded <= total, the bar has exactly 50 cells: `done` full ones,
      with 0 <= done <= 50, then dots; it is full once everything has arrived. */
  lemma BarHasFiftyCells(downloaded: int, total: int)
    requires 0 <= downloaded <= total && total > 0
    ensures var done := Done(downloaded, total);
            && 0 <= done <= BarWidth
            && |Bar(done)| == BarWidth
            && forall i :: 0 <= i < BarWidth ==> Bar(done)[i] == if i < done then FullCell else EmptyCell
    ensures downloaded == total ==> Done(downloaded, total) == BarWidth
  {
    DoneInRange(downloaded, total);
    BarCells(Done(downloaded, total));
  }

  lemma DoneInRange(downloaded: int, total: int)
    requires 0 <= downloaded <= total && total > 0
    ensures 0 <= Done(downloaded, total) <= BarWidth
    ensures downloaded == total ==> Done(downloaded, total) == BarWidth
  {
    var x := BarWidth * downloaded;
    assert Done(downloaded, total) == x / total;
    QuotientAtMost(x, total, BarWidth);
    if downloaded == total {
      QuotientOfMultiple(BarWidth, total);
    }
  }

  lemma QuotientOfMultiple(c: int, t: int)
    requires t > 0
    ensures (c * t) / t == c
  {
    var q, r := (c * t) / t, (c * t) % t;
    assert c * t == q * t + r && 0 <= r < t;
    MulCancel(q, c + 1, t);
    MulCancel(c, q + 1, t);
  }

  lemma MulCancel(a: int, b: int, t: int)
    requires t > 0 && a * t < b * t
    ensures a < b
  {
    assert (b - a) * t > 0;
  }

  /** A bar of `done` full cells, 0 <= done <= 50, is 50 cells wide. */
  lemma BarCells(done: int)
    requires 0 <= done <= BarWidth
    ensures |Bar(done)| == BarWidth
    ensures forall i :: 0 <= i < BarWidth ==> Bar(done)[i] == if i < done then FullCell else EmptyCell
  {
  }

  lemma QuotientAtMost(x: int, t: int, c: int)
    requires t > 0 && 0 <= x <= c * t
    ensures 0 <= x / t <= c
  {
    var q, r := x / t, x % t;
    assert x == q * t + r && 0 <= r < t;
    MulCancel(-1, q, t);
    MulCancel(q, c + 1, t);
  }

  /** Whatever the reply, the counter ends equal to the number of bytes written; with a
      non-zero content-length every byte of every chunk is written, in order. */
  lemma OutcomeCountsWritten(response: Response)
    ensures Outcome(response).downloaded == |Outcome(response).written|
    ensures response.contentLength.Some? && response.contentLength.value != 0 ==>
              var chunks := response.body(ChunkSize(response.contentLength.value));
              Outcome(response).written == Flatten(chunks) && Outcome(response).status == Completed
  {
    if response.contentLength.Some? {
      var chunks := response.body(ChunkSize(response.contentLength.value));
      EmptyChunksChangeNothing(chunks);
      ReceivedIsWritten(chunks);
    }
  }

  /** The counter never goes down: a prefix of the chunks has received no more. */
  lemma {:induction false} ReceivedGrows(chunks: seq<seq<byte>>, i: nat)
    requires i <= |chunks|
    ensures Received(chunks[..i]) <= Received(chunks)
  {
    if i < |chunks| {
      assert chunks[..i] == chunks[..|chunks| - 1][..i];
      ReceivedGrows(chunks[..|chunks| - 1], i);
    } else {
      assert chunks[..i] == chunks;
    }
  }

  /** When the content-length is not exceeded, every bar drawn has 50 cells. */
  lemma {:induction false} ProgressBarsHaveFiftyCells(chunks: seq<seq<byte>>, total: int)
    requires total > 0 && Received(chunks) <= total
    ensures forall b :: b in Progress(chunks, total) ==> |b| == BarWidth
  {
    if chunks != [] {
      var init := chunks[..|chunks| - 1];
      ReceivedGrows(chunks, |chunks| - 1);
      ProgressBarsHaveFiftyCells(init, total);
      BarHasFiftyCells(Received(chunks), total);
    }
  }
}
