/** The decision and arithmetic parts of `download_brewdata_package`: whether an
    existing archive is reused, and the progress bar drawn while the body streams
    in. The HTTP request and the file writes are not modelled; the body is the
    sequence of its chunk lengths. */
module PackageFetcher {
  import opened PyBuiltins

  /** 1024 * 1024 bytes: the size above which progress is shown, and the MB unit. */
  const MiB: nat := 1048576

  /** The width of the bar while the download has not exceeded its declared size. */
  const BarWidth: nat := 50

  /** The answer to "Use this file? (y/n)". */
  datatype ReuseChoice =
    | UseLocal(next: nat)  // return the existing path, no network call
    | Download(next: nat)  // fall through to the download
    | NoInput              // input() found no line: EOFError

  /** The reuse prompt is asked only when the archive already exists, reads exactly
      one line, and reuses the file only for `y` or `Y`; any other line, unlike the
      target prompt, downloads again without asking twice. */
  function ReuseDecision(fileExists: bool, lines: seq<string>, pos: nat): (r: ReuseChoice)
    requires pos <= |lines|
    ensures r.UseLocal? <==> fileExists && pos < |lines| && Lower(lines[pos]) == "y"
    ensures r.NoInput? <==> fileExists && pos == |lines|
    ensures !fileExists ==> r == Download(pos)
    ensures fileExists && r != NoInput ==> r.next == pos + 1
  {
    if !fileExists then Download(pos)
    else if pos == |lines| then NoInput
    else if Lower(lines[pos]) == "y" then UseLocal(pos + 1)
    else Download(pos + 1)
  }

  /** Progress is drawn only for a declared size above one MiB, so the MB total it
      prints is never zero. */
  function ShowsProgress(total: int): (b: bool)
    ensures b <==> total > MiB
    ensures b ==> total / MiB >= 1
  {
    total > MiB
  }

  /** Python's `c * n`: `n` copies of `c`, and nothing for `n <= 0`. */
  function Repeat(c: char, n: int): (r: string)
    ensures |r| == (if n > 0 then n else 0)
    ensures forall i :: 0 <= i < |r| ==> r[i] == c
  {
    if n <= 0 then [] else [c] + Repeat(c, n - 1)
  }

  /** One redraw of the progress line: the bytes received so far, the number of
      filled columns, the bar between the brackets and the two MB figures. */
  datatype Frame = Frame(downloaded: nat, done: int, bar: string, downloadedMB: int, totalMB: int)

  /** The redraw after `downloaded` bytes of a body declared as `total` bytes. */
  function FrameAt(downloaded: nat, total: int): (f: Frame)
    requires total > 0
    ensures f.downloaded == downloaded && f.done >= 0
  {
    var done := (BarWidth * downloaded) / total;
    Frame(downloaded, done, Repeat('=', done) + Repeat(' ', BarWidth - done), downloaded / MiB, total / MiB)
  }

  /** The number of bytes in the chunks. */
  function Sum(chunks: seq<nat>): nat
  {
    if chunks == [] then 0 else Sum(chunks[..|chunks| - 1]) + chunks[|chunks| - 1]
  }

  /** The streaming loop: after each chunk the running total grows by the chunk's
      length and the progress line is redrawn; nothing is drawn for a small body. */
  method DownloadProgress(total: int, chunks: seq<nat>) returns (frames: seq<Frame>)
    ensures !ShowsProgress(total) ==> frames == []
    ensures ShowsProgress(total) ==> |frames| == |chunks|
    ensures ShowsProgress(total) ==>
      forall i :: 0 <= i < |chunks| ==> frames[i] == FrameAt(Sum(chunks[..i + 1]), total)
  {
    frames := [];
    if total > MiB {
      var downloaded := 0;
      for i := 0 to |chunks|
        invariant downloaded == Sum(chunks[..i])
        invariant |frames| == i
        invariant forall k :: 0 <= k < i ==> frames[k] == FrameAt(Sum(chunks[..k + 1]), total)
      {
        downloaded := downloaded + chunks[i];
        assert chunks[..i + 1][..i] == chunks[..i];
        frames := frames + [FrameAt(downloaded, total)];
      }
    }
  }

  // ---------------------------------------------------------------------------
  // Properties of the progress line

  lemma DivMonotone(x: nat, y: nat, d: int)
    requires d > 0 && x <= y
    ensures x / d <= y / d
  {
    var qx, qy := x / d, y / d;
    assert qx * d <= x && y < (qy + 1) * d;
    if qx > qy {
      MulMonotone(qy + 1, qx, d);
    }
  }

  lemma MulMonotone(a: int, b: int, d: int)
    requires d > 0 && a <= b
    ensures a * d <= b * d
  {
  }

  /** The filled columns, as an integer quotient: at most 50, and 50 only at the end. */
  lemma DoneBound(downloaded: nat, total: int)
    requires total > 0 && downloaded <= total
    ensures 0 <= (BarWidth * downloaded) / total <= BarWidth
    ensures (BarWidth * downloaded) / total == BarWidth <==> downloaded == total
  {
    var q := (BarWidth * downloaded) / total;
    var r := (BarWidth * downloaded) % total;
    assert BarWidth * downloaded == q * total + r && 0 <= r < total;
    if q > BarWidth {
      MulMonotone(BarWidth + 1, q, total);
    }
    if downloaded == total {
      if q < BarWidth {
        MulMonotone(q, BarWidth - 1, total);
      }
    } else {
      assert BarWidth * downloaded <= BarWidth * total - BarWidth;
      if q == BarWidth {
        assert false;
      }
    }
  }

  /** The bar never moves back: more bytes never give fewer filled columns. */
  lemma DoneMonotone(a: nat, b: nat, total: int)
    requires total > 0 && a <= b
    ensures FrameAt(a, total).done <= FrameAt(b, total).done
  {
    DivMonotone(BarWidth * a, BarWidth * b, total);
  }

  lemma {:induction false} SumPrefixMonotone(chunks: seq<nat>, i: nat, j: nat)
    requires i <= j <= |chunks|
    ensures Sum(chunks[..i]) <= Sum(chunks[..j])
    decreases j - i
  {
    if i < j {
      SumPrefixMonotone(chunks, i, j - 1);
      assert chunks[..j][..j - 1] == chunks[..j - 1];
    }
  }

  /** Across the redraws of one download, the filled part of the bar only grows. */
  lemma ProgressMonotone(total: int, chunks: seq<nat>, i: nat, j: nat)
    requires total > 0 && i <= j < |chunks|
    ensures FrameAt(Sum(chunks[..i + 1]), total).done <= FrameAt(Sum(chunks[..j + 1]), total).done
  {
    SumPrefixMonotone(chunks, i + 1, j + 1);
    DoneMonotone(Sum(chunks[..i + 1]), Sum(chunks[..j + 1]), total);
  }

  /** While no more than the declared size has arrived, the bar is exactly 50
      columns: `done` of `=` followed by blanks, and full exactly at the end. */
  lemma BarShape(downloaded: nat, total: int)
    requires total > 0 && downloaded <= total
    ensures var f := FrameAt(downloaded, total);
      && 0 <= f.done <= BarWidth
      && |f.bar| == BarWidth
      && (forall k :: 0 <= k < BarWidth ==> (f.bar[k] == '=' <==> k < f.done))
      && (f.done == BarWidth <==> downloaded == total)
  {
    DoneBound(downloaded, total);
  }

  /** When the body turns out longer than declared, Python's `' ' * (50 - done)`
      is empty for `done > 50`, so the bar widens to `done` columns. */
  lemma BarWidensPastDeclaredSize(downloaded: nat, total: int)
    requires total > 0 && FrameAt(downloaded, total).done > BarWidth
    ensures |FrameAt(downloaded, total).bar| == FrameAt(downloaded, total).done
    ensures downloaded > total
  {
    var f := FrameAt(downloaded, total);
    if downloaded <= total {
      BarShape(downloaded, total);
    }
  }

  /** A complete download of a body of the declared size ends with a full bar and
      equal MB figures. */
  lemma FinalFrameFull(total: int, chunks: seq<nat>)
    requires ShowsProgress(total) && chunks != [] && Sum(chunks) == total
    ensures var f := FrameAt(Sum(chunks[..|chunks|]), total);
      f.done == BarWidth && f.bar == Repeat('=', BarWidth) && f.downloadedMB == f.totalMB
  {
    assert chunks[..|chunks|] == chunks;
    BarShape(total, total);
    var f := FrameAt(total, total);
    assert f.bar == Repeat('=', BarWidth) + Repeat(' ', 0);
    assert Repeat(' ', 0) == [];
  }
}
