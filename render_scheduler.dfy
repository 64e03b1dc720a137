/**
 * The progressive ray-trace scheduler of `Scene::renderRT`: each call ("tick")
 * computes one pixel, writes it opaque into the W x H RGBA buffer `rtImage`
 * and moves the cursor (nextx, nexty) on, y innermost; a restart discards the
 * buffer and starts again from (0, 0).
 *
 * The colour of a pixel (`Scene::pixelColour`) is an opaque function given to
 * each tick, and the display refresh `draw_RT_and_GL` is a counted event.
 */
module Render {
  import opened Linalg

  /** One entry of the buffer: alpha 0 marks a pending pixel, alpha 1 a computed one. */
  datatype Rgba = Rgba(r: real, g: real, b: real, a: real)

  const Transparent: Rgba := Rgba(0.0, 0.0, 0.0, 0.0)

  /** UPDATE_INTERVAL: refresh the display after each further 5% of the columns. */
  const UpdateInterval: real := 0.05

  function Opaque(c: Vec3): Rgba {
    Rgba(c.x, c.y, c.z, 1.0)
  }

  /** Where pixel (x, y) lives in the buffer: `nextx + nexty * width`. */
  function Index(x: int, y: int, width: int): int {
    x + y * width
  }

  /** How many ticks after a restart the cursor reaches (x, y): columns of `height` pixels, y innermost. */
  function Rank(x: int, y: int, height: int): int {
    x * height + y
  }

  /**
   * A tick at (x, y) finishes column x, and so x + 1 of the `width` columns,
   * when y is the column's last row; the window is refreshed when the done
   * fraction has reached the next mark `dot`.
   */
  predicate MarkReached(x: int, y: int, width: int, height: int, dot: real)
    requires width > 0
  {
    y + 1 >= height && ((x + 1) as real) / (width as real) >= dot
  }

  /** The scheduler's cursor and its `stop` flag. */
  datatype Cursor = Cursor(x: int, y: int, stopped: bool)

  /** The cursor is on a pixel of the W x H grid. */
  predicate OnGrid(c: Cursor, width: int, height: int) {
    0 <= c.x < width && 0 <= c.y < height
  }

  /** One cursor move of a tick: next y, else the next column, else stop back at column 0. */
  function Advance(c: Cursor, width: int, height: int): (r: Cursor)
    // a stopped scheduler does not move
    ensures c.stopped ==> r == c
    // a running cursor stays in the grid, and stops exactly after the last pixel, back at (0, 0)
    ensures !c.stopped && OnGrid(c, width, height) ==>
      && OnGrid(r, width, height)
      && (r.stopped <==> c.x == width - 1 && c.y == height - 1)
      && (r.stopped ==> r.x == 0 && r.y == 0)
  {
    if c.stopped then c
    else if c.y + 1 < height then Cursor(c.x, c.y + 1, false)
    else if c.x + 1 < width then Cursor(c.x + 1, 0, false)
    else Cursor(0, 0, true)
  }

  /** The cursor after n ticks. */
  function Run(c: Cursor, width: int, height: int, n: nat): (r: Cursor)
    // once stopped, ticks change nothing
    ensures c.stopped ==> r == c
    // the cursor never leaves the grid
    ensures OnGrid(c, width, height) ==> OnGrid(r, width, height)
  {
    if n == 0 then c else Advance(Run(c, width, height, n - 1), width, height)
  }

  const Restarted: Cursor := Cursor(0, 0, false)

  lemma MulMonotone(a: int, b: int, c: int)
    requires a <= b && c >= 0
    ensures a * c <= b * c
  {
    assert b * c - a * c == (b - a) * c;
  }

  lemma RankInGrid(x: int, y: int, width: int, height: int)
    requires 0 <= x < width && 0 <= y < height
    ensures 0 <= Rank(x, y, height) < width * height
    ensures Rank(x, y, height) == width * height - 1 <==> x == width - 1 && y == height - 1
  {
    MulMonotone(0, x, height);
    MulMonotone(x, width - 1, height);
    assert (width - 1) * height == width * height - height;
    if x < width - 1 {
      MulMonotone(x + 1, width - 1, height);
      assert (x + 1) * height == x * height + height;
    }
  }

  /** Ranks grow with the column: a pixel of an earlier column has a smaller rank. */
  lemma RankOrder(x1: int, y1: int, x2: int, y2: int, height: int)
    requires 0 <= y1 < height && 0 <= y2
    ensures x1 < x2 ==> Rank(x1, y1, height) < Rank(x2, y2, height)
  {
    if x1 < x2 {
      MulMonotone(x1 + 1, x2, height);
      assert (x1 + 1) * height == x1 * height + height;
    }
  }

  lemma RankInjective(x1: int, y1: int, x2: int, y2: int, height: int)
    requires 0 <= y1 < height && 0 <= y2 < height
    requires Rank(x1, y1, height) == Rank(x2, y2, height)
    ensures x1 == x2 && y1 == y2
  {
    RankOrder(x1, y1, x2, y2, height);
    RankOrder(x2, y2, x1, y1, height);
  }

  lemma IndexInGrid(x: int, y: int, width: int, height: int)
    requires 0 <= x < width && 0 <= y < height
    ensures 0 <= Index(x, y, width) < width * height
  {
    MulMonotone(0, y, width);
    MulMonotone(y, height - 1, width);
    assert (height - 1) * width == width * height - width;
  }

  lemma IndexInjective(x1: int, y1: int, x2: int, y2: int, width: int)
    requires 0 <= x1 < width && 0 <= x2 < width
    requires Index(x1, y1, width) == Index(x2, y2, width)
    ensures x1 == x2 && y1 == y2
  {
    RankOrder(y1, x1, y2, x2, width);
    RankOrder(y2, x2, y1, x1, width);
    assert Index(x1, y1, width) == Rank(y1, x1, width);
    assert Index(x2, y2, width) == Rank(y2, x2, width);
  }

  /**
   * From a restart, the first width*height ticks visit pixels of rank 0, 1, ...
   * in turn without stopping, and tick number width*height stops the scheduler
   * with the cursor back at (0, 0).
   */
  lemma {:induction false} RunFromRestart(width: int, height: int, n: nat)
    requires width > 0 && height > 0 && n <= width * height
    ensures var c := Run(Restarted, width, height, n);
      if n < width * height then
        !c.stopped && 0 <= c.x < width && 0 <= c.y < height && Rank(c.x, c.y, height) == n
      else
        c == Cursor(0, 0, true)
  {
    if n > 0 {
      RunFromRestart(width, height, n - 1);
      var c := Run(Restarted, width, height, n - 1);
      RankInGrid(c.x, c.y, width, height);
      if c.y + 1 < height {
      } else if c.x + 1 < width {
        assert Rank(c.x + 1, 0, height) == Rank(c.x, c.y, height) + 1;
      }
    }
  }

  /** The pixel a tick writes, counting ticks from 0 after a restart. */
  function PixelOfTick(width: int, height: int, n: nat): int {
    var c := Run(Restarted, width, height, n);
    Index(c.x, c.y, width)
  }

  /** The tick that writes buffer entry i: that of column i % width, row i / width. */
  function TickOfPixel(width: int, height: int, i: int): int
    requires width > 0
  {
    Rank(i % width, i / width, height)
  }

  /** Tick n (n < W*H) after a restart writes an entry inside the buffer. */
  lemma TickPixelInBuffer(width: int, height: int, n: nat)
    requires width > 0 && height > 0 && n < width * height
    ensures 0 <= PixelOfTick(width, height, n) < width * height
  {
    RunFromRestart(width, height, n);
    var c := Run(Restarted, width, height, n);
    IndexInGrid(c.x, c.y, width, height);
  }

  /** Two different ticks of one pass write two different entries. */
  lemma TicksWriteDistinctPixels(width: int, height: int, n1: nat, n2: nat)
    requires width > 0 && height > 0 && n1 < width * height && n2 < width * height
    requires n1 != n2
    ensures PixelOfTick(width, height, n1) != PixelOfTick(width, height, n2)
  {
    RunFromRestart(width, height, n1);
    RunFromRestart(width, height, n2);
    var c1 := Run(Restarted, width, height, n1);
    var c2 := Run(Restarted, width, height, n2);
    if Index(c1.x, c1.y, width) == Index(c2.x, c2.y, width) {
      IndexInjective(c1.x, c1.y, c2.x, c2.y, width);
    }
  }

  /** Every entry of the buffer is written by one tick of the pass. */
  lemma EveryPixelHasItsTick(width: int, height: int, i: int)
    requires width > 0 && height > 0 && 0 <= i < width * height
    ensures 0 <= TickOfPixel(width, height, i) < width * height
    ensures PixelOfTick(width, height, TickOfPixel(width, height, i)) == i
  {
    var x, y := i % width, i / width;
    assert i == x + y * width;
    if y >= height {
      MulMonotone(height, y, width);
      assert false;
    }
    RankInGrid(x, y, width, height);
    var n: nat := Rank(x, y, height);
    RunFromRestart(width, height, n);
    var c := Run(Restarted, width, height, n);
    RankInjective(c.x, c.y, x, y, height);
  }

  /**
   * The W*H ticks after a restart write every buffer entry exactly once: the
   * entry of each tick is in the buffer, two different ticks write different
   * entries, and every entry is written by one of these ticks.
   */
  lemma EachPixelWrittenOnce(width: int, height: int)
    requires width > 0 && height > 0
    ensures forall n: nat | n < width * height :: 0 <= PixelOfTick(width, height, n) < width * height
    ensures forall n1: nat, n2: nat | n1 < n2 < width * height ::
      PixelOfTick(width, height, n1) != PixelOfTick(width, height, n2)
    ensures forall i | 0 <= i < width * height ::
      0 <= TickOfPixel(width, height, i) < width * height &&
      PixelOfTick(width, height, TickOfPixel(width, height, i)) == i
  {
    forall n: nat | n < width * height
      ensures 0 <= PixelOfTick(width, height, n) < width * height
    {
      TickPixelInBuffer(width, height, n);
    }
    forall n1: nat, n2: nat | n1 < n2 < width * height
      ensures PixelOfTick(width, height, n1) != PixelOfTick(width, height, n2)
    {
      TicksWriteDistinctPixels(width, height, n1, n2);
    }
    forall i | 0 <= i < width * height
      ensures 0 <= TickOfPixel(width, height, i) < width * height
      ensures PixelOfTick(width, height, TickOfPixel(width, height, i)) == i
    {
      EveryPixelHasItsTick(width, height, i);
    }
  }

  /** Entry (x, y) is opaque exactly when its rank is below `progress`, transparent otherwise. */
  ghost predicate ImageMatches(img: seq<Rgba>, width: int, height: int, progress: int)
    requires width > 0 && height > 0 && |img| == width * height
  {
    forall x, y | 0 <= x < width && 0 <= y < height ::
      IndexInGrid(x, y, width, height);
      img[Index(x, y, width)].a == if Rank(x, y, height) < progress then 1.0 else 0.0
  }

  /** A buffer whose entries are all transparent matches a pass with nothing written yet. */
  lemma ClearedMatches(img: seq<Rgba>, width: int, height: int)
    requires width > 0 && height > 0 && |img| == width * height
    requires forall i | 0 <= i < |img| :: img[i] == Transparent
    ensures ImageMatches(img, width, height, 0)
  {
    forall x, y | 0 <= x < width && 0 <= y < height
      ensures Index(x, y, width) < |img| && img[Index(x, y, width)].a == 0.0
    {
      IndexInGrid(x, y, width, height);
    }
    forall x, y | 0 <= x < width && 0 <= y < height
      ensures 0 <= Rank(x, y, height)
    {
      RankInGrid(x, y, width, height);
    }
  }

  /** A tick from a pixel of the grid moves to the pixel of the next rank, or stops after the last one. */
  lemma AdvanceStep(x: int, y: int, width: int, height: int)
    requires 0 <= x < width && 0 <= y < height
    ensures Rank(x, y, height) + 1 <= width * height
    ensures var c := Advance(Cursor(x, y, false), width, height);
      && (c.stopped <==> Rank(x, y, height) + 1 == width * height)
      && (c.stopped ==> c.x == 0 && c.y == 0)
      && (!c.stopped ==> 0 <= c.x < width && 0 <= c.y < height && Rank(c.x, c.y, height) == Rank(x, y, height) + 1)
  {
    RankInGrid(x, y, width, height);
    if y + 1 >= height && x + 1 < width {
      assert Rank(x + 1, 0, height) == Rank(x, y, height) + 1;
    }
  }

  /** Writing the cursor's pixel opaque moves the opaque/transparent boundary on by one. */
  lemma WriteCursorPixel(img: seq<Rgba>, width: int, height: int, progress: int, x0: int, y0: int, c: Vec3)
    requires width > 0 && height > 0 && |img| == width * height
    requires 0 <= x0 < width && 0 <= y0 < height && Rank(x0, y0, height) == progress
    requires ImageMatches(img, width, height, progress)
    ensures 0 <= Index(x0, y0, width) < |img| && img[Index(x0, y0, width)].a == 0.0
    ensures ImageMatches(img[Index(x0, y0, width) := Opaque(c)], width, height, progress + 1)
  {
    IndexInGrid(x0, y0, width, height);
    var after := img[Index(x0, y0, width) := Opaque(c)];
    forall x, y | 0 <= x < width && 0 <= y < height
      ensures Index(x, y, width) < |after|
      ensures after[Index(x, y, width)].a == if Rank(x, y, height) < progress + 1 then 1.0 else 0.0
    {
      IndexInGrid(x, y, width, height);
      if Index(x, y, width) == Index(x0, y0, width) {
        IndexInjective(x, y, x0, y0, width);
      } else if Rank(x, y, height) == Rank(x0, y0, height) {
        RankInjective(x, y, x0, y0, height);
      }
    }
  }

  /**
   * The scheduler state of `Scene::renderRT`: the static cursor `nextx`,
   * `nexty`, `nextDot`, the `stop` member and the `rtImage` buffer.  The
   * window size is fixed for the scheduler's lifetime.
   */
  class RenderScheduler {
    const width: nat
    const height: nat
    var nextx: int
    var nexty: int
    var nextDot: real
    var stop: bool
    var rtImage: array?<Rgba>
    /** How many times `draw_RT_and_GL` has been called. */
    var refreshes: nat
    /** Pixels written since the last restart. */
    ghost var progress: nat

    ghost predicate Valid()
      reads this, rtImage
    {
      && width > 0 && height > 0
      && 0 <= nextx < width && 0 <= nexty < height
      && progress <= width * height
      && (rtImage == null ==> progress == 0 && nextx == 0 && nexty == 0)
      && (stop ==> nextx == 0 && nexty == 0 && (progress == 0 || progress == width * height))
      && (!stop ==> progress == Rank(nextx, nexty, height))
      && (rtImage != null ==> rtImage.Length == width * height && ImageMatches(rtImage[..], width, height, progress))
    }

    /** Idle, with no image yet. */
    constructor (width: nat, height: nat)
      requires width > 0 && height > 0
      ensures Valid() && this.width == width && this.height == height
      ensures stop && rtImage == null && refreshes == 0
    {
      this.width, this.height := width, height;
      nextx, nexty, nextDot := 0, 0, 0.0;
      stop := true;
      rtImage := null;
      refreshes := 0;
      progress := 0;
    }

    /** The restart branch: cursor to (0, 0), `stop` cleared, old image discarded. */
    method ResetCursor()
      requires Valid()
      modifies this
      ensures Valid() && rtImage == null
      ensures nextx == 0 && nexty == 0 && !stop && progress == 0
      ensures nextDot == UpdateInterval && refreshes == old(refreshes)
    {
      nextx := 0;
      nexty := 0;
      nextDot := UpdateInterval;
      stop := false;
      rtImage := null;
      progress := 0;
    }

    /** A new buffer of width*height entries, every one transparent. */
    method AllocateImage()
      requires Valid() && rtImage == null
      modifies this
      ensures Valid() && rtImage != null && fresh(rtImage)
      ensures forall i | 0 <= i < rtImage.Length :: rtImage[i] == Transparent
      ensures nextx == old(nextx) && nexty == old(nexty) && stop == old(stop)
      ensures nextDot == old(nextDot) && refreshes == old(refreshes) && progress == old(progress)
    {
      var img := new Rgba[width * height];
      var i := 0;
      while i < width * height
        modifies img
        invariant 0 <= i <= width * height
        invariant forall k | 0 <= k < i :: img[k] == Transparent
      {
        img[i] := Transparent;
        i := i + 1;
      }
      ClearedMatches(img[..], width, height);
      rtImage := img;
    }

    /**
     * One scheduler step once the buffer exists: nothing while stopped;
     * otherwise the cursor's pending entry becomes opaque with the pixel's
     * colour, nothing else in the buffer changes, and the cursor advances.
     */
    method Tick(pixelColour: (int, int) -> Vec3)
      requires Valid() && rtImage != null
      modifies this, rtImage
      ensures Valid() && rtImage == old(rtImage)
      ensures old(stop) ==>
        && stop && nextx == old(nextx) && nexty == old(nexty) && progress == old(progress)
        && refreshes == old(refreshes) && rtImage[..] == old(rtImage[..])
      ensures !old(stop) ==>
        && 0 <= Index(old(nextx), old(nexty), width) < rtImage.Length
        && old(rtImage[Index(nextx, nexty, width)]).a == 0.0
        && rtImage[..] == old(rtImage[..])[Index(old(nextx), old(nexty), width) :=
                                           Opaque(pixelColour(old(nextx), old(nexty)))]
      ensures !old(stop) ==>
        && Cursor(nextx, nexty, stop) == Advance(Cursor(old(nextx), old(nexty), false), width, height)
        && progress == old(progress) + 1
        && (stop <==> progress == width * height)
      ensures !old(stop) && stop ==> refreshes > old(refreshes)
      ensures old(nexty) + 1 < height ==> refreshes == old(refreshes)
      // the mark moves on by UpdateInterval at each refresh it triggers, and the end adds one more
      ensures old(stop) ==> nextDot == old(nextDot)
      ensures !old(stop) ==>
        var due := MarkReached(old(nextx), old(nexty), width, height, old(nextDot));
        && nextDot == old(nextDot) + (if due then UpdateInterval else 0.0)
        && refreshes == old(refreshes) + (if due then 1 else 0) + (if stop then 1 else 0)
    {
      if stop {
        return;
      }
      var colour := pixelColour(nextx, nexty);
      WriteCursorPixel(rtImage[..], width, height, progress, nextx, nexty, colour);
      AdvanceStep(nextx, nexty, width, height);
      ghost var written := rtImage[..][Index(nextx, nexty, width) := Opaque(colour)];
      rtImage[Index(nextx, nexty, width)] := Opaque(colour);
      assert rtImage[..] == written;

      StepCursor();
      progress := progress + 1;
      assert ImageMatches(rtImage[..], width, height, progress);
    }

    /**
     * The cursor update at the end of `renderRT`: down the column, then on to
     * the next column, refreshing the window each time another
     * UpdateInterval of the columns is done and once more at the end.
     */
    method StepCursor()
      requires !stop && 0 <= nextx < width && 0 <= nexty < height
      modifies this
      ensures Cursor(nextx, nexty, stop) == Advance(Cursor(old(nextx), old(nexty), false), width, height)
      ensures stop ==> refreshes > old(refreshes)
      ensures old(nexty) + 1 < height ==> refreshes == old(refreshes)
      ensures var due := MarkReached(old(nextx), old(nexty), width, height, old(nextDot));
        && nextDot == old(nextDot) + (if due then UpdateInterval else 0.0)
        && refreshes == old(refreshes) + (if due then 1 else 0) + (if stop then 1 else 0)
      ensures rtImage == old(rtImage) && progress == old(progress)
    {
      nexty := nexty + 1;
      if nexty >= height {
        nexty := 0;
        nextx := nextx + 1;
        if (nextx as real) / (width as real) >= nextDot {
          nextDot := nextDot + UpdateInterval;
          refreshes := refreshes + 1;
        }
        if nextx >= width {
          refreshes := refreshes + 1;
          nextx := 0;
          stop := true;
        }
      }
    }

    /**
     * `renderRT(restart)`: restart if asked, allocate the buffer if there is
     * none, then one tick.  After a restart the buffer is new and holds
     * exactly one opaque entry, pixel (0, 0).
     */
    method RenderRT(restart: bool, pixelColour: (int, int) -> Vec3)
      requires Valid()
      modifies this, rtImage
      ensures Valid() && rtImage != null
      ensures restart ==>
        var due := MarkReached(0, 0, width, height, UpdateInterval);
        && nextDot == UpdateInterval + (if due then UpdateInterval else 0.0)
        && refreshes == old(refreshes) + (if due then 1 else 0) + (if stop then 1 else 0)
      ensures !restart && old(stop) ==> nextDot == old(nextDot)
      ensures !restart && !old(stop) ==>
        var due := MarkReached(old(nextx), old(nexty), width, height, old(nextDot));
        && nextDot == old(nextDot) + (if due then UpdateInterval else 0.0)
        && refreshes == old(refreshes) + (if due then 1 else 0) + (if stop then 1 else 0)
      ensures restart ==>
        && fresh(rtImage) && progress == 1
        && rtImage[0] == Opaque(pixelColour(0, 0))
        && forall i | 1 <= i < rtImage.Length :: rtImage[i] == Transparent
      // without a restart an existing buffer is kept, and a missing one is made
      ensures !restart && old(rtImage) != null ==> rtImage == old(rtImage)
      ensures !restart && old(rtImage) == null ==> fresh(rtImage)
      // stopped: nothing moves and no pixel is written
      ensures !restart && old(stop) ==>
        && stop && nextx == old(nextx) && nexty == old(nexty)
        && progress == old(progress) && refreshes == old(refreshes)
        && (old(rtImage) != null ==> rtImage[..] == old(rtImage[..]))
        && (old(rtImage) == null ==> forall i | 0 <= i < rtImage.Length :: rtImage[i] == Transparent)
      // running: the cursor's pixel becomes opaque and the cursor advances
      ensures !restart && !old(stop) && old(rtImage) != null ==>
        0 <= Index(old(nextx), old(nexty), width) < old(rtImage.Length)
      ensures !restart && !old(stop) ==>
        && Cursor(nextx, nexty, stop) == Advance(Cursor(old(nextx), old(nexty), false), width, height)
        && progress == old(progress) + 1
        && (old(rtImage) != null ==>
              rtImage[..] == old(rtImage[..])[Index(old(nextx), old(nexty), width) :=
                                              Opaque(pixelColour(old(nextx), old(nexty)))])
        && (old(rtImage) == null ==>
              && rtImage[0] == Opaque(pixelColour(0, 0))
              && forall i | 1 <= i < rtImage.Length :: rtImage[i] == Transparent)
    {
      if restart {
        ResetCursor();
        StartImage(pixelColour);
      } else if rtImage == null {
        StartImage(pixelColour);
      } else {
        Tick(pixelColour);
      }
    }

    /**
     * `renderRT` when there is no buffer: a new transparent one is made, and
     * a running scheduler then writes pixel (0, 0) into it.
     */
    method StartImage(pixelColour: (int, int) -> Vec3)
      requires Valid() && rtImage == null
      modifies this
      ensures Valid() && rtImage != null && fresh(rtImage)
      ensures old(stop) ==>
        && stop && nextx == 0 && nexty == 0 && progress == 0 && refreshes == old(refreshes)
        && forall i | 0 <= i < rtImage.Length :: rtImage[i] == Transparent
      ensures old(stop) ==> nextDot == old(nextDot)
      ensures !old(stop) ==>
        var due := MarkReached(0, 0, width, height, old(nextDot));
        && nextDot == old(nextDot) + (if due then UpdateInterval else 0.0)
        && refreshes == old(refreshes) + (if due then 1 else 0) + (if stop then 1 else 0)
      ensures !old(stop) ==>
        && Cursor(nextx, nexty, stop) == Advance(Cursor(0, 0, false), width, height)
        && progress == 1
        && rtImage[0] == Opaque(pixelColour(0, 0))
        && forall i | 1 <= i < rtImage.Length :: rtImage[i] == Transparent
    {
      AllocateImage();
      ghost var cleared := rtImage[..];
      Tick(pixelColour);
      assert Index(0, 0, width) == 0;
      assert !old(stop) ==> rtImage[..] == cleared[0 := Opaque(pixelColour(0, 0))];
    }
  }
}
