/** The usage bar of server_monitor.c, over the reals and a bounded character buffer. */
module UsageBar {
  import opened Common

  function Clamp(percent: real): real {
    if percent < 0.0 then 0.0 else if percent > 100.0 then 100.0 else percent
  }

  /** A C cast from double to int: truncation towards zero. */
  function Truncate(x: real): int {
    if x >= 0.0 then x.Floor else -((-x).Floor)
  }

  /** The width of the bar scaled by the clamped percentage, rounded half up. */
  function Filled(percent: real, width: int): int {
    (Clamp(percent) * width as real / 100.0 + 0.5).Floor
  }

  /** Hashes up to the filled count, dots after it, cut to the cells that fit. */
  function Bar(percent: real, width: nat, cells: nat): (bar: seq<char>)
    ensures |bar| == Min(width, cells)
  {
    seq(Min(width, cells), i => if i < Filled(percent, width) then '#' else '.')
  }

  lemma ScaledBounds(percent: real, width: int)
    requires width >= 0
    ensures 0.0 <= Clamp(percent) * width as real / 100.0 <= width as real
  {
    var p, w := Clamp(percent), width as real;
    assert 0.0 <= p * w;
    assert p * w <= 100.0 * w;
  }

  /** The count never leaves 0..width, so that over the reals no later clamp fires. */
  lemma FilledInRange(percent: real, width: int)
    requires width >= 0
    ensures 0 <= Filled(percent, width) <= width
  {
    ScaledBounds(percent, width);
  }

  lemma FilledExtremes(percent: real, width: int)
    requires width >= 0
    ensures percent <= 0.0 ==> Filled(percent, width) == 0
    ensures percent >= 100.0 ==> Filled(percent, width) == width
  {
    var w := width as real;
    if percent <= 0.0 {
      assert Clamp(percent) * w / 100.0 == 0.0;
    } else if percent >= 100.0 {
      assert Clamp(percent) * w / 100.0 == w;
    }
  }

  /** More usage never shows fewer hashes. */
  lemma FilledIsMonotone(p: real, q: real, width: int)
    requires width >= 0 && p <= q
    ensures Filled(p, width) <= Filled(q, width)
  {
    var w := width as real;
    var a, b := Clamp(p), Clamp(q);
    assert (b - a) * w >= 0.0;
    assert b * w - a * w == (b - a) * w;
    assert a * w / 100.0 <= b * w / 100.0;
  }

  /** The count is within half a cell of the exact share. */
  lemma FilledIsNearest(percent: real, width: int)
    requires width >= 0
    ensures var exact := Clamp(percent) * width as real / 100.0;
            -0.5 <= Filled(percent, width) as real - exact <= 0.5
  {
  }

  /** Between 0 and 100 percent the share is rounded to the nearest cell, and a half is rounded up. */
  lemma HalfRoundsUp(percent: real, width: nat)
    requires 0.0 <= percent <= 100.0
    ensures var exact := percent * width as real / 100.0;
            Filled(percent, width) as real - 0.5 <= exact < Filled(percent, width) as real + 0.5
    ensures 2.0 * percent * width as real == (2 * Filled(percent, width) - 1) as real * 100.0 ==>
            percent * width as real / 100.0 == Filled(percent, width) as real - 0.5
  {
  }

  /** A run of hashes, then dots. */
  lemma BarIsSplit(percent: real, width: nat, cells: nat)
    ensures forall i :: 0 <= i < Min(width, cells) ==> Bar(percent, width, cells)[i] in {'#', '.'}
    ensures forall i, j :: 0 <= i < j < Min(width, cells) && Bar(percent, width, cells)[j] == '#' ==>
              Bar(percent, width, cells)[i] == '#'
  {
  }

  function Hashes(bar: seq<char>): nat {
    if bar == [] then 0 else Hashes(bar[..|bar| - 1]) + if bar[|bar| - 1] == '#' then 1 else 0
  }

  lemma {:induction false} HashesOfSplit(bar: seq<char>, k: int)
    requires 0 <= k
    requires forall i :: 0 <= i < |bar| ==> (bar[i] == '#' <==> i < k)
    ensures Hashes(bar) == Min(k, |bar|)
  {
    if bar != [] {
      HashesOfSplit(bar[..|bar| - 1], k);
    }
  }

  /** What the reader counts on the screen: the filled count, or all cells if fewer fit. */
  lemma BarShowsFilled(percent: real, width: nat, cells: nat)
    ensures Hashes(Bar(percent, width, cells)) == Min(Filled(percent, width), cells)
  {
    FilledInRange(percent, width);
    HashesOfSplit(Bar(percent, width, cells), Filled(percent, width));
  }

  /** The count as the program computes it: a cast instead of a floor, and two more clamps. */
  method CountFilled(usagePercent: real, width: int) returns (filled: int)
    requires width > 0
    ensures filled == Filled(usagePercent, width)
  {
    var percent := usagePercent;
    if percent < 0.0 {
      percent := 0.0;
    } else if percent > 100.0 {
      percent := 100.0;
    }
    ScaledBounds(usagePercent, width);
    ShareReordered(percent, width as real);
    filled := Truncate(percent / 100.0 * width as real + 0.5);
    FilledInRange(usagePercent, width);
    if filled < 0 {
      filled := 0;
    }
    if filled > width {
      filled := width;
    }
  }

  lemma ShareReordered(p: real, w: real)
    ensures p / 100.0 * w == p * w / 100.0
  {
  }

  /** build_usage_bar: the bar, a terminator inside the buffer, and nothing else is written. */
  method BuildUsageBar(buffer: array<char>, usagePercent: real, width: int)
    modifies buffer
    ensures buffer.Length == 0 || width <= 0 ==> buffer[..] == old(buffer[..])
    ensures buffer.Length > 0 && width > 0 ==>
      var bar := Bar(usagePercent, width, buffer.Length - 1);
      buffer[..] == bar + ['\0'] + old(buffer[|bar| + 1..])
  {
    if buffer.Length == 0 || width <= 0 {
      return;
    }
    var filled := CountFilled(usagePercent, width);
    ghost var bar := Bar(usagePercent, width, buffer.Length - 1);
    var index := 0;
    var i := 0;
    while i < width && index + 1 < buffer.Length
      invariant i == index <= |bar|
      invariant buffer[..index] == bar[..index]
      invariant buffer[index..] == old(buffer[index..])
    {
      buffer[index] := if i < filled then '#' else '.';
      index := index + 1;
      i := i + 1;
    }
    assert bar[..index] == bar;
    buffer[index] := '\0';
  }
}
