/** The pure layout helpers of the terminal dashboard: string truncation, column widths and the margin. */
module View {
  import opened GoStrings

  const Ellipsis: GoString := "..."

  /** `truncateEnd`: `s` cut to at most `max` bytes; a cut string of more than three bytes ends in "...". */
  function TruncateEnd(s: GoString, max: int): (r: GoString)
    ensures max <= 0 ==> r == []
    ensures 0 <= max && |s| <= max ==> r == s
    ensures 0 < max < |s| ==> |r| == max
    ensures 0 < max < |s| && max <= 3 ==> r == s[..max]
    ensures 3 < max < |s| ==> r[..max - 3] == s[..max - 3] && r[max - 3..] == Ellipsis
  {
    if max <= 0 then []
    else if |s| <= max then s
    else if max <= 3 then s[..max]
    else s[..max - 3] + Ellipsis
  }

  /** `truncateMiddle`: `s` cut to at most `max` bytes; a cut string of more than three bytes keeps
      `h = (max - 3) / 2` bytes from each end with "..." between them. */
  function TruncateMiddle(s: GoString, max: int): (r: GoString)
    ensures max <= 0 ==> r == []
    ensures 0 <= max && |s| <= max ==> r == s
    ensures 0 < max < |s| && max <= 3 ==> r == s[..max]
    ensures 3 < max < |s| ==>
      var h := (max - 3) / 2;
      |r| == 2 * h + 3 && max - 1 <= |r| <= max &&
      r[..h] == s[..h] && r[h..h + 3] == Ellipsis && r[h + 3..] == s[|s| - h..]
  {
    if max <= 0 then []
    else if |s| <= max then s
    else if max <= 3 then s[..max]
    else
      var half := (max - 3) / 2;
      s[..half] + Ellipsis + s[|s| - half..]
  }

  /** Neither truncation makes a string longer than `max`, for any `max >= 0`. */
  lemma TruncationsFit(s: GoString, max: int)
    requires max >= 0
    ensures |TruncateEnd(s, max)| <= max && |TruncateMiddle(s, max)| <= max
  {
  }

  /** Truncating a second time with the same bound changes nothing. */
  lemma TruncationsIdempotent(s: GoString, max: int)
    ensures TruncateEnd(TruncateEnd(s, max), max) == TruncateEnd(s, max)
    ensures TruncateMiddle(TruncateMiddle(s, max), max) == TruncateMiddle(s, max)
  {
    if max >= 0 {
      TruncationsFit(s, max);
    }
  }

  /** `domainWidth`: 30 when the terminal width is unknown (0), else 18, 22 or 32 by width band. */
  function DomainWidth(width: int): (w: int)
    ensures w == 30 <==> width == 0
    ensures width != 0 ==> (w == 18 <==> width < 60) && (w == 32 <==> width >= 90)
    ensures 60 <= width < 90 ==> w == 22
  {
    if width == 0 then 30
    else if width < 60 then 18
    else if width < 90 then 22
    else 32
  }

  /** `alertWidth`: 40 when the terminal width is unknown (0), else 28, 34 or 48 by width band. */
  function AlertWidth(width: int): (w: int)
    ensures w == 40 <==> width == 0
    ensures width != 0 ==> (w == 28 <==> width < 70) && (w == 48 <==> width >= 90)
    ensures 70 <= width < 90 ==> w == 34
  {
    if width == 0 then 40
    else if width < 70 then 28
    else if width < 90 then 34
    else 48
  }

  /** A wider known terminal never gets a narrower column. */
  lemma WidthsMonotone(a: int, b: int)
    requires a != 0 && b != 0 && a <= b
    ensures DomainWidth(a) <= DomainWidth(b) && AlertWidth(a) <= AlertWidth(b)
  {
  }

  /** `marginForWidth`: no margin on a known terminal narrower than 80 columns, else a margin of 1. */
  function MarginForWidth(width: int): (m: int)
    ensures m == 0 || m == 1
    ensures m == 0 <==> 0 < width < 80
  {
    if width > 0 && width < 80 then 0 else 1
  }
}
