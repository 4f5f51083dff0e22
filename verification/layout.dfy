/**
 The text helpers the report table is laid out with: display width of
 characters and strings, right padding, dash rules, and the widest task name.
 */
module Layout {
  import opened Scheduler

  function Max(a: int, b: int): int
  {
    if a < b then b else a
  }

  /** A character whose code point is below 256. */
  predicate IsNarrow(c: char)
  {
    (c as int) < 256
  }

  /** `actual_width`: a narrow character takes one column, any other two. */
  function CharWidth(c: char): (w: nat)
    ensures 1 <= w <= 2
  {
    if IsNarrow(c) then 1 else 2
  }

  /**
   `actual_width_str`: the columns a string takes. It lies between one and
   two columns per character, and is exactly one per character precisely
   when every character is narrow.
   */
  function StrWidth(s: string): (w: nat)
    ensures |s| <= w <= 2 * |s|
    ensures w == |s| <==> forall i :: 0 <= i < |s| ==> IsNarrow(s[i])
    decreases |s|
  {
    if |s| == 0 then 0
    else
      var w := CharWidth(s[0]) + StrWidth(s[1..]);
      assert forall i :: 1 <= i < |s| ==> s[i] == s[1..][i - 1];
      w
  }

  /** Widths add up under concatenation. */
  lemma {:induction false} StrWidthAppend(a: string, b: string)
    ensures StrWidth(a + b) == StrWidth(a) + StrWidth(b)
    decreases |a|
  {
    if |a| == 0 {
      assert a + b == b;
    } else {
      assert (a + b)[1..] == a[1..] + b;
      StrWidthAppend(a[1..], b);
    }
  }

  /** A run of `n` spaces. */
  function Spaces(n: nat): (r: string)
    ensures |r| == n && forall k :: 0 <= k < n ==> r[k] == ' '
  {
    seq(n, _ => ' ')
  }

  /**
   `format_with_width`: `input` followed by one space for every column it
   falls short of `width`; the input is never cut.
   */
  method FormatWithWidth(input: string, width: int) returns (target: string)
    ensures target == input + Spaces(Max(0, width - StrWidth(input)))
  {
    target := input;
    var actualWidth := StrWidth(input);
    var delta := width - actualWidth;
    if delta > 0 {
      var i := 0;
      while i < delta
        invariant 0 <= i <= delta
        invariant target == input + Spaces(i)
      {
        assert Spaces(i) + " " == Spaces(i + 1);
        target := target + " ";
        i := i + 1;
      }
    } else {
      assert input + Spaces(0) == input;
    }
  }

  /**
   The padded string is exactly `width` columns wide, unless the input is
   already wider, in which case it is the input's own width.
   */
  lemma FormatWidth(input: string, width: int)
    ensures StrWidth(input + Spaces(Max(0, width - StrWidth(input)))) == Max(width, StrWidth(input))
  {
    var pad := Spaces(Max(0, width - StrWidth(input)));
    StrWidthAppend(input, pad);
    assert forall k :: 0 <= k < |pad| ==> IsNarrow(pad[k]);
  }

  /** `repeat`: a rule of `cnt` dashes, empty for a count that is not positive. */
  method Repeat(cnt: int) returns (ret: string)
    ensures |ret| == Max(0, cnt)
    ensures forall k :: 0 <= k < |ret| ==> ret[k] == '-'
  {
    ret := "";
    var i := 0;
    while i < cnt
      invariant |ret| == Max(0, i)
      invariant i <= Max(0, cnt)
      invariant forall k :: 0 <= k < |ret| ==> ret[k] == '-'
    {
      ret := ret + "-";
      i := i + 1;
    }
  }

  /**
   `find_max_length_of_tasks`: the display width of the widest task name,
   zero when there are no tasks.
   */
  method FindMaxLengthOfTasks(tasks: seq<Task>) returns (ret: nat)
    ensures forall i :: 0 <= i < |tasks| ==> StrWidth(tasks[i].name) <= ret
    ensures |tasks| == 0 ==> ret == 0
    ensures |tasks| > 0 ==> exists i :: 0 <= i < |tasks| && StrWidth(tasks[i].name) == ret
  {
    ret := 0;
    var j := 0;
    while j < |tasks|
      invariant 0 <= j <= |tasks|
      invariant forall i :: 0 <= i < j ==> StrWidth(tasks[i].name) <= ret
      invariant j > 0 ==> exists i :: 0 <= i < j && StrWidth(tasks[i].name) == ret
      invariant j == 0 ==> ret == 0
    {
      var task := tasks[j];
      if StrWidth(task.name) > ret {
        ret := StrWidth(task.name);
      } else if j == 0 {
        assert StrWidth(tasks[0].name) == 0;
      }
      j := j + 1;
    }
  }
}
