/**
 * `_extract_days_from_str`, which both the checker and the status source define: the day
 * count before the first 'd' of an expiry text such as "12d".
 */
module Expiry {
  import opened Wrappers
  import opened Text

  /** What the parse yields: Python's None, a positive day count, or an exception from `int()`. */
  datatype Days = NoDays | Days(n: int) | Raises

  /**
   * The function as the source writes it: the index of 'd' is taken in the string as given,
   * but the slice is taken of the stripped string.
   */
  function ExtractDaysAsWritten(s: string): Days
  {
    var index := Find(s, 'd');
    var value := if index != -1 then PyInt(Prefix(Strip(s), index)) else Some(-1);
    match value
    case None => Raises
    case Some(v) => if v > 0 then Days(v) else NoDays
  }

  /** The function as intended: the index of 'd' is taken in the stripped string that is sliced. */
  function ExtractDays(s: string): (r: Days)
    ensures 'd' !in s ==> r == NoDays
    ensures r.Days? ==> r.n > 0
  {
    var t := Strip(s);
    var index := Find(t, 'd');
    StripInside(s);
    if index == -1 then NoDays
    else
      match PyInt(t[..index])
      case None => Raises
      case Some(v) => if v > 0 then Days(v) else NoDays
  }

  /** The text the status source writes for an expiry `days` away: `str(days) + 'd'`. */
  function DayCountText(days: int): string
  {
    IntText(days) + "d"
  }

  /** Parsing the status source's own expiry text gives the day count back when it is positive. */
  lemma DayCountRoundTrip(days: int)
    ensures ExtractDays(DayCountText(days)) == if days > 0 then Days(days) else NoDays
    ensures ExtractDaysAsWritten(DayCountText(days)) == ExtractDays(DayCountText(days))
  {
    var s := DayCountText(days);
    var r := IntText(days);
    assert |r| > 0 && (IsDigit(r[0]) || r[0] == '-') by { IntTextChars(days, r[0]); }
    StripUnchanged(s);
    assert 'd' !in r by {
      if 'd' in r { IntTextChars(days, 'd'); }
    }
    assert s[..|r|] == r;
    assert Find(s, 'd') == |r|;
    IntTextParses(days);
  }

  /** The intended parse depends on the stripped text only. */
  lemma ExtractDaysIgnoresPadding(s: string)
    ensures ExtractDays(s) == ExtractDays(Strip(s))
  {
    StripIdempotent(s);
  }

  /** Without leading white space the written and the intended parse agree. */
  lemma {:induction false} AsWrittenAgrees(s: string)
    requires s == [] || !IsSpace(s[0])
    ensures ExtractDaysAsWritten(s) == ExtractDays(s)
  {
    var t := Strip(s);
    assert t == TrimEnd(s);
    TrimEndPrefix(s);
    assert forall j :: |t| <= j < |s| ==> IsSpace(s[j]) by {
      TrimEndDropsSpaces(s);
    }
    var i := Find(s, 'd');
    if i != -1 {
      assert s[i] == 'd' && !IsSpace('d');
      assert t[..i] == s[..i];
      assert Find(t, 'd') == i by {
        assert 'd' !in t[..i];
        FindFirst(t, 'd', i);
      }
    } else {
      assert 'd' !in t;
    }
  }

  /** `rstrip` removes white space only. */
  lemma {:induction false} TrimEndDropsSpaces(s: string)
    ensures forall j :: |TrimEnd(s)| <= j < |s| ==> IsSpace(s[j])
  {
    if |s| > 0 && IsSpace(s[|s| - 1]) {
      TrimEndDropsSpaces(s[..|s| - 1]);
    }
  }

  /** The index of a 'd' with none before it is what `find` returns. */
  lemma FindFirst(t: string, c: char, i: int)
    requires 0 <= i < |t| && t[i] == c && c !in t[..i]
    ensures Find(t, c) == i
  {
  }

  lemma FiveDaysText()
    ensures DayCountText(5) == "5d"
  {
    assert NatText(5) == "5";
  }

  /** "5d" is five days. */
  lemma FiveDays()
    ensures ExtractDays("5d") == Days(5)
  {
    DayCountRoundTrip(5);
    FiveDaysText();
  }

  /** A backup past its expiry (a negative count) reports no days. */
  lemma NegativeDays()
    ensures ExtractDays("-3d") == NoDays
  {
    DayCountRoundTrip(-3);
    NegativeDaysText();
  }

  lemma NegativeDaysText()
    ensures DayCountText(-3) == "-3d"
  {
    assert NatText(3) == "3";
  }

  /** The fallback text of a backup without an expiry carries no day count. */
  lemma NotAvailableHasNoDays()
    ensures ExtractDays("N/A") == NoDays
  {
    NoDaysWithoutD("N/A");
  }

  /** Nor does the text of a backup still in progress. */
  lemma InProgressHasNoDays()
    ensures ExtractDays("in progress") == NoDays
  {
    NoDaysWithoutD("in progress");
  }

  /** A text without a 'd' gives no days. */
  lemma NoDaysWithoutD(s: string)
    requires 'd' !in s
    ensures ExtractDays(s) == NoDays
  {
  }

  /**
   * The discrepancy: with one leading space the written function slices up to and including
   * the 'd', so `int("5d")` raises, where the intended parse gives 5.
   */
  lemma LeadingSpaceCounterexample()
    ensures ExtractDaysAsWritten(" 5d") == Raises
    ensures ExtractDays(" 5d") == Days(5)
  {
    assert Find(" 5d", 'd') == 2;
    assert TrimStart(" 5d") == "5d" by {
      assert IsSpace(' ') && " 5d"[1..] == "5d" && !IsSpace('5');
    }
    assert Strip(" 5d") == "5d" by { StripUnchanged("5d"); }
    assert Prefix("5d", 2) == "5d";
    assert PyInt("5d") == None by {
      StripUnchanged("5d");
      assert !AllDigits("5d") by { assert !IsDigit("5d"[1]); }
    }
    ExtractDaysIgnoresPadding(" 5d");
    FiveDays();
  }
}
