/** `str.extract(r"(\d{4})-W(\d{2})")` on one period label: the first match
    anywhere in the label gives the year and the week. */
module Period {
  import opened Tables

  predicate IsDigit(c: char)
  {
    '0' <= c <= '9'
  }

  predicate AllDigits(s: string)
  {
    forall k :: 0 <= k < |s| ==> IsDigit(s[k])
  }

  /** The pattern `\d{4}-W\d{2}` matches the label at position `p`. */
  predicate PeriodAt(s: string, p: nat)
  {
    p + 8 <= |s| && AllDigits(s[p..p + 4]) && s[p + 4] == '-' && s[p + 5] == 'W'
    && AllDigits(s[p + 6..p + 8])
  }

  /** The leftmost match position at or after `p`, as a regular-expression
      search finds it. */
  function FirstPeriodFrom(s: string, p: nat): (r: Option<nat>)
    ensures r.Some? ==> p <= r.value && PeriodAt(s, r.value)
    ensures r.Some? ==> forall q :: p <= q < r.value ==> !PeriodAt(s, q)
    ensures r.None? ==> forall q :: p <= q ==> !PeriodAt(s, q)
    decreases |s| - p
  {
    if p + 8 > |s| then None
    else if PeriodAt(s, p) then Some(p)
    else FirstPeriodFrom(s, p + 1)
  }

  /** The year and week digit groups of the first match, or `None` (both
      fields missing) when the label holds no match. */
  function ExtractPeriod(s: string): (r: Option<(string, string)>)
    ensures r.None? <==> forall q :: !PeriodAt(s, q)
    ensures r.Some? ==>
      |r.value.0| == 4 && AllDigits(r.value.0) && |r.value.1| == 2 && AllDigits(r.value.1)
    ensures r.Some? ==> exists q: nat ::
      && PeriodAt(s, q)
      && (forall q' :: 0 <= q' < q ==> !PeriodAt(s, q'))
      && r.value == (s[q..q + 4], s[q + 6..q + 8])
  {
    match FirstPeriodFrom(s, 0)
    case None => None
    case Some(q) => Some((s[q..q + 4], s[q + 6..q + 8]))
  }

  /** Two label forms: a plain `YYYY-Wnn` label and a label without any
      period, which keeps its row with no year or week. */
  lemma ExtractExamples()
    ensures ExtractPeriod("2021-W05") == Some(("2021", "05"))
    ensures ExtractPeriod("Total") == None
  {
    var s := "2021-W05";
    assert s[0..4] == "2021" && s[6..8] == "05";
    assert PeriodAt(s, 0);
  }

  /** The search is unanchored and takes the first match: text around the
      pattern is ignored and a later match is never used. */
  lemma ExtractTakesFirstMatch()
    ensures ExtractPeriod("x2020-W012021-W02") == Some(("2020", "01"))
  {
    var s := "x2020-W012021-W02";
    assert !PeriodAt(s, 0) by { assert !IsDigit(s[0..4][0]); }
    assert s[1..5] == "2020" && s[7..9] == "01";
    assert PeriodAt(s, 1);
    assert FirstPeriodFrom(s, 1) == Some(1);
  }

  /** A match inside `s` is not disturbed by text appended after it. */
  lemma PeriodAtPrefix(s: string, t: string, q: nat)
    requires q + 8 <= |s|
    ensures PeriodAt(s + t, q) <==> PeriodAt(s, q)
  {
    var u := s + t;
    assert u[q..q + 4] == s[q..q + 4];
    assert u[q + 6..q + 8] == s[q + 6..q + 8];
  }

  lemma {:induction false} FirstPeriodFromAppend(s: string, t: string, p: nat)
    requires FirstPeriodFrom(s, p).Some?
    ensures FirstPeriodFrom(s + t, p) == FirstPeriodFrom(s, p)
    decreases |s| - p
  {
    PeriodAtPrefix(s, t, p);
    if !PeriodAt(s, p) {
      FirstPeriodFromAppend(s, t, p + 1);
    }
  }

  /** Appending text to a label that holds a period keeps its year and week,
      so a suffix such as pandas' ".1" on a repeated period header changes
      nothing. */
  lemma {:induction false} ExtractKeepsSuffix(s: string, t: string)
    requires ExtractPeriod(s).Some?
    ensures ExtractPeriod(s + t) == ExtractPeriod(s)
  {
    FirstPeriodFromAppend(s, t, 0);
    var q := FirstPeriodFrom(s, 0).value;
    assert (s + t)[q..q + 4] == s[q..q + 4];
    assert (s + t)[q + 6..q + 8] == s[q + 6..q + 8];
  }
}
