/** Hour-bucket windows and provider totals: outward rounding, repeated buckets and floating-point sums. */
module SendingGroups {
  import opened Outcomes
  import opened SafeIntegers

  const HOUR_MS := 3_600_000
  const MAX_WINDOW_MS := 7 * 86_400_000
  const MAX_ROWS := 512
  const MAX_DAY_ROWS := 100
  const TWO_53 := 0x20_0000_0000_0000

  // ---------- the window ----------

  datatype Window = Window(queriedStart: int, queriedEnd: int, hourRounded: bool)

  /** Rounds the window outward to whole hours. The divisor is positive, so division rounds down. */
  function ResolveWindow(start: int, end: int): Option<Window> {
    if end <= start || end - start > MAX_WINDOW_MS then None
    else Some(Window(
      start / HOUR_MS * HOUR_MS,
      if end % HOUR_MS == 0 then end - HOUR_MS else end / HOUR_MS * HOUR_MS,
      start % HOUR_MS != 0 || end % HOUR_MS != 0))
  }

  /** The provider's filter: bucket labels between the two bounds, both included. */
  predicate IsQueried(w: Window, bucket: int) {
    bucket % HOUR_MS == 0 && w.queriedStart <= bucket <= w.queriedEnd
  }

  /** The hour a label stands for. */
  predicate Covers(bucket: int, instant: int) {
    bucket <= instant < bucket + HOUR_MS
  }

  /** The queried buckets are exactly the hours that share an instant with [start, end). */
  lemma {:induction false} QueriedBucketsOverlap(start: int, end: int, bucket: int)
    requires ResolveWindow(start, end).Some? && bucket % HOUR_MS == 0
    ensures IsQueried(ResolveWindow(start, end).value, bucket)
       <==> exists instant | start <= instant < end :: Covers(bucket, instant)
  {
    var first := if start < bucket then bucket else start;
    HourBounds(start, end, bucket);
    assert bucket < end && start < bucket + HOUR_MS ==> start <= first < end && Covers(bucket, first);
  }

  /** The rounded bounds, compared with a whole hour. */
  lemma HourBounds(start: int, end: int, bucket: int)
    requires ResolveWindow(start, end).Some? && bucket % HOUR_MS == 0
    ensures IsQueried(ResolveWindow(start, end).value, bucket) <==> bucket < end && start < bucket + HOUR_MS
  {
    var b := bucket / HOUR_MS;
    assert bucket == b * HOUR_MS;
    assert start / HOUR_MS <= b <==> start < (b + 1) * HOUR_MS;
    assert b <= (end - 1) / HOUR_MS <==> bucket <= end - 1;
  }

  /** A window of at most seven days needs at most 169 buckets, and that many are needed. */
  lemma {:induction false} BucketCount(start: int, end: int)
    requires ResolveWindow(start, end).Some?
    ensures var w := ResolveWindow(start, end).value;
            && w.queriedStart % HOUR_MS == 0 && w.queriedEnd % HOUR_MS == 0
            && 1 <= (w.queriedEnd - w.queriedStart) / HOUR_MS + 1 <= 169
    ensures var w := ResolveWindow(1, 604_800_001);
            w.Some? && (w.value.queriedEnd - w.value.queriedStart) / HOUR_MS + 1 == 169
  {
  }

  /** An instant that some queried hour contains. */
  ghost predicate IsCovered(w: Window, instant: int) {
    exists bucket | IsQueried(w, bucket) :: Covers(bucket, instant)
  }

  ghost predicate UnionIsWindow(w: Window, start: int, end: int) {
    forall instant :: start <= instant < end <==> IsCovered(w, instant)
  }

  /** The report admits rounding exactly when the queried hours reach outside the requested window. */
  lemma {:induction false} RoundedIffWider(start: int, end: int)
    requires ResolveWindow(start, end).Some?
    ensures ResolveWindow(start, end).value.hourRounded <==> !UnionIsWindow(ResolveWindow(start, end).value, start, end)
  {
    var w := ResolveWindow(start, end).value;
    if !w.hourRounded {
      forall instant ensures start <= instant < end <==> IsCovered(w, instant) {
        var hour := instant / HOUR_MS * HOUR_MS;
        assert Covers(hour, instant);
        assert start <= instant < end ==> IsQueried(w, hour);
      }
    } else if start % HOUR_MS != 0 {
      assert IsQueried(w, w.queriedStart) && Covers(w.queriedStart, start - 1);
      assert IsCovered(w, start - 1);
    } else {
      assert IsQueried(w, w.queriedEnd) && Covers(w.queriedEnd, end);
      assert IsCovered(w, end);
    }
  }

  /** Nothing of the requested window is left out, and nothing an hour or more outside is let in. */
  lemma {:induction false} UnionIsCloseCover(start: int, end: int, instant: int)
    requires ResolveWindow(start, end).Some?
    ensures var w := ResolveWindow(start, end).value;
            && (start <= instant < end ==> IsCovered(w, instant))
            && (IsCovered(w, instant) ==> start - HOUR_MS < instant < end + HOUR_MS)
  {
    var w := ResolveWindow(start, end).value;
    var hour := instant / HOUR_MS * HOUR_MS;
    assert Covers(hour, instant);
    assert start <= instant < end ==> IsQueried(w, hour);
  }

  // ---------- totals in double precision ----------

  /**
    Rounding an exact integer to a double, as far as it is used: monotone, and exact up to 2^53.
    At most 512 rows of at most 2^53 are added, so no sum is near the largest double.
   */
  ghost predicate IsRounding(round: int -> int) {
    && (forall a, b | a <= b :: round(a) <= round(b))
    && (forall n | 0 <= n <= TWO_53 :: round(n) == n)
  }

  function Sum(counts: seq<int>): int {
    if counts == [] then 0 else Sum(counts[..|counts| - 1]) + counts[|counts| - 1]
  }

  /** What the fold computes: every addition is rounded. */
  function RoundedSum(round: int -> int, counts: seq<int>): int {
    if counts == [] then 0
    else round(RoundedSum(round, counts[..|counts| - 1]) + counts[|counts| - 1])
  }

  lemma {:induction false} RoundedSumExact(round: int -> int, counts: seq<int>)
    requires IsRounding(round) && forall c | c in counts :: IsSafeCount(c)
    ensures Sum(counts) >= 0
    ensures Sum(counts) <= TWO_53 ==> RoundedSum(round, counts) == Sum(counts)
    ensures Sum(counts) > TWO_53 ==> RoundedSum(round, counts) >= TWO_53
  {
    if counts != [] {
      var n := |counts| - 1;
      assert counts == counts[..n] + [counts[n]];
      RoundedSumExact(round, counts[..n]);
      assert IsSafeCount(counts[n]) by { assert counts[n] in counts; }
      var exact := RoundedSum(round, counts[..n]) + counts[n];
      assert exact >= TWO_53 ==> round(exact) >= round(TWO_53);
    }
  }

  /** The overflow check accepts a total exactly when the true sum is a safe integer, and then reports that sum. */
  lemma {:induction false} AcceptedTotalIsTrueSum(round: int -> int, counts: seq<int>)
    requires IsRounding(round) && forall c | c in counts :: IsSafeCount(c)
    ensures IsSafeCount(RoundedSum(round, counts)) <==> Sum(counts) <= MAX_SAFE_INTEGER
    ensures IsSafeCount(RoundedSum(round, counts)) ==> RoundedSum(round, counts) == Sum(counts)
  {
    RoundedSumExact(round, counts);
  }

  // ---------- the collectors ----------

  /** A grouped row, its key an hour or a day. Malformed stands for a row the reader refuses. */
  datatype RawRow =
    | Malformed
    | Row(group: Group)

  datatype Group = Group(bucket: int, status: string, count: int)

  datatype ErrorCode = ResponseInvalid | ResultTruncated

  predicate AllReadable(raws: seq<RawRow>) {
    forall i | 0 <= i < |raws| :: raws[i].Row? && IsSafeCount(raws[i].group.count)
  }

  function Counts(groups: seq<Group>): (counts: seq<int>)
    ensures |counts| == |groups|
  {
    seq(|groups|, i requires 0 <= i < |groups| => groups[i].count)
  }

  predicate Repeats(groups: seq<Group>) {
    exists i, j | 0 <= i < j < |groups| :: groups[i].bucket == groups[j].bucket && groups[i].status == groups[j].status
  }

  function GroupsOf(raws: seq<RawRow>): (groups: seq<Group>)
    requires AllReadable(raws)
    ensures |groups| == |raws| && forall i | 0 <= i < |raws| :: groups[i] == raws[i].group
  {
    seq(|raws|, i requires 0 <= i < |raws| => raws[i].group)
  }

  /** The hourly collector: no page at its bound, no repeated bucket, and a total that is the true sum. */
  method CollectHourlyTotal(round: int -> int, raws: seq<RawRow>) returns (r: Result<int, ErrorCode>)
    requires IsRounding(round)
    ensures r == Err(ResultTruncated) <==> |raws| >= 512
    ensures r.Ok? <==>
              && |raws| < 512
              && AllReadable(raws)
              && !Repeats(GroupsOf(raws))
              && Sum(Counts(GroupsOf(raws))) <= MAX_SAFE_INTEGER
    ensures r.Ok? ==> r.value == Sum(Counts(GroupsOf(raws)))
  {
    hide IsRounding, RoundedSum, Sum;
    if |raws| >= MAX_ROWS { return Err(ResultTruncated); }
    if !AllReadable(raws) { return Err(ResponseInvalid); }
    var groups := GroupsOf(raws);
    var seen: set<(int, string)> := {};
    for i := 0 to |groups|
      invariant forall key :: key in seen <==>
                  exists k | 0 <= k < i :: (groups[k].bucket, groups[k].status) == key
      invariant !Repeats(groups[..i])
    {
      var key := (groups[i].bucket, groups[i].status);
      if key in seen {
        var k :| 0 <= k < i && (groups[k].bucket, groups[k].status) == key;
        assert Repeats(groups);
        return Err(ResponseInvalid);
      }
      assert forall k | 0 <= k < i :: (groups[k].bucket, groups[k].status) in seen;
      seen := seen + {key};
    }
    assert groups[..|groups|] == groups;
    var total := RoundedSum(round, Counts(groups));
    AcceptedTotalIsTrueSum(round, Counts(groups));
    RoundedSumExact(round, Counts(groups));
    if !IsSafeCount(total) { return Err(ResponseInvalid); }
    return Ok(total);
  }

  /** The daily collector computes the same total but lets a repeated day and status through. */
  function CollectDailyTotal(round: int -> int, raws: seq<RawRow>): Result<int, ErrorCode> {
    if |raws| >= MAX_DAY_ROWS then Err(ResultTruncated)
    else if !AllReadable(raws) then Err(ResponseInvalid)
    else
      var total := RoundedSum(round, Counts(GroupsOf(raws)));
      if IsSafeCount(total) then Ok(total) else Err(ResponseInvalid)
  }

  lemma {:induction false} DailyTotalIsTrueSum(round: int -> int, raws: seq<RawRow>)
    requires IsRounding(round)
    ensures CollectDailyTotal(round, raws).Ok? <==>
              && |raws| < 100
              && AllReadable(raws)
              && Sum(Counts(GroupsOf(raws))) <= MAX_SAFE_INTEGER
    ensures CollectDailyTotal(round, raws).Ok? ==>
              CollectDailyTotal(round, raws).value == Sum(Counts(GroupsOf(raws)))
    ensures CollectDailyTotal(round, raws) == Err(ResultTruncated) <==> |raws| >= 100
  {
    if AllReadable(raws) {
      AcceptedTotalIsTrueSum(round, Counts(GroupsOf(raws)));
    }
  }
}
