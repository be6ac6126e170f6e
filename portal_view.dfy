/**
 * The values the customer portal derives from the rows it is given: how
 * many milestones are done, which one is active, the rounded progress
 * percentage, the shortened review texts, the highlighted stars and the
 * rules for showing a milestone's note and date.
 */
module PortalView {
  import opened Wrappers
  import opened Domain

  /** The milestone fields the portal reads. */
  datatype Milestone = Milestone(
    title: string,
    status: MilestoneStatus,
    plannedDate: Option<string>,
    doneDate: Option<string>,
    note: Option<string>)

  // ---------------------------------------------------------------------
  // Progress
  // ---------------------------------------------------------------------

  /** `milestones.filter(m => m.status === 'done').length`. */
  function DoneCount(ms: seq<Milestone>): (n: nat)
    ensures n <= |ms|
  {
    if ms == [] then 0
    else DoneCount(ms[..|ms| - 1]) + (if ms[|ms| - 1].status == Done then 1 else 0)
  }

  /** The statuses of the milestones, in order. */
  function Statuses(ms: seq<Milestone>): (r: seq<MilestoneStatus>)
    ensures |r| == |ms| && forall i :: 0 <= i < |ms| ==> r[i] == ms[i].status
  {
    seq(|ms|, i requires 0 <= i < |ms| => ms[i].status)
  }

  /** The done count is the number of `Done` entries among the statuses. */
  lemma {:induction false} DoneCountIsMultiplicity(ms: seq<Milestone>)
    ensures DoneCount(ms) == multiset(Statuses(ms))[Done]
  {
    if ms != [] {
      var init := ms[..|ms| - 1];
      DoneCountIsMultiplicity(init);
      assert Statuses(ms) == Statuses(init) + [ms[|ms| - 1].status];
    }
  }

  /** Every milestone is done exactly when the count reaches the length. */
  lemma {:induction false} DoneCountAll(ms: seq<Milestone>)
    ensures DoneCount(ms) == |ms| <==> forall i :: 0 <= i < |ms| ==> ms[i].status == Done
  {
    if ms != [] {
      var init := ms[..|ms| - 1];
      DoneCountAll(init);
      assert forall i :: 0 <= i < |init| ==> init[i] == ms[i];
    }
  }

  /** No milestone is done exactly when the count is zero. */
  lemma {:induction false} DoneCountNone(ms: seq<Milestone>)
    ensures DoneCount(ms) == 0 <==> forall i :: 0 <= i < |ms| ==> ms[i].status != Done
  {
    if ms != [] {
      var init := ms[..|ms| - 1];
      DoneCountNone(init);
      assert forall i :: 0 <= i < |init| ==> init[i] == ms[i];
    }
  }

  /**
   * `milestones.find(m => m.status === 'active')`, as a position: the first
   * active milestone, or none when no milestone is active.
   */
  function ActiveIndex(ms: seq<Milestone>): (r: Option<nat>)
    ensures r.None? <==> forall i :: 0 <= i < |ms| ==> ms[i].status != Active
    ensures r.Some? ==> r.value < |ms| && ms[r.value].status == Active
    ensures r.Some? ==> forall j :: 0 <= j < r.value ==> ms[j].status != Active
  {
    if ms == [] then None
    else if ms[0].status == Active then Some(0)
    else
      match ActiveIndex(ms[1..])
      case None => None
      case Some(k) => Some(k + 1)
  }

  /** The active milestone shown as a chip above the timeline. */
  function ActiveMilestone(ms: seq<Milestone>): (r: Option<Milestone>)
    ensures r.None? <==> forall i :: 0 <= i < |ms| ==> ms[i].status != Active
    ensures r.Some? ==> exists i :: 0 <= i < |ms| && ms[i] == r.value && r.value.status == Active &&
                                    forall j :: 0 <= j < i ==> ms[j].status != Active
  {
    match ActiveIndex(ms)
    case None => None
    case Some(i) => Some(ms[i])
  }

  /**
   * `Math.round(done / Math.max(total, 1) * 100)` over exact rationals:
   * halves round up.
   */
  function RoundedPercent(done: nat, total: nat): (p: int)
    ensures var d := if total < 1 then 1 else total;
            d * (2 * p - 1) <= 200 * done < d * (2 * p + 1)
  {
    var d := if total < 1 then 1 else total;
    var p := (200 * done + d) / (2 * d);
    PercentBracket(done, d, p);
    p
  }

  lemma MulNonNegative(a: int, b: int)
    requires a >= 0 && b >= 0
    ensures a * b >= 0
  {
  }

  /** `q` is `x / y` exactly when it brackets `x`. */
  lemma DivBracket(x: int, y: int, q: int)
    requires y > 0
    ensures q == x / y <==> y * q <= x < y * q + y
  {
    var r := x / y;
    assert y * r <= x < y * r + y;
    if q < r {
      MulNonNegative(y, r - q - 1);
      assert y * r - (y * q + y) == y * (r - q - 1);
    } else if q > r {
      MulNonNegative(y, q - r - 1);
      assert y * q - (y * r + y) == y * (q - r - 1);
    }
  }

  /**
   * The shown percentage: the nearest whole number to the done share (halves
   * up), between 0 and 100, 0 for no milestones and 100 when all are done.
   */
  function ProgressPct(ms: seq<Milestone>): (p: int)
    ensures 0 <= p <= 100
    ensures |ms| > 0 ==> |ms| * (2 * p - 1) <= 200 * DoneCount(ms) < |ms| * (2 * p + 1)
    ensures |ms| == 0 ==> p == 0
    ensures |ms| > 0 && DoneCount(ms) == |ms| ==> p == 100
  {
    var done := DoneCount(ms);
    var d := if |ms| < 1 then 1 else |ms|;
    var p := RoundedPercent(done, |ms|);
    PercentBounds(done, d, p);
    p
  }

  /** The rounded percentage brackets the exact share. */
  lemma PercentBracket(done: nat, d: nat, p: int)
    requires 0 < d && p == (200 * done + d) / (2 * d)
    ensures d * (2 * p - 1) <= 200 * done < d * (2 * p + 1)
  {
    DivBracket(200 * done + d, 2 * d, p);
    assert 2 * d * p == d * (2 * p - 1) + d;
    assert 2 * d * p + 2 * d == d * (2 * p + 1) + d;
  }

  /** The bracket pins the percentage between 0 and 100, at 100 when all are done. */
  lemma PercentBounds(done: nat, d: nat, p: int)
    requires 0 < d && done <= d
    requires d * (2 * p - 1) <= 200 * done < d * (2 * p + 1)
    ensures 0 <= p <= 100
    ensures done == d ==> p == 100
  {
    if p < 0 {
      MulNonNegative(d, -2 * p - 1);
    }
    if p > 100 {
      MulNonNegative(d, 2 * p - 202);
    }
    if done == d && p < 100 {
      MulNonNegative(d, 198 - 2 * p);
    }
  }

  /** Finishing a milestone never lowers the shown percentage. */
  lemma PercentMonotone(a: nat, b: nat, total: nat)
    requires a <= b
    ensures RoundedPercent(a, total) <= RoundedPercent(b, total)
  {
    var d := if total < 1 then 1 else total;
    var pa, pb := RoundedPercent(a, total), RoundedPercent(b, total);
    DivBracket(200 * a + d, 2 * d, pa);
    DivBracket(200 * b + d, 2 * d, pb);
    if pb < pa {
      MulNonNegative(2 * d, pa - pb - 1);
    }
  }

  // ---------------------------------------------------------------------
  // Review cards
  // ---------------------------------------------------------------------

  const Ellipsis: char := '…'
  const ReviewExcerptLength := 200
  const ReplyExcerptLength := 130

  /** `s.length > n ? s.substring(0, n) + '…' : s`. */
  function Excerpt(s: string, n: nat): (r: string)
    ensures |r| <= n + 1
    ensures |s| <= n ==> r == s
    ensures |s| > n ==> |r| == n + 1 && r[..n] == s[..n] && r[n] == Ellipsis
    ensures r == s <==> |s| <= n || (|s| == n + 1 && s[n] == Ellipsis)
  {
    if |s| > n then s[..n] + [Ellipsis] else s
  }

  /** Shortening an excerpt again changes nothing. */
  lemma ExcerptIdempotent(s: string, n: nat)
    ensures Excerpt(Excerpt(s, n), n) == Excerpt(s, n)
  {
  }

  /** The review text on a card: whole up to 200 characters, else 200 characters and '…'. */
  function ReviewExcerpt(text: string): (r: string)
    ensures |text| <= ReviewExcerptLength ==> r == text
    ensures |text| > ReviewExcerptLength ==>
              |r| == ReviewExcerptLength + 1 && r[..ReviewExcerptLength] == text[..ReviewExcerptLength]
              && r[ReviewExcerptLength] == Ellipsis
  {
    Excerpt(text, ReviewExcerptLength)
  }

  /** The company reply box: absent for a missing or empty reply, else the shortened reply. */
  function ReplyExcerpt(response: Option<string>): (r: Option<string>)
    ensures r.Some? <==> Truthy(response)
    ensures r.Some? ==> r.value == Excerpt(response.value, ReplyExcerptLength)
  {
    if Truthy(response) then Some(Excerpt(response.value, ReplyExcerptLength)) else None
  }

  // ---------------------------------------------------------------------
  // Stars
  // ---------------------------------------------------------------------

  /** The five star positions 1..5; position i is highlighted when i <= n. */
  function StarRow(n: int): (r: seq<bool>)
    ensures |r| == 5
    ensures forall i :: 0 <= i < 5 ==> (r[i] <==> i + 1 <= n)
  {
    seq(5, i => i + 1 <= n)
  }

  function CountHighlighted(r: seq<bool>): nat {
    if r == [] then 0 else (if r[0] then 1 else 0) + CountHighlighted(r[1..])
  }

  /** Count of `true` entries in a block of `k` trues followed by `m` falses. */
  lemma {:induction false} CountRun(r: seq<bool>, k: nat)
    requires k <= |r|
    requires forall i :: 0 <= i < |r| ==> (r[i] <==> i < k)
    ensures CountHighlighted(r) == k
  {
    if r != [] {
      var rest := r[1..];
      if k > 0 {
        CountRun(rest, k - 1);
      } else {
        CountRun(rest, 0);
      }
    }
  }

  /** The number of highlighted stars is `n` clamped to 0..5. */
  lemma StarCount(n: int)
    ensures CountHighlighted(StarRow(n)) == if n < 0 then 0 else if n > 5 then 5 else n
  {
    var k := if n < 0 then 0 else if n > 5 then 5 else n;
    CountRun(StarRow(n), k);
  }

  // ---------------------------------------------------------------------
  // Timeline entries
  // ---------------------------------------------------------------------

  /** The note under a milestone, if shown: only a non-empty note, and never while the milestone is pending. */
  function NoteShown(m: Milestone): (r: Option<string>)
    ensures r.Some? <==> Truthy(m.note) && m.status != Pending
    ensures r.Some? ==> r == m.note
  {
    if Truthy(m.note) && m.status != Pending then m.note else None
  }

  /** What the date line under a milestone says. */
  datatype DateLine = DoneOn(date: string) | PlannedFor(date: string) | NoDate

  /** The done date wins over the planned date; an empty date counts as missing. */
  function DateLineOf(m: Milestone): (l: DateLine)
    ensures l.DoneOn? <==> Truthy(m.doneDate)
    ensures l.PlannedFor? <==> !Truthy(m.doneDate) && Truthy(m.plannedDate)
    ensures l.DoneOn? ==> l.date == m.doneDate.value
    ensures l.PlannedFor? ==> l.date == m.plannedDate.value
  {
    if Truthy(m.doneDate) then DoneOn(m.doneDate.value)
    else if Truthy(m.plannedDate) then PlannedFor(m.plannedDate.value)
    else NoDate
  }

  const PlannedPrefix := "geplant: "

  /** The date line as text; `formatDate` stands for the locale date formatter. */
  function DateText(l: DateLine, formatDate: string -> string): (s: string)
    ensures l.NoDate? ==> s == ""
    ensures l.PlannedFor? ==> PlannedPrefix <= s && s[|PlannedPrefix|..] == formatDate(l.date)
    ensures l.DoneOn? ==> s == formatDate(l.date)
  {
    match l
    case DoneOn(d) => formatDate(d)
    case PlannedFor(d) => PlannedPrefix + formatDate(d)
    case NoDate => ""
  }
}
