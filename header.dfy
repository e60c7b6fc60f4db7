/** The header's task statistics and its completion read-out. */
module Header {
  import opened Schema
  import opened Collections

  datatype Stats = Stats(total: nat, done: nat, inProgress: nat, todo: nat)

  function CountStatus(tasks: seq<Task>, s: Status): (n: nat)
    ensures n <= |tasks|
  {
    Count(tasks, (t: Task) => t.status == s)
  }

  /** The three counts split the tasks: each status is one of three values. */
  lemma {:induction false} CountsPartition(tasks: seq<Task>)
    ensures CountStatus(tasks, Done) + CountStatus(tasks, InProgress) + CountStatus(tasks, Todo) == |tasks|
  {
    if tasks != [] {
      CountsPartition(tasks[1..]);
    }
  }

  /** `stats`: the number of tasks and the number in each status. */
  function StatsOf(tasks: seq<Task>): (r: Stats)
    ensures r.total == |tasks|
    ensures r.done <= r.total && r.inProgress <= r.total && r.todo <= r.total
    ensures r.done + r.inProgress + r.todo == r.total
    ensures r.done == |Filter(tasks, (t: Task) => t.status == Done)|
    ensures r.done == CountStatus(tasks, Done)
    ensures r.inProgress == CountStatus(tasks, InProgress)
    ensures r.todo == CountStatus(tasks, Todo)
  {
    CountsPartition(tasks);
    Stats(|tasks|, CountStatus(tasks, Done), CountStatus(tasks, InProgress), CountStatus(tasks, Todo))
  }

  /** `tasks.length > 0`: the progress bar is rendered. */
  predicate ShowsProgress(tasks: seq<Task>)
  {
    |tasks| > 0
  }

  lemma MulMonotone(a: nat, b: nat, c: nat)
    requires a <= b
    ensures a * c <= b * c
  {
  }

  /** The nearest whole percentage of `done` out of `total`, halves rounded up. */
  function RoundPercent(done: nat, total: nat): (r: nat)
    requires 0 < total && done <= total
    ensures r <= 100
    ensures 2 * r * total <= 200 * done + total < 2 * r * total + 2 * total
    ensures done == total ==> r == 100
    ensures done == 0 ==> r == 0
  {
    var n := 200 * done + total;
    var d := 2 * total;
    var r := n / d;
    assert n == r * d + n % d && 0 <= n % d < d;
    assert r * d == 2 * r * total;
    assert r <= 100 by {
      if r > 100 {
        MulMonotone(101, r, d);
      }
    }
    assert done == total ==> r == 100 by {
      if done == total {
        assert n == 100 * d + total;
      }
    }
    r
  }

  /** `Math.round((done / total) * 100)`, read on exact numbers. It is
      evaluated only where the progress bar is rendered, so the divisor is
      never zero. */
  function CompletionPercent(tasks: seq<Task>): (r: nat)
    requires ShowsProgress(tasks)
    ensures r <= 100
    ensures var s := StatsOf(tasks);
      2 * r * s.total <= 200 * s.done + s.total < 2 * r * s.total + 2 * s.total
    ensures StatsOf(tasks).done == |tasks| ==> r == 100
    ensures StatsOf(tasks).done == 0 ==> r == 0
  {
    var s := StatsOf(tasks);
    RoundPercent(s.done, s.total)
  }
}
