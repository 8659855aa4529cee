/**
 * The dashboard: the signed-in user's tasks ordered by due date, and the
 * counts and completion rate shown above them.
 */
module Dashboard {
  import opened Wrappers
  import opened Models
  import opened Queries

  /** `db.query(Task).filter(Task.owner_id == uid)`, in storage order. */
  function OwnedBy(tasks: seq<Task>, uid: nat): (r: seq<Task>)
    ensures forall t :: t in r <==> t in tasks && t.ownerId == uid
    ensures |r| <= |tasks|
  {
    if tasks == [] then []
    else if tasks[0].ownerId == uid then [tasks[0]] + OwnedBy(tasks[1..], uid)
    else OwnedBy(tasks[1..], uid)
  }

  /** The filter keeps each of the user's tasks exactly as often as the table holds it, and no other task. */
  lemma {:induction false} OwnedByCount(tasks: seq<Task>, uid: nat)
    ensures forall t :: multiset(OwnedBy(tasks, uid))[t] == if t.ownerId == uid then multiset(tasks)[t] else 0
  {
    if tasks != [] {
      assert tasks == [tasks[0]] + tasks[1..];
      OwnedByCount(tasks[1..], uid);
    }
  }

  predicate SortedByDue(ts: seq<Task>) {
    forall i, j :: 0 <= i < j < |ts| ==> ts[i].dueDate <= ts[j].dueDate
  }

  /** Puts `t` in front of the first task due later than it. */
  function Insert(t: Task, ts: seq<Task>): (r: seq<Task>)
    ensures multiset(r) == multiset{t} + multiset(ts)
  {
    if ts == [] then [t]
    else if t.dueDate <= ts[0].dueDate then [t] + ts
    else
      assert ts == [ts[0]] + ts[1..];
      [ts[0]] + Insert(t, ts[1..])
  }

  /** Inserting into a sorted list keeps it sorted. */
  lemma {:induction false} InsertSorted(t: Task, ts: seq<Task>)
    requires SortedByDue(ts)
    ensures SortedByDue(Insert(t, ts))
  {
    if ts != [] && t.dueDate > ts[0].dueDate {
      var rest := Insert(t, ts[1..]);
      InsertSorted(t, ts[1..]);
      forall j | 0 <= j < |rest| ensures ts[0].dueDate <= rest[j].dueDate {
        var x := rest[j];
        assert x in multiset(rest);
        if x != t {
          assert x in multiset(ts[1..]);
          var k :| 0 <= k < |ts[1..]| && ts[1..][k] == x;
          assert ts[k + 1] == x;
        }
      }
      var r := [ts[0]] + rest;
      assert forall j :: 0 < j < |r| ==> r[j] == rest[j - 1];
    }
  }

  /** `.order_by(Task.due_date.asc())`; tasks due at the same time come out in one fixed order. */
  function SortByDue(ts: seq<Task>): (r: seq<Task>)
    ensures SortedByDue(r)
    ensures multiset(r) == multiset(ts)
  {
    if ts == [] then []
    else
      assert ts == [ts[0]] + ts[1..];
      InsertSorted(ts[0], SortByDue(ts[1..]));
      Insert(ts[0], SortByDue(ts[1..]))
  }

  /** `len([t for t in ts if t.status == s])`. */
  function CountStatus(ts: seq<Task>, s: Status): (n: nat)
    ensures n <= |ts|
  {
    if ts == [] then 0 else (if ts[0].status == s then 1 else 0) + CountStatus(ts[1..], s)
  }

  /** Every task is either pending or completed, so the two counts add up to the total. */
  lemma {:induction false} CountsPartition(ts: seq<Task>)
    ensures CountStatus(ts, Pending) + CountStatus(ts, Completed) == |ts|
  {
    if ts != [] {
      CountsPartition(ts[1..]);
    }
  }

  lemma {:induction false} CountInsert(t: Task, ts: seq<Task>, s: Status)
    ensures CountStatus(Insert(t, ts), s) == CountStatus([t] + ts, s)
  {
    var here := if t.status == s then 1 else 0;
    assert CountStatus([t] + ts, s) == here + CountStatus(ts, s) by {
      assert ([t] + ts)[1..] == ts;
    }
    if ts != [] && t.dueDate > ts[0].dueDate {
      var rest := Insert(t, ts[1..]);
      CountInsert(t, ts[1..], s);
      assert CountStatus([t] + ts[1..], s) == here + CountStatus(ts[1..], s) by {
        assert ([t] + ts[1..])[1..] == ts[1..];
      }
      assert CountStatus([ts[0]] + rest, s) == (if ts[0].status == s then 1 else 0) + CountStatus(rest, s) by {
        assert ([ts[0]] + rest)[1..] == rest;
      }
    }
  }

  /** Sorting does not change how many tasks have a status. */
  lemma {:induction false} CountSorted(ts: seq<Task>, s: Status)
    ensures CountStatus(SortByDue(ts), s) == CountStatus(ts, s)
  {
    if ts != [] {
      CountSorted(ts[1..], s);
      CountInsert(ts[0], SortByDue(ts[1..]), s);
      assert ([ts[0]] + SortByDue(ts[1..]))[1..] == SortByDue(ts[1..]);
    }
  }

  /**
   * `int(completed / total * 100) if tasks else 0`, as integer arithmetic:
   * the percentage of completed tasks rounded down, and 0 for no tasks.
   */
  function CompletionRate(completed: nat, total: nat): (rate: int)
    ensures total == 0 ==> rate == 0
    ensures total > 0 ==> rate * total <= completed * 100 < (rate + 1) * total
    ensures completed <= total ==> 0 <= rate <= 100
    ensures completed <= total ==> (rate == 100 <==> 0 < total && completed == total)
  {
    if total == 0 then 0
    else
      var rate := completed * 100 / total;
      FloorBounds(completed * 100, total);
      if completed <= total then
        PercentBounds(completed, total, rate);
        rate
      else rate
  }

  lemma FloorBounds(a: nat, b: nat)
    requires b > 0
    ensures (a / b) * b <= a < (a / b + 1) * b
  {
    assert a == (a / b) * b + a % b;
    assert (a / b + 1) * b == (a / b) * b + b;
  }

  lemma PercentBounds(completed: nat, total: nat, rate: int)
    requires 0 < total && completed <= total
    requires rate * total <= completed * 100 < (rate + 1) * total
    ensures 0 <= rate <= 100
    ensures rate == 100 <==> completed == total
  {
    MulMonotone(rate + 1, 0, total);
    MulMonotone(rate, 100, total);
    MulMonotone(rate + 1, 100, total);
  }

  lemma MulMonotone(a: int, b: int, c: int)
    requires c > 0
    ensures a <= b <==> a * c <= b * c
  {
    assert b * c - a * c == (b - a) * c;
  }

  /** The `stats` dictionary. */
  datatype Stats = Stats(total: nat, pending: nat, completed: nat, completionRate: int)

  function StatsOf(ts: seq<Task>): (st: Stats)
    ensures st.total == |ts|
    ensures st.pending == CountStatus(ts, Pending) && st.completed == CountStatus(ts, Completed)
    ensures st.pending + st.completed == st.total
    ensures st.completionRate == CompletionRate(st.completed, st.total)
    ensures 0 <= st.completionRate <= 100
    ensures st.total > 0 ==> st.completionRate * st.total <= st.completed * 100 < (st.completionRate + 1) * st.total
  {
    CountsPartition(ts);
    var done := CountStatus(ts, Completed);
    Stats(|ts|, CountStatus(ts, Pending), done, CompletionRate(done, |ts|))
  }

  /** What the dashboard page shows. */
  datatype View = View(user: User, tasks: seq<Task>, stats: Stats)

  /**
   * `dashboard()`: nothing when the `user_email` cookie is unset or names no
   * user (the handler redirects to the login page); otherwise that user's
   * tasks, earliest due date first, and their statistics.
   */
  function Render(users: seq<User>, tasks: seq<Task>, userEmail: Option<string>): (r: Option<View>)
    ensures r.None? <==> CurrentUser(users, userEmail).None?
    ensures r.Some? ==> r.value.user in users && r.value.user.email == userEmail.value
    ensures r.Some? ==> SortedByDue(r.value.tasks)
    ensures r.Some? ==> multiset(r.value.tasks) == multiset(OwnedBy(tasks, r.value.user.id))
    ensures r.Some? ==> forall t :: t in r.value.tasks <==> t in tasks && t.ownerId == r.value.user.id
    ensures r.Some? ==>
      var owned := OwnedBy(tasks, r.value.user.id);
      && r.value.stats == StatsOf(owned)
      && r.value.stats.total == |owned|
      && r.value.stats.pending == CountStatus(owned, Pending)
      && r.value.stats.completed == CountStatus(owned, Completed)
      && r.value.stats.pending + r.value.stats.completed == r.value.stats.total
      && r.value.stats.completionRate == CompletionRate(r.value.stats.completed, r.value.stats.total)
      && 0 <= r.value.stats.completionRate <= 100
  {
    match CurrentUser(users, userEmail)
    case None => None
    case Some(u) =>
      var owned := OwnedBy(tasks, u.id);
      var sorted := SortByDue(owned);
      CountSorted(owned, Pending);
      CountSorted(owned, Completed);
      assert |sorted| == |multiset(sorted)| == |owned|;
      assert forall t :: t in sorted <==> t in multiset(owned);
      Some(View(u, sorted, StatsOf(sorted)))
  }
}
