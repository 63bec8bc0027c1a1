// The round-robin scheduler of project-2/scheduler.c: a singly linked list of
// jobs walked by curr and prev, from which finished jobs are unlinked on the way.
module Scheduler {

  // --------------------------------------------------- rounds, seen as a queue

  // The jobs in the order in which their next turns come.  A turn takes the
  // first job and puts it last, or drops it when it finishes; a created job may
  // come in anywhere.
  datatype Event<T> = Turn(finishes: bool) | Arrive(job: T, pos: nat)

  ghost predicate Enabled<T>(q: seq<T>, e: Event<T>) {
    match e
    case Turn(_) => q != []
    case Arrive(job, pos) => job !in q && pos <= |q|
  }

  ghost function Next<T>(q: seq<T>, e: Event<T>): seq<T>
    requires e.Turn? ==> q != []
    requires e.Arrive? ==> e.pos <= |q|
  {
    match e
    case Turn(finishes) => if finishes then q[1..] else q[1..] + [q[0]]
    case Arrive(job, pos) => q[..pos] + [job] + q[pos..]
  }

  ghost predicate IsRun<T>(q: seq<T>, es: seq<Event<T>>)
    decreases |es|
  {
    es == [] || (Enabled(q, es[0]) && IsRun(Next(q, es[0]), es[1..]))
  }

  ghost function After<T>(q: seq<T>, es: seq<Event<T>>): seq<T>
    requires IsRun(q, es)
    decreases |es|
  {
    if es == [] then q else After(Next(q, es[0]), es[1..])
  }

  // The jobs dispatched, in order.
  ghost function Trace<T>(q: seq<T>, es: seq<Event<T>>): seq<T>
    requires IsRun(q, es)
    decreases |es|
  {
    if es == [] then []
    else (if es[0].Turn? then [q[0]] else []) + Trace(Next(q, es[0]), es[1..])
  }

  ghost predicate LiveThroughout<T>(q: seq<T>, es: seq<Event<T>>, k: T)
    requires IsRun(q, es)
    decreases |es|
  {
    k in q && (es == [] || LiveThroughout(Next(q, es[0]), es[1..], k))
  }

  ghost function Times<T>(s: seq<T>, k: T): nat {
    if s == [] then 0 else (if s[0] == k then 1 else 0) + Times(s[1..], k)
  }

  ghost predicate Distinct<T>(q: seq<T>) {
    forall i, j :: 0 <= i < j < |q| ==> q[i] != q[j]
  }

  // a's turn comes before b's.
  ghost predicate Ahead<T>(q: seq<T>, a: T, b: T) {
    exists i, j :: 0 <= i < j < |q| && q[i] == a && q[j] == b
  }

  lemma NextDistinct<T>(q: seq<T>, e: Event<T>)
    requires Distinct(q) && Enabled(q, e)
    ensures Distinct(Next(q, e))
  {
  }

  // Whatever happens to other jobs, two jobs keep their order.
  lemma AheadKept<T>(q: seq<T>, e: Event<T>, a: T, b: T)
    requires Enabled(q, e) && Ahead(q, a, b)
    requires e.Turn? ==> q[0] != a
    ensures Ahead(Next(q, e), a, b)
  {
    var i, j :| 0 <= i < j < |q| && q[i] == a && q[j] == b;
    var r := Next(q, e);
    match e
    case Turn(_) =>
      assert 0 <= i - 1 < j - 1 < |r| && r[i - 1] == a && r[j - 1] == b;
    case Arrive(_, pos) =>
      var i', j' := if i < pos then i else i + 1, if j < pos then j else j + 1;
      assert 0 <= i' < j' < |r| && r[i'] == a && r[j'] == b;
  }

  // While j is ahead of k and gets no turn, k gets none either.
  lemma {:induction false} WaitsForJ<T>(q: seq<T>, es: seq<Event<T>>, j: T, k: T)
    requires Distinct(q) && IsRun(q, es) && Ahead(q, j, k)
    requires j !in Trace(q, es)
    ensures Times(Trace(q, es), k) == 0
    decreases |es|
  {
    if es == [] {
    } else {
      var r := Next(q, es[0]);
      if es[0].Turn? {
        assert Trace(q, es)[0] == q[0];
        assert Trace(q, es)[1..] == Trace(r, es[1..]);
        assert q[0] != k;
      } else {
        assert Trace(q, es) == Trace(r, es[1..]);
      }
      NextDistinct(q, es[0]);
      AheadKept(q, es[0], j, k);
      WaitsForJ(r, es[1..], j, k);
    }
  }

  // If k is ahead of j and stays live, k gets exactly one turn before j gets one.
  lemma {:induction false} OneTurn<T>(q: seq<T>, es: seq<Event<T>>, j: T, k: T)
    requires Distinct(q) && IsRun(q, es) && Ahead(q, k, j) && LiveThroughout(q, es, k)
    requires j !in Trace(q, es) && After(q, es) != [] && After(q, es)[0] == j
    ensures Times(Trace(q, es), k) == 1
    decreases |es|
  {
    if es == [] {
    } else {
      var e, r := es[0], Next(q, es[0]);
      NextDistinct(q, e);
      if e.Turn? {
        assert Trace(q, es)[0] == q[0];
        assert Trace(q, es)[1..] == Trace(r, es[1..]);
      } else {
        assert Trace(q, es) == Trace(r, es[1..]);
      }
      if e.Turn? && q[0] == k {
        var i, n :| 0 <= i < n < |q| && q[i] == k && q[n] == j;
        assert k in r;
        assert r == q[1..] + [q[0]];
        assert r[n - 1] == j && r[|r| - 1] == k;
        WaitsForJ(r, es[1..], j, k);
      } else {
        AheadKept(q, e, k, j);
        OneTurn(r, es[1..], j, k);
      }
    }
  }

  // Fair round-robin: from the moment j's turn is over (it is last) until its next
  // turn comes, every other job that is live throughout has exactly one turn,
  // whoever else finishes or arrives in between.
  lemma Fair<T>(q: seq<T>, es: seq<Event<T>>, j: T, k: T)
    requires Distinct(q) && IsRun(q, es) && q != [] && q[|q| - 1] == j && j != k
    requires LiveThroughout(q, es, k)
    requires j !in Trace(q, es) && After(q, es) != [] && After(q, es)[0] == j
    ensures Times(Trace(q, es), k) == 1
  {
    var i :| 0 <= i < |q| && q[i] == k;
    assert Ahead(q, k, j);
    OneTurn(q, es, j, k);
  }

  lemma {:induction false} RunDistinct<T>(q: seq<T>, es: seq<Event<T>>)
    requires Distinct(q) && IsRun(q, es)
    ensures Distinct(After(q, es))
    decreases |es|
  {
    if es == [] {
    } else {
      NextDistinct(q, es[0]);
      RunDistinct(Next(q, es[0]), es[1..]);
    }
  }

  // A run, and then another from where it ends.
  lemma {:induction false} RunJoin<T>(q: seq<T>, es: seq<Event<T>>, fs: seq<Event<T>>)
    requires IsRun(q, es) && IsRun(After(q, es), fs)
    ensures IsRun(q, es + fs) && After(q, es + fs) == After(After(q, es), fs)
    ensures Trace(q, es + fs) == Trace(q, es) + Trace(After(q, es), fs)
    decreases |es|
  {
    hide Next;
    if es == [] {
      assert es + fs == fs;
    } else {
      ghost var r := Next(q, es[0]);
      assert (es + fs)[0] == es[0] && (es + fs)[1..] == es[1..] + fs;
      RunJoin(r, es[1..], fs);
      ghost var first := if es[0].Turn? then [q[0]] else [];
      Assoc(first, Trace(r, es[1..]), Trace(After(q, es), fs));
    }
  }

  lemma Assoc<T>(a: seq<T>, b: seq<T>, c: seq<T>)
    ensures a + (b + c) == a + b + c
  {
  }

  // and, the other way round, where a run can be cut.
  lemma {:induction false} RunCut<T>(q: seq<T>, es: seq<Event<T>>, n: nat)
    requires IsRun(q, es) && n <= |es|
    ensures IsRun(q, es[..n]) && IsRun(After(q, es[..n]), es[n..])
    decreases n
  {
    if n == 0 {
      assert es[..0] == [] && es[0..] == es;
    } else {
      assert es[..n][0] == es[0] && es[..n][1..] == es[1..][..n - 1];
      RunCut(Next(q, es[0]), es[1..], n - 1);
    }
  }

  // The queue before the n-th event of a run, and the jobs dispatched and live from
  // then to before the m-th.
  ghost function QueueAt<T>(q: seq<T>, es: seq<Event<T>>, n: nat): seq<T>
    requires IsRun(q, es) && n <= |es|
  {
    RunCut(q, es, n);
    After(q, es[..n])
  }

  lemma CutBetween<T>(q: seq<T>, es: seq<Event<T>>, n: nat, m: nat)
    requires IsRun(q, es) && n <= m <= |es|
    ensures IsRun(QueueAt(q, es, n), es[n..m])
    ensures After(QueueAt(q, es, n), es[n..m]) == QueueAt(q, es, m)
  {
    hide IsRun, After, Trace, Next;
    RunCut(q, es, m);
    RunCut(q, es[..m], n);
    assert es[..m][..n] == es[..n] && es[..m][n..] == es[n..m];
    RunJoin(q, es[..n], es[n..m]);
    assert es[..n] + es[n..m] == es[..m];
  }

  ghost function TraceBetween<T>(q: seq<T>, es: seq<Event<T>>, n: nat, m: nat): seq<T>
    requires IsRun(q, es) && n <= m <= |es|
  {
    CutBetween(q, es, n, m);
    Trace(QueueAt(q, es, n), es[n..m])
  }

  ghost predicate LiveBetween<T>(q: seq<T>, es: seq<Event<T>>, n: nat, m: nat, k: T)
    requires IsRun(q, es) && n <= m <= |es|
  {
    CutBetween(q, es, n, m);
    LiveThroughout(QueueAt(q, es, n), es[n..m], k)
  }

  // After its turn a job that goes on is last in the queue.
  lemma TurnOver<T>(q: seq<T>, es: seq<Event<T>>, n: nat, j: T)
    requires Distinct(q) && IsRun(q, es) && n < |es|
    requires es[n] == Turn(false) && QueueAt(q, es, n) != [] && QueueAt(q, es, n)[0] == j
    ensures var r := QueueAt(q, es, n + 1); Distinct(r) && r != [] && r[|r| - 1] == j
  {
    hide IsRun, After, Distinct;
    RunCut(q, es, n);
    RunDistinct(q, es[..n]);
    var r := QueueAt(q, es, n);
    CutBetween(q, es, n, n + 1);
    assert es[n..n + 1] == [es[n]];
    OneEvent(r, es[n]);
    NextDistinct(r, es[n]);
  }

  // Inside any run: if j has its turn in the n-th event and is first again before the
  // m-th, without a turn in between, every job live in between has had exactly one.
  lemma FairWithin<T>(q: seq<T>, es: seq<Event<T>>, n: nat, m: nat, j: T, k: T)
    requires Distinct(q) && IsRun(q, es) && n < m <= |es| && j != k
    requires es[n] == Turn(false) && QueueAt(q, es, n) != [] && QueueAt(q, es, n)[0] == j
    requires QueueAt(q, es, m) != [] && QueueAt(q, es, m)[0] == j
    requires j !in TraceBetween(q, es, n + 1, m) && LiveBetween(q, es, n + 1, m, k)
    ensures Times(TraceBetween(q, es, n + 1, m), k) == 1
  {
    hide IsRun, After, Distinct, Trace, LiveThroughout, Times, QueueAt;
    TurnOver(q, es, n, j);
    CutBetween(q, es, n + 1, m);
    Fair(QueueAt(q, es, n + 1), es[n + 1..m], j, k);
  }

  lemma OneEvent<T>(q: seq<T>, e: Event<T>)
    requires Enabled(q, e)
    ensures IsRun(q, [e]) && After(q, [e]) == Next(q, e)
    ensures Trace(q, [e]) == if e.Turn? then [q[0]] else []
  {
    assert [e][1..] == [];
    assert IsRun(Next(q, e), []);
  }

  lemma {:induction false} TimesGrows<T>(s: seq<T>, x: T, k: T)
    ensures Times(s + [x], k) == Times(s, k) + if x == k then 1 else 0
  {
    if s == [] {
      assert [x][1..] == [];
    } else {
      assert (s + [x])[0] == s[0] && (s + [x])[1..] == s[1..] + [x];
      TimesGrows(s[1..], x, k);
    }
  }

  lemma {:induction false} TimesZero<T>(s: seq<T>, k: T)
    requires k !in s
    ensures Times(s, k) == 0
  {
    if s == [] {
    } else {
      TimesZero(s[1..], k);
    }
  }

  lemma BornApart<T>(all: seq<T>, born: seq<T>, js: seq<T>)
    requires Distinct(all) && Distinct(js + born) && forall o :: o in born ==> o !in all
    ensures Distinct(all + born)
  {
    forall i, k | 0 <= i < k < |born|
      ensures born[i] != born[k]
    {
      assert (js + born)[|js| + i] == born[i] && (js + born)[|js| + k] == born[k];
    }
    forall i, k | 0 <= i < k < |all + born|
      ensures (all + born)[i] != (all + born)[k]
    {
      if i < |all| <= k {
        assert (all + born)[k] in born && (all + born)[i] in all;
      }
    }
  }

  // While a job is running it is last in the queue; a job it creates goes in front of
  // those behind curr in the list, whether this is counted before or after its turn.
  lemma ArriveThenTurn<T>(q: seq<T>, job: T, pos: nat)
    requires q != [] && pos < |q| && job !in q
    ensures Enabled(q, Arrive(job, pos + 1))
    ensures var r := Next(q, Arrive(job, pos + 1));
      && r != [] && r[0] == q[0]
      && Next(r, Turn(false)) == Next(Next(q, Turn(false)), Arrive(job, pos))
  {
    var r, s := Next(q, Arrive(job, pos + 1)), q[1..] + [q[0]];
    assert r[1..] == q[1..][..pos] + [job] + q[1..][pos..];
    assert s[..pos] == q[1..][..pos] && s[pos..] == q[1..][pos..] + [q[0]];
  }

  // ------------------------------------------------------------- what jobs need

  // What a job function does when it is dispatched: it creates jobs, and then returns
  // or yields and goes on later.
  datatype Plan = Return(now: seq<Plan>) | Yield(now: seq<Plan>, rest: Plan)

  // Its own dispatches.
  ghost function Turns(p: Plan): (n: nat)
    ensures n > 0
  {
    1 + if p.Yield? then Turns(p.rest) else 0
  }

  lemma TurnsUnfolds(p: Plan)
    ensures Turns(p) == 1 + if p.Yield? then Turns(p.rest) else 0
  {
  }

  // The functions of all jobs that it creates, that these create, and so on.
  ghost function Makes(p: Plan): multiset<Plan> {
    FamilyAll(p.now) + if p.Yield? then Makes(p.rest) else multiset{}
  }

  ghost function FamilyAll(ps: seq<Plan>): multiset<Plan> {
    if ps == [] then multiset{} else multiset{ps[0]} + Makes(ps[0]) + FamilyAll(ps[1..])
  }

  ghost function MakesAll(ps: seq<Plan>): multiset<Plan> {
    if ps == [] then multiset{} else Makes(ps[0]) + MakesAll(ps[1..])
  }

  lemma {:induction false} FamilyIsMakes(ps: seq<Plan>)
    ensures FamilyAll(ps) == multiset(ps) + MakesAll(ps)
  {
    if ps == [] {
    } else {
      FamilyIsMakes(ps[1..]);
      assert ps == [ps[0]] + ps[1..];
    }
  }

  lemma {:induction false} MakesJoin(a: seq<Plan>, b: seq<Plan>)
    ensures MakesAll(a + b) == MakesAll(a) + MakesAll(b)
  {
    if a == [] {
      assert a + b == b;
    } else {
      assert (a + b)[0] == a[0] && (a + b)[1..] == a[1..] + b;
      MakesJoin(a[1..], b);
    }
  }

  lemma MakesFirst(ps: seq<Plan>)
    requires ps != []
    ensures MakesAll(ps) == Makes(ps[0]) + MakesAll(ps[1..])
  {
  }

  // Its dispatches, those of the jobs it creates, and so on.
  ghost function Needs(p: Plan): (n: nat)
    ensures n > 0
  {
    1 + NeedsAll(p.now) + if p.Yield? then Needs(p.rest) else 0
  }

  ghost function NeedsAll(ps: seq<Plan>): nat {
    if ps == [] then 0 else Needs(ps[0]) + NeedsAll(ps[1..])
  }

  lemma {:induction false} NeedsJoin(a: seq<Plan>, b: seq<Plan>)
    ensures NeedsAll(a + b) == NeedsAll(a) + NeedsAll(b)
  {
    if a == [] {
      assert a + b == b;
    } else {
      assert (a + b)[0] == a[0] && (a + b)[1..] == a[1..] + b;
      NeedsJoin(a[1..], b);
    }
  }

  // -------------------------------------------------------------------- the class

  // struct job.  `plan` stands for its function: what is left of it.
  class Job {
    var status: int
    var next: Job?
    var plan: Plan

    constructor (plan: Plan)
      ensures status == 0 && next == null && this.plan == plan
    {
      status, next, this.plan := 0, null, plan;
    }
  }

  ghost function JobAt(jobs: seq<Job>, i: nat): Job? {
    if i < |jobs| then jobs[i] else null
  }

  ghost function Plans(jobs: seq<Job>): (ps: seq<Plan>)
    reads jobs
    ensures |ps| == |jobs|
  {
    seq(|jobs|, i requires 0 <= i < |jobs| reads jobs => jobs[i].plan)
  }

  // Each job links to the next one of the list.
  ghost predicate Chained(jobs: seq<Job>)
    reads jobs
  {
    forall i {:trigger jobs[i].next} :: 0 <= i < |jobs| ==> jobs[i].next == JobAt(jobs, i + 1)
  }

  ghost function Rotated(jobs: seq<Job>, at: int): seq<Job>
    requires -1 <= at < |jobs|
  {
    jobs[at + 1..] + jobs[..at + 1]
  }

  // Moving on to the next job, or round to the first, is one turn.
  lemma MoveOn(jobs: seq<Job>, at: int)
    requires -1 <= at < |jobs| && jobs != []
    ensures var at' := if at + 1 < |jobs| then at + 1 else 0;
      Rotated(jobs, at)[0] == jobs[at'] && Rotated(jobs, at') == Next(Rotated(jobs, at), Turn(false))
  {
    if at + 1 < |jobs| {
      assert jobs[at + 1..][1..] == jobs[at + 2..];
      assert jobs[..at + 2] == jobs[..at + 1] + [jobs[at + 1]];
    } else {
      assert jobs[..at + 1] == jobs && jobs[at + 1..] == [];
    }
  }

  // Jobs that curr creates go in front of those before it in the list.
  function Arrivals(born: seq<Job>, pos: nat): (es: seq<Event<Job>>)
    ensures |es| == |born|
  {
    seq(|born|, i requires 0 <= i < |born| => Arrive(born[i], pos + i))
  }

  ghost predicate Arrived(q: seq<Job>, es: seq<Event<Job>>, after: seq<Job>) {
    && q != [] && IsRun(q, es) && Trace(q, es) == []
    && After(q, es) != [] && After(q, es)[0] == q[0]
    && after == Next(After(q, es), Turn(false))
  }

  lemma {:induction false} CreatedLate(jobs: seq<Job>, at: int, q: seq<Job>, born: seq<Job>)
    requires 0 <= at < |jobs| && q != [] && Rotated(jobs, at) == Next(q, Turn(false)) && Distinct(jobs + born)
    ensures Arrived(q, Arrivals(born, |jobs| - at), Rotated(jobs + born, at))
    decreases |born|
  {
    if born == [] {
      assert jobs + born == jobs;
    } else {
      var n := |born| - 1;
      var b, j, es := born[..n], born[n], Arrivals(born, |jobs| - at);
      assert jobs + born == jobs + b + [j];
      DistinctPrefix(jobs + b, j);
      assert es == es[..n] + [es[n]] && es[..n] == Arrivals(b, |jobs| - at);
      CreatedLate(jobs, at, q, b);
      CreatedOne(jobs + b, at, q, es[..n], j);
    }
  }

  lemma DistinctPrefix(js: seq<Job>, j: Job)
    requires Distinct(js + [j])
    ensures Distinct(js) && j !in js
  {
    var t := js + [j];
    assert t[|js|] == j && forall i :: 0 <= i < |js| ==> t[i] == js[i];
  }

  lemma CreatedOne(jobs: seq<Job>, at: int, q: seq<Job>, es: seq<Event<Job>>, j: Job)
    requires 0 <= at < |jobs| && j !in jobs && Arrived(q, es, Rotated(jobs, at))
    ensures Arrived(q, es + [Arrive(j, |jobs| - at)], Rotated(jobs + [j], at))
  {
    var r, pos := After(q, es), |jobs| - at - 1;
    NotWaiting(jobs, at, r, j);
    ArriveThenTurn(r, j, pos);
    AddLast(jobs, at, j);
    OneEvent(r, Arrive(j, pos + 1));
    RunJoin(q, es, [Arrive(j, pos + 1)]);
  }

  // One round, as events: the arrivals, then curr's turn.
  lemma RoundEvents(jobs: seq<Job>, at: int, q: seq<Job>, born: seq<Job>, finishes: bool, queue: seq<Job>)
    requires 0 <= at < |jobs| && q != [] && Rotated(jobs, at) == Next(q, Turn(false)) && Distinct(jobs + born)
    requires var r := Rotated(jobs + born, at);
      queue == if finishes then r[..|r| - 1] else r
    ensures var es := Arrivals(born, |jobs| - at) + [Turn(finishes)];
      IsRun(q, es) && After(q, es) == queue && Trace(q, es) == [q[0]]
  {
    var es := Arrivals(born, |jobs| - at);
    CreatedLate(jobs, at, q, born);
    var r := After(q, es);
    FinishIsTurn(r);
    OneEvent(r, Turn(finishes));
    RunJoin(q, es, [Turn(finishes)]);
  }

  ghost predicate Ran(q: seq<Job>, es: seq<Event<Job>>, ran: Job, queue: seq<Job>) {
    IsRun(q, es) && After(q, es) == queue && Trace(q, es) == [ran]
  }

  // What one dispatch leaves to be done: one dispatch less, those of new jobs counted.
  function Afterwards(ps: seq<Plan>, at: nat): (r: seq<Plan>)
    requires at < |ps|
  {
    match ps[at]
    case Return(now) => ps[..at] + ps[at + 1..] + now
    case Yield(now, rest) => ps[..at] + [rest] + ps[at + 1..] + now
  }

  // What a dispatch creates is what was to be created and no longer is.
  lemma MakesLess(ps: seq<Plan>, at: nat)
    requires at < |ps|
    ensures MakesAll(ps) == MakesAll(Afterwards(ps, at)) + multiset(ps[at].now)
  {
    hide MakesAll, Makes;
    var a, b := ps[..at], ps[at + 1..];
    MakesCut(ps, at);
    MakesUnfolds(ps[at]);
    match ps[at]
    case Return(now) => ReturnMakes(a, now, b);
    case Yield(now, rest) => YieldMakes(a, rest, b, now);
  }

  lemma MakesCut(ps: seq<Plan>, at: nat)
    requires at < |ps|
    ensures MakesAll(ps) == MakesAll(ps[..at]) + MakesAll(ps[at + 1..]) + Makes(ps[at])
  {
    hide MakesAll, Makes;
    assert ps == ps[..at] + ps[at..];
    MakesJoin(ps[..at], ps[at..]);
    assert ps[at..][1..] == ps[at + 1..];
    MakesFirst(ps[at..]);
  }

  lemma ReturnMakes(a: seq<Plan>, now: seq<Plan>, b: seq<Plan>)
    ensures MakesAll(a + b + now) == MakesAll(a) + MakesAll(b) + MakesAll(now)
  {
    MakesJoin(a + b, now);
    MakesJoin(a, b);
  }

  lemma YieldMakes(a: seq<Plan>, rest: Plan, b: seq<Plan>, now: seq<Plan>)
    ensures MakesAll(a + [rest] + b + now) == MakesAll(a) + MakesAll(b) + (Makes(rest) + MakesAll(now))
  {
    ReturnMakes(a + [rest], now, b);
    MakesJoin(a, [rest]);
    assert [rest][1..] == [];
  }

  lemma MakesUnfolds(p: Plan)
    ensures Makes(p) == if p.Yield? then multiset(p.now) + MakesAll(p.now) + Makes(p.rest)
                        else multiset(p.now) + MakesAll(p.now)
  {
    FamilyIsMakes(p.now);
  }

  // The list without the job at this position, if that has returned.
  ghost function Left(jobs: seq<Job>, at: nat, finishes: bool): seq<Job>
    requires at < |jobs|
  {
    if finishes then jobs[..at] + jobs[at + 1..] else jobs
  }

  lemma NoPlans(js: seq<Job>)
    requires js == []
    ensures Plans(js) == []
  {
  }

  lemma OthersApart(js: seq<Job>, at: nat)
    requires at < |js| && Distinct(js)
    ensures forall i :: 0 <= i < |js| && i != at ==> js[i] != js[at]
  {
  }

  lemma LeftMembers(js: seq<Job>, at: nat, finishes: bool)
    requires at < |js| && Distinct(js)
    ensures forall o :: o in Left(js, at, finishes) <==> o in js && !(finishes && o == js[at])
  {
    DropMembers(js, at);
  }

  lemma LeftPlans(js: seq<Job>, at: nat, born: seq<Job>, ps: seq<Plan>)
    requires at < |js| == |ps| && Plans(born) == ps[at].now
    requires forall i :: 0 <= i < |js| && i != at ==> js[i].plan == ps[i]
    requires ps[at].Yield? ==> js[at].plan == ps[at].rest
    ensures Plans(Left(js + born, at, ps[at].Return?)) == Afterwards(ps, at)
  {
    var l, r := Left(js + born, at, ps[at].Return?), Afterwards(ps, at);
    var n := if ps[at].Return? then |js| - 1 else |js|;
    assert |l| == |r| == n + |born|;
    forall i | 0 <= i < |l|
      ensures l[i].plan == r[i]
    {
      if i >= n {
        assert l[i] == born[i - n] && r[i] == ps[at].now[i - n];
        assert Plans(born)[i - n] == born[i - n].plan;
      } else if i < at || ps[at].Yield? {
        assert l[i] == js[i];
      } else {
        assert l[i] == js[i + 1];
      }
    }
    PlansAre(l, r);
  }

  lemma PlansAre(js: seq<Job>, ps: seq<Plan>)
    requires |js| == |ps|
    ensures Plans(js) == ps <==> forall i {:trigger js[i]} :: 0 <= i < |js| ==> js[i].plan == ps[i]
  {
    if Plans(js) == ps {
      forall i | 0 <= i < |js|
        ensures js[i].plan == ps[i]
      {
        assert Plans(js)[i] == js[i].plan;
      }
    }
  }

  lemma OneLess(ps: seq<Plan>, at: nat)
    requires at < |ps|
    ensures NeedsAll(Afterwards(ps, at)) == NeedsAll(ps) - 1
  {
    hide NeedsAll;
    var a, b := ps[..at], ps[at + 1..];
    NeedsCut(ps, at);
    match ps[at]
    case Return(now) => ReturnNeeds(a, now, b);
    case Yield(now, rest) => YieldNeeds(a, rest, b, now);
  }

  lemma NeedsCut(ps: seq<Plan>, at: nat)
    requires at < |ps|
    ensures NeedsAll(ps) == NeedsAll(ps[..at]) + Needs(ps[at]) + NeedsAll(ps[at + 1..])
  {
    NeedsJoin(ps[..at], ps[at..]);
    assert ps == ps[..at] + ps[at..];
    assert ps[at..][1..] == ps[at + 1..];
  }

  lemma ReturnNeeds(a: seq<Plan>, now: seq<Plan>, b: seq<Plan>)
    ensures NeedsAll(a + b + now) == NeedsAll(a) + NeedsAll(now) + NeedsAll(b)
  {
    NeedsJoin(a + b, now);
    NeedsJoin(a, b);
  }

  lemma YieldNeeds(a: seq<Plan>, rest: Plan, b: seq<Plan>, now: seq<Plan>)
    ensures NeedsAll(a + [rest] + b + now) == NeedsAll(a) + Needs(rest) + NeedsAll(now) + NeedsAll(b)
  {
    ReturnNeeds(a + [rest], now, b);
    NeedsJoin(a, [rest]);
    assert [rest][1..] == [];
  }

  lemma NotWaiting(jobs: seq<Job>, at: int, q: seq<Job>, j: Job)
    requires 0 <= at < |jobs| && q != [] && Rotated(jobs, at) == Next(q, Turn(false)) && j !in jobs
    ensures j !in q && |q| == |jobs|
  {
    forall i | 0 <= i < |q|
      ensures q[i] != j
    {
      assert q[i] == Next(q, Turn(false))[if i == 0 then |q| - 1 else i - 1];
      assert q[i] in Rotated(jobs, at);
    }
  }

  lemma AddLast(jobs: seq<Job>, at: int, j: Job)
    requires -1 <= at < |jobs|
    ensures Rotated(jobs + [j], at) == Next(Rotated(jobs, at), Arrive(j, |jobs| - at - 1))
  {
  }

  // What is left after dropping jobs[at], and which job then follows each.
  lemma DropLinks(jobs: seq<Job>, at: nat, rest: seq<Job>)
    requires at < |jobs| && Distinct(jobs) && rest == jobs[..at] + jobs[at + 1..]
    ensures Distinct(rest) && JobAt(jobs, 0) == jobs[0]
    ensures JobAt(rest, 0) == JobAt(jobs, if at == 0 then 1 else 0)
    ensures forall i {:trigger rest[i]} :: 0 <= i < |rest| ==>
      && rest[i] == jobs[if i < at then i else i + 1]
      && JobAt(rest, i + 1) == JobAt(jobs, if i < at - 1 then i + 1 else i + 2)
      && (i != at - 1 && at > 0 ==> rest[i] != jobs[at - 1])
  {
    forall i {:trigger rest[i]} | 0 <= i < |rest|
      ensures JobAt(rest, i + 1) == JobAt(jobs, if i < at - 1 then i + 1 else i + 2)
    {
      if i + 1 < |rest| {
        assert rest[i + 1] == jobs[if i + 1 < at then i + 1 else i + 2];
      }
    }
  }

  lemma DropMembers<T>(jobs: seq<T>, at: nat)
    requires at < |jobs| && Distinct(jobs)
    ensures forall o :: o in jobs[..at] + jobs[at + 1..] <==> o in jobs && o != jobs[at]
  {
    forall o | o in jobs && o != jobs[at]
      ensures o in jobs[..at] + jobs[at + 1..]
    {
      var i :| 0 <= i < |jobs| && jobs[i] == o;
      assert (jobs[..at] + jobs[at + 1..])[if i < at then i else i - 1] == o;
    }
  }

  // Dropping the job that has just been put last is a finishing turn.
  lemma FinishIsTurn<T>(q: seq<T>)
    requires q != []
    ensures Next(q, Turn(false))[..|q| - 1] == Next(q, Turn(true))
    ensures |Next(q, Turn(false))| == |q|
  {
  }

  lemma RotatedLength(jobs: seq<Job>, at: int)
    requires -1 <= at < |jobs|
    ensures |Rotated(jobs, at)| == |jobs|
  {
  }

  lemma DropAt(jobs: seq<Job>, at: nat)
    requires at < |jobs|
    ensures Rotated(jobs[..at] + jobs[at + 1..], at - 1) == Rotated(jobs, at)[..|jobs| - 1]
  {
  }

  class Scheduler {
    var head: Job?
    var curr: Job?
    var prev: Job?
    ghost var jobs: seq<Job>   // the list
    ghost var at: int          // where curr is in it; -1 when it is NULL

    ghost predicate Listed()
      reads this, jobs
    {
      Distinct(jobs) && head == JobAt(jobs, 0) && Chained(jobs)
    }

    ghost predicate Valid()
      reads this, jobs
    {
      Listed() && -1 <= at < |jobs| && curr == if at < 0 then null else jobs[at]
    }

    // prev is NULL exactly when curr is the head, and otherwise links to it.
    ghost predicate Linked()
      reads this, jobs
    {
      && 0 <= at < |jobs|
      && (prev == null <==> curr == head)
      && prev == (if at == 0 then null else jobs[at - 1])
      && (prev != null ==> prev.next == curr)
    }

    lemma ListDistinct()
      requires Valid()
      ensures Distinct(jobs)
    {
    }

    // The jobs in the order of their next turns.
    ghost function Queue(): seq<Job>
      requires -1 <= at < |jobs|
      reads this
    {
      Rotated(jobs, at)
    }

    // scheduler_init, with curr set to NULL as intended.
    constructor ()
      ensures Valid() && jobs == [] && curr == null
    {
      head, curr, prev, jobs, at := null, null, null, [], -1;
    }

    // scheduler_create on a new job: it goes to the end of the list.
    method Create(j: Job)
      requires Valid() && j !in jobs && j.next == null
      modifies this, jobs
      ensures Valid() && jobs == old(jobs) + [j] && at == old(at) && curr == old(curr) && prev == old(prev)
      ensures Queue() == Next(old(Queue()), Arrive(j, |old(jobs)| - old(at) - 1))
      ensures old(Linked()) ==> Linked()
      ensures forall o :: o in jobs ==> o.status == old(o.status) && o.plan == old(o.plan)
    {
      hide Rotated, Next;
      AddLast(jobs, at, j);
      if head == null {
        head := j;
        jobs := jobs + [j];
        return;
      }
      var last := head;
      ghost var i := 0;
      while last.next != null
        invariant 0 <= i < |jobs| && last == jobs[i]
        decreases |jobs| - i
      {
        last := last.next;
        i := i + 1;
      }
      last.next := j;
      jobs := jobs + [j];
    }

    // The top of scheduler_execute: who runs next.
    method Dispatch()
      requires Valid()
      modifies this`curr, this`prev, this`at
      ensures Valid() && jobs == old(jobs) && head == old(head)
      ensures curr == null <==> jobs == []
      ensures jobs != [] ==>
        && Linked() && curr in jobs && curr == old(Queue())[0]
        && Queue() == Next(old(Queue()), Turn(false))
    {
      if jobs != [] {
        MoveOn(jobs, at);
        assert 0 <= at && at + 1 < |jobs| ==> jobs[at + 1] != jobs[0];
      }
      hide Rotated, Next, Distinct;
      prev := curr;
      if curr == null || curr.next == null {
        curr := head;
        prev := null;
        at := if jobs == [] then -1 else 0;
      } else {
        curr := curr.next;
        at := at + 1;
      }
    }

    // After the function of curr has returned: unlink exactly that job.
    method Unlink()
      requires Valid() && Linked()
      modifies this, jobs
      ensures Valid() && jobs == old(jobs)[..old(at)] + old(jobs)[old(at) + 1..]
      ensures Queue() == old(Queue())[..|old(jobs)| - 1]
      ensures forall o :: o in old(jobs) ==> o.status == old(o.status) && o.plan == old(o.plan)
    {
      hide Rotated, Next, Distinct, JobAt;
      ghost var js, n := jobs, at;
      ghost var rest := js[..n] + js[n + 1..];
      DropAt(js, n);
      DropLinks(js, n, rest);
      if prev == null {
        head := head.next;
      } else {
        prev.next := curr.next;
      }
      curr := prev;
      jobs := rest;
      at := n - 1;
    }

    // scheduler_create for every job that the running one creates.
    method CreateAll(ps: seq<Plan>) returns (ghost born: seq<Job>)
      requires Valid() && Linked()
      modifies this, jobs
      ensures Valid() && Linked() && jobs == old(jobs) + born && at == old(at) && curr == old(curr)
      ensures Plans(born) == ps && fresh(born) && forall o :: o in born ==> o.status == 0
      ensures forall o :: o in old(jobs) ==> o.status == old(o.status) && o.plan == old(o.plan)
    {
      hide Rotated, Next, Distinct, Chained, JobAt, Linked, Listed;
      born := [];
      var i := 0;
      while i < |ps|
        invariant i <= |ps| && Valid() && Linked() && jobs == old(jobs) + born && at == old(at) && curr == old(curr)
        invariant |born| == i && fresh(born)
        invariant forall k :: 0 <= k < i ==> born[k].plan == ps[k] && born[k].status == 0
        invariant forall o :: o in old(jobs) ==> o.status == old(o.status) && o.plan == old(o.plan)
      {
        var j := new Job(ps[i]);
        Create(j);
        born := born + [j];
        i := i + 1;
      }
    }

    // curr runs until it yields or returns.
    method RunJob() returns (starts: bool, finishes: bool, ghost born: seq<Job>)
      requires Valid() && Linked()
      modifies this, jobs
      ensures Valid() && Linked() && jobs == old(jobs) + born && at == old(at) && curr == old(curr)
      ensures starts == (old(curr.status) == 0) && finishes == old(curr.plan).Return?
      ensures Plans(born) == old(curr.plan).now && fresh(born) && forall o :: o in born ==> o.status == 0
      ensures curr.status == 1
      ensures !finishes ==> curr.plan == old(curr.plan).rest
      ensures forall o :: o in old(jobs) && o != old(curr) ==> o.status == old(o.status) && o.plan == old(o.plan)
    {
      hide Rotated, Next, Distinct, JobAt;
      starts := curr.status == 0;
      curr.status := 1;
      var plan := curr.plan;
      finishes := plan.Return?;
      if plan.Yield? {
        curr.plan := plan.rest;
      }
      born := CreateAll(plan.now);
    }

    // The rest of scheduler_execute: start or resume curr, and unlink it if its
    // function returned.
    method Resume() returns (starts: bool, finishes: bool, ghost born: seq<Job>)
      requires Valid() && Linked()
      modifies this, jobs
      ensures Valid() && starts == (old(curr.status) == 0) && finishes == old(curr.plan).Return?
      ensures Plans(born) == old(curr.plan).now && fresh(born) && forall o :: o in born ==> o.status == 0
      ensures Distinct(old(jobs) + born)
      ensures var r := Rotated(old(jobs) + born, old(at));
        Queue() == if finishes then r[..|r| - 1] else r
      ensures jobs == Left(old(jobs) + born, old(at), finishes)
      ensures old(curr).status == 1
      ensures !finishes ==> old(curr).plan == old(curr.plan).rest
      ensures forall o :: o in old(jobs) && o != old(curr) ==> o.status == old(o.status) && o.plan == old(o.plan)
    {
      hide Rotated, Next, Distinct, JobAt, Chained;
      starts, finishes, born := RunJob();
      if finishes {
        RotatedLength(jobs, at);
        Unlink();
      }
    }

    // From one return of setjmp at the top of scheduler_execute to the next: choose a
    // job, start or resume it, and unlink it if its function returned.
    method Step() returns (ran: Job?, starts: bool, finishes: bool, ghost born: seq<Job>, ghost es: seq<Event<Job>>)
      requires Valid()
      modifies this, jobs
      ensures Valid()
      ensures ran == null <==> old(jobs) == []
      ensures ran == null ==> jobs == [] && born == [] && Queue() == old(Queue())
      ensures ran != null ==>
        && ran in old(jobs) && Ran(old(Queue()), es, ran, Queue())
        && starts == (old(ran.status) == 0) && finishes == old(ran.plan).Return? && ran.status == 1
        && (!finishes ==> ran.plan == old(ran.plan).rest)
        && Plans(born) == old(ran.plan).now && fresh(born) && Distinct(old(jobs) + born)
        && (forall o :: o in born ==> o.status == 0)
        && (forall o :: o in jobs <==> (o in old(jobs) || o in born) && !(finishes && o == ran))
        && NeedsAll(Plans(jobs)) == NeedsAll(old(Plans(jobs))) - 1
        && MakesAll(Plans(jobs)) + multiset(Plans(born)) == MakesAll(old(Plans(jobs)))
      ensures forall o :: o in old(jobs) && o != ran ==> o.status == old(o.status) && o.plan == old(o.plan)
    {
      hide Rotated, Next, Listed, Linked, Chained, JobAt, Plans, Distinct, IsRun, After, Trace, Afterwards, MakesAll, NeedsAll;
      RotatedLength(jobs, at);
      ghost var q, js, ps := Queue(), jobs, Plans(jobs);
      Dispatch();
      ran, starts, finishes, born, es := curr, false, false, [], [];
      if curr == null {
        return;
      }
      ghost var n := at;
      ListDistinct();
      OthersApart(js, n);
      PlansAre(js, ps);
      starts, finishes, born := Resume();
      es := Arrivals(born, |js| - n) + [Turn(finishes)];
      RoundEvents(js, n, q, born, finishes, Queue());
      OneLess(ps, n);
      MakesLess(ps, n);
      LeftPlans(js, n, born, ps);
      LeftMembers(js + born, n, finishes);
    }

    // Of all jobs there have been, those still listed have the turns of what is left
    // of their functions to come; the others have had all of theirs.
    ghost predicate Account(all: seq<Job>, plans: seq<Plan>, ran: seq<Job>, started: seq<Job>)
      reads this, all
    {
      && |all| == |plans| && Distinct(all)
      && (forall o :: o in jobs ==> o in all)
      && (forall o :: o in ran ==> o in all)
      && (forall o :: o in started ==> o in all)
      && forall i {:trigger all[i]} :: 0 <= i < |all| ==>
        if all[i] in jobs then
          && Times(ran, all[i]) + Turns(all[i].plan) == Turns(plans[i])
          && Times(started, all[i]) == all[i].status <= 1
        else
          Times(ran, all[i]) == Turns(plans[i]) && Times(started, all[i]) == 1
    }

    lemma Unstarted()
      requires Valid() && forall o :: o in jobs ==> o.status == 0
      ensures Distinct(jobs) && Distinct(Queue())
      ensures Account(jobs, Plans(jobs), [], []) && Behind(Queue(), [], [])
    {
      hide Chained;
    }

    lemma Settled(all: seq<Job>, plans: seq<Plan>, ran: seq<Job>, started: seq<Job>)
      requires Account(all, plans, ran, started) && Valid() && jobs == []
      ensures head == null && Queue() == [] && Distinct(all)
      ensures NeedsAll(Plans(jobs)) == 0 && MakesAll(Plans(jobs)) == multiset{}
      ensures forall o :: o in ran ==> o in all
      ensures |all| == |plans|
      ensures forall i :: 0 <= i < |all| ==> Times(ran, all[i]) == Turns(plans[i]) && Times(started, all[i]) == 1
    {
    }

    // The turns so far were the run es from queue q, and dispatched ran.
    ghost predicate Behind(q: seq<Job>, es: seq<Event<Job>>, ran: seq<Job>)
      reads this
    {
      -1 <= at < |jobs| && IsRun(q, es) && ran == Trace(q, es) && After(q, es) == Queue()
    }

    // A round keeps the account and goes on with the run.
    method Round(ghost all: seq<Job>, ghost plans: seq<Plan>,
                 ghost q: seq<Job>, ghost es: seq<Event<Job>>, ghost ran: seq<Job>, ghost started: seq<Job>)
      returns (more: bool, ghost born: seq<Job>, ghost made: seq<Plan>,
               ghost es': seq<Event<Job>>, ghost ran': seq<Job>, ghost started': seq<Job>)
      requires Valid() && Account(all, plans, ran, started) && Behind(q, es, ran)
      modifies this, jobs
      ensures Valid() && Account(all + born, plans + made, ran', started') && Behind(q, es', ran')
      ensures fresh(born) && Plans(born) == made && (more <==> old(jobs) != [])
      ensures if more then |ran'| + NeedsAll(Plans(jobs)) == |ran| + NeedsAll(old(Plans(jobs))) && |ran'| == |ran| + 1
              else jobs == [] && ran' == ran
      ensures multiset(made) + MakesAll(Plans(jobs)) == MakesAll(old(Plans(jobs)))
      ensures forall i :: 0 <= i < |jobs| ==> jobs[i] in old(jobs) || fresh(jobs[i])
    {
      hide Rotated, Next, Listed, Distinct, Plans, Times, IsRun, Trace, After, Turns, NeedsAll, MakesAll;
      var j, starts, finishes;
      ghost var fs;
      j, starts, finishes, born, fs := Step();
      made, es', ran', started', more := [], es, ran, started, j != null;
      if j == null {
        assert all + [] == all && plans + [] == plans;
        NoPlans(old(jobs));
        NoPlans(jobs);
        return;
      }
      ghost var job: Job := j;
      RunJoin(q, es, fs);
      es', ran', made := es + fs, ran + [job], Plans(born);
      if starts {
        started' := started + [job];
      }
      BornApart(all, born, old(jobs));
      PlansAre(born, made);
      forall i {:trigger all[i]} | 0 <= i < |all|
        ensures Times(ran', all[i]) == Times(ran, all[i]) + if job == all[i] then 1 else 0
        ensures Times(started', all[i]) == Times(started, all[i]) + if starts && job == all[i] then 1 else 0
      {
        TimesGrows(ran, job, all[i]);
        TimesGrows(started, job, all[i]);
      }
      forall i {:trigger born[i]} | 0 <= i < |born|
        ensures Times(ran', born[i]) == 0 && Times(started', born[i]) == 0
      {
        assert born[i] in born;
        TimesZero(ran', born[i]);
        TimesZero(started', born[i]);
      }
      TurnsUnfolds(old(job.plan));
    }

    // scheduler_execute: one round after another until the list is empty.  `all` are
    // the jobs listed at the start and those created on the way, with their functions.
    method Execute()
      returns (ghost all: seq<Job>, ghost plans: seq<Plan>,
               ghost es: seq<Event<Job>>, ghost ran: seq<Job>, ghost started: seq<Job>)
      requires Valid() && forall o :: o in jobs ==> o.status == 0
      modifies this, jobs
      ensures Valid() && jobs == [] && head == null
      ensures |all| == |plans| && Distinct(all) && old(jobs) <= all && old(Plans(jobs)) <= plans
      ensures forall i :: 0 <= i < |all| ==> Times(ran, all[i]) == Turns(plans[i]) && Times(started, all[i]) == 1
      ensures (forall o :: o in ran ==> o in all) && (forall i :: |old(jobs)| <= i < |all| ==> fresh(all[i]))
      ensures multiset(plans) == FamilyAll(old(Plans(jobs)))
      ensures |ran| == NeedsAll(old(Plans(jobs)))
      ensures Distinct(old(Queue())) && IsRun(old(Queue()), es)
      ensures ran == Trace(old(Queue()), es) && After(old(Queue()), es) == []
    {
      hide Rotated, Next, Distinct, Listed, Chained, JobAt, Times, Turns, NeedsAll, IsRun, Trace, After, Account, Plans;
      hide FamilyAll, MakesAll;
      Unstarted();
      FamilyIsMakes(Plans(jobs));
      ghost var q := Queue();
      all, plans, es, ran, started := jobs, Plans(jobs), [], [], [];
      var more := true;
      while more
        invariant Valid() && Account(all, plans, ran, started) && Behind(q, es, ran)
        invariant !more ==> jobs == []
        invariant |ran| + NeedsAll(Plans(jobs)) == NeedsAll(old(Plans(jobs)))
        invariant multiset(plans) + MakesAll(Plans(jobs)) == FamilyAll(old(Plans(jobs)))
        invariant forall i :: |old(jobs)| <= i < |all| ==> fresh(all[i])
        invariant old(jobs) <= all && old(Plans(jobs)) <= plans
        invariant forall i :: 0 <= i < |jobs| ==> jobs[i] in old(jobs) || fresh(jobs[i])
        decreases more, NeedsAll(Plans(jobs))
      {
        ghost var born, made;
        more, born, made, es, ran, started := Round(all, plans, q, es, ran, started);
        all, plans := all + born, plans + made;
      }
      Settled(all, plans, ran, started);
    }
  }
}
