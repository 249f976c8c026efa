/**
 * The delegation allowance: a hosted agent funds jobs against the daily ceiling its institution
 * put on chain, keeping only a reservation for the jobs that the chain has not settled yet.
 *
 * `PolicyAllowance` is the object, its view reading one chain state. The step relation below it
 * cuts the view at its reads and lets the chain move between any two of them; delegations go
 * through the host's queue, one at a time.
 */
module Allowance {
  import opened Wrappers

  type JobId = nat

  datatype Status = Funded | Submitted | Completed | Rejected | Expired

  predicate Terminal(s: Status) {
    s.Completed? || s.Rejected? || s.Expired?
  }

  datatype Job = Job(status: Status, budget: nat)

  /** `limit` is 0 without a policy; `spent` is the registry's counter, moved by releases, reset by the day. */
  datatype Chain = Chain(policy: bool, limit: nat, spent: nat, jobs: map<JobId, Job>)

  // ----- sums

  ghost function Sum(m: map<JobId, nat>): nat
    decreases |m|
  {
    if m == map[] then 0
    else
      var j :| j in m;
      assert (m - {j}).Keys == m.Keys - {j};
      assert |(m - {j}).Keys| < |m.Keys|;
      m[j] + Sum(m - {j})
  }

  lemma {:induction false} SumSplit(m: map<JobId, nat>, j: JobId)
    requires j in m
    ensures Sum(m) == m[j] + Sum(m - {j})
    decreases |m|
  {
    var k :| k in m && Sum(m) == m[k] + Sum(m - {k});
    if k != j {
      assert (m - {k}).Keys == m.Keys - {k};
      assert |(m - {k}).Keys| < |m.Keys|;
      SumSplit(m - {k}, j);
      assert (m - {k}) - {j} == (m - {j}) - {k};
      assert k in m - {j};
      assert (m - {j}).Keys == m.Keys - {j};
      assert |(m - {j}).Keys| < |m.Keys|;
      SumSplit(m - {j}, k);
    }
  }

  lemma SumInsert(m: map<JobId, nat>, j: JobId, b: nat)
    requires j !in m
    ensures Sum(m[j := b]) == b + Sum(m)
  {
    SumSplit(m[j := b], j);
    assert m[j := b] - {j} == m;
  }

  lemma DropFromUnion(m: map<JobId, nat>, n: map<JobId, nat>, j: JobId)
    requires j !in n
    ensures (m + n) - {j} == (m - {j}) + n
  {
  }

  lemma {:induction false} SumDisjoint(m: map<JobId, nat>, n: map<JobId, nat>)
    requires m.Keys !! n.Keys
    ensures Sum(m + n) == Sum(m) + Sum(n)
    decreases |m|
  {
    if m == map[] {
      assert m + n == n;
    } else {
      var j :| j in m;
      SumSplit(m, j);
      assert (m - {j}).Keys == m.Keys - {j};
      assert |(m - {j}).Keys| < |m.Keys|;
      SumDisjoint(m - {j}, n);
      assert (m + n)[j] == m[j];
      DropFromUnion(m, n, j);
      SumSplit(m + n, j);
    }
  }

  /** Fewer entries, or the same, never sum to more. */
  lemma {:induction false} SumMonotone(m: map<JobId, nat>, n: map<JobId, nat>)
    requires forall j :: j in m ==> j in n && n[j] == m[j]
    ensures Sum(m) <= Sum(n)
    decreases |m|
  {
    if m != map[] {
      var j :| j in m;
      SumSplit(m, j);
      SumSplit(n, j);
      assert (m - {j}).Keys == m.Keys - {j};
      assert |(m - {j}).Keys| < |m.Keys|;
      SumMonotone(m - {j}, n - {j});
    }
  }

  // ----- the object

  /** What stays reserved once the chain's settled jobs are dropped. */
  function Reserved(inFlight: map<JobId, nat>, jobs: map<JobId, Job>): map<JobId, nat> {
    map j | j in inFlight && !(j in jobs && Terminal(jobs[j].status)) :: inFlight[j]
  }

  datatype View = View(policy: bool, dailyLimit: nat, spentToday: nat, inFlight: nat, available: nat)

  function Available(limit: nat, spent: nat, reserved: nat): nat {
    if limit > spent + reserved then limit - spent - reserved else 0
  }

  datatype Verdict = Allowed | OverJobCap | NoPolicy | OverAllowance

  class PolicyAllowance {
    var inFlight: map<JobId, nat>
    const maxPerJob: Option<nat>

    constructor (maxPerJob: Option<nat>)
      ensures inFlight == map[] && this.maxPerJob == maxPerJob
    {
      inFlight := map[];
      this.maxPerJob := maxPerJob;
    }

    method RecordFunded(job: JobId, budget: nat)
      modifies this
      ensures inFlight == old(inFlight)[job := budget]
    {
      inFlight := inFlight[job := budget];
    }

    method Settle(jobs: map<JobId, Job>)
      modifies this
      ensures inFlight == Reserved(old(inFlight), jobs)
    {
      var left := inFlight.Keys;
      while left != {}
        invariant left <= inFlight.Keys <= old(inFlight).Keys
        invariant forall j :: j in inFlight ==> inFlight[j] == old(inFlight)[j]
        invariant forall j :: j in old(inFlight) && j !in left ==>
                    (j in inFlight <==> !(j in jobs && Terminal(jobs[j].status)))
        decreases left
      {
        var j :| j in left;
        left := left - {j};
        if j in jobs && Terminal(jobs[j].status) { inFlight := inFlight - {j}; }
      }
    }

    method Total() returns (sum: nat)
      ensures sum == Sum(inFlight)
    {
      sum := 0;
      var left := inFlight;
      while left != map[]
        invariant sum + Sum(left) == Sum(inFlight)
        decreases left.Keys
      {
        var j :| j in left;
        SumSplit(left, j);
        sum := sum + left[j];
        assert (left - {j}).Keys == left.Keys - {j};
        left := left - {j};
      }
    }

    /** The allowance of one chain state: its ceiling less what it counted and what is still reserved. */
    method GetView(chain: Chain) returns (view: View)
      modifies this
      ensures inFlight == Reserved(old(inFlight), chain.jobs)
      ensures var limit := if chain.policy then chain.limit else 0;
              view == View(chain.policy, limit, chain.spent, Sum(inFlight),
                           Available(limit, chain.spent, Sum(inFlight)))
    {
      Settle(chain.jobs);
      var reserved := Total();
      var dailyLimit := if chain.policy then chain.limit else 0;
      var remaining := dailyLimit - chain.spent - reserved;
      return View(chain.policy, dailyLimit, chain.spent, reserved, if remaining > 0 then remaining else 0);
    }

    /** An amount is allowed exactly when, added to what is spoken for, it stays within every limit. */
    method Admit(amount: nat, chain: Chain) returns (verdict: Verdict)
      modifies this
      ensures verdict == Allowed ==>
                && chain.policy && (maxPerJob.Some? ==> amount <= maxPerJob.value)
                && (amount > 0 ==> chain.spent + Sum(Reserved(old(inFlight), chain.jobs)) + amount <= chain.limit)
      ensures verdict != Allowed ==>
                || (maxPerJob.Some? && amount > maxPerJob.value)
                || !chain.policy
                || chain.spent + Sum(Reserved(old(inFlight), chain.jobs)) + amount > chain.limit
      ensures verdict == OverJobCap <==> maxPerJob.Some? && amount > maxPerJob.value
      ensures verdict == NoPolicy <==> (maxPerJob.Some? ==> amount <= maxPerJob.value) && !chain.policy
      ensures inFlight == if verdict == OverJobCap then old(inFlight) else Reserved(old(inFlight), chain.jobs)
    {
      if maxPerJob.Some? && amount > maxPerJob.value { return OverJobCap; }
      var view := GetView(chain);
      if !view.policy { return NoPolicy; }
      if amount > view.available { return OverAllowance; }
      return Allowed;
    }
  }

  // ----- hires and the chain, interleaved

  datatype Phase =
    | Idle
    | Settling(amount: nat, ceiling: nat, spent: nat, toCheck: set<JobId>)   // these records are not read yet
    | Funding(amount: nat)                                     // admitted; createJob, setBudget, fund are out
    | Recording(job: JobId, amount: nat)                       // fund landed, onFunded has not run

  /**
   * `adrift`: what a restart cut off from its host, and may still land. `slipped`: the budgets of
   * today's releases that fell between a view's two reads of them, and of jobs off the books.
   * `highest`: the highest ceiling of the day, or what was booked when it began.
   */
  datatype State = State(
    chain: Chain,
    inFlight: map<JobId, nat>,
    queue: seq<nat>,
    phase: Phase,
    adrift: seq<nat>,
    slipped: nat,
    highest: nat)

  datatype Event =
    | Delegate(amount: nat)              // a delegation enters the queue
    | ReadSpent                          // the head of the queue starts its view
    | ReadRecord(job: JobId)             // the view reads one job's record
    | Decide                             // every record is read: admit or refuse
    | FundLands(job: JobId)
    | FundFails
    | Record                             // onFunded
    | Release(job: JobId, counted: bool) // escrow goes to the provider; counted when a compliance module is installed
    | Refund(job: JobId, status: Status) // rejected or expired
    | Submit(job: JobId)
    | NextDay
    | SetPolicy(policy: bool, limit: nat)  // committed, raised, lowered or revoked
    | Restart(restored: set<JobId>)      // the host restarts and passes these reservations back in
    | AdriftLands(k: nat, job: JobId)    // a fund that was out at a restart lands after it

  function Max(a: nat, b: nat): nat {
    if a < b then b else a
  }

  predicate OpenJob(c: Chain, j: JobId) {
    j in c.jobs && !Terminal(c.jobs[j].status)
  }

  function Open(c: Chain): map<JobId, nat> {
    map j | j in c.jobs && !Terminal(c.jobs[j].status) :: c.jobs[j].budget
  }

  predicate Enabled(s: State, e: Event) {
    match e
    case Delegate(amount) => amount > 0
    case ReadSpent => s.phase.Idle? && s.queue != []
    case ReadRecord(job) => s.phase.Settling? && job in s.phase.toCheck
    case Decide => s.phase.Settling? && s.phase.toCheck == {}
    case FundLands(job) => s.phase.Funding? && job !in s.chain.jobs
    case FundFails => s.phase.Funding?
    case Record => s.phase.Recording?
    case Release(job, _) => OpenJob(s.chain, job)
    case Refund(job, status) => OpenJob(s.chain, job) && (status.Rejected? || status.Expired?)
    case Submit(job) => job in s.chain.jobs && s.chain.jobs[job].status.Funded?
    case NextDay => true
    case SetPolicy(_, _) => true
    case Restart(restored) => restored <= s.inFlight.Keys
    case AdriftLands(k, job) => k < |s.adrift| && job !in s.chain.jobs
  }

  /** The open jobs whose reservation a restart loses. */
  function Dropped(s: State, restored: set<JobId>): map<JobId, nat> {
    map j | j in s.chain.jobs && !Terminal(s.chain.jobs[j].status)
            && ((j in s.inFlight && j !in restored) || (s.phase.Recording? && j == s.phase.job && j !in s.inFlight))
      :: s.chain.jobs[j].budget
  }

  function SetStatus(c: Chain, job: JobId, status: Status): Chain
    requires job in c.jobs
  {
    c.(jobs := c.jobs[job := c.jobs[job].(status := status)])
  }

  ghost function Apply(s: State, e: Event): State
    requires Enabled(s, e)
  {
    match e
    case Delegate(amount) => s.(queue := s.queue + [amount])
    case ReadSpent =>
      s.(queue := s.queue[1..], phase := Settling(s.queue[0], Ceiling(s), s.chain.spent, s.inFlight.Keys))
    case ReadRecord(job) =>
      var settled := job in s.chain.jobs && Terminal(s.chain.jobs[job].status);
      s.(inFlight := if settled then s.inFlight - {job} else s.inFlight,
         phase := s.phase.(toCheck := s.phase.toCheck - {job}))
    case Decide =>
      if s.phase.amount > Available(s.phase.ceiling, s.phase.spent, Sum(s.inFlight)) then s.(phase := Idle)
      else s.(phase := Funding(s.phase.amount))
    case FundLands(job) =>
      s.(chain := s.chain.(jobs := s.chain.jobs[job := Job(Funded, s.phase.amount)]),
         phase := Recording(job, s.phase.amount))
    case FundFails => s.(phase := Idle)
    case Record => s.(inFlight := s.inFlight[s.phase.job := s.phase.amount], phase := Idle)
    case Release(job, counted) =>
      var budget := s.chain.jobs[job].budget;
      var c := SetStatus(s.chain, job, Completed);
      s.(chain := if counted then c.(spent := c.spent + budget) else c,
         slipped := if s.phase.Settling? && job in s.phase.toCheck then s.slipped + budget else s.slipped)
    case Refund(job, status) => s.(chain := SetStatus(s.chain, job, status))
    case Submit(job) => s.(chain := SetStatus(s.chain, job, Submitted))
    case NextDay =>
      s.(chain := s.chain.(spent := 0), slipped := Sum(OffTheBooks(s)),
         highest := Max(Ceiling(s), Max(Booked(s), if s.phase.Settling? then s.phase.ceiling else 0)))
    case SetPolicy(policy, limit) =>
      var t := s.(chain := s.chain.(policy := policy, limit := limit));
      t.(highest := Max(s.highest, Ceiling(t)))
    case Restart(restored) =>
      s.(inFlight := map j | j in restored && j in s.inFlight :: s.inFlight[j],
         phase := Idle,
         adrift := if s.phase.Funding? then s.adrift + [s.phase.amount] else s.adrift,
         slipped := s.slipped + Sum(Dropped(s, restored)))
    case AdriftLands(k, job) =>
      s.(chain := s.chain.(jobs := s.chain.jobs[job := Job(Funded, s.adrift[k])]),
         adrift := s.adrift[..k] + s.adrift[k + 1..],
         slipped := s.slipped + s.adrift[k])
  }

  function Initial(policy: bool, limit: nat): State {
    State(Chain(policy, if policy then limit else 0, 0, map[]), map[], [], Idle, [], 0, if policy then limit else 0)
  }

  ghost function Run(policy: bool, limit: nat, events: seq<Event>): Option<State> {
    if events == [] then Some(Initial(policy, limit))
    else
      var before := Run(policy, limit, events[..|events| - 1]);
      var e := events[|events| - 1];
      if before.Some? && Enabled(before.value, e) then Some(Apply(before.value, e)) else None
  }

  // ----- the invariant

  ghost function Used(s: State): nat {
    s.chain.spent + Sum(Open(s.chain))
  }

  /** The reservations the view under way will have counted when it decides. */
  function Surviving(s: State): map<JobId, nat>
    requires s.phase.Settling?
  {
    map j | j in s.inFlight && !(j in s.phase.toCheck && j in s.chain.jobs && Terminal(s.chain.jobs[j].status))
      :: s.inFlight[j]
  }

  /** Open jobs that are neither reserved nor about to be. */
  function OffTheBooks(s: State): map<JobId, nat> {
    map j | j in s.chain.jobs && !Terminal(s.chain.jobs[j].status) && j !in s.inFlight
            && !(s.phase.Recording? && j == s.phase.job) :: s.chain.jobs[j].budget
  }

  /** Open jobs that are. */
  function OnTheBooks(s: State): map<JobId, nat> {
    map j | j in s.chain.jobs && !Terminal(s.chain.jobs[j].status)
            && (j in s.inFlight || (s.phase.Recording? && j == s.phase.job)) :: s.chain.jobs[j].budget
  }

  function Ceiling(s: State): nat {
    if s.chain.policy then s.chain.limit else 0
  }

  ghost predicate BooksOk(s: State) {
    && (forall j :: j in s.inFlight ==> j in s.chain.jobs && s.chain.jobs[j].budget == s.inFlight[j])
    && (s.phase.Settling? ==> s.phase.toCheck <= s.inFlight.Keys && s.phase.amount > 0)
    && (s.phase.Recording? ==>
          && s.phase.job in s.chain.jobs && s.phase.job !in s.inFlight
          && s.chain.jobs[s.phase.job].budget == s.phase.amount)
    && forall i :: 0 <= i < |s.queue| ==> s.queue[i] > 0
  }

  ghost predicate MoneyOk(s: State) {
    && Used(s) <= s.highest + s.slipped
    && Sum(OffTheBooks(s)) <= s.slipped
    && (s.phase.Settling? ==>
          Used(s) <= s.phase.spent + Sum(Surviving(s)) + s.slipped && s.phase.ceiling <= s.highest)
    && (s.phase.Funding? ==> Used(s) + s.phase.amount <= s.highest + s.slipped)
    && Booked(s) <= s.highest && Ceiling(s) <= s.highest
  }

  /** What is on the books, and what is being funded: never above the highest ceiling, whatever slips. */
  ghost function Booked(s: State): nat {
    Sum(OnTheBooks(s)) + if s.phase.Funding? then s.phase.amount else 0
  }

  lemma BooksStep(s: State, e: Event)
    requires BooksOk(s) && Enabled(s, e)
    ensures BooksOk(Apply(s, e))
  {
  }

  /** A view starts with every open job either among the reservations it will read or off the books. */
  lemma ReadSpentStep(s: State)
    requires BooksOk(s) && MoneyOk(s) && Enabled(s, ReadSpent)
    ensures MoneyOk(Apply(s, ReadSpent))
  {
    var t := Apply(s, ReadSpent);
    assert Open(s.chain) == Surviving(t) + OffTheBooks(s);
    SumDisjoint(Surviving(t), OffTheBooks(s));
    assert OffTheBooks(t) == OffTheBooks(s);
    assert OnTheBooks(t) == OnTheBooks(s);
  }

  lemma ReadRecordStep(s: State, job: JobId)
    requires BooksOk(s) && MoneyOk(s) && Enabled(s, ReadRecord(job))
    ensures MoneyOk(Apply(s, ReadRecord(job)))
  {
    var t := Apply(s, ReadRecord(job));
    assert Surviving(t) == Surviving(s);
    assert OffTheBooks(t) == OffTheBooks(s);
    assert OnTheBooks(t) == OnTheBooks(s);
  }

  lemma DecideStep(s: State)
    requires BooksOk(s) && MoneyOk(s) && Enabled(s, Decide)
    ensures MoneyOk(Apply(s, Decide))
  {
    var t := Apply(s, Decide);
    assert Surviving(s) == s.inFlight;
    assert OffTheBooks(t) == OffTheBooks(s);
    assert OnTheBooks(t) == OnTheBooks(s);
    SumMonotone(OnTheBooks(s), s.inFlight);
  }

  lemma FundLandsBooks(s: State, job: JobId)
    requires BooksOk(s) && Enabled(s, FundLands(job))
    ensures var t := Apply(s, FundLands(job));
            OffTheBooks(t) == OffTheBooks(s) && OnTheBooks(t) == OnTheBooks(s)[job := s.phase.amount]
    ensures job !in OnTheBooks(s)
  {
  }

  lemma FundLandsStep(s: State, job: JobId)
    requires BooksOk(s) && MoneyOk(s) && Enabled(s, FundLands(job))
    ensures MoneyOk(Apply(s, FundLands(job)))
  {
    OneMoreOpen(s.chain, job, s.phase.amount);
    FundLandsBooks(s, job);
    SumInsert(OnTheBooks(s), job, s.phase.amount);
  }

  /** A fund cut off from its host lands: one more open job, off the books. */
  lemma AdriftBooks(s: State, k: nat, job: JobId)
    requires BooksOk(s) && Enabled(s, AdriftLands(k, job))
    ensures var t := Apply(s, AdriftLands(k, job));
            OnTheBooks(t) == OnTheBooks(s) && (s.phase.Settling? ==> Surviving(t) == Surviving(s))
  {
  }

  lemma AdriftOffTheBooks(s: State, k: nat, job: JobId)
    requires BooksOk(s) && Enabled(s, AdriftLands(k, job))
    ensures OffTheBooks(Apply(s, AdriftLands(k, job))) == OffTheBooks(s)[job := s.adrift[k]]
  {
  }

  lemma AdriftLandsStep(s: State, k: nat, job: JobId)
    requires BooksOk(s) && MoneyOk(s) && Enabled(s, AdriftLands(k, job))
    ensures MoneyOk(Apply(s, AdriftLands(k, job)))
  {
    OneMoreOpen(s.chain, job, s.adrift[k]);
    AdriftBooks(s, k, job);
    AdriftOffTheBooks(s, k, job);
    SumInsert(OffTheBooks(s), job, s.adrift[k]);
  }

  lemma OneMoreOpen(c: Chain, job: JobId, amount: nat)
    requires job !in c.jobs
    ensures Sum(Open(c.(jobs := c.jobs[job := Job(Funded, amount)]))) == Sum(Open(c)) + amount
  {
    assert Open(c.(jobs := c.jobs[job := Job(Funded, amount)])) == Open(c)[job := amount];
    SumInsert(Open(c), job, amount);
  }

  lemma RecordStep(s: State)
    requires BooksOk(s) && MoneyOk(s) && Enabled(s, Record)
    ensures MoneyOk(Apply(s, Record))
  {
    assert OffTheBooks(Apply(s, Record)) == OffTheBooks(s);
    assert OnTheBooks(Apply(s, Record)) == OnTheBooks(s);
  }

  predicate Closes(e: Event, job: JobId) {
    (e.Refund? || e.Release?) && e.job == job
  }

  lemma ClosedJob(s: State, e: Event, job: JobId)
    requires BooksOk(s) && Enabled(s, e) && Closes(e, job)
    ensures Sum(Open(s.chain)) == s.chain.jobs[job].budget + Sum(Open(Apply(s, e).chain))
  {
    assert Open(Apply(s, e).chain) == Open(s.chain) - {job};
    SumSplit(Open(s.chain), job);
  }

  lemma ClosedBooks(s: State, e: Event, job: JobId)
    requires BooksOk(s) && Enabled(s, e) && Closes(e, job)
    ensures var t := Apply(s, e);
            Sum(OffTheBooks(t)) <= Sum(OffTheBooks(s)) && Sum(OnTheBooks(t)) <= Sum(OnTheBooks(s))
  {
    SumMonotone(OffTheBooks(Apply(s, e)), OffTheBooks(s));
    SumMonotone(OnTheBooks(Apply(s, e)), OnTheBooks(s));
  }

  lemma ClosedReservation(s: State, e: Event, job: JobId)
    requires BooksOk(s) && Enabled(s, e) && Closes(e, job) && s.phase.Settling?
    ensures var t := Apply(s, e);
            Sum(Surviving(s)) == Sum(Surviving(t)) + (if job in s.phase.toCheck then s.chain.jobs[job].budget else 0)
  {
    var t := Apply(s, e);
    if job in s.phase.toCheck {
      assert Surviving(t) == Surviving(s) - {job};
      SumSplit(Surviving(s), job);
    } else {
      assert Surviving(t) == Surviving(s);
    }
  }

  /** A job leaves the open jobs: by release, its budget moves to the counter; by refund, it does not. */
  lemma ClosingStep(s: State, e: Event, job: JobId)
    requires BooksOk(s) && MoneyOk(s) && Enabled(s, e) && Closes(e, job)
    ensures MoneyOk(Apply(s, e))
  {
    ClosedJob(s, e, job);
    ClosedBooks(s, e, job);
    if s.phase.Settling? { ClosedReservation(s, e, job); }
  }

  lemma SubmitStep(s: State, job: JobId)
    requires BooksOk(s) && MoneyOk(s) && Enabled(s, Submit(job))
    ensures MoneyOk(Apply(s, Submit(job)))
  {
    var t := Apply(s, Submit(job));
    assert t == s.(chain := t.chain);
    SubmittedIsOpen(s.chain, job);
    SameOpenSameRest(s, t.chain);
  }

  lemma SubmittedIsOpen(c: Chain, job: JobId)
    requires job in c.jobs && c.jobs[job].status.Funded?
    ensures Open(SetStatus(c, job, Submitted)) == Open(c)
  {
  }

  lemma SameOpenSameRest(s: State, c: Chain)
    requires c.jobs.Keys == s.chain.jobs.Keys
    requires forall j :: j in c.jobs ==>
               c.jobs[j].budget == s.chain.jobs[j].budget
               && Terminal(c.jobs[j].status) == Terminal(s.chain.jobs[j].status)
    ensures OffTheBooks(s.(chain := c)) == OffTheBooks(s) && OnTheBooks(s.(chain := c)) == OnTheBooks(s)
    ensures s.phase.Settling? ==> Surviving(s.(chain := c)) == Surviving(s)
  {
  }

  /** A restart takes jobs off the books, and puts none on them. */
  lemma RestartBooks(s: State, restored: set<JobId>)
    requires BooksOk(s) && Enabled(s, Restart(restored))
    ensures var t := Apply(s, Restart(restored));
            OffTheBooks(t) == OffTheBooks(s) + Dropped(s, restored)
    ensures OffTheBooks(s).Keys !! Dropped(s, restored).Keys
  {
  }

  lemma RestartOnTheBooks(s: State, restored: set<JobId>)
    requires BooksOk(s) && Enabled(s, Restart(restored))
    ensures Sum(OnTheBooks(Apply(s, Restart(restored)))) <= Sum(OnTheBooks(s))
  {
    SumMonotone(OnTheBooks(Apply(s, Restart(restored))), OnTheBooks(s));
  }

  lemma RestartStep(s: State, restored: set<JobId>)
    requires BooksOk(s) && MoneyOk(s) && Enabled(s, Restart(restored))
    ensures MoneyOk(Apply(s, Restart(restored)))
  {
    RestartBooks(s, restored);
    RestartOnTheBooks(s, restored);
    SumDisjoint(OffTheBooks(s), Dropped(s, restored));
  }

  /** A new day's bound is loose by what is off the books, whatever slipped before. */
  lemma NextDayStep(s: State)
    requires BooksOk(s) && MoneyOk(s)
    ensures MoneyOk(Apply(s, NextDay))
  {
    var t := Apply(s, NextDay);
    assert Open(t.chain) == OnTheBooks(s) + OffTheBooks(s);
    SumDisjoint(OnTheBooks(s), OffTheBooks(s));
    assert OffTheBooks(t) == OffTheBooks(s) && OnTheBooks(t) == OnTheBooks(s);
    if s.phase.Settling? {
      assert Surviving(t) == Surviving(s);
      SumMonotone(OnTheBooks(s), Surviving(s));
    }
  }

  /** The queue, a fund that fails and another ceiling take nothing away. */
  lemma QuietStep(s: State, e: Event)
    requires BooksOk(s) && MoneyOk(s) && Enabled(s, e)
    requires e.Delegate? || e.FundFails? || e.SetPolicy?
    ensures MoneyOk(Apply(s, e))
  {
    var t := Apply(s, e);
    assert Open(t.chain) == Open(s.chain);
    assert OffTheBooks(t) == OffTheBooks(s) && OnTheBooks(t) == OnTheBooks(s);
    if s.phase.Settling? { assert Surviving(t) == Surviving(s); }
  }

  lemma MoneyStep(s: State, e: Event)
    requires BooksOk(s) && MoneyOk(s) && Enabled(s, e)
    ensures MoneyOk(Apply(s, e))
  {
    match e
    case ReadSpent => ReadSpentStep(s);
    case ReadRecord(job) => ReadRecordStep(s, job);
    case Decide => DecideStep(s);
    case FundLands(job) => FundLandsStep(s, job);
    case Record => RecordStep(s);
    case Release(job, _) => ClosingStep(s, e, job);
    case Refund(job, _) => ClosingStep(s, e, job);
    case Submit(job) => SubmitStep(s, job);
    case NextDay => NextDayStep(s);
    case Restart(restored) => RestartStep(s, restored);
    case AdriftLands(k, job) => AdriftLandsStep(s, k, job);
    case _ => QuietStep(s, e);
  }

  /**
   * What is spoken for moves only with the chain: up by a fund that lands; down by a budget that goes
   * back, or that leaves uncounted; and at midnight by what was counted. A counted release moves a budget
   * from the open jobs to the counter.
   */
  lemma UsedMovesWithTheChain(policy: bool, limit: nat, events: seq<Event>, e: Event)
    requires Run(policy, limit, events).Some? && Enabled(Run(policy, limit, events).value, e)
    ensures var s := Run(policy, limit, events).value;
            var t := Apply(s, e);
            Used(t) == match e
                       case FundLands(_) => Used(s) + s.phase.amount
                       case AdriftLands(k, _) => Used(s) + s.adrift[k]
                       case Refund(job, _) => Used(s) - s.chain.jobs[job].budget
                       case Release(job, counted) => Used(s) - if counted then 0 else s.chain.jobs[job].budget
                       case NextDay => Used(s) - s.chain.spent
                       case _ => Used(s)
    ensures e.Release? && e.counted ==>
              var s := Run(policy, limit, events).value;
              Apply(s, e).chain.spent == s.chain.spent + s.chain.jobs[e.job].budget
  {
    CeilingKept(policy, limit, events);
    var s := Run(policy, limit, events).value;
    match e
    case FundLands(job) => OneMoreOpen(s.chain, job, s.phase.amount);
    case AdriftLands(k, job) => OneMoreOpen(s.chain, job, s.adrift[k]);
    case Refund(job, _) => ClosedJob(s, e, job);
    case Release(job, _) => ClosedJob(s, e, job);
    case Submit(job) => SubmittedIsOpen(s.chain, job);
    case _ => assert Open(Apply(s, e).chain) == Open(s.chain);
  }

  /**
   * A view takes the ceiling and the counter of the moment it starts; when it has read every record it
   * admits its amount exactly when that, what the counter said and what is still reserved fit the ceiling.
   */
  lemma AdmitsExactly(policy: bool, limit: nat, events: seq<Event>, e: Event)
    requires Run(policy, limit, events).Some? && Enabled(Run(policy, limit, events).value, e)
    ensures var s := Run(policy, limit, events).value;
            var t := Apply(s, e);
            && (e.ReadSpent? ==>
                  && t.queue == s.queue[1..] && t.phase.Settling? && t.phase.amount == s.queue[0]
                  && t.phase.ceiling == (if s.chain.policy then s.chain.limit else 0)
                  && t.phase.spent == s.chain.spent && t.phase.toCheck == s.inFlight.Keys)
            && (e.ReadRecord? ==>
                  && t.phase == s.phase.(toCheck := s.phase.toCheck - {e.job})
                  && t.inFlight == if e.job in s.chain.jobs
                                      && s.chain.jobs[e.job].status in {Completed, Rejected, Expired}
                                   then s.inFlight - {e.job} else s.inFlight)
            && (e.Decide? ==>
                  && t == s.(phase := t.phase)
                  && t.phase == if s.phase.spent + Sum(s.inFlight) + s.phase.amount <= s.phase.ceiling
                                then Funding(s.phase.amount) else Idle)
  {
    CeilingKept(policy, limit, events);
  }

  /** What the chain and the host do besides: one job's status, the ceiling, the end of a delegation. */
  lemma ChainMoves(policy: bool, limit: nat, events: seq<Event>, e: Event)
    requires Run(policy, limit, events).Some? && Enabled(Run(policy, limit, events).value, e)
    ensures var s := Run(policy, limit, events).value;
            var t := Apply(s, e);
            match e
            case SetPolicy(p, l) => t == s.(chain := s.chain.(policy := p, limit := l), highest := t.highest)
            case Submit(job) =>
              t == s.(chain := s.chain.(jobs := s.chain.jobs[job := Job(Submitted, s.chain.jobs[job].budget)]))
            case Refund(job, status) =>
              t == s.(chain := s.chain.(jobs := s.chain.jobs[job := Job(status, s.chain.jobs[job].budget)]))
            case Release(job, _) =>
              t.chain.jobs == s.chain.jobs[job := Job(Completed, s.chain.jobs[job].budget)]
            case FundLands(job) =>
              && t.chain == s.chain.(jobs := s.chain.jobs[job := Job(Funded, s.phase.amount)])
              && t.phase == Recording(job, s.phase.amount)
            case FundFails => t == s.(phase := Idle)
            case Record => t == s.(inFlight := s.inFlight[s.phase.job := s.phase.amount], phase := Idle)
            case Delegate(amount) => t == s.(queue := s.queue + [amount])
            case _ => true
  {
  }

  /** The policy is revoked, or its limit lowered. */
  ghost predicate Lowers(s: State, e: Event) {
    e.SetPolicy? && (if e.policy then e.limit else 0) < Ceiling(s)
  }

  ghost predicate NeverLowered(policy: bool, limit: nat, events: seq<Event>) {
    forall k :: 0 <= k < |events| && Run(policy, limit, events[..k]).Some? ==>
      !Lowers(Run(policy, limit, events[..k]).value, events[k])
  }

  /**
   * Released today plus the budgets of open jobs exceeds the highest ceiling of the day by no more than
   * what slipped today and what is off the books; and what is on the books never exceeds it. Over every
   * sequence of hires, releases, refunds, days, policies and restarts, whatever interleaves with a view.
   */
  lemma {:induction false} CeilingKept(policy: bool, limit: nat, events: seq<Event>)
    requires Run(policy, limit, events).Some?
    ensures var s := Run(policy, limit, events).value;
            && BooksOk(s) && MoneyOk(s)
            && Used(s) <= s.highest + s.slipped && Booked(s) <= s.highest
  {
    if events == [] {
      assert Open(Initial(policy, limit).chain) == map[];
      assert OnTheBooks(Initial(policy, limit)) == map[];
      assert OffTheBooks(Initial(policy, limit)) == map[];
    } else {
      CeilingKept(policy, limit, events[..|events| - 1]);
      var s := Run(policy, limit, events[..|events| - 1]).value;
      BooksStep(s, events[|events| - 1]);
      MoneyStep(s, events[|events| - 1]);
    }
  }

  /** While the ceiling is not lowered, the highest one is the one in force. */
  lemma {:induction false} CeilingKeptUnlessLowered(policy: bool, limit: nat, events: seq<Event>)
    requires Run(policy, limit, events).Some? && NeverLowered(policy, limit, events)
    ensures var s := Run(policy, limit, events).value;
            s.highest == Ceiling(s) && Used(s) <= Ceiling(s) + s.slipped && Booked(s) <= Ceiling(s)
  {
    CeilingKept(policy, limit, events);
    if events != [] {
      var n := |events| - 1;
      assert forall k :: 0 <= k < n ==> events[..n][..k] == events[..k];
      CeilingKeptUnlessLowered(policy, limit, events[..n]);
      CeilingKept(policy, limit, events[..n]);
      HighestIsInForce(Run(policy, limit, events[..n]).value, events[n]);
    }
  }

  lemma HighestIsInForce(s: State, e: Event)
    requires MoneyOk(s) && s.highest == Ceiling(s) && Enabled(s, e) && !Lowers(s, e)
    ensures Apply(s, e).highest == Ceiling(Apply(s, e))
  {
  }

  /**
   * A release between a view's reading of the counter and of that job, a restart that forgets an open
   * job, or a fund that lands after the restart which cut it off.
   */
  ghost predicate Slips(s: State, e: Event) {
    || (e.Release? && s.phase.Settling? && e.job in s.phase.toCheck)
    || (e.Restart? && (s.phase.Recording? || e.restored != s.inFlight.Keys))
    || e.AdriftLands?
  }

  ghost predicate Orderly(policy: bool, limit: nat, events: seq<Event>) {
    forall k :: 0 <= k < |events| && Run(policy, limit, events[..k]).Some? ==>
      !Slips(Run(policy, limit, events[..k]).value, events[k])
  }

  /** When every view reads one chain state and no reservation is lost, the highest ceiling is never passed. */
  lemma {:induction false} OrderlyKeepsCeiling(policy: bool, limit: nat, events: seq<Event>)
    requires Run(policy, limit, events).Some? && Orderly(policy, limit, events)
    ensures var s := Run(policy, limit, events).value;
            && s.slipped == 0 && Used(s) <= s.highest
            && (NeverLowered(policy, limit, events) ==> Used(s) <= Ceiling(s))
  {
    CeilingKept(policy, limit, events);
    if NeverLowered(policy, limit, events) { CeilingKeptUnlessLowered(policy, limit, events); }
    if events != [] {
      var n := |events| - 1;
      assert forall k :: 0 <= k < n ==> events[..n][..k] == events[..k];
      OrderlyKeepsCeiling(policy, limit, events[..n]);
      CeilingKept(policy, limit, events[..n]);
      NothingSlips(Run(policy, limit, events[..n]).value, events[n]);
    }
  }

  lemma NothingSlips(s: State, e: Event)
    requires MoneyOk(s) && s.slipped == 0 && Enabled(s, e) && !Slips(s, e)
    ensures Apply(s, e).slipped == 0
  {
    if e.Restart? { assert Dropped(s, e.restored) == map[]; }
  }

  lemma Extend(policy: bool, limit: nat, events: seq<Event>, s: State, e: Event) returns (t: State)
    requires Run(policy, limit, events) == Some(s) && Enabled(s, e)
    ensures Run(policy, limit, events + [e]) == Some(t) && t == Apply(s, e)
  {
    t := Apply(s, e);
    assert (events + [e])[..|events|] == events;
  }

  /** The bound is met: one release between the two reads, and twice the ceiling is spoken for. */
  lemma SlippedReleasePassesCeiling()
    ensures exists events ::
              Run(true, 10, events).Some?
              && var s := Run(true, 10, events).value; s.slipped == 10 && Used(s) == Ceiling(s) + s.slipped
  {
    var e5, s5 := ReleaseSlipsBetweenReads();
    var s6 := Extend(true, 10, e5, s5, Decide);
    assert s6 == s5.(phase := Funding(10));
    var s7 := Extend(true, 10, e5 + [Decide], s6, FundLands(2));
    assert Open(s7.chain) == map[][2 := 10];
    SumInsert(map[], 2, 10);
  }

  lemma ReleaseSlipsBetweenReads() returns (events: seq<Event>, s: State)
    ensures Run(true, 10, events) == Some(s)
    ensures s == State(Chain(true, 10, 10, map[1 := Job(Completed, 10)]), map[], [],
                       Settling(10, 10, 0, {}), [], 10, 10)
  {
    var e1, s1 := FirstJobFunded();
    var s2 := Extend(true, 10, e1, s1, Delegate(10));
    var s3 := Extend(true, 10, e1 + [Delegate(10)], s2, ReadSpent);
    var e3 := e1 + [Delegate(10)] + [ReadSpent];
    assert s2.queue == [10] && s1.inFlight.Keys == {1};
    assert s3 == s1.(phase := Settling(10, 10, 0, {1}));
    var s4 := Extend(true, 10, e3, s3, Release(1, true));
    assert s4.chain == Chain(true, 10, 10, map[1 := Job(Completed, 10)]) && s4.slipped == 10;
    s := Extend(true, 10, e3 + [Release(1, true)], s4, ReadRecord(1));
    events := e3 + [Release(1, true)] + [ReadRecord(1)];
    assert s.inFlight == map[] && s.phase.toCheck == {};
  }

  lemma FirstJobFunded() returns (events: seq<Event>, s: State)
    ensures Run(true, 10, events) == Some(s)
    ensures s == State(Chain(true, 10, 0, map[1 := Job(Funded, 10)]), map[1 := 10], [], Idle, [], 0, 10)
  {
    var s0 := Initial(true, 10);
    var s1 := Extend(true, 10, [], s0, Delegate(10));
    var s2 := Extend(true, 10, [] + [Delegate(10)], s1, ReadSpent);
    var e2 := [] + [Delegate(10)] + [ReadSpent];
    assert s2.phase == Settling(10, 10, 0, {}) && s2.inFlight == map[];
    var s3 := Extend(true, 10, e2, s2, Decide);
    var s4 := Extend(true, 10, e2 + [Decide], s3, FundLands(1));
    s := Extend(true, 10, e2 + [Decide] + [FundLands(1)], s4, Record);
    events := e2 + [Decide] + [FundLands(1)] + [Record];
  }
}
