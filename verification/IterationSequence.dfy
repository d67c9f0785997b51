/**
  The sequence that starts one iteration after another on a replica, as the
  code runs it: a step starts the next iteration against the current one, tears
  the predecessor down, and waits for the reload that ends the new one's term.
  What the stages of a start, the teardowns and the wait come to is given.
 */
module IterationSequence {
  import opened Common
  import ReloadHandOff

  type Reload = ReloadHandOff.Request

  datatype Problem = StartProblem | TeardownProblem | ContextProblem

  /**
    How a start goes: which of its stages succeed before and after the
    predecessor's term is handed over; if one fails, the reload that cut it
    short, if any, and whether tearing down what was started is clean.
   */
  datatype StartPlan = StartPlan(early: seq<bool>, late: seq<bool>, interruptedBy: Option<Reload>, clean: bool) {
    predicate FailsEarly() { false in early }
    predicate FailsLate() { !FailsEarly() && false in late }
    predicate Serves() { !FailsEarly() && !FailsLate() }

    /** What a failed start reports. An interruption whose teardown is not clean is a failure. */
    function Error(): StartError {
      if interruptedBy.Some? && clean then Interrupted(interruptedBy.value)
      else Failed((if interruptedBy.Some? then [] else [StartProblem]) + Unclean(clean))
    }
  }

  datatype StartError = Interrupted(reload: Reload) | Failed(problems: seq<Problem>)

  /** How waiting for a reload ends: with one, or with the iteration's context. */
  datatype Wait = Reloaded(reload: Reload) | Ended(problem: Option<Problem>)

  function Unclean(clean: bool): seq<Problem> { if clean then [] else [TeardownProblem] }

  function AsList<T>(o: Option<T>): seq<T> { if o.Some? then [o.value] else [] }

  class LiveIteration {
    const elects: bool
    var retired: bool
    ghost var teardowns: nat
    ghost var retirements: nat
    ghost var leaseReleases: nat

    constructor (elects: bool)
      ensures this.elects == elects && !retired && teardowns == 0 && retirements == 0 && leaseReleases == 0
    {
      this.elects, retired := elects, false;
      teardowns, retirements, leaseReleases := 0, 0, 0;
    }

    /** Ends this iteration's term, once. */
    method RetireLeadership()
      modifies this`retired, this`retirements
      ensures retired && retirements == old(retirements) + (if old(retired) then 0 else 1)
    {
      if retired {
        return;
      }
      retired := true;
      retirements := retirements + 1;
    }

    method ReleaseKeptLease()
      modifies this`leaseReleases
      ensures leaseReleases == old(leaseReleases) + (if retired && elects then 1 else 0)
    {
      if retired && elects {
        leaseReleases := leaseReleases + 1;
      }
    }

    method Teardown(clean: bool) returns (problems: seq<Problem>)
      modifies this`teardowns
      ensures teardowns == old(teardowns) + 1 && problems == Unclean(clean)
    {
      teardowns := teardowns + 1;
      return Unclean(clean);
    }
  }

  /** Starts an iteration; a failed start tears its own parts down, and hands over only once it is prepared. */
  method StartIteration(previous: LiveIteration?, elects: bool, plan: StartPlan)
    returns (live: Result<LiveIteration, StartError>, ghost made: LiveIteration)
    requires previous != null ==> !previous.retired
    modifies previous
    ensures fresh(made) && !made.retired && made.leaseReleases == 0 && made.elects == elects
    ensures live.Ok? <==> plan.Serves()
    ensures live.Ok? ==> live.value == made && made.teardowns == 0
    ensures live.Err? ==> made.teardowns == 1 && live.error == plan.Error()
    ensures previous != null ==>
      && previous.retired == !plan.FailsEarly() && previous.teardowns == old(previous.teardowns)
      && previous.leaseReleases == old(previous.leaseReleases)
  {
    var next := new LiveIteration(elects);
    made := next;
    if false in plan.early {
      var problem := CompleteFailedStartup(next, plan);
      return Err(problem), made;
    }
    if previous != null {
      previous.RetireLeadership();
    }
    if false in plan.late {
      var problem := CompleteFailedStartup(next, plan);
      return Err(problem), made;
    }
    return Ok(next), made;
  }

  /** Tears a failed startup down; one that a reload cut short reports that reload if this goes well. */
  method CompleteFailedStartup(failed: LiveIteration, plan: StartPlan) returns (error: StartError)
    modifies failed`teardowns
    ensures failed.teardowns == old(failed.teardowns) + 1 && error == plan.Error()
  {
    var problems := failed.Teardown(plan.clean);
    if plan.interruptedBy.None? {
      return Failed([StartProblem] + problems);
    }
    if problems == [] {
      return Interrupted(plan.interruptedBy.value);
    }
    return Failed(problems);
  }

  /** The problems a step reports; `closed` are those of the predecessor's teardown. */
  function Reported(plan: StartPlan, closed: seq<Problem>, wait: Wait, cleanLast: bool): seq<Problem> {
    if !plan.Serves() then
      (if plan.Error().Interrupted? then [] else plan.Error().problems) + (if plan.FailsEarly() then [] else closed)
    else if closed != [] then closed + Unclean(cleanLast)
    else if wait.Reloaded? then []
    else AsList(wait.problem) + Unclean(cleanLast)
  }

  /** Each kind of problem is reported exactly if it occurred, and nothing else is. */
  lemma ReportedExact(plan: StartPlan, closed: seq<Problem>, wait: Wait, cleanLast: bool)
    requires closed == [] || closed == [TeardownProblem]
    ensures var r := Reported(plan, closed, wait, cleanLast);
      && (StartProblem in r <==>
          (!plan.Serves() && plan.interruptedBy.None?)
          || (plan.Serves() && closed == [] && wait == Ended(Some(StartProblem))))
      && (ContextProblem in r <==> plan.Serves() && closed == [] && wait == Ended(Some(ContextProblem)))
      && (TeardownProblem in r <==>
          || (!plan.Serves() && !plan.clean)
          || (!plan.FailsEarly() && closed != [])
          || (plan.Serves() && (closed != [] || wait.Ended?) && !cleanLast)
          || (plan.Serves() && closed == [] && wait == Ended(Some(TeardownProblem))))
  {
  }

  /** The reload that the next start is given. */
  function HandedOn(plan: StartPlan, closed: seq<Problem>, wait: Wait): Option<Reload> {
    if !plan.Serves() then
      if plan.Error().Interrupted? then Some(plan.Error().reload) else None
    else if closed == [] && wait.Reloaded? then Some(wait.reload)
    else None
  }

  /** A reload waits for the next start exactly if it cut this one short cleanly, or ended its service. */
  lemma HandedOnExact(plan: StartPlan, closed: seq<Problem>, wait: Wait, reload: Reload)
    ensures HandedOn(plan, closed, wait) == Some(reload) <==>
      || (!plan.Serves() && plan.interruptedBy == Some(reload) && plan.clean)
      || (plan.Serves() && closed == [] && wait == Reloaded(reload))
  {
  }

  class Sequence {
    var current: LiveIteration?
    var startup: Option<Reload>
    ghost var handedOn: seq<Reload>   // every reload a step left for the next start
    ghost var consumed: seq<Reload>   // every reload a start was given

    /**
      The current iteration still has its leadership; every reload handed on was
      given to one start or waits for it.
     */
    ghost predicate Valid()
      reads this, current
    {
      && (current != null ==> !current.retired && current.teardowns == 0 && current.leaseReleases == 0)
      && handedOn == consumed + AsList(startup)
    }

    constructor ()
      ensures Valid() && current == null && startup == None
    {
      current, startup := null, None;
      handedOn, consumed := [], [];
    }

    /** Tears the current iteration down, if any. */
    method Close(clean: bool) returns (problems: seq<Problem>)
      modifies this`current, if current == null then {} else {current}
      ensures current == null
      ensures old(current) != null ==>
        && old(current).teardowns == old(current.teardowns) + 1 && old(current).retired == old(current.retired)
        && old(current).leaseReleases == old(current.leaseReleases)
      ensures problems == if old(current) == null then [] else Unclean(clean)
    {
      if current == null {
        return [];
      }
      problems := current.Teardown(clean);
      current := null;
    }

    /** After a failed start the reload that cut it short waits; a predecessor that was handed over is closed. */
    method AfterFailedStart(error: StartError, cleanClose: bool) returns (problems: seq<Problem>)
      requires startup == None
      modifies this, if current == null then {} else {current}
      ensures startup == (if error.Interrupted? then Some(error.reload) else None)
      ensures consumed == old(consumed) && handedOn == old(handedOn) + AsList(startup)
      ensures var over := old(current) != null && old(current.retired);
        && current == (if over then null else old(current))
        && problems == (if error.Interrupted? then [] else error.problems) + (if over then Unclean(cleanClose) else [])
      ensures old(current) != null ==>
        && old(current).retired == old(current.retired)
        && old(current).teardowns == old(current.teardowns) + (if old(current.retired) then 1 else 0)
        && old(current).leaseReleases
           == old(current.leaseReleases) + (if old(current.retired) && old(current).elects then 1 else 0)
    {
      if error.Interrupted? {
        startup := Some(error.reload);
        handedOn := handedOn + [error.reload];
        problems := [];
      } else {
        problems := error.problems;
      }
      if current != null && current.retired {
        current.ReleaseKeptLease();
        var closing := Close(cleanClose);
        problems := problems + closing;
      }
    }

    /**
      One step. The predecessor is kept if and only if the start failed before
      the hand-over, and otherwise torn down exactly once, its kept Lease
      vacated first if no successor came up. The new iteration is current and
      untouched, or torn down exactly once.
     */
    method Step(elects: bool, plan: StartPlan, cleanClose: bool, wait: Wait, cleanLast: bool)
      returns (problems: seq<Problem>, ghost made: LiveIteration)
      requires Valid()
      modifies this, if current == null then {} else {current}
      ensures Valid() && fresh(made)
      ensures if current == made then made.teardowns == 0 else made.teardowns == 1
      ensures old(current) != null ==>
        if plan.FailsEarly() then current == old(current)
        else current != old(current) && old(current).teardowns == 1
             && old(current).leaseReleases == (if plan.FailsLate() && old(current).elects then 1 else 0)
      ensures current == made <==> plan.Serves() && (old(current) == null || cleanClose) && wait.Reloaded?
      ensures current == null || current == made || current == old(current)
      ensures consumed == old(consumed) + AsList(old(startup))
      ensures var closed := if old(current) == null then [] else Unclean(cleanClose);
        startup == HandedOn(plan, closed, wait) && problems == Reported(plan, closed, wait, cleanLast)
    {
      if startup.Some? {
        consumed := consumed + [startup.value];
      }
      var next;
      next, made := StartIteration(current, elects, plan);
      startup := None;
      if next.Err? {
        problems := AfterFailedStart(next.error, cleanClose);
        return;
      }
      var closing := Close(cleanClose);
      if closing != [] {
        var last := next.value.Teardown(cleanLast);
        return closing + last, made;
      }
      current := next.value;
      match wait
      case Reloaded(reload) =>
        startup := Some(reload);
        handedOn := handedOn + [reload];
        return [], made;
      case Ended(problem) =>
        var last := Close(cleanLast);
        return AsList(problem) + last, made;
    }
  }
}
