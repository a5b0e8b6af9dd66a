/** Waiting for a node to be stable: watch, read once, then watch on until the
    deadline; and try again after any disappointment. */
module Stabilize {
  import opened Common

  datatype Status = Status(running: bool, ready: bool)

  predicate Good(s: Status) { s.running && s.ready }

  /** What the select statement receives. */
  datatype Event = Deadline | WatchError | StatusEvent(status: Status) | Unrelated

  /** One attempt: where it fails before it can watch, or what it reads and receives.
      Events end without a deadline when the attempt is still waiting. */
  datatype Attempt = NoClient | NoWatch | NoSnapshot | Watched(snapshot: Status, events: seq<Event>)

  datatype Outcome = Stable | Retry | Waiting

  predicate Harmless(e: Event) { e.Unrelated? || (e.StatusEvent? && Good(e.status)) }

  /** The deadline is received at position d, after nothing but harmless events. */
  ghost predicate StableAt(a: Attempt, d: int) {
    && a.Watched? && Good(a.snapshot)
    && 0 <= d < |a.events| && a.events[d] == Deadline
    && forall j :: 0 <= j < d ==> Harmless(a.events[j])
  }

  ghost predicate StillWaiting(a: Attempt) {
    a.Watched? && Good(a.snapshot) && forall j :: 0 <= j < |a.events| ==> Harmless(a.events[j])
  }

  method WaitForMachineReady(a: Attempt) returns (r: Outcome)
    ensures r == Stable <==> exists d :: StableAt(a, d)
    ensures r == Waiting <==> StillWaiting(a)
  {
    if !a.Watched? { return Retry; }
    if !a.snapshot.running { return Retry; }
    if !a.snapshot.ready { return Retry; }
    for k := 0 to |a.events|
      invariant forall j :: 0 <= j < k ==> Harmless(a.events[j])
    {
      match a.events[k] {
        case Deadline =>
          assert StableAt(a, k);
          return Stable;
        case WatchError => return Retry;
        case StatusEvent(status) =>
          if !status.running { return Retry; }
          if !status.ready { return Retry; }
        case Unrelated =>
      }
    }
    return Waiting;
  }

  ghost predicate Fails(a: Attempt) { !StillWaiting(a) && !exists d :: StableAt(a, d) }

  /** The attempts are those that begin before the retrier gives up. nil is returned
      exactly when some attempt is stable by itself and all before it failed: nothing
      seen in a failed attempt counts towards a later one. */
  method Stabilize(attempts: seq<Attempt>) returns (ok: bool)
    ensures ok <==> exists k, d :: SucceedsAt(attempts, k, d)
  {
    for k := 0 to |attempts|
      invariant forall j :: 0 <= j < k ==> Fails(attempts[j])
    {
      var r := WaitForMachineReady(attempts[k]);
      if r == Stable {
        ghost var d :| StableAt(attempts[k], d);
        assert SucceedsAt(attempts, k, d);
        return true;
      }
      if r == Waiting { return false; }
    }
    return false;
  }

  ghost predicate SucceedsAt(attempts: seq<Attempt>, k: int, d: int) {
    0 <= k < |attempts| && StableAt(attempts[k], d) && forall j :: 0 <= j < k ==> Fails(attempts[j])
  }

  // ---------------------------------------------------------------- what the machine did meanwhile

  /** The machine statuses among the events. */
  function Statuses(events: seq<Event>): seq<Status> {
    if events == [] then []
    else (if events[0].StatusEvent? then [events[0].status] else []) + Statuses(events[1..])
  }

  /** history lists the machine's statuses over time. The watch, opened at status
      watchAt, has delivered every later one up to lastSeen before the deadline at d;
      the snapshot is the status at readAt. */
  ghost predicate Observed(a: Attempt, d: nat, history: seq<Status>, watchAt: nat, readAt: nat, lastSeen: nat) {
    && a.Watched? && d <= |a.events|
    && watchAt <= lastSeen < |history| && readAt < |history|
    && a.snapshot == history[readAt]
    && Statuses(a.events[..d]) == history[watchAt + 1..lastSeen + 1]
  }

  lemma {:induction false} HarmlessStatusesAreGood(events: seq<Event>)
    requires forall j :: 0 <= j < |events| ==> Harmless(events[j])
    ensures forall k :: 0 <= k < |Statuses(events)| ==> Good(Statuses(events)[k])
  {
    if events != [] { HarmlessStatusesAreGood(events[1..]); }
  }

  /** Because the watch is opened before the read, success means that the machine was
      running and ready at the read and at every moment from then to the last status
      received: no transition in between goes unseen. */
  lemma StableMeansReadyThroughout(a: Attempt, d: nat, history: seq<Status>, watchAt: nat, readAt: nat, lastSeen: nat)
    requires StableAt(a, d) && Observed(a, d, history, watchAt, readAt, lastSeen)
    requires watchAt <= readAt
    ensures history[readAt].running && history[readAt].ready
    ensures forall t :: readAt <= t <= lastSeen ==> history[t].running && history[t].ready
    ensures forall t :: watchAt < t <= lastSeen ==> history[t].running && history[t].ready
    ensures forall j :: 0 <= j < d ==> !a.events[j].WatchError?
  {
    HarmlessStatusesAreGood(a.events[..d]);
    var seen := history[watchAt + 1..lastSeen + 1];
    forall t | watchAt < t <= lastSeen ensures Good(history[t]) {
      assert history[t] == seen[t - watchAt - 1];
    }
  }

  /** The order matters: reading before watching would let a lapse go unseen. */
  lemma ReadingFirstWouldMiss() returns (a: Attempt, history: seq<Status>)
    ensures StableAt(a, 0) && Observed(a, 0, history, 2, 0, 2)
    ensures !Good(history[1])
  {
    var good := Status(true, true);
    a := Watched(good, [Deadline]);
    history := [good, Status(true, false), good];
  }
}
