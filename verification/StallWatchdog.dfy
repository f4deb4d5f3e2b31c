/**
  The watchdog that tells a wedged upload from a busy server.

  The body's progress is a schedule of handovers; times are milliseconds since the request started. The
  watchdog wakes exactly every `poll`.
 */
module StallWatchdog {
  import opened Options

  datatype Handover = Sent(at: nat, bytes: nat) | BodyComplete(at: nat)

  ghost predicate Ordered(schedule: seq<Handover>) {
    forall i, j :: 0 <= i < j < |schedule| ==> schedule[i].at <= schedule[j].at
  }

  /** When a chunk was last taken by time `t`; 0, the start of the request, before the first. */
  function LastSent(schedule: seq<Handover>, t: nat): (r: nat)
    ensures r <= t
  {
    if schedule == [] then 0
    else
      var h := schedule[|schedule| - 1];
      if h.Sent? && h.at <= t then h.at else LastSent(schedule[..|schedule| - 1], t)
  }

  predicate CompleteBy(schedule: seq<Handover>, t: nat) {
    exists i :: 0 <= i < |schedule| && schedule[i].BodyComplete? && schedule[i].at <= t
  }

  /** The silence at time `t`. */
  function Idle(schedule: seq<Handover>, t: nat): nat {
    t - LastSent(schedule, t)
  }

  predicate Stalled(schedule: seq<Handover>, stallAfter: nat, t: nat) {
    !CompleteBy(schedule, t) && Idle(schedule, t) >= stallAfter
  }

  // ---- What the upload and the watchdog share ----------------------------------------------------------------

  datatype Progress = Progress(sent: nat, lastMs: nat, bodyComplete: bool)

  function Noted(g: Progress, h: Handover): Progress {
    match h
    case Sent(at, bytes) => g.(sent := g.sent + bytes, lastMs := at)
    case BodyComplete(_) => g.(bodyComplete := true)
  }

  /** The progress once every handover of the schedule has been noted. */
  function After(schedule: seq<Handover>): Progress {
    if schedule == [] then Progress(0, 0, false) else Noted(After(schedule[..|schedule| - 1]), schedule[|schedule| - 1])
  }

  function IdleOf(g: Progress, now: nat): nat {
    if now >= g.lastMs then now - g.lastMs else 0
  }

  class UploadProgress {
    var sent: nat
    var lastMs: nat
    var bodyComplete: bool

    function Abs(): Progress
      reads this
    {
      Progress(sent, lastMs, bodyComplete)
    }

    constructor ()
      ensures Abs() == After([])
    {
      sent, lastMs, bodyComplete := 0, 0, false;
    }

    method NoteSent(bytes: nat, now: nat)
      modifies this
      ensures Abs() == Noted(old(Abs()), Sent(now, bytes))
      ensures sent == old(sent) + bytes && lastMs == now && bodyComplete == old(bodyComplete)
    {
      sent := sent + bytes;
      lastMs := now;
    }

    method NoteBodyComplete(ghost now: nat)
      modifies `bodyComplete
      ensures Abs() == Noted(old(Abs()), BodyComplete(now))
    {
      bodyComplete := true;
    }
  }

  /** Handovers noted up to now tell the silence and whether the body is complete. */
  lemma {:induction false} AfterTells(schedule: seq<Handover>, t: nat)
    requires forall i :: 0 <= i < |schedule| ==> schedule[i].at <= t
    ensures After(schedule).lastMs == LastSent(schedule, t)
    ensures After(schedule).bodyComplete <==> CompleteBy(schedule, t)
  {
    if schedule != [] {
      var n := |schedule| - 1;
      AfterTells(schedule[..n], t);
      assert forall i :: 0 <= i < n ==> schedule[..n][i] == schedule[i];
    }
  }

  lemma LastSentOfPrefix(schedule: seq<Handover>, n: nat, t: nat)
    requires n <= |schedule| && forall i :: n <= i < |schedule| ==> t < schedule[i].at
    ensures LastSent(schedule[..n], t) == LastSent(schedule, t)
    ensures CompleteBy(schedule[..n], t) <==> CompleteBy(schedule, t)
    decreases |schedule| - n
  {
    if n < |schedule| {
      LastSentOfPrefix(schedule, n + 1, t);
      assert schedule[..n + 1][..n] == schedule[..n];
      var a, b := schedule[..n], schedule[..n + 1];
      assert forall i :: 0 <= i < n ==> a[i] == b[i];
    } else {
      assert schedule[..n] == schedule;
    }
  }

  /** The upload's own task, up to time `t`. */
  method CatchUp(p: UploadProgress, schedule: seq<Handover>, from: nat, t: nat) returns (n: nat)
    requires from <= |schedule| && p.Abs() == After(schedule[..from])
    requires forall i :: 0 <= i < from ==> schedule[i].at <= t
    modifies p
    ensures from <= n <= |schedule| && p.Abs() == After(schedule[..n])
    ensures forall i :: 0 <= i < n ==> schedule[i].at <= t
    ensures n < |schedule| ==> t < schedule[n].at
  {
    n := from;
    while n < |schedule| && schedule[n].at <= t
      invariant from <= n <= |schedule| && p.Abs() == After(schedule[..n])
      invariant forall i :: 0 <= i < n ==> schedule[i].at <= t
    {
      match schedule[n] {
        case Sent(at, bytes) => p.NoteSent(bytes, at);
        case BodyComplete(at) => p.NoteBodyComplete(at);
      }
      assert schedule[..n + 1][..n] == schedule[..n];
      n := n + 1;
    }
  }

  /** `upload_stalled`, watched for `polls` turns: it resolves at the first poll that finds the body unfinished
      and silent for `stallAfter`, and at no other time; the silence has then lasted less than one poll too long. */
  method UploadStalled(schedule: seq<Handover>, stallAfter: nat, poll: nat, polls: nat) returns (r: Option<nat>)
    requires Ordered(schedule)
    ensures r.Some? ==> r.value <= polls && Stalled(schedule, stallAfter, r.value * poll) && r.value > 0
    ensures r.Some? ==> forall k :: 0 < k < r.value ==> !Stalled(schedule, stallAfter, k * poll)
    ensures r.Some? && stallAfter > 0 ==> stallAfter <= Idle(schedule, r.value * poll) < stallAfter + poll
    ensures r.None? ==> forall k :: 0 < k <= polls ==> !Stalled(schedule, stallAfter, k * poll)
  {
    var p := new UploadProgress();
    var n, now, k := 0, 0, 0;
    assert schedule[..0] == [];
    while k < polls
      invariant 0 <= k <= polls && n <= |schedule| && p.Abs() == After(schedule[..n])
      invariant now == k * poll && forall i :: 0 <= i < n ==> schedule[i].at <= now
      invariant forall j :: 0 < j <= k ==> !Stalled(schedule, stallAfter, j * poll)
    {
      assert (k + 1) * poll == now + poll;
      k, now := k + 1, now + poll;
      n := CatchUp(p, schedule, n, now);
      NotedTells(schedule, n, now);
      if p.bodyComplete {
        CompleteForGood(schedule, stallAfter, poll, k);
        return None;
      }
      if IdleOf(p.Abs(), now) >= stallAfter {
        if stallAfter > 0 { StallIsReportedInTime(schedule, stallAfter, poll, k); }
        return Some(k);
      }
    }
    r := None;
  }

  /** What has been noted by time `t` tells the truth about the whole schedule at `t`. */
  lemma NotedTells(schedule: seq<Handover>, n: nat, t: nat)
    requires n <= |schedule| && Ordered(schedule) && (n < |schedule| ==> t < schedule[n].at)
    requires forall i :: 0 <= i < n ==> schedule[i].at <= t
    ensures var g := After(schedule[..n]);
            IdleOf(g, t) == Idle(schedule, t) && (g.bodyComplete <==> CompleteBy(schedule, t))
  {
    AfterTells(schedule[..n], t);
    forall i | n <= i < |schedule| ensures t < schedule[i].at {
    }
    LastSentOfPrefix(schedule, n, t);
  }

  lemma CompleteStays(schedule: seq<Handover>, t: nat, t': nat)
    requires t <= t'
    ensures CompleteBy(schedule, t) ==> CompleteBy(schedule, t')
  {
  }

  /** Once the body is up, no later poll finds a stall. */
  lemma CompleteForGood(schedule: seq<Handover>, stallAfter: nat, poll: nat, k: nat)
    requires CompleteBy(schedule, k * poll)
    ensures forall j :: k <= j ==> !Stalled(schedule, stallAfter, j * poll)
  {
    forall j | k <= j ensures CompleteBy(schedule, j * poll) {
      assert k * poll <= j * poll;
      CompleteStays(schedule, k * poll, j * poll);
    }
  }

  lemma {:induction false} LastSentGrows(schedule: seq<Handover>, t: nat, t': nat)
    requires t <= t' && Ordered(schedule)
    ensures LastSent(schedule, t) <= LastSent(schedule, t')
  {
    if schedule != [] {
      var n := |schedule| - 1;
      LastSentGrows(schedule[..n], t, t');
      if schedule[n].Sent? && t < schedule[n].at <= t' {
        assert LastSent(schedule, t) <= t;
      }
    }
  }

  /** The first poll that finds a stall does so less than one poll later than `stallAfter` of silence was reached. */
  lemma StallIsReportedInTime(schedule: seq<Handover>, stallAfter: nat, poll: nat, k: nat)
    requires Ordered(schedule) && stallAfter > 0 && k > 0
    requires Stalled(schedule, stallAfter, k * poll)
    requires forall j :: 0 < j < k ==> !Stalled(schedule, stallAfter, j * poll)
    ensures stallAfter <= Idle(schedule, k * poll) < stallAfter + poll
  {
    var t := (k - 1) * poll;
    assert k * poll == t + poll;
    LastSentGrows(schedule, t, k * poll);
    CompleteStays(schedule, t, k * poll);
    assert k > 1 ==> !Stalled(schedule, stallAfter, t);
  }

  /** And a wedged body is always reported: if nothing is handed over after `last` and the body is not complete, the
      first poll at or after `last + stallAfter` finds the stall. */
  lemma WedgedBodyIsReported(schedule: seq<Handover>, stallAfter: nat, poll: nat, last: nat) returns (k: nat)
    requires poll > 0 && Ordered(schedule) && last + stallAfter > 0
    requires forall i :: 0 <= i < |schedule| ==> schedule[i].Sent? && schedule[i].at <= last
    ensures 0 < k && last + stallAfter <= k * poll < last + stallAfter + poll
    ensures Stalled(schedule, stallAfter, k * poll)
  {
    k := (last + stallAfter + poll - 1) / poll;
    assert k * poll + (last + stallAfter + poll - 1) % poll == last + stallAfter + poll - 1;
    assert 0 * poll == 0;
    LastSentAtMost(schedule, last, k * poll);
  }

  lemma {:induction false} LastSentAtMost(schedule: seq<Handover>, last: nat, t: nat)
    requires forall i :: 0 <= i < |schedule| ==> schedule[i].at <= last
    ensures LastSent(schedule, t) <= last
  {
    if schedule != [] {
      LastSentAtMost(schedule[..|schedule| - 1], last, t);
    }
  }
}
