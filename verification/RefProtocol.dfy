/** Every interleaving of the threads that drive the tracker and the kernel: retaining,
    acquiring, receiving handles, releasing. The ledger counts what each thread still
    owes, so that references are conserved exactly and every loss has a named cause. */
module RefProtocol {
  import opened Bytes
  import opened Common
  import opened Wire
  import opened RefTracker

  /** One handle: its tracker entry, the kernel's strong references, and the threads
      between two locked sections. */
  datatype State = State(
    entry: Option<HandleRef>,
    kernel: nat,          // strong references the kernel holds for this process
    begun: nat,           // acquirers that have not reached the driver
    okDone: nat,          // acquired in the kernel, FinishAcquire(ok) still to come
    failDone: nat,        // acquire reported an error, FinishAcquire(!ok) still to come
    promised: nat,        // releases a caller was told to perform and has not
    delivered: nat,       // references received with a parcel, MarkAcquired still to come
    lost: nat,            // references nobody will release any more
    tally: Tally,
    chans: seq<Chan>,     // every wait channel made so far
    binderHeld: nat,      // references clients hold
    watchHeld: nat)

  /** What has happened so far. */
  datatype Tally = Tally(
    marks: nat,           // MarkAcquired calls
    unbacked: nat,        // those that made an entry acquired without a reference received for it
    refused: nat,         // releases for which the kernel had no reference
    orphans: nat,         // acquires the driver performed although an error was reported
    lostReleases: nat)    // releases the driver did not perform

  /** A wait channel: threads that took it out of the entry and are about to close it,
      and how often it was closed. */
  datatype Chan = Chan(takers: nat, closes: nat)

  function Take(chans: seq<Chan>, c: Option<nat>): seq<Chan> {
    if c.Some? && c.value < |chans| then chans[c.value := chans[c.value].(takers := chans[c.value].takers + 1)]
    else chans
  }

  function Init(): State { State(None, 0, 0, 0, 0, 0, 0, 0, Tally(0, 0, 0, 0, 0), [], 0, 0) }

  /** `Mark` is MarkAcquired for a reference that came with a parcel. `Remark` is the same
      call without one: the parcel was written in this process, or is read once more. */
  datatype Step =
    | RetainBinder | RetainWatch | ReleaseBinder | ReleaseWatch
    | Begin
    | AcquireOk | AcquireFailed | AcquireOrphaned
    | Finish(ok: bool)
    | Deliver | Mark | Remark
    | KernelRelease(performed: bool)
    | CloseChan(chan: nat)

  /** A thread can take a step when it is where the step starts. */
  predicate Enabled(s: State, a: Step) {
    match a
    case AcquireOk | AcquireFailed | AcquireOrphaned => s.begun > 0
    case Finish(ok) => if ok then s.okDone > 0 else s.failDone > 0
    case Mark => s.delivered > 0
    case KernelRelease(_) => s.promised > 0
    case CloseChan(c) => c < |s.chans| && s.chans[c].takers > 0
    case _ => true
  }

  function Acquired(s: State): nat { Flag(s.entry.Some? && s.entry.value.acquired) }
  function Acquiring(s: State): nat { Flag(s.entry.Some? && s.entry.value.acquiring) }
  function InFlight(s: State): nat { s.begun + s.okDone + s.failDone }

  /** What FinishAcquire loses: a reference acquired for an entry that is gone or that
      already has one, or the reference of an entry it deletes without a release. */
  function FinishLoss(e: Option<HandleRef>, ok: bool): nat {
    match e
    case None => Flag(ok)
    case Some(r) => if ok then Flag(r.acquired) else Flag(r.acquired && FinishOf(e, false).entry.None?)
  }

  function Apply(s: State, a: Step): State
    requires Enabled(s, a)
  {
    match a
    case RetainBinder => s.(entry := Some(RetainBinderOf(s.entry)), binderHeld := s.binderHeld + 1)
    case RetainWatch => s.(entry := Some(RetainWatchOf(s.entry)), watchHeld := s.watchHeld + 1)
    case ReleaseBinder =>
      var r := ReleaseOf(s.entry, true);
      s.(entry := r.entry, promised := s.promised + Flag(r.shouldRelease),
         binderHeld := if s.binderHeld > 0 then s.binderHeld - 1 else 0)
    case ReleaseWatch =>
      var r := ReleaseOf(s.entry, false);
      s.(entry := r.entry, promised := s.promised + Flag(r.shouldRelease),
         watchHeld := if s.watchHeld > 0 then s.watchHeld - 1 else 0)
    case Begin =>
      var b := BeginOf(s.entry, |s.chans|);
      s.(entry := Some(b.ref), begun := s.begun + Flag(b.needAcquire),
         chans := if b.needAcquire then s.chans + [Chan(0, 0)] else s.chans)
    case AcquireOk => s.(begun := s.begun - 1, okDone := s.okDone + 1, kernel := s.kernel + 1)
    case AcquireFailed => s.(begun := s.begun - 1, failDone := s.failDone + 1)
    case AcquireOrphaned =>
      s.(begun := s.begun - 1, failDone := s.failDone + 1, kernel := s.kernel + 1,
         tally := s.tally.(orphans := s.tally.orphans + 1), lost := s.lost + 1)
    case Finish(ok) =>
      var f := FinishOf(s.entry, ok);
      s.(entry := f.entry, okDone := s.okDone - Flag(ok), failDone := s.failDone - Flag(!ok),
         promised := s.promised + Flag(f.shouldRelease), chans := Take(s.chans, f.wait),
         lost := s.lost + FinishLoss(s.entry, ok))
    case Deliver => s.(kernel := s.kernel + 1, delivered := s.delivered + 1)
    case Mark =>
      var m := MarkOf(s.entry);
      s.(entry := Some(m.ref), delivered := s.delivered - 1, tally := s.tally.(marks := s.tally.marks + 1),
         chans := Take(s.chans, m.wait), lost := s.lost + Acquired(s))
    case Remark =>
      var m := MarkOf(s.entry);
      s.(entry := Some(m.ref), chans := Take(s.chans, m.wait),
         tally := s.tally.(marks := s.tally.marks + 1, unbacked := s.tally.unbacked + 1 - Acquired(s)))
    case KernelRelease(done) =>
      if done then
        if s.kernel > 0 then s.(promised := s.promised - 1, kernel := s.kernel - 1)
        else s.(promised := s.promised - 1, tally := s.tally.(refused := s.tally.refused + 1))
      else
        s.(promised := s.promised - 1, lost := s.lost + 1,
           tally := s.tally.(lostReleases := s.tally.lostReleases + 1))
    case CloseChan(c) => s.(chans := s.chans[c := Chan(s.chans[c].takers - 1, s.chans[c].closes + 1)])
  }

  // ----- what every step keeps -----

  /** What the kernel should hold a reference for: the entry that says so, every promised
      release, every acquire not yet finished and every reference not yet marked. */
  function Claims(s: State): nat { Acquired(s) + s.promised + s.okDone + s.delivered }

  /** Kernel references are exactly those accounted for, less the claims that marks without
      a reference made. */
  predicate Conserved(s: State) {
    s.kernel + s.tally.unbacked == Claims(s) + s.lost + s.tally.refused
      && s.tally.refused <= s.tally.unbacked <= s.tally.marks
  }

  /** Losses, and acquirers that no entry knows of, never outnumber the received
      handles, the orphaned acquires and the failed releases. */
  predicate LossBounded(s: State) {
    Acquiring(s) <= InFlight(s)
    && s.lost + (InFlight(s) - Acquiring(s)) <= s.tally.marks + s.tally.orphans + s.tally.lostReleases
    && s.tally.orphans + s.tally.lostReleases <= s.lost
  }

  predicate EntryOk(s: State) {
    s.entry.Some? ==>
      var r := s.entry.value;
      !(r.acquired && r.acquiring) && (r.acquiring <==> r.wait.Some?)
  }

  function Live(s: State, c: nat): nat { Flag(s.entry.Some? && s.entry.value.wait == Some(c)) }

  /** Each channel made so far is in exactly one place: the entry, one thread about to
      close it, or closed once. */
  ghost predicate ChannelsOk(s: State) {
    (forall c :: 0 <= c < |s.chans| ==> Live(s, c) + s.chans[c].takers + s.chans[c].closes == 1)
    && (s.entry.Some? && s.entry.value.wait.Some? ==> s.entry.value.wait.value < |s.chans|)
  }

  ghost predicate Inv(s: State) { Conserved(s) && LossBounded(s) && EntryOk(s) && ChannelsOk(s) }

  /** What a step does to the entry and to what clients hold. */
  function EntryAfter(s: State, a: Step): Option<HandleRef> {
    match a
    case RetainBinder => Some(RetainBinderOf(s.entry))
    case RetainWatch => Some(RetainWatchOf(s.entry))
    case ReleaseBinder => ReleaseOf(s.entry, true).entry
    case ReleaseWatch => ReleaseOf(s.entry, false).entry
    case Begin => Some(BeginOf(s.entry, |s.chans|).ref)
    case Finish(ok) => FinishOf(s.entry, ok).entry
    case Mark | Remark => Some(MarkOf(s.entry).ref)
    case _ => s.entry
  }

  predicate Follows(s: State, a: Step, t: State) {
    t.entry == EntryAfter(s, a)
    && t.binderHeld == HeldAfter(s.binderHeld, a.RetainBinder?, a.ReleaseBinder?)
    && t.watchHeld == HeldAfter(s.watchHeld, a.RetainWatch?, a.ReleaseWatch?)
  }

  function HeldAfter(held: nat, retain: bool, release: bool): nat {
    if retain then held + 1 else if release && held > 0 then held - 1 else held
  }

  lemma EntryStep(s: State, a: Step)
    requires Enabled(s, a)
    ensures Follows(s, a, Apply(s, a))
  {
    hide Take, FinishLoss, FinishOf, ReleaseOf, BeginOf, MarkOf, RetainBinderOf, RetainWatchOf, Acquired;
  }

  lemma EntryOkStep(s: State, a: Step, t: State)
    requires EntryOk(s) && Follows(s, a, t)
    ensures EntryOk(t)
  {}

  lemma ClaimsStep(s: State, a: Step)
    requires Enabled(s, a) && Conserved(s) && EntryOk(s)
    ensures Conserved(Apply(s, a))
  {
    hide Take;
  }

  lemma ConservedStep(s: State, a: Step)
    requires Enabled(s, a) && Conserved(s) && EntryOk(s)
    ensures Conserved(Apply(s, a)) && EntryOk(Apply(s, a))
  {
    hide Apply, Enabled, Conserved, EntryOk, Follows;
    ClaimsStep(s, a);
    EntryStep(s, a);
    EntryOkStep(s, a, Apply(s, a));
  }

  lemma LossStep(s: State, a: Step)
    requires Enabled(s, a) && LossBounded(s) && EntryOk(s)
    ensures LossBounded(Apply(s, a))
  {}

  lemma ChannelsStep(s: State, a: Step)
    requires Enabled(s, a) && EntryOk(s) && ChannelsOk(s)
    ensures ChannelsOk(Apply(s, a))
  {
    var t := Apply(s, a);
    forall c | 0 <= c < |t.chans| ensures Live(t, c) + t.chans[c].takers + t.chans[c].closes == 1 {
      if c < |s.chans| {
        assert Live(s, c) + s.chans[c].takers + s.chans[c].closes == 1;
      }
    }
  }

  lemma InvStep(s: State, a: Step)
    requires Enabled(s, a) && Inv(s)
    ensures Inv(Apply(s, a))
  {
    hide Enabled, Apply, Conserved, LossBounded, EntryOk, ChannelsOk;
    ConservedStep(s, a);
    LossStep(s, a);
    ChannelsStep(s, a);
  }

  lemma LedgerInit()
    ensures Conserved(Init()) && LossBounded(Init())
  {
    hide Conserved, LossBounded;
    NothingCounted(Init());
  }

  lemma NothingCounted(s: State)
    requires s.entry.None? && s.tally == Tally(0, 0, 0, 0, 0)
    requires s.kernel == s.begun == s.okDone == s.failDone == s.promised == s.delivered == s.lost == 0
    ensures Conserved(s) && LossBounded(s)
  {}

  lemma ChannelsInit()
    ensures EntryOk(Init()) && ChannelsOk(Init())
  {}

  lemma InvInit()
    ensures Inv(Init())
  {
    hide Init, Conserved, LossBounded, EntryOk, ChannelsOk;
    LedgerInit();
    ChannelsInit();
  }

  // ----- runs -----

  /** `run` lists the states of an execution that takes `steps`. */
  ghost predicate IsRun(run: seq<State>, steps: seq<Step>) {
    |run| == |steps| + 1 && run[0] == Init()
    && forall i :: 0 <= i < |steps| ==> Enabled(run[i], steps[i]) && run[i + 1] == Apply(run[i], steps[i])
  }

  lemma {:induction false} RunInv(run: seq<State>, steps: seq<Step>, i: nat)
    requires IsRun(run, steps) && i < |run|
    ensures Inv(run[i])
    decreases i
  {
    hide Enabled, Apply, Inv;
    if i == 0 {
      InvInit();
    } else {
      RunInv(run, steps, i - 1);
      InvStep(run[i - 1], steps[i - 1]);
    }
  }

  /** A MarkAcquired that claims a reference nobody has received. */
  predicate Unbacked(s: State, a: Step) { a.Remark? && Acquired(s) == 0 }

  ghost function UnbackedMarks(run: seq<State>, steps: seq<Step>, i: nat): nat
    requires i < |run| == |steps| + 1
  {
    if i == 0 then 0 else UnbackedMarks(run, steps, i - 1) + Flag(Unbacked(run[i - 1], steps[i - 1]))
  }

  lemma UnbackedStep(s: State, a: Step)
    requires Enabled(s, a)
    ensures Apply(s, a).tally.unbacked == s.tally.unbacked + Flag(Unbacked(s, a))
  {
    hide Take, FinishOf, FinishLoss, ReleaseOf, BeginOf, MarkOf;
  }

  lemma {:induction false} UnbackedCounted(run: seq<State>, steps: seq<Step>, i: nat)
    requires IsRun(run, steps) && i < |run|
    ensures run[i].tally.unbacked == UnbackedMarks(run, steps, i)
    decreases i
  {
    hide Enabled, Apply, Unbacked;
    if i > 0 {
      UnbackedCounted(run, steps, i - 1);
      UnbackedStep(run[i - 1], steps[i - 1]);
    }
  }

  /** In every interleaving, exactly when the kernel holds fewer references than are claimed:
      when the marks that were made without a reference, on an entry that had none,
      outnumber the references nobody will release and the releases already refused. The
      surplus is bounded by the marks and the faults of the driver. */
  lemma KernelShortIff(run: seq<State>, steps: seq<Step>, i: nat)
    requires IsRun(run, steps) && i < |run|
    ensures var s := run[i];
            (s.kernel < Claims(s) <==> UnbackedMarks(run, steps, i) > s.lost + s.tally.refused)
            && s.kernel - Claims(s) == s.lost + s.tally.refused - UnbackedMarks(run, steps, i)
            && s.lost <= s.tally.marks + s.tally.orphans + s.tally.lostReleases
  {
    hide Apply, ChannelsOk, EntryOk, UnbackedMarks, IsRun;
    RunInv(run, steps, i);
    UnbackedCounted(run, steps, i);
  }

  lemma {:induction false} NoneUnbacked(run: seq<State>, steps: seq<Step>, i: nat)
    requires i < |run| == |steps| + 1 && forall k :: 0 <= k < i ==> !Unbacked(run[k], steps[k])
    ensures UnbackedMarks(run, steps, i) == 0
    decreases i
  {
    hide Unbacked;
    if i > 0 {
      NoneUnbacked(run, steps, i - 1);
    }
  }

  /** While every mark comes with a reference or finds the entry acquired, the kernel is never
      short, and no release is refused. */
  lemma KernelNeverShort(run: seq<State>, steps: seq<Step>, i: nat)
    requires IsRun(run, steps) && i < |run|
    requires forall k :: 0 <= k < i ==> !Unbacked(run[k], steps[k])
    ensures run[i].kernel >= Claims(run[i]) && run[i].tally.refused == 0
    ensures i < |steps| && steps[i].KernelRelease? ==> run[i].kernel > 0
  {
    hide Apply, ChannelsOk, EntryOk, LossBounded, Conserved, Unbacked, Claims;
    NoneUnbacked(run, steps, i);
    UnbackedCounted(run, steps, i);
    RunInv(run, steps, i);
    NeverShort(run[i]);
  }

  lemma NeverShort(s: State)
    requires Conserved(s) && s.tally.unbacked == 0
    ensures s.kernel >= Claims(s) && s.tally.refused == 0 && (s.promised > 0 ==> s.kernel > 0)
  {}

  /** The condition matters: a binder that was never used, passed in a parcel to a service of
      the same process and closed, makes the tracker release a reference nobody holds. */
  lemma UnbackedReleaseRefused() returns (run: seq<State>, steps: seq<Step>)
    ensures IsRun(run, steps) && steps == [RetainBinder, Remark, ReleaseBinder, KernelRelease(true)]
    ensures Unbacked(run[1], steps[1]) && run[3].promised == 1 && run[3].kernel == 0 && run[4].tally.refused == 1
  {
    hide Apply, Enabled, Init, Unbacked, Shorting;
    var s0 := Init();
    var s1 := ShortRetain(s0);
    var s2 := ShortMark(s1);
    var s3 := ShortRelease(s2);
    var s4 := ShortRefused(s3);
    run, steps := [s0, s1, s2, s3, s4], [RetainBinder, Remark, ReleaseBinder, KernelRelease(true)];
    assert forall i :: 0 <= i < 4 ==> Enabled(run[i], steps[i]) && run[i + 1] == Apply(run[i], steps[i]);
  }

  /** One handle, nothing acquired in the kernel. */
  predicate Shorting(s: State, entry: Option<HandleRef>, promised: nat) {
    s.entry == entry && s.kernel == 0 && s.promised == promised && s.tally.refused == 0
  }

  lemma ShortRetain(s: State) returns (t: State)
    requires s == Init()
    ensures Enabled(s, RetainBinder) && t == Apply(s, RetainBinder)
    ensures Shorting(t, Some(HandleRef(1, 0, false, false, false, None)), 0)
  {
    t := Apply(s, RetainBinder);
  }

  lemma ShortMark(s: State) returns (t: State)
    requires Shorting(s, Some(HandleRef(1, 0, false, false, false, None)), 0)
    ensures Enabled(s, Remark) && t == Apply(s, Remark) && Unbacked(s, Remark)
    ensures Shorting(t, Some(HandleRef(1, 0, true, false, false, None)), 0)
  {
    t := Apply(s, Remark);
  }

  lemma ShortRelease(s: State) returns (t: State)
    requires Shorting(s, Some(HandleRef(1, 0, true, false, false, None)), 0)
    ensures Enabled(s, ReleaseBinder) && t == Apply(s, ReleaseBinder)
    ensures Shorting(t, None, 1) && t.kernel == 0 && t.promised == 1
  {
    hide Take, BeginOf, FinishOf, FinishLoss, MarkOf, ReleaseOf;
    LastRelease(s.entry.value);
    t := Apply(s, ReleaseBinder);
  }

  lemma LastRelease(r: HandleRef)
    requires r.binderRefs == 1 && r.watchRefs == 0 && r.acquired && !r.acquiring
    ensures ReleaseOf(Some(r), true) == Released(None, true)
  {}

  lemma ShortRefused(s: State) returns (t: State)
    requires Shorting(s, None, 1)
    ensures Enabled(s, KernelRelease(true)) && t == Apply(s, KernelRelease(true)) && t.tally.refused == 1
  {
    t := Apply(s, KernelRelease(true));
  }

  /** Without marks the ledger is exact: the kernel's surplus is precisely the orphaned
      acquires and failed releases, and at most one acquirer is in flight. */
  lemma ExactWithoutMarks(run: seq<State>, steps: seq<Step>, i: nat)
    requires IsRun(run, steps) && i < |run| && run[i].tally.marks == 0
    ensures var s := run[i];
            s.kernel == Claims(s) + s.tally.orphans + s.tally.lostReleases && InFlight(s) == Acquiring(s) <= 1
  {
    hide Apply, ChannelsOk, EntryOk, IsRun;
    RunInv(run, steps, i);
  }

  /** No waiter is left behind: every channel is closed at most once, it is in the entry
      until somebody takes it out to close it, and when no acquire is in flight and no
      close is outstanding every channel ever made has been closed exactly once. */
  lemma EveryWaiterWoken(run: seq<State>, steps: seq<Step>, i: nat, c: nat)
    requires IsRun(run, steps) && i < |run| && c < |run[i].chans|
    ensures var s := run[i];
            s.chans[c].closes <= 1
            && (s.chans[c].closes == 0 ==>
                  s.chans[c].takers == 1 || (s.entry.Some? && s.entry.value.wait == Some(c) && s.entry.value.acquiring))
            && (InFlight(s) == 0 && s.chans[c].takers == 0 ==> s.chans[c].closes == 1)
  {
    hide Enabled, Apply, Conserved, IsRun;
    RunInv(run, steps, i);
    var s := run[i];
    assert Live(s, c) + s.chans[c].takers + s.chans[c].closes == 1;
  }

  // ----- clean shutdown -----

  /** Nothing is held, and no acquire or release is under way. References that came with a
      parcel may be left unread. */
  predicate Quiet(s: State) {
    s.binderHeld == 0 && s.watchHeld == 0 && InFlight(s) == 0 && s.promised == 0
  }

  /** Clients release what they retained. */
  predicate Paired(s: State, a: Step) {
    match a
    case ReleaseBinder => s.binderHeld > 0
    case ReleaseWatch => s.watchHeld > 0
    case _ => true
  }

  predicate Unheld(r: HandleRef) { r.binderRefs == 0 && r.watchRefs == 0 }

  /** References match what clients hold; an entry without any is being acquired, or it is
      acquired and left behind. */
  predicate Balanced(s: State) {
    match s.entry
    case None => s.binderHeld == 0 && s.watchHeld == 0
    case Some(r) =>
      r.binderRefs == s.binderHeld && r.watchRefs == s.watchHeld
      && (r.releaseAfterAcquire ==> Unheld(r))
      && (Unheld(r) ==> r.acquiring || r.acquired)
  }

  predicate Left(s: State) { s.entry.Some? && Unheld(s.entry.value) && !s.entry.value.acquiring }

  predicate Deferred(s: State) { s.entry.Some? && s.entry.value.releaseAfterAcquire }

  /** While nothing is held: a mark, or an acquire that succeeds and to which no release was
      deferred. */
  predicate Leaves(s: State, a: Step) {
    s.binderHeld + s.watchHeld == 0
    && (a.Mark? || a.Remark? || (a == Finish(true) && s.entry.Some? && !Deferred(s)))
  }

  predicate Retains(a: Step) { a.RetainBinder? || a.RetainWatch? }

  /** A retain takes the entry up again, and a deferred release removes it. */
  predicate Clears(s: State, a: Step) { Retains(a) || (a.Finish? && Deferred(s)) }

  lemma BalancedFinish(s: State, ok: bool, t: State)
    requires Balanced(s) && EntryOk(s) && Follows(s, Finish(ok), t)
    ensures Balanced(t) && (Left(t) <==> Leaves(s, Finish(ok)) || (Left(s) && !Clears(s, Finish(ok))))
  {
    hide FinishOf, ReleaseOf, BeginOf, MarkOf, RetainBinderOf, RetainWatchOf;
    FinishCases(s.entry, ok);
  }

  lemma FinishCases(e: Option<HandleRef>, ok: bool)
    ensures var f := FinishOf(e, ok).entry;
            if e.None? then f.None?
            else
              var r := e.value;
              f == if Unheld(r) && (r.releaseAfterAcquire || !(r.acquired || ok)) then None
                   else Some(r.(wait := None, acquiring := false, acquired := r.acquired || ok))
  {}

  /** What is left of an entry when one of its references is released. */
  lemma ReleaseCases(r: HandleRef, binder: bool)
    requires if binder then r.binderRefs > 0 else r.watchRefs > 0
    ensures var left := if binder then r.(binderRefs := r.binderRefs - 1) else r.(watchRefs := r.watchRefs - 1);
            ReleaseOf(Some(r), binder).entry
            == if r.Refs() > 1 then Some(left)
               else if r.acquiring then Some(left.(releaseAfterAcquire := true)) else None
  {}

  lemma BalancedRelease(s: State, binder: bool, t: State)
    requires var a := if binder then ReleaseBinder else ReleaseWatch;
             Paired(s, a) && Balanced(s) && EntryOk(s) && Follows(s, a, t)
    ensures Balanced(t) && !Left(t)
  {
    hide FinishOf, ReleaseOf, BeginOf, MarkOf, RetainBinderOf, RetainWatchOf;
    ReleaseCases(s.entry.value, binder);
  }

  lemma BalancedOther(s: State, a: Step, t: State)
    requires Balanced(s) && EntryOk(s) && !a.Finish? && !a.ReleaseBinder? && !a.ReleaseWatch? && Follows(s, a, t)
    ensures Balanced(t) && (Left(t) <==> Leaves(s, a) || (Left(s) && !Clears(s, a)))
  {
    hide ReleaseOf, FinishOf;
  }

  lemma HeldNotLeft(s: State, a: Step)
    requires Paired(s, a) && Balanced(s) && (a.ReleaseBinder? || a.ReleaseWatch?)
    ensures !Left(s) && !Leaves(s, a)
  {}

  lemma BalancedStep(s: State, a: Step)
    requires Enabled(s, a) && Paired(s, a) && Balanced(s) && EntryOk(s)
    ensures Balanced(Apply(s, a))
    ensures Left(Apply(s, a)) <==> Leaves(s, a) || (Left(s) && !Clears(s, a))
  {
    hide Apply, EntryOk, Paired, Follows, Balanced, Left, Leaves, Clears;
    var t := Apply(s, a);
    EntryStep(s, a);
    if a.Finish? {
      BalancedFinish(s, a.ok, t);
    } else if a.ReleaseBinder? || a.ReleaseWatch? {
      BalancedRelease(s, a.ReleaseBinder?, t);
      HeldNotLeft(s, a);
    } else {
      BalancedOther(s, a, t);
    }
  }

  /** Some step left the entry behind, and nothing has cleared it since. */
  ghost predicate LeftBehind(run: seq<State>, steps: seq<Step>, i: nat)
    requires i < |run| == |steps| + 1
  {
    exists k :: 0 <= k < i && LeftSince(run, steps, k, i)
  }

  ghost predicate LeftSince(run: seq<State>, steps: seq<Step>, k: nat, i: nat)
    requires k < i < |run| == |steps| + 1
  {
    Leaves(run[k], steps[k]) && forall m :: k < m < i ==> !Clears(run[m], steps[m])
  }

  lemma {:induction false} RunBalanced(run: seq<State>, steps: seq<Step>, i: nat)
    requires IsRun(run, steps) && i < |run|
    requires forall k :: 0 <= k < i ==> Paired(run[k], steps[k])
    ensures Balanced(run[i]) && (Left(run[i]) <==> LeftBehind(run, steps, i))
    decreases i
  {
    hide Enabled, Paired, Apply, Balanced, Leaves, Clears, Left, EntryOk, ChannelsOk, Conserved, LossBounded;
    if i == 0 {
      assert Balanced(Init()) && !Left(Init()) by { BalancedInit(); }
    } else {
      RunBalanced(run, steps, i - 1);
      RunInv(run, steps, i - 1);
      BalancedStep(run[i - 1], steps[i - 1]);
      if Left(run[i]) {
        if Leaves(run[i - 1], steps[i - 1]) {
          assert LeftSince(run, steps, i - 1, i);
        } else {
          var k :| 0 <= k < i - 1 && LeftSince(run, steps, k, i - 1);
          assert LeftSince(run, steps, k, i);
        }
      }
      if LeftBehind(run, steps, i) {
        var k :| 0 <= k < i && LeftSince(run, steps, k, i);
        if k < i - 1 {
          assert LeftSince(run, steps, k, i - 1);
        }
      }
    }
  }

  lemma BalancedInit()
    ensures Balanced(Init()) && !Left(Init())
  {}

  /** Exactly when the tracker forgets: in a quiet state, with releases that match retains
      and acquires, deliveries and marks at any time, an entry remains if and only if some
      step left it behind and nothing cleared it since. The kernel then holds the reference
      of that entry, those received and never read and those nobody will release, less the
      claims without a reference. */
  lemma LeftBehindIff(run: seq<State>, steps: seq<Step>, i: nat)
    requires IsRun(run, steps) && i < |run|
    requires forall k :: 0 <= k < i ==> Paired(run[k], steps[k])
    requires Quiet(run[i])
    ensures run[i].entry.Some? <==> LeftBehind(run, steps, i)
    ensures run[i].kernel + run[i].tally.unbacked
         == Flag(LeftBehind(run, steps, i)) + run[i].delivered + run[i].lost + run[i].tally.refused
  {
    hide Enabled, Paired, Apply, ChannelsOk, IsRun, LeftBehind;
    RunInv(run, steps, i);
    RunBalanced(run, steps, i);
  }

  /** Clients also acquire only while they hold a reference. */
  predicate Disciplined(s: State, a: Step) {
    Paired(s, a) && (a.Begin? ==> s.binderHeld + s.watchHeld > 0)
  }

  /** Then an acquire that outlives every reference has a release deferred to it. */
  predicate Deferring(s: State) {
    s.entry.Some? && s.entry.value.acquiring && Unheld(s.entry.value) ==> Deferred(s)
  }

  lemma DeferringStep(s: State, a: Step)
    requires Enabled(s, a) && Disciplined(s, a) && Balanced(s) && Deferring(s)
    ensures Deferring(Apply(s, a))
  {
    hide Take, FinishLoss;
  }

  lemma {:induction false} RunDeferring(run: seq<State>, steps: seq<Step>, i: nat)
    requires IsRun(run, steps) && i < |run|
    requires forall k :: 0 <= k < i ==> Disciplined(run[k], steps[k])
    ensures Deferring(run[i])
    decreases i
  {
    if i > 0 {
      hide Enabled, Paired, Apply, Balanced, Deferring, LeftBehind;
      RunDeferring(run, steps, i - 1);
      RunBalanced(run, steps, i - 1);
      DeferringStep(run[i - 1], steps[i - 1]);
    }
  }

  /** A mark while nothing is held is followed by a retain, as when a received handle becomes
      a binder. */
  ghost predicate Adopted(run: seq<State>, steps: seq<Step>, i: nat)
    requires i < |run| == |steps| + 1
  {
    forall k :: 0 <= k < i && Leaves(run[k], steps[k]) && !steps[k].Finish? ==>
      exists m :: k < m < i && Retains(steps[m])
  }

  lemma {:induction false} NotLeft(run: seq<State>, steps: seq<Step>, i: nat, k: nat)
    requires IsRun(run, steps) && k < i < |run|
    requires forall k :: 0 <= k < i ==> Disciplined(run[k], steps[k])
    requires Adopted(run, steps, i)
    ensures !LeftSince(run, steps, k, i)
    decreases k
  {
    hide Enabled, Paired, Apply, Balanced;
    if LeftSince(run, steps, k, i) {
      if steps[k].Finish? {
        RunBalanced(run, steps, k);
        RunDeferring(run, steps, k);
        LeftEarlier(run[k], steps[k]);
        var j :| 0 <= j < k && LeftSince(run, steps, j, k);
        assert LeftSince(run, steps, j, i);
        NotLeft(run, steps, i, j);
      }
    }
  }

  lemma LeftEarlier(s: State, a: Step)
    requires Leaves(s, a) && a.Finish? && Balanced(s) && Deferring(s)
    ensures Left(s) && !Clears(s, a)
  {}

  lemma Lengths(run: seq<State>, steps: seq<Step>)
    requires IsRun(run, steps)
    ensures |run| == |steps| + 1
  {}

  /** Once clients that acquire only while they hold a reference, and that take up what they
      mark, hold nothing and nothing is under way, the tracker has forgotten the handle;
      and without marks the kernel holds nothing but what was never read and what the driver
      failed to take back. */
  lemma CleanWhenQuiet(run: seq<State>, steps: seq<Step>, i: nat)
    requires IsRun(run, steps) && i < |run|
    requires forall k :: 0 <= k < i ==> Disciplined(run[k], steps[k])
    requires Adopted(run, steps, i) && Quiet(run[i])
    ensures run[i].entry.None?
    ensures run[i].kernel + run[i].tally.unbacked == run[i].delivered + run[i].lost + run[i].tally.refused
    ensures run[i].tally.marks == 0 ==>
      run[i].kernel == run[i].delivered + run[i].tally.orphans + run[i].tally.lostReleases
  {
    hide Enabled, Paired, Apply, ChannelsOk, EntryOk, IsRun, Adopted, Leaves, Clears, LeftSince;
    LeftBehindIff(run, steps, i);
    assert |run| == |steps| + 1 by { Lengths(run, steps); }
    forall k | 0 <= k < i ensures !LeftSince(run, steps, k, i) {
      NotLeft(run, steps, i, k);
    }
    RunInv(run, steps, i);
  }

  /** The discipline matters: a transaction on a binder that is already closed leaves an
      acquired entry that no later release removes. */
  lemma UnheldAcquireLeaks() returns (run: seq<State>, steps: seq<Step>)
    ensures IsRun(run, steps) && |steps| == 3
    ensures Quiet(run[3]) && run[3].tally.marks == 0 && run[3].entry.Some? && run[3].kernel == 1
  {
    hide Apply, Enabled, Init, Quiet, Leaking;
    var s0 := Init();
    var s1 := LeakBegin(s0);
    var s2 := LeakAcquire(s1);
    var s3 := LeakFinish(s2);
    run, steps := [s0, s1, s2, s3], [Begin, AcquireOk, Finish(true)];
    assert forall i :: 0 <= i < 3 ==> Enabled(run[i], steps[i]) && run[i + 1] == Apply(run[i], steps[i]);
  }

  /** No reference is held and one acquire is under way. */
  predicate Leaking(s: State, kernel: nat, begun: nat, okDone: nat) {
    s.entry == Some(HandleRef(0, 0, false, true, false, Some(0))) && s.kernel == kernel
    && s.begun == begun && s.okDone == okDone && s.failDone == 0 && s.promised == 0 && s.delivered == 0
    && s.tally.marks == 0
    && s.binderHeld == 0 && s.watchHeld == 0
  }

  lemma LeakBegin(s: State) returns (t: State)
    requires s == Init()
    ensures Enabled(s, Begin) && t == Apply(s, Begin) && Leaking(t, 0, 1, 0)
  {
    t := Apply(s, Begin);
  }

  lemma LeakAcquire(s: State) returns (t: State)
    requires Leaking(s, 0, 1, 0)
    ensures Enabled(s, AcquireOk) && t == Apply(s, AcquireOk) && Leaking(t, 1, 0, 1)
  {
    t := Apply(s, AcquireOk);
  }

  lemma LeakFinish(s: State) returns (t: State)
    requires Leaking(s, 1, 0, 1)
    ensures Enabled(s, Finish(true)) && t == Apply(s, Finish(true))
    ensures Quiet(t) && t.tally.marks == 0 && t.entry.Some? && t.kernel == 1
  {
    t := Apply(s, Finish(true));
  }

  // ----- many handles -----

  /** A step of the whole tracker names the handle it is about; handles do not
      interfere, so each of them follows a run of its own. */
  function ApplyAt(g: map<uint32, State>, h: uint32, a: Step): map<uint32, State>
    requires Enabled(StateAt(g, h), a)
  {
    g[h := Apply(StateAt(g, h), a)]
  }

  function StateAt(g: map<uint32, State>, h: uint32): State { if h in g then g[h] else Init() }

  ghost predicate IsGlobalRun(run: seq<map<uint32, State>>, steps: seq<(uint32, Step)>) {
    |run| == |steps| + 1 && run[0] == map[]
    && forall i :: 0 <= i < |steps| ==>
         Enabled(StateAt(run[i], steps[i].0), steps[i].1) && run[i + 1] == ApplyAt(run[i], steps[i].0, steps[i].1)
  }

  lemma {:induction false} GlobalInv(run: seq<map<uint32, State>>, steps: seq<(uint32, Step)>, i: nat, h: uint32)
    requires IsGlobalRun(run, steps) && i < |run|
    ensures Inv(StateAt(run[i], h))
    decreases i
  {
    hide Enabled, Apply, Inv;
    if i == 0 {
      InvInit();
    } else {
      GlobalInv(run, steps, i - 1, h);
      if steps[i - 1].0 == h {
        InvStep(StateAt(run[i - 1], h), steps[i - 1].1);
      }
    }
  }
}
