/** Every interleaving of the threads that use a death registry: attaching, failed
    requests, closing subscriptions, reports and acknowledgements of the kernel, closing
    the registry. A locked section is one step; each subscription it took out is finished
    by a step of its own, which other threads may overtake. */
module DeathProtocol {
  import opened Bytes
  import opened Common
  import opened Wire
  import opened DeathRegistry

  datatype State = State(
    reg: Reg,
    toClose: set<nat>,      // subscriptions some thread was told to finish without an error
    toKill: set<nat>,       // subscriptions some thread was told to finish as dead
    reported: set<nat>,     // cookies the kernel reported dead
    asked: set<nat>,        // cookies the kernel was asked to clear
    torn: set<nat>)         // watches whose request failed, or acknowledged without being asked

  function Init(canClear: bool): State {
    State(Reg(canClear, 0, false, map[], map[], [], []), {}, {}, {}, {}, {})
  }

  /** `Acked` is the kernel's acknowledgement, and the same clean-up after a clear request
      that failed. Requests may fail at any time. */
  datatype Step =
    | Attach(handle: uint32)
    | RequestFailed(watch: nat)
    | Remove(sub: nat)
    | Acked(cookie: nat)
    | Died(cookie: nat)
    | Close
    | Finished(sub: nat, err: Err)

  predicate Enabled(s: State, a: Step) {
    match a
    case RequestFailed(w) => w < |s.reg.watches|
    case Remove(k) => k < |s.reg.subs|
    case Finished(k, e) => k < |s.reg.subs| && k in (if e == Dead then s.toKill else s.toClose)
    case _ => true
  }

  function Apply(s: State, a: Step): State
    requires WellFormed(s.reg) && Enabled(s, a)
  {
    match a
    case Attach(h) => if s.reg.closed then s else s.(reg := AttachOf(s.reg, h))
    case RequestFailed(w) => s.(reg := RollbackOf(s.reg, w), torn := s.torn + {w})
    case Remove(k) =>
      var d := RemoveOf(s.reg, k);
      s.(reg := d.reg, toClose := s.toClose + (if d.finish then {k} else {}),
         asked := s.asked + (if d.clear.Some? then {d.clear.value} else {}))
    case Acked(c) =>
      var t := ClearedOf(s.reg, c);
      s.(reg := t.reg, toClose := s.toClose + t.subs,
         torn := s.torn + (if c in s.reg.byCookie && c !in s.asked then {s.reg.byCookie[c]} else {}))
    case Died(c) =>
      var t := DeadOf(s.reg, c);
      s.(reg := t.reg, toKill := s.toKill + t.subs, reported := s.reported + {c})
    case Close =>
      var t := CloseOf(s.reg);
      s.(reg := t.reg, toClose := s.toClose + t.subs)
    case Finished(k, e) => s.(reg := s.reg.(subs := s.reg.subs[k := Finish(s.reg.subs[k], e)]))
  }

  // ----- the shape of the registry -----

  /** Cookies count the watches, so no two watches share one. */
  ghost predicate WatchOk(r: Reg, w: nat)
    requires w < |r.watches|
  {
    r.watches[w].cookie == w + 1
    && (forall k :: k in r.watches[w].subs ==> k < |r.subs| && r.subs[k].watch == w)
    && (forall k :: k in r.watches[w].closing ==> k < |r.subs| && r.subs[k].watch == w)
  }

  /** A handle leads to a watch of its own that somebody subscribes to, and that is also
      found by its cookie. */
  predicate HandleOk(r: Reg, h: uint32)
    requires h in r.byHandle && r.byHandle[h] < |r.watches|
  {
    var watch := r.watches[r.byHandle[h]];
    watch.handle == h && Known(r, r.byHandle[h]) && watch.subs != {} && watch.closing == {}
  }

  ghost predicate Shape(r: Reg) {
    WellFormed(r) && |r.watches| == r.nextCookie
    && (forall w :: 0 <= w < |r.watches| ==> WatchOk(r, w))
    && (forall h :: h in r.byHandle ==> HandleOk(r, h))
    && (forall c :: c in r.byCookie ==> c == r.byCookie[c] + 1)
    && (r.closed ==> r.byHandle == map[] && r.byCookie == map[])
  }

  lemma AttachShape(r: Reg, h: uint32)
    requires Shape(r) && !r.closed
    ensures Shape(AttachOf(r, h))
  {
    if h in r.byHandle {
      JoinShape(r, h);
    } else {
      StartShape(r, h);
    }
  }

  lemma JoinShape(r: Reg, h: uint32)
    requires Shape(r) && !r.closed && h in r.byHandle
    ensures Shape(AttachOf(r, h))
  {
    var t := AttachOf(r, h);
    forall w | 0 <= w < |t.watches| ensures WatchOk(t, w) {
      assert WatchOk(r, w);
    }
    forall g | g in t.byHandle ensures HandleOk(t, g) {
      assert HandleOk(r, g);
    }
  }

  lemma StartShape(r: Reg, h: uint32)
    requires Shape(r) && !r.closed && h !in r.byHandle
    ensures Shape(AttachOf(r, h))
  {
    var t := AttachOf(r, h);
    forall w | 0 <= w < |t.watches| ensures WatchOk(t, w) {
      if w < |r.watches| { assert WatchOk(r, w); }
    }
    forall g | g in t.byHandle ensures HandleOk(t, g) {
      if g != h { assert HandleOk(r, g); }
    }
  }

  lemma RollbackShape(r: Reg, w: nat)
    requires Shape(r) && w < |r.watches|
    ensures Shape(RollbackOf(r, w))
  {
    var t := RollbackOf(r, w);
    assert WatchOk(r, w);
    forall v | 0 <= v < |t.watches| ensures WatchOk(t, v) {
      assert WatchOk(r, v);
    }
    forall g | g in t.byHandle ensures HandleOk(t, g) {
      assert HandleOk(r, g);
    }
  }

  lemma RemoveShape(r: Reg, k: nat)
    requires Shape(r) && k < |r.subs|
    ensures Shape(RemoveOf(r, k).reg)
  {
    var t := RemoveOf(r, k).reg;
    forall v | 0 <= v < |t.watches| ensures WatchOk(t, v) {
      assert WatchOk(r, v);
    }
    forall g | g in t.byHandle ensures HandleOk(t, g) {
      assert HandleOk(r, g);
    }
  }

  lemma ClearedShape(r: Reg, c: nat)
    requires Shape(r)
    ensures Shape(ClearedOf(r, c).reg)
  {
    var t := ClearedOf(r, c).reg;
    forall v | 0 <= v < |t.watches| ensures WatchOk(t, v) {
      assert WatchOk(r, v);
    }
    forall g | g in t.byHandle ensures HandleOk(t, g) {
      assert HandleOk(r, g);
    }
  }

  lemma DeadShape(r: Reg, c: nat)
    requires Shape(r)
    ensures Shape(DeadOf(r, c).reg)
  {
    var t := DeadOf(r, c).reg;
    forall v | 0 <= v < |t.watches| ensures WatchOk(t, v) {
      assert WatchOk(r, v);
    }
    forall g | g in t.byHandle ensures HandleOk(t, g) {
      assert HandleOk(r, g);
    }
  }

  lemma FinishedShape(r: Reg, k: nat, e: Err)
    requires Shape(r) && k < |r.subs|
    ensures Shape(r.(subs := r.subs[k := Finish(r.subs[k], e)]))
  {
    var t := r.(subs := r.subs[k := Finish(r.subs[k], e)]);
    forall v | 0 <= v < |t.watches| ensures WatchOk(t, v) {
      assert WatchOk(r, v);
    }
    forall g | g in t.byHandle ensures HandleOk(t, g) {
      assert HandleOk(r, g);
    }
  }

  lemma CloseShape(r: Reg)
    requires Shape(r)
    ensures Shape(CloseOf(r).reg)
  {
    var t := CloseOf(r).reg;
    forall v | 0 <= v < |t.watches| ensures WatchOk(t, v) {
      assert WatchOk(r, v);
    }
  }

  lemma ShapeStep(s: State, a: Step)
    requires Shape(s.reg) && Enabled(s, a)
    ensures Shape(Apply(s, a).reg)
  {
    hide Shape, AttachOf, RollbackOf, RemoveOf, ClearedOf, DeadOf, CloseOf;
    match a
    case Attach(h) => if !s.reg.closed { AttachShape(s.reg, h); }
    case RequestFailed(w) => RollbackShape(s.reg, w);
    case Remove(k) => RemoveShape(s.reg, k);
    case Acked(c) => ClearedShape(s.reg, c);
    case Died(c) => DeadShape(s.reg, c);
    case Close => CloseShape(s.reg);
    case Finished(k, e) => FinishedShape(s.reg, k, e);
  }

  // ----- where a subscription can be -----

  /** Subscribed through a watch that its handle leads to. */
  predicate Active(s: State, k: nat)
    requires WellFormed(s.reg) && k < |s.reg.subs|
  {
    var w := s.reg.subs[k].watch;
    Listed(s.reg, w) && k in s.reg.watches[w].subs
  }

  /** The last subscription of a watch, waiting for the kernel to clear it. */
  predicate Closing(s: State, k: nat)
    requires WellFormed(s.reg) && k < |s.reg.subs|
  {
    var w := s.reg.subs[k].watch;
    !Listed(s.reg, w) && Known(s.reg, w) && k in s.reg.watches[w].closing
  }

  /** Some thread is about to finish it, or has. */
  predicate Issued(s: State, k: nat) { k in s.toClose || k in s.toKill }

  /** Nobody will finish it: its request failed or its watch was acknowledged without
      being asked for, or the registry was closed while it waited. */
  predicate Stranded(s: State, k: nat)
    requires WellFormed(s.reg) && k < |s.reg.subs|
  {
    s.reg.subs[k].watch in s.torn || (s.reg.closed && k in s.reg.watches[s.reg.subs[k].watch].closing)
  }

  predicate Placed(s: State, k: nat)
    requires WellFormed(s.reg) && k < |s.reg.subs|
  {
    (Active(s, k) ==> !Issued(s, k)) && (Active(s, k) || Closing(s, k) || Issued(s, k) || Stranded(s, k))
  }

  /** How a subscription ended is how some thread was told to end it; those told to end as
      dead belong to a watch that was reported and is no longer known. */
  predicate EndOk(s: State, k: nat)
    requires WellFormed(s.reg) && k < |s.reg.subs|
  {
    var sub := s.reg.subs[k];
    (sub.err == Some(Closed) ==> k in s.toClose)
    && (sub.err == Some(Dead) ==> k in s.toKill)
    && (k in s.toKill ==> s.reg.watches[sub.watch].cookie in s.reported && !Known(s.reg, sub.watch))
  }

  ghost predicate Books(s: State)
    requires WellFormed(s.reg)
  {
    (forall k :: k in s.toClose ==> k < |s.reg.subs|)
    && (forall k :: k in s.toKill ==> k < |s.reg.subs|)
    && (forall c :: c in s.asked ==> 1 <= c <= |s.reg.watches| && !Listed(s.reg, c - 1))
    && (forall w :: w in s.torn ==> w < |s.reg.watches| && !Listed(s.reg, w) && !Known(s.reg, w))
  }

  ghost predicate Inv(s: State) {
    Shape(s.reg) && Books(s)
    && (forall k :: 0 <= k < |s.reg.subs| ==> Placed(s, k))
    && (forall k :: 0 <= k < |s.reg.subs| ==> EndOk(s, k))
  }

  // -- preservation, one kind of step at a time --

  lemma WatchFacts(s: State, w: nat)
    requires Shape(s.reg) && Books(s) && w < |s.reg.watches|
    ensures WatchOk(s.reg, w) && |s.reg.watches| == s.reg.nextCookie
    ensures Listed(s.reg, w) ==> HandleOk(s.reg, s.reg.watches[w].handle)
    ensures Listed(s.reg, w) ==> s.reg.watches[w].cookie !in s.asked
  {
  }

  lemma CookieFacts(s: State, c: nat)
    requires Shape(s.reg) && Books(s) && c in s.reg.byCookie
    ensures c == s.reg.byCookie[c] + 1
  {
  }

  lemma AttachKeeps(s: State, h: uint32, k: nat)
    requires WellFormed(s.reg) && Shape(s.reg) && Books(s) && !s.reg.closed
    requires k < |s.reg.subs| && Placed(s, k) && EndOk(s, k)
    requires WellFormed(Apply(s, Attach(h)).reg)
    ensures k < |Apply(s, Attach(h)).reg.subs| && Placed(Apply(s, Attach(h)), k) && EndOk(Apply(s, Attach(h)), k)
  {
    hide Shape, Books;
    WatchFacts(s, s.reg.subs[k].watch);
    if h in s.reg.byHandle { WatchFacts(s, s.reg.byHandle[h]); }
  }

  lemma AttachBooks(s: State, h: uint32)
    requires Shape(s.reg) && Books(s) && !s.reg.closed
    requires WellFormed(Apply(s, Attach(h)).reg)
    ensures Books(Apply(s, Attach(h)))
  {
  }

  lemma RollbackKeeps(s: State, w: nat, k: nat)
    requires WellFormed(s.reg) && Shape(s.reg) && Books(s) && w < |s.reg.watches|
    requires k < |s.reg.subs| && Placed(s, k) && EndOk(s, k)
    requires WellFormed(Apply(s, RequestFailed(w)).reg)
    ensures k < |Apply(s, RequestFailed(w)).reg.subs| && Placed(Apply(s, RequestFailed(w)), k)
      && EndOk(Apply(s, RequestFailed(w)), k)
  {
    hide Shape, Books;
    WatchFacts(s, s.reg.subs[k].watch);
    WatchFacts(s, w);
  }

  lemma RollbackBooks(s: State, w: nat)
    requires Shape(s.reg) && Books(s) && w < |s.reg.watches|
    requires WellFormed(Apply(s, RequestFailed(w)).reg)
    ensures Books(Apply(s, RequestFailed(w)))
  {
  }

  lemma RemovePlaced(s: State, j: nat, k: nat)
    requires WellFormed(s.reg) && Shape(s.reg) && Books(s) && j < |s.reg.subs|
    requires k < |s.reg.subs| && Placed(s, k)
    requires WellFormed(Apply(s, Remove(j)).reg)
    ensures k < |Apply(s, Remove(j)).reg.subs| && Placed(Apply(s, Remove(j)), k)
  {
    hide Shape, Books;
    WatchFacts(s, s.reg.subs[k].watch);
    WatchFacts(s, s.reg.subs[j].watch);
  }

  lemma RemoveEnd(s: State, j: nat, k: nat)
    requires WellFormed(s.reg) && Shape(s.reg) && Books(s) && j < |s.reg.subs|
    requires k < |s.reg.subs| && EndOk(s, k)
    requires WellFormed(Apply(s, Remove(j)).reg)
    ensures k < |Apply(s, Remove(j)).reg.subs| && EndOk(Apply(s, Remove(j)), k)
  {
    hide Shape, Books;
    WatchFacts(s, s.reg.subs[k].watch);
    WatchFacts(s, s.reg.subs[j].watch);
  }

  lemma RemoveBooks(s: State, j: nat)
    requires Shape(s.reg) && Books(s) && j < |s.reg.subs|
    requires WellFormed(Apply(s, Remove(j)).reg)
    ensures Books(Apply(s, Remove(j)))
  {
  }

  lemma AckedPlaced(s: State, c: nat, k: nat)
    requires WellFormed(s.reg) && Shape(s.reg) && Books(s)
    requires k < |s.reg.subs| && Placed(s, k)
    requires WellFormed(Apply(s, Acked(c)).reg)
    ensures k < |Apply(s, Acked(c)).reg.subs| && Placed(Apply(s, Acked(c)), k)
  {
    hide Shape, Books;
    WatchFacts(s, s.reg.subs[k].watch);
    if c in s.reg.byCookie {
      CookieFacts(s, c);
      WatchFacts(s, s.reg.byCookie[c]);
    }
  }

  lemma AckedEnd(s: State, c: nat, k: nat)
    requires WellFormed(s.reg) && Shape(s.reg) && Books(s)
    requires k < |s.reg.subs| && EndOk(s, k)
    requires WellFormed(Apply(s, Acked(c)).reg)
    ensures k < |Apply(s, Acked(c)).reg.subs| && EndOk(Apply(s, Acked(c)), k)
  {
    hide Shape, Books;
    WatchFacts(s, s.reg.subs[k].watch);
    if c in s.reg.byCookie {
      CookieFacts(s, c);
      WatchFacts(s, s.reg.byCookie[c]);
    }
  }

  lemma AckedBooks(s: State, c: nat)
    requires Shape(s.reg) && Books(s)
    requires WellFormed(Apply(s, Acked(c)).reg)
    ensures Books(Apply(s, Acked(c)))
  {
    if c in s.reg.byCookie {
      CookieFacts(s, c);
      WatchFacts(s, s.reg.byCookie[c]);
    }
  }

  lemma DiedPlaced(s: State, c: nat, k: nat)
    requires WellFormed(s.reg) && Shape(s.reg) && Books(s)
    requires k < |s.reg.subs| && Placed(s, k)
    requires WellFormed(Apply(s, Died(c)).reg)
    ensures k < |Apply(s, Died(c)).reg.subs| && Placed(Apply(s, Died(c)), k)
  {
    hide Shape, Books;
    WatchFacts(s, s.reg.subs[k].watch);
    if c in s.reg.byCookie {
      CookieFacts(s, c);
      WatchFacts(s, s.reg.byCookie[c]);
    }
  }

  lemma DiedEnd(s: State, c: nat, k: nat)
    requires WellFormed(s.reg) && Shape(s.reg) && Books(s)
    requires k < |s.reg.subs| && EndOk(s, k)
    requires WellFormed(Apply(s, Died(c)).reg)
    ensures k < |Apply(s, Died(c)).reg.subs| && EndOk(Apply(s, Died(c)), k)
  {
    hide Shape, Books;
    WatchFacts(s, s.reg.subs[k].watch);
    if c in s.reg.byCookie {
      CookieFacts(s, c);
      WatchFacts(s, s.reg.byCookie[c]);
    }
  }

  lemma DiedBooks(s: State, c: nat)
    requires Shape(s.reg) && Books(s)
    requires WellFormed(Apply(s, Died(c)).reg)
    ensures Books(Apply(s, Died(c)))
  {
    if c in s.reg.byCookie {
      CookieFacts(s, c);
      WatchFacts(s, s.reg.byCookie[c]);
    }
  }

  lemma CloseKeeps(s: State, k: nat)
    requires WellFormed(s.reg) && Shape(s.reg) && Books(s)
    requires k < |s.reg.subs| && Placed(s, k) && EndOk(s, k)
    requires WellFormed(Apply(s, Close).reg)
    ensures k < |Apply(s, Close).reg.subs| && Placed(Apply(s, Close), k) && EndOk(Apply(s, Close), k)
  {
    hide Shape, Books;
    WatchFacts(s, s.reg.subs[k].watch);
    var w := s.reg.subs[k].watch;
    if Listed(s.reg, w) && k in s.reg.watches[w].subs {
      assert k in s.reg.watches[s.reg.byHandle[s.reg.watches[w].handle]].subs
        + s.reg.watches[s.reg.byHandle[s.reg.watches[w].handle]].closing;
      assert k in ListedSubs(s.reg);
    }
  }

  lemma CloseBooks(s: State)
    requires Shape(s.reg) && Books(s)
    requires WellFormed(Apply(s, Close).reg)
    ensures Books(Apply(s, Close))
  {
    forall k | k in ListedSubs(s.reg) ensures k < |s.reg.subs| {
      var h :| h in s.reg.byHandle
        && k in s.reg.watches[s.reg.byHandle[h]].subs + s.reg.watches[s.reg.byHandle[h]].closing;
      assert WatchOk(s.reg, s.reg.byHandle[h]);
    }
  }

  lemma FinishedKeeps(s: State, j: nat, e: Err, k: nat)
    requires WellFormed(s.reg) && Shape(s.reg) && Books(s) && Enabled(s, Finished(j, e))
    requires k < |s.reg.subs| && Placed(s, k) && EndOk(s, k)
    requires WellFormed(Apply(s, Finished(j, e)).reg)
    ensures k < |Apply(s, Finished(j, e)).reg.subs| && Placed(Apply(s, Finished(j, e)), k)
      && EndOk(Apply(s, Finished(j, e)), k)
  {
    hide Shape, Books;
    WatchFacts(s, s.reg.subs[k].watch);
  }

  lemma FinishedBooks(s: State, j: nat, e: Err)
    requires Shape(s.reg) && Books(s) && Enabled(s, Finished(j, e))
    requires WellFormed(Apply(s, Finished(j, e)).reg)
    ensures Books(Apply(s, Finished(j, e)))
  {
  }

  // ----- runs -----

  lemma NewSub(s: State, h: uint32, k: nat)
    requires Inv(s) && !s.reg.closed && k == |s.reg.subs|
    requires WellFormed(Apply(s, Attach(h)).reg)
    ensures k < |Apply(s, Attach(h)).reg.subs| && Placed(Apply(s, Attach(h)), k) && EndOk(Apply(s, Attach(h)), k)
  {
    var t := Apply(s, Attach(h));
    assert k !in s.toClose && k !in s.toKill;
    if h in s.reg.byHandle { assert HandleOk(s.reg, h); }
    assert Active(t, k);
  }

  lemma SubStep(s: State, a: Step, k: nat)
    requires WellFormed(s.reg) && Inv(s) && Enabled(s, a)
    requires WellFormed(Apply(s, a).reg) && k < |Apply(s, a).reg.subs|
    ensures Placed(Apply(s, a), k) && EndOk(Apply(s, a), k)
  {
    hide Placed, EndOk, Books, Shape, AttachOf, RollbackOf, RemoveOf, ClearedOf, DeadOf, CloseOf;
    if k >= |s.reg.subs| {
      OnlyAttachGrows(s, a);
      NewSub(s, a.handle, k);
    } else {
      assert Placed(s, k) && EndOk(s, k);
      match a
      case Attach(h) => if !s.reg.closed { AttachKeeps(s, h, k); }
      case RequestFailed(w) => RollbackKeeps(s, w, k);
      case Remove(j) => RemovePlaced(s, j, k); RemoveEnd(s, j, k);
      case Acked(c) => AckedPlaced(s, c, k); AckedEnd(s, c, k);
      case Died(c) => DiedPlaced(s, c, k); DiedEnd(s, c, k);
      case Close => CloseKeeps(s, k);
      case Finished(j, e) => FinishedKeeps(s, j, e, k);
    }
  }

  lemma OnlyAttachGrows(s: State, a: Step)
    requires WellFormed(s.reg) && Enabled(s, a)
    ensures if a.Attach? && !s.reg.closed then |Apply(s, a).reg.subs| == |s.reg.subs| + 1
            else |Apply(s, a).reg.subs| == |s.reg.subs|
  {
  }

  lemma BooksStep(s: State, a: Step)
    requires WellFormed(s.reg) && Inv(s) && Enabled(s, a) && WellFormed(Apply(s, a).reg)
    ensures Books(Apply(s, a))
  {
    hide Placed, EndOk, Books, Shape, AttachOf, RollbackOf, RemoveOf, ClearedOf, DeadOf, CloseOf;
    match a
    case Attach(h) => if !s.reg.closed { AttachBooks(s, h); }
    case RequestFailed(w) => RollbackBooks(s, w);
    case Remove(j) => RemoveBooks(s, j);
    case Acked(c) => AckedBooks(s, c);
    case Died(c) => DiedBooks(s, c);
    case Close => CloseBooks(s);
    case Finished(j, e) => FinishedBooks(s, j, e);
  }

  lemma InvStep(s: State, a: Step)
    requires Inv(s) && Enabled(s, a)
    ensures Inv(Apply(s, a))
  {
    hide Apply, Placed, EndOk, Books;
    ShapeStep(s, a);
    BooksStep(s, a);
    forall k | 0 <= k < |Apply(s, a).reg.subs| ensures Placed(Apply(s, a), k) && EndOk(Apply(s, a), k) {
      SubStep(s, a, k);
    }
  }

  ghost predicate IsRun(run: seq<State>, steps: seq<Step>) {
    |run| == |steps| + 1 && (exists canClear :: run[0] == Init(canClear))
    && forall i :: 0 <= i < |steps| ==>
         WellFormed(run[i].reg) && Enabled(run[i], steps[i]) && run[i + 1] == Apply(run[i], steps[i])
  }

  lemma {:induction false} RunInv(run: seq<State>, steps: seq<Step>, i: nat)
    requires IsRun(run, steps) && i < |run|
    ensures Inv(run[i])
    decreases i
  {
    if i > 0 {
      hide Enabled, Apply, Inv;
      RunInv(run, steps, i - 1);
      InvStep(run[i - 1], steps[i - 1]);
    }
  }

  /** Only failed requests and unasked acknowledgements tear a watch. */
  predicate Gentle(s: State, a: Step) { !a.RequestFailed? && (a.Acked? ==> a.cookie in s.asked) }

  lemma {:induction false} NothingTorn(run: seq<State>, steps: seq<Step>, i: nat)
    requires IsRun(run, steps) && i < |run|
    requires forall j :: 0 <= j < i ==> Gentle(run[j], steps[j])
    ensures run[i].torn == {}
    decreases i
  {
    if i > 0 {
      hide AttachOf, RollbackOf, RemoveOf, ClearedOf, DeadOf, CloseOf;
      NothingTorn(run, steps, i - 1);
    }
  }

  lemma ErrCases(err: Option<Err>)
    ensures err == None || err == Some(Closed) || err == Some(Dead)
  {
    if err.Some? {
      assert err.value == Closed || err.value == Dead;
    }
  }

  /** While no request fails, the kernel acknowledges only what it was asked, and the
      registry is open, every subscription that nobody is finishing is in exactly one
      place: subscribed through the watch of its handle, or waiting in a watch that only
      its cookie leads to. */
  lemma Partition(run: seq<State>, steps: seq<Step>, i: nat, k: nat)
    requires IsRun(run, steps) && i < |run| && k < |run[i].reg.subs|
    requires forall j :: 0 <= j < i ==> Gentle(run[j], steps[j])
    requires !run[i].reg.closed && !Issued(run[i], k)
    ensures WellFormed(run[i].reg) && run[i].reg.subs[k].err.None?
    ensures Active(run[i], k) <==> !Closing(run[i], k)
  {
    hide Enabled, Apply, Gentle, IsRun;
    RunInv(run, steps, i);
    NothingTorn(run, steps, i);
    assert Placed(run[i], k) && EndOk(run[i], k);
    ErrCases(run[i].reg.subs[k].err);
  }

  // ----- stranded subscriptions -----

  /** The owner closes subscription `k` at one of the steps from `i` to `j`. */
  ghost predicate ClosedBetween(steps: seq<Step>, i: nat, j: nat, k: nat)
    requires i <= j <= |steps|
  {
    exists m :: i <= m < j && steps[m] == Remove(k)
  }

  lemma ClosedNext(steps: seq<Step>, i: nat, j: nat, k: nat)
    requires i <= j < |steps|
    ensures ClosedBetween(steps, i, j + 1, k) <==> ClosedBetween(steps, i, j, k) || steps[j] == Remove(k)
  {
    if steps[j] == Remove(k) { assert ClosedBetween(steps, i, j + 1, k); }
  }

  lemma ListedAreKnown(r: Reg, k: nat)
    requires Shape(r)
    ensures k in ListedSubs(r) ==> k < |r.subs| && Known(r, r.subs[k].watch)
  {
    if k in ListedSubs(r) {
      var h :| h in r.byHandle && k in r.watches[r.byHandle[h]].subs + r.watches[r.byHandle[h]].closing;
      assert WatchOk(r, r.byHandle[h]) && HandleOk(r, h);
    }
  }

  /** In every run, with every failure: a subscription that nobody is finishing is neither
      subscribed nor waiting if and only if its watch was torn or it waited when the registry
      was closed. */
  lemma StrandedIff(run: seq<State>, steps: seq<Step>, i: nat, k: nat)
    requires IsRun(run, steps) && i < |run| && k < |run[i].reg.subs| && !Issued(run[i], k)
    ensures WellFormed(run[i].reg)
    ensures Stranded(run[i], k) <==> !Active(run[i], k) && !Closing(run[i], k)
  {
    hide Enabled, Apply, IsRun;
    RunInv(run, steps, i);
    assert Placed(run[i], k);
  }

  lemma StrandedStep(s: State, a: Step, k: nat)
    requires Inv(s) && WellFormed(s.reg) && Enabled(s, a) && WellFormed(Apply(s, a).reg)
    requires k < |s.reg.subs| && Stranded(s, k) && !Issued(s, k)
    ensures k < |Apply(s, a).reg.subs|
    ensures if a == Remove(k) then k in Apply(s, a).toClose else Stranded(Apply(s, a), k) && !Issued(Apply(s, a), k)
  {
    WatchFacts(s, s.reg.subs[k].watch);
    match a
    case Remove(j) => WatchFacts(s, s.reg.subs[j].watch);
    case Acked(c) => if c in s.reg.byCookie { CookieFacts(s, c); WatchFacts(s, s.reg.byCookie[c]); }
    case Died(c) => if c in s.reg.byCookie { CookieFacts(s, c); WatchFacts(s, s.reg.byCookie[c]); }
    case Close => ListedAreKnown(s.reg, k);
    case _ =>
  }

  /** A stranded subscription is finished only by its owner: until it is closed, in whatever
      way the run goes on, no thread is told to finish it. */
  lemma {:induction false} StrandedUntilClosed(run: seq<State>, steps: seq<Step>, i: nat, j: nat, k: nat)
    requires IsRun(run, steps) && i <= j < |run| && k < |run[i].reg.subs|
    requires WellFormed(run[i].reg) && Stranded(run[i], k) && !Issued(run[i], k)
    ensures k < |run[j].reg.subs| && WellFormed(run[j].reg)
    ensures Issued(run[j], k) <==> ClosedBetween(steps, i, j, k)
    ensures !Issued(run[j], k) ==> Stranded(run[j], k)
    decreases j
  {
    hide Enabled, Apply, Inv, Stranded, Issued;
    RunInv(run, steps, j);
    InvShape(run[j]);
    if j > i {
      StrandedUntilClosed(run, steps, i, j - 1, k);
      RunInv(run, steps, j - 1);
      ClosedNext(steps, i, j - 1, k);
      if Issued(run[j - 1], k) {
        IssuedStep(run[j - 1], steps[j - 1], k);
      } else {
        StrandedStep(run[j - 1], steps[j - 1], k);
        ToldIsIssued(run[j], k);
      }
    }
  }

  lemma InvShape(s: State)
    requires Inv(s)
    ensures WellFormed(s.reg)
  {
  }

  lemma ToldIsIssued(s: State, k: nat)
    ensures k in s.toClose ==> Issued(s, k)
  {
  }

  lemma IssuedStep(s: State, a: Step, k: nat)
    requires WellFormed(s.reg) && Enabled(s, a) && Issued(s, k) && k < |s.reg.subs|
    ensures Issued(Apply(s, a), k) && k < |Apply(s, a).reg.subs|
  {
  }

  /** Whatever is found by handle is found by cookie, has a subscriber, and no two watches
      share a cookie. */
  lemma HandlesWithinCookies(run: seq<State>, steps: seq<Step>, i: nat)
    requires IsRun(run, steps) && i < |run|
    ensures WellFormed(run[i].reg)
    ensures forall h :: h in run[i].reg.byHandle ==>
      var w := run[i].reg.byHandle[h];
      Known(run[i].reg, w) && run[i].reg.watches[w].subs != {} && run[i].reg.watches[w].handle == h
    ensures forall v, w :: 0 <= v < w < |run[i].reg.watches| ==>
      run[i].reg.watches[v].cookie != run[i].reg.watches[w].cookie
  {
    hide Enabled, Apply, IsRun;
    RunInv(run, steps, i);
    var r := run[i].reg;
    forall h | h in r.byHandle ensures Known(r, r.byHandle[h]) && r.watches[r.byHandle[h]].subs != {}
      && r.watches[r.byHandle[h]].handle == h {
      assert HandleOk(r, h);
    }
    forall v, w | 0 <= v < w < |r.watches| ensures r.watches[v].cookie != r.watches[w].cookie {
      assert WatchOk(r, v) && WatchOk(r, w);
    }
  }

  // ----- dead or closed -----

  /** A subscription ends as dead only after its cookie was reported. */
  lemma DeadWasReported(run: seq<State>, steps: seq<Step>, i: nat, k: nat)
    requires IsRun(run, steps) && i < |run| && k < |run[i].reg.subs|
    requires run[i].reg.subs[k].err == Some(Dead)
    ensures WellFormed(run[i].reg) && run[i].reg.watches[run[i].reg.subs[k].watch].cookie in run[i].reported
  {
    hide Enabled, Apply, IsRun;
    RunInv(run, steps, i);
    assert EndOk(run[i], k);
  }

  /** From a report on, only closing the subscription can tell a thread to end it without
      an error, and closing it always does. */
  lemma DoomedStep(s: State, a: Step, k: nat)
    requires Inv(s) && WellFormed(s.reg) && Enabled(s, a) && k < |s.reg.subs| && k in s.toKill
    ensures k in Apply(s, a).toKill && k < |Apply(s, a).reg.subs|
    ensures k in Apply(s, a).toClose <==> k in s.toClose || a == Remove(k)
  {
    assert EndOk(s, k);
    WatchFacts(s, s.reg.subs[k].watch);
    match a
    case Acked(c) => if c in s.reg.byCookie { assert WatchOk(s.reg, s.reg.byCookie[c]); }
    case Close =>
      ListedAreKnown(s.reg, k);
    case _ =>
  }

  /** A report reaches every subscription of the watch that nobody is finishing yet: some
      thread is told to end it as dead, and another to end it without an error if and only if
      its owner closes it after the report. Unless that happens, it can only end as dead. */
  lemma {:induction false} ReportedEndsDead(run: seq<State>, steps: seq<Step>, i: nat, j: nat, k: nat)
    requires IsRun(run, steps) && i < j < |run| && k < |run[i].reg.subs|
    requires WellFormed(run[i].reg) && steps[i] == Died(run[i].reg.watches[run[i].reg.subs[k].watch].cookie)
    requires (Active(run[i], k) || Closing(run[i], k)) && !Issued(run[i], k)
    ensures k < |run[j].reg.subs| && k in run[j].toKill
    ensures k in run[j].toClose <==> ClosedBetween(steps, i + 1, j, k)
    ensures run[j].reg.subs[k].err == Some(Closed) ==> ClosedBetween(steps, i + 1, j, k)
    decreases j
  {
    hide Enabled, Inv, Apply;
    if j == i + 1 {
      RunInv(run, steps, i);
      Doom(run[i], k);
    } else {
      ReportedEndsDead(run, steps, i, j - 1, k);
      RunInv(run, steps, j - 1);
      DoomedStep(run[j - 1], steps[j - 1], k);
      ClosedNext(steps, i + 1, j - 1, k);
    }
    RunInv(run, steps, j);
    EndsAsTold(run[j], k);
  }

  lemma Doom(s: State, k: nat)
    requires Inv(s) && WellFormed(s.reg) && k < |s.reg.subs|
    requires (Active(s, k) || Closing(s, k)) && !Issued(s, k)
    ensures var t := Apply(s, Died(s.reg.watches[s.reg.subs[k].watch].cookie));
            k < |t.reg.subs| && k in t.toKill && k !in t.toClose
  {
    WatchFacts(s, s.reg.subs[k].watch);
  }

  lemma EndsAsTold(s: State, k: nat)
    requires Inv(s) && k < |s.reg.subs|
    ensures s.reg.subs[k].err == Some(Closed) ==> k in s.toClose
  {
    assert EndOk(s, k);
  }

  // ----- three runs, each on one handle -----

  lemma FirstAttach(h: uint32) returns (t: State)
    ensures t == Apply(Init(true), Attach(h)) && WellFormed(t.reg) && !t.reg.closed && t.reg.canClear
    ensures t.reg.watches == [Watch(h, 1, {0}, {})] && t.reg.subs == [Sub(0, None)]
    ensures t.reg.byHandle == map[h := 0] && t.reg.byCookie == map[1 := 0]
    ensures t.toClose == t.toKill == t.torn == {}
  {
    t := Apply(Init(true), Attach(h));
  }

  /** Reported dead, and still ended without an error: the owner closes it before the
      reporting thread has finished it. */
  lemma ReportedYetClosed(h: uint32) returns (run: seq<State>, steps: seq<Step>)
    ensures steps == [Attach(h), Died(1), Remove(0), Finished(0, Closed)] && IsRun(run, steps)
    ensures |run[4].reg.subs| == 1 && run[4].reg.subs[0].err == Some(Closed) && 0 in run[4].toKill
  {
    var s0 := Init(true);
    var s1 := FirstAttach(h);
    var s2 := Apply(s1, Died(1));
    var s3 := Apply(s2, Remove(0));
    var s4 := Apply(s3, Finished(0, Closed));
    run, steps := [s0, s1, s2, s3, s4], [Attach(h), Died(1), Remove(0), Finished(0, Closed)];
    assert run[0] == Init(true);
  }

  /** A failed request strands a subscription that joined the watch meanwhile. */
  lemma FailedRequestStrands(h: uint32) returns (run: seq<State>, steps: seq<Step>)
    ensures steps == [Attach(h), Attach(h), RequestFailed(0)] && IsRun(run, steps)
    ensures WellFormed(run[3].reg) && |run[3].reg.subs| == 2 && Stranded(run[3], 1) && !Issued(run[3], 1)
  {
    var s0 := Init(true);
    var s1 := FirstAttach(h);
    var s2 := Apply(s1, Attach(h));
    var s3 := Apply(s2, RequestFailed(0));
    run, steps := [s0, s1, s2, s3], [Attach(h), Attach(h), RequestFailed(0)];
    assert run[0] == Init(true);
  }

  /** Closing the registry strands a subscription that waits for the kernel. */
  lemma CloseStrands(h: uint32) returns (run: seq<State>, steps: seq<Step>)
    ensures steps == [Attach(h), Remove(0), Close] && IsRun(run, steps)
    ensures WellFormed(run[3].reg) && |run[3].reg.subs| == 1 && Stranded(run[3], 0) && !Issued(run[3], 0)
  {
    var s0 := Init(true);
    var s1 := FirstAttach(h);
    var s2 := Apply(s1, Remove(0));
    var s3 := Apply(s2, Close);
    run, steps := [s0, s1, s2, s3], [Attach(h), Remove(0), Close];
    assert run[0] == Init(true);
  }
}
