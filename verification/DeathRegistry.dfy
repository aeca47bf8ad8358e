/** Death notifications: watches shared per handle, found by handle while somebody
    subscribes and by cookie until the kernel has let go. Each locked section is a
    function on the registry; the class runs it and then finishes the subscriptions
    the section took out. */
module DeathRegistry {
  import opened Bytes
  import opened Common
  import opened Wire

  /** What a subscription ends with: no error, or the death of its object. */
  datatype Err = Closed | Dead

  datatype Watch = Watch(handle: uint32, cookie: nat, subs: set<nat>, closing: set<nat>)

  /** `err` is empty until the subscription is done. */
  datatype Sub = Sub(watch: nat, err: Option<Err>)

  /** Watches and subscriptions are known by the order they were made in. */
  datatype Reg = Reg(
    canClear: bool,
    nextCookie: nat,
    closed: bool,
    byHandle: map<uint32, nat>,
    byCookie: map<nat, nat>,
    watches: seq<Watch>,
    subs: seq<Sub>)

  predicate WellFormed(r: Reg) {
    (forall k :: 0 <= k < |r.subs| ==> r.subs[k].watch < |r.watches|)
    && (forall h :: h in r.byHandle ==> r.byHandle[h] < |r.watches|)
    && (forall c :: c in r.byCookie ==> r.byCookie[c] < |r.watches|)
  }

  /** The watch is the one its handle leads to. */
  predicate Listed(r: Reg, w: nat)
    requires w < |r.watches|
  {
    var h := r.watches[w].handle;
    h in r.byHandle && r.byHandle[h] == w
  }

  predicate Known(r: Reg, w: nat)
    requires w < |r.watches|
  {
    var c := r.watches[w].cookie;
    c in r.byCookie && r.byCookie[c] == w
  }

  function Unlist(r: Reg, w: nat): Reg
    requires w < |r.watches|
  {
    if Listed(r, w) then r.(byHandle := r.byHandle - {r.watches[w].handle}) else r
  }

  function Forget(r: Reg, w: nat): Reg
    requires w < |r.watches|
  {
    if Known(r, w) then r.(byCookie := r.byCookie - {r.watches[w].cookie}) else r
  }

  function SetWatch(r: Reg, w: nat, watch: Watch): Reg
    requires w < |r.watches|
  {
    r.(watches := r.watches[w := watch])
  }

  // ----- the locked sections -----

  /** Only the first subscription of a handle makes a watch, and asks the kernel. */
  function AttachOf(r: Reg, h: uint32): Reg
    requires WellFormed(r) && !r.closed
  {
    var k := |r.subs|;
    if h in r.byHandle then
      var w := r.byHandle[h];
      SetWatch(r, w, r.watches[w].(subs := r.watches[w].subs + {k})).(subs := r.subs + [Sub(w, None)])
    else
      var w, c := |r.watches|, r.nextCookie + 1;
      r.(nextCookie := c, byHandle := r.byHandle[h := w], byCookie := r.byCookie[c := w],
         watches := r.watches + [Watch(h, c, {k}, {})], subs := r.subs + [Sub(w, None)])
  }

  function RollbackOf(r: Reg, w: nat): Reg
    requires w < |r.watches|
  {
    Forget(Unlist(r, w), w)
  }

  datatype Removed = Removed(reg: Reg, finish: bool, clear: Option<nat>)

  /** The last subscription stays with its watch until the kernel has cleared it. */
  function RemoveOf(r: Reg, k: nat): Removed
    requires WellFormed(r) && k < |r.subs|
  {
    var w := r.subs[k].watch;
    if !Listed(r, w) then Removed(r, true, None)
    else
      var left := r.watches[w].subs - {k};
      if left != {} then Removed(SetWatch(r, w, r.watches[w].(subs := left)), true, None)
      else
        Removed(SetWatch(Unlist(r, w), w, r.watches[w].(subs := {}, closing := r.watches[w].closing + {k})),
                !r.canClear, if r.canClear then Some(r.watches[w].cookie) else None)
  }

  /** What a locked section leaves, and the subscriptions it will finish. */
  datatype Taken = Taken(reg: Reg, subs: set<nat>)

  function DeadOf(r: Reg, c: nat): Taken
    requires WellFormed(r)
  {
    if c !in r.byCookie then Taken(r, {})
    else
      var w := r.byCookie[c];
      var watch := r.watches[w];
      Taken(SetWatch(Unlist(r.(byCookie := r.byCookie - {c}), w), w, watch.(subs := {}, closing := {})),
            watch.subs + watch.closing)
  }

  function ClearedOf(r: Reg, c: nat): Taken
    requires WellFormed(r)
  {
    if c !in r.byCookie then Taken(r, {})
    else
      var w := r.byCookie[c];
      var watch := r.watches[w];
      Taken(SetWatch(Unlist(r.(byCookie := r.byCookie - {c}), w), w, watch.(closing := {})), watch.closing)
  }

  function ListedSubs(r: Reg): set<nat>
    requires WellFormed(r)
  {
    set h, k | h in r.byHandle && k in r.watches[r.byHandle[h]].subs + r.watches[r.byHandle[h]].closing :: k
  }

  function CloseOf(r: Reg): Taken
    requires WellFormed(r)
  {
    if r.closed then Taken(r, {}) else Taken(r.(closed := true, byHandle := map[], byCookie := map[]), ListedSubs(r))
  }

  /** A subscription is finished once; later attempts change nothing. */
  function Finish(s: Sub, e: Err): Sub { if s.err.None? then s.(err := Some(e)) else s }

  function FinishAll(r: Reg, ks: set<nat>, e: Err): Reg {
    r.(subs := seq(|r.subs|, i requires 0 <= i < |r.subs| => if i in ks then Finish(r.subs[i], e) else r.subs[i]))
  }

  function Elems(all: seq<nat>): set<nat> { set k | k in all }

  lemma FinishNone(r: Reg, e: Err)
    ensures FinishAll(r, {}, e) == r
  {
    assert FinishAll(r, {}, e).subs == r.subs;
  }

  // ----- the registry -----

  class Registry {
    const canClear: bool
    var nextCookie: nat
    var closed: bool
    var byHandle: map<uint32, nat>
    var byCookie: map<nat, nat>
    var watches: seq<Watch>
    var subs: seq<Sub>

    function Model(): Reg
      reads this
    {
      Reg(canClear, nextCookie, closed, byHandle, byCookie, watches, subs)
    }

    constructor (canClear: bool)
      ensures Model() == Reg(canClear, 0, false, map[], map[], [], [])
    {
      this.canClear := canClear;
      nextCookie, closed, byHandle, byCookie, watches, subs := 0, false, map[], map[], [], [];
    }

    method Attach(h: uint32) returns (sub: Option<nat>, needsRequest: bool)
      requires WellFormed(Model())
      modifies this
      ensures old(closed) ==> Model() == old(Model()) && sub.None? && !needsRequest
      ensures !old(closed) ==> Model() == AttachOf(old(Model()), h) && sub == Some(old(|subs|))
                               && needsRequest == (h !in old(byHandle))
    {
      if closed {
        return None, false;
      }
      var k := |subs|;
      if h in byHandle {
        var w := byHandle[h];
        subs := subs + [Sub(w, None)];
        watches := watches[w := watches[w].(subs := watches[w].subs + {k})];
        return Some(k), false;
      }
      nextCookie := nextCookie + 1;
      var w := |watches|;
      subs := subs + [Sub(w, None)];
      watches := watches + [Watch(h, nextCookie, {k}, {})];
      byHandle := byHandle[h := w];
      byCookie := byCookie[nextCookie := w];
      return Some(k), true;
    }

    method Rollback(w: nat)
      requires w < |watches|
      modifies this`byHandle, this`byCookie
      ensures Model() == RollbackOf(old(Model()), w)
    {
      if watches[w].handle in byHandle && byHandle[watches[w].handle] == w {
        byHandle := byHandle - {watches[w].handle};
      }
      if watches[w].cookie in byCookie && byCookie[watches[w].cookie] == w {
        byCookie := byCookie - {watches[w].cookie};
      }
    }

    /** `cleared` is the kernel's answer if it is asked to clear the watch. */
    method RemoveSub(k: nat, cleared: bool) returns (ok: bool)
      requires WellFormed(Model()) && k < |subs|
      modifies this
      ensures var d := RemoveOf(old(Model()), k);
              var r := if d.finish then FinishAll(d.reg, {k}, Closed) else d.reg;
              if d.clear.Some? && !cleared
              then WellFormed(r)
                && Model() == FinishAll(ClearedOf(r, d.clear.value).reg, ClearedOf(r, d.clear.value).subs, Closed)
              else Model() == r
      ensures ok == (RemoveOf(old(Model()), k).clear.None? || cleared)
    {
      hide FinishAll, ListedSubs;
      assert Elems([k]) == {k};
      var w := subs[k].watch;
      if watches[w].handle !in byHandle || byHandle[watches[w].handle] != w {
        FinishEach([k], Closed);
        return true;
      }
      var before := watches;
      watches := watches[w := watches[w].(subs := watches[w].subs - {k})];
      if watches[w].subs != {} {
        assert Model() == RemoveOf(old(Model()), k).reg;
        FinishEach([k], Closed);
        return true;
      }
      byHandle := byHandle - {watches[w].handle};
      watches := watches[w := watches[w].(closing := watches[w].closing + {k})];
      assert watches == before[w := before[w].(subs := {}, closing := before[w].closing + {k})];
      assert Model() == RemoveOf(old(Model()), k).reg;
      if !canClear {
        FinishEach([k], Closed);
        return true;
      }
      if !cleared {
        FinishClearing(watches[w].cookie);
        return false;
      }
      return true;
    }

    method NotifyDead(c: nat)
      requires WellFormed(Model())
      modifies this
      ensures var t := DeadOf(old(Model()), c);
              Model() == FinishAll(t.reg, t.subs, Dead)
    {
      hide FinishAll, ListedSubs;
      if c !in byCookie {
        FinishNone(Model(), Dead);
        return;
      }
      var w := byCookie[c];
      byCookie := byCookie - {c};
      if watches[w].handle in byHandle && byHandle[watches[w].handle] == w {
        byHandle := byHandle - {watches[w].handle};
      }
      var first := Collect(watches[w].subs, []);
      var all := Collect(watches[w].closing, first);
      assert Elems(all) == watches[w].subs + watches[w].closing;
      watches := watches[w := watches[w].(subs := {}, closing := {})];
      assert Model() == DeadOf(old(Model()), c).reg;
      FinishEach(all, Dead);
    }

    method FinishClearing(c: nat)
      requires WellFormed(Model())
      modifies this
      ensures var t := ClearedOf(old(Model()), c);
              Model() == FinishAll(t.reg, t.subs, Closed)
    {
      hide FinishAll, ListedSubs;
      if c !in byCookie {
        FinishNone(Model(), Closed);
        return;
      }
      var w := byCookie[c];
      byCookie := byCookie - {c};
      if watches[w].handle in byHandle && byHandle[watches[w].handle] == w {
        byHandle := byHandle - {watches[w].handle};
      }
      var all := Collect(watches[w].closing, []);
      assert Elems(all) == watches[w].closing;
      watches := watches[w := watches[w].(closing := {})];
      assert Model() == ClearedOf(old(Model()), c).reg;
      FinishEach(all, Closed);
    }

    method Close()
      requires WellFormed(Model())
      modifies this
      ensures var t := CloseOf(old(Model()));
              Model() == FinishAll(t.reg, t.subs, Closed)
    {
      hide FinishAll, SetWatch, Unlist, Forget;
      if closed {
        FinishNone(Model(), Closed);
        return;
      }
      closed := true;
      var all: seq<nat> := [];
      var todo := byHandle.Keys;
      while todo != {}
        invariant todo <= byHandle.Keys
        invariant Model() == old(Model()).(closed := true)
        invariant forall k :: k in all <==>
          exists h :: h in byHandle && h !in todo && k in watches[byHandle[h]].subs + watches[byHandle[h]].closing
        decreases |todo|
      {
        var h :| h in todo;
        ghost var before := all;
        all := Collect(watches[byHandle[h]].subs, all);
        all := Collect(watches[byHandle[h]].closing, all);
        todo := todo - {h};
      }
      assert Elems(all) == ListedSubs(old(Model()));
      byHandle := map[];
      byCookie := map[];
      assert Model() == CloseOf(old(Model())).reg;
      FinishEach(all, Closed);
    }

    /** Map iteration: any order. */
    method Collect(ks: set<nat>, init: seq<nat>) returns (all: seq<nat>)
      ensures forall k :: k in all <==> k in init || k in ks
    {
      all := init;
      var todo := ks;
      while todo != {}
        invariant todo <= ks
        invariant forall k :: k in all <==> k in init || (k in ks && k !in todo)
        decreases |todo|
      {
        var k :| k in todo;
        all := all + [k];
        todo := todo - {k};
      }
    }

    method FinishEach(all: seq<nat>, e: Err)
      modifies this`subs
      ensures Model() == FinishAll(old(Model()), Elems(all), e)
    {
      var i := 0;
      while i < |all|
        invariant 0 <= i <= |all|
        invariant |subs| == |old(subs)|
        invariant forall k :: 0 <= k < |subs| ==>
          subs[k] == if k in all[..i] then Finish(old(subs)[k], e) else old(subs)[k]
      {
        if all[i] < |subs| {
          subs := subs[all[i] := Finish(subs[all[i]], e)];
        }
        assert all[..i + 1] == all[..i] + [all[i]];
        i := i + 1;
      }
      assert all[..i] == all;
    }
  }
}
