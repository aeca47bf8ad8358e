/** Reference bookkeeping for remote handles. Each locked section of the tracker is a
    function on the entry of one handle; the class applies it to its map. */
module RefTracker {
  import opened Bytes
  import opened Common
  import opened Wire

  /** The entry of a handle. `wait` is the channel other threads wait on while one of
      them acquires; channels are numbered in the order they are made. */
  datatype HandleRef = HandleRef(
    binderRefs: nat,
    watchRefs: nat,
    acquired: bool,
    acquiring: bool,
    releaseAfterAcquire: bool,
    wait: Option<nat>)
  {
    function Refs(): nat { binderRefs + watchRefs }
  }

  const EMPTY := HandleRef(0, 0, false, false, false, None)

  function Ensure(e: Option<HandleRef>): HandleRef { if e.Some? then e.value else EMPTY }

  function RetainBinderOf(e: Option<HandleRef>): HandleRef {
    var r := Ensure(e);
    r.(binderRefs := r.binderRefs + 1, releaseAfterAcquire := false)
  }

  function RetainWatchOf(e: Option<HandleRef>): HandleRef {
    var r := Ensure(e);
    r.(watchRefs := r.watchRefs + 1, releaseAfterAcquire := false)
  }

  datatype Begun = Begun(ref: HandleRef, needAcquire: bool, wait: Option<nat>)

  /** `chan` is the channel made when this thread becomes the acquirer. */
  function BeginOf(e: Option<HandleRef>, chan: nat): Begun {
    var r := Ensure(e);
    if r.acquired then Begun(r, false, None)
    else if r.acquiring then Begun(r, false, r.wait)
    else Begun(r.(acquiring := true, wait := Some(chan)), true, None)
  }

  datatype Finished = Finished(entry: Option<HandleRef>, shouldRelease: bool, wait: Option<nat>)

  function FinishOf(e: Option<HandleRef>, ok: bool): Finished {
    match e
    case None => Finished(None, false, None)
    case Some(ref) =>
      var r := ref.(wait := None, acquiring := false, acquired := ref.acquired || ok);
      if r.releaseAfterAcquire && r.Refs() == 0 then Finished(None, ok, ref.wait)
      else if !r.acquired && r.Refs() == 0 then Finished(None, false, ref.wait)
      else Finished(Some(r), false, ref.wait)
  }

  datatype Marked = Marked(ref: HandleRef, wait: Option<nat>)

  function MarkOf(e: Option<HandleRef>): Marked {
    var r := Ensure(e).(acquired := true);
    if r.acquiring then Marked(r.(acquiring := false, wait := None), r.wait) else Marked(r, None)
  }

  datatype Released = Released(entry: Option<HandleRef>, shouldRelease: bool)

  function ReleaseOf(e: Option<HandleRef>, binder: bool): Released {
    match e
    case None => Released(None, false)
    case Some(ref) =>
      var r :=
        if binder then ref.(binderRefs := if ref.binderRefs > 0 then ref.binderRefs - 1 else 0)
        else ref.(watchRefs := if ref.watchRefs > 0 then ref.watchRefs - 1 else 0);
      if r.Refs() > 0 then Released(Some(r), false)
      else if r.acquiring then Released(Some(r.(releaseAfterAcquire := true)), false)
      else Released(None, r.acquired)
  }

  // ----- the tracker -----

  function Get(m: map<uint32, HandleRef>, h: uint32): Option<HandleRef> {
    if h in m then Some(m[h]) else None
  }

  function Put(m: map<uint32, HandleRef>, h: uint32, e: Option<HandleRef>): map<uint32, HandleRef> {
    match e
    case None => m - {h}
    case Some(r) => m[h := r]
  }

  function Closing(c: Option<nat>): seq<nat> { if c.Some? then [c.value] else [] }

  /** Handle 0 is the context manager: it is never counted, and every call on it
      changes nothing. */
  class Tracker {
    var handles: map<uint32, HandleRef>
    var nextChan: nat
    /** The channels closed so far, in order. */
    var closed: seq<nat>

    constructor ()
      ensures handles == map[] && nextChan == 0 && closed == []
    {
      handles, nextChan, closed := map[], 0, [];
    }

    method RetainBinder(h: uint32)
      modifies this`handles
      ensures handles == if h == 0 then old(handles)
        else Put(old(handles), h, Some(RetainBinderOf(Get(old(handles), h))))
    {
      if h == 0 {
        return;
      }
      EnsureEntry(h);
      handles := handles[h := handles[h].(binderRefs := handles[h].binderRefs + 1)];
      handles := handles[h := handles[h].(releaseAfterAcquire := false)];
    }

    method RetainWatch(h: uint32)
      modifies this`handles
      ensures handles == if h == 0 then old(handles)
        else Put(old(handles), h, Some(RetainWatchOf(Get(old(handles), h))))
    {
      if h == 0 {
        return;
      }
      EnsureEntry(h);
      handles := handles[h := handles[h].(watchRefs := handles[h].watchRefs + 1)];
      handles := handles[h := handles[h].(releaseAfterAcquire := false)];
    }

    method BeginAcquire(h: uint32) returns (needAcquire: bool, wait: Option<nat>)
      modifies this`handles, this`nextChan
      ensures h == 0 ==> handles == old(handles) && nextChan == old(nextChan) && !needAcquire && wait.None?
      ensures h != 0 ==>
        var b := BeginOf(Get(old(handles), h), old(nextChan));
        handles == Put(old(handles), h, Some(b.ref)) && needAcquire == b.needAcquire && wait == b.wait
        && nextChan == old(nextChan) + if needAcquire then 1 else 0
    {
      if h == 0 {
        return false, None;
      }
      EnsureEntry(h);
      if handles[h].acquired {
        return false, None;
      }
      if handles[h].acquiring {
        return false, handles[h].wait;
      }
      handles := handles[h := handles[h].(acquiring := true)];
      handles := handles[h := handles[h].(wait := Some(nextChan))];
      nextChan := nextChan + 1;
      return true, None;
    }

    /** The locked section, then the close of the channel it took out. */
    method FinishAcquire(h: uint32, ok: bool) returns (shouldRelease: bool)
      modifies this`handles, this`closed
      ensures h == 0 ==> handles == old(handles) && closed == old(closed) && !shouldRelease
      ensures h != 0 ==>
        var f := FinishOf(Get(old(handles), h), ok);
        handles == Put(old(handles), h, f.entry) && shouldRelease == f.shouldRelease
        && closed == old(closed) + Closing(f.wait)
    {
      if h == 0 {
        return false;
      }
      var wait: Option<nat> := None;
      shouldRelease := false;
      if h in handles {
        var ref := handles[h];
        wait := ref.wait;
        ref := ref.(wait := None, acquiring := false);
        if ok {
          ref := ref.(acquired := true);
        }
        handles := handles[h := ref];
        if ref.releaseAfterAcquire && ref.Refs() == 0 {
          shouldRelease := ok;
          handles := handles - {h};
        } else if !ref.acquired && ref.Refs() == 0 {
          handles := handles - {h};
        }
      }
      if wait.Some? {
        closed := closed + [wait.value];
      }
    }

    method MarkAcquired(h: uint32)
      modifies this`handles, this`closed
      ensures h == 0 ==> handles == old(handles) && closed == old(closed)
      ensures h != 0 ==>
        var m := MarkOf(Get(old(handles), h));
        handles == Put(old(handles), h, Some(m.ref)) && closed == old(closed) + Closing(m.wait)
    {
      if h == 0 {
        return;
      }
      var wait: Option<nat> := None;
      EnsureEntry(h);
      handles := handles[h := handles[h].(acquired := true)];
      if handles[h].acquiring {
        wait := handles[h].wait;
        handles := handles[h := handles[h].(acquiring := false, wait := None)];
      }
      if wait.Some? {
        closed := closed + [wait.value];
      }
    }

    method Release(h: uint32, binder: bool) returns (shouldRelease: bool)
      modifies this`handles
      ensures h == 0 ==> handles == old(handles) && !shouldRelease
      ensures h != 0 ==>
        var r := ReleaseOf(Get(old(handles), h), binder);
        handles == Put(old(handles), h, r.entry) && shouldRelease == r.shouldRelease
    {
      if h == 0 || h !in handles {
        return false;
      }
      var ref := handles[h];
      if binder {
        if ref.binderRefs > 0 {
          ref := ref.(binderRefs := ref.binderRefs - 1);
        }
      } else if ref.watchRefs > 0 {
        ref := ref.(watchRefs := ref.watchRefs - 1);
      }
      handles := handles[h := ref];
      if ref.Refs() > 0 {
        return false;
      }
      if ref.acquiring {
        handles := handles[h := ref.(releaseAfterAcquire := true)];
        return false;
      }
      handles := handles - {h};
      return ref.acquired;
    }

    method EnsureEntry(h: uint32)
      modifies this`handles
      ensures handles == Put(old(handles), h, Some(Ensure(Get(old(handles), h))))
    {
      if h !in handles {
        handles := handles[h := EMPTY];
      }
    }
  }
}
