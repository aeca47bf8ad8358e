/** Which types need a registrar when they are written: those through which an interface, or
    a parcelable or union of another package, can be reached. The search marks what is on
    its current path and unmarks it on the way back. */
module Registrar {

  datatype Kind = Parcelable | Union

  /** A reference as the lowered type carries it; `pkg` is empty for types without one. */
  datatype Ref = Ref(aidlName: string, pkg: string, goName: string)

  datatype Type =
    | Plain
    | Interface
    | ListOf(elem: Type)
    | MapOf(key: Type, value: Type)
    | Named(kind: Kind, ref: Ref)

  datatype Body = Structured(fields: seq<Type>) | Opaque | Custom

  /** `custom` are the AIDL names with a complete custom codec. */
  datatype Model = Model(
    pkg: string,
    custom: set<string>,
    parcelables: map<string, Body>,
    unions: map<string, seq<Type>>)

  /** The key under which a named type is marked. */
  datatype Node = Node(kind: Kind, name: string)

  predicate IsCustom(m: Model, kind: Kind, ref: Ref) {
    kind == Parcelable
    && (ref.aidlName in m.custom
        || (ref.goName != "" && ref.goName in m.parcelables && m.parcelables[ref.goName].Custom?))
  }

  predicate Foreign(m: Model, ref: Ref) { ref.pkg != "" && ref.pkg != m.pkg }

  predicate Declared(m: Model, n: Node) {
    match n.kind
    case Parcelable => n.name in m.parcelables
    case Union => n.name in m.unions
  }

  function Fields(m: Model, n: Node): seq<Type> {
    match n.kind
    case Parcelable =>
      if n.name in m.parcelables && m.parcelables[n.name].Structured? then m.parcelables[n.name].fields else []
    case Union => if n.name in m.unions then m.unions[n.name] else []
  }

  function Nodes(m: Model): (r: set<Node>)
    ensures forall n :: n in r <==> Declared(m, n)
  {
    (set name | name in m.parcelables :: Node(Parcelable, name)) + (set name | name in m.unions :: Node(Union, name))
  }

  // ----- the search -----

  predicate Search(m: Model, t: Type, seen: set<Node>)
    decreases |Nodes(m) - seen|, t
  {
    match t
    case Plain => false
    case Interface => true
    case ListOf(e) => Search(m, e, seen)
    case MapOf(k, v) => Search(m, k, seen) || Search(m, v, seen)
    case Named(kind, ref) =>
      if IsCustom(m, kind, ref) then false
      else if Foreign(m, ref) then true
      else if ref.goName == "" then false
      else
        var n := Node(kind, ref.goName);
        if n in seen || !Declared(m, n) then false
        else
          Fewer(m, seen, n);
          SearchAll(m, Fields(m, n), seen + {n})
  }

  predicate SearchAll(m: Model, ts: seq<Type>, seen: set<Node>)
    decreases |Nodes(m) - seen|, ts
  {
    ts != [] && (Search(m, ts[0], seen) || SearchAll(m, ts[1..], seen))
  }

  lemma Fewer(m: Model, seen: set<Node>, n: Node)
    requires Declared(m, n) && n !in seen
    ensures |Nodes(m) - (seen + {n})| < |Nodes(m) - seen|
  {
    assert Nodes(m) - (seen + {n}) == Nodes(m) - seen - {n};
  }

  predicate Needs(m: Model, t: Type) { Search(m, t, {}) }

  class Seen {
    var keys: set<Node>

    constructor ()
      ensures keys == {}
    {
      keys := {};
    }
  }

  /** The search as it runs on one shared set of marks, which it leaves as it found them. */
  method NeedsRegistrarSeen(m: Model, t: Type, seen: Seen) returns (b: bool)
    modifies seen
    ensures b == Search(m, t, old(seen.keys)) && seen.keys == old(seen.keys)
    decreases |Nodes(m) - seen.keys|, t
  {
    match t
    case Plain => return false;
    case Interface => return true;
    case ListOf(e) => b := NeedsRegistrarSeen(m, e, seen);
    case MapOf(k, v) =>
      b := NeedsRegistrarSeen(m, k, seen);
      if !b {
        b := NeedsRegistrarSeen(m, v, seen);
      }
    case Named(kind, ref) =>
      if IsCustom(m, kind, ref) {
        return false;
      }
      if Foreign(m, ref) {
        return true;
      }
      if ref.goName == "" {
        return false;
      }
      var n := Node(kind, ref.goName);
      if n in seen.keys {
        return false;
      }
      seen.keys := seen.keys + {n};
      if !Declared(m, n) {
        b := false;
      } else {
        Fewer(m, old(seen.keys), n);
        b := FieldsNeedRegistrarSeen(m, Fields(m, n), seen);
      }
      seen.keys := seen.keys - {n};
      assert seen.keys == old(seen.keys);
  }

  method FieldsNeedRegistrarSeen(m: Model, ts: seq<Type>, seen: Seen) returns (b: bool)
    modifies seen
    ensures b == SearchAll(m, ts, old(seen.keys)) && seen.keys == old(seen.keys)
    decreases |Nodes(m) - seen.keys|, ts
  {
    var i := 0;
    while i < |ts|
      invariant 0 <= i <= |ts| && seen.keys == old(seen.keys)
      invariant SearchAll(m, ts, seen.keys) == SearchAll(m, ts[i..], seen.keys)
    {
      b := NeedsRegistrarSeen(m, ts[i], seen);
      if b {
        return;
      }
      assert ts[i..][1..] == ts[i + 1..];
      i := i + 1;
    }
    return false;
  }

  // ----- reachability -----

  /** What a type itself shows, looking only inside lists and maps. */
  predicate Direct(m: Model, t: Type) {
    match t
    case Plain => false
    case Interface => true
    case ListOf(e) => Direct(m, e)
    case MapOf(k, v) => Direct(m, k) || Direct(m, v)
    case Named(kind, ref) => !IsCustom(m, kind, ref) && Foreign(m, ref)
  }

  /** The declarations of this model that a type refers to, custom ones apart. */
  predicate Refers(m: Model, t: Type, n: Node) {
    match t
    case Plain => false
    case Interface => false
    case ListOf(e) => Refers(m, e, n)
    case MapOf(k, v) => Refers(m, k, n) || Refers(m, v, n)
    case Named(kind, ref) =>
      !IsCustom(m, kind, ref) && !Foreign(m, ref) && ref.goName != "" && n == Node(kind, ref.goName) && Declared(m, n)
  }

  ghost predicate AnyDirect(m: Model, ts: seq<Type>) { exists i :: 0 <= i < |ts| && Direct(m, ts[i]) }

  ghost predicate AnyRefers(m: Model, ts: seq<Type>, n: Node) { exists i :: 0 <= i < |ts| && Refers(m, ts[i], n) }

  /** A path of declarations, each a field type of the one before, to one with a field that
      shows an interface or a foreign type. */
  ghost predicate Path(m: Model, p: seq<Node>) {
    |p| > 0
    && (forall i :: 0 <= i < |p| - 1 ==> AnyRefers(m, Fields(m, p[i]), p[i + 1]))
    && AnyDirect(m, Fields(m, p[|p| - 1]))
  }

  ghost predicate Reaches(m: Model, t: Type) {
    Direct(m, t) || exists p :: Path(m, p) && Refers(m, t, p[0])
  }

  // -- what is found is reachable --

  lemma {:induction false} SearchSound(m: Model, t: Type, seen: set<Node>)
    requires Search(m, t, seen)
    ensures Reaches(m, t)
    decreases |Nodes(m) - seen|, t
  {
    match t
    case Interface =>
    case ListOf(e) => SearchSound(m, e, seen);
    case MapOf(k, v) => if Search(m, k, seen) { SearchSound(m, k, seen); } else { SearchSound(m, v, seen); }
    case Named(kind, ref) =>
      if !Foreign(m, ref) {
        var n := Node(kind, ref.goName);
        Fewer(m, seen, n);
        var i := SearchAllSound(m, Fields(m, n), seen + {n});
        Extend(m, n, i);
      }
  }

  lemma {:induction false} SearchAllSound(m: Model, ts: seq<Type>, seen: set<Node>) returns (i: nat)
    requires SearchAll(m, ts, seen)
    ensures i < |ts| && Reaches(m, ts[i])
    decreases |Nodes(m) - seen|, ts
  {
    if Search(m, ts[0], seen) {
      SearchSound(m, ts[0], seen);
      i := 0;
    } else {
      i := SearchAllSound(m, ts[1..], seen);
      i := i + 1;
    }
  }

  /** A declaration with a field from which something is reachable starts a path. */
  lemma Extend(m: Model, n: Node, i: nat)
    requires i < |Fields(m, n)| && Reaches(m, Fields(m, n)[i])
    ensures exists p :: Path(m, p) && p[0] == n
  {
    var f := Fields(m, n)[i];
    if Direct(m, f) {
      assert Path(m, [n]);
    } else {
      var p :| Path(m, p) && Refers(m, f, p[0]);
      var q := [n] + p;
      assert q[|q| - 1] == p[|p| - 1];
      forall j | 0 <= j < |q| - 1 ensures AnyRefers(m, Fields(m, q[j]), q[j + 1]) {
        if j > 0 { assert q[j] == p[j - 1] && q[j + 1] == p[j]; }
      }
      assert Path(m, q) && q[0] == n;
    }
  }

  // -- what is reachable is found --

  ghost predicate Avoids(p: seq<Node>, seen: set<Node>) { forall i :: 0 <= i < |p| ==> p[i] !in seen }

  lemma {:induction false} DirectFound(m: Model, t: Type, seen: set<Node>)
    requires Direct(m, t)
    ensures Search(m, t, seen)
  {
    match t
    case ListOf(e) => DirectFound(m, e, seen);
    case MapOf(k, v) => if Direct(m, k) { DirectFound(m, k, seen); } else { DirectFound(m, v, seen); }
    case _ =>
  }

  lemma {:induction false} AnyFound(m: Model, ts: seq<Type>, seen: set<Node>, i: nat)
    requires i < |ts| && Search(m, ts[i], seen)
    ensures SearchAll(m, ts, seen)
    decreases i
  {
    if i > 0 {
      AnyFound(m, ts[1..], seen, i - 1);
    }
  }

  /** A path that avoids the marks is found, even though the search will not go through a
      declaration twice: where the path comes back to its first declaration, the rest of it
      does just as well. */
  lemma {:induction false} PathFound(m: Model, t: Type, p: seq<Node>, seen: set<Node>)
    requires Path(m, p) && Refers(m, t, p[0]) && Avoids(p, seen)
    ensures Search(m, t, seen)
    decreases |p|, 1, t
  {
    match t
    case ListOf(e) => PathFound(m, e, p, seen);
    case MapOf(k, v) => if Refers(m, k, p[0]) { PathFound(m, k, p, seen); } else { PathFound(m, v, p, seen); }
    case Named(kind, ref) =>
      if n :| 0 < n < |p| && p[n] == p[0] {
        Suffix(m, p, n, seen);
        PathFound(m, t, p[n..], seen);
      } else {
        RestFound(m, p, seen);
      }
  }

  lemma Suffix(m: Model, p: seq<Node>, n: nat, seen: set<Node>)
    requires Path(m, p) && n < |p| && Avoids(p, seen)
    ensures Path(m, p[n..]) && Avoids(p[n..], seen)
  {
    var q := p[n..];
    assert q[|q| - 1] == p[|p| - 1];
    forall i | 0 <= i < |q| - 1 ensures AnyRefers(m, Fields(m, q[i]), q[i + 1]) {
      assert q[i] == p[n + i] && q[i + 1] == p[n + i + 1];
    }
  }

  lemma {:induction false} RestFound(m: Model, p: seq<Node>, seen: set<Node>)
    requires Path(m, p) && Avoids(p, seen)
    requires forall n :: 0 < n < |p| ==> p[n] != p[0]
    ensures SearchAll(m, Fields(m, p[0]), seen + {p[0]})
    decreases |p|, 0
  {
    var fs, marks := Fields(m, p[0]), seen + {p[0]};
    if |p| == 1 {
      var i :| 0 <= i < |fs| && Direct(m, fs[i]);
      DirectFound(m, fs[i], marks);
      AnyFound(m, fs, marks, i);
    } else {
      assert AnyRefers(m, Fields(m, p[0]), p[0 + 1]);
      var i :| 0 <= i < |fs| && Refers(m, fs[i], p[1]);
      Suffix(m, p, 1, seen);
      assert Avoids(p[1..], marks);
      PathFound(m, fs[i], p[1..], marks);
      AnyFound(m, fs, marks, i);
    }
  }

  /** The answer is reachability: a type needs a registrar if and only if an interface or a
      foreign parcelable or union can be reached from it without crossing a custom one. */
  lemma NeedsIff(m: Model, t: Type)
    ensures Needs(m, t) <==> Reaches(m, t)
  {
    if Needs(m, t) {
      SearchSound(m, t, {});
    }
    if Reaches(m, t) {
      if Direct(m, t) {
        DirectFound(m, t, {});
      } else {
        var p :| Path(m, p) && Refers(m, t, p[0]);
        PathFound(m, t, p, {});
      }
    }
  }

  // ----- writers and their names -----

  ghost predicate FieldsNeed(m: Model, ts: seq<Type>) { exists i :: 0 <= i < |ts| && Needs(m, ts[i]) }

  /** The definition of a declaration gets a writer that takes a registrar. */
  ghost predicate EmitsWithRegistrar(m: Model, n: Node) { FieldsNeed(m, Fields(m, n)) }

  /** A use of a type of this model names the writer that takes a registrar exactly when
      its definition has one. */
  lemma NamesAgree(m: Model, t: Type)
    requires t.Named? && !IsCustom(m, t.kind, t.ref) && !Foreign(m, t.ref) && t.ref.goName != ""
    requires Declared(m, Node(t.kind, t.ref.goName))
    ensures Needs(m, t) <==> EmitsWithRegistrar(m, Node(t.kind, t.ref.goName))
  {
    var n := Node(t.kind, t.ref.goName);
    var fs := Fields(m, n);
    NeedsIff(m, t);
    if Needs(m, t) {
      var p :| Path(m, p) && Refers(m, t, p[0]);
      StepIn(m, p);
    }
    if i :| 0 <= i < |fs| && Needs(m, fs[i]) {
      NeedsIff(m, fs[i]);
      Extend(m, n, i);
      var p :| Path(m, p) && p[0] == n;
      assert Refers(m, t, p[0]);
    }
  }

  lemma StepIn(m: Model, p: seq<Node>)
    requires Path(m, p)
    ensures FieldsNeed(m, Fields(m, p[0]))
  {
    var fs := Fields(m, p[0]);
    if |p| == 1 {
      var i :| 0 <= i < |fs| && Direct(m, fs[i]);
      NeedsIff(m, fs[i]);
    } else {
      assert AnyRefers(m, Fields(m, p[0]), p[0 + 1]);
      var i :| 0 <= i < |fs| && Refers(m, fs[i], p[1]);
      Suffix(m, p, 1, {});
      NeedsIff(m, fs[i]);
      assert Path(m, p[1..]) && Refers(m, fs[i], p[1..][0]);
    }
  }
}
