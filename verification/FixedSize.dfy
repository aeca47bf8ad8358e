/** Which types have a fixed size: the search through the fields of annotated parcelables
    and unions keeps its marks, and takes a marked declaration for good. */
module FixedSize {
  import opened Common

  datatype TypeRef = TypeRef(name: string, nullable: bool, isArray: bool, fixedLen: Option<nat>)

  /** `Record` is a parcelable or a union. */
  datatype Decl = Enum | Record(annotated: bool, fields: seq<TypeRef>) | Other

  /** The declarations of a file under their qualified names and under their bare names;
      `pkg` is empty when the file has no package. */
  datatype Validator = Validator(pkg: string, byQName: map<string, Decl>, byName: map<string, Decl>)

  const BASICS := {"boolean", "byte", "char", "int", "long", "float", "double"}
  const SIZELESS := {"List", "String", "IBinder", "FileDescriptor", "ParcelFileDescriptor"}

  // ----- names -----

  function LookupType(v: Validator, name: string): Option<Decl> {
    if name == "" then None
    else if name in v.byQName then Some(v.byQName[name])
    else if v.pkg != "" && v.pkg + "." + name in v.byQName then Some(v.byQName[v.pkg + "." + name])
    else if name in v.byName then Some(v.byName[name])
    else None
  }

  function Join(parts: seq<string>): string {
    if parts == [] then "" else if |parts| == 1 then parts[0] else parts[0] + "." + Join(parts[1..])
  }

  function QualifiedName(v: Validator, scope: seq<string>, name: string): string {
    Join((if v.pkg != "" then [v.pkg] else []) + scope + [name])
  }

  /** The key under which a declaration is marked. */
  function LookupQName(v: Validator, scope: seq<string>, name: string): string {
    if '.' in name then
      if name in v.byQName || v.pkg == "" then name else v.pkg + "." + name
    else QualifiedName(v, scope, name)
  }

  // ----- one type -----

  datatype Verdict = Good | Bad | Look(fields: seq<TypeRef>)

  /** What a reference shows by itself, or the fields to look at. */
  function Judge(v: Validator, ref: TypeRef): Verdict {
    if ref.nullable || (ref.isArray && ref.fixedLen.None?) then Bad
    else if ref.name in BASICS then Good
    else if ref.name in SIZELESS then Bad
    else
      match LookupType(v, ref.name)
      case Some(Enum) => Good
      case Some(Record(true, fields)) => Look(fields)
      case _ => Bad
  }

  // ----- the search -----

  /** The keys of every reference that occurs in a declaration, whatever the scope says. */
  function Keys(v: Validator, scope: seq<string>): set<string> {
    (set q, i | q in v.byQName && v.byQName[q].Record? && 0 <= i < |v.byQName[q].fields| ::
       LookupQName(v, scope, v.byQName[q].fields[i].name))
    + (set q, i | q in v.byName && v.byName[q].Record? && 0 <= i < |v.byName[q].fields| ::
         LookupQName(v, scope, v.byName[q].fields[i].name))
  }

  /** `univ` holds every key the search can meet. */
  predicate Covers(v: Validator, scope: seq<string>, univ: set<string>, refs: seq<TypeRef>) {
    forall i :: 0 <= i < |refs| ==> LookupQName(v, scope, refs[i].name) in univ
  }

  function Search(
    v: Validator, scope: seq<string>, univ: set<string>, ref: TypeRef, seen: set<string>): (r: (bool, set<string>))
    requires Keys(v, scope) <= univ && LookupQName(v, scope, ref.name) in univ
    ensures seen <= r.1
    decreases |univ - seen|, 0, 0
  {
    match Judge(v, ref)
    case Good => (true, seen)
    case Bad => (false, seen)
    case Look(fields) =>
      var key := LookupQName(v, scope, ref.name);
      if key in seen then (true, seen)
      else
        Fewer(univ, seen, key);
        Covered(v, scope, univ, ref);
        SearchAll(v, scope, univ, fields, seen + {key})
  }

  function SearchAll(
    v: Validator, scope: seq<string>, univ: set<string>, refs: seq<TypeRef>, seen: set<string>)
    : (r: (bool, set<string>))
    requires Keys(v, scope) <= univ && Covers(v, scope, univ, refs)
    ensures seen <= r.1
    decreases |univ - seen|, 1, |refs|
  {
    if refs == [] then (true, seen)
    else
      var first := Search(v, scope, univ, refs[0], seen);
      if !first.0 then first
      else
        NoMore(univ, seen, first.1);
        SearchAll(v, scope, univ, refs[1..], first.1)
  }

  lemma Fewer(univ: set<string>, seen: set<string>, key: string)
    requires key in univ && key !in seen
    ensures |univ - (seen + {key})| < |univ - seen|
  {
    assert univ - (seen + {key}) == univ - seen - {key};
  }

  lemma NoMore(univ: set<string>, seen: set<string>, more: set<string>)
    requires seen <= more
    ensures |univ - more| <= |univ - seen|
  {
    SubsetSize(univ - more, univ - seen);
  }

  lemma {:induction false} SubsetSize(a: set<string>, b: set<string>)
    requires a <= b
    ensures |a| <= |b|
    decreases b
  {
    if x :| x in b {
      SubsetSize(a - {x}, b - {x});
    }
  }

  lemma Covered(v: Validator, scope: seq<string>, univ: set<string>, ref: TypeRef)
    requires Keys(v, scope) <= univ && Judge(v, ref).Look?
    ensures Covers(v, scope, univ, Judge(v, ref).fields)
  {
    var fields := Judge(v, ref).fields;
    forall i | 0 <= i < |fields| ensures LookupQName(v, scope, fields[i].name) in univ {
      assert LookupQName(v, scope, fields[i].name) in Keys(v, scope);
    }
  }

  function Universe(v: Validator, scope: seq<string>, ref: TypeRef): set<string> {
    Keys(v, scope) + {LookupQName(v, scope, ref.name)}
  }

  predicate IsFixed(v: Validator, scope: seq<string>, ref: TypeRef) {
    Search(v, scope, Universe(v, scope, ref), ref, {}).0
  }

  class Seen {
    var keys: set<string>

    constructor ()
      ensures keys == {}
    {
      keys := {};
    }
  }

  /** The search as it runs, with one set of marks that only grows. */
  method IsFixedSizeType(
    v: Validator, scope: seq<string>, ghost univ: set<string>, ref: TypeRef, seen: Seen) returns (b: bool)
    requires Keys(v, scope) <= univ && LookupQName(v, scope, ref.name) in univ
    modifies seen
    ensures (b, seen.keys) == Search(v, scope, univ, ref, old(seen.keys))
    decreases |univ - seen.keys|, 0, 0
  {
    var verdict := Judge(v, ref);
    if !verdict.Look? {
      return verdict.Good?;
    }
    var key := LookupQName(v, scope, ref.name);
    if key in seen.keys {
      return true;
    }
    Fewer(univ, seen.keys, key);
    Covered(v, scope, univ, ref);
    seen.keys := seen.keys + {key};
    b := AllFixedSize(v, scope, univ, verdict.fields, seen);
  }

  method AllFixedSize(
    v: Validator, scope: seq<string>, ghost univ: set<string>, refs: seq<TypeRef>, seen: Seen) returns (b: bool)
    requires Keys(v, scope) <= univ && Covers(v, scope, univ, refs)
    modifies seen
    ensures (b, seen.keys) == SearchAll(v, scope, univ, refs, old(seen.keys))
    decreases |univ - seen.keys|, 1, |refs|
  {
    hide Keys, LookupQName, Judge;
    var i := 0;
    while i < |refs|
      invariant 0 <= i <= |refs| && old(seen.keys) <= seen.keys
      invariant SearchAll(v, scope, univ, refs, old(seen.keys)) == SearchAll(v, scope, univ, refs[i..], seen.keys)
    {
      NoMore(univ, old(seen.keys), seen.keys);
      b := IsFixedSizeType(v, scope, univ, refs[i], seen);
      if !b {
        return;
      }
      assert refs[i..][1..] == refs[i + 1..];
      i := i + 1;
    }
    return true;
  }

  // ----- what the answer means -----

  /** A way through fields of annotated declarations, from the first reference to the last. */
  ghost predicate Way(v: Validator, p: seq<TypeRef>) {
    |p| > 0 && forall i :: 0 <= i < |p| - 1 ==> Judge(v, p[i]).Look? && p[i + 1] in Judge(v, p[i]).fields
  }

  /** Nothing of unbounded size can be reached. */
  ghost predicate AllReachableFixed(v: Validator, ref: TypeRef) {
    forall p :: Way(v, p) && p[0] == ref ==> !Judge(v, p[|p| - 1]).Bad?
  }

  ghost predicate Reached(v: Validator, root: TypeRef, ref: TypeRef) {
    exists p :: Way(v, p) && p[0] == root && p[|p| - 1] == ref
  }

  /** Marks stand for declarations: annotated types that can be reached from `root` and have
      the same key have the same fields. */
  ghost predicate KeysDetermine(v: Validator, scope: seq<string>, root: TypeRef) {
    forall a, b | Reached(v, root, a) && Reached(v, root, b) && Judge(v, a).Look? && Judge(v, b).Look? ::
      LookupQName(v, scope, a.name) == LookupQName(v, scope, b.name) ==> Judge(v, a).fields == Judge(v, b).fields
  }

  lemma RootReached(v: Validator, root: TypeRef)
    ensures Reached(v, root, root)
  {
    assert Way(v, [root]);
  }

  lemma FieldReached(v: Validator, root: TypeRef, ref: TypeRef, field: TypeRef)
    requires Reached(v, root, ref) && Judge(v, ref).Look? && field in Judge(v, ref).fields
    ensures Reached(v, root, field)
  {
    hide Judge;
    var p :| Way(v, p) && p[0] == root && p[|p| - 1] == ref;
    var q := p + [field];
    assert Way(v, q) && q[0] == root && q[|q| - 1] == field;
  }

  // -- no means no --

  lemma {:induction false} NoMeansWay(
    v: Validator, scope: seq<string>, univ: set<string>, ref: TypeRef, seen: set<string>) returns (p: seq<TypeRef>)
    requires Keys(v, scope) <= univ && LookupQName(v, scope, ref.name) in univ
    requires !Search(v, scope, univ, ref, seen).0
    ensures Way(v, p) && p[0] == ref && Judge(v, p[|p| - 1]).Bad?
    decreases |univ - seen|, 0, 0
  {
    hide Keys, LookupQName;
    if Judge(v, ref).Bad? {
      p := [ref];
    } else {
      var key := LookupQName(v, scope, ref.name);
      Fewer(univ, seen, key);
      Covered(v, scope, univ, ref);
      var q := NoMeansWayAll(v, scope, univ, Judge(v, ref).fields, seen + {key});
      p := [ref] + q;
      assert p[|p| - 1] == q[|q| - 1];
      forall i | 0 <= i < |p| - 1 ensures Judge(v, p[i]).Look? && p[i + 1] in Judge(v, p[i]).fields {
        if i > 0 { assert p[i] == q[i - 1] && p[i + 1] == q[i]; }
      }
    }
  }

  lemma {:induction false} NoMeansWayAll(
    v: Validator, scope: seq<string>, univ: set<string>, refs: seq<TypeRef>, seen: set<string>)
    returns (p: seq<TypeRef>)
    requires Keys(v, scope) <= univ && Covers(v, scope, univ, refs)
    requires !SearchAll(v, scope, univ, refs, seen).0
    ensures Way(v, p) && p[0] in refs && Judge(v, p[|p| - 1]).Bad?
    decreases |univ - seen|, 1, |refs|
  {
    hide Keys, LookupQName, Judge;
    var first := Search(v, scope, univ, refs[0], seen);
    if !first.0 {
      p := NoMeansWay(v, scope, univ, refs[0], seen);
    } else {
      NoMore(univ, seen, first.1);
      p := NoMeansWayAll(v, scope, univ, refs[1..], first.1);
    }
  }

  // -- yes means yes --

  /** Settled as far as the marks `s` go. */
  ghost predicate Fine(v: Validator, scope: seq<string>, ref: TypeRef, s: set<string>) {
    match Judge(v, ref)
    case Good => true
    case Bad => false
    case Look(_) => LookupQName(v, scope, ref.name) in s
  }

  /** The declaration marked with `key` was looked at: all its fields are fine. */
  ghost predicate Explored(v: Validator, scope: seq<string>, root: TypeRef, key: string, s: set<string>) {
    exists ref: TypeRef :: Reached(v, root, ref) && Judge(v, ref).Look? && LookupQName(v, scope, ref.name) == key
      && forall i :: 0 <= i < |Judge(v, ref).fields| ==> Fine(v, scope, Judge(v, ref).fields[i], s)
  }

  lemma ExploredMore(v: Validator, scope: seq<string>, root: TypeRef, key: string, s: set<string>, t: set<string>)
    requires Explored(v, scope, root, key, s) && s <= t
    ensures Explored(v, scope, root, key, t)
  {
    hide Judge, LookupQName, Reached;
    var ref: TypeRef :| Reached(v, root, ref) && Judge(v, ref).Look? && LookupQName(v, scope, ref.name) == key
      && forall i :: 0 <= i < |Judge(v, ref).fields| ==> Fine(v, scope, Judge(v, ref).fields[i], s);
    assert forall i :: 0 <= i < |Judge(v, ref).fields| ==> Fine(v, scope, Judge(v, ref).fields[i], t);
  }

  /** A search that says yes leaves nothing open but what was marked before. */
  ghost predicate Settles(v: Validator, scope: seq<string>, root: TypeRef, seen: set<string>, done: set<string>) {
    forall key :: key in done && key !in seen ==> Explored(v, scope, root, key, done)
  }

  lemma {:induction false} YesSettles(
    v: Validator, scope: seq<string>, univ: set<string>, root: TypeRef, ref: TypeRef, seen: set<string>)
    requires Reached(v, root, ref)
    requires Keys(v, scope) <= univ && LookupQName(v, scope, ref.name) in univ
    requires Search(v, scope, univ, ref, seen).0
    ensures Fine(v, scope, ref, Search(v, scope, univ, ref, seen).1)
    ensures Settles(v, scope, root, seen, Search(v, scope, univ, ref, seen).1)
    decreases |univ - seen|, 0, 0
  {
    hide Keys, LookupQName, Judge, Explored, Reached;
    var done := Search(v, scope, univ, ref, seen).1;
    var key := LookupQName(v, scope, ref.name);
    if Judge(v, ref).Look? && key !in seen {
      var fields := Judge(v, ref).fields;
      Fewer(univ, seen, key);
      Covered(v, scope, univ, ref);
      forall field | field in fields ensures Reached(v, root, field) {
        FieldReached(v, root, ref, field);
      }
      YesSettlesAll(v, scope, univ, root, fields, seen + {key});
      assert Explored(v, scope, root, key, done) by { Explore(v, scope, root, ref, done); }
    }
  }

  lemma Explore(v: Validator, scope: seq<string>, root: TypeRef, ref: TypeRef, s: set<string>)
    requires Reached(v, root, ref) && Judge(v, ref).Look?
    requires forall i :: 0 <= i < |Judge(v, ref).fields| ==> Fine(v, scope, Judge(v, ref).fields[i], s)
    ensures Explored(v, scope, root, LookupQName(v, scope, ref.name), s)
  {
    hide Judge, LookupQName, Fine, Reached;
  }

  lemma {:induction false} YesSettlesAll(
    v: Validator, scope: seq<string>, univ: set<string>, root: TypeRef, refs: seq<TypeRef>, seen: set<string>)
    requires forall ref :: ref in refs ==> Reached(v, root, ref)
    requires Keys(v, scope) <= univ && Covers(v, scope, univ, refs)
    requires SearchAll(v, scope, univ, refs, seen).0
    ensures forall i :: 0 <= i < |refs| ==> Fine(v, scope, refs[i], SearchAll(v, scope, univ, refs, seen).1)
    ensures Settles(v, scope, root, seen, SearchAll(v, scope, univ, refs, seen).1)
    decreases |univ - seen|, 1, |refs|
  {
    hide Keys, LookupQName, Judge, Explored, Search, Reached;
    if refs != [] {
      var mid := Search(v, scope, univ, refs[0], seen).1;
      var done := SearchAll(v, scope, univ, refs, seen).1;
      NoMore(univ, seen, mid);
      YesSettles(v, scope, univ, root, refs[0], seen);
      YesSettlesAll(v, scope, univ, root, refs[1..], mid);
      forall i | 0 <= i < |refs| ensures Fine(v, scope, refs[i], done) {
        if i > 0 { assert refs[i] == refs[1..][i - 1]; }
      }
      forall key | key in done && key !in seen ensures Explored(v, scope, root, key, done) {
        if key in mid { ExploredMore(v, scope, root, key, mid, done); }
      }
    }
  }

  /** Within settled marks a way never leaves what is fine. */
  lemma {:induction false} WayStaysFine(
    v: Validator, scope: seq<string>, root: TypeRef, p: seq<TypeRef>, done: set<string>)
    requires KeysDetermine(v, scope, root) && Settles(v, scope, root, {}, done)
    requires Way(v, p) && Reached(v, root, p[0]) && Fine(v, scope, p[0], done)
    ensures Fine(v, scope, p[|p| - 1], done)
    decreases |p|
  {
    hide LookupQName, Judge, Reached, KeysDetermine;
    if |p| > 1 {
      assert Judge(v, p[0]).Look? && p[0 + 1] in Judge(v, p[0]).fields;
      assert Explored(v, scope, root, LookupQName(v, scope, p[0].name), done);
      FieldsFine(v, scope, root, p[0], p[1], done);
      FieldReached(v, root, p[0], p[1]);
      var q := p[1..];
      assert forall i :: 0 <= i < |q| ==> q[i] == p[i + 1];
      WayStaysFine(v, scope, root, q, done);
    }
  }

  lemma FieldsFine(v: Validator, scope: seq<string>, root: TypeRef, ref: TypeRef, field: TypeRef, done: set<string>)
    requires KeysDetermine(v, scope, root) && Reached(v, root, ref) && Judge(v, ref).Look?
      && field in Judge(v, ref).fields
    requires Explored(v, scope, root, LookupQName(v, scope, ref.name), done)
    ensures Fine(v, scope, field, done)
  {
    hide LookupQName, Fine, Reached, Judge;
    var twin: TypeRef :| Reached(v, root, twin) && Judge(v, twin).Look?
      && LookupQName(v, scope, twin.name) == LookupQName(v, scope, ref.name)
      && forall i :: 0 <= i < |Judge(v, twin).fields| ==> Fine(v, scope, Judge(v, twin).fields[i], done);
    assert Judge(v, twin).fields == Judge(v, ref).fields;
  }

  /** The answer is the greatest fixed point, cyclic declarations included: yes if and only
      if nothing reachable through fields is nullable, of open length, or other than a basic
      type, an enum or an annotated declaration. */
  lemma IsFixedIff(v: Validator, scope: seq<string>, ref: TypeRef)
    requires KeysDetermine(v, scope, ref)
    ensures IsFixed(v, scope, ref) <==> AllReachableFixed(v, ref)
  {
    hide Keys, LookupQName, Judge, Explored, Search, KeysDetermine, Reached;
    var univ := Universe(v, scope, ref);
    if IsFixed(v, scope, ref) {
      var done := Search(v, scope, univ, ref, {}).1;
      RootReached(v, ref);
      YesSettles(v, scope, univ, ref, ref, {});
      forall p | Way(v, p) && p[0] == ref ensures !Judge(v, p[|p| - 1]).Bad? {
        WayStaysFine(v, scope, ref, p, done);
      }
    } else {
      var p := NoMeansWay(v, scope, univ, ref, {});
    }
  }

  // ----- when keys do not determine declarations -----

  /** A declaration that is marked under the key of another one is never looked at: the
      search says yes although `y` has a field of unbounded size. */
  lemma ClashMisleads(v: Validator, scope: seq<string>, a: TypeRef, x: TypeRef, y: TypeRef, bad: TypeRef)
    requires Judge(v, a) == Look([x, y]) && Judge(v, x) == Look([]) && Judge(v, y) == Look([bad]) && Judge(v, bad).Bad?
    requires LookupQName(v, scope, x.name) == LookupQName(v, scope, y.name) != LookupQName(v, scope, a.name)
    ensures IsFixed(v, scope, a) && !AllReachableFixed(v, a)
  {
    hide Keys, LookupQName, Judge;
    var univ := Universe(v, scope, a);
    var ka, kx := LookupQName(v, scope, a.name), LookupQName(v, scope, x.name);
    Covered(v, scope, univ, a);
    assert [x, y][0] == x && [x, y][1] == y && [x, y][1..] == [y] && [y][1..] == [];
    assert Covers(v, scope, univ, [x, y]);
    Covered(v, scope, univ, x);
    assert SearchAll(v, scope, univ, [], {ka, kx}) == (true, {ka, kx});
    assert {} + {ka} == {ka} && {ka} + {kx} == {ka, kx};
    assert Search(v, scope, univ, x, {ka}) == (true, {ka, kx});
    assert Search(v, scope, univ, y, {ka, kx}) == (true, {ka, kx});
    assert SearchAll(v, scope, univ, [y], {ka, kx}).0;
    assert SearchAll(v, scope, univ, [x, y], {ka}).0;
    var p := [a, y, bad];
    assert Way(v, p);
  }

  /** What is collected from a file without a package that declares `A`, then `S` with `n`
      nested in it, then `n`: all annotated, `A` with fields of types `S.n` and `n`, `S` with a
      field of type `A`, the top-level `n` with a string. The bare name `n` is an alias of the
      nested one, which came first. */
  function ClashFile(): Validator {
    var a := Record(true, [TypeRef("S.n", false, false, None), TypeRef("n", false, false, None)]);
    var s := Record(true, [TypeRef("A", false, false, None)]);
    var inner, n := Record(true, []), Record(true, [TypeRef("String", false, false, None)]);
    Validator(
      "",
      map["A" := a, "S" := s, "S.n" := inner, "n" := n],
      map["A" := a, "S" := s, "S.n" := inner, "n" := inner])
  }

  /** Such names exist: the check of the field of `S` takes the top-level `n` for the nested
      one and accepts a type that holds a string. */
  lemma ClashExists()
    ensures var a := TypeRef("A", false, false, None);
            IsFixed(ClashFile(), ["S"], a) && !AllReachableFixed(ClashFile(), a)
  {
    hide ClashFile;
    var v := ClashFile();
    var a, x := TypeRef("A", false, false, None), TypeRef("S.n", false, false, None);
    var y, text := TypeRef("n", false, false, None), TypeRef("String", false, false, None);
    ClashKeys(v);
    ClashVerdicts(a, x, y, text);
    ClashMisleads(v, ["S"], a, x, y, text);
  }

  lemma ClashKeys(v: Validator)
    requires v == ClashFile()
    ensures LookupQName(v, ["S"], "S.n") == "S.n" == LookupQName(v, ["S"], "n") && LookupQName(v, ["S"], "A") == "S.A"
  {
    assert "S.n"[1] == '.';
    assert [] + ["S"] + ["n"] == ["S", "n"] && ["S", "n"][1..] == ["n"];
    assert [] + ["S"] + ["A"] == ["S", "A"] && ["S", "A"][1..] == ["A"];
    assert Join(["n"]) == "n" && Join(["S", "n"]) == "S" + "." + Join(["n"]);
    assert Join(["A"]) == "A" && Join(["S", "A"]) == "S" + "." + Join(["A"]);
  }

  lemma ClashVerdicts(a: TypeRef, x: TypeRef, y: TypeRef, text: TypeRef)
    requires a == TypeRef("A", false, false, None) && x == TypeRef("S.n", false, false, None)
    requires y == TypeRef("n", false, false, None) && text == TypeRef("String", false, false, None)
    ensures Judge(ClashFile(), a) == Look([x, y]) && Judge(ClashFile(), x) == Look([])
    ensures Judge(ClashFile(), y) == Look([text]) && Judge(ClashFile(), text).Bad?
  {
    assert |"A"| == 1 && |"S.n"| == 3 && |"n"| == 1 && |"S"| == 1 && "A"[0] == 'A' && "n"[0] == 'n' && "S"[0] == 'S';
  }
}
