/** Lowering an interface: which transaction code each method gets, and how its arguments
    split into what is sent and what comes back. */
module TransactionCodes {
  import opened Bytes
  import opened Common
  import opened AidlTypes
  import AidlCall

  /** Go's conversion to uint32. */
  function Cast(v: int): uint32 { v % WRAP }

  lemma CastSmall(v: int)
    requires 0 <= v < WRAP
    ensures Cast(v) == v
  {
  }

  /** The code a declaration asks for: none, one that cannot be evaluated, or a value. */
  datatype Wanted = Auto | Invalid | Explicit(value: int64)

  /** `lowers` says whether every type of the method is known; others are dropped. */
  datatype Decl = Decl(wanted: Wanted, lowers: bool)

  datatype Coded = Coded(code: uint32, explicit: bool)

  predicate Fine(d: Decl) { d.wanted.Auto? || (d.wanted.Explicit? && d.wanted.value > 0) }

  /** The code a declaration gets when the counter stands at `tx`; a refused one gets the
      counter's value, and a diagnostic. */
  function CodeOf(d: Decl, tx: uint32): uint32 {
    if d.wanted.Explicit? && d.wanted.value > 0 then Cast(d.wanted.value) else tx
  }

  function NextOf(d: Decl, tx: uint32): uint32 {
    if d.wanted.Explicit? && d.wanted.value > 0 then
      var next := Cast(CodeOf(d, tx) as int + 1);
      if next > tx then next else tx
    else if d.wanted.Auto? && d.lowers then Cast(tx as int + 1)
    else tx
  }

  function Lowered(d: Decl, tx: uint32): seq<Coded> {
    if d.lowers then [Coded(CodeOf(d, tx), !d.wanted.Auto?)] else []
  }

  function Assign(ds: seq<Decl>, tx: uint32): seq<Coded> {
    if ds == [] then [] else Lowered(ds[0], tx) + Assign(ds[1..], NextOf(ds[0], tx))
  }

  function Refused(ds: seq<Decl>): nat {
    if ds == [] then 0 else (if Fine(ds[0]) then 0 else 1) + Refused(ds[1..])
  }

  lemma Done(tx: uint32)
    ensures Assign([], tx) == [] && Refused([]) == 0
  {
  }

  lemma FineIff(d: Decl)
    ensures Fine(d) <==> d.wanted.Auto? || (d.wanted.Explicit? && d.wanted.value > 0)
  {
  }

  lemma OneMore(ds: seq<Decl>, i: nat, tx: uint32)
    requires i < |ds|
    ensures Assign(ds[i..], tx) == Lowered(ds[i], tx) + Assign(ds[i + 1..], NextOf(ds[i], tx))
    ensures Refused(ds[i..]) == (if Fine(ds[i]) then 0 else 1) + Refused(ds[i + 1..])
  {
    hide Lowered, NextOf, Fine;
    assert ds[i..][0] == ds[i] && ds[i..][1..] == ds[i + 1..];
  }

  method AssignCodes(ds: seq<Decl>) returns (methods: seq<Coded>, diags: nat)
    ensures methods == Assign(ds, 1) && diags == Refused(ds)
  {
    hide Cast, Assign, Refused, Fine;
    methods, diags := [], 0;
    assert ds[0..] == ds;
    var txCode: uint32 := 1;
    var i := 0;
    while i < |ds|
      invariant 0 <= i <= |ds|
      invariant Assign(ds, 1) == methods + Assign(ds[i..], txCode)
      invariant Refused(ds) == diags + Refused(ds[i..])
    {
      var d := ds[i];
      OneMore(ds, i, txCode);
      ghost var before, done := txCode, methods;
      var code := txCode;
      if d.wanted != Auto {
        if d.wanted.Invalid? || d.wanted.value <= 0 {
          diags := diags + 1;
        } else {
          code := Cast(d.wanted.value);
          var next := Cast(code as int + 1);
          if next > txCode {
            txCode := next;
          }
        }
      }
      if d.lowers {
        methods := methods + [Coded(code, d.wanted != Auto)];
        if d.wanted == Auto {
          txCode := Cast(txCode as int + 1);
        }
      }
      assert methods == done + Lowered(d, before) && txCode == NextOf(d, before);
      assert done + (Lowered(d, before) + Assign(ds[i + 1..], txCode)) == methods + Assign(ds[i + 1..], txCode);
      assert Fine(d) <==> d.wanted == Auto || (d.wanted.Explicit? && d.wanted.value > 0) by { FineIff(d); }
      i := i + 1;
    }
    assert ds[i..] == [];
    Done(txCode);
  }

  // ----- the codes, read off the declarations -----

  const TOP: uint32 := 0xFFFF_FFFF

  /** No declaration is refused. */
  predicate AllFine(ds: seq<Decl>) { forall i :: 0 <= i < |ds| ==> Fine(ds[i]) }

  predicate Counts(d: Decl) { d.wanted.Auto? && d.lowers }

  /** How many of the declarations from `i` to `j` take their code from the counter. */
  function Counted(ds: seq<Decl>, i: nat, j: nat): nat
    requires i <= j <= |ds|
  {
    if i == j then 0 else Counted(ds, i, j - 1) + Flag(Counts(ds[j - 1]))
  }

  /** Where the counter is set to: one at the start, and one more than an explicit code after
      its declaration. The last code of the range does not set it. */
  function Base(ds: seq<Decl>, i: nat): nat
    requires i <= |ds|
  {
    if i == 0 then 1
    else
      match ds[i - 1].wanted
      case Explicit(v) => if Cast(v) == TOP then 0 else Cast(v) + 1
      case _ => 0
  }

  /** What the counter would be at `j` if it had last been set at `i`. */
  function Reach(ds: seq<Decl>, i: nat, j: nat): nat
    requires i <= j <= |ds|
  {
    Base(ds, i) + Counted(ds, i, j)
  }

  function Farthest(ds: seq<Decl>, i: nat, j: nat): (r: nat)
    requires i <= j <= |ds|
    ensures exists k :: 0 <= k <= i && r == Reach(ds, k, j)
    ensures forall k :: 0 <= k <= i ==> Reach(ds, k, j) <= r
  {
    if i == 0 then Reach(ds, 0, j)
    else
      var rest := Farthest(ds, i - 1, j);
      if Reach(ds, i, j) > rest then Reach(ds, i, j) else rest
  }

  /** The counter before declaration `j`: the largest, over all explicit codes before it, of
      the code after the explicit one plus the methods counted since. */
  function Counter(ds: seq<Decl>, j: nat): (r: nat)
    requires j <= |ds|
    ensures exists k :: 0 <= k <= j && r == Reach(ds, k, j)
    ensures forall k :: 0 <= k <= j ==> Reach(ds, k, j) <= r
  {
    Farthest(ds, j, j)
  }

  /** No declaration counts the last code of the range, after which the counter starts over. */
  predicate NoWrap(ds: seq<Decl>) { forall j :: 0 <= j < |ds| && Counts(ds[j]) ==> Counter(ds, j) < TOP }

  function CodeAt(ds: seq<Decl>, j: nat): nat
    requires j < |ds|
  {
    if ds[j].wanted.Explicit? then Cast(ds[j].wanted.value) else Counter(ds, j)
  }

  lemma CounterStep(ds: seq<Decl>, j: nat)
    requires j < |ds|
    ensures Counter(ds, 0) == 1 <= Counter(ds, j)
    ensures Counter(ds, j + 1) == if Counter(ds, j) + Flag(Counts(ds[j])) >= Base(ds, j + 1)
                                  then Counter(ds, j) + Flag(Counts(ds[j])) else Base(ds, j + 1)
  {
    hide Base, Counter, Counts;
    assert Reach(ds, 0, 0) == 1 by { StartBase(ds); }
    assert Reach(ds, 0, j) >= 1 by { StartBase(ds); }
    var k :| 0 <= k <= j && Counter(ds, j) == Reach(ds, k, j);
    assert Reach(ds, k, j + 1) == Reach(ds, k, j) + Flag(Counts(ds[j]));
    assert Reach(ds, j + 1, j + 1) == Base(ds, j + 1);
    var m :| 0 <= m <= j + 1 && Counter(ds, j + 1) == Reach(ds, m, j + 1);
    if m <= j {
      assert Reach(ds, m, j + 1) == Reach(ds, m, j) + Flag(Counts(ds[j]));
    }
  }

  lemma StartBase(ds: seq<Decl>)
    ensures Base(ds, 0) == 1
  {
  }

  /** Below the end of the range the 32-bit counter steps as the unbounded one does. */
  lemma NextIsCounter(ds: seq<Decl>, j: nat)
    requires j < |ds| && Fine(ds[j]) && Counter(ds, j) <= TOP && (Counts(ds[j]) ==> Counter(ds, j) < TOP)
    ensures NextOf(ds[j], Counter(ds, j)) == Counter(ds, j + 1) <= TOP
    ensures CodeOf(ds[j], Counter(ds, j)) == CodeAt(ds, j)
  {
    hide Counter, Cast;
    CounterStep(ds, j);
    var d, tx := ds[j], Counter(ds, j);
    if Counts(d) {
      CastSmall(tx + 1);
    }
    if d.wanted.Explicit? {
      if Cast(d.wanted.value) == TOP { CastTop(); } else { CastSmall(Cast(d.wanted.value) + 1); }
    }
  }

  lemma CastTop()
    ensures Cast(TOP + 1) == 0
  {
  }

  /** The methods of the first `j` declarations, with the codes read off the declarations. */
  function Codes(ds: seq<Decl>, j: nat): seq<Coded>
    requires j <= |ds| && forall i :: 0 <= i < |ds| ==> CodeAt(ds, i) <= TOP || !ds[i].lowers
  {
    if j == 0 then []
    else Codes(ds, j - 1) + if ds[j - 1].lowers then [Coded(CodeAt(ds, j - 1), !ds[j - 1].wanted.Auto?)] else []
  }

  lemma {:induction false} AssignedSoFar(ds: seq<Decl>, j: nat)
    requires AllFine(ds) && NoWrap(ds) && j <= |ds|
    requires forall i :: 0 <= i < |ds| ==> CodeAt(ds, i) <= TOP || !ds[i].lowers
    ensures Counter(ds, j) <= TOP && Assign(ds, 1) == Codes(ds, j) + Assign(ds[j..], Counter(ds, j))
    decreases j
  {
    hide Assign, Counter, Cast, Fine, NextOf, CodeOf, CodeAt, Counts;
    if j == 0 {
      assert ds[0..] == ds;
      StartCounter(ds);
    } else {
      AssignedSoFar(ds, j - 1);
      NextIsCounter(ds, j - 1);
      OneMore(ds, j - 1, Counter(ds, j - 1));
      var more := Lowered(ds[j - 1], Counter(ds, j - 1));
      assert Codes(ds, j) == Codes(ds, j - 1) + more;
      assert Codes(ds, j - 1) + (more + Assign(ds[j..], Counter(ds, j)))
        == Codes(ds, j) + Assign(ds[j..], Counter(ds, j));
    }
  }

  lemma StartCounter(ds: seq<Decl>)
    ensures Counter(ds, 0) == 1
  {
    assert Reach(ds, 0, 0) == 1;
  }

  lemma {:induction false} CodesFit(ds: seq<Decl>, j: nat)
    requires AllFine(ds) && NoWrap(ds) && j <= |ds|
    ensures Counter(ds, j) <= TOP
    ensures forall i :: 0 <= i < j ==> CodeAt(ds, i) <= TOP
    decreases j
  {
    hide Counter, Fine, Counts, CodeAt;
    if j == 0 {
      StartCounter(ds);
    } else {
      CodesFit(ds, j - 1);
      NextIsCounter(ds, j - 1);
    }
  }

  /** The place of a declaration among the methods. */
  function Rank(ds: seq<Decl>, j: nat): nat
    requires j <= |ds|
  {
    if j == 0 then 0 else Rank(ds, j - 1) + Flag(ds[j - 1].lowers)
  }

  lemma {:induction false} CodesByRank(ds: seq<Decl>, n: nat)
    requires n <= |ds| && forall i :: 0 <= i < |ds| ==> CodeAt(ds, i) <= TOP || !ds[i].lowers
    ensures |Codes(ds, n)| == Rank(ds, n)
    ensures forall j :: 0 <= j < n && ds[j].lowers ==>
      Rank(ds, j) < Rank(ds, n) && Codes(ds, n)[Rank(ds, j)] == Coded(CodeAt(ds, j), !ds[j].wanted.Auto?)
    decreases n
  {
    hide CodeAt;
    if n > 0 {
      CodesByRank(ds, n - 1);
    }
  }

  lemma {:induction false} Ranked(ds: seq<Decl>, n: nat, k: nat) returns (j: nat)
    requires n <= |ds| && k < Rank(ds, n)
    ensures j < n && ds[j].lowers && Rank(ds, j) == k
  {
    if k < Rank(ds, n - 1) {
      j := Ranked(ds, n - 1, k);
    } else {
      j := n - 1;
    }
  }

  lemma {:induction false} RanksRise(ds: seq<Decl>, i: nat, j: nat)
    requires i < j <= |ds|
    ensures Rank(ds, i) + Flag(ds[i].lowers) <= Rank(ds, j)
    decreases j
  {
    if i + 1 < j {
      RanksRise(ds, i, j - 1);
    }
  }

  /** The codes an interface is given, in order, are those read off its declarations. */
  lemma AssignByRank(ds: seq<Decl>)
    requires AllFine(ds) && NoWrap(ds)
    ensures Refused(ds) == 0 && |Assign(ds, 1)| == Rank(ds, |ds|)
    ensures forall j :: 0 <= j < |ds| && ds[j].lowers ==>
      Rank(ds, j) < Rank(ds, |ds|) && CodeAt(ds, j) <= TOP
      && Assign(ds, 1)[Rank(ds, j)] == Coded(CodeAt(ds, j), !ds[j].wanted.Auto?)
  {
    hide Assign, Counter, NoWrap, Fine, CodeAt, Refused, Rank;
    NoneRefused(ds);
    CodesFit(ds, |ds|);
    AssignedSoFar(ds, |ds|);
    assert ds[|ds|..] == [];
    Done(Counter(ds, |ds|));
    CodesByRank(ds, |ds|);
  }

  // ----- codes are distinct -----

  lemma {:induction false} CountedSplit(ds: seq<Decl>, i: nat, j: nat, k: nat)
    requires i <= j <= k <= |ds|
    ensures Counted(ds, i, k) == Counted(ds, i, j) + Counted(ds, j, k)
    decreases k
  {
    if j < k {
      CountedSplit(ds, i, j, k - 1);
    }
  }

  lemma {:induction false} CountedOne(ds: seq<Decl>, i: nat, j: nat)
    requires i < j <= |ds| && Counts(ds[i])
    ensures Counted(ds, i, j) >= 1
    decreases j
  {
    if i + 1 < j {
      CountedOne(ds, i, j - 1);
    }
  }

  /** A counted code is above the code of every earlier method, an explicit last code of the
      range apart. */
  lemma CountedAbove(ds: seq<Decl>, i: nat, j: nat)
    requires AllFine(ds) && i < j < |ds| && ds[i].lowers && ds[j].wanted.Auto?
    ensures CodeAt(ds, i) < CodeAt(ds, j) || (ds[i].wanted.Explicit? && CodeAt(ds, i) == TOP)
  {
    hide Counter, Cast;
    assert Fine(ds[i]);
    if ds[i].wanted.Auto? {
      var k :| 0 <= k <= i && Counter(ds, i) == Reach(ds, k, i);
      CountedSplit(ds, k, i, j);
      CountedOne(ds, i, j);
      assert Reach(ds, k, j) > Reach(ds, k, i);
    } else {
      assert Reach(ds, i + 1, j) >= Base(ds, i + 1);
    }
  }

  ghost predicate Distinct(ms: seq<Coded>) { forall i, j :: 0 <= i < j < |ms| ==> ms[i].code != ms[j].code }

  /** No explicit code repeats the code of an earlier method. */
  ghost predicate NoRepeat(ds: seq<Decl>) {
    forall i, j :: 0 <= i < j < |ds| && ds[i].lowers && ds[j].lowers && ds[j].wanted.Explicit? ==>
      CodeAt(ds, i) != Cast(ds[j].wanted.value)
  }

  lemma RepeatsClash(ds: seq<Decl>)
    requires AllFine(ds) && NoWrap(ds) && Distinct(Assign(ds, 1))
    ensures NoRepeat(ds)
  {
    hide Assign, Counter, NoWrap, Rank, Cast;
    AssignByRank(ds);
    forall i, j | 0 <= i < j < |ds| && ds[i].lowers && ds[j].lowers && ds[j].wanted.Explicit?
      ensures CodeAt(ds, i) != Cast(ds[j].wanted.value)
    {
      RanksRise(ds, i, j);
      assert Assign(ds, 1)[Rank(ds, i)].code != Assign(ds, 1)[Rank(ds, j)].code;
    }
  }

  lemma ApartByCode(ds: seq<Decl>, i: nat, j: nat)
    requires AllFine(ds) && NoWrap(ds) && NoRepeat(ds) && i < j < |ds| && ds[i].lowers && ds[j].lowers
    ensures CodeAt(ds, i) != CodeAt(ds, j)
  {
    assert Fine(ds[j]);
    if ds[j].wanted.Auto? {
      CountedAbove(ds, i, j);
    }
  }

  lemma RankOrder(ds: seq<Decl>, i: nat, j: nat)
    requires i < |ds| && j < |ds| && ds[j].lowers && Rank(ds, i) < Rank(ds, j)
    ensures i < j
  {
    if j < i {
      RanksRise(ds, j, i);
    }
  }

  /** The codes of an interface are distinct if and only if no explicit code repeats the code
      of an earlier method. Counted codes never clash before the counter has given the last
      code of the range. Both the proviso and the condition speak of the declarations. */
  lemma DistinctIff(ds: seq<Decl>)
    requires AllFine(ds) && NoWrap(ds)
    ensures Distinct(Assign(ds, 1)) <==> NoRepeat(ds)
  {
    hide Assign, CodeAt, Rank, NoRepeat, NoWrap, AllFine;
    if Distinct(Assign(ds, 1)) {
      RepeatsClash(ds);
    }
    if NoRepeat(ds) {
      AssignByRank(ds);
      var ms := Assign(ds, 1);
      forall x, y | 0 <= x < y < |ms| ensures ms[x].code != ms[y].code {
        var i := Ranked(ds, |ds|, x);
        var j := Ranked(ds, |ds|, y);
        RankOrder(ds, i, j);
        ApartByCode(ds, i, j);
      }
    }
  }

  lemma {:induction false} NoneRefused(ds: seq<Decl>)
    requires forall i :: 0 <= i < |ds| ==> Fine(ds[i])
    ensures Refused(ds) == 0
  {
    if ds != [] {
      NoneRefused(ds[1..]);
    }
  }

  /** Distinct codes are what the handler's switch needs to find the method that was
      called. */
  lemma {:induction false} CodesSelect(ms: seq<AidlCall.Method>, codes: seq<Coded>, i: nat)
    requires |ms| == |codes| && Distinct(codes) && i < |ms|
    requires forall k :: 0 <= k < |ms| ==> ms[k].code == codes[k].code
    ensures AidlCall.Find(ms, ms[i].code) == Some(i)
  {
    var found := AidlCall.Find(ms, ms[i].code).value;
    assert codes[found].code == codes[i].code;
  }

  /** Near the end of the range the counter starts over and repeats a code. */
  lemma CounterWraps(d: Decl, last: Decl)
    requires d == Decl(Auto, true) && last == Decl(Explicit(0xFFFF_FFFE), true)
    ensures Assign([d, last, d, d, d], 1)
         == [Coded(1, false), Coded(0xFFFF_FFFE, true), Coded(0xFFFF_FFFF, false), Coded(0, false), Coded(1, false)]
  {
    Unfold(d, [last, d, d, d], 1);
    Unfold(last, [d, d, d], 2);
    Unfold(d, [d, d], 0xFFFF_FFFF);
    Unfold(d, [d], 0);
    Unfold(d, [], 1);
  }

  lemma Unfold(d: Decl, rest: seq<Decl>, tx: uint32)
    ensures Assign([d] + rest, tx) == Lowered(d, tx) + Assign(rest, NextOf(d, tx))
  {
    assert ([d] + rest)[1..] == rest;
  }

  // ----- arguments -----

  datatype Direction = In | Out | InOut

  datatype Arg = Arg(direction: Direction, typ: Type)

  /** How many of the first `n` arguments are sent. */
  function SentBefore(args: seq<Arg>, n: nat): nat
    requires n <= |args|
  {
    if n == 0 then 0 else SentBefore(args, n - 1) + Flag(args[n - 1].direction != Out)
  }

  /** How many of the first `n` arguments come back. */
  function BackBefore(args: seq<Arg>, n: nat): nat
    requires n <= |args|
  {
    if n == 0 then 0 else BackBefore(args, n - 1) + Flag(args[n - 1].direction != In)
  }

  /** Each of the first `n` arguments that is sent is at its place, and nothing else is. */
  predicate SentInOrder(args: seq<Arg>, n: nat, inputs: seq<Type>)
    requires n <= |args|
  {
    |inputs| == SentBefore(args, n)
    && forall i :: 0 <= i < n && args[i].direction != Out ==>
         SentBefore(args, i) < |inputs| && inputs[SentBefore(args, i)] == args[i].typ
  }

  predicate BackInOrder(args: seq<Arg>, n: nat, outputs: seq<Type>)
    requires n <= |args|
  {
    |outputs| == BackBefore(args, n)
    && forall i :: 0 <= i < n && args[i].direction != In ==>
         BackBefore(args, i) < |outputs| && outputs[BackBefore(args, i)] == args[i].typ
  }

  lemma MoreSent(args: seq<Arg>, n: nat, inputs: seq<Type>)
    requires n < |args| && SentInOrder(args, n, inputs)
    ensures SentInOrder(args, n + 1, if args[n].direction == Out then inputs else inputs + [args[n].typ])
  {
  }

  lemma MoreBack(args: seq<Arg>, n: nat, outputs: seq<Type>)
    requires n < |args| && BackInOrder(args, n, outputs)
    ensures BackInOrder(args, n + 1, if args[n].direction == In then outputs else outputs + [args[n].typ])
  {
  }

  /** Each argument is at its place among those that are sent, and among those that come
      back, and there are no others: an inout argument is in both. */
  method SplitArgs(args: seq<Arg>) returns (inputs: seq<Type>, outputs: seq<Type>)
    ensures SentInOrder(args, |args|, inputs) && BackInOrder(args, |args|, outputs)
  {
    hide SentInOrder, BackInOrder;
    NoArgs(args);
    inputs, outputs := [], [];
    var n := 0;
    while n < |args|
      invariant 0 <= n <= |args|
      invariant SentInOrder(args, n, inputs) && BackInOrder(args, n, outputs)
    {
      var arg := args[n];
      MoreSent(args, n, inputs);
      MoreBack(args, n, outputs);
      match arg.direction {
        case Out => outputs := outputs + [arg.typ];
        case InOut => inputs, outputs := inputs + [arg.typ], outputs + [arg.typ];
        case In => inputs := inputs + [arg.typ];
      }
      n := n + 1;
    }
  }

  lemma NoArgs(args: seq<Arg>)
    ensures SentInOrder(args, 0, []) && BackInOrder(args, 0, [])
  {
  }

  predicate ComesBack(args: seq<Arg>) { exists i :: 0 <= i < |args| && args[i].direction != In }

  lemma {:induction false} BackIff(args: seq<Arg>, n: nat)
    requires n <= |args|
    ensures BackBefore(args, n) == 0 <==> forall i :: 0 <= i < n ==> args[i].direction == In
  {
    if n > 0 {
      BackIff(args, n - 1);
    }
  }

  /** A method whose types are all known. In the reply every argument that comes back follows
      the returned value, if any, in the order of the declaration. A oneway method that would
      get a reply draws a diagnostic for each reason. */
  method LowerMethod(code: uint32, oneway: bool, ret: Option<Type>, args: seq<Arg>)
    returns (m: AidlCall.Method, diags: nat)
    ensures m.code == code && m.oneway == oneway
    ensures SentInOrder(args, |args|, m.inputs)
    ensures |AidlCall.Replies(m)| == Flag(ret.Some?) + BackBefore(args, |args|)
    ensures ret.Some? ==> AidlCall.Replies(m)[0] == ret.value
    ensures forall i :: 0 <= i < |args| && args[i].direction != In ==>
      var place := Flag(ret.Some?) + BackBefore(args, i);
      place < |AidlCall.Replies(m)| && AidlCall.Replies(m)[place] == args[i].typ
    ensures diags == Flag(oneway && ret.Some?) + Flag(oneway && ComesBack(args))
    ensures oneway && diags == 0 <==> oneway && AidlCall.Replies(m) == []
  {
    var inputs, outputs := SplitArgs(args);
    m, diags := AidlCall.Method(code, oneway, inputs, ret, outputs), 0;
    if m.oneway {
      if m.ret.Some? {
        diags := diags + 1;
      }
      if |m.outputs| != 0 {
        diags := diags + 1;
      }
    }
    BackIff(args, |args|);
  }
}
