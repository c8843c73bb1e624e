/** Running the command automaton (ExpressionInterpreter.cpp): the state after
    a word sequence is an exact list of all ways to consume it, and a command
    is executed exactly when its words determine one node to execute. */
module Recognition {
  import opened WlList
  import opened Expression

  // ---------- one word ----------

  /** From `s` the word takes us to the descendant `t`: `t` matches it and only
      whole groups lie in between. */
  ghost predicate Consumes(st: Store, s: nat, t: nat, word: string)
    requires Valid(st)
  {
    t < |st| && t != s && Above(st, s, t) && Matches(st[t].name, word) && WholeGroups(Between(st, s, t))
  }

  /** Names strictly between `s` and its descendant `t`. */
  function Between(st: Store, s: nat, t: nat): seq<string>
    requires Valid(st) && t < |st| && Above(st, s, t) && t != s
  {
    var d := Way(st, s, t);
    d[1..]
  }

  lemma NextSpec(st: Store, n: nat, word: string)
    requires Valid(st) && n < |st|
    ensures forall t: nat :: t in NextClosure(st, n, word) <==> Consumes(st, n, t, word)
    ensures NoDup(NextClosure(st, n, word))
  {
    ClosureBounded(st, n, st[n].next, false);
    ClosureAllSpec(st, n, st[n].next, false);
    SelectSpec(st, ClosureAll(st, n, st[n].next, false), word);
    forall t: nat ensures t in NextClosure(st, n, word) <==> Consumes(st, n, t, word) {
      if t < |st| && t != n && Above(st, n, t) {
        var d := ChildTowards(st, n, t);
        ChildAbove(st, n, d, t);
        assert Between(st, n, t) == Way(st, d, t);
        SkipsIsWholeGroups(Way(st, d, t));
        if t in ClosureAll(st, n, st[n].next, false) {
          var e :| e in st[n].next && Reaches(st, e, t, false);
          OneChild(st, n, d, e, t);
        }
      } else if t in ClosureAll(st, n, st[n].next, false) {
        var e :| e in st[n].next && Reaches(st, e, t, false);
        ChildAbove(st, n, e, t);
      }
    }
  }

  // ---------- word sequences ----------

  /** A way to consume words one by one: the nodes that do, starting below the
      root. */
  datatype Run = Start | Then(before: Run, node: nat)

  function LastNode(run: Run): nat {
    if run.Start? then 0 else run.node
  }

  ghost predicate IsRun(st: Store, words: seq<string>, run: Run)
    requires Valid(st)
    decreases |words|
  {
    match run
    case Start => words == []
    case Then(before, t) =>
      words != [] && IsRun(st, words[..|words| - 1], before) && Consumes(st, LastNode(before), t, words[|words| - 1])
  }

  function Extend(run: Run, ts: seq<nat>): (r: seq<Run>)
    ensures |r| == |ts| && forall i :: 0 <= i < |ts| ==> r[i] == Then(run, ts[i])
  {
    seq(|ts|, i requires 0 <= i < |ts| => Then(run, ts[i]))
  }

  function ExtendAll(st: Store, runs: seq<Run>, word: string): (r: seq<Run>)
    requires Valid(st) && forall i :: 0 <= i < |runs| ==> LastNode(runs[i]) < |st|
    ensures forall i :: 0 <= i < |r| ==> LastNode(r[i]) < |st|
  {
    if runs == [] then []
    else
      NextBounded(st, LastNode(runs[0]), word);
      Extend(runs[0], NextClosure(st, LastNode(runs[0]), word)) + ExtendAll(st, runs[1..], word)
  }

  /** The runs behind `currentState`, in the same order. */
  function Runs(st: Store, words: seq<string>): (r: seq<Run>)
    requires Valid(st)
    ensures forall i :: 0 <= i < |r| ==> LastNode(r[i]) < |st|
  {
    if words == [] then [Start] else ExtendAll(st, Runs(st, words[..|words| - 1]), words[|words| - 1])
  }

  function Lasts(runs: seq<Run>): (r: seq<nat>)
    ensures |r| == |runs| && forall i :: 0 <= i < |runs| ==> r[i] == LastNode(runs[i])
  {
    seq(|runs|, i requires 0 <= i < |runs| => LastNode(runs[i]))
  }

  lemma LastsAppend(a: seq<Run>, b: seq<Run>)
    ensures Lasts(a + b) == Lasts(a) + Lasts(b)
  {
  }

  lemma {:induction false} ExtendAllLasts(st: Store, runs: seq<Run>, word: string)
    requires Valid(st) && forall i :: 0 <= i < |runs| ==> LastNode(runs[i]) < |st|
    ensures Lasts(ExtendAll(st, runs, word)) == NextAll(st, Lasts(runs), word)
  {
    if runs != [] {
      ExtendAllLasts(st, runs[1..], word);
      NextBounded(st, LastNode(runs[0]), word);
      var ts := NextClosure(st, LastNode(runs[0]), word);
      assert Lasts(runs)[1..] == Lasts(runs[1..]);
      assert Lasts(Extend(runs[0], ts)) == ts;
      LastsAppend(Extend(runs[0], ts), ExtendAll(st, runs[1..], word));
    }
  }

  lemma {:induction false} CurrentIsLasts(st: Store, words: seq<string>)
    requires Valid(st)
    ensures Current(st, words) == Lasts(Runs(st, words))
  {
    if words == [] {
      assert Lasts([Start]) == [0];
    } else {
      CurrentIsLasts(st, words[..|words| - 1]);
      ExtendAllLasts(st, Runs(st, words[..|words| - 1]), words[|words| - 1]);
    }
  }

  lemma ExtendSpec(run: Run, ts: seq<nat>)
    requires NoDup(ts)
    ensures NoDup(Extend(run, ts))
    ensures forall r :: r in Extend(run, ts) <==> r.Then? && r.before == run && r.node in ts
  {
    forall r: Run | r.Then? && r.before == run && r.node in ts ensures r in Extend(run, ts) {
      var i :| 0 <= i < |ts| && ts[i] == r.node;
      assert Extend(run, ts)[i] == r;
    }
  }

  lemma {:induction false} ExtendAllSpec(st: Store, runs: seq<Run>, word: string)
    requires Valid(st) && NoDup(runs) && forall i :: 0 <= i < |runs| ==> LastNode(runs[i]) < |st|
    ensures forall r :: r in ExtendAll(st, runs, word) <==>
              r.Then? && r.before in runs && Consumes(st, LastNode(r.before), r.node, word)
    ensures NoDup(ExtendAll(st, runs, word))
  {
    if runs != [] {
      var run, rest := runs[0], runs[1..];
      var ts := NextClosure(st, LastNode(run), word);
      NextSpec(st, LastNode(run), word);
      ExtendSpec(run, ts);
      ExtendAllSpec(st, rest, word);
      assert runs == [run] + rest && run !in rest;
      NoDupConcat(Extend(run, ts), ExtendAll(st, rest, word));
    }
  }

  /** The runs are listed completely and without repetition. */
  lemma {:induction false} RunsSpec(st: Store, words: seq<string>)
    requires Valid(st)
    ensures NoDup(Runs(st, words)) && forall r :: r in Runs(st, words) <==> IsRun(st, words, r)
  {
    if words != [] {
      RunsSpec(st, words[..|words| - 1]);
      ExtendAllSpec(st, Runs(st, words[..|words| - 1]), words[|words| - 1]);
    }
  }

  /** The runs of the list that end in `n`. */
  ghost function Ending(runs: seq<Run>, n: nat): set<Run> {
    set r | r in runs && LastNode(r) == n
  }

  lemma EndingStep(run: Run, rest: seq<Run>, n: nat)
    requires run !in rest
    ensures |Ending([run] + rest, n)| == |Ending(rest, n)| + if LastNode(run) == n then 1 else 0
  {
    assert Ending([run] + rest, n) == Ending(rest, n) + if LastNode(run) == n then {run} else {};
  }

  lemma {:induction false} CountRuns(runs: seq<Run>, n: nat)
    requires NoDup(runs)
    ensures |Ending(runs, n)| == multiset(Lasts(runs))[n]
  {
    if runs != [] {
      var rest := runs[1..];
      assert runs == [runs[0]] + rest && runs[0] !in rest;
      CountRuns(rest, n);
      EndingStep(runs[0], rest, n);
      assert Lasts(runs) == [LastNode(runs[0])] + Lasts(rest);
    }
  }

  /** Counting theorem: in the state after `words`, node `n` occurs once for
      every way to consume the words that ends in `n`. */
  lemma Counting(st: Store, words: seq<string>, n: nat) returns (ways: set<Run>)
    requires Valid(st)
    ensures forall r :: r in ways <==> IsRun(st, words, r) && LastNode(r) == n
    ensures multiset(Current(st, words))[n] == |ways|
  {
    RunsSpec(st, words);
    CurrentIsLasts(st, words);
    CountRuns(Runs(st, words), n);
    ways := Ending(Runs(st, words), n);
  }

  // ---------- what to execute ----------

  /** The list without non-executable nodes and repetitions. */
  function Executables(st: Store, cands: seq<nat>): seq<nat>
    requires forall i :: 0 <= i < |cands| ==> cands[i] < |st|
  {
    if cands == [] then []
    else
      var d := Executables(st, cands[..|cands| - 1]);
      var e := cands[|cands| - 1];
      if e !in d && st[e].func.Some? then d + [e] else d
  }

  /** Expression::getClosureExecutables. */
  function ExecClosure(st: Store, n: nat, canBypass: bool): (r: seq<nat>)
    requires Valid(st) && n < |st|
    ensures forall i :: 0 <= i < |r| ==> r[i] < |st|
    decreases |st| - n, if canBypass then 2 else 1, 0
  {
    var cands := if canBypass
                 then (if Closes(st[n].name) then ExecClosure(st, n, false) else ExecAll(st, n, st[n].next, false))
                 else [n] + ExecAll(st, n, st[n].next, true);
    ExecutablesSpec(st, cands);
    Executables(st, cands)
  }

  /** The children's contributions; `opening` restricts them to group starts. */
  function ExecAll(st: Store, p: nat, kids: seq<nat>, opening: bool): (r: seq<nat>)
    requires Valid(st) && p < |st| && forall i :: 0 <= i < |kids| ==> p < kids[i] < |st|
    ensures forall i :: 0 <= i < |r| ==> r[i] < |st|
    decreases |st| - p, 0, |kids|
  {
    if kids == [] then []
    else
      (if opening && !Opens(st[kids[0]].name) then [] else ExecClosure(st, kids[0], true))
      + ExecAll(st, p, kids[1..], opening)
  }

  lemma {:induction false} ExecutablesSpec(st: Store, cands: seq<nat>)
    requires forall i :: 0 <= i < |cands| ==> cands[i] < |st|
    ensures forall e: nat :: e in Executables(st, cands) <==> e in cands && st[e].func.Some?
    ensures NoDup(Executables(st, cands))
    ensures forall i :: 0 <= i < |Executables(st, cands)| ==> Executables(st, cands)[i] < |st|
  {
    if cands != [] {
      assert cands == cands[..|cands| - 1] + [cands[|cands| - 1]];
      ExecutablesSpec(st, cands[..|cands| - 1]);
    }
  }

  /** Names from `n` to `e`, both included. */
  function Full(st: Store, n: nat, e: nat): seq<string>
    requires Valid(st) && e < |st| && Above(st, n, e)
  {
    Way(st, n, e) + [st[e].name]
  }

  /** `e` is executable and completes a command that ended in `n`: only whole
      groups follow `n` up to and including `e`. */
  ghost predicate Completes(st: Store, n: nat, e: nat)
    requires Valid(st)
  {
    e < |st| && st[e].func.Some? && Above(st, n, e) && WholeGroups(Full(st, n, e)[1..])
  }

  predicate Offers(st: Store, n: nat, e: nat, canBypass: bool)
    requires Valid(st)
  {
    e < |st| && st[e].func.Some? && Above(st, n, e)
    && if canBypass then Skips(Full(st, n, e), true) else Skips(Full(st, n, e)[1..], false)
  }

  lemma FullChild(st: Store, n: nat, d: nat, e: nat)
    requires Valid(st) && n < |st| && e < |st| && d in st[n].next && Above(st, d, e)
    ensures Above(st, n, e) && e != n && Full(st, n, e)[1..] == Full(st, d, e)
    ensures Full(st, n, e)[0] == st[n].name && Full(st, d, e)[0] == st[d].name
  {
    ChildAbove(st, n, d, e);
    FullHead(st, d, e);
  }

  lemma FullHead(st: Store, n: nat, e: nat)
    requires Valid(st) && n < |st| && e < |st| && Above(st, n, e)
    ensures Full(st, n, e)[0] == st[n].name
  {
    if e != n {
      var d := ChildTowards(st, n, e);
      ChildAbove(st, n, d, e);
    }
  }

  /** A closing node offers the same entered from its group and consumed. */
  lemma OffersClosed(st: Store, n: nat, e: nat)
    requires Valid(st) && n < |st| && Closes(st[n].name)
    ensures Offers(st, n, e, true) == Offers(st, n, e, false)
  {
    if e < |st| && Above(st, n, e) {
      FullHead(st, n, e);
    }
  }

  /** Inside a group every child carries on. */
  lemma OffersInside(st: Store, n: nat, e: nat)
    requires Valid(st) && n < |st| && !Closes(st[n].name)
    ensures Offers(st, n, e, true) <==> exists d :: d in st[n].next && Offers(st, d, e, true)
  {
    if e == n {
      assert Full(st, n, e) == [st[n].name] && Full(st, n, e)[1..] == [];
      assert !Skips([], true) && !Offers(st, n, e, true);
    } else if Offers(st, n, e, true) {
      var d := ChildTowards(st, n, e);
      FullChild(st, n, d, e);
    }
    forall d | d in st[n].next && Offers(st, d, e, true) ensures Offers(st, n, e, true) {
      FullChild(st, n, d, e);
    }
  }

  /** After a consumed node only group starts carry on. */
  lemma OffersAfter(st: Store, n: nat, e: nat)
    requires Valid(st) && n < |st|
    ensures Offers(st, n, e, false) <==>
              (e == n && st[e].func.Some?) || exists d :: d in st[n].next && Opens(st[d].name) && Offers(st, d, e, true)
  {
    if e == n {
      assert Full(st, n, e) == [st[n].name] && Full(st, n, e)[1..] == [];
    } else if Offers(st, n, e, false) {
      var d := ChildTowards(st, n, e);
      FullChild(st, n, d, e);
    }
    forall d | d in st[n].next && Opens(st[d].name) && Offers(st, d, e, true) ensures Offers(st, n, e, false) {
      FullChild(st, n, d, e);
    }
  }

  lemma {:induction false} ExecClosureSpec(st: Store, n: nat, canBypass: bool)
    requires Valid(st) && n < |st|
    ensures forall e: nat :: e in ExecClosure(st, n, canBypass) <==> Offers(st, n, e, canBypass)
    ensures NoDup(ExecClosure(st, n, canBypass))
    decreases |st| - n, if canBypass then 2 else 1, 0
  {
    var cands := if canBypass
                 then (if Closes(st[n].name) then ExecClosure(st, n, false) else ExecAll(st, n, st[n].next, false))
                 else [n] + ExecAll(st, n, st[n].next, true);
    ExecutablesSpec(st, cands);
    if canBypass && Closes(st[n].name) {
      ExecClosureSpec(st, n, false);
      forall e: nat ensures e in cands && st[e].func.Some? <==> Offers(st, n, e, true) {
        OffersClosed(st, n, e);
      }
    } else if canBypass {
      ExecAllSpec(st, n, st[n].next, false);
      forall e: nat ensures e in cands && st[e].func.Some? <==> Offers(st, n, e, true) {
        OffersInside(st, n, e);
      }
    } else {
      ExecAllSpec(st, n, st[n].next, true);
      forall e: nat ensures e in cands && st[e].func.Some? <==> Offers(st, n, e, false) {
        OffersAfter(st, n, e);
      }
    }
  }

  lemma {:induction false} ExecAllSpec(st: Store, p: nat, kids: seq<nat>, opening: bool)
    requires Valid(st) && p < |st| && forall i :: 0 <= i < |kids| ==> kids[i] in st[p].next
    ensures forall e: nat :: e in ExecAll(st, p, kids, opening) <==>
              exists d :: d in kids && (opening ==> Opens(st[d].name)) && Offers(st, d, e, true)
    decreases |st| - p, 0, |kids|
  {
    if kids != [] {
      assert kids == [kids[0]] + kids[1..];
      ExecClosureSpec(st, kids[0], true);
      ExecAllSpec(st, p, kids[1..], opening);
    }
  }

  // ---------- interpretCommand ----------

  datatype CommandResult = Executed(node: nat) | Invalid | Incomplete | Failed

  /** States that survive the last filter: executable, a leaf, or followed by an
      optional group. */
  predicate Possible(st: Store, n: nat)
    requires Valid(st) && n < |st|
  {
    st[n].func.Some? || st[n].next == [] || exists i :: 0 <= i < |st[n].next| && Opens(st[st[n].next[i]].name)
  }

  function Survivors(st: Store, ns: seq<nat>): (r: seq<nat>)
    requires Valid(st) && forall i :: 0 <= i < |ns| ==> ns[i] < |st|
    ensures forall i :: 0 <= i < |r| ==> r[i] < |st|
  {
    if ns == [] then [] else (if Possible(st, ns[0]) then [ns[0]] else []) + Survivors(st, ns[1..])
  }

  function Interpret(st: Store, words: seq<string>): CommandResult
    requires Valid(st)
  {
    var final := Survivors(st, Current(st, words));
    if |final| != 1 then Invalid
    else
      var ex := ExecClosure(st, final[0], false);
      if |ex| == 1 then Executed(ex[0]) else Incomplete
  }

  function PossibleRuns(st: Store, runs: seq<Run>): seq<Run>
    requires Valid(st) && forall i :: 0 <= i < |runs| ==> LastNode(runs[i]) < |st|
  {
    if runs == [] then []
    else (if Possible(st, LastNode(runs[0])) then [runs[0]] else []) + PossibleRuns(st, runs[1..])
  }

  lemma {:induction false} PossibleRunsLasts(st: Store, runs: seq<Run>)
    requires Valid(st) && forall i :: 0 <= i < |runs| ==> LastNode(runs[i]) < |st|
    ensures Survivors(st, Lasts(runs)) == Lasts(PossibleRuns(st, runs))
  {
    if runs != [] {
      PossibleRunsLasts(st, runs[1..]);
      assert Lasts(runs)[1..] == Lasts(runs[1..]);
      var head := if Possible(st, LastNode(runs[0])) then [runs[0]] else [];
      LastsAppend(head, PossibleRuns(st, runs[1..]));
    }
  }

  lemma {:induction false} PossibleRunsSpec(st: Store, runs: seq<Run>)
    requires Valid(st) && NoDup(runs) && forall i :: 0 <= i < |runs| ==> LastNode(runs[i]) < |st|
    ensures NoDup(PossibleRuns(st, runs))
    ensures forall r :: r in PossibleRuns(st, runs) <==> r in runs && Possible(st, LastNode(r))
  {
    if runs != [] {
      var rest := runs[1..];
      assert runs == [runs[0]] + rest && runs[0] !in rest;
      PossibleRunsSpec(st, rest);
      if Possible(st, LastNode(runs[0])) {
        NoDupCons(runs[0], PossibleRuns(st, rest));
      }
    }
  }

  lemma {:induction false} Singleton<T>(s: seq<T>, x: T)
    requires NoDup(s)
    ensures s == [x] <==> forall y :: y in s <==> y == x
  {
    if forall y :: y in s <==> y == x {
      assert x in s;
      if |s| > 1 {
        assert s[0] in s && s[1] in s;
      }
    }
  }

  lemma RunsInStore(st: Store, words: seq<string>, run: Run)
    requires Valid(st) && IsRun(st, words, run)
    ensures LastNode(run) < |st|
  {
    RunsSpec(st, words);
    var i :| 0 <= i < |Runs(st, words)| && Runs(st, words)[i] == run;
  }

  /** `e`, and nothing else, completes a command that ended in `n`. */
  ghost predicate CompletedBy(st: Store, n: nat, e: nat)
    requires Valid(st)
  {
    forall x: nat :: Completes(st, n, x) <==> x == e
  }

  /** A dead end: no callback here, something below, and no group begins. */
  ghost predicate DeadEnd(st: Store, n: nat) {
    && n < |st| && st[n].func.None?
    && (exists c: nat :: 0 < c < |st| && st[c].parent == n)
    && (forall c: nat :: 0 < c < |st| && st[c].parent == n ==> !Opens(st[c].name))
  }

  /** The filter of the code drops exactly the dead ends. */
  lemma PossibleIff(st: Store, n: nat)
    requires Valid(st) && n < |st|
    ensures Possible(st, n) <==> !DeadEnd(st, n)
  {
    forall c: nat | 0 < c < |st| ensures st[c].parent == n <==> c in st[n].next {
      assert LinkedUp(st, c);
    }
    if st[n].next != [] {
      assert st[n].next[0] in st[n].next;
    }
  }

  /** `run` consumes the words, does not end in a dead end, and all others do. */
  ghost predicate OnlyLive(st: Store, words: seq<string>, run: Run)
    requires Valid(st)
  {
    IsRun(st, words, run) && !DeadEnd(st, LastNode(run))
    && forall r :: IsRun(st, words, r) && r != run ==> DeadEnd(st, LastNode(r))
  }

  lemma OnlyLiveSpec(st: Store, words: seq<string>, run: Run)
    requires Valid(st)
    ensures OnlyLive(st, words, run) <==> PossibleRuns(st, Runs(st, words)) == [run]
  {
    var ps := PossibleRuns(st, Runs(st, words));
    RunsSpec(st, words);
    PossibleRunsSpec(st, Runs(st, words));
    forall r ensures r in ps <==> IsRun(st, words, r) && !DeadEnd(st, LastNode(r)) {
      if IsRun(st, words, r) {
        RunsInStore(st, words, r);
        PossibleIff(st, LastNode(r));
      }
    }
    Singleton(ps, run);
  }

  /** What can be completed is no dead end. */
  lemma CompletedLives(st: Store, n: nat, e: nat)
    requires Valid(st) && n < |st| && Completes(st, n, e)
    ensures !DeadEnd(st, n)
  {
    if e != n {
      var d := ChildTowards(st, n, e);
      FullChild(st, n, d, e);
      SkipsIsWholeGroups(Full(st, n, e)[1..]);
      assert Opens(st[d].name) && LinkedUp(st, d);
    }
  }

  /** The result in terms of the one run that survives. */
  lemma ResultOf(st: Store, words: seq<string>, run: Run)
    requires Valid(st) && OnlyLive(st, words, run)
    ensures LastNode(run) < |st|
    ensures var ex := ExecClosure(st, LastNode(run), false);
            Interpret(st, words) == if |ex| == 1 then Executed(ex[0]) else Incomplete
  {
    RunsInStore(st, words, run);
    OnlyLiveSpec(st, words, run);
    CurrentIsLasts(st, words);
    PossibleRunsLasts(st, Runs(st, words));
    assert Survivors(st, Current(st, words)) == Lasts([run]);
  }

  /** A command is invalid if and only if not exactly one way to consume its words
      avoids the dead ends. */
  lemma InvalidIff(st: Store, words: seq<string>)
    requires Valid(st)
    ensures Interpret(st, words) == Invalid <==> !exists run :: OnlyLive(st, words, run)
  {
    var ps := PossibleRuns(st, Runs(st, words));
    CurrentIsLasts(st, words);
    PossibleRunsLasts(st, Runs(st, words));
    assert Survivors(st, Current(st, words)) == Lasts(ps);
    if |ps| == 1 {
      assert ps == [ps[0]];
      OnlyLiveSpec(st, words, ps[0]);
    }
    forall run | OnlyLive(st, words, run) ensures |ps| == 1 {
      OnlyLiveSpec(st, words, run);
    }
  }

  /** What is executed. A command runs node `e` if and only if its words can be
      consumed so that `e` is the one executable node to complete them, and all
      other ways to consume them end in dead ends. */
  lemma InterpretSpec(st: Store, words: seq<string>, e: nat)
    requires Valid(st)
    ensures Interpret(st, words) == Executed(e) <==>
            exists run ::
              && IsRun(st, words, run) && CompletedBy(st, LastNode(run), e)
              && forall r :: IsRun(st, words, r) && r != run ==> DeadEnd(st, LastNode(r))
  {
    if Interpret(st, words) == Executed(e) {
      InvalidIff(st, words);
      var run :| OnlyLive(st, words, run);
      ResultOf(st, words, run);
      CompletesSpec(st, LastNode(run), e);
    }
    forall run | IsRun(st, words, run) && CompletedBy(st, LastNode(run), e)
                 && forall r :: IsRun(st, words, r) && r != run ==> DeadEnd(st, LastNode(r))
      ensures Interpret(st, words) == Executed(e)
    {
      RunsInStore(st, words, run);
      assert Completes(st, LastNode(run), e);
      CompletedLives(st, LastNode(run), e);
      ResultOf(st, words, run);
      CompletesSpec(st, LastNode(run), e);
    }
  }

  /** A command is incomplete if and only if one way to consume its words avoids the
      dead ends, and nothing or more than one node completes it. */
  lemma IncompleteIff(st: Store, words: seq<string>)
    requires Valid(st)
    ensures Interpret(st, words) == Incomplete <==>
            exists run :: OnlyLive(st, words, run)
                          && !exists e: nat :: CompletedBy(st, LastNode(run), e)
  {
    InvalidIff(st, words);
    forall run | OnlyLive(st, words, run)
      ensures Interpret(st, words) == Incomplete
              <==> !exists e: nat :: CompletedBy(st, LastNode(run), e)
    {
      ResultOf(st, words, run);
      OneCompletion(st, LastNode(run));
    }
  }

  lemma OneCompletion(st: Store, n: nat)
    requires Valid(st) && n < |st|
    ensures |ExecClosure(st, n, false)| == 1 <==> exists e: nat :: CompletedBy(st, n, e)
  {
    var ex := ExecClosure(st, n, false);
    if |ex| == 1 {
      assert ex == [ex[0]];
      CompletesSpec(st, n, ex[0]);
    }
    forall e: nat | CompletedBy(st, n, e) ensures |ex| == 1 {
      CompletesSpec(st, n, e);
    }
  }

  lemma CompletesSpec(st: Store, n: nat, e: nat)
    requires Valid(st) && n < |st|
    ensures ExecClosure(st, n, false) == [e] <==> CompletedBy(st, n, e)
  {
    ExecClosureSpec(st, n, false);
    forall x: nat ensures Offers(st, n, x, false) <==> Completes(st, n, x) {
      if x < |st| && Above(st, n, x) {
        SkipsIsWholeGroups(Full(st, n, x)[1..]);
      }
    }
    Singleton(ExecClosure(st, n, false), e);
  }
}
