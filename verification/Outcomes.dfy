/** Two interpreters with the same grammar answer every input alike, so the
    order in which commands are registered cannot be observed. */
module Outcomes {
  import opened WlList
  import opened Expression
  import opened Recognition
  import opened Registration
  import opened Interpreter

  /** Nodes of two stores with equal names, callbacks and continuations. */
  ghost predicate Alike(a: Store, n: nat, b: Store, m: nat)
    requires Expression.Valid(a) && Expression.Valid(b)
  {
    n < |a| && m < |b| && a[n].name == b[m].name && TreeOf(a, n) == TreeOf(b, m)
  }

  ghost predicate AllAlike(a: Store, ns: seq<nat>, b: Store, ms: seq<nat>)
    requires Expression.Valid(a) && Expression.Valid(b)
  {
    |ns| == |ms| && forall i {:trigger Alike(a, ns[i], b, ms[i])} :: 0 <= i < |ns| ==> Alike(a, ns[i], b, ms[i])
  }

  lemma AppendAlike(a: Store, n1: seq<nat>, n2: seq<nat>, b: Store, m1: seq<nat>, m2: seq<nat>)
    requires Expression.Valid(a) && Expression.Valid(b) && AllAlike(a, n1, b, m1) && AllAlike(a, n2, b, m2)
    ensures AllAlike(a, n1 + n2, b, m1 + m2)
  {
    forall i | 0 <= i < |n1 + n2| ensures Alike(a, (n1 + n2)[i], b, (m1 + m2)[i]) {
      if i < |n1| {
        assert Alike(a, n1[i], b, m1[i]);
      } else {
        assert Alike(a, n2[i - |n1|], b, m2[i - |n1|]);
      }
    }
  }

  lemma KidsAlike(a: Store, n: nat, b: Store, m: nat)
    requires Expression.Valid(a) && Expression.Valid(b) && n < |a| && m < |b| && TreeOf(a, n) == TreeOf(b, m)
    ensures AllAlike(a, a[n].next, b, b[m].next) && a[n].func == b[m].func
  {
    assert TreesOf(a, n, a[n].next) == TreesOf(b, m, b[m].next);
    forall i | 0 <= i < |a[n].next| ensures Alike(a, a[n].next[i], b, b[m].next[i]) {
      TreesAt(a, n, a[n].next, i);
      TreesAt(b, m, b[m].next, i);
    }
  }

  lemma TailAlike(a: Store, ns: seq<nat>, b: Store, ms: seq<nat>)
    requires Expression.Valid(a) && Expression.Valid(b) && AllAlike(a, ns, b, ms) && ns != []
    ensures Alike(a, ns[0], b, ms[0]) && AllAlike(a, ns[1..], b, ms[1..])
  {
    assert Alike(a, ns[0], b, ms[0]);
    forall i | 0 <= i < |ns[1..]| ensures Alike(a, ns[1..][i], b, ms[1..][i]) {
      assert Alike(a, ns[i + 1], b, ms[i + 1]);
    }
  }

  // ---------- consuming words ----------

  lemma {:induction false} ClosureAlike(a: Store, n: nat, b: Store, m: nat, bypass: bool)
    requires Expression.Valid(a) && Expression.Valid(b) && Alike(a, n, b, m)
    ensures AllAlike(a, Closure(a, n, bypass), b, Closure(b, m, bypass))
    decreases |a| - n, if bypass then 1 else 2, 0
  {
    if bypass {
      KidsAlike(a, n, b, m);
      ClosureAllAlike(a, n, a[n].next, b, m, b[m].next, !Closes(a[n].name));
    } else {
      var restA, restB := [], [];
      if Opens(a[n].name) {
        ClosureAlike(a, n, b, m, true);
        restA, restB := Closure(a, n, true), Closure(b, m, true);
      }
      assert Alike(a, [n][0], b, [m][0]);
      AppendAlike(a, [n], restA, b, [m], restB);
    }
  }

  lemma {:induction false} ClosureAllAlike(a: Store, p: nat, ns: seq<nat>, b: Store, q: nat, ms: seq<nat>, bypass: bool)
    requires Expression.Valid(a) && Expression.Valid(b) && p < |a| && q < |b| && AllAlike(a, ns, b, ms)
    requires (forall i :: 0 <= i < |ns| ==> p < ns[i] < |a|) && forall i :: 0 <= i < |ms| ==> q < ms[i] < |b|
    ensures AllAlike(a, ClosureAll(a, p, ns, bypass), b, ClosureAll(b, q, ms, bypass))
    decreases |a| - p, 0, |ns|
  {
    if ns != [] {
      TailAlike(a, ns, b, ms);
      ClosureAlike(a, ns[0], b, ms[0], bypass);
      ClosureAllAlike(a, p, ns[1..], b, q, ms[1..], bypass);
      AppendAlike(a, Closure(a, ns[0], bypass), ClosureAll(a, p, ns[1..], bypass),
                  b, Closure(b, ms[0], bypass), ClosureAll(b, q, ms[1..], bypass));
    }
  }

  lemma {:induction false} SelectAlike(a: Store, ns: seq<nat>, b: Store, ms: seq<nat>, word: string)
    requires Expression.Valid(a) && Expression.Valid(b) && AllAlike(a, ns, b, ms)
    requires forall i :: 0 <= i < |ns| ==> ns[i] < |a|
    requires forall i :: 0 <= i < |ms| ==> ms[i] < |b|
    ensures AllAlike(a, Select(a, ns, word), b, Select(b, ms, word))
  {
    if ns != [] {
      TailAlike(a, ns, b, ms);
      SelectAlike(a, ns[1..], b, ms[1..], word);
      if Matches(a[ns[0]].name, word) {
        assert Alike(a, [ns[0]][0], b, [ms[0]][0]);
        AppendAlike(a, [ns[0]], Select(a, ns[1..], word), b, [ms[0]], Select(b, ms[1..], word));
      }
    }
  }

  lemma NextAlike(a: Store, n: nat, b: Store, m: nat, word: string)
    requires Expression.Valid(a) && Expression.Valid(b) && n < |a| && m < |b| && TreeOf(a, n) == TreeOf(b, m)
    ensures AllAlike(a, NextClosure(a, n, word), b, NextClosure(b, m, word))
  {
    ClosureBounded(a, n, a[n].next, false);
    ClosureBounded(b, m, b[m].next, false);
    KidsAlike(a, n, b, m);
    ClosureAllAlike(a, n, a[n].next, b, m, b[m].next, false);
    SelectAlike(a, ClosureAll(a, n, a[n].next, false), b, ClosureAll(b, m, b[m].next, false), word);
  }

  /** Lists of nodes with equal continuations; the root has no name to compare. */
  ghost predicate TreesAlike(a: Store, ns: seq<nat>, b: Store, ms: seq<nat>)
    requires Expression.Valid(a) && Expression.Valid(b)
  {
    |ns| == |ms| && forall i :: 0 <= i < |ns| ==> ns[i] < |a| && ms[i] < |b| && TreeOf(a, ns[i]) == TreeOf(b, ms[i])
  }

  lemma AlikeTrees(a: Store, ns: seq<nat>, b: Store, ms: seq<nat>)
    requires Expression.Valid(a) && Expression.Valid(b) && AllAlike(a, ns, b, ms)
    ensures TreesAlike(a, ns, b, ms)
  {
    forall i | 0 <= i < |ns| ensures ns[i] < |a| && ms[i] < |b| && TreeOf(a, ns[i]) == TreeOf(b, ms[i]) {
      assert Alike(a, ns[i], b, ms[i]);
    }
  }

  lemma {:induction false} NextAllAlike(a: Store, ns: seq<nat>, b: Store, ms: seq<nat>, word: string)
    requires Expression.Valid(a) && Expression.Valid(b) && TreesAlike(a, ns, b, ms)
    requires forall i :: 0 <= i < |ns| ==> ns[i] < |a|
    requires forall i :: 0 <= i < |ms| ==> ms[i] < |b|
    ensures AllAlike(a, NextAll(a, ns, word), b, NextAll(b, ms, word))
  {
    if ns != [] {
      NextAlike(a, ns[0], b, ms[0], word);
      NextAllAlike(a, ns[1..], b, ms[1..], word);
      AppendAlike(a, NextClosure(a, ns[0], word), NextAll(a, ns[1..], word),
                  b, NextClosure(b, ms[0], word), NextAll(b, ms[1..], word));
    }
  }

  lemma {:induction false} CurrentAlike(a: Store, b: Store, words: seq<string>)
    requires Expression.Valid(a) && Expression.Valid(b) && TreeOf(a, 0) == TreeOf(b, 0)
    ensures TreesAlike(a, Current(a, words), b, Current(b, words))
  {
    if words != [] {
      var front, w := words[..|words| - 1], words[|words| - 1];
      CurrentAlike(a, b, front);
      NextAllAlike(a, Current(a, front), b, Current(b, front), w);
      AlikeTrees(a, NextAll(a, Current(a, front), w), b, NextAll(b, Current(b, front), w));
    }
  }

  // ---------- choosing what to execute ----------

  lemma PossibleAlike(a: Store, n: nat, b: Store, m: nat)
    requires Expression.Valid(a) && Expression.Valid(b) && n < |a| && m < |b| && TreeOf(a, n) == TreeOf(b, m)
    ensures Possible(a, n) == Possible(b, m)
  {
    KidsAlike(a, n, b, m);
    forall i | 0 <= i < |a[n].next| ensures a[a[n].next[i]].name == b[b[m].next[i]].name {
      assert Alike(a, a[n].next[i], b, b[m].next[i]);
    }
  }

  lemma {:induction false} SurvivorsAlike(a: Store, ns: seq<nat>, b: Store, ms: seq<nat>)
    requires Expression.Valid(a) && Expression.Valid(b) && TreesAlike(a, ns, b, ms)
    requires forall i :: 0 <= i < |ns| ==> ns[i] < |a|
    requires forall i :: 0 <= i < |ms| ==> ms[i] < |b|
    ensures TreesAlike(a, Survivors(a, ns), b, Survivors(b, ms))
  {
    if ns != [] {
      PossibleAlike(a, ns[0], b, ms[0]);
      SurvivorsAlike(a, ns[1..], b, ms[1..]);
    }
  }

  /** Only the executable candidates, repetitions kept. */
  function Callable(st: Store, cands: seq<nat>): seq<nat>
    requires forall i :: 0 <= i < |cands| ==> cands[i] < |st|
  {
    if cands == [] then []
    else Callable(st, cands[..|cands| - 1])
         + if st[cands[|cands| - 1]].func.Some? then [cands[|cands| - 1]] else []
  }

  /** The check for repetitions in getClosureExecutables never finds one. */
  lemma {:induction false} NoRepetition(st: Store, cands: seq<nat>)
    requires NoDup(cands) && forall i :: 0 <= i < |cands| ==> cands[i] < |st|
    ensures Executables(st, cands) == Callable(st, cands)
  {
    if cands != [] {
      var front, e := cands[..|cands| - 1], cands[|cands| - 1];
      NoRepetition(st, front);
      ExecutablesSpec(st, front);
      assert e !in front;
    }
  }

  lemma {:induction false} CallableAlike(a: Store, ns: seq<nat>, b: Store, ms: seq<nat>)
    requires Expression.Valid(a) && Expression.Valid(b) && TreesAlike(a, ns, b, ms)
    requires forall i :: 0 <= i < |ns| ==> ns[i] < |a|
    requires forall i :: 0 <= i < |ms| ==> ms[i] < |b|
    ensures TreesAlike(a, Callable(a, ns), b, Callable(b, ms))
  {
    if ns != [] {
      KidsAlike(a, ns[|ns| - 1], b, ms[|ms| - 1]);
      CallableAlike(a, ns[..|ns| - 1], b, ms[..|ms| - 1]);
    }
  }

  /** What getClosureExecutables collects before filtering. */
  function Candidates(st: Store, n: nat, canBypass: bool): (r: seq<nat>)
    requires Expression.Valid(st) && n < |st|
    ensures forall i :: 0 <= i < |r| ==> r[i] < |st|
  {
    if canBypass
    then (if Closes(st[n].name) then ExecClosure(st, n, false) else ExecAll(st, n, st[n].next, false))
    else [n] + ExecAll(st, n, st[n].next, true)
  }

  lemma ExecAllBelow(st: Store, p: nat, kids: seq<nat>, opening: bool)
    requires Expression.Valid(st) && p < |st| && forall i :: 0 <= i < |kids| ==> kids[i] in st[p].next
    ensures p !in ExecAll(st, p, kids, opening)
  {
    ExecAllSpec(st, p, kids, opening);
    if p in ExecAll(st, p, kids, opening) {
      var d: nat :| d in kids && (opening ==> Opens(st[d].name)) && Offers(st, d, p, true);
      AboveBound(st, d, p);
    }
  }

  /** What one child offers no other child offers. */
  lemma ExecDisjoint(st: Store, p: nat, c: nat, rest: seq<nat>, opening: bool, e: nat)
    requires Expression.Valid(st) && p < |st| && c in st[p].next && c < |st| && c !in rest
    requires (forall i :: 0 <= i < |rest| ==> rest[i] in st[p].next) && e in ExecClosure(st, c, true)
    ensures e !in ExecAll(st, p, rest, opening)
  {
    ExecAllSpec(st, p, rest, opening);
    ExecClosureSpec(st, c, true);
    if e in ExecAll(st, p, rest, opening) {
      var d: nat :| d in rest && (opening ==> Opens(st[d].name)) && Offers(st, d, e, true);
      OneChild(st, p, c, d, e);
    }
  }

  lemma {:induction false} ExecAllNoDup(st: Store, p: nat, kids: seq<nat>, opening: bool)
    requires Expression.Valid(st) && p < |st| && NoDup(kids) && forall i :: 0 <= i < |kids| ==> kids[i] in st[p].next
    ensures NoDup(ExecAll(st, p, kids, opening))
  {
    if kids != [] {
      var c, rest := kids[0], kids[1..];
      assert c !in rest;
      ExecAllNoDup(st, p, rest, opening);
      ExecClosureSpec(st, c, true);
      forall e: nat | e in ExecClosure(st, c, true) ensures e !in ExecAll(st, p, rest, opening) {
        ExecDisjoint(st, p, c, rest, opening, e);
      }
      NoDupConcat(ExecClosure(st, c, true), ExecAll(st, p, rest, opening));
    }
  }

  lemma ExecIsCallable(st: Store, n: nat, canBypass: bool)
    requires Expression.Valid(st) && n < |st|
    ensures ExecClosure(st, n, canBypass) == Callable(st, Candidates(st, n, canBypass))
  {
    if canBypass && Closes(st[n].name) {
      ExecClosureSpec(st, n, false);
    } else if canBypass {
      ExecAllNoDup(st, n, st[n].next, false);
    } else {
      ExecAllNoDup(st, n, st[n].next, true);
      ExecAllBelow(st, n, st[n].next, true);
      NoDupCons(n, ExecAll(st, n, st[n].next, true));
    }
    NoRepetition(st, Candidates(st, n, canBypass));
  }

  lemma ExecFromCandidates(a: Store, n: nat, b: Store, m: nat, canBypass: bool)
    requires Expression.Valid(a) && Expression.Valid(b) && n < |a| && m < |b|
    requires TreesAlike(a, Candidates(a, n, canBypass), b, Candidates(b, m, canBypass))
    ensures TreesAlike(a, ExecClosure(a, n, canBypass), b, ExecClosure(b, m, canBypass))
  {
    ExecIsCallable(a, n, canBypass);
    ExecIsCallable(b, m, canBypass);
    CallableAlike(a, Candidates(a, n, canBypass), b, Candidates(b, m, canBypass));
  }

  lemma {:induction false} ExecAlike(a: Store, n: nat, b: Store, m: nat, canBypass: bool)
    requires Expression.Valid(a) && Expression.Valid(b) && n < |a| && m < |b| && TreeOf(a, n) == TreeOf(b, m)
    requires canBypass ==> a[n].name == b[m].name
    ensures TreesAlike(a, ExecClosure(a, n, canBypass), b, ExecClosure(b, m, canBypass))
    decreases |a| - n, if canBypass then 2 else 1, 0
  {
    if canBypass && Closes(a[n].name) {
      ExecAlike(a, n, b, m, false);
    } else {
      KidsAlike(a, n, b, m);
      ExecAllAlike(a, n, a[n].next, b, m, b[m].next, !canBypass);
    }
    ExecFromCandidates(a, n, b, m, canBypass);
  }

  lemma {:induction false} ExecAllAlike(a: Store, p: nat, ns: seq<nat>, b: Store, q: nat, ms: seq<nat>, opening: bool)
    requires Expression.Valid(a) && Expression.Valid(b) && p < |a| && q < |b| && AllAlike(a, ns, b, ms)
    requires (forall i :: 0 <= i < |ns| ==> p < ns[i] < |a|) && forall i :: 0 <= i < |ms| ==> q < ms[i] < |b|
    ensures TreesAlike(a, ExecAll(a, p, ns, opening), b, ExecAll(b, q, ms, opening))
    decreases |a| - p, 0, |ns|
  {
    if ns != [] {
      TailAlike(a, ns, b, ms);
      ExecAlike(a, ns[0], b, ms[0], true);
      ExecAllAlike(a, p, ns[1..], b, q, ms[1..], opening);
    }
  }

  // ---------- outcomes ----------

  /** What the user sees: the callback that ran, or the kind of failure. */
  datatype Outcome = Ran(callback: nat) | Refused | Unfinished

  function Observe(st: Store, words: seq<string>): (o: Option<Outcome>)
    requires Expression.Valid(st)
  {
    match Interpret(st, words)
    case Executed(e) => if e < |st| && st[e].func.Some? then Some(Ran(st[e].func.value)) else None
    case Invalid => Some(Refused)
    case Incomplete => Some(Unfinished)
    case Failed => None
  }

  /** Only the grammar matters. */
  lemma SameGrammarSameOutcome(a: Store, b: Store, words: seq<string>)
    requires Expression.Valid(a) && Expression.Valid(b) && TreeOf(a, 0) == TreeOf(b, 0)
    ensures Observe(a, words) == Observe(b, words) && Observe(a, words).Some?
  {
    CurrentAlike(a, b, words);
    SurvivorsAlike(a, Current(a, words), b, Current(b, words));
    var fa, fb := Survivors(a, Current(a, words)), Survivors(b, Current(b, words));
    if |fa| == 1 {
      ExecAlike(a, fa[0], b, fb[0], false);
      ExecClosureSpec(a, fa[0], false);
      var ea, eb := ExecClosure(a, fa[0], false), ExecClosure(b, fb[0], false);
      if |ea| == 1 {
        assert ea[0] in ea;
        KidsAlike(a, ea[0], b, eb[0]);
      }
    }
  }

  /** Two interpreters in which the same commands were registered in any two
      orders run the same callback, or fail alike, on every input, if no
      variable competes with another word and no command has two callbacks. */
  lemma OrderUnobservable(a: Store, b: Store, xs: seq<Command>, ys: seq<Command>, words: seq<string>)
    requires Expression.Valid(a) && Expression.Valid(b)
    requires TreeOf(a, 0) == Build(xs) && TreeOf(b, 0) == Build(ys) && multiset(xs) == multiset(ys)
    requires NoMix(xs) && Functional(xs)
    ensures Observe(a, words) == Observe(b, words) && Observe(a, words).Some?
  {
    OrderFreeIff(xs);
    assert OrderFree(xs);
    SameGrammarSameOutcome(a, b, words);
  }
}
