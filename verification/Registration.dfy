/** Registering commands (ExpressionInterpreter::addExpression) as an operation
    on trees: the grammar does not depend on the order of registration unless a
    variable competes with another word. */
module Registration {
  import opened WlList
  import opened Expression

  /** A grammar node without identity: its callback and its named children. */
  datatype Tree = Tree(func: Option<nat>, kids: seq<(string, Tree)>)

  const BARE := Tree(None, [])

  // ---------- std::string order ----------

  /** std::string::operator<. */
  predicate Less(a: string, b: string) {
    b != "" && (a == "" || a[0] < b[0] || (a[0] == b[0] && Less(a[1..], b[1..])))
  }

  lemma {:induction false} LessTrans(a: string, b: string, c: string)
    requires Less(a, b) && Less(b, c)
    ensures Less(a, c)
  {
    if a != "" && a[0] == b[0] == c[0] {
      LessTrans(a[1..], b[1..], c[1..]);
    }
  }

  lemma {:induction false} LessTotal(a: string, b: string)
    ensures Less(a, b) || a == b || Less(b, a)
    ensures Less(a, b) ==> a != b && !Less(b, a)
  {
    if a != "" && b != "" && a[0] == b[0] {
      LessTotal(a[1..], b[1..]);
      assert a == [a[0]] + a[1..] && b == [b[0]] + b[1..];
    }
  }

  // ---------- addExpression ----------

  /** Position of the last child called `text`. */
  function NameMatch(kids: seq<(string, Tree)>, text: string): Option<nat> {
    if kids == [] then None
    else if kids[|kids| - 1].0 == text then Some(|kids| - 1)
    else NameMatch(kids[..|kids| - 1], text)
  }

  /** Position of the last variable child. */
  function VarMatch(kids: seq<(string, Tree)>): Option<nat> {
    if kids == [] then None
    else if IsVar(kids[|kids| - 1].0) then Some(|kids| - 1)
    else VarMatch(kids[..|kids| - 1])
  }

  lemma {:induction false} MatchSpec(kids: seq<(string, Tree)>, text: string)
    ensures NameMatch(kids, text).Some? ==>
              NameMatch(kids, text).value < |kids| && kids[NameMatch(kids, text).value].0 == text
    ensures NameMatch(kids, text).None? ==> forall i :: 0 <= i < |kids| ==> kids[i].0 != text
    ensures VarMatch(kids).Some? ==> VarMatch(kids).value < |kids| && IsVar(kids[VarMatch(kids).value].0)
    ensures VarMatch(kids).None? ==> forall i :: 0 <= i < |kids| ==> !IsVar(kids[i].0)
  {
    if kids != [] {
      MatchSpec(kids[..|kids| - 1], text);
    }
  }

  /** Expression::getNextExpression: the child of that name, or else a variable
      child, or else none. */
  function NextChild(kids: seq<(string, Tree)>, text: string): (r: Option<nat>)
    ensures r.Some? ==> r.value < |kids|
  {
    MatchSpec(kids, text);
    if NameMatch(kids, text).Some? then NameMatch(kids, text) else VarMatch(kids)
  }

  lemma {:induction false} LastMatch(kids: seq<(string, Tree)>, text: string)
    ensures forall i :: 0 <= i < |kids| && kids[i].0 == text ==>
              NameMatch(kids, text).Some? && i <= NameMatch(kids, text).value < |kids|
    ensures forall i :: 0 <= i < |kids| && IsVar(kids[i].0) ==>
              VarMatch(kids).Some? && i <= VarMatch(kids).value < |kids|
  {
    if kids != [] {
      LastMatch(kids[..|kids| - 1], text);
    }
  }

  /** A child of that name comes before any variable, the last of each kind is
      taken, and there is no other way on. */
  lemma NextChildSpec(kids: seq<(string, Tree)>, text: string, i: nat)
    ensures NextChild(kids, text) == Some(i) <==>
            && i < |kids|
            && (kids[i].0 == text || (IsVar(kids[i].0) && forall j :: 0 <= j < |kids| ==> kids[j].0 != text))
            && forall j :: i < j < |kids| ==> kids[j].0 != text && (kids[i].0 == text || !IsVar(kids[j].0))
  {
    MatchSpec(kids, text);
    LastMatch(kids, text);
  }

  /** Expression::addNextExpression: append and stably sort a sorted list. */
  function Insert(kids: seq<(string, Tree)>, kid: (string, Tree)): seq<(string, Tree)> {
    if kids == [] || Less(kid.0, kids[0].0) then [kid] + kids else [kids[0]] + Insert(kids[1..], kid)
  }

  function Add(t: Tree, words: seq<string>, f: nat): Tree
    decreases |words|
  {
    if words == [] then t.(func := Some(f))
    else
      match NextChild(t.kids, words[0])
      case Some(i) => t.(kids := t.kids[i := (t.kids[i].0, Add(t.kids[i].1, words[1..], f))])
      case None => t.(kids := Insert(t.kids, (words[0], Add(BARE, words[1..], f))))
  }

  type Command = (seq<string>, nat)

  /** The grammar after registering the commands in order. */
  function Build(cmds: seq<Command>): Tree {
    if cmds == [] then BARE else Add(Build(cmds[..|cmds| - 1]), cmds[|cmds| - 1].0, cmds[|cmds| - 1].1)
  }

  // ---------- sorted trees and what they contain ----------

  ghost predicate SortedNames(kids: seq<(string, Tree)>) {
    forall i, j :: 0 <= i < j < |kids| ==> Less(kids[i].0, kids[j].0)
  }

  /** Children are strictly sorted at every node. */
  ghost predicate Sorted(t: Tree) {
    SortedNames(t.kids) && forall i :: 0 <= i < |t.kids| ==> Sorted(t.kids[i].1)
  }

  /** The child called `w`. */
  ghost function Kid(t: Tree, w: string): (r: Option<Tree>)
    ensures r.Some? ==> r.value < t
  {
    if exists i :: 0 <= i < |t.kids| && t.kids[i].0 == w
    then var i :| 0 <= i < |t.kids| && t.kids[i].0 == w; Some(t.kids[i].1)
    else None
  }

  lemma KidAt(t: Tree, i: nat)
    requires i < |t.kids| && SortedNames(t.kids)
    ensures Kid(t, t.kids[i].0) == Some(t.kids[i].1)
  {
    forall j | 0 <= j < |t.kids| && t.kids[j].0 == t.kids[i].0 ensures j == i {
      LessTotal(t.kids[j].0, t.kids[i].0);
    }
  }

  /** The node at the end of a path of child names. */
  ghost function At(t: Tree, path: seq<string>): Option<Tree>
    decreases |path|
  {
    if path == [] then Some(t)
    else match Kid(t, path[0]) case None => None case Some(k) => At(k, path[1..])
  }

  ghost function FuncAt(t: Tree, path: seq<string>): Option<Option<nat>> {
    match At(t, path) case None => None case Some(k) => Some(k.func)
  }

  /** Two sorted trees with the same paths and callbacks are the same. */
  lemma {:induction false} Extensional(a: Tree, b: Tree)
    requires Sorted(a) && Sorted(b) && forall p :: FuncAt(a, p) == FuncAt(b, p)
    ensures a == b
    decreases a, |a.kids| + 1
  {
    assert FuncAt(a, []) == FuncAt(b, []);
    SameKids(a, b, 0);
  }

  lemma {:induction false} SameKids(a: Tree, b: Tree, n: nat)
    requires Sorted(a) && Sorted(b) && forall p :: FuncAt(a, p) == FuncAt(b, p)
    requires n <= |a.kids| && n <= |b.kids| && a.kids[..n] == b.kids[..n]
    ensures a.kids == b.kids
    decreases a, |a.kids| - n
  {
    if n < |a.kids| && n < |b.kids| {
      var x, y := a.kids[n].0, b.kids[n].0;
      SameFirst(a, b, n);
      KidAt(a, n);
      KidAt(b, n);
      forall p ensures FuncAt(a.kids[n].1, p) == FuncAt(b.kids[n].1, p) {
        assert FuncAt(a, [x] + p) == FuncAt(b, [x] + p);
        assert ([x] + p)[1..] == p;
      }
      Extensional(a.kids[n].1, b.kids[n].1);
      assert a.kids[..n + 1] == a.kids[..n] + [a.kids[n]] && b.kids[..n + 1] == b.kids[..n] + [b.kids[n]];
      SameKids(a, b, n + 1);
    } else if n < |a.kids| {
      HasKid(a, b, n);
      assert a.kids[..n] == b.kids;
      NotAmongSmaller(a, b, n);
    } else if n < |b.kids| {
      HasKid(b, a, n);
      NotAmongSmaller(b, a, n);
    }
  }

  /** A child of `a` is a child of `b`. */
  lemma HasKid(a: Tree, b: Tree, n: nat)
    requires n < |a.kids| && SortedNames(a.kids) && forall p :: FuncAt(a, p) == FuncAt(b, p)
    ensures Kid(b, a.kids[n].0).Some?
  {
    var path := [a.kids[n].0];
    KidAt(a, n);
    assert path[1..] == [] && At(a.kids[n].1, []) == Some(a.kids[n].1);
    assert FuncAt(a, path).Some? && FuncAt(a, path) == FuncAt(b, path);
  }

  /** The next child's name is not one of the first `n` names. */
  lemma NotAmongSmaller(a: Tree, b: Tree, n: nat)
    requires n < |a.kids| && SortedNames(a.kids) && n <= |b.kids| && a.kids[..n] == b.kids[..n]
    ensures forall i :: 0 <= i < n ==> b.kids[i].0 != a.kids[n].0
  {
    forall i | 0 <= i < n ensures b.kids[i].0 != a.kids[n].0 {
      assert b.kids[i] == b.kids[..n][i] == a.kids[i];
      LessTotal(a.kids[i].0, a.kids[n].0);
    }
  }

  lemma SameFirst(a: Tree, b: Tree, n: nat)
    requires Sorted(a) && Sorted(b) && forall p :: FuncAt(a, p) == FuncAt(b, p)
    requires n < |a.kids| && n < |b.kids| && a.kids[..n] == b.kids[..n]
    ensures a.kids[n].0 == b.kids[n].0
  {
    var x, y := a.kids[n].0, b.kids[n].0;
    HasKid(a, b, n);
    HasKid(b, a, n);
    NotAmongSmaller(a, b, n);
    NotAmongSmaller(b, a, n);
    var i :| 0 <= i < |b.kids| && b.kids[i].0 == x;
    var j :| 0 <= j < |a.kids| && a.kids[j].0 == y;
    LessTotal(x, y);
  }

  // ---------- what one registration adds ----------

  /** The child a word leads to: the child of that name, or a variable child, or
      a new child of that name. */
  function Target(t: Tree, w: string): string {
    match NextChild(t.kids, w) case Some(i) => t.kids[i].0 case None => w
  }

  ghost function KidOrBare(t: Tree, w: string): Tree {
    if Kid(t, w).Some? then Kid(t, w).value else BARE
  }

  /** The node at which a command ends. */
  ghost function TargetPath(t: Tree, words: seq<string>): (r: seq<string>)
    ensures |r| == |words|
    decreases |words|
  {
    if words == [] then []
    else [Target(t, words[0])] + TargetPath(KidOrBare(t, Target(t, words[0])), words[1..])
  }

  lemma {:induction false} InsertSpec(kids: seq<(string, Tree)>, kid: (string, Tree))
    requires SortedNames(kids) && forall i :: 0 <= i < |kids| ==> kids[i].0 != kid.0
    ensures SortedNames(Insert(kids, kid))
    ensures forall x :: x in Insert(kids, kid) <==> x == kid || x in kids
  {
    if kids != [] {
      LessTotal(kid.0, kids[0].0);
      if Less(kid.0, kids[0].0) {
        forall i | 0 < i < |kids| ensures Less(kid.0, kids[i].0) {
          LessTrans(kid.0, kids[0].0, kids[i].0);
        }
      } else {
        var rest := Insert(kids[1..], kid);
        InsertSpec(kids[1..], kid);
        assert kids == [kids[0]] + kids[1..];
        forall i | 0 <= i < |rest| ensures Less(kids[0].0, rest[i].0) {
          assert rest[i] in rest;
        }
      }
    }
  }

  lemma KidMember(t: Tree, w: string)
    requires SortedNames(t.kids)
    ensures forall k :: Kid(t, w) == Some(k) <==> (w, k) in t.kids
  {
    forall k ensures Kid(t, w) == Some(k) <==> (w, k) in t.kids {
      if (w, k) in t.kids {
        var i :| 0 <= i < |t.kids| && t.kids[i] == (w, k);
        KidAt(t, i);
      }
    }
  }

  /** The subtree of child `i` is replaced. */
  lemma ReplaceKid(t: Tree, t': Tree, i: nat)
    requires SortedNames(t.kids) && i < |t.kids| == |t'.kids| && t'.kids == t.kids[i := (t.kids[i].0, t'.kids[i].1)]
    ensures SortedNames(t'.kids)
    ensures forall w :: Kid(t', w) == if w == t.kids[i].0 then Some(t'.kids[i].1) else Kid(t, w)
  {
    forall w ensures Kid(t', w) == if w == t.kids[i].0 then Some(t'.kids[i].1) else Kid(t, w) {
      KidAt(t', i);
      if w != t.kids[i].0 && Kid(t, w).Some? {
        var j :| 0 <= j < |t.kids| && t.kids[j].0 == w;
        KidAt(t, j);
        KidAt(t', j);
      }
    }
  }

  /** A child with a new name is inserted. */
  lemma AddedKid(t: Tree, t': Tree, kid: (string, Tree))
    requires SortedNames(t.kids) && t'.kids == Insert(t.kids, kid)
    requires forall i :: 0 <= i < |t.kids| ==> t.kids[i].0 != kid.0
    ensures SortedNames(t'.kids)
    ensures forall w :: Kid(t', w) == if w == kid.0 then Some(kid.1) else Kid(t, w)
  {
    InsertSpec(t.kids, kid);
    forall w ensures Kid(t', w) == if w == kid.0 then Some(kid.1) else Kid(t, w) {
      KidMember(t', w);
      KidMember(t, w);
      if Kid(t', w).Some? {
        assert (w, Kid(t', w).value) in t'.kids;
      }
      if Kid(t, w).Some? {
        assert (w, Kid(t, w).value) in t.kids;
      }
      if w == kid.0 {
        assert kid in t'.kids;
      }
    }
  }

  /** Children after one registration: the target leads to the grown subtree,
      every other name to what it led to before. */
  lemma AddKids(t: Tree, words: seq<string>, f: nat)
    requires words != [] && SortedNames(t.kids)
    ensures SortedNames(Add(t, words, f).kids) && Add(t, words, f).func == t.func
    ensures forall w :: Kid(Add(t, words, f), w) ==
              if w == Target(t, words[0]) then Some(Add(KidOrBare(t, w), words[1..], f)) else Kid(t, w)
  {
    var t' := Add(t, words, f);
    MatchSpec(t.kids, words[0]);
    match NextChild(t.kids, words[0])
    case Some(i) =>
      ReplaceKid(t, t', i);
      KidAt(t, i);
    case None =>
      AddedKid(t, t', (words[0], Add(BARE, words[1..], f)));
  }

  /** Registration keeps the children of every node strictly sorted. */
  lemma {:induction false} AddSorted(t: Tree, words: seq<string>, f: nat)
    requires Sorted(t)
    ensures Sorted(Add(t, words, f))
    decreases |words|
  {
    if words != [] {
      AddKids(t, words, f);
      var t' := Add(t, words, f);
      forall i | 0 <= i < |t'.kids| ensures Sorted(t'.kids[i].1) {
        KidAt(t', i);
        var w := t'.kids[i].0;
        KidMember(t, w);
        if Kid(t, w).Some? {
          assert (w, Kid(t, w).value) in t.kids;
        }
        AddSorted(KidOrBare(t, w), words[1..], f);
      }
    }
  }

  /** What `Add` does to one path. */
  ghost function Registered(before: Option<Option<nat>>, p: seq<string>, target: seq<string>, f: nat): Option<Option<nat>> {
    if p == target then Some(Some(f)) else if p <= target && before.None? then Some(None) else before
  }

  lemma {:induction false} AddFuncAt(t: Tree, words: seq<string>, f: nat, p: seq<string>)
    requires Sorted(t)
    ensures FuncAt(Add(t, words, f), p) == Registered(FuncAt(t, p), p, TargetPath(t, words), f)
    decreases |words|
  {
    var t', target := Add(t, words, f), TargetPath(t, words);
    if p != [] {
      if words == [] {
        KidMember(t, p[0]);
        KidMember(t', p[0]);
        assert Kid(t', p[0]) == Kid(t, p[0]) by {
          if Kid(t, p[0]).Some? {
            assert (p[0], Kid(t, p[0]).value) in t'.kids;
          }
        }
      } else {
        AddKids(t, words, f);
        var w := Target(t, words[0]);
        assert target[1..] == TargetPath(KidOrBare(t, w), words[1..]);
        if p[0] == w {
          KidMember(t, w);
          if Kid(t, w).Some? {
            assert (w, Kid(t, w).value) in t.kids;
          }
          AddFuncAt(KidOrBare(t, w), words[1..], f, p[1..]);
          assert p == [w] + p[1..] && target == [w] + target[1..];
          assert p <= target <==> p[1..] <= target[1..];
          BareFuncAt(p[1..]);
        }
      }
    } else if words != [] {
      AddKids(t, words, f);
    }
  }

  lemma BareFuncAt(p: seq<string>)
    ensures FuncAt(BARE, p) == if p == [] then Some(None) else None
  {
  }

  // ---------- what all registrations add ----------

  /** Commands that agree on their first words and where one goes on with a
      variable go on with the same word. */
  ghost predicate Mixed(a: seq<string>, b: seq<string>, k: nat) {
    k < |a| && k < |b| && a[..k] == b[..k] && IsVar(a[k]) && a[k] != b[k]
  }

  ghost predicate NoMix(cmds: seq<Command>) {
    forall i, j, k {:trigger Mixed(cmds[i].0, cmds[j].0, k)} ::
      0 <= i < |cmds| && 0 <= j < |cmds| && 0 <= k ==> !Mixed(cmds[i].0, cmds[j].0, k)
  }

  /** The same words are never registered with two callbacks. */
  ghost predicate Functional(cmds: seq<Command>) {
    forall i, j :: 0 <= i < |cmds| && 0 <= j < |cmds| && cmds[i].0 == cmds[j].0 ==> cmds[i].1 == cmds[j].1
  }

  ghost predicate Passes(cmds: seq<Command>, p: seq<string>) {
    p == [] || exists i :: 0 <= i < |cmds| && p <= cmds[i].0
  }

  ghost predicate PathsOf(t: Tree, cmds: seq<Command>) {
    forall p :: FuncAt(t, p).Some? <==> Passes(cmds, p)
  }

  /** The grammar that a set of commands ought to make: its paths are the
      prefixes of the commands, its callbacks are the commands'. */
  ghost predicate Means(t: Tree, cmds: seq<Command>) {
    && Sorted(t)
    && PathsOf(t, cmds)
    && (forall p, f: nat :: FuncAt(t, p) == Some(Some(f)) <==> (p, f) in cmds)
  }

  lemma {:induction false} BuildSorted(cmds: seq<Command>)
    ensures Sorted(Build(cmds))
  {
    if cmds != [] {
      BuildSorted(cmds[..|cmds| - 1]);
      AddSorted(Build(cmds[..|cmds| - 1]), cmds[|cmds| - 1].0, cmds[|cmds| - 1].1);
    }
  }

  /** No variable child competes with `words` on its way. */
  ghost predicate Clear(t: Tree, words: seq<string>) {
    forall q, k: nat :: k < |words| && |q| == k + 1 && q[..k] == words[..k] && FuncAt(t, q).Some? && IsVar(q[k])
                        ==> q[k] == words[k]
  }

  lemma ClearTarget(t: Tree, words: seq<string>)
    requires Sorted(t) && words != [] && Clear(t, words)
    ensures Target(t, words[0]) == words[0]
  {
    MatchSpec(t.kids, words[0]);
    forall i | 0 <= i < |t.kids| && IsVar(t.kids[i].0) ensures t.kids[i].0 == words[0] {
      KidAt(t, i);
      var q := [t.kids[i].0];
      assert q[1..] == [] && At(t.kids[i].1, []) == Some(t.kids[i].1);
      assert FuncAt(t, q).Some? && q[..0] == words[..0];
      assert IsVar(q[0]) && q[0] == words[0];
    }
  }

  lemma ClearKid(t: Tree, words: seq<string>)
    requires words != [] && Clear(t, words)
    ensures Clear(KidOrBare(t, words[0]), words[1..])
  {
    var w, kid, rest := words[0], KidOrBare(t, words[0]), words[1..];
    forall q, k: nat | k < |rest| && |q| == k + 1 && q[..k] == rest[..k] && FuncAt(kid, q).Some? && IsVar(q[k])
      ensures q[k] == rest[k] {
      var q' := [w] + q;
      BareFuncAt(q);
      assert q'[1..] == q;
      assert q'[..k + 1] == [w] + q[..k] && words[..k + 1] == [w] + rest[..k];
      assert FuncAt(t, q').Some?;
      assert q'[k + 1] == words[k + 1];
    }
  }

  lemma KidSorted(t: Tree, w: string)
    requires Sorted(t)
    ensures Sorted(KidOrBare(t, w))
  {
    KidMember(t, w);
    if Kid(t, w).Some? {
      assert (w, Kid(t, w).value) in t.kids;
    }
  }

  lemma {:induction false} ClearPath(t: Tree, words: seq<string>)
    requires Sorted(t) && Clear(t, words)
    ensures TargetPath(t, words) == words
    decreases |words|
  {
    if words != [] {
      ClearTarget(t, words);
      ClearKid(t, words);
      KidSorted(t, words[0]);
      ClearPath(KidOrBare(t, words[0]), words[1..]);
    }
  }

  lemma NoMixFront(cmds: seq<Command>)
    requires cmds != [] && NoMix(cmds)
    ensures NoMix(cmds[..|cmds| - 1])
  {
    var front := cmds[..|cmds| - 1];
    forall i, j, k | 0 <= i < |front| && 0 <= j < |front| && 0 <= k ensures !Mixed(front[i].0, front[j].0, k) {
      assert !Mixed(cmds[i].0, cmds[j].0, k);
    }
  }

  /** Without mixing, each command runs along its own words. */
  lemma {:induction false} BuildPaths(cmds: seq<Command>)
    requires NoMix(cmds)
    ensures PathsOf(Build(cmds), cmds)
    ensures cmds != [] ==> TargetPath(Build(cmds[..|cmds| - 1]), cmds[|cmds| - 1].0) == cmds[|cmds| - 1].0
  {
    if cmds == [] {
      forall p ensures FuncAt(BARE, p) == if p == [] then Some(None) else None { BareFuncAt(p); }
    } else {
      var front, words, f := cmds[..|cmds| - 1], cmds[|cmds| - 1].0, cmds[|cmds| - 1].1;
      NoMixFront(cmds);
      BuildPaths(front);
      BuildSorted(front);
      NoMixClear(cmds, Build(front));
      ClearPath(Build(front), words);
      forall p ensures FuncAt(Build(cmds), p).Some? <==> Passes(cmds, p) {
        AddFuncAt(Build(front), words, f, p);
        PassesLast(cmds, p);
      }
    }
  }

  lemma NoMixClear(cmds: seq<Command>, t: Tree)
    requires cmds != [] && NoMix(cmds) && PathsOf(t, cmds[..|cmds| - 1])
    ensures Clear(t, cmds[|cmds| - 1].0)
  {
    var front, words := cmds[..|cmds| - 1], cmds[|cmds| - 1].0;
    forall q, k: nat | k < |words| && |q| == k + 1 && q[..k] == words[..k] && FuncAt(t, q).Some? && IsVar(q[k])
      ensures q[k] == words[k] {
      assert Passes(front, q);
      var i :| 0 <= i < |front| && q <= front[i].0;
      assert front[i] == cmds[i] && cmds[i].0[..k] == q[..k] && cmds[i].0[k] == q[k];
      assert !Mixed(cmds[i].0, cmds[|cmds| - 1].0, k);
    }
  }

  /** Without mixing, the grammar is what the set of commands ought to make. */
  lemma {:induction false} BuildMeans(cmds: seq<Command>)
    requires NoMix(cmds) && Functional(cmds)
    ensures Means(Build(cmds), cmds)
  {
    BuildSorted(cmds);
    BuildPaths(cmds);
    if cmds == [] {
      forall p ensures FuncAt(BARE, p) == if p == [] then Some(None) else None { BareFuncAt(p); }
    } else {
      var n := |cmds| - 1;
      NoMixFront(cmds);
      BuildMeans(cmds[..n]);
      forall i | 0 <= i < n && cmds[i].0 == cmds[n].0 ensures cmds[..n][i] == cmds[n] {
        assert cmds[i].1 == cmds[n].1;
      }
      forall p, g: nat ensures FuncAt(Build(cmds), p) == Some(Some(g)) <==> (p, g) in cmds {
        AddFunc(Build(cmds[..n]), cmds[..n], cmds[n], p, g);
        assert cmds == cmds[..n] + [cmds[n]];
      }
    }
  }

  lemma AddFunc(t: Tree, front: seq<Command>, c: Command, p: seq<string>, g: nat)
    requires Means(t, front) && TargetPath(t, c.0) == c.0
    requires forall i :: 0 <= i < |front| && front[i].0 == c.0 ==> front[i] == c
    ensures FuncAt(Add(t, c.0, c.1), p) == Some(Some(g)) <==> (p, g) in front + [c]
  {
    AddFuncAt(t, c.0, c.1, p);
    assert (p, g) in front + [c] <==> (p, g) in front || (p, g) == c;
  }

  lemma PassesLast(cmds: seq<Command>, p: seq<string>)
    requires cmds != []
    ensures Passes(cmds, p) <==> Passes(cmds[..|cmds| - 1], p) || p <= cmds[|cmds| - 1].0
  {
    var front := cmds[..|cmds| - 1];
    if i :| 0 <= i < |front| && p <= front[i].0 {
      assert front[i] == cmds[i];
    }
    if Passes(cmds, p) && p != [] {
      var i :| 0 <= i < |cmds| && p <= cmds[i].0;
      assert i < |front| ==> front[i] == cmds[i];
    }
  }

  /** Two grammars that mean the same commands are the same. */
  lemma MeansDetermines(a: Tree, b: Tree, xs: seq<Command>, ys: seq<Command>)
    requires Means(a, xs) && Means(b, ys) && multiset(xs) == multiset(ys)
    ensures a == b
  {
    forall p ensures FuncAt(a, p) == FuncAt(b, p) {
      SamePasses(xs, ys, p);
      SamePasses(ys, xs, p);
      if FuncAt(a, p).Some? {
        var x, y := FuncAt(a, p).value, FuncAt(b, p).value;
        forall f ensures x == Some(f) <==> y == Some(f) {
          assert FuncAt(a, p) == Some(Some(f)) <==> (p, f) in multiset(xs);
          assert FuncAt(b, p) == Some(Some(f)) <==> (p, f) in multiset(ys);
        }
        assert x.Some? ==> x == Some(x.value);
        assert y.Some? ==> y == Some(y.value);
      }
    }
    Extensional(a, b);
  }

  lemma SamePasses(xs: seq<Command>, ys: seq<Command>, p: seq<string>)
    requires multiset(xs) == multiset(ys)
    ensures Passes(xs, p) ==> Passes(ys, p)
  {
    if i :| 0 <= i < |xs| && p <= xs[i].0 {
      assert xs[i] in multiset(xs) && xs[i] in multiset(ys);
    }
  }

  // ---------- order of registration ----------

  ghost predicate OrderFree(cmds: seq<Command>) {
    forall other: seq<Command> :: multiset(other) == multiset(cmds) ==> Build(other) == Build(cmds)
  }

  lemma SamePairsMix(cmds: seq<Command>, other: seq<Command>)
    requires multiset(other) == multiset(cmds) && NoMix(cmds)
    ensures NoMix(other)
  {
    forall i | 0 <= i < |other| ensures other[i] in cmds {
      assert other[i] in multiset(cmds);
    }
    forall i, j, k | 0 <= i < |other| && 0 <= j < |other| && 0 <= k ensures !Mixed(other[i].0, other[j].0, k) {
      var x :| 0 <= x < |cmds| && cmds[x] == other[i];
      var y :| 0 <= y < |cmds| && cmds[y] == other[j];
      assert !Mixed(cmds[x].0, cmds[y].0, k);
    }
  }

  lemma SamePairs(cmds: seq<Command>, other: seq<Command>)
    requires multiset(other) == multiset(cmds) && NoMix(cmds) && Functional(cmds)
    ensures NoMix(other) && Functional(other)
  {
    SamePairsMix(cmds, other);
    forall i | 0 <= i < |other| ensures other[i] in cmds {
      assert other[i] in multiset(cmds);
    }
  }

  /** Registered one after the other on top of a grammar. */
  function AddAll(t: Tree, cmds: seq<Command>): Tree
    decreases |cmds|
  {
    if cmds == [] then t else AddAll(Add(t, cmds[0].0, cmds[0].1), cmds[1..])
  }

  lemma {:induction false} BuildIsAddAll(front: seq<Command>, cmds: seq<Command>)
    ensures Build(front + cmds) == AddAll(Build(front), cmds)
    decreases |cmds|
  {
    if cmds == [] {
      assert front + cmds == front;
    } else {
      assert front + cmds == (front + [cmds[0]]) + cmds[1..];
      assert (front + [cmds[0]])[..|front|] == front;
      BuildIsAddAll(front + [cmds[0]], cmds[1..]);
    }
  }

  /** No registration removes a path. */
  lemma {:induction false} PathsStay(t: Tree, cmds: seq<Command>, p: seq<string>)
    requires Sorted(t) && FuncAt(t, p).Some?
    ensures FuncAt(AddAll(t, cmds), p).Some?
    decreases |cmds|
  {
    if cmds != [] {
      AddSorted(t, cmds[0].0, cmds[0].1);
      AddFuncAt(t, cmds[0].0, cmds[0].1, p);
      PathsStay(Add(t, cmds[0].0, cmds[0].1), cmds[1..], p);
    }
  }

  /** Beside a variable child no child is ever added. */
  lemma {:induction false} VarBlocks(t: Tree, words: seq<string>, q: seq<string>, v: string, b: string)
    requires Sorted(t) && IsVar(v) && FuncAt(t, q + [v]).Some? && FuncAt(t, q + [b]).None?
    ensures !(q + [b] <= TargetPath(t, words))
    decreases |q|
  {
    if words != [] {
      var w := Target(t, words[0]);
      var target := TargetPath(t, words);
      if q == [] {
        assert q + [v] == [v] && q + [b] == [b];
        assert [v][1..] == [] && [b][1..] == [];
        assert Kid(t, b).None? by {
          assert Kid(t, b).Some? ==> At(Kid(t, b).value, []) == Some(Kid(t, b).value);
        }
        assert Kid(t, v).Some?;
        MatchSpec(t.kids, words[0]);
        KidAt(t, NextChild(t.kids, words[0]).value);
      } else if w == q[0] {
        assert (q + [v])[1..] == q[1..] + [v] && (q + [b])[1..] == q[1..] + [b];
        KidMember(t, w);
        assert (w, Kid(t, w).value) in t.kids;
        assert target[1..] == TargetPath(Kid(t, w).value, words[1..]) && target == [w] + target[1..];
        assert q + [b] == [w] + (q[1..] + [b]);
        assert q + [b] <= target ==> q[1..] + [b] <= target[1..];
        VarBlocks(Kid(t, w).value, words[1..], q[1..], v, b);
      }
    }
  }

  lemma {:induction false} VarBlocksAll(t: Tree, cmds: seq<Command>, q: seq<string>, v: string, b: string)
    requires Sorted(t) && IsVar(v) && FuncAt(t, q + [v]).Some? && FuncAt(t, q + [b]).None?
    ensures FuncAt(AddAll(t, cmds), q + [b]).None?
    decreases |cmds|
  {
    if cmds != [] {
      var words, f := cmds[0].0, cmds[0].1;
      AddSorted(t, words, f);
      VarBlocks(t, words, q, v, b);
      AddFuncAt(t, words, f, q + [v]);
      AddFuncAt(t, words, f, q + [b]);
      VarBlocksAll(Add(t, words, f), cmds[1..], q, v, b);
    }
  }

  /** The first command makes exactly its own path. */
  lemma FirstAlone(a: Command, p: seq<string>)
    ensures Sorted(Build([a]))
    ensures FuncAt(Build([a]), p).Some? <==> p <= a.0
  {
    BuildSorted([a]);
    assert [a][..0] == [];
    assert Build([a]) == Add(BARE, a.0, a.1);
    forall q ensures FuncAt(BARE, q) == if q == [] then Some(None) else None { BareFuncAt(q); }
    ClearPath(BARE, a.0);
    AddFuncAt(BARE, a.0, a.1, p);
  }

  /** Registering a mixed pair first, in either order, makes different grammars. */
  lemma MixedFirst(a: Command, b: Command, k: nat, rest: seq<Command>)
    requires Mixed(a.0, b.0, k)
    ensures Build([a] + ([b] + rest)) != Build([b] + ([a] + rest))
  {
    var q, v, w := a.0[..k], a.0[k], b.0[k];
    assert q + [v] == a.0[..k + 1] && q + [w] == b.0[..k + 1];
    BuildIsAddAll([a], [b] + rest);
    BuildIsAddAll([b], [a] + rest);
    FirstAlone(a, q + [v]);
    FirstAlone(a, q + [w]);
    FirstAlone(b, q + [w]);
    assert (q + [w])[k] == w;
    VarBlocksAll(Build([a]), [b] + rest, q, v, w);
    PathsStay(Build([b]), [a] + rest, q + [w]);
  }

  lemma LastWins(front: seq<Command>, c: Command)
    requires NoMix(front + [c])
    ensures FuncAt(Build(front + [c]), c.0) == Some(Some(c.1))
  {
    BuildPaths(front + [c]);
    BuildSorted(front);
    assert (front + [c])[..|front|] == front;
    AddFuncAt(Build(front), c.0, c.1, c.0);
  }

  /** Registering the same words last with two callbacks keeps the last one. */
  lemma SameWordsLast(a: Command, b: Command, rest: seq<Command>)
    requires a.0 == b.0 && a.1 != b.1 && NoMix(rest + [a] + [b])
    ensures Build(rest + [a] + [b]) != Build(rest + [b] + [a])
  {
    LastWins(rest + [a], b);
    var xs, ys := rest + [a] + [b], rest + [b] + [a];
    forall i, j, k | 0 <= i < |ys| && 0 <= j < |ys| && 0 <= k ensures !Mixed(ys[i].0, ys[j].0, k) {
      assert ys[i].0 == xs[i].0 && ys[j].0 == xs[j].0;
      assert !Mixed(xs[i].0, xs[j].0, k);
    }
    LastWins(rest + [b], a);
  }

  lemma Without(cmds: seq<Command>, i: nat)
    requires i < |cmds|
    ensures multiset(cmds) == multiset(cmds[..i] + cmds[i + 1..]) + multiset{cmds[i]}
  {
    assert cmds == cmds[..i] + [cmds[i]] + cmds[i + 1..];
  }

  lemma TakeOut(cmds: seq<Command>, i: nat, j: nat) returns (rest: seq<Command>)
    requires i < |cmds| && j < |cmds| && i != j
    ensures multiset(rest + [cmds[i]] + [cmds[j]]) == multiset(cmds)
  {
    Without(cmds, i);
    var most := cmds[..i] + cmds[i + 1..];
    var k := if j < i then j else j - 1;
    assert most[k] == cmds[j];
    Without(most, k);
    rest := most[..k] + most[k + 1..];
  }

  lemma FreeThenSame(cmds: seq<Command>, xs: seq<Command>, ys: seq<Command>)
    requires multiset(xs) == multiset(cmds) == multiset(ys) && Build(xs) != Build(ys)
    ensures !OrderFree(cmds)
  {
    assert OrderFree(cmds) ==> Build(xs) == Build(cmds) && Build(ys) == Build(cmds);
  }

  lemma MixedNotFree(cmds: seq<Command>)
    requires !NoMix(cmds)
    ensures !OrderFree(cmds)
  {
    var i, j, k :| 0 <= i < |cmds| && 0 <= j < |cmds| && 0 <= k && Mixed(cmds[i].0, cmds[j].0, k);
    var a, b := cmds[i], cmds[j];
    var rest := TakeOut(cmds, i, j);
    var xs, ys := [a] + ([b] + rest), [b] + ([a] + rest);
    assert multiset(xs) == multiset(rest + [a] + [b]) == multiset(ys);
    MixedFirst(a, b, k, rest);
    FreeThenSame(cmds, xs, ys);
  }

  lemma TwoCallbacksNotFree(cmds: seq<Command>)
    requires NoMix(cmds) && !Functional(cmds)
    ensures !OrderFree(cmds)
  {
    var i, j :| 0 <= i < |cmds| && 0 <= j < |cmds| && cmds[i].0 == cmds[j].0 && cmds[i].1 != cmds[j].1;
    var a, b := cmds[i], cmds[j];
    var rest := TakeOut(cmds, i, j);
    var xs, ys := rest + [a] + [b], rest + [b] + [a];
    assert multiset(xs) == multiset(ys);
    SamePairsMix(cmds, xs);
    SameWordsLast(a, b, rest);
    FreeThenSame(cmds, xs, ys);
  }

  /** The grammar is the same for every order of registration exactly when no
      variable competes with another word and no command has two callbacks. */
  lemma OrderFreeIff(cmds: seq<Command>)
    ensures OrderFree(cmds) <==> NoMix(cmds) && Functional(cmds)
  {
    if !NoMix(cmds) {
      MixedNotFree(cmds);
    } else if !Functional(cmds) {
      TwoCallbacksNotFree(cmds);
    } else {
      forall other: seq<Command> | multiset(other) == multiset(cmds) ensures Build(other) == Build(cmds) {
        SamePairs(cmds, other);
        BuildMeans(cmds);
        BuildMeans(other);
        MeansDetermines(Build(other), Build(cmds), other, cmds);
      }
    }
  }
}
