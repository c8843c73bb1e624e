/** ExpressionInterpreter as a program: commands grow the grammar in place, and
    user input is matched against it word by word. */
module Interpreter {
  import opened WlList
  import opened Expression
  import opened Recognition
  import opened Registration
  import opened StringStream

  function LowerAll(words: seq<string>): (r: seq<string>)
    ensures |r| == |words| && forall i :: 0 <= i < |r| ==> r[i] == Lower(words[i])
  {
    if words == [] then [] else [Lower(words[0])] + LowerAll(words[1..])
  }

  /** Lower-casing the variable between extractions makes no difference. */
  lemma FedLower(s: string, text: string)
    ensures LowerAll(Fed(s, Lower(text))) == LowerAll(Fed(s, text))
  {
    assert Lower(Lower(text)) == Lower(text);
  }

  // ---------- the grammar in the store ----------

  /** The grammar without node identities. */
  function TreeOf(st: Store, n: nat): Tree
    requires Expression.Valid(st) && n < |st|
    decreases |st| - n, |st[n].next| + 1
  {
    Tree(st[n].func, TreesOf(st, n, st[n].next))
  }

  function TreesOf(st: Store, p: nat, kids: seq<nat>): (r: seq<(string, Tree)>)
    requires Expression.Valid(st) && p < |st| && forall i :: 0 <= i < |kids| ==> p < kids[i] < |st|
    ensures |r| == |kids|
    decreases |st| - p, |kids|
  {
    if kids == [] then [] else [(st[kids[0]].name, TreeOf(st, kids[0]))] + TreesOf(st, p, kids[1..])
  }

  /** Expression::addNextExpression: append and stably sort a sorted list. */
  function InsertKid(st: Store, kids: seq<nat>, c: nat): seq<nat>
    requires c < |st| && forall i :: 0 <= i < |kids| ==> kids[i] < |st|
  {
    if kids == [] || Less(st[c].name, st[kids[0]].name) then [c] + kids
    else [kids[0]] + InsertKid(st, kids[1..], c)
  }

  function NewChild(st: Store, n: nat, w: string): Store
    requires Expression.Valid(st) && n < |st|
  {
    var st1 := st + [Node(w, [], n, None)];
    st1[n := st1[n].(next := InsertKid(st1, st[n].next, |st|))]
  }

  lemma {:induction false} InsertKidSpec(st: Store, kids: seq<nat>, c: nat)
    requires c < |st| && NoDup(kids) && forall i :: 0 <= i < |kids| ==> kids[i] < |st| && kids[i] != c
    ensures NoDup(InsertKid(st, kids, c))
    ensures forall x :: x in InsertKid(st, kids, c) <==> x == c || x in kids
  {
    if kids == [] || Less(st[c].name, st[kids[0]].name) {
      NoDupCons(c, kids);
    } else {
      InsertKidSpec(st, kids[1..], c);
      assert kids == [kids[0]] + kids[1..] && kids[0] !in kids[1..];
      NoDupCons(kids[0], InsertKid(st, kids[1..], c));
    }
  }

  lemma NewChildValid(st: Store, n: nat, w: string)
    requires Expression.Valid(st) && n < |st| && w != ""
    ensures Expression.Valid(NewChild(st, n, w))
  {
    var c := |st|;
    var st1, st2 := st + [Node(w, [], n, None)], NewChild(st, n, w);
    InsertKidSpec(st1, st[n].next, c);
    assert st2[c].next == [];
    forall i, j | 0 <= i < |st2| && 0 <= j < |st2[i].next|
      ensures i < st2[i].next[j] < |st2| && st2[st2[i].next[j]].parent == i {
      var d := st2[i].next[j];
      assert d in st2[i].next;
      assert i != c;
      assert d == c || d in st[i].next;
    }
    forall d: nat | 0 < d < |st2| ensures LinkedUp(st2, d) {
      if d < c {
        assert LinkedUp(st, d);
      }
    }
  }

  /** addExpression from node `n` on. */
  function AddWords(st: Store, n: nat, words: seq<string>, f: nat): (r: Store)
    requires Expression.Valid(st) && n < |st| && forall i :: 0 <= i < |words| ==> words[i] != ""
    decreases |words|
  {
    if words == [] then st[n := st[n].(func := Some(f))]
    else
      match NextChild(TreesOf(st, n, st[n].next), words[0])
      case Some(i) => AddWords(st, st[n].next[i], words[1..], f)
      case None =>
        NewChildValid(st, n, words[0]);
        AddWords(NewChild(st, n, words[0]), |st|, words[1..], f)
  }

  /** Nothing outside `n` and its descendants changed. */
  ghost predicate OnlyUnder(st: Store, n: nat, st': Store)
    requires Expression.Valid(st)
  {
    |st| <= |st'| && forall x: nat :: x < |st| && !Above(st, n, x) ==> st'[x] == st[x]
  }

  lemma {:induction false} TreesAt(st: Store, p: nat, kids: seq<nat>, i: nat)
    requires Expression.Valid(st) && p < |st| && (forall k :: 0 <= k < |kids| ==> p < kids[k] < |st|) && i < |kids|
    ensures TreesOf(st, p, kids)[i] == (st[kids[i]].name, TreeOf(st, kids[i]))
  {
    if i > 0 {
      TreesAt(st, p, kids[1..], i - 1);
    }
  }

  ghost predicate SameUnder(st: Store, st': Store, m: nat)
    requires Expression.Valid(st)
  {
    |st| <= |st'| && forall x: nat :: x < |st| && Above(st, m, x) ==> st'[x] == st[x]
  }

  lemma {:induction false} SameTree(st: Store, st': Store, m: nat)
    requires Expression.Valid(st) && Expression.Valid(st') && m < |st| && SameUnder(st, st', m)
    ensures TreeOf(st', m) == TreeOf(st, m)
    decreases |st| - m, |st[m].next| + 1
  {
    assert Above(st, m, m);
    SameTrees(st, st', m, st[m].next);
  }

  lemma {:induction false} SameTrees(st: Store, st': Store, m: nat, kids: seq<nat>)
    requires Expression.Valid(st) && Expression.Valid(st') && m < |st| && SameUnder(st, st', m)
    requires forall i :: 0 <= i < |kids| ==> kids[i] in st[m].next
    ensures TreesOf(st', m, kids) == TreesOf(st, m, kids)
    decreases |st| - m, |kids|
  {
    if kids != [] {
      var d := kids[0];
      forall x: nat | x < |st| && Above(st, d, x) ensures st'[x] == st[x] {
        ChildAbove(st, m, d, x);
      }
      assert Above(st, d, d);
      SameTree(st, st', d);
      SameTrees(st, st', m, kids[1..]);
    }
  }

  lemma {:induction false} TreesOfInsert(st: Store, p: nat, kids: seq<nat>, c: nat)
    requires Expression.Valid(st) && p < c < |st| && forall i :: 0 <= i < |kids| ==> p < kids[i] < |st|
    ensures forall i :: 0 <= i < |InsertKid(st, kids, c)| ==> p < InsertKid(st, kids, c)[i] < |st|
    ensures TreesOf(st, p, InsertKid(st, kids, c)) == Insert(TreesOf(st, p, kids), (st[c].name, TreeOf(st, c)))
  {
    if kids != [] && !Less(st[c].name, st[kids[0]].name) {
      TreesOfInsert(st, p, kids[1..], c);
    }
  }

  /** Children of `n` other than `c` are untouched by changes under `c`. */
  lemma OtherKids(st: Store, st': Store, n: nat, c: nat, d: nat)
    requires Expression.Valid(st) && Expression.Valid(st') && n < |st| && c in st[n].next && d in st[n].next
    requires OnlyUnder(st, c, st') && c != d
    ensures TreeOf(st', d) == TreeOf(st, d)
  {
    forall x: nat | x < |st| && Above(st, d, x) ensures st'[x] == st[x] {
      if Above(st, c, x) {
        OneChild(st, n, c, d, x);
      }
    }
    SameTree(st, st', d);
  }

  /** Changes at `n` itself leave the trees of its children alone. */
  lemma {:induction false} KidsSame(st: Store, st': Store, n: nat, kids: seq<nat>)
    requires Expression.Valid(st) && Expression.Valid(st') && n < |st| <= |st'|
    requires forall i :: 0 <= i < |kids| ==> n < kids[i] < |st|
    requires forall x :: n < x < |st| ==> st'[x] == st[x]
    ensures TreesOf(st', n, kids) == TreesOf(st, n, kids)
  {
    if kids != [] {
      var d := kids[0];
      forall x: nat | x < |st| && Above(st, d, x) ensures st'[x] == st[x] {
        AboveBound(st, d, x);
      }
      SameTree(st, st', d);
      KidsSame(st, st', n, kids[1..]);
    }
  }

  lemma SetFunc(st: Store, n: nat, f: nat)
    requires Expression.Valid(st) && n < |st|
    ensures Expression.Valid(st[n := st[n].(func := Some(f))])
    ensures TreeOf(st[n := st[n].(func := Some(f))], n) == TreeOf(st, n).(func := Some(f))
  {
    var st' := st[n := st[n].(func := Some(f))];
    SetFuncValid(st, n, f);
    KidsSame(st, st', n, st[n].next);
  }

  lemma SetFuncValid(st: Store, n: nat, f: nat)
    requires Expression.Valid(st) && n < |st|
    ensures Expression.Valid(st[n := st[n].(func := Some(f))])
  {
    var st' := st[n := st[n].(func := Some(f))];
    forall d: nat | 0 < d < |st'| ensures LinkedUp(st', d) {
      assert LinkedUp(st, d);
    }
  }

  lemma {:induction false} InsertKidNames(a: Store, b: Store, kids: seq<nat>, c: nat)
    requires c < |a| <= |b| && forall i :: 0 <= i < |kids| ==> kids[i] < |a|
    requires forall i :: 0 <= i < |a| ==> a[i].name == b[i].name
    ensures InsertKid(a, kids, c) == InsertKid(b, kids, c)
  {
    if kids != [] {
      InsertKidNames(a, b, kids[1..], c);
    }
  }

  /** Growing under the child `c` leaves what is not under `c` alone. */
  lemma KnownFrame(st: Store, st': Store, n: nat, c: nat)
    requires Expression.Valid(st) && n < |st| && c in st[n].next && OnlyUnder(st, c, st')
    ensures OnlyUnder(st, n, st') && st'[n] == st[n]
  {
    if Above(st, c, n) {
      AboveBound(st, c, n);
    }
    forall x: nat | x < |st| && !Above(st, n, x) ensures st'[x] == st[x] {
      if Above(st, c, x) {
        ChildAbove(st, n, c, x);
      }
    }
  }

  lemma KnownKid(st: Store, st': Store, n: nat, i: nat, j: nat, t: Tree)
    requires Expression.Valid(st) && Expression.Valid(st') && n < |st| && i < |st[n].next| && j < |st[n].next|
    requires OnlyUnder(st, st[n].next[i], st') && st'[n] == st[n]
    requires (forall x :: 0 <= x < |st| ==> st'[x].name == st[x].name) && TreeOf(st', st[n].next[i]) == t
    ensures TreesOf(st', n, st[n].next)[j] == TreesOf(st, n, st[n].next)[i := (st[st[n].next[i]].name, t)][j]
  {
    TreesAt(st, n, st[n].next, j);
    TreesAt(st', n, st[n].next, j);
    if j != i {
      OtherKids(st, st', n, st[n].next[i], st[n].next[j]);
    }
  }

  lemma KnownChild(st: Store, st': Store, n: nat, i: nat, t: Tree)
    requires Expression.Valid(st) && Expression.Valid(st') && n < |st| && i < |st[n].next|
    requires OnlyUnder(st, st[n].next[i], st') && forall x :: 0 <= x < |st| ==> st'[x].name == st[x].name
    requires TreeOf(st', st[n].next[i]) == t
    ensures OnlyUnder(st, n, st')
    ensures TreeOf(st', n) == TreeOf(st, n).(kids := TreeOf(st, n).kids[i := (TreeOf(st, n).kids[i].0, t)])
    ensures TreeOf(st, n).kids[i].1 == TreeOf(st, st[n].next[i])
  {
    KnownFrame(st, st', n, st[n].next[i]);
    var a, b := TreesOf(st', n, st[n].next), TreesOf(st, n, st[n].next)[i := (st[st[n].next[i]].name, t)];
    forall j | 0 <= j < |st[n].next| ensures a[j] == b[j] {
      KnownKid(st, st', n, i, j, t);
    }
    assert a == b;
    TreesAt(st, n, st[n].next, i);
  }

  /** Growing below a fresh child leaves the other nodes alone. */
  lemma FreshFrame(st: Store, st': Store, n: nat, w: string)
    requires Expression.Valid(st) && n < |st| && w != "" && Expression.Valid(NewChild(st, n, w))
    requires OnlyUnder(NewChild(st, n, w), |st|, st')
    requires forall x :: 0 <= x < |st| + 1 ==> st'[x].name == NewChild(st, n, w)[x].name
    ensures |st| < |st'| && st'[|st|].name == w
    ensures forall x :: 0 <= x < |st| && x != n ==> st'[x] == st[x]
    ensures st'[n] == st[n].(next := InsertKid(st', st[n].next, |st|))
    ensures forall x :: 0 <= x < |st| ==> st'[x].name == st[x].name
  {
    var c, st1, st2 := |st|, st + [Node(w, [], n, None)], NewChild(st, n, w);
    forall x: nat | x < |st| ensures st'[x] == st2[x] {
      if Above(st2, c, x) {
        AboveBound(st2, c, x);
      }
    }
    InsertKidNames(st1, st', st[n].next, c);
  }

  lemma FreshChild(st: Store, st': Store, n: nat, w: string, rest: seq<string>, f: nat)
    requires Expression.Valid(st) && Expression.Valid(st') && n < |st| < |st'| && st'[|st|].name == w
    requires forall x :: 0 <= x < |st| && x != n ==> st'[x] == st[x]
    requires st'[n] == st[n].(next := InsertKid(st', st[n].next, |st|))
    requires TreeOf(st', |st|) == Add(BARE, rest, f)
    ensures OnlyUnder(st, n, st')
    ensures TreeOf(st', n) == TreeOf(st, n).(kids := Insert(TreeOf(st, n).kids, (w, Add(BARE, rest, f))))
  {
    TreesOfInsert(st', n, st[n].next, |st|);
    KidsSame(st, st', n, st[n].next);
    assert Above(st, n, n);
  }

  ghost predicate Grows(st: Store, n: nat, words: seq<string>, f: nat, st': Store)
    requires Expression.Valid(st) && n < |st|
  {
    && Expression.Valid(st')
    && OnlyUnder(st, n, st')
    && (forall x :: 0 <= x < |st| ==> st'[x].name == st[x].name)
    && TreeOf(st', n) == Add(TreeOf(st, n), words, f)
  }

  lemma AddKnown(t: Tree, i: nat, words: seq<string>, f: nat)
    requires words != [] && NextChild(t.kids, words[0]) == Some(i)
    ensures Add(t, words, f) == t.(kids := t.kids[i := (t.kids[i].0, Add(t.kids[i].1, words[1..], f))])
  {
  }

  lemma GrowsKnown(st: Store, n: nat, i: nat, words: seq<string>, f: nat, st': Store)
    requires Expression.Valid(st) && n < |st| && words != []
    requires NextChild(TreesOf(st, n, st[n].next), words[0]) == Some(i)
    requires i < |st[n].next| && Grows(st, st[n].next[i], words[1..], f, st')
    ensures Grows(st, n, words, f, st')
  {
    KnownChild(st, st', n, i, Add(TreeOf(st, st[n].next[i]), words[1..], f));
    AddKnown(TreeOf(st, n), i, words, f);
  }

  lemma GrowsFresh(st: Store, n: nat, words: seq<string>, f: nat, st': Store)
    requires Expression.Valid(st) && n < |st| && words != [] && words[0] != ""
    requires NextChild(TreesOf(st, n, st[n].next), words[0]).None?
    requires Expression.Valid(NewChild(st, n, words[0]))
    requires Grows(NewChild(st, n, words[0]), |st|, words[1..], f, st')
    ensures Grows(st, n, words, f, st')
  {
    assert NewChild(st, n, words[0])[|st|] == Node(words[0], [], n, None);
    assert TreeOf(NewChild(st, n, words[0]), |st|) == BARE;
    FreshFrame(st, st', n, words[0]);
    FreshChild(st, st', n, words[0], words[1..], f);
  }

  lemma GrowsFunc(st: Store, n: nat, f: nat)
    requires Expression.Valid(st) && n < |st|
    ensures Grows(st, n, [], f, st[n := st[n].(func := Some(f))])
  {
    SetFunc(st, n, f);
    assert Above(st, n, n);
  }

  /** Growing the store in place is registration on trees. */
  lemma {:induction false} AddWordsSpec(st: Store, n: nat, words: seq<string>, f: nat)
    requires Expression.Valid(st) && n < |st| && forall i :: 0 <= i < |words| ==> words[i] != ""
    ensures Grows(st, n, words, f, AddWords(st, n, words, f))
    decreases |words|
  {
    if words == [] {
      GrowsFunc(st, n, f);
    } else {
      var next := NextChild(TreesOf(st, n, st[n].next), words[0]);
      if next.Some? {
        AddWordsSpec(st, st[n].next[next.value], words[1..], f);
        GrowsKnown(st, n, next.value, words, f, AddWords(st, n, words, f));
      } else {
        NewChildValid(st, n, words[0]);
        AddWordsSpec(NewChild(st, n, words[0]), |st|, words[1..], f);
        GrowsFresh(st, n, words, f, AddWords(st, n, words, f));
      }
    }
  }

  // ---------- matching one word ----------

  /** The alternative that starts at `i`, and where the rest begins
      (`exprName.find("|", 1)`). */
  function BarFrom(s: string, i: nat): (j: nat)
    requires i <= |s|
    ensures i <= j <= |s| && (j == |s| || s[j] == '|') && '|' !in s[i..j]
    decreases |s| - i
  {
    if i == |s| || s[i] == '|' then i else BarFrom(s, i + 1)
  }

  lemma PieceEnds(s: string, text: string, i: nat, j: nat)
    requires PieceAt(s, text, i, j)
    ensures j == BarFrom(s, i)
  {
    forall k | i <= k < j ensures s[k] != '|' {
      assert s[i..j][k - i] == s[k];
    }
    BarAfter(s, i, j);
  }

  lemma {:induction false} BarAfter(s: string, i: nat, j: nat)
    requires i <= j <= |s| && (forall k :: i <= k < j ==> s[k] != '|') && (j == |s| || s[j] == '|')
    ensures BarFrom(s, i) == j
    decreases j - i
  {
    if i < j {
      BarAfter(s, i + 1, j);
    }
  }

  /** No alternative that starts before or at `j` is `text`. */
  ghost predicate NoneUpTo(s: string, text: string, j: nat) {
    forall a: nat, b: nat :: PieceAt(s, text, a, b) ==> a > j || a == j == 0
  }

  lemma NextAlternative(s: string, text: string, i: nat)
    requires i < |s| && NoneUpTo(s, text, i) && (i > 0 ==> s[i] == '|')
    requires s[if s[i] == '|' then i + 1 else i..BarFrom(s, i + 1)] != text
    ensures NoneUpTo(s, text, BarFrom(s, i + 1))
  {
    var j := BarFrom(s, i + 1);
    var start := if s[i] == '|' then i + 1 else i;
    forall k | i < k < j ensures s[k] != '|' {
      assert s[i + 1..j][k - (i + 1)] == s[k];
    }
    forall a: nat, b: nat | PieceAt(s, text, a, b) ensures a > j {
      PieceEnds(s, text, a, b);
    }
  }

  /** The loop over the alternatives of a name. */
  method MatchesAlternative(name: string, text: string) returns (found: bool)
    ensures found <==> IsPiece(Strip(name), text)
  {
    var s := Strip(name);
    var i := 0;
    found := false;
    while i < |s| && !found
      invariant i <= |s| && (0 < i < |s| ==> s[i] == '|')
      invariant if found then IsPiece(s, text) else NoneUpTo(s, text, i)
      decreases |s| - i
    {
      var j := BarFrom(s, i + 1);
      var start := if s[i] == '|' then i + 1 else i;
      if s[start..j] == text {
        found := true;
        assert '|' !in s[start..j] by {
          assert start == i ==> s[start..j] == [s[i]] + s[i + 1..j];
        }
        assert PieceAt(s, text, start, j);
      } else {
        NextAlternative(s, text, i);
      }
      i := j;
    }
  }

  lemma {:induction false} SelectAppend(st: Store, a: seq<nat>, b: seq<nat>, word: string)
    requires (forall i :: 0 <= i < |a| ==> a[i] < |st|) && forall i :: 0 <= i < |b| ==> b[i] < |st|
    ensures Select(st, a + b, word) == Select(st, a, word) + Select(st, b, word)
  {
    if a == [] {
      assert a + b == b;
    } else {
      var c := a[1..] + b;
      assert (a + b)[1..] == c && (a + b)[0] == a[0];
      SelectAppend(st, a[1..], b, word);
      var head := if Matches(st[a[0]].name, word) then [a[0]] else [];
      assert Select(st, a + b, word) == head + Select(st, c, word);
      assert head + (Select(st, a[1..], word) + Select(st, b, word)) == (head + Select(st, a[1..], word)) + Select(st, b, word);
    }
  }

  lemma {:induction false} ClosureAllAppend(st: Store, p: nat, kids: seq<nat>, d: nat, bypass: bool)
    requires Expression.Valid(st) && p < d < |st| && forall i :: 0 <= i < |kids| ==> p < kids[i] < |st|
    ensures ClosureAll(st, p, kids + [d], bypass) == ClosureAll(st, p, kids, bypass) + Closure(st, d, bypass)
  {
    if kids == [] {
      assert kids + [d] == [d];
      assert ClosureAll(st, p, [d][1..], bypass) == [];
    } else {
      assert (kids + [d])[1..] == kids[1..] + [d];
      ClosureAllAppend(st, p, kids[1..], d, bypass);
    }
  }

  lemma {:induction false} NextAllAppend(st: Store, ns: seq<nat>, n: nat, word: string)
    requires Expression.Valid(st) && n < |st| && forall i :: 0 <= i < |ns| ==> ns[i] < |st|
    ensures NextAll(st, ns + [n], word) == NextAll(st, ns, word) + NextClosure(st, n, word)
  {
    if ns == [] {
      assert ns + [n] == [n];
      assert NextAll(st, [n][1..], word) == [];
    } else {
      assert (ns + [n])[1..] == ns[1..] + [n];
      NextAllAppend(st, ns[1..], n, word);
    }
  }

  lemma {:induction false} SurvivorsAppend(st: Store, ns: seq<nat>, n: nat)
    requires Expression.Valid(st) && n < |st| && forall i :: 0 <= i < |ns| ==> ns[i] < |st|
    ensures Survivors(st, ns + [n]) == Survivors(st, ns) + if Possible(st, n) then [n] else []
  {
    if ns == [] {
      assert ns + [n] == [n];
      assert Survivors(st, [n][1..]) == [];
    } else {
      assert (ns + [n])[1..] == ns[1..] + [n];
      SurvivorsAppend(st, ns[1..], n);
    }
  }

  ghost predicate ClosureAllIn(st: Store, p: nat, kids: seq<nat>)
    requires Expression.Valid(st) && p < |st|
  {
    (forall i :: 0 <= i < |kids| ==> p < kids[i] < |st|)
    && forall i :: 0 <= i < |ClosureAll(st, p, kids, false)| ==> ClosureAll(st, p, kids, false)[i] < |st|
  }

  lemma ClosureInStore(st: Store, n: nat)
    requires Expression.Valid(st) && n < |st|
    ensures forall i :: 0 <= i < |Closure(st, n, false)| ==> Closure(st, n, false)[i] < |st|
  {
    ClosureSpec(st, n, false);
    var r := Closure(st, n, false);
    forall i | 0 <= i < |r| ensures r[i] < |st| {
      assert r[i] in r;
    }
  }

  lemma ClosureAllInStep(st: Store, p: nat, kids: seq<nat>, i: nat)
    requires Expression.Valid(st) && p < |st| && i < |kids| && kids == st[p].next && ClosureAllIn(st, p, kids[..i])
    ensures ClosureAllIn(st, p, kids[..i + 1])
  {
    ClosureInStore(st, kids[i]);
    assert kids[..i + 1] == kids[..i] + [kids[i]];
    ClosureAllAppend(st, p, kids[..i], kids[i], false);
  }

  /** What interpretCommand holds after some words: once a word is not consumed
      it stops and keeps the last state. */
  ghost predicate StateAfter(st: Store, words: seq<string>, invalid: bool, current: seq<nat>)
    requires Expression.Valid(st)
  {
    && (forall i :: 0 <= i < |current| ==> current[i] < |st|)
    && (if invalid then Current(st, words) == [] else current == Current(st, words))
  }

  lemma FedStep(done: seq<string>, s: string, text: string)
    ensures done + Fed(s, text) == (done + [Extract(s, text).word])
              + if Extract(s, text).eof then [] else Fed(Extract(s, text).rest, Extract(s, text).word)
  {
  }

  lemma CurrentStep(st: Store, done: seq<string>, current: seq<nat>, word: string)
    requires Expression.Valid(st) && StateAfter(st, done, false, current)
    ensures Current(st, done + [word]) == NextAll(st, current, word)
    ensures forall i :: 0 <= i < |NextAll(st, current, word)| ==> NextAll(st, current, word)[i] < |st|
  {
    assert (done + [word])[..|done|] == done;
  }

  /** A word that nothing consumes ends every way. */
  lemma {:induction false} StuckStays(st: Store, words: seq<string>, more: seq<string>, invalid: bool, current: seq<nat>)
    requires Expression.Valid(st) && StateAfter(st, words, invalid, current) && (!invalid ==> more == [])
    ensures StateAfter(st, words + more, invalid, current)
    decreases |more|
  {
    if more == [] {
      assert words + more == words;
    } else {
      assert (words + more)[..|words + more| - 1] == words + more[..|more| - 1];
      StuckStays(st, words, more[..|more| - 1], invalid, current);
    }
  }

  // ---------- the interpreter ----------

  class ExpressionInterpreter {
    /** The objects reachable from mpRoot, in creation order; empty while mpRoot
        is null. */
    var nodes: seq<Node>
    /** What was registered so far. */
    ghost var registered: seq<Command>

    ghost predicate Valid()
      reads this
    {
      if nodes == [] then registered == []
      else Expression.Valid(nodes) && TreeOf(nodes, 0) == Build(registered)
    }

    constructor ()
      ensures Valid() && registered == []
    {
      nodes := [];
      registered := [];
    }

    /** Expression::getNextExpression. */
    method GetNextExpression(n: nat, text: string) returns (child: Option<nat>)
      requires Expression.Valid(nodes) && n < |nodes|
      ensures child == match NextChild(TreesOf(nodes, n, nodes[n].next), text)
                       case Some(i) => Some(nodes[n].next[i])
                       case None => None
    {
      ghost var trees := TreesOf(nodes, n, nodes[n].next);
      var nameMatch: Option<nat>, varMatch: Option<nat> := None, None;
      var i := 0;
      while i < |nodes[n].next|
        invariant i <= |nodes[n].next|
        invariant nameMatch == NameMatch(trees[..i], text) && varMatch == VarMatch(trees[..i])
      {
        var expr := nodes[n].next[i];
        TreesAt(nodes, n, nodes[n].next, i);
        if nodes[expr].name == text {
          nameMatch := Some(i);
        }
        if IsVar(nodes[expr].name) {
          varMatch := Some(i);
        }
        assert trees[..i + 1][..i] == trees[..i];
        i := i + 1;
      }
      assert trees[..i] == trees;
      MatchSpec(trees, text);
      if nameMatch.Some? {
        child := Some(nodes[n].next[nameMatch.value]);
      } else if varMatch.Some? {
        child := Some(nodes[n].next[varMatch.value]);
      } else {
        child := None;
      }
    }

    /** Expression::addNextExpression with a new expression. */
    method AddNextExpression(n: nat, text: string) returns (child: nat)
      requires Expression.Valid(nodes) && n < |nodes| && text != ""
      modifies this`nodes
      ensures nodes == NewChild(old(nodes), n, text) && child == |old(nodes)|
    {
      child := |nodes|;
      nodes := nodes + [Node(text, [], n, None)];
      nodes := nodes[n := nodes[n].(next := InsertKid(nodes, nodes[n].next, child))];
    }

    /** One round of addExpression's loop. */
    method FollowOrGrow(current: nat, text: string, ghost more: seq<string>, ghost f: nat) returns (next: nat)
      requires Expression.Valid(nodes) && current < |nodes| && text != ""
      requires forall i :: 0 <= i < |more| ==> more[i] != ""
      modifies this`nodes
      ensures Expression.Valid(nodes) && next < |nodes|
      ensures AddWords(nodes, next, more, f) == AddWords(old(nodes), current, [text] + more, f)
    {
      assert ([text] + more)[1..] == more;
      var child := GetNextExpression(current, text);
      if child.Some? {
        next := child.value;
      } else {
        NewChildValid(nodes, current, text);
        next := AddNextExpression(current, text);
      }
    }

    /** addExpression's loop. */
    method Grow(f: nat, command: string)
      requires Expression.Valid(nodes) && HasWord(command)
      requires forall i :: 0 <= i < |Fed(command, "")| ==> LowerAll(Fed(command, ""))[i] != ""
      modifies this`nodes
      ensures nodes == AddWords(old(nodes), 0, LowerAll(Fed(command, "")), f)
    {
      var current: nat := 0;
      var rest, text, eof := command, "", false;
      ghost var todo := LowerAll(Fed(command, ""));
      while !eof
        invariant Expression.Valid(nodes) && current < |nodes|
        invariant todo == if eof then [] else LowerAll(Fed(rest, text))
        invariant forall i :: 0 <= i < |todo| ==> todo[i] != ""
        invariant AddWords(nodes, current, todo, f) == AddWords(old(nodes), 0, LowerAll(Fed(command, "")), f)
        decreases if eof then 0 else 1 + |rest|
      {
        var x := Extract(rest, text);
        FedLower(x.rest, x.word);
        text, rest, eof := Lower(x.word), x.rest, x.eof;
        ghost var more := if eof then [] else LowerAll(Fed(rest, text));
        assert todo == [text] + more;
        assert text == todo[0] && forall i :: 0 <= i < |more| ==> more[i] == todo[i + 1];
        current := FollowOrGrow(current, text, more, f);
        todo := more;
      }
      nodes := nodes[current := nodes[current].(func := Some(f))];
    }

    /** addExpression. */
    method AddExpression(f: nat, command: string)
      requires Valid() && HasWord(command)
      modifies this
      ensures Valid() && nodes != []
      ensures registered == old(registered) + [(LowerAll(Fed(command, "")), f)]
    {
      if nodes == [] {
        nodes := [Node("[root]", [], 0, None)];
        assert TreeOf(nodes, 0) == BARE;
      }
      ghost var words := LowerAll(Fed(command, ""));
      FedNonEmpty(command, "");
      AddWordsSpec(nodes, 0, words, f);
      Grow(f, command);
      registered := registered + [(words, f)];
      assert registered[..|registered| - 1] == old(registered);
    }

    /** The loop over one child's closure in getNextExpressionClosure. */
    method PushMatches(closure: seq<nat>, word: string, given: string) returns (matching: seq<nat>, text: string)
      requires forall i :: 0 <= i < |closure| ==> closure[i] < |nodes|
      requires given == word || given == Lower(word)
      ensures text == word || text == Lower(word)
      ensures matching == Select(nodes, closure, word)
    {
      text := given;
      matching := [];
      var k := 0;
      while k < |closure|
        invariant k <= |closure|
        invariant text == word || text == Lower(word)
        invariant matching == Select(nodes, closure[..k], word)
      {
        var name := nodes[closure[k]].name;
        if name != "<file>" && name != "<filename>" {
          assert Lower(Lower(word)) == Lower(word);
          text := Lower(text);
        }
        var matches := true;
        if !IsVar(name) {
          matches := MatchesAlternative(name, text);
        }
        SelectAppend(nodes, closure[..k], [closure[k]], word);
        assert Select(nodes, [closure[k]][1..], word) == [];
        assert closure[..k + 1] == closure[..k] + [closure[k]];
        if matches {
          matching := matching + [closure[k]];
        }
        k := k + 1;
      }
      assert closure[..k] == closure;
    }

    /** Expression::getNextExpressionClosure. */
    method GetNextExpressionClosure(n: nat, word: string) returns (nextClosure: seq<nat>)
      requires Expression.Valid(nodes) && n < |nodes|
      ensures nextClosure == NextClosure(nodes, n, word)
    {
      var text := word;
      var kids := nodes[n].next;
      nextClosure := [];
      var i := 0;
      while i < |kids|
        invariant i <= |kids|
        invariant text == word || text == Lower(word)
        invariant ClosureAllIn(nodes, n, kids[..i])
        invariant nextClosure == Select(nodes, ClosureAll(nodes, n, kids[..i], false), word)
      {
        var closure := Closure(nodes, kids[i], false);
        ClosureInStore(nodes, kids[i]);
        ClosureAllAppend(nodes, n, kids[..i], kids[i], false);
        assert kids[..i + 1] == kids[..i] + [kids[i]];
        ClosureAllInStep(nodes, n, kids, i);
        SelectAppend(nodes, ClosureAll(nodes, n, kids[..i], false), closure, word);
        var matching;
        matching, text := PushMatches(closure, word, text);
        nextClosure := nextClosure + matching;
        i := i + 1;
      }
      assert kids[..i] == kids;
    }

    /** The states after one more word. */
    method NextStates(currentState: seq<nat>, text: string) returns (nextState: seq<nat>)
      requires Expression.Valid(nodes) && forall i :: 0 <= i < |currentState| ==> currentState[i] < |nodes|
      ensures nextState == NextAll(nodes, currentState, text)
    {
      nextState := [];
      var i := 0;
      while i < |currentState|
        invariant i <= |currentState|
        invariant nextState == NextAll(nodes, currentState[..i], text)
      {
        var exprNextList := GetNextExpressionClosure(currentState[i], text);
        NextAllAppend(nodes, currentState[..i], currentState[i], text);
        assert currentState[..i + 1] == currentState[..i] + [currentState[i]];
        nextState := nextState + exprNextList;
        i := i + 1;
      }
      assert currentState[..i] == currentState;
    }

    /** interpretCommand's loop over the words. */
    method Recognise(userInput: string) returns (invalid: bool, currentState: seq<nat>)
      requires Expression.Valid(nodes)
      ensures StateAfter(nodes, Fed(userInput, ""), invalid, currentState)
    {
      ghost var done: seq<string>, todo := [], Fed(userInput, "");
      invalid, currentState := false, [0];
      var rest, text, eof := userInput, "", false;
      while !invalid && !eof
        invariant todo == if eof then [] else Fed(rest, text)
        invariant Fed(userInput, "") == done + todo
        invariant StateAfter(nodes, done, invalid, currentState)
        decreases if eof then 0 else 1 + |rest|
      {
        FedStep(done, rest, text);
        var x := Extract(rest, text);
        text, rest, eof := x.word, x.rest, x.eof;
        todo := if eof then [] else Fed(rest, text);
        var nextState := NextStates(currentState, text);
        CurrentStep(nodes, done, currentState, text);
        done := done + [text];
        if |nextState| > 0 {
          currentState := nextState;
        } else {
          invalid := true;
        }
      }
      StuckStays(nodes, done, todo, invalid, currentState);
    }

    /** The filter on the final state. */
    method KeepPossible(currentState: seq<nat>) returns (finalState: seq<nat>)
      requires Expression.Valid(nodes) && forall i :: 0 <= i < |currentState| ==> currentState[i] < |nodes|
      ensures finalState == Survivors(nodes, currentState)
    {
      finalState := [];
      var i := 0;
      while i < |currentState|
        invariant i <= |currentState|
        invariant finalState == Survivors(nodes, currentState[..i])
      {
        var possible := IsPossible(currentState[i]);
        if possible {
          finalState := finalState + [currentState[i]];
        }
        SurvivorsAppend(nodes, currentState[..i], currentState[i]);
        assert currentState[..i + 1] == currentState[..i] + [currentState[i]];
        i := i + 1;
      }
      assert currentState[..i] == currentState;
    }

    /** interpretCommand. `ready` is whether ilm_init succeeds. */
    method InterpretCommand(userInput: string, ready: bool) returns (result: CommandResult)
      requires Valid() && nodes != []
      ensures result == match Interpret(nodes, Fed(userInput, ""))
                        case Executed(e) => if ready then Executed(e) else Failed
                        case other => other
    {
      var invalid, currentState := Recognise(userInput);
      var finalState := KeepPossible(currentState);
      if invalid || |finalState| != 1 {
        return Invalid;
      }
      var executables := ExecClosure(nodes, finalState[0], false);
      if |executables| == 1 {
        result := if ready then Executed(executables[0]) else Failed;
      } else {
        result := Incomplete;
      }
    }

    method IsPossible(n: nat) returns (possible: bool)
      requires Expression.Valid(nodes) && n < |nodes|
      ensures possible == Possible(nodes, n)
    {
      if nodes[n].func.Some? {
        return true;
      }
      var flag := false;
      var i := 0;
      while i < |nodes[n].next|
        invariant i <= |nodes[n].next|
        invariant flag <==> exists k :: 0 <= k < i && Opens(nodes[nodes[n].next[k]].name)
      {
        if Opens(nodes[nodes[n].next[i]].name) {
          flag := true;
        }
        i := i + 1;
      }
      return flag || nodes[n].next == [];
    }
  }
}
