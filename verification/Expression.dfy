/** The command grammar as an automaton (Expression.cpp): a trie of words with
    `[optional]` groups, `a|b` alternatives and `<variables>`. Nodes are named
    by their position in a store in creation order, so a node's parent always
    comes before it. */
module Expression {
  import opened WlList

  datatype Node = Node(name: string, next: seq<nat>, parent: nat, func: Option<nat>)

  type Store = seq<Node>

  /** The parent of `c` comes before it and lists it. */
  predicate LinkedUp(st: Store, c: nat)
    requires c < |st|
  {
    st[c].parent < c && c in st[st[c].parent].next
  }

  /** The store is one tree with root 0. */
  ghost predicate Valid(st: Store) {
    && |st| > 0
    && (forall i, j :: 0 <= i < |st| && 0 <= j < |st[i].next| ==>
         i < st[i].next[j] < |st| && st[st[i].next[j]].parent == i)
    && (forall i :: 0 <= i < |st| ==> NoDup(st[i].next) && st[i].name != "")
    && (forall c: nat {:trigger LinkedUp(st, c)} :: 0 < c < |st| ==> LinkedUp(st, c))
  }

  // ---------- names ----------

  predicate Opens(name: string) {
    name != "" && name[0] == '['
  }

  predicate Closes(name: string) {
    name != "" && name[|name| - 1] == ']'
  }

  /** Expression::isVar. */
  predicate IsVar(name: string) {
    name != "" && (name[0] == '<' || (name[0] == '[' && |name| > 1 && name[1] == '<'))
  }

  /** The name without its group brackets. */
  function Strip(name: string): string {
    var s := if Opens(name) then name[1..] else name;
    if Closes(s) then s[..|s| - 1] else s
  }

  function Lower(s: string): (r: string)
    ensures |r| == |s|
  {
    seq(|s|, i requires 0 <= i < |s| => if 'A' <= s[i] <= 'Z' then s[i] - 'A' + 'a' else s[i])
  }

  predicate IsLetter(c: char) {
    'A' <= c <= 'Z' || 'a' <= c <= 'z'
  }

  /** The same letter, large or small, or the same character. */
  predicate SameLetter(c: char, d: char) {
    c == d || (IsLetter(c) && IsLetter(d) && (c as int - d as int == 32 || d as int - c as int == 32))
  }

  /** Words are lower-cased to the same word if and only if they differ in letter
      case only, and the result has no large letter. */
  lemma LowerSpec(s: string, t: string)
    ensures Lower(s) == Lower(t) <==> |s| == |t| && forall i :: 0 <= i < |s| ==> SameLetter(s[i], t[i])
    ensures forall i :: 0 <= i < |s| ==> SameLetter(s[i], Lower(s)[i]) && !('A' <= Lower(s)[i] <= 'Z')
  {
    if Lower(s) == Lower(t) {
      forall i | 0 <= i < |s| ensures SameLetter(s[i], t[i]) {
        assert Lower(s)[i] == Lower(t)[i];
      }
    }
  }

  /** `text` stands in `s` between two bars, or a bar and an end; an empty
      alternative counts only after a bar. */
  predicate PieceAt(s: string, text: string, i: nat, j: nat) {
    i <= j <= |s| && s[i..j] == text && '|' !in text
    && (if i == 0 then text != "" else s[i - 1] == '|') && (j == |s| || s[j] == '|')
  }

  predicate IsPiece(s: string, text: string) {
    exists i, j :: 0 <= i <= j <= |s| && PieceAt(s, text, i, j)
  }

  /** A node consumes any word if it is a variable, otherwise one of its
      alternatives in any letter case. */
  predicate Matches(name: string, word: string) {
    IsVar(name) || IsPiece(Strip(name), Lower(word))
  }

  /** No bracket at either end. */
  predicate Plain(x: string) {
    x != "" && x[0] != '[' && x[|x| - 1] != ']'
  }

  /** Group brackets change when a word is reached, not what it matches. */
  lemma BracketsAside(x: string, word: string)
    requires Plain(x)
    ensures Matches("[" + x, word) == Matches(x, word)
    ensures Matches(x + "]", word) == Matches(x, word)
    ensures Matches("[" + x + "]", word) == Matches(x, word)
    ensures !Opens(x) && !Closes(x) && Opens("[" + x) && Closes(x + "]") && !Opens(x + "]") && !Closes("[" + x)
  {
    var a, b, c := "[" + x, x + "]", "[" + x + "]";
    assert a[1..] == x && a[|a| - 1] == x[|x| - 1] && a[1] == x[0];
    assert b[0] == x[0] && b[..|x|] == x;
    assert c[1..] == b && c[1] == x[0];
    assert Strip(a) == x && Strip(b) == x && Strip(c) == x && Strip(x) == x;
  }

  /** A variable matches everything, a list of alternatives what one of them does,
      a single word itself; in any letter case. */
  lemma MatchesWhat(x: string, y: string, word: string)
    requires Plain(x) && Plain(y) && x[0] != '<' && '|' !in x && '|' !in y
    ensures Matches("<" + x + ">", word)
    ensures Matches(x, word) <==> Lower(word) == x
    ensures Matches(x + "|" + y, word) <==> Lower(word) == x || Lower(word) == y
  {
    var s, t := x + "|" + y, Lower(word);
    assert Strip(x) == x && s[0] == x[0] && s[|s| - 1] == y[|y| - 1] && Strip(s) == s;
    if t == x {
      assert PieceAt(x, t, 0, |x|) by {
        assert x[0..|x|] == x;
      }
      assert PieceAt(s, t, 0, |x|) by {
        assert s[0..|x|] == x && s[|x|] == '|';
      }
    }
    if t == y {
      assert PieceAt(s, t, |x| + 1, |s|) by {
        assert s[|x| + 1..|s|] == y && s[|x|] == '|';
      }
    }
    if IsPiece(x, t) {
      OnePiece(x, t);
    }
    if IsPiece(s, t) {
      OneOfTwo(x, y, t);
    }
  }

  lemma OnePiece(x: string, t: string)
    requires '|' !in x && IsPiece(x, t)
    ensures t == x
  {
    assert x[0..|x|] == x && forall k :: 0 <= k < |x| ==> x[k] in x;
    var i, j :| 0 <= i <= j <= |x| && PieceAt(x, t, i, j);
  }

  lemma OneOfTwo(x: string, y: string, t: string)
    requires '|' !in x && '|' !in y && IsPiece(x + "|" + y, t)
    ensures t == x || t == y
  {
    var s := x + "|" + y;
    forall k | 0 <= k < |s| && k != |x| ensures s[k] != '|' {
      if k < |x| {
        assert s[k] == x[k] && x[k] in x;
      } else {
        assert s[k] == y[k - |x| - 1] && y[k - |x| - 1] in y;
      }
    }
    assert s[0..|s|] == s && '|' in s && s[0..|x|] == x && s[|x| + 1..|s|] == y;
    var i, j :| 0 <= i <= j <= |s| && PieceAt(s, t, i, j);
  }

  // ---------- the closures of the code ----------

  /** Expression::getClosure. */
  function Closure(st: Store, n: nat, bypass: bool): seq<nat>
    requires Valid(st) && n < |st|
    decreases |st| - n, if bypass then 1 else 2, 0
  {
    if bypass then ClosureAll(st, n, st[n].next, !Closes(st[n].name))
    else [n] + if Opens(st[n].name) then Closure(st, n, true) else []
  }

  function ClosureAll(st: Store, p: nat, kids: seq<nat>, bypass: bool): seq<nat>
    requires Valid(st) && p < |st| && forall i :: 0 <= i < |kids| ==> p < kids[i] < |st|
    decreases |st| - p, 0, |kids|
  {
    if kids == [] then [] else Closure(st, kids[0], bypass) + ClosureAll(st, p, kids[1..], bypass)
  }

  function Select(st: Store, ts: seq<nat>, word: string): seq<nat>
    requires forall i :: 0 <= i < |ts| ==> ts[i] < |st|
  {
    if ts == [] then [] else (if Matches(st[ts[0]].name, word) then [ts[0]] else []) + Select(st, ts[1..], word)
  }

  /** Expression::getNextExpressionClosure. */
  function NextClosure(st: Store, n: nat, word: string): seq<nat>
    requires Valid(st) && n < |st|
  {
    ClosureBounded(st, n, st[n].next, false);
    Select(st, ClosureAll(st, n, st[n].next, false), word)
  }

  function NextAll(st: Store, ns: seq<nat>, word: string): (r: seq<nat>)
    requires Valid(st) && forall i :: 0 <= i < |ns| ==> ns[i] < |st|
    ensures forall i :: 0 <= i < |r| ==> r[i] < |st|
  {
    if ns == [] then []
    else
      NextBounded(st, ns[0], word);
      NextClosure(st, ns[0], word) + NextAll(st, ns[1..], word)
  }

  /** `currentState` after the words. */
  function Current(st: Store, words: seq<string>): (r: seq<nat>)
    requires Valid(st)
    ensures forall i :: 0 <= i < |r| ==> r[i] < |st|
  {
    if words == [] then [0] else NextAll(st, Current(st, words[..|words| - 1]), words[|words| - 1])
  }

  // ---------- what the closures are for ----------

  /** `c` is `t` or an ancestor of `t`. */
  predicate Above(st: Store, c: nat, t: nat)
    requires Valid(st) && t < |st|
    decreases t
  {
    t == c || (t > 0 && LinkedUp(st, t) && Above(st, c, st[t].parent))
  }

  /** Names on the way from `c` to `t`, `t` left out. */
  function Way(st: Store, c: nat, t: nat): seq<string>
    requires Valid(st) && t < |st| && Above(st, c, t)
    decreases t
  {
    if t == c then []
    else
      assert LinkedUp(st, t);
      Way(st, c, st[t].parent) + [st[st[t].parent].name]
  }

  /** A group: opened by its first word, closed by its last and none before. */
  ghost predicate IsGroup(g: seq<string>) {
    g != [] && Opens(g[0]) && Closes(g[|g| - 1]) && forall i :: 0 <= i < |g| - 1 ==> !Closes(g[i])
  }

  /** The words are whole groups one after another. */
  ghost predicate WholeGroups(ns: seq<string>)
    decreases |ns|
  {
    ns == [] || exists k :: 0 < k <= |ns| && IsGroup(ns[..k]) && WholeGroups(ns[k..])
  }

  /** Word-by-word form of WholeGroups; `inside` is set within a group. */
  predicate Skips(ns: seq<string>, inside: bool) {
    if ns == [] then !inside
    else (inside || Opens(ns[0])) && Skips(ns[1..], !Closes(ns[0]))
  }

  /** The first closing word is the last of the first `k`. */
  ghost predicate ClosesAt(ns: seq<string>, k: nat) {
    0 < k <= |ns| && Closes(ns[k - 1]) && forall i :: 0 <= i < k - 1 ==> !Closes(ns[i])
  }

  /** The rest of an open group, up to its closing word, then whole groups. */
  ghost predicate ClosesThenGroups(ns: seq<string>) {
    exists k: nat :: ClosesAt(ns, k) && WholeGroups(ns[k..])
  }

  lemma GroupAt(ns: seq<string>, k: nat)
    requires 0 < k <= |ns|
    ensures IsGroup(ns[..k]) <==> Opens(ns[0]) && ClosesAt(ns, k)
  {
    var g := ns[..k];
    assert g[0] == ns[0] && g[|g| - 1] == ns[k - 1];
    assert forall i :: 0 <= i < k - 1 ==> g[i] == ns[i];
  }

  lemma GroupStep(ns: seq<string>)
    requires ns != []
    ensures WholeGroups(ns) <==> Opens(ns[0]) && ClosesThenGroups(ns)
  {
    if WholeGroups(ns) {
      var k :| 0 < k <= |ns| && IsGroup(ns[..k]) && WholeGroups(ns[k..]);
      GroupAt(ns, k);
    }
    if Opens(ns[0]) && ClosesThenGroups(ns) {
      var k: nat :| ClosesAt(ns, k) && WholeGroups(ns[k..]);
      GroupAt(ns, k);
    }
  }

  lemma {:induction false} SkipsIsWholeGroups(ns: seq<string>)
    ensures Skips(ns, false) <==> WholeGroups(ns)
    ensures Skips(ns, true) <==> ClosesThenGroups(ns)
    decreases |ns|
  {
    if ns != [] {
      SkipsIsWholeGroups(ns[1..]);
      InsideStep(ns);
      GroupStep(ns);
    }
  }

  lemma InsideStep(ns: seq<string>)
    requires ns != []
    ensures ClosesThenGroups(ns) <==> if Closes(ns[0]) then WholeGroups(ns[1..]) else ClosesThenGroups(ns[1..])
  {
    var rest := ns[1..];
    if ClosesThenGroups(ns) {
      var k: nat :| ClosesAt(ns, k) && WholeGroups(ns[k..]);
      if k > 1 {
        assert rest[k - 1..] == ns[k..];
        assert ClosesAt(rest, k - 1);
      }
    }
    if Closes(ns[0]) && WholeGroups(rest) {
      assert ClosesAt(ns, 1) && ns[1..] == rest;
    }
    if !Closes(ns[0]) && ClosesThenGroups(rest) {
      var k: nat :| ClosesAt(rest, k) && WholeGroups(rest[k..]);
      assert ns[k + 1..] == rest[k..];
      forall i | 0 <= i < k ensures !Closes(ns[i]) {
        assert i > 0 ==> ns[i] == rest[i - 1];
      }
      assert ClosesAt(ns, k + 1);
    }
  }

  // ---------- paths in the trie ----------

  lemma {:induction false} AboveBound(st: Store, c: nat, t: nat)
    requires Valid(st) && t < |st| && Above(st, c, t)
    ensures c <= t
    decreases t
  {
    if t != c {
      AboveBound(st, c, st[t].parent);
    }
  }

  lemma {:induction false} ChildAbove(st: Store, c: nat, d: nat, t: nat)
    requires Valid(st) && c < |st| && t < |st| && d in st[c].next && Above(st, d, t)
    ensures Above(st, c, t) && t != c && Way(st, c, t) == [st[c].name] + Way(st, d, t)
    decreases t
  {
    AboveBound(st, d, t);
    if t != d {
      ChildAbove(st, c, d, st[t].parent);
    }
  }

  lemma {:induction false} ChildTowards(st: Store, c: nat, t: nat) returns (d: nat)
    requires Valid(st) && t < |st| && Above(st, c, t) && t != c
    ensures c < |st| && d in st[c].next && d < |st| && Above(st, d, t)
    decreases t
  {
    AboveBound(st, c, t);
    if st[t].parent == c {
      d := t;
    } else {
      d := ChildTowards(st, c, st[t].parent);
    }
  }

  lemma {:induction false} OneChild(st: Store, c: nat, d: nat, e: nat, t: nat)
    requires Valid(st) && c < |st| && t < |st| && d in st[c].next && e in st[c].next
    requires Above(st, d, t) && Above(st, e, t)
    ensures d == e
    decreases t
  {
    if t == d && t != e {
      AboveBound(st, e, st[t].parent);
    } else if t == e && t != d {
      AboveBound(st, d, st[t].parent);
    } else if t != d {
      OneChild(st, c, d, e, st[t].parent);
    }
  }

  // ---------- closures reach exactly what skipping groups allows ----------

  /** `t` can be reached from `n` when the words from `n` up to it are skipped. */
  predicate Reaches(st: Store, n: nat, t: nat, inside: bool)
    requires Valid(st)
  {
    t < |st| && Above(st, n, t) && Skips(Way(st, n, t), inside)
  }

  lemma {:induction false} ClosureSpec(st: Store, n: nat, bypass: bool)
    requires Valid(st) && n < |st|
    ensures forall t: nat :: t in Closure(st, n, bypass) <==> Reaches(st, n, t, bypass)
    ensures NoDup(Closure(st, n, bypass))
    decreases |st| - n, if bypass then 1 else 2, 0
  {
    if bypass {
      var inside := !Closes(st[n].name);
      ClosureAllSpec(st, n, st[n].next, inside);
      forall t: nat ensures t in Closure(st, n, true) <==> Reaches(st, n, t, true) {
        ViaChild(st, n, t, inside);
        if t in Closure(st, n, true) {
          var d :| d in st[n].next && Reaches(st, d, t, inside);
          ChildAbove(st, n, d, t);
        }
      }
    } else {
      if Opens(st[n].name) {
        ClosureSpec(st, n, true);
      }
      forall t: nat ensures t in Closure(st, n, false) <==> Reaches(st, n, t, false) {
        if t < |st| && t != n && Above(st, n, t) {
          var d := ChildTowards(st, n, t);
          ChildAbove(st, n, d, t);
        }
      }
      if Opens(st[n].name) {
        assert !Reaches(st, n, n, true);
        NoDupCons(n, Closure(st, n, true));
      }
    }
  }

  /** Reaching past `n` means reaching through one of its children. */
  lemma ViaChild(st: Store, n: nat, t: nat, inside: bool)
    requires Valid(st) && n < |st| && inside == !Closes(st[n].name)
    ensures Reaches(st, n, t, true) ==> exists d :: d in st[n].next && Reaches(st, d, t, inside)
    ensures forall d :: d in st[n].next && Reaches(st, d, t, inside) ==> Reaches(st, n, t, true)
  {
    if Reaches(st, n, t, true) {
      var d := ChildTowards(st, n, t);
      ChildAbove(st, n, d, t);
      assert Way(st, n, t)[1..] == Way(st, d, t);
    }
    forall d | d in st[n].next && Reaches(st, d, t, inside) ensures Reaches(st, n, t, true) {
      ChildAbove(st, n, d, t);
      assert Way(st, n, t)[1..] == Way(st, d, t);
    }
  }

  lemma {:induction false} ClosureAllSpec(st: Store, p: nat, kids: seq<nat>, bypass: bool)
    requires Valid(st) && p < |st| && NoDup(kids) && forall i :: 0 <= i < |kids| ==> kids[i] in st[p].next
    ensures forall t: nat :: t in ClosureAll(st, p, kids, bypass) <==> exists d :: d in kids && Reaches(st, d, t, bypass)
    ensures NoDup(ClosureAll(st, p, kids, bypass))
    decreases |st| - p, 0, |kids|
  {
    if kids != [] {
      var a, b := Closure(st, kids[0], bypass), ClosureAll(st, p, kids[1..], bypass);
      assert kids == [kids[0]] + kids[1..];
      ClosureSpec(st, kids[0], bypass);
      ClosureAllSpec(st, p, kids[1..], bypass);
      forall t | t in a ensures t !in b {
        if t in b {
          var d :| d in kids[1..] && Reaches(st, d, t, bypass);
          OneChild(st, p, kids[0], d, t);
        }
      }
      NoDupConcat(a, b);
      forall t: nat ensures t in a + b <==> exists d :: d in kids && Reaches(st, d, t, bypass) {
        if t in b {
          var d :| d in kids[1..] && Reaches(st, d, t, bypass);
          assert d in kids;
        } else if t in a {
          assert kids[0] in kids && Reaches(st, kids[0], t, bypass);
        }
      }
    }
  }

  lemma NoDupConcat<T>(a: seq<T>, b: seq<T>)
    requires NoDup(a) && NoDup(b) && forall x :: x in a ==> x !in b
    ensures NoDup(a + b)
  {
    var s := a + b;
    forall i, j | 0 <= i < j < |s| ensures s[i] != s[j] {
      if i < |a| <= j {
        assert s[i] in a && s[j] == b[j - |a|];
      }
    }
  }

  lemma ClosureBounded(st: Store, p: nat, kids: seq<nat>, bypass: bool)
    requires Valid(st) && p < |st| && NoDup(kids) && forall i :: 0 <= i < |kids| ==> kids[i] in st[p].next
    ensures forall i :: 0 <= i < |ClosureAll(st, p, kids, bypass)| ==> ClosureAll(st, p, kids, bypass)[i] < |st|
  {
    ClosureAllSpec(st, p, kids, bypass);
    var r := ClosureAll(st, p, kids, bypass);
    forall i | 0 <= i < |r| ensures r[i] < |st| {
      assert r[i] in r;
    }
  }

  lemma NextBounded(st: Store, n: nat, word: string)
    requires Valid(st) && n < |st|
    ensures forall i :: 0 <= i < |NextClosure(st, n, word)| ==> NextClosure(st, n, word)[i] < |st|
  {
    ClosureBounded(st, n, st[n].next, false);
    SelectSpec(st, ClosureAll(st, n, st[n].next, false), word);
    var r := NextClosure(st, n, word);
    forall i | 0 <= i < |r| ensures r[i] < |st| {
      assert r[i] in r;
    }
  }

  lemma {:induction false} SelectSpec(st: Store, ts: seq<nat>, word: string)
    requires forall i :: 0 <= i < |ts| ==> ts[i] < |st|
    ensures forall t: nat :: t in Select(st, ts, word) <==> t in ts && Matches(st[t].name, word)
    ensures NoDup(ts) ==> NoDup(Select(st, ts, word))
  {
    if ts != [] {
      assert ts == [ts[0]] + ts[1..];
      SelectSpec(st, ts[1..], word);
      if NoDup(ts) {
        assert ts[0] !in ts[1..];
        if Matches(st[ts[0]].name, word) {
          NoDupCons(ts[0], Select(st, ts[1..], word));
        }
      }
    }
  }
}
