/** The list idioms of the C code.
    A `wl_list` of records that is always searched by a key is a sequence of
    (key, value) pairs, head of the list first. Searching stops at the first
    match, insertion is at the head, removal unlinks the first match. */
module WlList {

  datatype Option<+T> = None | Some(value: T)

  ghost predicate NoDup<T>(s: seq<T>) {
    forall i, j :: 0 <= i < j < |s| ==> s[i] != s[j]
  }

  /** First value stored under `k`. */
  function Lookup<K(==), V>(l: seq<(K, V)>, k: K): Option<V> {
    if l == [] then None else if l[0].0 == k then Some(l[0].1) else Lookup(l[1..], k)
  }

  /** Keys in list order. */
  function Keys<K, V>(l: seq<(K, V)>): (r: seq<K>)
    ensures |r| == |l| && forall i :: 0 <= i < |l| ==> r[i] == l[i].0
  {
    seq(|l|, i requires 0 <= i < |l| => l[i].0)
  }

  /** Overwrites the value of the first record with key `k`, if there is one. */
  function Put<K(==), V>(l: seq<(K, V)>, k: K, v: V): (r: seq<(K, V)>)
    ensures Keys(r) == Keys(l)
  {
    if l == [] then []
    else if l[0].0 == k then
      var r := [(k, v)] + l[1..];
      assert Keys(r) == Keys(l);
      r
    else
      var r := [l[0]] + Put(l[1..], k, v);
      assert forall i :: 0 < i < |l| ==> Keys(l)[i] == Keys(l[1..])[i - 1];
      assert forall i :: 0 < i < |l| ==> Keys(r)[i] == Keys(r[1..])[i - 1];
      assert Keys(r) == Keys(l);
      r
  }

  /** Unlinks the first record with key `k`, if there is one. */
  function Remove<K(==), V>(l: seq<(K, V)>, k: K): (r: seq<(K, V)>) {
    if l == [] then [] else if l[0].0 == k then l[1..] else [l[0]] + Remove(l[1..], k)
  }

  /** Unlinks the first occurrence of `x`. */
  function Drop<T(==)>(s: seq<T>, x: T): (r: seq<T>) {
    if s == [] then [] else if s[0] == x then s[1..] else [s[0]] + Drop(s[1..], x)
  }

  function Reverse<T>(s: seq<T>): (r: seq<T>)
    ensures |r| == |s| && forall i :: 0 <= i < |s| ==> r[i] == s[|s| - 1 - i]
  {
    seq(|s|, i requires 0 <= i < |s| => s[|s| - 1 - i])
  }

  lemma KeysTail<K, V>(l: seq<(K, V)>)
    requires l != []
    ensures Keys(l) == [l[0].0] + Keys(l[1..])
    ensures Keys(l)[1..] == Keys(l[1..])
  {
  }

  lemma {:induction false} LookupKeys<K, V>(l: seq<(K, V)>, k: K)
    ensures Lookup(l, k).Some? <==> k in Keys(l)
  {
    if l != [] {
      KeysTail(l);
      LookupKeys(l[1..], k);
    }
  }

  lemma {:induction false} LookupPut<K, V>(l: seq<(K, V)>, k: K, v: V, x: K)
    ensures Lookup(Put(l, k, v), x) == if x == k && Lookup(l, k).Some? then Some(v) else Lookup(l, x)
  {
    if l != [] && l[0].0 != k {
      var r := Put(l, k, v);
      assert r[0] == l[0] && r[1..] == Put(l[1..], k, v);
      LookupPut(l[1..], k, v, x);
    }
  }

  lemma {:induction false} LookupRemove<K, V>(l: seq<(K, V)>, k: K, x: K)
    requires NoDup(Keys(l))
    ensures Lookup(Remove(l, k), x) == if x == k then None else Lookup(l, x)
  {
    if l != [] {
      KeysTail(l);
      if l[0].0 == k {
        if x == k {
          LookupKeys(l[1..], k);
        }
      } else {
        var r := Remove(l, k);
        assert r[0] == l[0] && r[1..] == Remove(l[1..], k);
        LookupRemove(l[1..], k, x);
      }
    }
  }

  lemma {:induction false} KeysRemove<K, V>(l: seq<(K, V)>, k: K)
    ensures Keys(Remove(l, k)) == Drop(Keys(l), k)
  {
    if l != [] {
      KeysTail(l);
      if l[0].0 != k {
        KeysRemove(l[1..], k);
        KeysTail(Remove(l, k));
      }
    }
  }

  lemma {:induction false} DropSpec<T>(s: seq<T>, x: T)
    requires NoDup(s)
    ensures NoDup(Drop(s, x))
    ensures forall y :: y in Drop(s, x) <==> y in s && y != x
  {
    if s != [] {
      assert s == [s[0]] + s[1..];
      if s[0] != x {
        DropSpec(s[1..], x);
        NoDupCons(s[0], Drop(s[1..], x));
      }
    }
  }

  lemma DropMember<T>(s: seq<T>, x: T, y: T)
    requires NoDup(s)
    ensures y in Drop(s, x) <==> y in s && y != x
  {
    DropSpec(s, x);
  }

  lemma NoDupCons<T>(x: T, s: seq<T>)
    requires NoDup(s) && x !in s
    ensures NoDup([x] + s)
  {
  }

  lemma {:induction false} DropAbsent<T>(s: seq<T>, x: T)
    requires x !in s
    ensures Drop(s, x) == s
  {
    if s != [] {
      DropAbsent(s[1..], x);
    }
  }

  // ---------- updates found by position ----------

  lemma UpdateAt<T>(s: seq<T>, i: nat, x: T)
    requires i < |s|
    ensures s[i := x] == if i == 0 then [x] + s[1..] else [s[0]] + s[1..][i - 1 := x]
  {
  }

  lemma {:induction false} PutAtIndex<K, V>(l: seq<(K, V)>, k: K, i: nat, v: V)
    requires i < |l| && l[i].0 == k && forall j :: 0 <= j < i ==> l[j].0 != k
    ensures l[i := (k, v)] == Put(l, k, v)
  {
    UpdateAt(l, i, (k, v));
    if i > 0 {
      PutAtIndex(l[1..], k, i - 1, v);
    }
  }

  lemma {:induction false} RemoveAtIndex<K, V>(l: seq<(K, V)>, k: K, i: nat)
    requires i < |l| && l[i].0 == k && forall j :: 0 <= j < i ==> l[j].0 != k
    ensures l[..i] + l[i + 1..] == Remove(l, k)
  {
    if i > 0 {
      var rest := l[1..];
      RemoveAtIndex(rest, k, i - 1);
      assert l[..i] == [l[0]] + rest[..i - 1] && l[i + 1..] == rest[i..];
    }
  }

  /** Overwriting the record found is `Put`, unlinking it is `Remove`. */
  lemma AtIndex<K, V>(l: seq<(K, V)>, k: K, i: nat, v: V)
    requires i < |l| && l[i].0 == k && forall j :: 0 <= j < i ==> l[j].0 != k
    ensures l[i := (k, v)] == Put(l, k, v)
    ensures l[..i] + l[i + 1..] == Remove(l, k)
  {
    PutAtIndex(l, k, i, v);
    RemoveAtIndex(l, k, i);
  }
}
