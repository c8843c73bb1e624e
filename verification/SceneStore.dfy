/** Scene objects as trees of strings and back (SceneStore.h), for properties of
    unsigned integer type. */
module SceneStore {
  import opened WlList
  import opened StringStream

  type uint32 = n: nat | n <= 0xFFFF_FFFF

  // ---------- numbers as text ----------

  function Digit(d: nat): char
    requires d < 10
  {
    '0' + d as char
  }

  /** BasicWrapper::asString: `ss << value`. */
  function Print(n: nat): string {
    if n < 10 then [Digit(n)] else Print(n / 10) + [Digit(n % 10)]
  }

  function ReadDigits(s: string, acc: nat): nat {
    if s == "" || !('0' <= s[0] <= '9') then acc else ReadDigits(s[1..], 10 * acc + (s[0] - '0') as nat)
  }

  /** BasicWrapper::fromString: `ss >> skipws >> value`, without a sign. Too large
      a number reads as the largest, no number as 0. */
  function Parse(s: string): uint32 {
    var n := ReadDigits(SkipBlanks(s), 0);
    if n > 0xFFFF_FFFF then 0xFFFF_FFFF else n
  }

  lemma {:induction false} ReadPrinted(n: nat, s: string)
    ensures ReadDigits(Print(n) + s, 0) == ReadDigits(s, n)
    ensures Print(n) != "" && '0' <= Print(n)[0] <= '9'
  {
    var d := Digit(n % 10);
    assert ReadDigits([d] + s, n / 10) == ReadDigits(s, n) by {
      assert ([d] + s)[1..] == s && (d - '0') as nat == n % 10;
    }
    if n < 10 {
      assert Print(n) + s == [d] + s;
    } else {
      ReadPrinted(n / 10, [d] + s);
      assert Print(n) + s == Print(n / 10) + ([d] + s);
    }
  }

  lemma ParsePrint(n: uint32)
    ensures Parse(Print(n)) == n
  {
    ReadPrinted(n, "");
    assert Print(n) + "" == Print(n);
    assert SkipBlanks(Print(n)) == Print(n);
  }

  predicate IsDigit(c: char) {
    '0' <= c <= '9'
  }

  /** Digits, and no zero in front of another. */
  predicate Canonical(s: string) {
    s != "" && (forall i :: 0 <= i < |s| ==> IsDigit(s[i])) && (s[0] == '0' ==> |s| == 1)
  }

  lemma {:induction false} ReadSnoc(s: string, d: char, acc: nat)
    requires (forall i :: 0 <= i < |s| ==> IsDigit(s[i])) && IsDigit(d)
    ensures ReadDigits(s + [d], acc) == 10 * ReadDigits(s, acc) + (d - '0') as nat
  {
    if s == "" {
      assert [d][1..] == "";
      assert s + [d] == [d];
    } else {
      assert (s + [d])[1..] == s[1..] + [d];
      ReadSnoc(s[1..], d, 10 * acc + (s[0] - '0') as nat);
    }
  }

  lemma {:induction false} CanonicalPositive(s: string)
    requires Canonical(s) && s[0] != '0'
    ensures ReadDigits(s, 0) > 0
  {
    var front, d := s[..|s| - 1], s[|s| - 1];
    assert s == front + [d];
    ReadSnoc(front, d, 0);
    if front != "" {
      CanonicalPositive(front);
    }
  }

  /** Every number has exactly one canonical text, the one that is printed. */
  lemma {:induction false} PrintIff(s: string, n: nat)
    ensures s == Print(n) <==> Canonical(s) && ReadDigits(s, 0) == n
    decreases n, |s|
  {
    PrintCanonical(n);
    if Canonical(s) && ReadDigits(s, 0) == n {
      var front, d := s[..|s| - 1], s[|s| - 1];
      assert s == front + [d];
      ReadSnoc(front, d, 0);
      if front == "" {
        assert s == [d];
      } else {
        CanonicalPositive(front);
        PrintIff(front, n / 10);
      }
    }
  }

  lemma {:induction false} PrintCanonical(n: nat)
    ensures Canonical(Print(n)) && ReadDigits(Print(n), 0) == n && (Print(n)[0] == '0' ==> n == 0)
  {
    if n >= 10 {
      PrintCanonical(n / 10);
      ReadSnoc(Print(n / 10), Digit(n % 10), 0);
    } else {
      assert [Digit(n)][1..] == "";
    }
  }

  // ---------- objects and trees ----------

  datatype Prop = Prop(name: string, typ: string, value: uint32)
  datatype Comp = Comp(typ: string, members: seq<Obj>)

  /** An object: mClassName, `properties` and `components` in key order. */
  datatype Obj = Obj(cls: string, props: seq<Prop>, comps: seq<Comp>)

  datatype Text = Text(name: string, typ: string, text: string)

  /** StringMapTree: mNodeLabel, mNodeValues in key order, mChildren. */
  datatype Tree = Tree(nodeLabel: string, values: seq<Text>, children: seq<Tree>)

  function Texts(props: seq<Prop>): seq<Text> {
    if props == [] then [] else [Text(props[0].name, props[0].typ, Print(props[0].value))] + Texts(props[1..])
  }

  /** toStringMapTree. */
  function ToTree(o: Obj): Tree
    decreases o
  {
    Tree(o.cls, Texts(o.props), CompTrees(o.comps))
  }

  function CompTrees(comps: seq<Comp>): seq<Tree>
    decreases comps
  {
    if comps == [] then [] else MemberTrees(comps[0].members) + CompTrees(comps[1..])
  }

  /** ComplexWrapper::toStringMapTree. */
  function MemberTrees(members: seq<Obj>): (r: seq<Tree>)
    ensures |r| == |members|
    decreases members
  {
    if members == [] then [] else [ToTree(members[0])] + MemberTrees(members[1..])
  }

  /** The values of a tree: name, type and decimal digits of every property, in
      key order. */
  lemma {:induction false} TextsShow(props: seq<Prop>)
    ensures |Texts(props)| == |props|
    ensures forall i :: 0 <= i < |props| ==>
              var t := Texts(props)[i];
              && t.name == props[i].name && t.typ == props[i].typ
              && Canonical(t.text) && ReadDigits(t.text, 0) == props[i].value
  {
    if props != [] {
      TextsShow(props[1..]);
      PrintCanonical(props[0].value);
    }
  }

  /** What the PROPERTY and CONTAINS lines of a class declare, in key order. */
  datatype Class = Class(props: seq<(string, string)>, contains: seq<string>)

  type Schema = map<string, Class>

  ghost predicate Declared(schema: Schema) {
    forall c :: c in schema ==>
      NoDup(schema[c].contains)
      && (forall i, j :: 0 <= i < j < |schema[c].props| ==> schema[c].props[i].0 != schema[c].props[j].0)
  }

  function BlankProps(props: seq<(string, string)>, init: uint32): (r: seq<Prop>)
    ensures |r| == |props| && forall i :: 0 <= i < |props| ==> r[i] == Prop(props[i].0, props[i].1, init)
  {
    if props == [] then [] else [Prop(props[0].0, props[0].1, init)] + BlankProps(props[1..], init)
  }

  function BlankComps(types: seq<string>): (r: seq<Comp>)
    ensures |r| == |types| && forall i :: 0 <= i < |types| ==> r[i] == Comp(types[i], [])
  {
    if types == [] then [] else [Comp(types[0], [])] + BlankComps(types[1..])
  }

  /** `properties[name]->fromString(text)`. */
  function SetProp(props: seq<Prop>, v: Text): (r: seq<Prop>)
    ensures |r| == |props|
    ensures forall i :: 0 <= i < |props| ==> r[i] == if props[i].name == v.name then props[i].(value := Parse(v.text)) else props[i]
  {
    if props == [] then []
    else [if props[0].name == v.name then props[0].(value := Parse(v.text)) else props[0]] + SetProp(props[1..], v)
  }

  function SetProps(props: seq<Prop>, values: seq<Text>): seq<Prop>
    decreases |values|
  {
    if values == [] then props else SetProps(SetProp(props, values[0]), values[1..])
  }

  /** `components[type]` gets one more member. */
  function AddMember(comps: seq<Comp>, o: Obj): (r: seq<Comp>)
    ensures |r| == |comps|
    ensures forall i :: 0 <= i < |comps| ==>
              r[i] == if comps[i].typ == o.cls then comps[i].(members := comps[i].members + [o]) else comps[i]
  {
    if comps == [] then []
    else [if comps[0].typ == o.cls then comps[0].(members := comps[0].members + [o]) else comps[0]] + AddMember(comps[1..], o)
  }

  function AddMembers(comps: seq<Comp>, objs: seq<Obj>): seq<Comp>
    decreases |objs|
  {
    if objs == [] then comps else AddMembers(AddMember(comps, objs[0]), objs[1..])
  }

  /** The tree only names what the classes declare; anything else is a null
      pointer in fromStringMapTree. */
  predicate Known(schema: Schema, t: Tree)
    decreases t
  {
    && t.nodeLabel in schema
    && (forall i :: 0 <= i < |t.values| ==> exists k :: 0 <= k < |schema[t.nodeLabel].props| && schema[t.nodeLabel].props[k].0 == t.values[i].name)
    && (forall i :: 0 <= i < |t.children| ==> t.children[i].nodeLabel in schema[t.nodeLabel].contains && Known(schema, t.children[i]))
  }

  /** fromStringMapTree into a new object; `init` stands for the value of a
      property nothing was read into. */
  function FromTree(schema: Schema, t: Tree, init: uint32): Obj
    requires Known(schema, t)
    decreases t
  {
    Obj(t.nodeLabel, SetProps(BlankProps(schema[t.nodeLabel].props, init), t.values),
        AddMembers(BlankComps(schema[t.nodeLabel].contains), FromTrees(schema, t.children, init)))
  }

  function FromTrees(schema: Schema, ts: seq<Tree>, init: uint32): (r: seq<Obj>)
    requires forall i :: 0 <= i < |ts| ==> Known(schema, ts[i])
    ensures |r| == |ts|
    decreases ts
  {
    if ts == [] then [] else [FromTree(schema, ts[0], init)] + FromTrees(schema, ts[1..], init)
  }

  /** An object with exactly what its class declares, at every level. */
  ghost predicate WellTyped(schema: Schema, o: Obj)
    decreases o
  {
    && o.cls in schema
    && |o.props| == |schema[o.cls].props|
    && (forall i :: 0 <= i < |o.props| ==> (o.props[i].name, o.props[i].typ) == schema[o.cls].props[i])
    && |o.comps| == |schema[o.cls].contains|
    && (forall i :: 0 <= i < |o.comps| ==> o.comps[i].typ == schema[o.cls].contains[i])
    && (forall i, j :: 0 <= i < |o.comps| && 0 <= j < |o.comps[i].members| ==>
          o.comps[i].members[j].cls == o.comps[i].typ && WellTyped(schema, o.comps[i].members[j]))
  }

  // ---------- what reading a tree does ----------

  lemma {:induction false} SetPropsSpec(props: seq<Prop>, values: seq<Text>)
    requires forall i, j :: 0 <= i < j < |values| ==> values[i].name != values[j].name
    ensures |SetProps(props, values)| == |props|
    ensures forall i, j :: 0 <= i < |props| && 0 <= j < |values| && values[j].name == props[i].name ==>
              SetProps(props, values)[i] == props[i].(value := Parse(values[j].text))
    ensures forall i :: 0 <= i < |props| && (forall j :: 0 <= j < |values| ==> values[j].name != props[i].name) ==>
              SetProps(props, values)[i] == props[i]
    decreases |values|
  {
    if values != [] {
      var props1, rest := SetProp(props, values[0]), values[1..];
      SetPropsSpec(props1, rest);
      forall i, j | 0 <= i < |props| && 0 <= j < |values| && values[j].name == props[i].name
        ensures SetProps(props, values)[i] == props[i].(value := Parse(values[j].text)) {
        if j > 0 {
          assert rest[j - 1] == values[j] && props1[i] == props[i];
        } else {
          assert forall k :: 0 <= k < |rest| ==> rest[k] == values[k + 1];
        }
      }
    }
  }

  /** Members of one class. */
  function Of(objs: seq<Obj>, cls: string): seq<Obj> {
    if objs == [] then [] else (if objs[0].cls == cls then [objs[0]] else []) + Of(objs[1..], cls)
  }

  lemma {:induction false} OfAppend(a: seq<Obj>, b: seq<Obj>, cls: string)
    ensures Of(a + b, cls) == Of(a, cls) + Of(b, cls)
  {
    if a == [] {
      assert a + b == b;
    } else {
      var c := a[1..] + b;
      assert (a + b)[1..] == c && (a + b)[0] == a[0];
      OfAppend(a[1..], b, cls);
      var head := if a[0].cls == cls then [a[0]] else [];
      assert Of(a + b, cls) == head + Of(c, cls);
      assert head + (Of(a[1..], cls) + Of(b, cls)) == (head + Of(a[1..], cls)) + Of(b, cls);
    }
  }

  lemma {:induction false} OfSame(objs: seq<Obj>, typ: string, cls: string)
    requires forall i :: 0 <= i < |objs| ==> objs[i].cls == typ
    ensures Of(objs, cls) == if cls == typ then objs else []
  {
    if objs != [] {
      OfSame(objs[1..], typ, cls);
    }
  }

  lemma {:induction false} AddMembersAt(comps: seq<Comp>, objs: seq<Obj>, i: nat)
    requires i < |comps|
    ensures |AddMembers(comps, objs)| == |comps|
    ensures AddMembers(comps, objs)[i] == Comp(comps[i].typ, comps[i].members + Of(objs, comps[i].typ))
    decreases |objs|
  {
    var typ, members := comps[i].typ, comps[i].members;
    if objs == [] {
      assert members + [] == members;
    } else {
      var o, rest := objs[0], Of(objs[1..], typ);
      AddMembersAt(AddMember(comps, o), objs[1..], i);
      if o.cls == typ {
        Associate(members, o, rest);
      } else {
        assert Of(objs, typ) == rest;
      }
    }
  }

  lemma Associate(a: seq<Obj>, o: Obj, b: seq<Obj>)
    ensures (a + [o]) + b == a + ([o] + b)
  {
  }

  lemma {:induction false} AddMembersSize(comps: seq<Comp>, objs: seq<Obj>)
    ensures |AddMembers(comps, objs)| == |comps|
    decreases |objs|
  {
    if objs != [] {
      AddMembersSize(AddMember(comps, objs[0]), objs[1..]);
    }
  }

  /** Reading the children only groups them by class, in their order. */
  lemma AddMembersSpec(comps: seq<Comp>, objs: seq<Obj>)
    ensures |AddMembers(comps, objs)| == |comps|
    ensures forall i :: 0 <= i < |comps| ==>
              AddMembers(comps, objs)[i] == Comp(comps[i].typ, comps[i].members + Of(objs, comps[i].typ))
  {
    AddMembersSize(comps, objs);
    forall i | 0 <= i < |comps|
      ensures AddMembers(comps, objs)[i] == Comp(comps[i].typ, comps[i].members + Of(objs, comps[i].typ)) {
      AddMembersAt(comps, objs, i);
    }
  }

  function AllMembers(comps: seq<Comp>): seq<Obj> {
    if comps == [] then [] else comps[0].members + AllMembers(comps[1..])
  }

  /** Every component holds members of its own class, each class once. */
  ghost predicate Sorted(comps: seq<Comp>) {
    && (forall i, j :: 0 <= i < j < |comps| ==> comps[i].typ != comps[j].typ)
    && (forall i, j :: 0 <= i < |comps| && 0 <= j < |comps[i].members| ==> comps[i].members[j].cls == comps[i].typ)
  }

  lemma {:induction false} OfNone(comps: seq<Comp>, cls: string)
    requires Sorted(comps) && forall i :: 0 <= i < |comps| ==> comps[i].typ != cls
    ensures Of(AllMembers(comps), cls) == []
  {
    if comps != [] {
      OfNone(comps[1..], cls);
      OfSame(comps[0].members, comps[0].typ, cls);
      OfAppend(comps[0].members, AllMembers(comps[1..]), cls);
    }
  }

  lemma {:induction false} OfAll(comps: seq<Comp>, i: nat)
    requires Sorted(comps) && i < |comps|
    ensures Of(AllMembers(comps), comps[i].typ) == comps[i].members
  {
    var head, rest, typ := comps[0].members, comps[1..], comps[i].typ;
    assert AllMembers(comps) == head + AllMembers(rest);
    OfSame(head, comps[0].typ, typ);
    OfAppend(head, AllMembers(rest), typ);
    if i == 0 {
      OfNone(rest, typ);
      assert head + [] == head;
    } else {
      OfAll(rest, i - 1);
      assert [] + comps[i].members == comps[i].members;
    }
  }

  // ---------- object to tree and back ----------

  lemma {:induction false} TextsSpec(props: seq<Prop>)
    ensures |Texts(props)| == |props|
    ensures forall i :: 0 <= i < |props| ==> Texts(props)[i] == Text(props[i].name, props[i].typ, Print(props[i].value))
  {
    if props != [] {
      TextsSpec(props[1..]);
    }
  }

  lemma PropsRoundTrip(cls: Class, props: seq<Prop>, init: uint32)
    requires |props| == |cls.props| && forall i :: 0 <= i < |props| ==> (props[i].name, props[i].typ) == cls.props[i]
    requires forall i, j :: 0 <= i < j < |cls.props| ==> cls.props[i].0 != cls.props[j].0
    ensures SetProps(BlankProps(cls.props, init), Texts(props)) == props
  {
    var values, blank := Texts(props), BlankProps(cls.props, init);
    TextsSpec(props);
    forall i, j | 0 <= i < j < |values| ensures values[i].name != values[j].name {
      assert cls.props[i].0 != cls.props[j].0;
    }
    SetPropsSpec(blank, values);
    forall i | 0 <= i < |props| ensures SetProps(blank, values)[i] == props[i] {
      ParsePrint(props[i].value);
      assert values[i].name == blank[i].name;
    }
  }

  /** Reading the tree of an object gives the object back, at any nesting. */
  lemma {:induction false} RoundTrip(schema: Schema, o: Obj, init: uint32)
    requires Declared(schema) && WellTyped(schema, o)
    ensures Known(schema, ToTree(o)) && FromTree(schema, ToTree(o), init) == o
    decreases o
  {
    var cls, t := schema[o.cls], ToTree(o);
    CompsRoundTrip(schema, o.comps, init);
    TextsSpec(o.props);
    PropsRoundTrip(cls, o.props, init);
    CompLabels(o.comps, cls.contains);
    forall i | 0 <= i < |t.values|
      ensures exists k :: 0 <= k < |cls.props| && cls.props[k].0 == t.values[i].name {
      assert cls.props[i].0 == t.values[i].name;
    }
    var blank := BlankComps(cls.contains);
    AddMembersSpec(blank, AllMembers(o.comps));
    forall i | 0 <= i < |o.comps| ensures AddMembers(blank, AllMembers(o.comps))[i] == o.comps[i] {
      OfAll(o.comps, i);
    }
    assert AddMembers(blank, AllMembers(o.comps)) == o.comps;
  }

  lemma {:induction false} CompsRoundTrip(schema: Schema, comps: seq<Comp>, init: uint32)
    requires Declared(schema)
    requires forall i, j :: 0 <= i < |comps| && 0 <= j < |comps[i].members| ==> WellTyped(schema, comps[i].members[j])
    ensures forall k :: 0 <= k < |CompTrees(comps)| ==> Known(schema, CompTrees(comps)[k])
    ensures FromTrees(schema, CompTrees(comps), init) == AllMembers(comps)
    decreases comps
  {
    if comps != [] {
      MembersRoundTrip(schema, comps[0].members, init);
      CompsRoundTrip(schema, comps[1..], init);
      FromTreesAppend(schema, MemberTrees(comps[0].members), CompTrees(comps[1..]), init);
    }
  }

  lemma {:induction false} MembersRoundTrip(schema: Schema, members: seq<Obj>, init: uint32)
    requires Declared(schema) && forall i :: 0 <= i < |members| ==> WellTyped(schema, members[i])
    ensures forall k :: 0 <= k < |members| ==> Known(schema, MemberTrees(members)[k])
    ensures FromTrees(schema, MemberTrees(members), init) == members
    decreases members
  {
    if members != [] {
      RoundTrip(schema, members[0], init);
      MembersRoundTrip(schema, members[1..], init);
      var ts := MemberTrees(members);
      assert ts[0] == ToTree(members[0]) && ts[1..] == MemberTrees(members[1..]);
    }
  }

  lemma {:induction false} FromTreesAppend(schema: Schema, a: seq<Tree>, b: seq<Tree>, init: uint32)
    requires (forall i :: 0 <= i < |a| ==> Known(schema, a[i])) && forall i :: 0 <= i < |b| ==> Known(schema, b[i])
    ensures FromTrees(schema, a + b, init) == FromTrees(schema, a, init) + FromTrees(schema, b, init)
  {
    if a == [] {
      assert a + b == b;
    } else {
      assert (a + b)[1..] == a[1..] + b;
      FromTreesAppend(schema, a[1..], b, init);
    }
  }

  /** The children of an object's tree are labelled with the contained classes. */
  lemma {:induction false} CompLabels(comps: seq<Comp>, types: seq<string>)
    requires forall i :: 0 <= i < |comps| ==> comps[i].typ in types
    requires forall i, j :: 0 <= i < |comps| && 0 <= j < |comps[i].members| ==> comps[i].members[j].cls == comps[i].typ
    ensures forall k :: 0 <= k < |CompTrees(comps)| ==> CompTrees(comps)[k].nodeLabel in types
  {
    if comps != [] {
      CompLabels(comps[1..], types);
      MemberLabels(comps[0].members);
      var a: seq<Tree>, b: seq<Tree> := MemberTrees(comps[0].members), CompTrees(comps[1..]);
      forall k | 0 <= k < |a + b| ensures (a + b)[k].nodeLabel in types {
        if k < |a| {
          assert a[k].nodeLabel == comps[0].members[k].cls;
        } else {
          assert (a + b)[k] == b[k - |a|];
        }
      }
    }
  }

  lemma {:induction false} MemberLabels(members: seq<Obj>)
    ensures forall k :: 0 <= k < |members| ==> MemberTrees(members)[k].nodeLabel == members[k].cls
  {
    if members != [] {
      MemberLabels(members[1..]);
    }
  }

  // ---------- tree to object and back ----------

  /** A tree after reading it into an object and writing that. */
  function Normal(schema: Schema, t: Tree, init: uint32): Tree
    requires Known(schema, t)
  {
    ToTree(FromTree(schema, t, init))
  }

  lemma {:induction false} PropNamesKept(props: seq<Prop>, values: seq<Text>)
    ensures |SetProps(props, values)| == |props|
    ensures forall i :: 0 <= i < |props| ==> SetProps(props, values)[i].name == props[i].name && SetProps(props, values)[i].typ == props[i].typ
    decreases |values|
  {
    if values != [] {
      PropNamesKept(SetProp(props, values[0]), values[1..]);
    }
  }

  lemma {:induction false} OfMember(objs: seq<Obj>, cls: string, j: nat) returns (k: nat)
    requires j < |Of(objs, cls)|
    ensures k < |objs| && objs[k] == Of(objs, cls)[j] && objs[k].cls == cls
  {
    if objs[0].cls != cls {
      k := OfMember(objs[1..], cls, j);
      k := k + 1;
    } else if j == 0 {
      k := 0;
    } else {
      k := OfMember(objs[1..], cls, j - 1);
      k := k + 1;
    }
  }

  lemma {:induction false} ReadIsWellTyped(schema: Schema, t: Tree, init: uint32)
    requires Known(schema, t)
    ensures WellTyped(schema, FromTree(schema, t, init))
    decreases t
  {
    var cls, o := schema[t.nodeLabel], FromTree(schema, t, init);
    var objs := FromTrees(schema, t.children, init);
    PropNamesKept(BlankProps(cls.props, init), t.values);
    AddMembersSpec(BlankComps(cls.contains), objs);
    ReadAllWellTyped(schema, t.children, init);
    forall i, j | 0 <= i < |o.comps| && 0 <= j < |o.comps[i].members|
      ensures o.comps[i].members[j].cls == o.comps[i].typ && WellTyped(schema, o.comps[i].members[j]) {
      assert o.comps[i].members == Of(objs, o.comps[i].typ);
      var k := OfMember(objs, o.comps[i].typ, j);
    }
  }

  lemma {:induction false} ReadAllWellTyped(schema: Schema, ts: seq<Tree>, init: uint32)
    requires forall i :: 0 <= i < |ts| ==> Known(schema, ts[i])
    ensures forall i :: 0 <= i < |ts| ==> WellTyped(schema, FromTrees(schema, ts, init)[i])
    decreases ts
  {
    if ts != [] {
      ReadIsWellTyped(schema, ts[0], init);
      ReadAllWellTyped(schema, ts[1..], init);
    }
  }

  /** Normalising twice is normalising once. */
  lemma Idempotent(schema: Schema, t: Tree, init: uint32)
    requires Declared(schema) && Known(schema, t)
    ensures Known(schema, Normal(schema, t, init)) && Normal(schema, Normal(schema, t, init), init) == Normal(schema, t, init)
  {
    ReadIsWellTyped(schema, t, init);
    RoundTrip(schema, FromTree(schema, t, init), init);
  }

  /** The normal forms of the children with one label, in their order. */
  function NormalOf(schema: Schema, ts: seq<Tree>, typ: string, init: uint32): seq<Tree>
    requires forall i :: 0 <= i < |ts| ==> Known(schema, ts[i])
  {
    if ts == [] then []
    else (if ts[0].nodeLabel == typ then [Normal(schema, ts[0], init)] else []) + NormalOf(schema, ts[1..], typ, init)
  }

  function Grouped(schema: Schema, ts: seq<Tree>, types: seq<string>, init: uint32): seq<Tree>
    requires forall i :: 0 <= i < |ts| ==> Known(schema, ts[i])
  {
    if types == [] then [] else NormalOf(schema, ts, types[0], init) + Grouped(schema, ts, types[1..], init)
  }

  lemma {:induction false} NormalOfMembers(schema: Schema, ts: seq<Tree>, typ: string, init: uint32)
    requires forall i :: 0 <= i < |ts| ==> Known(schema, ts[i])
    ensures MemberTrees(Of(FromTrees(schema, ts, init), typ)) == NormalOf(schema, ts, typ, init)
  {
    if ts != [] {
      NormalOfMembers(schema, ts[1..], typ, init);
      var o, rest := FromTree(schema, ts[0], init), FromTrees(schema, ts[1..], init);
      assert FromTrees(schema, ts, init) == [o] + rest && ([o] + rest)[1..] == rest;
      assert [] + Of(rest, typ) == Of(rest, typ);
      assert ([o] + Of(rest, typ))[1..] == Of(rest, typ);
    }
  }

  lemma {:induction false} GroupedComps(schema: Schema, ts: seq<Tree>, comps: seq<Comp>, types: seq<string>, init: uint32)
    requires (forall i :: 0 <= i < |ts| ==> Known(schema, ts[i])) && |comps| == |types|
    requires forall i :: 0 <= i < |comps| ==> comps[i] == Comp(types[i], Of(FromTrees(schema, ts, init), types[i]))
    ensures CompTrees(comps) == Grouped(schema, ts, types, init)
  {
    if comps != [] {
      NormalOfMembers(schema, ts, types[0], init);
      GroupedComps(schema, ts, comps[1..], types[1..], init);
    }
  }

  lemma {:induction false} GroupedSize(schema: Schema, ts: seq<Tree>, types: seq<string>, init: uint32)
    requires (forall i :: 0 <= i < |ts| ==> Known(schema, ts[i]) && ts[i].nodeLabel in types) && NoDup(types)
    ensures |Grouped(schema, ts, types, init)| == |ts|
    decreases |ts|
  {
    if ts == [] {
      GroupedNone(schema, types, init);
    } else {
      GroupedSize(schema, ts[1..], types, init);
      GroupedCons(schema, ts, types, init);
    }
  }

  lemma {:induction false} GroupedNone(schema: Schema, types: seq<string>, init: uint32)
    ensures Grouped(schema, [], types, init) == []
  {
    if types != [] {
      GroupedNone(schema, types[1..], init);
    }
  }

  lemma {:induction false} GroupedCons(schema: Schema, ts: seq<Tree>, types: seq<string>, init: uint32)
    requires ts != [] && (forall i :: 0 <= i < |ts| ==> Known(schema, ts[i])) && NoDup(types)
    ensures |Grouped(schema, ts, types, init)|
            == |Grouped(schema, ts[1..], types, init)| + if ts[0].nodeLabel in types then 1 else 0
  {
    if types != [] {
      assert types == [types[0]] + types[1..] && types[0] !in types[1..];
      GroupedCons(schema, ts, types[1..], init);
    }
  }

  /** Reading and writing a tree keeps the label, the order within each class
      and the number of children: it only groups the children by class. */
  lemma OnlyGroups(schema: Schema, t: Tree, init: uint32)
    requires Declared(schema) && Known(schema, t)
    ensures Normal(schema, t, init).nodeLabel == t.nodeLabel
    ensures Normal(schema, t, init).children == Grouped(schema, t.children, schema[t.nodeLabel].contains, init)
    ensures |Normal(schema, t, init).children| == |t.children|
  {
    var types := schema[t.nodeLabel].contains;
    AddMembersSpec(BlankComps(types), FromTrees(schema, t.children, init));
    GroupedComps(schema, t.children, FromTree(schema, t, init).comps, types, init);
    GroupedSize(schema, t.children, types, init);
  }

  // ---------- the loops ----------

  lemma {:induction false} CompTreesAppend(comps: seq<Comp>, c: Comp)
    ensures CompTrees(comps + [c]) == CompTrees(comps) + MemberTrees(c.members)
  {
    if comps == [] {
      assert comps + [c] == [c] && CompTrees([c][1..]) == [];
    } else {
      assert (comps + [c])[1..] == comps[1..] + [c];
      CompTreesAppend(comps[1..], c);
    }
  }

  lemma {:induction false} MemberTreesAppend(members: seq<Obj>, o: Obj)
    ensures MemberTrees(members + [o]) == MemberTrees(members) + [ToTree(o)]
  {
    if members == [] {
      assert members + [o] == [o] && MemberTrees([o][1..]) == [];
    } else {
      assert (members + [o])[1..] == members[1..] + [o];
      MemberTreesAppend(members[1..], o);
    }
  }

  lemma {:induction false} TextsAppend(props: seq<Prop>, p: Prop)
    ensures Texts(props + [p]) == Texts(props) + [Text(p.name, p.typ, Print(p.value))]
  {
    if props == [] {
      assert props + [p] == [p] && Texts([p][1..]) == [];
    } else {
      assert (props + [p])[1..] == props[1..] + [p];
      TextsAppend(props[1..], p);
    }
  }

  /** toStringMapTree. */
  method ToStringMapTree(o: Obj) returns (node: Tree)
    ensures node == ToTree(o)
    decreases o
  {
    var values: seq<Text> := [];
    var i := 0;
    while i < |o.props|
      invariant i <= |o.props| && values == Texts(o.props[..i])
    {
      TextsAppend(o.props[..i], o.props[i]);
      assert o.props[..i + 1] == o.props[..i] + [o.props[i]];
      values := values + [Text(o.props[i].name, o.props[i].typ, Print(o.props[i].value))];
      i := i + 1;
    }
    assert o.props[..i] == o.props;
    var children: seq<Tree> := [];
    var k := 0;
    while k < |o.comps|
      invariant k <= |o.comps| && children == CompTrees(o.comps[..k])
    {
      CompTreesAppend(o.comps[..k], o.comps[k]);
      assert o.comps[..k + 1] == o.comps[..k] + [o.comps[k]];
      var nodes := ComponentTrees(o.comps[k].members);
      children := children + nodes;
      k := k + 1;
    }
    assert o.comps[..k] == o.comps;
    node := Tree(o.cls, values, children);
  }

  /** ComplexWrapper::toStringMapTree. */
  method ComponentTrees(members: seq<Obj>) returns (nodes: seq<Tree>)
    ensures nodes == MemberTrees(members)
    decreases members
  {
    nodes := [];
    var i := 0;
    while i < |members|
      invariant i <= |members| && nodes == MemberTrees(members[..i])
    {
      MemberTreesAppend(members[..i], members[i]);
      assert members[..i + 1] == members[..i] + [members[i]];
      var node := ToStringMapTree(members[i]);
      nodes := nodes + [node];
      i := i + 1;
    }
    assert members[..i] == members;
  }

  lemma {:induction false} SetPropsAppend(props: seq<Prop>, values: seq<Text>, v: Text)
    ensures SetProps(props, values + [v]) == SetProp(SetProps(props, values), v)
    decreases |values|
  {
    if values == [] {
      assert values + [v] == [v] && SetProps(SetProp(props, v), [v][1..]) == SetProp(props, v);
    } else {
      assert (values + [v])[1..] == values[1..] + [v];
      SetPropsAppend(SetProp(props, values[0]), values[1..], v);
    }
  }

  lemma {:induction false} AddMembersAppend(comps: seq<Comp>, objs: seq<Obj>, o: Obj)
    ensures AddMembers(comps, objs + [o]) == AddMember(AddMembers(comps, objs), o)
    decreases |objs|
  {
    if objs == [] {
      assert objs + [o] == [o] && AddMembers(AddMember(comps, o), [o][1..]) == AddMember(comps, o);
    } else {
      assert (objs + [o])[1..] == objs[1..] + [o];
      AddMembersAppend(AddMember(comps, objs[0]), objs[1..], o);
    }
  }

  /** fromStringMapTree. */
  method FromStringMapTree(schema: Schema, node: Tree, init: uint32) returns (o: Obj)
    requires Known(schema, node)
    ensures o == FromTree(schema, node, init)
    decreases node, 1
  {
    var props := ReadValues(BlankProps(schema[node.nodeLabel].props, init), node.values);
    var comps := ReadChildren(schema, BlankComps(schema[node.nodeLabel].contains), node, init);
    o := Obj(node.nodeLabel, props, comps);
  }

  /** The loop over mNodeValues. */
  method ReadValues(blank: seq<Prop>, values: seq<Text>) returns (props: seq<Prop>)
    ensures props == SetProps(blank, values)
  {
    props := blank;
    var i := 0;
    while i < |values|
      invariant i <= |values| && props == SetProps(blank, values[..i])
    {
      SetPropsAppend(blank, values[..i], values[i]);
      assert values[..i + 1] == values[..i] + [values[i]];
      props := SetProp(props, values[i]);
      i := i + 1;
    }
    assert values[..i] == values;
  }

  lemma FromTreesLast(schema: Schema, ts: seq<Tree>, k: nat, init: uint32)
    requires k < |ts| && forall i :: 0 <= i < |ts| ==> Known(schema, ts[i])
    ensures FromTrees(schema, ts[..k + 1], init) == FromTrees(schema, ts[..k], init) + [FromTree(schema, ts[k], init)]
  {
    assert ts[..k + 1] == ts[..k] + [ts[k]];
    FromTreesAppend(schema, ts[..k], [ts[k]], init);
  }

  /** The loop over mChildren. */
  method ReadChildren(schema: Schema, blank: seq<Comp>, node: Tree, init: uint32) returns (comps: seq<Comp>)
    requires Known(schema, node)
    ensures comps == AddMembers(blank, FromTrees(schema, node.children, init))
    decreases node, 0
  {
    comps := blank;
    var k := 0;
    while k < |node.children|
      invariant k <= |node.children| && comps == AddMembers(blank, FromTrees(schema, node.children[..k], init))
    {
      var child := FromStringMapTree(schema, node.children[k], init);
      FromTreesLast(schema, node.children, k, init);
      AddMembersAppend(blank, FromTrees(schema, node.children[..k], init), child);
      comps := AddMember(comps, child);
      k := k + 1;
    }
    assert node.children[..k] == node.children;
  }
}
