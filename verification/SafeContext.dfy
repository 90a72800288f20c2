/** Making a kernel context safe to log: `safeContext` (src/kernel_log.js). */
module SafeContext {
  import opened Collections
  import Decimal
  import NodeId

  // Contexts are graphs of references, cycles included; the result is a tree.

  const MAX_STRING := 512
  const MAX_ARRAY := 32
  const MAX_KEYS := 64
  const MAX_DEPTH := 4
  const ELLIPSIS := "\U{2026}"

  datatype Val =
    | Nullish
    | Flag(b: bool)
    | Finite(x: real)
    | NonFinite(name: string)
    | Big(n: int)
    | Str(s: string)
    | Fn
    | Sym(description: string)
    | Ref(at: nat)

  /** A property whose getter throws has no value. */
  datatype Prop = Prop(key: string, value: Option<Val>)

  /** `own` are the enumerable properties a value has of its own, such as an error's code. */
  datatype Cell =
    | Arr(items: seq<Val>)
    | Err(name: Option<Val>, message: Option<Val>, own: seq<Prop>)
    | MapOf(keys: seq<Val>, own: seq<Prop>)
    | SetOf(items: seq<Val>, own: seq<Prop>)
    | Object(props: seq<Prop>)

  type Heap = nat -> Cell

  datatype Field = Field(key: string, node: Node)

  /** `Raw` is a value the function hands on as it found it, with whatever graph is under it. */
  datatype Node =
    | Null
    | Boolean(b: bool)
    | Number(x: real)
    | Text(s: string)
    | Raw(v: Val)
    | List(items: seq<Node>)
    | Record(fields: seq<Field>)

  // ----- The function -----

  function Clip(s: string): string {
    if |s| > MAX_STRING then s[..MAX_STRING] + ELLIPSIS + "(" + Decimal.Print(|s|) + ")" else s
  }

  function Hex(n: int): string {
    NodeId.PadStart(if n < 0 then "-" + NodeId.ToHex(-n) else NodeId.ToHex(n), 66)
  }

  function Leaf(v: Val): Node
    requires !v.Ref?
  {
    match v
    case Nullish => Null
    case Flag(b) => Boolean(b)
    case Finite(x) => Number(x)
    case NonFinite(name) => Text(name)
    case Big(n) => Text(Hex(n))
    case Str(s) => Text(Clip(s))
    case Fn => Text("<fn>")
    case Sym(d) => Text("Symbol(" + d + ")")
  }

  function Fuel(depth: nat): nat {
    if depth < MAX_DEPTH then MAX_DEPTH - depth else 0
  }

  /** `out[k] = v`: a key already there keeps its place. */
  function Put(fields: seq<Field>, key: string, node: Node): seq<Field> {
    if fields == [] then [Field(key, node)]
    else if fields[0].key == key then [Field(key, node)] + fields[1..]
    else [fields[0]] + Put(fields[1..], key, node)
  }

  function First<T>(s: seq<T>, n: nat): seq<T> {
    if |s| > n then s[..n] else s
  }

  /** None stands for an exception. */
  function Safe(h: Heap, v: Val, depth: nat): Option<Node>
    decreases Fuel(depth), 1, 0
  {
    if !v.Ref? then Some(Leaf(v))
    else if depth >= MAX_DEPTH then Some(Text("<depth>"))
    else
      match h(v.at)
      case Arr(items) => SafeArray(h, items, depth)
      case Err(name, message, _) =>
        if name.None? || message.None? then None
        else Some(Record([Field("name", Raw(name.value)), Field("message", Raw(message.value))]))
      case MapOf(keys, _) => SafeArray(h, First(keys, MAX_ARRAY), depth + 1)
      case SetOf(items, _) => SafeArray(h, First(items, MAX_ARRAY), depth + 1)
      case Object(props) =>
        var fields := SafeProps(h, First(props, MAX_KEYS), depth + 1);
        Some(Record(if |props| > MAX_KEYS then Put(fields, ELLIPSIS, Text("keys truncated")) else fields))
  }

  function SafeArray(h: Heap, items: seq<Val>, depth: nat): Option<Node>
    decreases Fuel(depth), 0, 0
  {
    if depth >= MAX_DEPTH then Some(Text("<depth>"))
    else
      var head := SafeAll(h, First(items, MAX_ARRAY), depth + 1);
      if head.None? then None
      else
        Some(List(if |items| > MAX_ARRAY
                  then head.value + [Text(ELLIPSIS + "(" + Decimal.Print(|items|) + ")")] else head.value))
  }

  /** `map`: an exception in one element loses them all. */
  function SafeAll(h: Heap, items: seq<Val>, depth: nat): Option<seq<Node>>
    decreases Fuel(depth), 2, |items|
  {
    if items == [] then Some([])
    else
      var n := |items| - 1;
      var front := SafeAll(h, items[..n], depth);
      var last := Safe(h, items[n], depth);
      if front.None? || last.None? then None else Some(front.value + [last.value])
  }

  /** The keys in order; an exception under one of them stays under it. */
  function SafeProps(h: Heap, props: seq<Prop>, depth: nat): seq<Field>
    decreases Fuel(depth), 2, |props|
  {
    if props == [] then []
    else
      var n := |props| - 1;
      var p := props[n];
      var node := if p.value.None? then None else Safe(h, p.value.value, depth);
      Put(SafeProps(h, props[..n], depth), p.key, if node.Some? then node.value else Text("<unserializable>"))
  }

  // ----- How large it can be -----

  ghost function Size(n: Node): nat {
    match n
    case List(items) => 1 + SizeAll(items)
    case Record(fields) => 1 + SizeFields(fields)
    case _ => 1
  }

  ghost function SizeAll(nodes: seq<Node>): nat {
    if nodes == [] then 0 else Size(nodes[0]) + SizeAll(nodes[1..])
  }

  ghost function SizeFields(fields: seq<Field>): nat {
    if fields == [] then 0 else Size(fields[0].node) + SizeFields(fields[1..])
  }

  /** The most nodes a value met at this depth can become. */
  ghost function Largest(depth: nat): (t: nat)
    ensures t > 0
    decreases Fuel(depth)
  {
    if depth >= MAX_DEPTH then 1 else 2 + MAX_KEYS * Largest(depth + 1)
  }

  lemma {:induction false} SumOfNodes(nodes: seq<Node>, t: nat)
    requires forall i :: 0 <= i < |nodes| ==> Size(nodes[i]) <= t
    ensures SizeAll(nodes) <= |nodes| * t
  {
    if nodes != [] {
      SumOfNodes(nodes[1..], t);
      OneMore(|nodes| - 1, t);
    }
  }

  lemma {:induction false} SumOfFields(fields: seq<Field>, t: nat)
    requires forall i :: 0 <= i < |fields| ==> Size(fields[i].node) <= t
    ensures SizeFields(fields) <= |fields| * t
  {
    if fields != [] {
      SumOfFields(fields[1..], t);
      OneMore(|fields| - 1, t);
    }
  }

  lemma OneMore(n: nat, t: nat)
    ensures (n + 1) * t == n * t + t
  {
  }

  lemma AtMost(n: nat, m: nat, t: nat)
    requires n <= m
    ensures n * t <= m * t
  {
  }

  lemma {:induction false} PutShape(fields: seq<Field>, key: string, node: Node)
    ensures |Put(fields, key, node)| <= |fields| + 1
    ensures forall f :: f in Put(fields, key, node) ==> f in fields || f.node == node
    ensures (forall f :: f in fields ==> f.key != key) ==> Put(fields, key, node) == fields + [Field(key, node)]
  {
    if fields != [] {
      if fields[0].key != key {
        PutShape(fields[1..], key, node);
        assert forall f :: f in fields[1..] ==> f in fields;
        assert fields == [fields[0]] + fields[1..];
      }
    }
  }

  /** Whatever the graph, cyclic or endless: an error's two fields, handed on as they are, counted as one node each. */
  lemma {:induction false} SizeIsBounded(h: Heap, v: Val, depth: nat)
    ensures Safe(h, v, depth).Some? ==> Size(Safe(h, v, depth).value) <= Largest(depth)
    decreases Fuel(depth), 1, 0
  {
    if v.Ref? && depth < MAX_DEPTH {
      match h(v.at)
      case Arr(items) => ArrayIsBounded(h, items, depth);
      case MapOf(keys, _) => ArrayIsBounded(h, First(keys, MAX_ARRAY), depth + 1);
      case SetOf(items, _) => ArrayIsBounded(h, First(items, MAX_ARRAY), depth + 1);
      case Object(props) => RecordIsBounded(h, v, depth, props);
      case Err(name, message, _) =>
        if name.Some? && message.Some? { ErrorIsSmall(name.value, message.value); }
    }
  }

  lemma ErrorIsSmall(name: Val, message: Val)
    ensures Size(Record([Field("name", Raw(name)), Field("message", Raw(message))])) == 3
  {
    var fields := [Field("name", Raw(name)), Field("message", Raw(message))];
    assert fields[1..] == [fields[1]] && fields[1..][1..] == [];
    assert SizeFields(fields[1..]) == 1 && SizeFields(fields) == 2;
  }

  lemma {:induction false} RecordIsBounded(h: Heap, v: Val, depth: nat, props: seq<Prop>)
    requires v.Ref? && depth < MAX_DEPTH && h(v.at) == Object(props)
    ensures Safe(h, v, depth).Some? && Size(Safe(h, v, depth).value) <= Largest(depth)
    decreases Fuel(depth), 0, 0
  {
    var shown, t := First(props, MAX_KEYS), Largest(depth + 1);
    PropsAreBounded(h, shown, depth + 1);
    RecordIs(h, v, depth, props);
    ObjectIsBounded(SafeProps(h, shown, depth + 1), t);
  }

  lemma ObjectIsBounded(fields: seq<Field>, t: nat)
    requires |fields| <= MAX_KEYS && t > 0 && forall f :: f in fields ==> Size(f.node) <= t
    ensures SizeFields(fields) <= MAX_KEYS * t
    ensures SizeFields(Put(fields, ELLIPSIS, Text("keys truncated"))) <= MAX_KEYS * t + 1
  {
    SumOfFields(fields, t);
    AtMost(|fields|, MAX_KEYS, t);
    PutSize(fields, ELLIPSIS, Text("keys truncated"));
  }

  lemma {:induction false} PutSize(fields: seq<Field>, key: string, node: Node)
    ensures SizeFields(Put(fields, key, node)) <= SizeFields(fields) + Size(node)
  {
    if fields != [] {
      if fields[0].key == key {
        assert ([Field(key, node)] + fields[1..])[1..] == fields[1..];
      } else {
        PutSize(fields[1..], key, node);
        assert ([fields[0]] + Put(fields[1..], key, node))[1..] == Put(fields[1..], key, node);
      }
    }
  }

  lemma {:induction false} SizeAllAppend(nodes: seq<Node>, n: Node)
    ensures SizeAll(nodes + [n]) == SizeAll(nodes) + Size(n)
  {
    if nodes != [] {
      assert (nodes + [n])[1..] == nodes[1..] + [n];
      SizeAllAppend(nodes[1..], n);
    }
  }

  lemma {:induction false} ArrayIsBounded(h: Heap, items: seq<Val>, depth: nat)
    ensures SafeArray(h, items, depth).Some? ==> Size(SafeArray(h, items, depth).value) <= Largest(depth)
    ensures depth > 0 ==> Largest(depth) <= Largest(depth - 1)
    decreases Fuel(depth), 0, 0
  {
    if depth < MAX_DEPTH {
      var items0 := First(items, MAX_ARRAY);
      AllAreBounded(h, items0, depth + 1);
      var head := SafeAll(h, items0, depth + 1);
      if head.Some? {
        var t := Largest(depth + 1);
        SumOfNodes(head.value, t);
        AtMost(|head.value|, MAX_KEYS, t);
        SizeAllAppend(head.value, Text(ELLIPSIS + "(" + Decimal.Print(|items|) + ")"));
      }
    }
    LargestShrinks(depth);
  }

  lemma {:induction false} LargestShrinks(depth: nat)
    ensures depth > 0 ==> Largest(depth) <= Largest(depth - 1)
    decreases Fuel(depth)
  {
    if depth < MAX_DEPTH { LargestShrinks(depth + 1); }
  }

  lemma {:induction false} AllAreBounded(h: Heap, items: seq<Val>, depth: nat)
    ensures
      var all := SafeAll(h, items, depth);
      all.Some? ==> |all.value| == |items| && forall i :: 0 <= i < |items| ==> Size(all.value[i]) <= Largest(depth)
    decreases Fuel(depth), 2, |items|
  {
    if items != [] {
      AllAreBounded(h, items[..|items| - 1], depth);
      SizeIsBounded(h, items[|items| - 1], depth);
    }
  }

  lemma {:induction false} PropsAreBounded(h: Heap, props: seq<Prop>, depth: nat)
    ensures |SafeProps(h, props, depth)| <= |props|
    ensures forall f :: f in SafeProps(h, props, depth) ==> Size(f.node) <= Largest(depth)
    decreases Fuel(depth), 2, |props|
  {
    if props != [] {
      var n := |props| - 1;
      var p := props[n];
      PropsAreBounded(h, props[..n], depth);
      var node := if p.value.None? then None else Safe(h, p.value.value, depth);
      if p.value.Some? { SizeIsBounded(h, p.value.value, depth); }
      PutShape(SafeProps(h, props[..n], depth), p.key, if node.Some? then node.value else Text("<unserializable>"));
    }
  }

  // ----- A graph as large as can be -----

  function LoopKey(i: nat): string {
    seq(i + 1, _ => 'k')
  }

  function LoopProps(n: nat): (ps: seq<Prop>)
    ensures |ps| == n
  {
    seq(n, i requires 0 <= i => Prop(LoopKey(i), Some(Ref(0))))
  }

  /** One object with 65 keys, every one of them leading back to it. */
  function Loop(): Heap {
    _ => Object(LoopProps(MAX_KEYS + 1))
  }

  function LoopFields(n: nat, x: Node): (fs: seq<Field>)
    ensures |fs| == n
  {
    seq(n, i requires 0 <= i => Field(LoopKey(i), x))
  }

  lemma LoopKeysDiffer(n: nat, x: Node)
    ensures forall f :: f in LoopFields(n, x) ==> f.key != LoopKey(n) && f.key != ELLIPSIS && f.node == x
  {
    forall f | f in LoopFields(n, x)
      ensures f.key != LoopKey(n) && f.key != ELLIPSIS && f.node == x
    {
      var i :| 0 <= i < n && LoopFields(n, x)[i] == f;
      assert |LoopKey(i)| == i + 1 && |LoopKey(n)| == n + 1;
      assert LoopKey(i)[0] == 'k' && ELLIPSIS[0] != 'k';
    }
  }

  lemma {:induction false} PropsOfLoop(h: Heap, n: nat, depth: nat, x: Node)
    requires Safe(h, Ref(0), depth) == Some(x)
    ensures SafeProps(h, LoopProps(n), depth) == LoopFields(n, x)
  {
    if n > 0 {
      PropsOfLoop(h, n - 1, depth, x);
      assert LoopProps(n)[..n - 1] == LoopProps(n - 1);
      assert LoopProps(n)[n - 1] == Prop(LoopKey(n - 1), Some(Ref(0)));
      PutShape(LoopFields(n - 1, x), LoopKey(n - 1), x);
      LoopKeysDiffer(n - 1, x);
      assert LoopFields(n, x) == LoopFields(n - 1, x) + [Field(LoopKey(n - 1), x)];
    }
  }

  function LoopRecord(x: Node): Node {
    Record(LoopFields(MAX_KEYS, x) + [Field(ELLIPSIS, Text("keys truncated"))])
  }

  lemma LongObject(h: Heap, v: Val, depth: nat, props: seq<Prop>)
    requires depth < MAX_DEPTH && v.Ref? && h(v.at) == Object(props) && |props| > MAX_KEYS
    ensures Safe(h, v, depth) ==
            Some(Record(Put(SafeProps(h, props[..MAX_KEYS], depth + 1), ELLIPSIS, Text("keys truncated"))))
  {
  }

  lemma LoopMarked(x: Node)
    ensures Record(Put(LoopFields(MAX_KEYS, x), ELLIPSIS, Text("keys truncated"))) == LoopRecord(x)
  {
    LoopKeysDiffer(MAX_KEYS, x);
    PutShape(LoopFields(MAX_KEYS, x), ELLIPSIS, Text("keys truncated"));
  }

  lemma LoopShown()
    ensures LoopProps(MAX_KEYS + 1)[..MAX_KEYS] == LoopProps(MAX_KEYS)
  {
  }

  lemma LoopUnfolds(h: Heap, depth: nat, x: Node)
    requires depth < MAX_DEPTH && h(0) == Object(LoopProps(MAX_KEYS + 1)) && Safe(h, Ref(0), depth + 1) == Some(x)
    ensures Safe(h, Ref(0), depth) == Some(LoopRecord(x))
  {
    LoopMarked(x);
    LoopShown();
    PropsOfLoop(h, MAX_KEYS, depth + 1, x);
    LongObject(h, Ref(0), depth, LoopProps(MAX_KEYS + 1));
  }

  lemma LoopSize(x: Node)
    ensures Size(LoopRecord(x)) == 2 + MAX_KEYS * Size(x)
  {
    SumOfEqualFields(LoopFields(MAX_KEYS, x), Size(x));
    SizeFieldsAppend(LoopFields(MAX_KEYS, x), Field(ELLIPSIS, Text("keys truncated")));
  }

  lemma {:induction false} SumOfEqualFields(fields: seq<Field>, t: nat)
    requires forall i :: 0 <= i < |fields| ==> Size(fields[i].node) == t
    ensures SizeFields(fields) == |fields| * t
  {
    if fields != [] {
      SumOfEqualFields(fields[1..], t);
      OneMore(|fields| - 1, t);
    }
  }

  lemma {:induction false} SizeFieldsAppend(fields: seq<Field>, f: Field)
    ensures SizeFields(fields + [f]) == SizeFields(fields) + Size(f.node)
  {
    if fields != [] {
      assert (fields + [f])[1..] == fields[1..] + [f];
      SizeFieldsAppend(fields[1..], f);
    }
  }

  lemma {:induction false} LoopSizes(depth: nat)
    ensures Safe(Loop(), Ref(0), depth).Some? && Size(Safe(Loop(), Ref(0), depth).value) == Largest(depth)
    decreases Fuel(depth)
  {
    if depth < MAX_DEPTH {
      LoopSizes(depth + 1);
      var x := Safe(Loop(), Ref(0), depth + 1).value;
      LoopUnfolds(Loop(), depth, x);
      LoopSize(x);
    }
  }

  // ----- Exceptions -----

  /** What is walked under an array, a map or a set. */
  function Elements(c: Cell): seq<Val> {
    match c
    case Arr(items) => First(items, MAX_ARRAY)
    case MapOf(keys, _) => First(keys, MAX_ARRAY)
    case SetOf(items, _) => First(items, MAX_ARRAY)
    case _ => []
  }

  /** A map's or a set's elements sit one level further down than an array's. */
  function Sinks(c: Cell): nat {
    if c.Arr? then 1 else 2
  }

  /** Along the path, through array, map and set elements alone, lies an error whose fields throw. */
  ghost predicate ThrowsBy(h: Heap, v: Val, depth: nat, path: seq<nat>)
    decreases |path|
  {
    && v.Ref? && depth < MAX_DEPTH
    && var c := h(v.at);
       if path == [] then c.Err? && (c.name.None? || c.message.None?)
       else path[0] < |Elements(c)| && ThrowsBy(h, Elements(c)[path[0]], depth + Sinks(c), path[1..])
  }

  ghost predicate Throws(h: Heap, v: Val, depth: nat) {
    exists path :: ThrowsBy(h, v, depth, path)
  }

  lemma ThrowsUnfolds(h: Heap, v: Val, depth: nat)
    ensures Throws(h, v, depth) <==>
      (&& v.Ref? && depth < MAX_DEPTH
       && (|| (h(v.at).Err? && (h(v.at).name.None? || h(v.at).message.None?))
           || exists i :: 0 <= i < |Elements(h(v.at))| && Throws(h, Elements(h(v.at))[i], depth + Sinks(h(v.at)))))
  {
    if v.Ref? && depth < MAX_DEPTH {
      var c := h(v.at);
      if Throws(h, v, depth) {
        var path :| ThrowsBy(h, v, depth, path);
        if path != [] {
          assert ThrowsBy(h, Elements(c)[path[0]], depth + Sinks(c), path[1..]);
        }
      }
      if c.Err? && (c.name.None? || c.message.None?) {
        assert ThrowsBy(h, v, depth, []);
      }
      if i :| 0 <= i < |Elements(c)| && Throws(h, Elements(c)[i], depth + Sinks(c)) {
        var path :| ThrowsBy(h, Elements(c)[i], depth + Sinks(c), path);
        assert ([i] + path)[1..] == path;
        assert ThrowsBy(h, v, depth, [i] + path);
      }
    }
  }

  lemma TooDeepToThrow(h: Heap, v: Val, depth: nat)
    requires depth >= MAX_DEPTH
    ensures !Throws(h, v, depth)
  {
  }

  /** A given context throws exactly when such an error is in reach; an object's keys are out of it. */
  lemma {:induction false} ThrowsIff(h: Heap, v: Val, depth: nat)
    ensures Safe(h, v, depth).None? <==> Throws(h, v, depth)
    decreases Fuel(depth), 1, 0
  {
    ThrowsUnfolds(h, v, depth);
    if v.Ref? && depth < MAX_DEPTH {
      var c := h(v.at);
      var items, inner := Elements(c), depth + Sinks(c);
      if !c.Object? && !c.Err? {
        assert First(items, MAX_ARRAY) == items;
        if inner <= MAX_DEPTH {
          AllThrowIff(h, items, inner);
        } else {
          forall i | 0 <= i < |items|
            ensures !Throws(h, items[i], inner)
          {
            TooDeepToThrow(h, items[i], inner);
          }
        }
      }
    }
  }

  lemma {:induction false} AllThrowIff(h: Heap, items: seq<Val>, depth: nat)
    ensures SafeAll(h, items, depth).None? <==> exists i :: 0 <= i < |items| && Throws(h, items[i], depth)
    decreases Fuel(depth), 2, |items|
  {
    if items != [] {
      var n := |items| - 1;
      AllThrowIff(h, items[..n], depth);
      ThrowsIff(h, items[n], depth);
      if i :| 0 <= i < |items| && Throws(h, items[i], depth) {
        assert i < n ==> items[..n][i] == items[i];
      }
    }
  }

  /** So an exception under an object's key stays there. */
  lemma ObjectsNeverThrow(h: Heap, v: Val, depth: nat)
    requires v.Ref? ==> h(v.at).Object?
    ensures Safe(h, v, depth).Some? && !Throws(h, v, depth)
  {
    ThrowsIff(h, v, depth);
  }

  // ----- What is handed on raw -----

  /** An error without a readable name, an array of it, and an object with it under a key. */
  function BrokenError(): Heap {
    at =>
      if at == 0 then Err(None, Some(Nullish), [])
      else if at == 1 then Arr([Ref(0)])
      else Object([Prop("cause", Some(Ref(0)))])
  }

  /** Logging the error or the array throws; logging the object does not. */
  lemma BrokenErrorThrows()
    ensures Safe(BrokenError(), Ref(0), 0).None? && Safe(BrokenError(), Ref(1), 0).None?
    ensures Safe(BrokenError(), Ref(2), 0) == Some(Record([Field("cause", Text("<unserializable>"))]))
  {
    var h := BrokenError();
    assert h(0) == Err(None, Some(Nullish), []) && h(1) == Arr([Ref(0)]);
    assert SafeAll(h, [Ref(0)], 1).None?;
    var props := [Prop("cause", Some(Ref(0)))];
    assert h(2) == Object(props) && props[..0] == [];
    assert SafeProps(h, props, 1) == Put([], "cause", Text("<unserializable>"));
  }

  /** Among the keys that are walked, the i-th is the last of its name, and not overwritten by the truncation mark. */
  predicate Stays(props: seq<Prop>, i: nat) {
    && i < |First(props, MAX_KEYS)|
    && IsLast(First(props, MAX_KEYS), i)
    && (|props| > MAX_KEYS ==> props[i].key != ELLIPSIS)
  }

  predicate IsLast(props: seq<Prop>, i: nat) {
    i < |props| && forall j :: i < j < |props| ==> props[j].key != props[i].key
  }

  /**
   Along the path, within the limits and losing nothing to an exception, lies an error with `x`
   as name or message.
  */
  ghost predicate HandsBy(h: Heap, v: Val, depth: nat, path: seq<nat>, x: Val)
    decreases |path|, 0
  {
    && v.Ref? && depth < MAX_DEPTH
    && var c := h(v.at);
       if path == [] then c.Err? && c.name.Some? && c.message.Some? && (x == c.name.value || x == c.message.value)
       else if c.Object? then
         && path[0] < |c.props| && Stays(c.props, path[0]) && KeyHands(h, c.props[path[0]], depth + 1, path[1..], x)
       else path[0] < |Elements(c)| && HandsBy(h, Elements(c)[path[0]], depth + Sinks(c), path[1..], x)
  }

  ghost predicate KeyHands(h: Heap, p: Prop, depth: nat, path: seq<nat>, x: Val)
    decreases |path|, 1
  {
    p.value.Some? && !Throws(h, p.value.value, depth) && HandsBy(h, p.value.value, depth, path, x)
  }

  ghost predicate Hands(h: Heap, v: Val, depth: nat, x: Val) {
    exists path :: HandsBy(h, v, depth, path, x)
  }

  ghost predicate PropHands(h: Heap, p: Prop, depth: nat, x: Val) {
    p.value.Some? && !Throws(h, p.value.value, depth) && Hands(h, p.value.value, depth, x)
  }

  /** Is `x` somewhere in the tree as it was found? */
  ghost predicate Holds(n: Node, x: Val) {
    match n
    case Raw(v) => v == x
    case List(items) => exists i :: 0 <= i < |items| && Holds(items[i], x)
    case Record(fields) => exists i :: 0 <= i < |fields| && Holds(fields[i].node, x)
    case _ => false
  }

  lemma ElementsHand(h: Heap, v: Val, depth: nat, x: Val)
    requires v.Ref? && depth < MAX_DEPTH && !h(v.at).Err? && !h(v.at).Object?
    ensures Hands(h, v, depth, x) <==>
      exists i :: 0 <= i < |Elements(h(v.at))| && Hands(h, Elements(h(v.at))[i], depth + Sinks(h(v.at)), x)
  {
    var items, inner := Elements(h(v.at)), depth + Sinks(h(v.at));
    if Hands(h, v, depth, x) {
      var path :| HandsBy(h, v, depth, path, x);
      assert HandsBy(h, items[path[0]], inner, path[1..], x);
    }
    if i :| 0 <= i < |items| && Hands(h, items[i], inner, x) {
      var path :| HandsBy(h, items[i], inner, path, x);
      assert ([i] + path)[1..] == path;
      assert HandsBy(h, v, depth, [i] + path, x);
    }
  }

  lemma KeysHand(h: Heap, v: Val, depth: nat, x: Val)
    requires v.Ref? && depth < MAX_DEPTH && h(v.at).Object?
    ensures
      var props := h(v.at).props;
      Hands(h, v, depth, x) <==>
      exists i :: 0 <= i < |props| && Stays(props, i) && PropHands(h, props[i], depth + 1, x)
  {
    var props := h(v.at).props;
    if Hands(h, v, depth, x) {
      var path :| HandsBy(h, v, depth, path, x);
      assert KeyHands(h, props[path[0]], depth + 1, path[1..], x);
      assert HandsBy(h, props[path[0]].value.value, depth + 1, path[1..], x);
      assert Stays(props, path[0]) && PropHands(h, props[path[0]], depth + 1, x);
    }
    if i :| 0 <= i < |props| && Stays(props, i) && PropHands(h, props[i], depth + 1, x) {
      var path :| HandsBy(h, props[i].value.value, depth + 1, path, x);
      assert ([i] + path)[1..] == path && ([i] + path)[0] == i;
      assert KeyHands(h, props[i], depth + 1, path, x);
      assert HandsBy(h, v, depth, [i] + path, x);
    }
  }

  ghost predicate HoldsAt(fields: seq<Field>, key: string, x: Val) {
    exists i :: 0 <= i < |fields| && fields[i].key == key && Holds(fields[i].node, x)
  }

  ghost predicate UniqueKeys(fields: seq<Field>) {
    forall i, j :: 0 <= i < j < |fields| ==> fields[i].key != fields[j].key
  }

  lemma UniqueOneMore(f: Field, rest: seq<Field>)
    requires UniqueKeys(rest) && forall g :: g in rest ==> g.key != f.key
    ensures UniqueKeys([f] + rest)
  {
    var all := [f] + rest;
    assert forall i :: 0 < i < |all| ==> all[i] == rest[i - 1] && all[i] in rest;
  }

  lemma {:induction false} PutUnique(fields: seq<Field>, key: string, node: Node)
    requires UniqueKeys(fields)
    ensures UniqueKeys(Put(fields, key, node))
    ensures forall f :: f in Put(fields, key, node) ==> f.key == key || f in fields
  {
    if fields != [] {
      var first, rest := fields[0], fields[1..];
      if first.key == key {
        UniqueOneMore(Field(key, node), rest);
      } else {
        PutUnique(rest, key, node);
        UniqueOneMore(first, Put(rest, key, node));
      }
    }
  }

  /** Writing a key replaces what was there and nothing else. */
  lemma {:induction false} PutHolds(fields: seq<Field>, key: string, node: Node, k: string, x: Val)
    requires UniqueKeys(fields)
    ensures HoldsAt(Put(fields, key, node), k, x) <==> if k == key then Holds(node, x) else HoldsAt(fields, k, x)
  {
    var after := Put(fields, key, node);
    HeadHolds(after, k, x);
    if fields == [] {
      assert after[1..] == [];
    } else {
      var rest := fields[1..];
      HeadHolds(fields, k, x);
      if fields[0].key == key {
        assert after[1..] == rest;
        assert !HoldsAt(rest, key, x);
      } else {
        assert UniqueKeys(rest);
        PutHolds(rest, key, node, k, x);
        assert after[1..] == Put(rest, key, node);
      }
    }
  }

  lemma HeadHolds(fields: seq<Field>, k: string, x: Val)
    requires fields != []
    ensures HoldsAt(fields, k, x) <==> (fields[0].key == k && Holds(fields[0].node, x)) || HoldsAt(fields[1..], k, x)
  {
    if HoldsAt(fields[1..], k, x) {
      var i :| 0 <= i < |fields[1..]| && fields[1..][i].key == k && Holds(fields[1..][i].node, x);
      assert fields[i + 1] == fields[1..][i];
    }
    if i :| 0 < i < |fields| && fields[i].key == k && Holds(fields[i].node, x) {
      assert fields[1..][i - 1] == fields[i];
    }
  }

  /** The tree holds exactly what the errors in reach hand on. */
  lemma {:induction false} HoldsIff(h: Heap, v: Val, depth: nat, x: Val)
    requires Safe(h, v, depth).Some?
    ensures Holds(Safe(h, v, depth).value, x) <==> Hands(h, v, depth, x)
    decreases Fuel(depth), 1, 0
  {
    if v.Ref? && depth < MAX_DEPTH {
      match h(v.at)
      case Err(_, _, _) => ErrorHolds(h, v, depth, x);
      case Object(props) => RecordHolds(h, v, depth, x);
      case _ => ListHolds(h, v, depth, x);
    }
  }

  lemma ErrorHolds(h: Heap, v: Val, depth: nat, x: Val)
    requires v.Ref? && depth < MAX_DEPTH && h(v.at).Err? && Safe(h, v, depth).Some?
    ensures Holds(Safe(h, v, depth).value, x) <==> Hands(h, v, depth, x)
  {
    var c := h(v.at);
    var fields := Safe(h, v, depth).value.fields;
    assert fields[0].node == Raw(c.name.value) && fields[1].node == Raw(c.message.value);
    assert HandsBy(h, v, depth, [], x) <==> x == c.name.value || x == c.message.value;
    assert forall path :: HandsBy(h, v, depth, path, x) ==> path == [];
  }

  lemma MarkHoldsNothing(nodes: seq<Node>, more: string, x: Val)
    ensures Holds(List(nodes + [Text(more)]), x) <==> Holds(List(nodes), x)
  {
    var longer := nodes + [Text(more)];
    if i :| 0 <= i < |nodes| && Holds(nodes[i], x) {
      assert longer[i] == nodes[i];
    }
  }

  lemma ListIs(h: Heap, v: Val, depth: nat, items: seq<Val>, inner: nat) returns (more: string)
    requires v.Ref? && depth < MAX_DEPTH && !h(v.at).Err? && !h(v.at).Object? && Safe(h, v, depth).Some?
    requires items == Elements(h(v.at)) && inner == depth + Sinks(h(v.at)) <= MAX_DEPTH
    ensures SafeAll(h, items, inner).Some?
    ensures
      var nodes, tree := SafeAll(h, items, inner).value, Safe(h, v, depth).value;
      tree == List(nodes) || tree == List(nodes + [Text(more)])
  {
    assert First(items, MAX_ARRAY) == items;
    more := ELLIPSIS + "(" + Decimal.Print(if h(v.at).Arr? then |h(v.at).items| else 0) + ")";
  }

  lemma TooDeepToHand(h: Heap, items: seq<Val>, depth: nat, x: Val)
    requires depth >= MAX_DEPTH
    ensures forall i :: 0 <= i < |items| ==> !Hands(h, items[i], depth, x)
  {
  }

  lemma ListOf(nodes: seq<Node>, more: string, tree: Node, n: nat, hands: nat -> bool, x: Val)
    requires |nodes| == n && forall i :: 0 <= i < n ==> (Holds(nodes[i], x) <==> hands(i))
    requires tree == List(nodes) || tree == List(nodes + [Text(more)])
    ensures Holds(tree, x) <==> exists i :: 0 <= i < n && hands(i)
  {
    MarkHoldsNothing(nodes, more, x);
    if i :| 0 <= i < n && hands(i) {
      assert Holds(nodes[i], x);
    }
  }

  lemma {:induction false} ListHolds(h: Heap, v: Val, depth: nat, x: Val)
    requires v.Ref? && depth < MAX_DEPTH && !h(v.at).Err? && !h(v.at).Object? && Safe(h, v, depth).Some?
    ensures Holds(Safe(h, v, depth).value, x) <==> Hands(h, v, depth, x)
    decreases Fuel(depth), 0, 1
  {
    var items, inner := Elements(h(v.at)), depth + Sinks(h(v.at));
    ElementsHand(h, v, depth, x);
    if inner <= MAX_DEPTH {
      var more := ListIs(h, v, depth, items, inner);
      AllHold(h, items, inner, x);
      var hands := i => 0 <= i < |items| && Hands(h, items[i], inner, x);
      ListOf(SafeAll(h, items, inner).value, more, Safe(h, v, depth).value, |items|, hands, x);
    } else {
      TooDeepToHand(h, items, inner, x);
      TooDeepToHold(h, v, depth, x);
    }
  }

  lemma TooDeepToHold(h: Heap, v: Val, depth: nat, x: Val)
    requires v.Ref? && depth + Sinks(h(v.at)) > MAX_DEPTH > depth && !h(v.at).Err? && !h(v.at).Object?
    ensures Safe(h, v, depth) == Some(Text("<depth>")) && !Holds(Safe(h, v, depth).value, x)
  {
  }

  lemma {:induction false} AllHold(h: Heap, items: seq<Val>, depth: nat, x: Val)
    requires SafeAll(h, items, depth).Some?
    ensures
      var nodes := SafeAll(h, items, depth).value;
      |nodes| == |items| && forall i :: 0 <= i < |items| ==> (Holds(nodes[i], x) <==> Hands(h, items[i], depth, x))
    decreases Fuel(depth), 2, |items|
  {
    if items != [] {
      AllHold(h, items[..|items| - 1], depth, x);
      HoldsIff(h, items[|items| - 1], depth, x);
    }
  }

  /** An object's record is what its keys write, and the mark. */
  lemma RecordIs(h: Heap, v: Val, depth: nat, props: seq<Prop>)
    requires v.Ref? && depth < MAX_DEPTH && h(v.at) == Object(props)
    ensures Safe(h, v, depth).Some?
    ensures
      var fields := SafeProps(h, First(props, MAX_KEYS), depth + 1);
      Safe(h, v, depth).value == Record(if |props| > MAX_KEYS then Put(fields, ELLIPSIS, Text("keys truncated"))
          else fields)
  {
  }

  lemma MarkedHolds(fields: seq<Field>, marked: bool, k: string, x: Val)
    requires UniqueKeys(fields)
    ensures
      var all := if marked then Put(fields, ELLIPSIS, Text("keys truncated")) else fields;
      HoldsAt(all, k, x) <==> HoldsAt(fields, k, x) && (marked ==> k != ELLIPSIS)
  {
    PutHolds(fields, ELLIPSIS, Text("keys truncated"), k, x);
  }

  lemma HoldsSomewhere(fields: seq<Field>, x: Val)
    ensures Holds(Record(fields), x) <==> exists k :: HoldsAt(fields, k, x)
  {
    if i :| 0 <= i < |fields| && Holds(fields[i].node, x) {
      assert HoldsAt(fields, fields[i].key, x);
    }
  }

  /** Under a key of the record: the last walked key of that name, if the mark is not written over it. */
  lemma {:induction false} KeyHolds(h: Heap, props: seq<Prop>, inner: nat, k: string, x: Val)
    ensures
      var fields := SafeProps(h, First(props, MAX_KEYS), inner);
      var all := if |props| > MAX_KEYS then Put(fields, ELLIPSIS, Text("keys truncated")) else fields;
      HoldsAt(all, k, x) <==> KeyStays(h, props, inner, k, x)
    decreases Fuel(inner), 2, |First(props, MAX_KEYS)| + 1
  {
    var shown := First(props, MAX_KEYS);
    PropsUnique(h, shown, inner);
    MarkedHolds(SafeProps(h, shown, inner), |props| > MAX_KEYS, k, x);
    PropsHold(h, shown, inner, k, x);
    if KeyHandsLast(h, shown, inner, k, x) && (|props| > MAX_KEYS ==> k != ELLIPSIS) {
      var j :| 0 <= j < |shown| && LastHands(h, shown, inner, k, x, j);
      assert StaysAs(h, props, inner, k, x, j);
    }
    if j :| 0 <= j < |props| && StaysAs(h, props, inner, k, x, j) {
      assert LastHands(h, shown, inner, k, x, j);
    }
  }

  ghost predicate StaysAs(h: Heap, props: seq<Prop>, inner: nat, k: string, x: Val, j: nat) {
    j < |props| && props[j].key == k && Stays(props, j) && PropHands(h, props[j], inner, x)
  }

  ghost predicate KeyStays(h: Heap, props: seq<Prop>, inner: nat, k: string, x: Val) {
    exists j :: 0 <= j < |props| && StaysAs(h, props, inner, k, x, j)
  }

  lemma RecordOf(h: Heap, v: Val, depth: nat, x: Val, fields: seq<Field>)
    requires v.Ref? && depth < MAX_DEPTH && h(v.at).Object?
    requires forall k :: HoldsAt(fields, k, x) <==> KeyStays(h, h(v.at).props, depth + 1, k, x)
    ensures Holds(Record(fields), x) <==> Hands(h, v, depth, x)
  {
    var props, inner := h(v.at).props, depth + 1;
    HoldsSomewhere(fields, x);
    KeysHand(h, v, depth, x);
    if j :| 0 <= j < |props| && Stays(props, j) && PropHands(h, props[j], inner, x) {
      assert StaysAs(h, props, inner, props[j].key, x, j);
      assert HoldsAt(fields, props[j].key, x);
    }
    if k :| HoldsAt(fields, k, x) {
      var j :| 0 <= j < |props| && StaysAs(h, props, inner, k, x, j);
    }
  }

  lemma {:induction false} RecordHolds(h: Heap, v: Val, depth: nat, x: Val)
    requires v.Ref? && depth < MAX_DEPTH && h(v.at).Object?
    ensures Holds(Safe(h, v, depth).value, x) <==> Hands(h, v, depth, x)
    decreases Fuel(depth), 0, 1
  {
    var props := h(v.at).props;
    RecordIs(h, v, depth, props);
    var shown := SafeProps(h, First(props, MAX_KEYS), depth + 1);
    var fields := if |props| > MAX_KEYS then Put(shown, ELLIPSIS, Text("keys truncated")) else shown;
    forall k
      ensures HoldsAt(fields, k, x) <==> KeyStays(h, props, depth + 1, k, x)
    {
      KeyHolds(h, props, depth + 1, k, x);
    }
    RecordOf(h, v, depth, x, fields);
  }

  /** The i-th is the last key of this name, and hands `x` on. */
  ghost predicate LastHands(h: Heap, props: seq<Prop>, depth: nat, k: string, x: Val, i: nat) {
    i < |props| && props[i].key == k && IsLast(props, i) && PropHands(h, props[i], depth, x)
  }

  lemma {:induction false} PropsUnique(h: Heap, props: seq<Prop>, depth: nat)
    ensures UniqueKeys(SafeProps(h, props, depth))
    decreases |props|
  {
    if props != [] {
      var n := |props| - 1;
      PropsUnique(h, props[..n], depth);
      PutUnique(SafeProps(h, props[..n], depth), props[n].key, Written(h, props[n], depth));
    }
  }

  lemma LastOfMore(h: Heap, props: seq<Prop>, depth: nat, k: string, x: Val, i: nat)
    requires props != [] && i < |props|
    ensures
      var n := |props| - 1;
      LastHands(h, props, depth, k, x, i) <==>
      if i == n then k == props[n].key && PropHands(h, props[n], depth, x)
      else LastHands(h, props[..n], depth, k, x, i) && k != props[n].key
  {
    var n := |props| - 1;
    assert i < n ==> props[..n][i] == props[i];
    if i < n && IsLast(props[..n], i) && props[n].key != props[i].key {
      assert forall j :: i < j < n ==> props[..n][j] == props[j];
    }
    if i < n && IsLast(props, i) {
      assert props[n].key != props[i].key;
    }
  }

  ghost predicate KeyHandsLast(h: Heap, props: seq<Prop>, depth: nat, k: string, x: Val) {
    exists i :: 0 <= i < |props| && LastHands(h, props, depth, k, x, i)
  }

  /** A later key of the same name hides the earlier ones. */
  lemma LastHides(h: Heap, props: seq<Prop>, depth: nat, k: string, x: Val)
    requires props != []
    ensures
      var p, front := props[|props| - 1], props[..|props| - 1];
      KeyHandsLast(h, props, depth, k, x) <==>
      if k == p.key then PropHands(h, p, depth, x) else KeyHandsLast(h, front, depth, k, x)
  {
    var n := |props| - 1;
    if i :| 0 <= i < |props| && LastHands(h, props, depth, k, x, i) {
      LastOfMore(h, props, depth, k, x, i);
    }
    LastOfMore(h, props, depth, k, x, n);
    if k != props[n].key {
      if i :| 0 <= i < n && LastHands(h, props[..n], depth, k, x, i) {
        LastOfMore(h, props, depth, k, x, i);
      }
    }
  }

  lemma {:induction false} PropsHold(h: Heap, props: seq<Prop>, depth: nat, k: string, x: Val)
    ensures HoldsAt(SafeProps(h, props, depth), k, x) <==> KeyHandsLast(h, props, depth, k, x)
    decreases Fuel(depth), 2, |props|
  {
    if props != [] {
      var n := |props| - 1;
      PropsHold(h, props[..n], depth, k, x);
      OneHolds(h, props[n], depth, x);
      PropsUnique(h, props[..n], depth);
      PutHolds(SafeProps(h, props[..n], depth), props[n].key, Written(h, props[n], depth), k, x);
      LastHides(h, props, depth, k, x);
    }
  }

  /** What one key is written with. */
  function Written(h: Heap, p: Prop, depth: nat): Node {
    var node := if p.value.None? then None else Safe(h, p.value.value, depth);
    if node.Some? then node.value else Text("<unserializable>")
  }

  lemma {:induction false} OneHolds(h: Heap, p: Prop, depth: nat, x: Val)
    ensures Holds(Written(h, p, depth), x) <==> PropHands(h, p, depth, x)
    decreases Fuel(depth), 1, 1
  {
    if p.value.Some? {
      ThrowsIff(h, p.value.value, depth);
      if Safe(h, p.value.value, depth).Some? { HoldsIff(h, p.value.value, depth, x); }
    }
  }

  // ----- What the tree reads -----

  /**
   Flags, numbers and strings of up to 512 characters stay as they are; a longer string keeps
   its first 512 and tells its length.
  */
  lemma LeavesStay(h: Heap, depth: nat, b: bool, x: real, s: string)
    ensures Safe(h, Nullish, depth) == Some(Null) && Safe(h, Fn, depth) == Some(Text("<fn>"))
    ensures Safe(h, Flag(b), depth) == Some(Boolean(b)) && Safe(h, Finite(x), depth) == Some(Number(x))
    ensures Safe(h, NonFinite(s), depth) == Some(Text(s)) && Safe(h, Sym(s), depth) == Some(Text("Symbol(" + s + ")"))
    ensures |s| <= 512 ==> Safe(h, Str(s), depth) == Some(Text(s))
    ensures |s| > 512 ==> Safe(h, Str(s), depth) == Some(Text(s[..512] + "\U{2026}(" + Decimal.Print(|s|) + ")"))
  {
    assert ELLIPSIS + "(" == "\U{2026}(";
    if |s| > 512 {
      var mark := "\U{2026}(" + Decimal.Print(|s|) + ")";
      assert mark == ELLIPSIS + "(" + Decimal.Print(|s|) + ")";
      assert Clip(s) == s[..512] + ELLIPSIS + "(" + Decimal.Print(|s|) + ")" == s[..512] + mark;
      assert s[..512] + "\U{2026}(" + Decimal.Print(|s|) + ")" == s[..512] + mark;
    }
  }

  lemma {:induction false} AllRead(h: Heap, items: seq<Val>, depth: nat)
    requires SafeAll(h, items, depth).Some?
    ensures
      var nodes := SafeAll(h, items, depth).value;
      |nodes| == |items| && forall i :: 0 <= i < |items| ==> Safe(h, items[i], depth) == Some(nodes[i])
  {
    if items != [] { AllRead(h, items[..|items| - 1], depth); }
  }

  /** A list of the first 32 elements, each read at this depth, and a mark with the count if there are more. */
  ghost predicate ListsAs(h: Heap, items: seq<Val>, depth: nat, all: bool, nodes: seq<Node>) {
    var n := Min(32, |items|);
    && |nodes| == (if all && |items| > 32 then n + 1 else n)
    && (forall i :: 0 <= i < n ==> Safe(h, items[i], depth) == Some(nodes[i]))
    && (all && |items| > 32 ==> nodes[n] == Text("\U{2026}(" + Decimal.Print(|items|) + ")"))
  }

  lemma ArrayReads(h: Heap, items: seq<Val>, depth: nat)
    requires SafeArray(h, items, depth).Some?
    ensures depth >= 4 ==> SafeArray(h, items, depth) == Some(Text("<depth>"))
    ensures depth < 4 ==>
      var r := SafeArray(h, items, depth).value;
      r.List? && ListsAs(h, items, depth + 1, true, r.items)
  {
    if depth < 4 { AllRead(h, First(items, MAX_ARRAY), depth + 1); }
  }

  /** An array is read one level down; a map as its keys and a set as its members, two levels down and unmarked. */
  lemma ListReads(h: Heap, v: Val, depth: nat)
    requires v.Ref? && depth < 4 && Safe(h, v, depth).Some?
    ensures
      var c, r := h(v.at), Safe(h, v, depth).value;
      && (c.Arr? ==> r.List? && ListsAs(h, c.items, depth + 1, true, r.items))
      && (c.MapOf? || c.SetOf? ==>
            if depth == 3 then r == Text("<depth>")
            else r.List? && ListsAs(h, if c.MapOf? then c.keys else c.items, depth + 2, false, r.items))
  {
    match h(v.at)
    case Arr(items) => ArrayReads(h, items, depth);
    case MapOf(keys, _) => ArrayReads(h, First(keys, MAX_ARRAY), depth + 1);
    case SetOf(items, _) => ArrayReads(h, First(items, MAX_ARRAY), depth + 1);
    case _ =>
  }

  /** From the fourth level down there is no looking into anything. */
  lemma DeepReads(h: Heap, v: Val, depth: nat)
    requires v.Ref? && depth >= 4
    ensures Safe(h, v, depth) == Some(Text("<depth>"))
  {
  }

  lemma {:induction false} PutReads(fields: seq<Field>, key: string, node: Node)
    requires UniqueKeys(fields)
    ensures forall f :: f in Put(fields, key, node) <==> f == Field(key, node) || (f in fields && f.key != key)
  {
    if fields != [] {
      var rest := fields[1..];
      assert fields == [fields[0]] + rest;
      assert forall f :: f in rest ==> f.key != fields[0].key;
      if fields[0].key != key { PutReads(rest, key, node); }
    }
  }

  /** The i-th of these keys is the last of its name, and this is its field. */
  ghost predicate WritesField(h: Heap, props: seq<Prop>, depth: nat, i: nat, f: Field) {
    IsLast(props, i) && f == Field(props[i].key, Written(h, props[i], depth))
  }

  lemma {:induction false} PropsRead(h: Heap, props: seq<Prop>, depth: nat)
    ensures forall f :: f in SafeProps(h, props, depth) <==>
              exists i :: 0 <= i < |props| && WritesField(h, props, depth, i, f)
    decreases |props|
  {
    if props != [] {
      var n := |props| - 1;
      var front := SafeProps(h, props[..n], depth);
      PropsRead(h, props[..n], depth);
      PropsUnique(h, props[..n], depth);
      PutReads(front, props[n].key, Written(h, props[n], depth));
      forall f
        ensures f in SafeProps(h, props, depth) <==> exists i :: 0 <= i < |props| && WritesField(h, props, depth, i, f)
      {
        LastWrites(h, props, depth, f);
      }
    }
  }

  lemma LastWrites(h: Heap, props: seq<Prop>, depth: nat, f: Field)
    requires props != []
    ensures
      var n := |props| - 1;
      (exists i :: 0 <= i < |props| && WritesField(h, props, depth, i, f)) <==>
      || f == Field(props[n].key, Written(h, props[n], depth))
      || (f.key != props[n].key && exists i :: 0 <= i < n && WritesField(h, props[..n], depth, i, f))
  {
    var n := |props| - 1;
    if i :| 0 <= i < |props| && WritesField(h, props, depth, i, f) {
      if i < n {
        assert props[n].key != props[i].key;
        assert IsLast(props[..n], i) by { assert forall j :: i < j < n ==> props[..n][j] == props[j]; }
        assert WritesField(h, props[..n], depth, i, f);
      }
    }
    if f == Field(props[n].key, Written(h, props[n], depth)) {
      assert WritesField(h, props, depth, n, f);
    }
    if i :| 0 <= i < n && WritesField(h, props[..n], depth, i, f) && f.key != props[n].key {
      assert forall j :: i < j < n ==> props[..n][j] == props[j];
      assert WritesField(h, props, depth, i, f);
    }
  }

  /**
   An object becomes a record of its first 64 keys, of several of one name the last, each with
   its value read one level down, or marked as unserializable; and a mark if there are more.
  */
  lemma RecordReads(h: Heap, v: Val, depth: nat, f: Field)
    requires v.Ref? && depth < 4 && h(v.at).Object?
    ensures
      var props := h(v.at).props;
      var shown, inner := props[..Min(64, |props|)], depth + 1;
      var r := Safe(h, v, depth);
      && r.Some? && r.value.Record? && UniqueKeys(r.value.fields)
      && (f in r.value.fields <==>
            if |props| > 64 && f.key == "\U{2026}" then f.node == Text("keys truncated")
            else exists i :: 0 <= i < |shown| && WritesField(h, shown, inner, i, f))
  {
    var props := h(v.at).props;
    var shown := First(props, MAX_KEYS);
    RecordIs(h, v, depth, props);
    PropsRead(h, shown, depth + 1);
    PropsUnique(h, shown, depth + 1);
    var fields := SafeProps(h, shown, depth + 1);
    PutReads(fields, ELLIPSIS, Text("keys truncated"));
    PutUnique(fields, ELLIPSIS, Text("keys truncated"));
    assert shown == props[..Min(64, |props|)];
  }

  // ----- How large the graph is that the tree stands for -----

  /** What `JSON.stringify` writes of anything that is no array: of errors, maps and sets only what else they own. */
  function Enumerable(c: Cell): seq<Prop>
    requires !c.Arr?
  {
    if c.Object? then c.props else c.own
  }

  /** A value handed on raw, unfolded as `JSON.stringify` would to this depth. */
  ghost function Unfolded(h: Heap, v: Val, fuel: nat): nat
    decreases fuel, 0
  {
    if !v.Ref? || fuel == 0 then 1
    else
      match h(v.at)
      case Arr(items) => 1 + UnfoldedAll(h, items, fuel - 1)
      case c => 1 + UnfoldedAll(h, Values(Enumerable(c)), fuel - 1)
  }

  ghost function UnfoldedAll(h: Heap, items: seq<Val>, fuel: nat): nat
    decreases fuel, 1, |items|
  {
    if items == [] then 0 else UnfoldedAll(h, items[..|items| - 1], fuel) + Unfolded(h, items[|items| - 1], fuel)
  }

  /** The values of the keys whose getters answer. */
  function Values(props: seq<Prop>): seq<Val> {
    if props == [] then []
    else
      var p := props[|props| - 1];
      Values(props[..|props| - 1]) + if p.value.Some? then [p.value.value] else []
  }

  /** The size of the tree with everything raw in it unfolded. */
  ghost function Weight(h: Heap, n: Node, fuel: nat): nat {
    match n
    case Raw(v) => Unfolded(h, v, fuel)
    case List(items) => 1 + WeightAll(h, items, fuel)
    case Record(fields) => 1 + WeightFields(h, fields, fuel)
    case _ => 1
  }

  ghost function WeightAll(h: Heap, nodes: seq<Node>, fuel: nat): nat {
    if nodes == [] then 0 else Weight(h, nodes[0], fuel) + WeightAll(h, nodes[1..], fuel)
  }

  ghost function WeightFields(h: Heap, fields: seq<Field>, fuel: nat): nat {
    if fields == [] then 0 else Weight(h, fields[0].node, fuel) + WeightFields(h, fields[1..], fuel)
  }

  lemma {:induction false} WeightIsSize(h: Heap, n: Node, fuel: nat)
    requires forall x :: Holds(n, x) ==> !x.Ref?
    ensures Weight(h, n, fuel) == Size(n)
    decreases n, 0
  {
    match n
    case Raw(v) => assert Holds(n, v);
    case List(items) =>
      assert forall i, x :: 0 <= i < |items| && Holds(items[i], x) ==> Holds(n, x);
      WeightsAreSizes(h, items, fuel);
    case Record(fields) =>
      assert forall i, x :: 0 <= i < |fields| && Holds(fields[i].node, x) ==> Holds(n, x);
      FieldWeightsAreSizes(h, fields, fuel);
    case _ =>
  }

  lemma {:induction false} WeightsAreSizes(h: Heap, nodes: seq<Node>, fuel: nat)
    requires forall i, x :: 0 <= i < |nodes| && Holds(nodes[i], x) ==> !x.Ref?
    ensures WeightAll(h, nodes, fuel) == SizeAll(nodes)
  {
    if nodes != [] {
      WeightIsSize(h, nodes[0], fuel);
      assert forall i :: 0 <= i < |nodes[1..]| ==> nodes[1..][i] == nodes[i + 1];
      WeightsAreSizes(h, nodes[1..], fuel);
    }
  }

  lemma {:induction false} FieldWeightsAreSizes(h: Heap, fields: seq<Field>, fuel: nat)
    requires forall i, x :: 0 <= i < |fields| && Holds(fields[i].node, x) ==> !x.Ref?
    ensures WeightFields(h, fields, fuel) == SizeFields(fields)
  {
    if fields != [] {
      WeightIsSize(h, fields[0].node, fuel);
      assert forall i :: 0 <= i < |fields[1..]| ==> fields[1..][i] == fields[i + 1];
      FieldWeightsAreSizes(h, fields[1..], fuel);
    }
  }

  /** No reference is left in the tree exactly when no error in reach has one as name or message. */
  lemma NoRawReferenceIff(h: Heap, v: Val, depth: nat)
    requires Safe(h, v, depth).Some?
    ensures (forall x :: Holds(Safe(h, v, depth).value, x) ==> !x.Ref?) <==>
        (forall x :: Hands(h, v, depth, x) ==> !x.Ref?)
  {
    forall x
      ensures Holds(Safe(h, v, depth).value, x) <==> Hands(h, v, depth, x)
    {
      HoldsIff(h, v, depth, x);
    }
  }

  /**
   Then, whatever the graph, cyclic or endless, and however far it is unfolded, the result is
   at most 17309826 nodes; met deeper, fewer.
  */
  lemma TreeIsBounded(h: Heap, v: Val, depth: nat, fuel: nat)
    requires Safe(h, v, depth).Some? && forall x :: Hands(h, v, depth, x) ==> !x.Ref?
    ensures Weight(h, Safe(h, v, depth).value, fuel) <= Largest(depth) <= Largest(0) == 17309826
  {
    NoRawReferenceIff(h, v, depth);
    WeightIsSize(h, Safe(h, v, depth).value, fuel);
    SizeIsBounded(h, v, depth);
    LargestAtTop(depth);
  }

  lemma {:induction false} LargestAtTop(depth: nat)
    ensures Largest(depth) <= Largest(0) == 17309826
  {
    if depth > 0 {
      LargestShrinks(depth);
      LargestAtTop(depth - 1);
    } else {
      assert Largest(3) == 66;
      assert Largest(2) == 4226;
      assert Largest(1) == 270466;
    }
  }

  lemma {:induction false} LoopHandsNothing(depth: nat, path: seq<nat>, x: Val)
    ensures !HandsBy(Loop(), Ref(0), depth, path, x)
    decreases |path|
  {
    if path != [] && depth < MAX_DEPTH {
      var props := LoopProps(MAX_KEYS + 1);
      if path[0] < |props| {
        assert props[path[0]].value == Some(Ref(0));
        LoopHandsNothing(depth + 1, path[1..], x);
      }
    }
  }

  /** One object with 65 keys leading back to itself reaches the bound, so no smaller number would do. */
  lemma BoundIsMet(fuel: nat)
    ensures Safe(Loop(), Ref(0), 0).Some? && Weight(Loop(), Safe(Loop(), Ref(0), 0).value, fuel) == 17309826
    ensures forall x :: !Hands(Loop(), Ref(0), 0, x)
  {
    LoopSizes(0);
    LargestAtTop(0);
    forall x
      ensures !Hands(Loop(), Ref(0), 0, x)
    {
      forall path
        ensures !HandsBy(Loop(), Ref(0), 0, path, x)
      {
        LoopHandsNothing(0, path, x);
      }
    }
    NoRawReferenceIff(Loop(), Ref(0), 0);
    WeightIsSize(Loop(), Safe(Loop(), Ref(0), 0).value, fuel);
  }

  /** An error whose message is an array of n elements. */
  function BigError(n: nat): Heap {
    at => if at == 0 then Err(Some(Str("Error")), Some(Ref(1)), []) else Arr(seq(n, _ => Nullish))
  }

  lemma {:induction false} NullsUnfold(h: Heap, n: nat, fuel: nat)
    ensures UnfoldedAll(h, seq(n, _ => Nullish), fuel) == n
  {
    if n > 0 {
      assert seq(n, _ => Nullish)[..n - 1] == seq(n - 1, _ => Nullish);
      NullsUnfold(h, n - 1, fuel);
    }
  }

  /** With a reference in an error's field there is no bound at all. */
  lemma RawGraphsAreUnbounded(n: nat)
    ensures Safe(BigError(n), Ref(0), 0).Some? && Hands(BigError(n), Ref(0), 0, Ref(1))
    ensures Weight(BigError(n), Safe(BigError(n), Ref(0), 0).value, 1) == n + 3
  {
    var h := BigError(n);
    assert HandsBy(h, Ref(0), 0, [], Ref(1));
    NullsUnfold(h, n, 0);
    ErrorWeighs(h, Str("Error"), Ref(1));
    assert h(1) == Arr(seq(n, _ => Nullish));
  }

  lemma ErrorWeighs(h: Heap, name: Val, message: Val)
    requires h(0).Err? && h(0).name == Some(name) && h(0).message == Some(message)
    ensures Safe(h, Ref(0), 0).Some?
    ensures Weight(h, Safe(h, Ref(0), 0).value, 1) == 1 + Unfolded(h, name, 1) + Unfolded(h, message, 1)
  {
    var fields := [Field("name", Raw(name)), Field("message", Raw(message))];
    assert Safe(h, Ref(0), 0) == Some(Record(fields));
    assert fields[1..] == [fields[1]] && fields[1..][1..] == [];
    assert WeightFields(h, fields[1..], 1) == Unfolded(h, message, 1);
    assert WeightFields(h, fields, 1) == Unfolded(h, name, 1) + Unfolded(h, message, 1);
  }

  // ----- What can be serialised -----

  /** Unfolding the value ends within the fuel, and meets no BigInt and no getter that throws. */
  predicate Unfolds(h: Heap, v: Val, fuel: nat)
    decreases fuel
  {
    match v
    case Big(_) => false
    case Ref(at) =>
      && fuel > 0
      && (match h(at)
          case Arr(items) => forall i :: 0 <= i < |items| ==> Unfolds(h, items[i], fuel - 1)
          case c =>
            var props := Enumerable(c);
            forall i :: 0 <= i < |props| ==> props[i].value.Some? && Unfolds(h, props[i].value.value, fuel - 1))
    case _ => true
  }

  /** `JSON.stringify` takes the value: it is finite below, without BigInts. */
  ghost predicate Serialisable(h: Heap, v: Val) {
    exists fuel: nat :: Unfolds(h, v, fuel)
  }

  /** `JSON.stringify` takes the tree. */
  ghost predicate Serialises(h: Heap, n: Node) {
    match n
    case Raw(v) => Serialisable(h, v)
    case List(items) => forall i :: 0 <= i < |items| ==> Serialises(h, items[i])
    case Record(fields) => forall i :: 0 <= i < |fields| ==> Serialises(h, fields[i].node)
    case _ => true
  }

  lemma {:induction false} SerialisesWhatItHolds(h: Heap, n: Node)
    ensures Serialises(h, n) <==> forall x :: Holds(n, x) ==> Serialisable(h, x)
  {
    match n
    case Raw(v) => assert Holds(n, v);
    case List(items) =>
      forall i | 0 <= i < |items|
        ensures Serialises(h, items[i]) <==> forall x :: Holds(items[i], x) ==> Serialisable(h, x)
        ensures forall x :: Holds(items[i], x) ==> Holds(n, x)
      {
        SerialisesWhatItHolds(h, items[i]);
      }
    case Record(fields) =>
      forall i | 0 <= i < |fields|
        ensures Serialises(h, fields[i].node) <==> forall x :: Holds(fields[i].node, x) ==> Serialisable(h, x)
        ensures forall x :: Holds(fields[i].node, x) ==> Holds(n, x)
      {
        SerialisesWhatItHolds(h, fields[i].node);
      }
    case _ =>
  }

  /** A given context becomes serialisable exactly when every error in reach has a serialisable name and message. */
  lemma SerialisesIff(h: Heap, v: Val, depth: nat)
    requires Safe(h, v, depth).Some?
    ensures Serialises(h, Safe(h, v, depth).value) <==> forall x :: Hands(h, v, depth, x) ==> Serialisable(h, x)
  {
    SerialisesWhatItHolds(h, Safe(h, v, depth).value);
    forall x
      ensures Holds(Safe(h, v, depth).value, x) <==> Hands(h, v, depth, x)
    {
      HoldsIff(h, v, depth, x);
    }
  }

  /** An error whose message is a BigInt, and one whose message is an array that holds itself. */
  function StubbornError(looping: bool): Heap {
    at => if at == 0 then Err(Some(Str("Error")), Some(if looping then Ref(1) else Big(1)), []) else Arr([Ref(1)])
  }

  lemma {:induction false} LoopNeverUnfolds(fuel: nat)
    ensures !Unfolds(StubbornError(true), Ref(1), fuel)
  {
    if fuel > 0 {
      LoopNeverUnfolds(fuel - 1);
      assert StubbornError(true)(1).items[0] == Ref(1);
    }
  }

  /** Both pass through, and neither is anything `JSON.stringify` takes. */
  lemma StubbornErrorsDoNotSerialise(looping: bool)
    ensures
      var h := StubbornError(looping);
      Safe(h, Ref(0), 0).Some? && !Serialises(h, Safe(h, Ref(0), 0).value)
  {
    var h := StubbornError(looping);
    var x := if looping then Ref(1) else Big(1);
    assert HandsBy(h, Ref(0), 0, [], x);
    SerialisesIff(h, Ref(0), 0);
    forall fuel: nat
      ensures !Unfolds(h, x, fuel)
    {
      if looping { LoopNeverUnfolds(fuel); }
    }
    assert Hands(h, Ref(0), 0, x) && !Serialisable(h, x);
  }

  /** A BigInt in the log reads as the same id everywhere else in the log does. */
  lemma BigsReadAsIds(h: Heap, n: nat, depth: nat)
    requires n < NodeId.Pow16(66)
    ensures Safe(h, Big(n), depth) == Some(Text(NodeId.IdToHex(n)))
    ensures NodeId.IsHex66(NodeId.IdToHex(n)) && NodeId.Value(NodeId.IdToHex(n)) == n
  {
    NodeId.ParseUndoesPrint(n);
  }
}
