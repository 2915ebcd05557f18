/**
  The registry `compute` keeps for each component type: the list of hook
  call-site paths, whose positions number the hooks of that component, and
  the list of instance marks, whose positions number its mounted instances.
  A key is resolved by find-or-append and released by moving the last
  element into its place and shrinking the list by one.
 */
module Identity {

  /** The component type a hook runs in (`owner.type`), compared by identity. */
  type ComponentId = nat

  /** The value `useState(Math.random())` fixes for one hook instance. */
  type Mark = nat

  predicate NoDup<T(==)>(xs: seq<T>) {
    forall i, j :: 0 <= i < j < |xs| ==> xs[i] != xs[j]
  }

  /** `xs.indexOf(x)`: the first position holding `x`, or -1. */
  function IndexOf<T(==)>(xs: seq<T>, x: T): (r: int)
    ensures -1 <= r < |xs|
    ensures r == -1 <==> x !in xs
    ensures r >= 0 ==> xs[r] == x && x !in xs[..r]
  {
    if xs == [] then -1
    else if xs[0] == x then 0
    else
      var r := IndexOf(xs[1..], x);
      if r == -1 then -1
      else
        assert xs[..r + 1] == [xs[0]] + xs[1..][..r];
        r + 1
  }

  /** Find-or-append: the list afterwards and the key's position in it. */
  function Resolve<T(==)>(xs: seq<T>, x: T): (r: (seq<T>, nat))
    ensures r.1 < |r.0| && r.0[r.1] == x
    ensures |xs| <= |r.0| <= |xs| + 1 && r.0[..|xs|] == xs
  {
    var i := IndexOf(xs, x);
    if i == -1 then (xs + [x], |xs|) else (xs, i)
  }

  /** Swap-remove: the slot of `x` takes the last element and the list loses
      its last slot; a list without `x` is left as it is. */
  function SwapRemove<T(==)>(xs: seq<T>, x: T): (r: seq<T>)
    ensures |r| == if x in xs then |xs| - 1 else |xs|
  {
    var i := IndexOf(xs, x);
    if i == -1 then xs else xs[i := xs[|xs| - 1]][..|xs| - 1]
  }

  /** The list registered for `id`, or the empty list `compute` creates. */
  function ListOf<T>(m: map<ComponentId, seq<T>>, id: ComponentId): seq<T> {
    if id in m then m[id] else []
  }

  /** The map after `compute` has found or appended `x` in the list of `id`. */
  function Registered<T(==)>(m: map<ComponentId, seq<T>>, id: ComponentId, x: T): map<ComponentId, seq<T>> {
    m[id := Resolve(ListOf(m, id), x).0]
  }

  /** The position `compute` reports for `x` in the list of `id`. */
  function Position<T(==)>(m: map<ComponentId, seq<T>>, id: ComponentId, x: T): nat {
    Resolve(ListOf(m, id), x).1
  }

  /** The map after the cleanup has swap-removed `x` from the list of `id`. */
  function Released<T(==)>(m: map<ComponentId, seq<T>>, id: ComponentId, x: T): map<ComponentId, seq<T>> {
    m[id := SwapRemove(ListOf(m, id), x)]
  }

  /** How a component is named in lifecycle lines: `<Name/>` as inline code,
      or `Component` when the type has no name. */
  function ComponentName(name: string): (r: string)
    ensures name != "" ==> |r| == |name| + 5 && r[2..|r| - 3] == name
  {
    if name != "" then "`<" + name + "/>`" else "Component"
  }

  /** Two different names never share a display name; in particular no
      named component shows as `Component`. */
  lemma ComponentNameInjective(a: string, b: string)
    requires ComponentName(a) == ComponentName(b)
    ensures a == b
  {
    if a != "" && b != "" {
      var r := ComponentName(a);
      assert r[2..|r| - 3] == a;
    }
  }

  /** A key already present resolves to its first position and changes nothing. */
  lemma ResolveFound<T>(xs: seq<T>, x: T)
    requires x in xs
    ensures Resolve(xs, x) == (xs, IndexOf(xs, x))
  {
  }

  /** A new key is appended, at the position equal to the old length. */
  lemma ResolveAppends<T>(xs: seq<T>, x: T)
    requires x !in xs
    ensures Resolve(xs, x) == (xs + [x], |xs|)
  {
  }

  /** Resolving twice is resolving once. */
  lemma ResolveIdempotent<T>(xs: seq<T>, x: T)
    ensures var r := Resolve(xs, x); Resolve(r.0, x) == r
  {
    var r := Resolve(xs, x);
    if x !in xs {
      assert x !in xs[..|xs|];
      assert x in r.0[..r.1 + 1];
      IndexFirst(r.0, x, r.1);
    }
  }

  /** A position holding `x` with no `x` before it is what `indexOf` finds. */
  lemma IndexFirst<T>(xs: seq<T>, x: T, i: nat)
    requires i < |xs| && xs[i] == x && x !in xs[..i]
    ensures IndexOf(xs, x) == i
  {
  }

  /** Resolving a key never moves the keys already registered. */
  lemma ResolveKeepsIndices<T>(xs: seq<T>, x: T, y: T)
    requires y in xs
    ensures IndexOf(Resolve(xs, x).0, y) == IndexOf(xs, y)
  {
    var r := Resolve(xs, x).0;
    var i := IndexOf(xs, y);
    assert r[..|xs|] == xs;
    assert r[..i] == xs[..i];
    IndexFirst(r, y, i);
  }

  /** Resolving keeps a list free of duplicates. */
  lemma ResolveNoDup<T>(xs: seq<T>, x: T)
    requires NoDup(xs)
    ensures NoDup(Resolve(xs, x).0)
  {
  }

  /** Releasing an absent key changes nothing. */
  lemma ReleaseAbsent<T>(xs: seq<T>, x: T)
    requires x !in xs
    ensures SwapRemove(xs, x) == xs
  {
  }

  /** Releasing removes one occurrence of the key and keeps every other element. */
  lemma ReleaseContents<T>(xs: seq<T>, x: T)
    requires x in xs
    ensures multiset(SwapRemove(xs, x)) == multiset(xs) - multiset{x}
  {
    SwapRemoveAt(xs, IndexOf(xs, x));
  }

  /** Moving the last element into slot `i` and dropping the last slot loses
      exactly the element at `i`. */
  lemma SwapRemoveAt<T>(xs: seq<T>, i: nat)
    requires i < |xs|
    ensures multiset(xs[i := xs[|xs| - 1]][..|xs| - 1]) == multiset(xs) - multiset{xs[i]}
  {
    var n := |xs| - 1;
    var ys := xs[i := xs[n]];
    assert xs == xs[..n] + [xs[n]];
    if i == n {
      assert ys[..n] == xs[..n];
    } else {
      assert xs[..n] == xs[..i] + [xs[i]] + xs[i + 1..n];
      assert ys[..n] == xs[..i] + [xs[n]] + xs[i + 1..n];
    }
  }

  /** Releasing moves only the last element, into the freed slot. */
  lemma ReleasePositions<T>(xs: seq<T>, x: T)
    requires x in xs
    ensures var r := SwapRemove(xs, x); var i := IndexOf(xs, x);
      && (forall k :: 0 <= k < |r| && k != i ==> r[k] == xs[k])
      && (i < |r| ==> r[i] == xs[|xs| - 1])
  {
  }

  /** Releasing keeps a list free of duplicates, and the key is then gone. */
  lemma ReleaseNoDup<T>(xs: seq<T>, x: T)
    requires NoDup(xs)
    ensures NoDup(SwapRemove(xs, x)) && x !in SwapRemove(xs, x)
  {
    if x in xs {
      var r := SwapRemove(xs, x);
      var i := IndexOf(xs, x);
      ReleasePositions(xs, x);
      forall k | 0 <= k < |r|
        ensures r[k] != x
      {
        if k == i {
          assert r[k] == xs[|xs| - 1];
        } else {
          assert r[k] == xs[k];
        }
      }
    }
  }

  /** Releasing a key that was just appended restores the list. */
  lemma ReleaseUndoesResolve<T>(xs: seq<T>, x: T)
    requires x !in xs
    ensures SwapRemove(Resolve(xs, x).0, x) == xs
  {
    var ys := xs + [x];
    IndexFirst(ys, x, |xs|);
    assert ys[|xs| := x][..|xs|] == xs;
  }

  /** Releasing the key at position 0 of a longer list makes the last key the
      new first one: when the first hook of a component is released, the
      component's last hook becomes its hook number 0. */
  lemma ReleasePromotes<T>(xs: seq<T>)
    requires |xs| >= 2
    ensures SwapRemove(xs, xs[0])[0] == xs[|xs| - 1]
  {
  }

  /** `compute` runs in both the layout effect and the mount effect of one
      render: the second run finds what the first registered, changes
      nothing and reports the same number. */
  lemma RegisterIdempotent<T>(m: map<ComponentId, seq<T>>, id: ComponentId, x: T)
    ensures Registered(Registered(m, id, x), id, x) == Registered(m, id, x)
    ensures Position(Registered(m, id, x), id, x) == Position(m, id, x)
  {
    ResolveIdempotent(ListOf(m, id), x);
  }

  /** Registering one key never renumbers the keys of any component. */
  lemma RegisterKeepsPositions<T>(m: map<ComponentId, seq<T>>, id: ComponentId, x: T, id': ComponentId, y: T)
    requires y in ListOf(m, id')
    ensures Position(Registered(m, id, x), id', y) == Position(m, id', y)
  {
    if id' == id {
      ResolveKeepsIndices(ListOf(m, id), x, y);
    }
  }

  /** `indexOf`, then `push` when the key is missing: the list afterwards
      and the key's position in it. */
  method FindOrAppend<T(==)>(xs: seq<T>, x: T) returns (ys: seq<T>, i: nat)
    ensures (ys, i) == Resolve(xs, x)
    ensures i < |ys| && ys[i] == x && ys[..|xs|] == xs
  {
    var k := IndexOf(xs, x);
    if k == -1 {
      ys, i := xs + [x], |xs|;
    } else {
      ys, i := xs, k;
    }
  }

  /** `indexOf`, then the last element moved into the key's slot and `pop`. */
  method RemoveKey<T(==)>(xs: seq<T>, x: T) returns (ys: seq<T>)
    ensures ys == SwapRemove(xs, x)
    ensures |ys| == if x in xs then |xs| - 1 else |xs|
  {
    ys := xs;
    var index := IndexOf(ys, x);
    if index != -1 {
      ys := ys[index := ys[|ys| - 1]];
      ys := ys[..|ys| - 1];
    }
  }

  /** The two per-component lists, as the maps `components` and `instances`. */
  class Registry {
    var hooks: map<ComponentId, seq<string>>
    var instances: map<ComponentId, seq<Mark>>

    /** No list holds a key twice. */
    ghost predicate Valid()
      reads this
    {
      && (forall id :: id in hooks ==> NoDup(hooks[id]))
      && (forall id :: id in instances ==> NoDup(instances[id]))
    }

    constructor()
      ensures hooks == map[] && instances == map[] && Valid()
    {
      hooks := map[];
      instances := map[];
    }

    /** `compute`: the display name, the hook's number within its component
        and, for hook 0 only, the instance number (0 for every other hook,
        whose instance list is left alone). */
    method Compute(id: ComponentId, name: string, hookPath: string, mark: Mark)
      returns (componentName: string, hookId: nat, instanceId: nat)
      requires Valid()
      modifies this
      ensures Valid()
      ensures hooks == Registered(old(hooks), id, hookPath) && hookId == Position(old(hooks), id, hookPath)
      ensures componentName == ComponentName(name)
      ensures hookId != 0 ==> instances == old(instances) && instanceId == 0
      ensures hookId == 0 ==>
        instances == Registered(old(instances), id, mark) && instanceId == Position(old(instances), id, mark)
    {
      var paths := ListOf(hooks, id);
      ResolveNoDup(paths, hookPath);
      paths, hookId := FindOrAppend(paths, hookPath);
      hooks := hooks[id := paths];

      componentName := ComponentName(name);
      if hookId != 0 {
        instanceId := 0;
        return;
      }

      var marks := ListOf(instances, id);
      ResolveNoDup(marks, mark);
      marks, instanceId := FindOrAppend(marks, mark);
      instances := instances[id := marks];
    }

    /** The unmount cleanup: release the instance mark, then the hook path. */
    method Release(id: ComponentId, hookPath: string, mark: Mark)
      requires Valid()
      modifies this
      ensures Valid()
      ensures instances == Released(old(instances), id, mark)
      ensures hooks == Released(old(hooks), id, hookPath)
    {
      var marks := ListOf(instances, id);
      ReleaseNoDup(marks, mark);
      marks := RemoveKey(marks, mark);
      instances := instances[id := marks];

      var paths := ListOf(hooks, id);
      ReleaseNoDup(paths, hookPath);
      paths := RemoveKey(paths, hookPath);
      hooks := hooks[id := paths];
    }
  }
}
