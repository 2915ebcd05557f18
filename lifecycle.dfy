/**
  The hook itself: what a render of `useTilg` records, what its layout effect
  and mount effect log, and what the unmount cleanup releases. The React
  plumbing is reduced to plain method calls made in the order React makes
  them: `Render` (and `CallInner` for the template form) during rendering,
  then `LayoutEffect`, then `MountEffect` once, and `Unmount` at the end.
  Logging is the list of messages a method returns, each message the array
  that would be handed to `console.log`.
 */
module Lifecycle {
  import opened Values
  import opened Markdown
  import opened Identity

  /** The suffix that tells instances of one component apart: nothing for the
      first, ` (2)` for the second, and so on. */
  function Note(instanceId: nat): (r: string)
    ensures r == "" <==> instanceId == 0
  {
    if instanceId > 0 then " (" + NatToString(instanceId + 1) + ")" else ""
  }

  /** Different instances get different notes. */
  lemma NoteInjective(a: nat, b: nat)
    requires Note(a) == Note(b)
    ensures a == b
  {
    if a > 0 && b > 0 {
      var ta, tb := NatToString(a + 1), NatToString(b + 1);
      assert Note(a)[2..|Note(a)| - 1] == ta;
      assert Note(b)[2..|Note(b)| - 1] == tb;
      NatToStringRoundTrip(a + 1);
      NatToStringRoundTrip(b + 1);
    }
  }

  /** What one render finds out about its component (the current owner and
      the call stack in the source). */
  datatype Context = Context(name: string, id: ComponentId, props: Value, hookPath: string, logPath: string)

  /** The message callback a render registers: for values passed directly,
      or for a tagged template. */
  datatype Effect =
    | Inlined(values: seq<Value>, trace: string)
    | Template(strings: seq<string>, args: seq<Value>, trace: string)

  /** What the unmount cleanup captured when the mount effect ran. */
  datatype Cleanup = Cleanup(id: ComponentId, hookPath: string, componentName: string, note: string)

  /** The segments of the message for values passed directly: an empty
      segment before the first value, `, ` before each later one and an
      empty segment after the last. */
  function Separators(n: nat): (r: seq<string>)
    ensures |r| == n + 1
  {
    seq(n, i => if i > 0 then ", " else "") + [""]
  }

  /** The values as the text `md` shows them, separated by commas. */
  function Joined(values: seq<Value>): string {
    if values == [] then ""
    else
      var init := values[..|values| - 1];
      (if init == [] then "" else Joined(init) + ", ") + ArgText(values, |values| - 1)
  }

  /** The lines running the callback logs: one message, except that a
      template with no segments logs nothing. */
  function Message(env: Env, e: Effect, hints: set<nat>): (r: seq<seq<Item>>)
    ensures |r| <= 1
    ensures r == [] <==> e.Template? && e.strings == []
  {
    match e
    case Inlined(values, trace) => [Md(env, Separators(|values|), values, hints, trace)]
    case Template(strings, args, trace) =>
      if |strings| > 0 then [Md(env, strings, args, hints, trace)] else []
  }

  /** `<Name/> (N) mounted.` and `<Name/> (N) unmounted.`. */
  function LifecycleLine(env: Env, componentName: string, note: string, verb: string): seq<Item> {
    Md(env, [componentName + note + verb], [], {}, "")
  }

  /** `<Name/> (N) rendered with props: `props`.` */
  function RenderedLine(env: Env, componentName: string, note: string, props: Value): seq<Item> {
    Md(env, [componentName + note + " rendered with props: `", "`."], [props], {}, "")
  }

  /** The positions whose values differ; none when there is no previous list
      or the lengths differ. */
  function Hints(prev: Option<seq<Value>>, now: seq<Value>): (r: set<nat>)
    ensures forall k :: k in r ==> k < |now|
    ensures r != {} ==> prev.Some? && |prev.value| == |now|
  {
    if prev.None? || |prev.value| != |now| then {}
    else set k: nat | k < |now| && prev.value[k] != now[k]
  }

  /** Whether the values count as changed. */
  predicate Changed(prev: Option<seq<Value>>, now: seq<Value>) {
    prev.None? || |prev.value| != |now| || Hints(prev, now) != {}
  }

  /** The comparison loop of the layout effect. */
  method ChangeHints(prev: Option<seq<Value>>, now: seq<Value>) returns (changed: bool, hints: set<nat>)
    ensures prev.None? || |prev.value| != |now| ==> changed && hints == {}
    ensures prev.Some? && |prev.value| == |now| ==>
      && (forall k :: k in hints <==> 0 <= k < |now| && prev.value[k] != now[k])
      && (changed <==> hints != {})
    ensures changed == Changed(prev, now) && hints == Hints(prev, now)
  {
    changed := false;
    hints := {};
    if prev.None? || |prev.value| != |now| {
      changed := true;
    } else {
      var p := prev.value;
      var i := 0;
      while i < |p|
        invariant 0 <= i <= |p|
        invariant forall k :: k in hints <==> 0 <= k < i && p[k] != now[k]
        invariant changed <==> hints != {}
      {
        if p[i] != now[i] {
          changed := true;
          hints := hints + {i};
        }
        i := i + 1;
      }
      assert hints == Hints(prev, now);
    }
  }

  /** Values that did not change since the last layout effect are not logged
      again. */
  lemma SameValuesQuiet(now: seq<Value>)
    ensures !Changed(Some(now), now) && Hints(Some(now), now) == {}
  {
    if Hints(Some(now), now) != {} {
      var k :| k in Hints(Some(now), now);
    }
  }

  /** One changed value out of equally many marks exactly that position. */
  lemma OneChange(prev: seq<Value>, now: seq<Value>, i: nat)
    requires |prev| == |now| && i < |now| && prev[i] != now[i]
    requires forall k :: 0 <= k < |now| && k != i ==> prev[k] == now[k]
    ensures Changed(Some(prev), now) && Hints(Some(prev), now) == {i}
  {
    assert i in Hints(Some(prev), now);
  }

  /** The state one call site keeps across renders (its `useState` mark and
      its three refs). */
  class Hook {
    const mark: Mark
    /** `loggerEffectContent`: the message callback of the latest render. */
    var effect: Option<Effect>
    /** `loggerPrevArgsContent`: the values seen by the last layout effect. */
    var prevArgs: Option<seq<Value>>
    /** `loggerArgsContent`: the values of the latest render. */
    var args: seq<Value>

    constructor(mark: Mark)
      ensures this.mark == mark && effect == None && prevArgs == None && args == []
    {
      this.mark := mark;
      effect := None;
      prevArgs := None;
      args := [];
    }

    /** The body of `useTilg` during a render: values passed directly are
        recorded and the first is returned; without values the tag function
        is returned and nothing is registered until it is called. */
    method Render(ctx: Context, inlined: seq<Value>) returns (r: Returned)
      modifies this
      ensures args == inlined && prevArgs == old(prevArgs)
      ensures effect == if |inlined| > 0 then Some(Inlined(inlined, ctx.logPath)) else None
      ensures |inlined| > 0 ==> r == Passed(inlined[0])
      ensures |inlined| == 0 ==> r == InnerFunction
    {
      effect := None;
      args := [];
      if |inlined| > 0 {
        args := inlined;
        effect := Some(Inlined(inlined, ctx.logPath));
        return Passed(inlined[0]);
      }
      return InnerFunction;
    }

    /** `useTilgInner`, the tag function: registers the template and returns
        its first value. */
    method CallInner(ctx: Context, strings: seq<string>, values: seq<Value>) returns (v: Value)
      modifies this
      ensures effect == Some(Template(strings, values, ctx.logPath))
      ensures args == values && prevArgs == old(prevArgs)
      ensures v == First(values)
    {
      effect := Some(Template(strings, values, ctx.logPath));
      args := values;
      v := First(values);
    }

    /** The layout effect after every render: hook 0 logs the render line;
        then the values are compared with the previous ones, and the message
        is logged only when something changed and a callback is registered. */
    method LayoutEffect(env: Env, reg: Registry, ctx: Context) returns (logged: seq<seq<Item>>)
      requires reg.Valid()
      modifies this, reg
      ensures reg.Valid()
      ensures reg.hooks == Registered(old(reg.hooks), ctx.id, ctx.hookPath)
      ensures var first := Position(old(reg.hooks), ctx.id, ctx.hookPath) == 0;
        && reg.instances == (if first then Registered(old(reg.instances), ctx.id, mark) else old(reg.instances))
        && logged
           == (if first
               then [RenderedLine(env, ComponentName(ctx.name), Note(Position(old(reg.instances), ctx.id, mark)), ctx.props)]
               else [])
              + (if Changed(old(prevArgs), old(args)) && old(effect).Some?
                 then Message(env, old(effect).value, Hints(old(prevArgs), old(args)))
                 else [])
      ensures prevArgs == Some(old(args)) && args == old(args) && effect == old(effect)
    {
      var componentName, hookId, instanceId := reg.Compute(ctx.id, ctx.name, ctx.hookPath, mark);
      logged := [];
      if hookId == 0 {
        logged := [RenderedLine(env, componentName, Note(instanceId), ctx.props)];
      }
      var changed, hints := ChangeHints(prevArgs, args);
      prevArgs := Some(args);
      if changed && effect.Some? {
        logged := logged + Message(env, effect.value, hints);
      }
    }

    /** The mount effect: hook 0 logs the mounted line and leaves a cleanup;
        any other hook does nothing more than `compute`. */
    method MountEffect(env: Env, reg: Registry, ctx: Context) returns (logged: seq<seq<Item>>, cleanup: Option<Cleanup>)
      requires reg.Valid()
      modifies reg
      ensures reg.Valid()
      ensures reg.hooks == Registered(old(reg.hooks), ctx.id, ctx.hookPath)
      ensures var first := Position(old(reg.hooks), ctx.id, ctx.hookPath) == 0;
        var note := Note(Position(old(reg.instances), ctx.id, mark));
        && reg.instances == (if first then Registered(old(reg.instances), ctx.id, mark) else old(reg.instances))
        && cleanup == (if first then Some(Cleanup(ctx.id, ctx.hookPath, ComponentName(ctx.name), note)) else None)
        && logged == (if first then [LifecycleLine(env, ComponentName(ctx.name), note, " mounted.")] else [])
    {
      var componentName, hookId, instanceId := reg.Compute(ctx.id, ctx.name, ctx.hookPath, mark);
      if hookId != 0 {
        return [], None;
      }
      var note := Note(instanceId);
      logged := [LifecycleLine(env, componentName, note, " mounted.")];
      cleanup := Some(Cleanup(ctx.id, ctx.hookPath, componentName, note));
    }

    /** The cleanup of hook 0: release the mark and the path, then log the
        unmounted line with the name and note captured at mount time. */
    method Unmount(env: Env, reg: Registry, c: Cleanup) returns (logged: seq<seq<Item>>)
      requires reg.Valid()
      modifies reg
      ensures reg.Valid()
      ensures reg.instances == Released(old(reg.instances), c.id, mark)
      ensures reg.hooks == Released(old(reg.hooks), c.id, c.hookPath)
      ensures logged == [LifecycleLine(env, c.componentName, c.note, " unmounted.")]
    {
      reg.Release(c.id, c.hookPath, mark);
      logged := [LifecycleLine(env, c.componentName, c.note, " unmounted.")];
    }
  }
}
