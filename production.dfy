/**
  The production build of `useTilg`: no registry, no effects and no logging.
  It hands back the first value passed to it, or a tag function that hands
  back the first value interpolated into its template.
 */
module Production {
  import opened Values
  import Lifecycle

  /** `useTilg(...args)`. */
  function UseTilg(args: seq<Value>): (r: Returned)
    ensures |args| > 0 <==> r.Passed?
    ensures r.Passed? ==> r.value == args[0]
  {
    if |args| > 0 then Passed(args[0]) else InnerFunction
  }

  /** The tag function: `innerArgs[0]`, or `undefined` without values. */
  function Inner(strings: seq<string>, innerArgs: seq<Value>): (v: Value)
    ensures |innerArgs| > 0 ==> v == innerArgs[0]
    ensures |innerArgs| == 0 ==> v == Undefined
  {
    First(innerArgs)
  }

  /** Swapping the development hook for this one changes nothing a component
      sees: a render returns the same thing, and so does the tag function. */
  method SameAsDevelopment(h: Lifecycle.Hook, ctx: Lifecycle.Context, inlined: seq<Value>,
                           strings: seq<string>, values: seq<Value>)
    returns (r: Returned, v: Value)
    modifies h
    ensures r == UseTilg(inlined)
    ensures r.InnerFunction? ==> v == Inner(strings, values)
  {
    r := h.Render(ctx, inlined);
    if r.InnerFunction? {
      v := h.CallInner(ctx, strings, values);
    } else {
      v := Undefined;
    }
  }
}
