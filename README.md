# tilg in Dafny

A model of the core of `tilg`, a React hook that logs a component's
lifecycle (rendered, mounted, unmounted) and the values handed to it.

**The formatter `md`.** This is a subset of Markdown for `console.log`.
- It scans each literal segment character by character. It toggles `*`, `**`,
  `_`, `__` and `` ` `` under a boundary rule: a marker opens after a
  separator and closes before one.
- Between the segments it inlines the JSON text of each primitive argument.
  Objects and functions become `%o` and travel after the format string.
- "Changed" arguments are bracketed with a `~` style. An optional trace
  comes last.
- There are three output modes:
  - terminal: ANSI codes inside the text;
  - browser: `%c` directives, each paired with one CSS string;
  - disabled styling: plain pieces with the arguments in between, used on
    consoles without styling when an object is logged.

`Markdown.Md` defines the result as a function. `Markdown.Format` is the
imperative procedure with the source's nested loops, proved equal to it.

**The registry.** Each component has two lists:
- the paths of its hooks;
- the marks of its instances.

A key is resolved by find-or-append and released by swapping in the last
element and shrinking. `Identity.Registry` holds both lists as maps that its
methods update.

**The hook.** `Lifecycle.Hook` holds the three refs of one hook: the message
callback, the previous values and the current values. Its methods are called
in React's order:
1. the render (`Render`, and `CallInner` for the tagged-template form);
2. the layout effect, which logs the render line, computes the change hints
   and runs the callback when something changed;
3. the mount effect, which logs the mounted line;
4. the unmount cleanup, which releases both keys and logs the unmounted line.

A logged message is the array that would be handed to `console.log`.

**The stack walk and production.** `CallerFrames` is the stack walk that
finds the hook's path and the path reported in the trace. `Production` is
the build that only passes values through.

Modules:
- `Values`: argument values, JSON quoting and integer printing with their
  round trips.
- `Markdown`: `md`, as a function and as a method.
- `MarkdownFacts`, `BrowserFacts`, `DisabledFacts`: properties of `md`
  per mode.
- `Identity`: the registry.
- `Lifecycle`: the hook.
- `LifecycleFacts`: the lines the hook logs.
- `CallerFrames`: the stack walk.
- `Production`: the pass-through build.

Behaviour of the source that is easy to miss:
- When lengths differ, the change hints come out empty (development.ts:381-383).
- Closing the `~` bracket emits an empty style. The source passes its
  `text-decoration: none` CSS as the *open* style and `''` as the close
  style (development.ts:206-210), and the bracket is open, so the close
  style is the one used.
- `styles[styles.length - 1] += value` on an empty style list writes to a
  property named `-1`, which never reaches the output. The model makes this
  step a no-op. It only happens when the caller's own text puts `%c` right
  before a marker or the `~` bracket, before any style was pushed.
- A `%` is never escaped: not in the caller's own text, not in a string
  argument, and not in the trace, a source path that may hold `%`-escapes.
  In a browser the console reads such a `%c` or `%o` as a directive. In
  `` `50%off **Sale**` `` the `%o` takes the bold CSS as its object. `md`
  over the single string `%c` logs just `"%c"`, a directive with no style
  (`BrowserFacts.PercentInText`). The pairing of directives and styles is
  therefore proved only when none of these holds a `%`.

## Model

| member | source | states |
|---|---|---|
| Markdown.Format | src/development.ts:26-235 | the nested segment/character loops, with `tokens`, `formatted`, `prev`, `result` and `styles` updated in place, return exactly `Md`: the message the formatter defines |
| Markdown.ScanSegment | src/development.ts:82-143 | the inner loop over one segment leaves the token set, the segment buffer and the styles that the scan function `ScanFrom` defines |
| Markdown.ScanChar | src/development.ts:86-142 | one turn of the inner loop (marker, toggle or literal copy, `j++` over double markers) is one `Step` |
| Markdown.ReadMarker | src/development.ts:89-127 | a marker is found exactly where `MarkerAt` finds one; `**` and `__` take two characters, the others one |
| Markdown.MarkerAt | src/development.ts:89-137 | a recognised marker covers one or two characters, all inside the segment |
| Markdown.Step | src/development.ts:86-142 | every turn of the inner loop advances `j` and never past the end of the segment |
| Markdown.SetStyles | src/development.ts:40-59 | an emission sets the token to open or closed and leaves every other token alone |
| Markdown.AppendLast | src/development.ts:48 | appending to the last result or style changes that element only |
| Markdown.EndSegment | src/development.ts:145-213 | the end-of-segment code computes `FinishSegment` |
| Markdown.EndPlain | src/development.ts:147-165 | without styling: one trailing and one leading space trimmed, empty pieces dropped, string arguments quoted, others passed raw (`FinishPlain`) |
| Markdown.EndStyled | src/development.ts:166-213 | with styling: the buffer, the argument text or `%o`, and the `~` bracket are appended to the single format string (`FinishStyled`) |
| Markdown.Md | src/development.ts:26-235 | `md`: the mode from the environment and the arguments, the outer loop from an empty token map, result and styles, then the trace and the styles (`Finish`); its properties per mode are the `MarkdownFacts`, `BrowserFacts` and `DisabledFacts` rows |
| Markdown.MarkerText | src/development.ts:77 | a marker copied literally contains no `%` |
| MarkdownFacts.ToggleRule | src/development.ts:65-79 | `process`: a marker closes iff its token is open and the next character is a boundary, opens iff it is closed and the previous one is, and otherwise is copied as its exact text with no state change; other tokens never change |
| MarkdownFacts.EmitForms | src/development.ts:45-55 | disabled styling emits nothing; a terminal appends the code to the text; a browser appends `%c` and pushes the style; when the buffer already ends in `%c` it appends the value to the last style (turned into its string first), every earlier style unchanged, and does nothing when there is no style yet |
| MarkdownFacts.SeparatorChars | src/development.ts:25 | a character is a separator exactly when it is `\s` whitespace or one of the characters the pattern lists |
| MarkdownFacts.BoundaryRule | src/development.ts:61-63 | the start or end of a segment is a boundary, a character is one exactly when it is a separator, the marker characters and `~` are, letters and digits are not |
| MarkdownFacts.DisableRule | src/development.ts:27-31 | the mode is browser or terminal as detected, and styling is disabled exactly on an unsupported console with some object or function among the arguments |
| MarkdownFacts.HasRichArgs | src/development.ts:29-31 | `args.some(...)` finds an object or function exactly when the collected object arguments are not empty |
| MarkdownFacts.BracketFlips | src/development.ts:168-176 | each `~` call flips the bracket and no other token; opening emits the style passed, closing the empty close style whatever was passed |
| MarkdownFacts.ArgForms | src/development.ts:186-201 | an argument shows as `%o` exactly when it is pushed after the format string, and only objects and functions are; a primitive shows as its JSON text, which reads back to a string argument; past the last argument nothing |
| MarkdownFacts.TraceForms | src/development.ts:216-234 | no trace: the result then the styles; styling disabled: ` (@ trace)` as its own piece; otherwise the trace extends the single format string (after `%c` with its own CSS in a browser, dimmed in a terminal) and the styles come last |
| MarkdownFacts.MarkerAtText | src/development.ts:89-137 | where a marker is recognised, the segment holds that marker's text, and `~` is never read from a segment |
| MarkdownFacts.MarkerOpens | src/development.ts:72-75 | a closed marker after a boundary emits its on-style and the scan goes on after it with `prev` a boundary |
| MarkdownFacts.MarkerCloses | src/development.ts:72-73 | an open marker before a boundary emits its off-style and the scan goes on after it |
| MarkdownFacts.MarkedSpan | src/development.ts:86-143 | for each of `**`, `*`, `__`, `_` and backtick: the marker's text after a boundary, text without markers and the same text before a boundary give the text between the two ANSI codes in a terminal, between two `%c` with the on and off CSS pushed in order in a browser, and the bare text with styling disabled; the tokens are as before |
| MarkdownFacts.PlainSegment | src/development.ts:86-143 | a segment without marker characters is copied unchanged |
| MarkdownFacts.PlainRun | src/development.ts:86-143 | a run of non-marker characters is copied as it stands and leaves `prev` at its last character |
| MarkdownFacts.ScanKeepsStyles | src/development.ts:45-55 | outside a browser, scanning never adds a style |
| MarkdownFacts.ScanKeepsTilde | src/development.ts:86-137 | the text of a segment never opens or closes the `~` bracket |
| MarkdownFacts.RichArgs | src/development.ts:186-193 | the trailing arguments are objects and functions taken from the arguments |
| MarkdownFacts.TerminalFinish | src/development.ts:166-213 | in a terminal a segment ends as one text of prior text, buffer and argument text, and the object argument is pushed after it |
| MarkdownFacts.TerminalSegments | src/development.ts:81-214 | in a terminal the loop yields one text, followed by exactly the object arguments in order |
| MarkdownFacts.TerminalShape | src/development.ts:166-232 | a terminal message is one string followed by the object arguments |
| MarkdownFacts.HintsInvisibleInTerminal | src/development.ts:168-176 | in a terminal and without styling, the change hints do not alter the output: the bracket's codes are empty |
| MarkdownFacts.PlainTerminalSegments | src/development.ts:81-214 | over segments without markers the loop builds the woven text of segments and argument texts |
| MarkdownFacts.TerminalPlain | src/development.ts:81-234 | segments without markers come out verbatim with each argument's JSON text or `%o` between them, then the trace, then the objects |
| MarkdownFacts.AnswerShape | src/development.ts:186-201 | `prefix${x}suffix` prints as prefix, the argument's text and suffix |
| MarkdownFacts.AnswerInt | src/development.ts:195-200 | an integer argument is inlined in decimal, unquoted |
| MarkdownFacts.AnswerNumber | test/basic.test.tsx:53-60 | `The answer is ${42}` prints `The answer is 42` |
| MarkdownFacts.AnswerString | test/basic.test.tsx:67-74 | `The answer is ${'42'}` prints `The answer is "42"` |
| MarkdownFacts.AnswerObject | test/basic.test.tsx:81-89 | `The answer is ${{...}}` prints `The answer is %o` with the object after it |
| MarkdownFacts.BacktickOpens | src/development.ts:127-136 | a backtick after a boundary opens code with its ANSI code, and `prev` becomes a boundary |
| MarkdownFacts.BacktickCloses | src/development.ts:127-136 | a backtick before a boundary closes open code with its ANSI code |
| MarkdownFacts.CodeSpan | src/development.ts:127-142 | `` `x` `` between boundaries prints the code-on codes, `x` and the code-off codes |
| MarkdownFacts.OpenAtEnd | src/development.ts:81-143 | a backtick that ends a segment leaves code open for the next segment |
| MarkdownFacts.CloseAtStart | src/development.ts:81-143 | a backtick that starts a segment closes code left open by an earlier one |
| MarkdownFacts.CodeAcrossSegments | src/development.ts:33 | token state survives across segments: `` a`${x}`c `` wraps the argument in the code style |
| BrowserFacts.DirectivesAppend | src/development.ts:47-51 | reading two halves finds the directives of each when no `%` is split between them |
| BrowserFacts.InvSetStyles | src/development.ts:46-52 | every emission keeps the format string's directives in step with the styles |
| BrowserFacts.InvScan | src/development.ts:86-143 | scanning a segment without `%` keeps the directives and the styles in step |
| BrowserFacts.InvFinish | src/development.ts:166-213 | the argument's `%o` or text and the `~` bracket keep directives and styles in step |
| BrowserFacts.InvSegments | src/development.ts:81-214 | the outer loop keeps one format string whose directives match the styles |
| BrowserFacts.BrowserDirectives | src/development.ts:221-232 | in a browser, when no segment, string argument or trace contains `%`, the message is one format string followed by one argument per directive: a CSS string for each `%c` and an object for each `%o`, in order |
| BrowserFacts.PercentInText | src/development.ts:86-143 | without that condition the pairing fails: the text `%c` logs a format string with one directive and no style |
| DisabledFacts.DroppedPlain | src/development.ts:86-143 | a segment without markers keeps all of its text |
| DisabledFacts.DisabledStep | src/development.ts:45-58 | without styling a step copies its characters or consumes a marker, and never emits a style |
| DisabledFacts.DisabledScan | src/development.ts:86-143 | without styling a segment's text is its own text with some markers removed |
| DisabledFacts.PlainFinish | src/development.ts:147-165 | one space is cut from the end exactly when an argument follows and the text ends in a space, then one from the start exactly when a segment came before and the rest starts with a space; the rest is pushed unless empty, then the argument, a string as its JSON text and anything else as it is |
| DisabledFacts.TrimCuts | src/development.ts:148-153 | the two slices remove the trailing space, then the leading one, each only under its own condition |
| DisabledFacts.PlainArgForms | src/development.ts:159-164 | a string argument is pushed as its JSON text, which reads back to the string, and any other argument as it is |
| DisabledFacts.DisabledSegments | src/development.ts:81-165 | the loop appends one piece per segment and no style |
| DisabledFacts.DisabledOutput | src/development.ts:216-218 | without styling the message is the pieces of the segments with markers removed, then ` (@ trace)` as its own element |
| DisabledFacts.DisabledExample | src/development.ts:148-153 | `a ${obj} b` gives `["a", obj, "b"]`: the spaces next to the argument are trimmed |
| Values.First | src/production.ts:4 | `args[0]`, or `undefined` when there are no arguments |
| Values.IntToString | src/development.ts:196 | the decimal text of an integer is non-empty and starts with a sign or a digit |
| Values.NatToStringRoundTrip | src/development.ts:196 | reading the digits back gives the number |
| Values.IntToStringRoundTrip | src/development.ts:196 | parsing the printed integer gives the integer back |
| Values.EscapeChar | src/development.ts:196 | an escaped character is non-empty and contains `%` only for `%` |
| Values.UnescapeChar | src/development.ts:196 | undoing one escape gives the character back |
| Values.UnescapeEscape | src/development.ts:196 | unescaping the escaped string gives the string back |
| Values.Quote | src/development.ts:161 | a JSON string starts and ends with `"` |
| Values.QuoteRoundTrip | src/development.ts:161 | unquoting the JSON string gives the string back |
| Values.EscapeOrdinary | src/development.ts:196 | text without quotes, backslashes or control characters is not escaped |
| Values.EscapeNoPercent | src/development.ts:196 | escaping adds no `%` |
| Values.Serialize | src/development.ts:195-200 | the inlined text of a primitive is never empty |
| Values.SerializeInjective | src/development.ts:195-200 | distinct primitives print differently; `42` and `"42"` in particular |
| Values.SerializeNoPercent | src/development.ts:195-200 | a primitive without `%` prints without `%` |
| Identity.IndexOf | src/development.ts:293 | `indexOf`: -1 exactly when absent, otherwise the first position of the key |
| Identity.Resolve | src/development.ts:292-297 | the key sits at the returned index and the old list is a prefix of the new one |
| Identity.SwapRemove | src/development.ts:336-340 | the list shrinks by one exactly when the key was present |
| Identity.ResolveFound | src/development.ts:293-294 | a present key keeps the list unchanged and returns its existing index |
| Identity.ResolveAppends | src/development.ts:294-297 | a new key is appended at index = old length |
| Identity.ResolveIdempotent | src/development.ts:292-297 | resolving the same key twice changes nothing the second time |
| Identity.ResolveKeepsIndices | src/development.ts:292-297 | resolving never moves a key already present |
| Identity.ResolveNoDup | src/development.ts:292-297 | resolving keeps the list free of duplicates |
| Identity.ReleaseAbsent | src/development.ts:337 | releasing an absent key does nothing |
| Identity.ReleaseContents | src/development.ts:336-340 | releasing removes exactly one copy of the key and nothing else |
| Identity.ReleasePositions | src/development.ts:338-339 | every other position is kept, except that the last element moves into the freed slot |
| Identity.ReleaseNoDup | src/development.ts:345-350 | releasing keeps the list duplicate-free and the key absent afterwards |
| Identity.ReleaseUndoesResolve | src/development.ts:313-340 | releasing a key that was just appended restores the old list |
| Identity.ReleasePromotes | src/development.ts:338 | releasing the first key moves the last one to index 0 |
| Identity.ComponentName | src/development.ts:299-304 | a named component shows as `` `<name/>` `` with the name inside |
| Identity.ComponentNameInjective | src/development.ts:299-304 | different names show differently, and only the empty name shows as `Component` |
| Identity.RegisterIdempotent | src/development.ts:289-297 | registering a path twice leaves the registry and the index as after once |
| Identity.RegisterKeepsPositions | src/development.ts:289-297 | registering a key moves no key of any component |
| Identity.FindOrAppend | src/development.ts:293-297 | the find-or-append loop computes `Resolve` |
| Identity.RemoveKey | src/development.ts:336-340 | the swap-with-last and `length--` computes `SwapRemove` |
| Identity.Registry.constructor | src/development.ts:245-246 | both maps start empty |
| Identity.Registry.Compute | src/development.ts:286-321 | the path is resolved; only hook 0 resolves the instance mark, and other hooks report instance 0 and leave the marks alone; no list gets a duplicate |
| Identity.Registry.Release | src/development.ts:331-350 | the mark and then the path are released by swap-remove; no list gets a duplicate |
| Lifecycle.Note | src/development.ts:328 | the note is empty exactly for instance 0 |
| Lifecycle.NoteInjective | src/development.ts:328 | different instances get different notes |
| Lifecycle.Separators | src/development.ts:403 | `n` values give `n + 1` segments |
| Lifecycle.Message | src/development.ts:401-421 | the callback logs one message, or none when a template has no strings |
| Lifecycle.Hints | src/development.ts:376-391 | hints name positions of the current values, and only when a previous list of the same length exists |
| Lifecycle.ChangeHints | src/development.ts:376-391 | with no previous list or different lengths, changed with no hints; otherwise a hint exactly where the values differ, and changed iff some hint is set |
| Lifecycle.SameValuesQuiet | src/development.ts:385-391 | the same values again are not a change |
| Lifecycle.OneChange | src/development.ts:385-391 | one differing value gives exactly that one hint |
| Lifecycle.Hook.constructor | src/development.ts:356-360 | no callback, no previous values, no current values |
| Lifecycle.Hook.Render | src/development.ts:356-414 | values passed directly are recorded with their callback and the first is returned; otherwise the tag function is returned with nothing registered |
| Lifecycle.Hook.CallInner | src/development.ts:414-427 | the tag function registers the template's callback and values and returns the first value |
| Lifecycle.Hook.LayoutEffect | src/development.ts:362-397 | hook 0 logs the render line; the callback runs with the hints only when the values changed; the values become the previous values |
| Lifecycle.Hook.MountEffect | src/development.ts:323-330 | hook 0 logs `<Name/> (N) mounted.` and keeps a cleanup; other hooks log nothing |
| Lifecycle.Hook.Unmount | src/development.ts:331-353 | the cleanup releases the mark and the path and logs `unmounted.` with the name and note from mount time |
| LifecycleFacts.NoteShape | src/development.ts:328 | a note holds no marker and no `%`, and starts with a space |
| LifecycleFacts.LifecycleTerminal | src/development.ts:330 | in a terminal a lifecycle line is the name in code style, the note and the verb |
| LifecycleFacts.AppMounted | test/basic.test.tsx:27-29 | `<App/>` mounts as `\x1B[96m\x1B[1m<App/>\x1B[39m\x1B[22m mounted.` |
| LifecycleFacts.RenderedTerminal | src/development.ts:366-373 | in a terminal the render line shows the name in code, then the props' text or `%o` in code, then the objects |
| LifecycleFacts.AppRendered | test/basic.test.tsx:23-26 | `<App/>` with object props logs the render line with `%o` in code style and the props after it |
| LifecycleFacts.LineModes | src/development.ts:366-373 | the mounted and unmounted lines are never unstyled; the render line is unstyled exactly on an unsupported console when the props are an object |
| LifecycleFacts.WovenSeparators | src/development.ts:403 | weaving the separators with the values gives the values joined by `, ` |
| LifecycleFacts.InlinedWoven | src/development.ts:403 | the whole weave is the joined values |
| LifecycleFacts.SeparatorsPlain | src/development.ts:403 | the separators contain no marker |
| LifecycleFacts.InlinedTerminal | src/development.ts:399-410 | in a terminal the values passed directly log as their texts joined by `, `, then the trace, then the objects |
| CallerFrames.Frames | src/development.ts:259-262 | one frame per stack line, as the frame parser reads it |
| CallerFrames.Cut | src/development.ts:270-276 | the walk never reads past the stack |
| CallerFrames.WalkStack | src/development.ts:258-277 | the loop returns the paths of the frames up to and including the first non-hook frame, each followed by `,`, and the last such frame whose name is not `useTilg…` |
| CallerFrames.WalkStep | src/development.ts:264-268 | each frame adds its path and a comma, and updates the log path when its name is not `useTilg…` |
| CallerFrames.CutAt | src/development.ts:270-276 | the walk stops right after the first frame whose name is neither `use…` nor `x.use…` |
| CallerFrames.NoStopCut | src/development.ts:259 | with no such frame the whole stack is read |
| CallerFrames.CutFirstStop | src/development.ts:270-276 | no frame before the last one read stops the walk, and an early stop ends on a stopping frame |
| CallerFrames.AfterStop | src/development.ts:275 | frames after the stop are never read |
| CallerFrames.StopLogs | src/development.ts:266-276 | when the walk stops, the log path is the stopping frame's path |
| CallerFrames.StopsLogs | src/development.ts:266-273 | a frame that stops the walk also sets the log path |
| CallerFrames.LogPathSeen | src/development.ts:266-268 | the log path is empty or the path of a frame that was read |
| CallerFrames.PathsAppend | src/development.ts:264 | the path over two runs of frames is the two paths in order |
| CallerFrames.PathsOne | src/development.ts:264 | one frame adds its path and a comma, or nothing without a path |
| CallerFrames.MethodHookSplit | src/development.ts:273 | `.use` with a character other than a line terminator on each side makes a method hook, wherever it sits |
| CallerFrames.ComponentFrame | src/development.ts:266-275 | a component's frame (`App`) stops the walk and its path may be printed |
| CallerFrames.HookFrame | src/development.ts:266-274 | a hook called by name (`useState`) does not stop the walk, and its path may be printed |
| CallerFrames.MethodHookFrame | src/development.ts:266-274 | a hook called as a method (`React.useState`) does not stop the walk, and its path may be printed |
| CallerFrames.OwnFrame | src/development.ts:266-274 | `useTilg`'s own frame, and a frame without a name, neither stop the walk nor are printed |
| Production.UseTilg | src/production.ts:1-3 | with arguments the first is returned unchanged; without them the inner function is returned |
| Production.Inner | src/production.ts:3-5 | the inner function returns its first value, or `undefined` with none |
| Production.SameAsDevelopment | src/production.ts:1-5 | the production build returns what the development hook returns |

## Left out

- The React plumbing: `useState`, `useEffect`, `useLayoutEffect`, `useRef`
  and when React calls what. The hook's handlers are plain methods called in
  React's order.
- The owner lookup through React's internals and `new Error().stack`. The
  component's id, name and props and the stack lines are inputs (`Context`,
  the `lines` of `WalkStack`).
- The regular expression that reads a stack line. The frame parser is a
  parameter of `CallerFrames.WalkStack`.
- Environment detection (`inIframe`, `window`, `location`,
  `IS_BROWSER`, `IS_UNSUPPORTED_CONSOLE`). These are the two booleans of
  `Markdown.Env`. The model takes them as independent, while in the source
  an unsupported console is always a browser (development.ts:16-19); every
  property of the model holds for all four combinations.
- Values.IntToString: prints every integer in plain decimal. `JSON.stringify`
  and `'' + n` switch to exponent form (`1e+21`) for magnitudes of 10^21 and
  more, and JavaScript numbers hold integers exactly only up to 2^53, so the
  model agrees with the source only for integers below 10^21 in magnitude
  that a number can hold.
- `console.log`. A method returns the messages it would log.
- `Math.random()` for instance marks. A mark is a number chosen by the
  caller.
- `WeakMap` garbage collection. Both registries are plain maps.
- Floating-point numbers and the exception path of `JSON.stringify`. Only
  integers are modelled, so the `'' + arg` fallback (development.ts:197-199)
  is never reached.
- Appending to an object style: `styles[styles.length - 1] += value`
  coerces an object to a string when the last style pushed is a `%o`
  argument. This happens when the text of the segment after an object ends
  its literal part in `%c` right before a closing marker or a `~` bracket:
  `` **a ${obj}%c** b `` makes the last style the object's text followed by
  the bold-off CSS. The model writes an object as `[object Object]`, as a
  plain object prints. A function's source text is not modelled, so it
  becomes the word `function`.
- `index.js`, which picks the development or production build from an
  environment variable.
- `test/utils.ts`, a console spy used only by the tests.
