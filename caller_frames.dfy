/**
  How a render finds out where it was called from: it walks the lines of a
  stack trace from the innermost call outwards, collecting the source path
  of every frame it passes, and stops at the first frame whose function is
  not a hook. The path of the last frame it passed that is not `useTilg`
  itself is the location printed after a message.

  Matching a line against the frame pattern is a parameter here: `parse`
  gives the function name and the source path of a line, or None when the
  line is not a frame.
 */
module CallerFrames {
  import opened Values

  /** The function name and source path of one stack line; an empty string
      is a part the line did not yield. */
  datatype Frame = Frame(name: string, path: string)

  predicate StartsWith(s: string, prefix: string) {
    |prefix| <= |s| && s[..|prefix|] == prefix
  }

  /** The characters JavaScript's `.` does not match. */
  predicate IsLineTerminator(c: char) {
    c == '\n' || c == '\r' || c == '\U{2028}' || c == '\U{2029}'
  }

  /** The pattern `.+\.use.+` found anywhere in `name`: a method called
      `use...` on some object, such as `React.useState`. */
  predicate MethodHook(name: string) {
    exists k :: 0 <= k < |name| && DotUseAt(name, k)
  }

  /** `.use` at position `k` of `name`, with a character `.` matches on either side. */
  predicate DotUseAt(name: string, k: int) {
    1 <= k && k + 4 < |name| && name[k..k + 4] == ".use"
    && !IsLineTerminator(name[k - 1]) && !IsLineTerminator(name[k + 4])
  }

  /** The frame of a function that is not a hook ends the walk. */
  predicate Stops(f: Frame) {
    f.name != "" && !StartsWith(f.name, "use") && !MethodHook(f.name)
  }

  /** A frame whose path may be printed after a message: any named frame
      except `useTilg`'s own. */
  predicate Logs(f: Frame) {
    f.name != "" && !StartsWith(f.name, "useTilg")
  }

  /** The frame a line yields; a line that is not a frame yields nothing. */
  function FrameOf(parse: string -> Option<(string, string)>, line: string): Frame {
    match parse(line)
    case None => Frame("", "")
    case Some(p) => Frame(p.0, p.1)
  }

  /** The frames of all the lines. */
  function Frames(parse: string -> Option<(string, string)>, lines: seq<string>): (frames: seq<Frame>)
    ensures |frames| == |lines|
    ensures forall k :: 0 <= k < |lines| ==> frames[k] == FrameOf(parse, lines[k])
  {
    seq(|lines|, k requires 0 <= k < |lines| => FrameOf(parse, lines[k]))
  }

  /** How many frames the walk looks at: up to and including the first one
      that stops it, or all of them. */
  function Cut(frames: seq<Frame>): (n: nat)
    ensures n <= |frames|
  {
    if frames == [] then 0
    else if Stops(frames[0]) then 1
    else 1 + Cut(frames[1..])
  }

  /** `path`: each frame's path followed by a comma, frames without a path skipped. */
  function Paths(fs: seq<Frame>): string {
    if fs == [] then ""
    else
      var f := fs[|fs| - 1];
      Paths(fs[..|fs| - 1]) + (if f.path != "" then f.path + "," else "")
  }

  /** `logPath`: the path of the last frame that may be printed, if any. */
  function LogPath(fs: seq<Frame>): string {
    if fs == [] then ""
    else if Logs(fs[|fs| - 1]) then fs[|fs| - 1].path
    else LogPath(fs[..|fs| - 1])
  }

  /** The loop over the stack lines. */
  method WalkStack(parse: string -> Option<(string, string)>, lines: seq<string>)
    returns (path: string, logPath: string)
    ensures var frames := Frames(parse, lines);
      var seen := frames[..Cut(frames)];
      path == Paths(seen) && logPath == LogPath(seen)
  {
    ghost var frames := Frames(parse, lines);
    path, logPath := "", "";
    var i := 0;
    while i < |lines|
      invariant 0 <= i <= |lines|
      invariant forall k :: 0 <= k < i ==> !Stops(frames[k])
      invariant path == Paths(frames[..i]) && logPath == LogPath(frames[..i])
    {
      var f := FrameOf(parse, lines[i]);
      assert f == frames[i];
      WalkStep(frames, i);
      if f.path != "" {
        path := path + (f.path + ",");
      }
      if Logs(f) {
        logPath := f.path;
      }
      if Stops(f) {
        CutAt(frames, i);
        return;
      }
      i := i + 1;
    }
    NoStopCut(frames);
    assert frames[..i] == frames;
  }

  /** What looking at frame `i` adds to the path and the location printed. */
  lemma WalkStep(frames: seq<Frame>, i: nat)
    requires i < |frames|
    ensures var f := frames[i];
      && Paths(frames[..i + 1]) == Paths(frames[..i]) + (if f.path != "" then f.path + "," else "")
      && LogPath(frames[..i + 1]) == if Logs(f) then f.path else LogPath(frames[..i])
  {
    assert frames[..i + 1][..i] == frames[..i];
  }

  /** The walk ends at frame `i` when it is the first that stops it. */
  lemma {:induction false} CutAt(frames: seq<Frame>, i: nat)
    requires i < |frames| && Stops(frames[i])
    requires forall k :: 0 <= k < i ==> !Stops(frames[k])
    ensures Cut(frames) == i + 1
  {
    if i > 0 {
      CutAt(frames[1..], i - 1);
    }
  }

  /** Without a frame that stops it the walk looks at every frame. */
  lemma {:induction false} NoStopCut(frames: seq<Frame>)
    requires forall k :: 0 <= k < |frames| ==> !Stops(frames[k])
    ensures Cut(frames) == |frames|
  {
    if frames != [] {
      NoStopCut(frames[1..]);
    }
  }

  /** The walk passes every frame before the first one that stops it, and
      that one is the last it looks at. */
  lemma {:induction false} CutFirstStop(frames: seq<Frame>)
    ensures forall k :: 0 <= k < Cut(frames) - 1 ==> !Stops(frames[k])
    ensures Cut(frames) < |frames| ==> Cut(frames) > 0 && Stops(frames[Cut(frames) - 1])
  {
    if frames != [] && !Stops(frames[0]) {
      CutFirstStop(frames[1..]);
    }
  }

  /** Frames beyond the one that stops the walk make no difference to it. */
  lemma {:induction false} AfterStop(frames: seq<Frame>, more: seq<Frame>, i: nat)
    requires i < |frames| && Stops(frames[i])
    ensures Cut(frames + more) == Cut(frames)
    ensures (frames + more)[..Cut(frames + more)] == frames[..Cut(frames)]
  {
    if !Stops(frames[0]) {
      assert (frames + more)[1..] == frames[1..] + more;
      AfterStop(frames[1..], more, i - 1);
    }
  }

  /** A frame that stops the walk is never `useTilg`'s own, so when the walk
      stops, the location printed is the path of the frame it stopped at. */
  lemma StopLogs(frames: seq<Frame>, i: nat)
    requires i < |frames| && Stops(frames[i])
    ensures Cut(frames) > 0 && LogPath(frames[..Cut(frames)]) == frames[Cut(frames) - 1].path
    ensures Stops(frames[Cut(frames) - 1])
  {
    StopAtCut(frames, i);
    var n := Cut(frames);
    StopsLogs(frames[n - 1]);
    LastLogs(frames[..n]);
  }

  /** When some frame stops the walk, the last frame it looks at is one. */
  lemma StopAtCut(frames: seq<Frame>, i: nat)
    requires i < |frames| && Stops(frames[i])
    ensures Cut(frames) > 0 && Stops(frames[Cut(frames) - 1])
  {
    CutFirstStop(frames);
    if Cut(frames) == |frames| {
      assert i == Cut(frames) - 1;
    }
  }

  /** A last frame that may be printed gives the location. */
  lemma LastLogs(fs: seq<Frame>)
    requires fs != [] && Logs(fs[|fs| - 1])
    ensures LogPath(fs) == fs[|fs| - 1].path
  {
  }

  /** The frame that stops the walk is not `useTilg`'s own. */
  lemma StopsLogs(f: Frame)
    requires Stops(f)
    ensures Logs(f)
  {
  }

  /** The location printed is empty or the path of a frame the walk looked at. */
  lemma {:induction false} LogPathSeen(fs: seq<Frame>)
    ensures LogPath(fs) == "" || exists k :: 0 <= k < |fs| && Logs(fs[k]) && fs[k].path == LogPath(fs)
  {
    if fs != [] && !Logs(fs[|fs| - 1]) {
      var init := fs[..|fs| - 1];
      LogPathSeen(init);
      if LogPath(init) != "" {
        var k :| 0 <= k < |init| && Logs(init[k]) && init[k].path == LogPath(init);
        assert fs[k] == init[k];
      }
    }
  }

  /** The path collected over two runs of frames is the two paths in order. */
  lemma {:induction false} PathsAppend(a: seq<Frame>, b: seq<Frame>)
    ensures Paths(a + b) == Paths(a) + Paths(b)
    decreases |b|
  {
    if b == [] {
      assert a + b == a;
    } else {
      var init := b[..|b| - 1];
      assert (a + b)[..|a + b| - 1] == a + init;
      assert (a + b)[|a + b| - 1] == b[|b| - 1];
      PathsAppend(a, init);
    }
  }

  /** One frame contributes its path and a comma, or nothing without a path. */
  lemma PathsOne(f: Frame)
    ensures Paths([f]) == if f.path != "" then f.path + "," else ""
  {
    assert [f][..0] == [];
  }

  /** `.use` with a character on each side that is not a line terminator
      makes a method hook, wherever it sits in the name. */
  lemma MethodHookSplit(a: string, c: string)
    requires |a| > 0 && |c| > 0 && !IsLineTerminator(a[|a| - 1]) && !IsLineTerminator(c[0])
    ensures MethodHook(a + ".use" + c)
  {
    var name := a + ".use" + c;
    assert name[|a|..|a| + 4] == ".use";
    assert DotUseAt(name, |a|);
  }

  /** A component's frame stops the walk and may be printed. */
  lemma ComponentFrame(p: string)
    ensures Stops(Frame("App", p)) && Logs(Frame("App", p))
  {
    NotPrefixAt("App", "use", 0);
  }

  /** A hook called by name (`useState`) does not stop the walk, and its
      path may be printed. */
  lemma HookFrame(p: string)
    ensures !Stops(Frame("useState", p)) && Logs(Frame("useState", p))
  {
    NotPrefixAt("useState", "useTilg", 3);
    assert "useState"[..3] == "use";
  }

  /** A hook called as a method (`React.useState`) does not stop the walk
      either, and its path may be printed. */
  lemma MethodHookFrame(p: string)
    ensures !Stops(Frame("React.useState", p)) && Logs(Frame("React.useState", p))
  {
    var name := "React.useState";
    NotPrefixAt(name, "useTilg", 0);
    assert name[5..9] == ".use";
    assert DotUseAt(name, 5);
  }

  /** `useTilg`'s own frame neither stops the walk nor is printed, and neither
      is a frame without a name, such as the one a line that is not a frame
      yields. */
  lemma OwnFrame(p: string)
    ensures !Stops(Frame("useTilg", p)) && !Logs(Frame("useTilg", p))
    ensures !Stops(Frame("", p)) && !Logs(Frame("", p))
  {
    assert "useTilg"[..3] == "use";
  }

  /** A name that differs from a prefix at some position does not start with it. */
  lemma NotPrefixAt(name: string, prefix: string, k: nat)
    requires k < |prefix| && k < |name| && name[k] != prefix[k]
    ensures !StartsWith(name, prefix)
  {
  }
}
