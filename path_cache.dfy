/**
 * The frame cache of a path-data item as a pure decision: given the frame
 * the item remembers, the requested frame, whether its geometry is static
 * and what its shape's tracks report, must the path be regenerated?  Also
 * what a whole run of successive calls decides, each call starting from the
 * frame the previous one recorded.
 */
module PathCache {
  import opened ShapeChange

  /** The frame number remembered by an item that has never been evaluated. */
  const NoFrame := -1

  /** The decision `hasChanged(frameNo)` takes from the remembered frame `prev`. */
  function ShouldRecompute(prev: int, cur: int, staticPath: bool, s: PathShape): bool {
    if prev == NoFrame then true
    else if staticPath || prev == cur then false
    else HasChanged(s, prev, cur)
  }

  /** A first evaluation always regenerates, even for static geometry. */
  lemma FirstCallRecomputes(cur: int, staticPath: bool, s: PathShape)
    ensures ShouldRecompute(NoFrame, cur, staticPath, s)
  {
  }

  /** Once evaluated, a static item never regenerates, whatever the frame. */
  lemma StaticNeverRecomputesAgain(prev: int, cur: int, s: PathShape)
    requires prev != NoFrame
    ensures !ShouldRecompute(prev, cur, true, s)
  {
  }

  /** Asking again for the frame just evaluated is a no-op. */
  lemma SameFrameIsNoOp(f: int, staticPath: bool, s: PathShape)
    requires f != NoFrame
    ensures !ShouldRecompute(f, f, staticPath, s)
  {
  }

  /** For dynamic geometry and a genuinely new frame, the shape's tracks decide. */
  lemma DynamicFollowsTracks(prev: int, cur: int, s: PathShape)
    requires prev != NoFrame && prev != cur
    ensures ShouldRecompute(prev, cur, false, s) <==> SomeTrackChanged(Tracks(s), prev, cur)
  {
  }

  /** The results of successive calls for `frames`, starting from remembered frame `prev`. */
  function Replay(prev: int, frames: seq<int>, staticPath: bool, s: PathShape): (rs: seq<bool>)
    ensures |rs| == |frames|
    decreases |frames|
  {
    if frames == [] then []
    else [ShouldRecompute(prev, frames[0], staticPath, s)] + Replay(frames[0], frames[1..], staticPath, s)
  }

  /** The frame remembered when call `i` of a run starts. */
  function FrameBefore(prev: int, frames: seq<int>, i: nat): int
    requires i < |frames|
  {
    if i == 0 then prev else frames[i - 1]
  }

  /** The number of regenerations in a run. */
  function Regenerations(rs: seq<bool>): (n: nat)
    ensures n <= |rs|
  {
    if rs == [] then 0 else (if rs[0] then 1 else 0) + Regenerations(rs[1..])
  }

  /** Every call of a run decides from the frame the call before it recorded. */
  lemma {:induction false} ReplayAt(prev: int, frames: seq<int>, staticPath: bool, s: PathShape, i: nat)
    requires i < |frames|
    ensures Replay(prev, frames, staticPath, s)[i]
         == ShouldRecompute(FrameBefore(prev, frames, i), frames[i], staticPath, s)
    decreases i
  {
    if i > 0 {
      ReplayAt(frames[0], frames[1..], staticPath, s, i - 1);
    }
  }

  /**
   * In a run over real frame numbers a static item regenerates exactly on
   * the first call of a fresh item and never otherwise.
   */
  lemma StaticReplay(prev: int, frames: seq<int>, s: PathShape, i: nat)
    requires forall j :: 0 <= j < |frames| ==> frames[j] != NoFrame
    requires i < |frames|
    ensures Replay(prev, frames, true, s)[i] <==> i == 0 && prev == NoFrame
  {
    ReplayAt(prev, frames, true, s, i);
  }

  /** A static item regenerates at most once over any run of real frame numbers. */
  lemma {:induction false} StaticRegeneratesAtMostOnce(prev: int, frames: seq<int>, s: PathShape)
    requires forall j :: 0 <= j < |frames| ==> frames[j] != NoFrame
    ensures Regenerations(Replay(prev, frames, true, s)) == if prev == NoFrame && frames != [] then 1 else 0
    decreases |frames|
  {
    if frames != [] {
      var rs := Replay(prev, frames, true, s);
      assert rs[1..] == Replay(frames[0], frames[1..], true, s);
      StaticRegeneratesAtMostOnce(frames[0], frames[1..], s);
    }
  }

  /**
   * A dynamic item regenerates on call `i` exactly when it had never been
   * evaluated, or the frame differs from the previous one and one of the
   * shape's tracks changed between the two.
   */
  lemma DynamicReplay(prev: int, frames: seq<int>, s: PathShape, i: nat)
    requires i < |frames|
    ensures var p := FrameBefore(prev, frames, i);
      Replay(prev, frames, false, s)[i]
      <==> p == NoFrame || (p != frames[i] && SomeTrackChanged(Tracks(s), p, frames[i]))
  {
    ReplayAt(prev, frames, false, s, i);
  }

  /** A call that repeats the previous call's real frame never regenerates. */
  lemma RepeatedFrameIsNoOp(prev: int, frames: seq<int>, staticPath: bool, s: PathShape, i: nat)
    requires 0 < i < |frames| && frames[i] == frames[i - 1] && frames[i] != NoFrame
    ensures !Replay(prev, frames, staticPath, s)[i]
  {
    ReplayAt(prev, frames, staticPath, s, i);
  }

  /**
   * Asking for frame -1 makes the item forget it was evaluated: the next
   * call regenerates, even for static geometry and a repeated frame.
   */
  lemma MinusOneResetsCache(prev: int, f: int, staticPath: bool, s: PathShape)
    ensures Replay(prev, [NoFrame, f], staticPath, s)[1]
  {
  }
}
