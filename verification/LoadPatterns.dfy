/** The load-pattern compiler of the runner (internal/runner/pattern_plan.go) and the
    second, independent compiler behind the live dashboard (internal/cli/run.go,
    internal/tui/runview/loadpattern.go).

    Durations are whole nanoseconds, rates are reals. Both compilers are proved against
    one reading of the pattern list, `ReadRate`, which knows nothing of offsets. */
module LoadPatterns {
  import opened Options

  /** The type label of a pattern: the three the runner knows, and every other string. */
  datatype PatternKind = Ramp | Step | Spike | OtherKind(name: string)

  datatype LoadStep = LoadStep(rps: int, duration: int)

  datatype LoadPattern = LoadPattern(
    kind: PatternKind, fromRPS: int, toRPS: int, duration: int, steps: seq<LoadStep>, rps: int)

  /** One stretch of the timeline, still without a start. */
  datatype Piece = Piece(duration: int, fromRate: real, toRate: real)

  datatype Segment = Segment(start: int, duration: int, fromRate: real, toRate: real) {
    predicate Covers(t: int) { start <= t < start + duration }
  }

  function Max(a: real, b: real): real { if a < b then b else a }

  // ---------------------------------------------------------------- the meaning of a list

  function StepPieces(steps: seq<LoadStep>): (pieces: seq<Piece>)
  {
    if steps == [] then []
    else
      var s := steps[|steps| - 1];
      StepPieces(steps[..|steps| - 1]) +
      if s.duration <= 0 then [] else [Piece(s.duration, s.rps as real, s.rps as real)]
  }

  function PatternPieces(p: LoadPattern): (pieces: seq<Piece>)
  {
    if p.kind == Step then StepPieces(p.steps)
    else if p.duration <= 0 then []
    else if p.kind == Ramp then [Piece(p.duration, p.fromRPS as real, p.toRPS as real)]
    else if p.kind == Spike then [Piece(p.duration, p.rps as real, p.rps as real)]
    else []
  }

  /** The stretches of a whole list, in order; stretches without a positive duration vanish. */
  function Pieces(patterns: seq<LoadPattern>): (pieces: seq<Piece>)
  {
    if patterns == [] then []
    else Pieces(patterns[..|patterns| - 1]) + PatternPieces(patterns[|patterns| - 1])
  }

  /** The rate `t` into a list of stretches: spend each stretch's duration in turn. */
  function ReadRate(pieces: seq<Piece>, t: int): (rate: Option<real>)
  {
    if pieces == [] then None
    else if t < pieces[0].duration then
      if pieces[0].duration <= 0 then None
      else Some(Interpolate(pieces[0].fromRate, pieces[0].toRate, t, pieces[0].duration))
    else ReadRate(pieces[1..], t - pieces[0].duration)
  }

  function Interpolate(from: real, to: real, t: int, duration: int): real
    requires duration > 0
  {
    from + (to - from) * (t as real / duration as real)
  }

  function Total(pieces: seq<Piece>): (total: int)
  {
    if pieces == [] then 0 else Total(pieces[..|pieces| - 1]) + pieces[|pieces| - 1].duration
  }

  function Peak(pieces: seq<Piece>): (peak: real)
  {
    if pieces == [] then 0.0
    else
      var last := pieces[|pieces| - 1];
      Max(Peak(pieces[..|pieces| - 1]), Max(last.fromRate, last.toRate))
  }

  /** The stretches laid end to end from 0. */
  function Layout(pieces: seq<Piece>): (segments: seq<Segment>)
    ensures |segments| == |pieces|
  {
    if pieces == [] then []
    else
      var front, last := pieces[..|pieces| - 1], pieces[|pieces| - 1];
      Layout(front) + [Segment(Total(front), last.duration, last.fromRate, last.toRate)]
  }

  // ---------------------------------------------------------------- the runner's compiler

  class PatternPlan {
    var segments: seq<Segment>
    var duration: int
    var maxRate: real

    constructor ()
      ensures segments == [] && duration == 0 && maxRate == 0.0
    {
      segments, duration, maxRate := [], 0, 0.0;
    }

    method AppendSegment(seg: Segment)
      modifies this`segments, this`maxRate
      ensures segments == old(segments) + [seg]
      ensures maxRate == Max(old(maxRate), Max(seg.fromRate, seg.toRate))
    {
      segments := segments + [seg];
      maxRate := Max(maxRate, Max(seg.fromRate, seg.toRate));
    }

    /** The step case of the compiler: one flat segment for every step that lasts. */
    method AppendSteps(steps: seq<LoadStep>, from: int, ghost done: seq<Piece>) returns (offset: int)
      requires Laid(segments, from, maxRate, done)
      modifies this`segments, this`maxRate
      ensures Laid(segments, offset, maxRate, done + StepPieces(steps))
    {
      offset := from;
      assert done + StepPieces(steps[..0]) == done;
      for j := 0 to |steps|
        invariant Laid(segments, offset, maxRate, done + StepPieces(steps[..j]))
      {
        var step := steps[j];
        StepPiecesSnoc(done, steps, j);
        if step.duration <= 0 {
          continue;
        }
        var seg := Segment(offset, step.duration, step.rps as real, step.rps as real);
        LaidSnoc(segments, offset, maxRate, done + StepPieces(steps[..j]), seg);
        AppendSegment(seg);
        offset := offset + step.duration;
      }
      assert steps[..|steps|] == steps;
    }

    /** Scan for the first segment that covers the elapsed time; negative times count as 0. */
    method RateAt(at: int) returns (rate: Option<real>)
      ensures rate == SegmentsRate(segments, at)
    {
      if |segments| == 0 {
        return None;
      }
      var elapsed := at;
      if elapsed < 0 {
        elapsed := 0;
      }
      for i := 0 to |segments|
        invariant SegmentsRate(segments, at) == FirstRate(segments[i..], elapsed)
      {
        var seg := segments[i];
        assert segments[i..][1..] == segments[i + 1..] && segments[i..][0] == seg;
        if elapsed < seg.start {
          continue;
        }
        var end := seg.start + seg.duration;
        if elapsed >= end {
          continue;
        }
        if seg.duration <= 0 {
          continue;
        }
        if seg.fromRate == seg.toRate {
          Flat(seg.fromRate, elapsed - seg.start, seg.duration);
          return Some(seg.fromRate);
        }
        Progress(elapsed - seg.start, elapsed - seg.start, seg.duration);
        var progress := (elapsed - seg.start) as real / seg.duration as real;
        if progress < 0.0 {
          progress := 0.0;
        } else if progress > 1.0 {
          progress := 1.0;
        }
        assert progress == (elapsed - seg.start) as real / seg.duration as real;
        assert SegmentRate(seg, elapsed) == seg.fromRate + (seg.toRate - seg.fromRate) * progress;
        return Some(seg.fromRate + (seg.toRate - seg.fromRate) * progress);
      }
      return None;
    }
  }

  lemma Flat(rate: real, t: int, duration: int)
    requires duration > 0
    ensures Interpolate(rate, rate, t, duration) == rate
  {
    assert (rate - rate) * (t as real / duration as real) == 0.0;
  }

  /** The rate inside a covering segment. */
  function SegmentRate(seg: Segment, t: int): real
    requires seg.Covers(t)
  {
    Interpolate(seg.fromRate, seg.toRate, t - seg.start, seg.duration)
  }

  function FirstRate(segments: seq<Segment>, t: int): (rate: Option<real>)
  {
    if segments == [] then None
    else if segments[0].Covers(t) then Some(SegmentRate(segments[0], t))
    else FirstRate(segments[1..], t)
  }

  function SegmentsRate(segments: seq<Segment>, t: int): (rate: Option<real>)
  {
    FirstRate(segments, if t < 0 then 0 else t)
  }

  /** The plan is absent exactly when no stretch has a positive duration; otherwise it is the
      list's stretches laid end to end from 0. */
  method CompilePatternPlan(patterns: seq<LoadPattern>) returns (plan: PatternPlan?)
    ensures plan == null <==> Pieces(patterns) == []
    ensures plan != null ==>
              && fresh(plan)
              && plan.segments == Layout(Pieces(patterns))
              && plan.duration == Total(Pieces(patterns))
              && plan.maxRate == Peak(Pieces(patterns))
  {
    if |patterns| == 0 {
      return null;
    }
    var p := new PatternPlan();
    var offset := 0;
    for i := 0 to |patterns|
      invariant fresh(p) && Laid(p.segments, offset, p.maxRate, Pieces(patterns[..i]))
    {
      var pattern := patterns[i];
      PiecesSnoc(patterns, i);
      if pattern.kind == Ramp {
        if pattern.duration <= 0 {
          continue;
        }
        var seg := Segment(offset, pattern.duration, pattern.fromRPS as real, pattern.toRPS as real);
        LaidNext(p.segments, offset, p.maxRate, patterns, i, seg);
        p.AppendSegment(seg);
        offset := offset + pattern.duration;
      } else if pattern.kind == Step {
        offset := p.AppendSteps(pattern.steps, offset, Pieces(patterns[..i]));
      } else if pattern.kind == Spike {
        if pattern.duration <= 0 {
          continue;
        }
        var seg := Segment(offset, pattern.duration, pattern.rps as real, pattern.rps as real);
        LaidNext(p.segments, offset, p.maxRate, patterns, i, seg);
        p.AppendSegment(seg);
        offset := offset + pattern.duration;
      }
    }
    assert patterns[..|patterns|] == patterns;
    if |p.segments| == 0 {
      return null;
    }
    p.duration := offset;
    plan := p;
  }

  /** What the compiler has built after the stretches `done`. */
  ghost predicate Laid(segments: seq<Segment>, offset: int, maxRate: real, done: seq<Piece>)
  {
    segments == Layout(done) && offset == Total(done) && maxRate == Peak(done)
  }

  function PieceOf(seg: Segment): Piece { Piece(seg.duration, seg.fromRate, seg.toRate) }

  lemma LaidSnoc(segments: seq<Segment>, offset: int, maxRate: real, done: seq<Piece>, next: Segment)
    requires Laid(segments, offset, maxRate, done) && next.start == offset
    ensures Laid(segments + [next], offset + next.duration,
                 Max(maxRate, Max(next.fromRate, next.toRate)), done + [PieceOf(next)])
  {
    assert (done + [PieceOf(next)])[..|done|] == done;
  }

  lemma PiecesSnoc(patterns: seq<LoadPattern>, i: nat)
    requires i < |patterns|
    ensures Pieces(patterns[..i + 1]) == Pieces(patterns[..i]) + PatternPieces(patterns[i])
    ensures PatternPieces(patterns[i]) == [] ==> Pieces(patterns[..i + 1]) == Pieces(patterns[..i])
    ensures i + 1 == |patterns| ==> patterns[..i + 1] == patterns
  {
    assert patterns[..i + 1][..i] == patterns[..i];
  }

  lemma LaidNext(
    segments: seq<Segment>, offset: int, maxRate: real, patterns: seq<LoadPattern>, i: nat, next: Segment)
    requires i < |patterns| && PatternPieces(patterns[i]) == [PieceOf(next)]
    requires Laid(segments, offset, maxRate, Pieces(patterns[..i])) && next.start == offset
    ensures Laid(segments + [next], offset + next.duration,
                 Max(maxRate, Max(next.fromRate, next.toRate)), Pieces(patterns[..i + 1]))
  {
    LaidSnoc(segments, offset, maxRate, Pieces(patterns[..i]), next);
    PiecesSnoc(patterns, i);
  }

  lemma StepPiecesSnoc(done: seq<Piece>, steps: seq<LoadStep>, j: nat)
    requires j < |steps|
    ensures var s := steps[j];
            done + StepPieces(steps[..j + 1]) ==
            if s.duration <= 0 then done + StepPieces(steps[..j])
            else done + StepPieces(steps[..j]) + [Piece(s.duration, s.rps as real, s.rps as real)]
    ensures j + 1 == |steps| ==> steps[..j + 1] == steps
  {
    assert steps[..j + 1][..j] == steps[..j];
  }

  // ---------------------------------------------------------------- what the plan means

  lemma {:induction false} StepPiecesPositive(steps: seq<LoadStep>)
    ensures forall p <- StepPieces(steps) :: p.duration > 0
  {
    if steps != [] { StepPiecesPositive(steps[..|steps| - 1]); }
  }

  lemma {:induction false} PiecesPositive(patterns: seq<LoadPattern>)
    ensures forall p <- Pieces(patterns) :: p.duration > 0
  {
    if patterns != [] {
      PiecesPositive(patterns[..|patterns| - 1]);
      StepPiecesPositive(patterns[|patterns| - 1].steps);
    }
  }

  lemma {:induction false} LayoutAt(pieces: seq<Piece>, i: nat)
    requires i < |pieces|
    ensures Layout(pieces)[i] ==
            Segment(Total(pieces[..i]), pieces[i].duration, pieces[i].fromRate, pieces[i].toRate)
  {
    var n := |pieces| - 1;
    if i < n {
      LayoutAt(pieces[..n], i);
      assert pieces[..n][..i] == pieces[..i];
    }
  }

  lemma TotalNext(pieces: seq<Piece>, i: nat)
    requires i < |pieces|
    ensures Total(pieces[..i + 1]) == Total(pieces[..i]) + pieces[i].duration
  {
    assert pieces[..i + 1][..i] == pieces[..i];
  }

  /** The compiled timeline starts at 0, has no gap or overlap, every segment lasts, and the
      segments end at the plan's duration. */
  lemma CompiledTimelineIsContiguous(patterns: seq<LoadPattern>)
    ensures var s := Layout(Pieces(patterns));
            && (forall i :: 0 <= i < |s| ==> s[i].duration > 0)
            && (s != [] ==> s[0].start == 0)
            && (forall i :: 0 <= i < |s| - 1 ==> s[i + 1].start == s[i].start + s[i].duration)
            && (s != [] ==> s[|s| - 1].start + s[|s| - 1].duration == Total(Pieces(patterns)))
  {
    var pieces := Pieces(patterns);
    var s := Layout(pieces);
    PiecesPositive(patterns);
    forall i | 0 <= i < |s|
      ensures s[i].duration == pieces[i].duration > 0 && s[i].start == Total(pieces[..i])
    {
      LayoutAt(pieces, i);
      assert pieces[i] in pieces;
    }
    forall i | 0 <= i < |s| - 1 ensures s[i + 1].start == s[i].start + s[i].duration { TotalNext(pieces, i); }
    if s != [] {
      TotalNext(pieces, |s| - 1);
      assert pieces[..|s|] == pieces;
    }
  }

  lemma {:induction false} Earlier(patterns: seq<LoadPattern>, i: nat, j: nat)
    requires i < j < |Pieces(patterns)|
    ensures var s := Layout(Pieces(patterns));
            s[i].duration > 0 && s[j].duration > 0 && s[i].start + s[i].duration <= s[j].start
    decreases j - i
  {
    CompiledTimelineIsContiguous(patterns);
    if i + 1 < j { Earlier(patterns, i + 1, j); }
  }

  lemma {:induction false} Covering(pieces: seq<Piece>, t: int) returns (i: nat)
    requires 0 <= t < Total(pieces)
    ensures i < |pieces| && Layout(pieces)[i].Covers(t)
  {
    var n := |pieces| - 1;
    if t < Total(pieces[..n]) {
      i := Covering(pieces[..n], t);
    } else {
      i := n;
    }
  }

  lemma {:induction false} FirstRateAt(s: seq<Segment>, t: int, i: nat)
    requires i < |s| && s[i].Covers(t)
    requires forall j :: 0 <= j < i ==> !s[j].Covers(t)
    ensures FirstRate(s, t) == Some(SegmentRate(s[i], t))
  {
    if i > 0 { FirstRateAt(s[1..], t, i - 1); }
  }

  lemma {:induction false} FirstRateNone(s: seq<Segment>, t: int)
    requires forall i :: 0 <= i < |s| ==> !s[i].Covers(t)
    ensures FirstRate(s, t) == None
  {
    if s != [] { FirstRateNone(s[1..], t); }
  }

  /** A rate exists exactly before the plan's end, and it is the rate of the one segment that
      covers the time. */
  lemma RateComesFromTheCoveringSegment(patterns: seq<LoadPattern>, t: int)
    requires t >= 0
    ensures var s := Layout(Pieces(patterns));
            && (SegmentsRate(s, t).Some? <==> t < Total(Pieces(patterns)))
            && (t < Total(Pieces(patterns)) <==> exists i :: 0 <= i < |s| && s[i].Covers(t))
            && (forall i :: 0 <= i < |s| && s[i].Covers(t) ==> SegmentsRate(s, t) == Some(SegmentRate(s[i], t)))
            && (forall i, j :: 0 <= i < j < |s| && s[i].Covers(t) ==> !s[j].Covers(t))
  {
    var s := Layout(Pieces(patterns));
    forall i, j | 0 <= i < j < |s| && s[i].Covers(t) ensures !s[j].Covers(t) { Earlier(patterns, i, j); }
    forall i | 0 <= i < |s| && s[i].Covers(t) ensures SegmentsRate(s, t) == Some(SegmentRate(s[i], t)) {
      FirstRateAt(s, t, i);
    }
    if t < Total(Pieces(patterns)) {
      var i := Covering(Pieces(patterns), t);
    } else {
      forall i | 0 <= i < |s| ensures !s[i].Covers(t) {
        CompiledTimelineIsContiguous(patterns);
        if i < |s| - 1 { Earlier(patterns, i, |s| - 1); }
      }
      FirstRateNone(s, t);
    }
  }

  lemma {:induction false} TotalCons(pieces: seq<Piece>)
    requires pieces != []
    ensures Total(pieces) == pieces[0].duration + Total(pieces[1..])
  {
    if |pieces| > 1 {
      TotalCons(pieces[..|pieces| - 1]);
      assert pieces[..|pieces| - 1][1..] == pieces[1..][..|pieces| - 2];
    }
  }

  lemma {:induction false} NonNegativeTotal(pieces: seq<Piece>)
    requires forall p <- pieces :: p.duration > 0
    ensures Total(pieces) >= 0
  {
    if pieces != [] { NonNegativeTotal(pieces[..|pieces| - 1]); }
  }

  lemma {:induction false} ReadRateAt(pieces: seq<Piece>, i: nat, t: int)
    requires forall p <- pieces :: p.duration > 0
    requires i < |pieces| && Total(pieces[..i]) <= t < Total(pieces[..i]) + pieces[i].duration
    ensures ReadRate(pieces, t) ==
            Some(Interpolate(pieces[i].fromRate, pieces[i].toRate, t - Total(pieces[..i]), pieces[i].duration))
  {
    if i > 0 {
      TotalCons(pieces[..i]);
      assert pieces[..i][1..] == pieces[1..][..i - 1];
      NonNegativeTotal(pieces[1..][..i - 1]);
      ReadRateAt(pieces[1..], i - 1, t - pieces[0].duration);
    }
  }

  lemma {:induction false} ReadRateEnds(pieces: seq<Piece>, t: int)
    requires forall p <- pieces :: p.duration > 0
    requires t >= Total(pieces)
    ensures ReadRate(pieces, t) == None
  {
    if pieces != [] {
      TotalCons(pieces);
      NonNegativeTotal(pieces[1..]);
      ReadRateEnds(pieces[1..], t - pieces[0].duration);
    }
  }

  /** Evaluating the compiled timeline is the same as reading the pattern list directly; before the start it
      is the reading at the start. */
  lemma RateIsTheListsReading(patterns: seq<LoadPattern>, t: int)
    ensures SegmentsRate(Layout(Pieces(patterns)), t) == ReadRate(Pieces(patterns), if t < 0 then 0 else t)
  {
    var pieces, u := Pieces(patterns), if t < 0 then 0 else t;
    PiecesPositive(patterns);
    RateComesFromTheCoveringSegment(patterns, u);
    if u < Total(pieces) {
      var i := Covering(pieces, u);
      LayoutAt(pieces, i);
      ReadRateAt(pieces, i, u);
    } else {
      ReadRateEnds(pieces, u);
    }
  }

  // ---------------------------------------------------------------- what one pattern asks for

  /** A ramp goes from its first rate, at the start, along a straight line towards its second, and then
      there is no rate any more. */
  lemma RampIsLinear(fromRPS: int, toRPS: int, duration: int, t: int)
    requires 0 <= t
    ensures var p := LoadPattern(Ramp, fromRPS, toRPS, duration, [], 0);
            && (duration <= 0 ==> Pieces([p]) == [])
            && (t < duration ==>
                  ReadRate(Pieces([p]), t)
                  == Some(fromRPS as real + (toRPS as real - fromRPS as real) * (t as real / duration as real)))
            && (duration > 0 ==> ReadRate(Pieces([p]), 0) == Some(fromRPS as real))
            && (t >= duration ==> ReadRate(Pieces([p]), t) == None)
  {
    var p := LoadPattern(Ramp, fromRPS, toRPS, duration, [], 0);
    assert [p][..0] == [];
  }

  /** A spike has its rate for as long as it lasts. */
  lemma SpikeIsFlat(p: LoadPattern, t: int)
    requires 0 <= t && p.kind == Spike
    ensures ReadRate(Pieces([p]), t) == if t < p.duration then Some(p.rps as real) else None
  {
    assert [p][..0] == [];
    if 0 < p.duration { Flat(p.rps as real, t, p.duration); }
  }

  function Spikes(steps: seq<LoadStep>): (spikes: seq<LoadPattern>)
    ensures |spikes| == |steps|
    ensures forall i :: 0 <= i < |steps| ==> spikes[i] == LoadPattern(Spike, 0, 0, steps[i].duration, [], steps[i].rps)
  {
    seq(|steps|, i requires 0 <= i < |steps| => LoadPattern(Spike, 0, 0, steps[i].duration, [], steps[i].rps))
  }

  /** The steps of a pattern are like spikes one after the other. */
  lemma {:induction false} StepsAreSpikes(steps: seq<LoadStep>)
    ensures StepPieces(steps) == Pieces(Spikes(steps))
  {
    if steps != [] {
      var n := |steps| - 1;
      StepsAreSpikes(steps[..n]);
      assert Spikes(steps)[..n] == Spikes(steps[..n]);
    }
  }

  /** Patterns follow one another: the second list begins where the first ends. */
  lemma PatternsFollowOneAnother(a: seq<LoadPattern>, b: seq<LoadPattern>, t: int)
    requires 0 <= t
    ensures ReadRate(Pieces(a + b), t)
         == if t < Total(Pieces(a)) then ReadRate(Pieces(a), t) else ReadRate(Pieces(b), t - Total(Pieces(a)))
  {
    PiecesJoin(a, b);
    PiecesPositive(a);
    ReadRateJoin(Pieces(a), Pieces(b), t);
  }

  lemma {:induction false} PiecesJoin(a: seq<LoadPattern>, b: seq<LoadPattern>)
    ensures Pieces(a + b) == Pieces(a) + Pieces(b)
  {
    if b == [] {
      assert a + b == a;
    } else {
      var front, last := b[..|b| - 1], b[|b| - 1];
      calc {
        Pieces(a + b);
        { assert a + b == (a + front) + [last]; PiecesOneMore(a + front, last); }
        Pieces(a + front) + PatternPieces(last);
        { PiecesJoin(a, front); }
        Pieces(a) + Pieces(front) + PatternPieces(last);
        { Regroup(Pieces(a), Pieces(front), PatternPieces(last)); }
        Pieces(a) + (Pieces(front) + PatternPieces(last));
        { assert front + [last] == b; PiecesOneMore(front, last); }
        Pieces(a) + Pieces(b);
      }
    }
  }

  lemma Regroup(a: seq<Piece>, b: seq<Piece>, c: seq<Piece>)
    ensures a + b + c == a + (b + c)
  {
  }

  lemma PiecesOneMore(patterns: seq<LoadPattern>, last: LoadPattern)
    ensures Pieces(patterns + [last]) == Pieces(patterns) + PatternPieces(last)
  {
    assert (patterns + [last])[..|patterns|] == patterns;
  }

  lemma {:induction false} ReadRateJoin(a: seq<Piece>, b: seq<Piece>, t: int)
    requires 0 <= t && forall p <- a :: p.duration > 0
    ensures ReadRate(a + b, t) == if t < Total(a) then ReadRate(a, t) else ReadRate(b, t - Total(a))
  {
    if a == [] {
      assert a + b == b;
    } else {
      TotalCons(a);
      NonNegativeTotal(a[1..]);
      assert (a + b)[1..] == a[1..] + b;
      if t >= a[0].duration { ReadRateJoin(a[1..], b, t - a[0].duration); }
    }
  }

  lemma Scaled(d: real, p: real, q: real)
    requires 0.0 <= p <= q <= 1.0
    ensures d >= 0.0 ==> 0.0 <= d * p <= d * q <= d
    ensures d <= 0.0 ==> d <= d * q <= d * p <= 0.0
  {
  }

  lemma Progress(t: int, u: int, duration: int)
    requires 0 <= t <= u < duration
    ensures 0.0 <= t as real / duration as real <= u as real / duration as real <= 1.0
  {
  }

  /** Along a segment the rate moves one way, from `fromRate` towards `toRate`. */
  lemma RampIsMonotone(seg: Segment, t: int, u: int)
    requires seg.Covers(t) && seg.Covers(u) && t <= u
    ensures seg.fromRate <= seg.toRate ==>
              seg.fromRate <= SegmentRate(seg, t) <= SegmentRate(seg, u) <= seg.toRate
    ensures seg.fromRate >= seg.toRate ==>
              seg.fromRate >= SegmentRate(seg, t) >= SegmentRate(seg, u) >= seg.toRate
  {
    InterpolatesOneWay(seg.fromRate, seg.toRate, t - seg.start, u - seg.start, seg.duration);
  }

  lemma InterpolatesOneWay(from: real, to: real, t: int, u: int, duration: int)
    requires 0 <= t <= u < duration
    ensures from <= to ==> from <= Interpolate(from, to, t, duration) <= Interpolate(from, to, u, duration) <= to
    ensures from >= to ==> from >= Interpolate(from, to, t, duration) >= Interpolate(from, to, u, duration) >= to
  {
    var d, p, q := to - from, t as real / duration as real, u as real / duration as real;
    Progress(t, u, duration);
    Scaled(d, p, q);
    Shifted(from, to, d * p, Interpolate(from, to, t, duration));
    Shifted(from, to, d * q, Interpolate(from, to, u, duration));
    assert d * p <= d * q ==> Interpolate(from, to, t, duration) <= Interpolate(from, to, u, duration);
    assert d * p >= d * q ==> Interpolate(from, to, t, duration) >= Interpolate(from, to, u, duration);
  }

  lemma Shifted(from: real, to: real, a: real, rate: real)
    requires rate == from + a
    ensures 0.0 <= a <= to - from ==> from <= rate <= to
    ensures to - from <= a <= 0.0 ==> from >= rate >= to
  {
  }

  /** The plan's maximum rate bounds every rate of the list, and is 0 or one of them. */
  lemma {:induction false} PeakIsTheMaximum(pieces: seq<Piece>)
    ensures Peak(pieces) >= 0.0
    ensures forall i :: 0 <= i < |pieces| ==> pieces[i].fromRate <= Peak(pieces) && pieces[i].toRate <= Peak(pieces)
    ensures Peak(pieces) == 0.0 ||
            exists i :: 0 <= i < |pieces| && (pieces[i].fromRate == Peak(pieces) || pieces[i].toRate == Peak(pieces))
  {
    if pieces != [] {
      var n := |pieces| - 1;
      PeakIsTheMaximum(pieces[..n]);
      assert forall i :: 0 <= i < n ==> pieces[..n][i] == pieces[i];
    }
  }

  /** No time sees more than the rate the limiter was sized for. */
  lemma RateNeverExceedsMaxRate(patterns: seq<LoadPattern>, t: int)
    ensures var rate := SegmentsRate(Layout(Pieces(patterns)), t);
            rate.Some? ==> rate.value <= Peak(Pieces(patterns))
  {
    var u := if t < 0 then 0 else t;
    var pieces, s := Pieces(patterns), Layout(Pieces(patterns));
    RateComesFromTheCoveringSegment(patterns, u);
    if SegmentsRate(s, t).Some? {
      var i :| 0 <= i < |s| && s[i].Covers(u);
      LayoutAt(pieces, i);
      RampIsMonotone(s[i], u, u);
      PeakIsTheMaximum(pieces);
    }
  }

  // ---------------------------------------------------------------- the dashboard's compiler

  datatype Label = FlatLabel(rps: int) | RampLabel(fromRPS: int, toRPS: int) | SpikeLabel(rps: int)

  datatype PatternStep = PatternStep(caption: Label, duration: int, start: int)

  /** `names` are the parts the dashboard joins into one name. */
  datatype DashboardPattern = DashboardPattern(names: seq<PatternKind>, total: int, steps: seq<PatternStep>)

  datatype Lap = Lap(caption: Label, duration: int)

  function StepLaps(steps: seq<LoadStep>): (laps: seq<Lap>)
  {
    if steps == [] then []
    else
      var s := steps[|steps| - 1];
      StepLaps(steps[..|steps| - 1]) + if s.duration <= 0 then [] else [Lap(FlatLabel(s.rps), s.duration)]
  }

  /** Unlike the runner, the dashboard also lays out every other kind of pattern. */
  function PatternLaps(p: LoadPattern): (laps: seq<Lap>)
  {
    if p.kind == Step then StepLaps(p.steps)
    else if p.duration <= 0 then []
    else if p.kind == Ramp then [Lap(RampLabel(p.fromRPS, p.toRPS), p.duration)]
    else if p.kind == Spike then [Lap(SpikeLabel(p.rps), p.duration)]
    else [Lap(FlatLabel(p.rps), p.duration)]
  }

  function Laps(patterns: seq<LoadPattern>): (laps: seq<Lap>)
  {
    if patterns == [] then [] else Laps(patterns[..|patterns| - 1]) + PatternLaps(patterns[|patterns| - 1])
  }

  function Names(patterns: seq<LoadPattern>): (names: seq<PatternKind>)
  {
    if patterns == [] then []
    else
      var p := patterns[|patterns| - 1];
      Names(patterns[..|patterns| - 1]) + if p.kind == Step || p.duration > 0 then [p.kind] else []
  }

  function LapTotal(laps: seq<Lap>): (total: int)
  {
    if laps == [] then 0 else LapTotal(laps[..|laps| - 1]) + laps[|laps| - 1].duration
  }

  function LapSteps(laps: seq<Lap>): (steps: seq<PatternStep>)
    ensures |steps| == |laps|
  {
    if laps == [] then []
    else
      var front, last := laps[..|laps| - 1], laps[|laps| - 1];
      LapSteps(front) + [PatternStep(last.caption, last.duration, LapTotal(front))]
  }

  method BuildLoadPattern(patterns: seq<LoadPattern>) returns (r: Option<DashboardPattern>)
    ensures r.None? <==> Laps(patterns) == []
    ensures r.Some? ==>
              r.value == DashboardPattern(Names(patterns), LapTotal(Laps(patterns)), LapSteps(Laps(patterns)))
  {
    if |patterns| == 0 {
      return None;
    }
    var steps: seq<PatternStep> := [];
    var names: seq<PatternKind> := [];
    var offset := 0;
    for i := 0 to |patterns|
      invariant Built(names, steps, offset, patterns[..i])
    {
      var p := patterns[i];
      BuiltNext(names, steps, offset, patterns, i);
      if p.kind == Step {
        names := names + [Step];
        steps, offset := LayOutSteps(p.steps, steps, offset, Laps(patterns[..i]));
      } else {
        if p.duration <= 0 {
          continue;
        }
        var caption;
        if p.kind == Ramp {
          caption := RampLabel(p.fromRPS, p.toRPS);
        } else if p.kind == Spike {
          caption := SpikeLabel(p.rps);
        } else {
          caption := FlatLabel(p.rps);
        }
        names := names + [p.kind];
        steps := steps + [PatternStep(caption, p.duration, offset)];
        offset := offset + p.duration;
      }
    }
    assert patterns[..|patterns|] == patterns;
    if |steps| == 0 {
      return None;
    }
    return Some(DashboardPattern(names, offset, steps));
  }

  /** What the dashboard's compiler has built after these patterns. */
  ghost predicate Built(names: seq<PatternKind>, steps: seq<PatternStep>, offset: int, done: seq<LoadPattern>)
  {
    names == Names(done) && LapsLaid(steps, offset, Laps(done))
  }

  lemma BuiltNext(
    names: seq<PatternKind>, steps: seq<PatternStep>, offset: int, patterns: seq<LoadPattern>, i: nat)
    requires i < |patterns| && Built(names, steps, offset, patterns[..i])
    ensures Names(patterns[..i + 1])
         == if patterns[i].kind == Step || patterns[i].duration > 0 then names + [patterns[i].kind] else names
    ensures Laps(patterns[..i + 1]) == Laps(patterns[..i]) + PatternLaps(patterns[i])
    ensures PatternLaps(patterns[i]) == [] ==> Laps(patterns[..i + 1]) == Laps(patterns[..i])
    ensures |PatternLaps(patterns[i])| == 1 && patterns[i].kind != Step ==>
              var lap := PatternLaps(patterns[i])[0];
              LapsLaid(steps + [PatternStep(lap.caption, lap.duration, offset)], offset + lap.duration,
                       Laps(patterns[..i + 1]))
  {
    assert patterns[..i + 1][..i] == patterns[..i];
    var laps := PatternLaps(patterns[i]);
    if |laps| == 1 { LapsLaidSnoc(steps, offset, Laps(patterns[..i]), laps[0]); }
  }

  /** The step case of the dashboard's compiler: one step of the strip for every step that lasts. */
  method LayOutSteps(loads: seq<LoadStep>, before: seq<PatternStep>, start: int, ghost done: seq<Lap>)
    returns (steps: seq<PatternStep>, offset: int)
    requires LapsLaid(before, start, done)
    ensures LapsLaid(steps, offset, done + StepLaps(loads))
  {
    steps, offset := before, start;
    ghost var laps := done;
    for j := 0 to |loads|
      invariant laps == done + StepLaps(loads[..j]) && LapsLaid(steps, offset, laps)
    {
      var s := loads[j];
      assert loads[..j + 1][..j] == loads[..j];
      if s.duration <= 0 {
        continue;
      }
      LapsLaidSnoc(steps, offset, laps, Lap(FlatLabel(s.rps), s.duration));
      steps := steps + [PatternStep(FlatLabel(s.rps), s.duration, offset)];
      laps := laps + [Lap(FlatLabel(s.rps), s.duration)];
      offset := offset + s.duration;
    }
    assert loads[..|loads|] == loads;
  }

  ghost predicate LapsLaid(steps: seq<PatternStep>, offset: int, laps: seq<Lap>)
  {
    steps == LapSteps(laps) && offset == LapTotal(laps)
  }

  lemma LapsLaidSnoc(steps: seq<PatternStep>, offset: int, laps: seq<Lap>, next: Lap)
    requires LapsLaid(steps, offset, laps)
    ensures LapsLaid(steps + [PatternStep(next.caption, next.duration, offset)], offset + next.duration, laps + [next])
  {
    assert (laps + [next])[..|laps|] == laps;
  }

  datatype Mark = Pending | Active | Done

  method MarkSteps(steps: seq<PatternStep>, elapsed: int) returns (parts: seq<Mark>)
    ensures |parts| == |steps|
    ensures forall i :: 0 <= i < |steps| ==> parts[i] == MarkOf(steps[i], elapsed)
  {
    parts := [];
    for i := 0 to |steps|
      invariant |parts| == i
      invariant forall j :: 0 <= j < i ==> parts[j] == MarkOf(steps[j], elapsed)
    {
      var s := steps[i];
      if elapsed >= s.start && elapsed < s.start + s.duration {
        parts := parts + [Active];
      } else if elapsed >= s.start + s.duration {
        parts := parts + [Done];
      } else {
        parts := parts + [Pending];
      }
    }
  }

  function MarkOf(s: PatternStep, elapsed: int): Mark
  {
    if elapsed >= s.start + s.duration then Done
    else if elapsed >= s.start then Active
    else Pending
  }

  // ---------------------------------------------------------------- the two compilers agree

  /** The two timelines have the same segments: same count, starts and durations, same end. */
  predicate SameTimeline(patterns: seq<LoadPattern>)
  {
    var s, d := Layout(Pieces(patterns)), LapSteps(Laps(patterns));
    && |s| == |d|
    && (forall i :: 0 <= i < |s| ==> s[i].start == d[i].start && s[i].duration == d[i].duration)
    && Total(Pieces(patterns)) == LapTotal(Laps(patterns))
  }

  /** The pattern kinds the runner has a case for, or that last no time at all. */
  predicate RunnerKnows(p: LoadPattern)
  {
    p.kind == Ramp || p.kind == Step || p.kind == Spike || p.duration <= 0
  }

  function Durations(pieces: seq<Piece>): (ds: seq<int>)
  {
    seq(|pieces|, i requires 0 <= i < |pieces| => pieces[i].duration)
  }

  function LapDurations(laps: seq<Lap>): (ds: seq<int>)
  {
    seq(|laps|, i requires 0 <= i < |laps| => laps[i].duration)
  }

  lemma {:induction false} StepDurationsAgree(steps: seq<LoadStep>)
    ensures Durations(StepPieces(steps)) == LapDurations(StepLaps(steps))
  {
    if steps != [] {
      var front, s := steps[..|steps| - 1], steps[|steps| - 1];
      StepDurationsAgree(front);
      var pieces := if s.duration <= 0 then [] else [Piece(s.duration, s.rps as real, s.rps as real)];
      var laps := if s.duration <= 0 then [] else [Lap(FlatLabel(s.rps), s.duration)];
      assert Durations(StepPieces(steps)) == Durations(StepPieces(front)) + Durations(pieces);
      assert LapDurations(StepLaps(steps)) == LapDurations(StepLaps(front)) + LapDurations(laps);
      assert Durations(pieces) == LapDurations(laps);
    }
  }

  lemma {:induction false} DurationsAgree(patterns: seq<LoadPattern>)
    requires forall p <- patterns :: RunnerKnows(p)
    ensures Durations(Pieces(patterns)) == LapDurations(Laps(patterns))
  {
    if patterns != [] {
      var p := patterns[|patterns| - 1];
      DurationsAgree(patterns[..|patterns| - 1]);
      assert Durations(PatternPieces(p)) == LapDurations(PatternLaps(p)) by {
        assert p in patterns;
        if p.kind == Step {
          StepDurationsAgree(p.steps);
        } else if p.duration > 0 {
          assert Durations(PatternPieces(p)) == [p.duration] == LapDurations(PatternLaps(p));
        }
      }
      assert Durations(Pieces(patterns)) ==
             Durations(Pieces(patterns[..|patterns| - 1])) + Durations(PatternPieces(p));
      assert LapDurations(Laps(patterns)) ==
             LapDurations(Laps(patterns[..|patterns| - 1])) + LapDurations(PatternLaps(p));
    }
  }

  lemma {:induction false} SameDurationsSameTimeline(pieces: seq<Piece>, laps: seq<Lap>)
    requires Durations(pieces) == LapDurations(laps)
    ensures Total(pieces) == LapTotal(laps)
    ensures var s, d := Layout(pieces), LapSteps(laps);
            |s| == |d| && forall i :: 0 <= i < |s| ==> s[i].start == d[i].start && s[i].duration == d[i].duration
  {
    assert |pieces| == |Durations(pieces)| == |LapDurations(laps)| == |laps|;
    if pieces != [] {
      var n := |pieces| - 1;
      assert Durations(pieces)[n] == LapDurations(laps)[n];
      assert Durations(pieces[..n]) == Durations(pieces)[..n] == LapDurations(laps)[..n] == LapDurations(laps[..n]);
      SameDurationsSameTimeline(pieces[..n], laps[..n]);
    }
  }

  lemma {:induction false} StepsCountAgree(steps: seq<LoadStep>)
    ensures |StepPieces(steps)| == |StepLaps(steps)|
  {
    if steps != [] { StepsCountAgree(steps[..|steps| - 1]); }
  }

  lemma {:induction false} DashboardLaysOutMore(patterns: seq<LoadPattern>)
    ensures |Pieces(patterns)| <= |Laps(patterns)|
    ensures (exists p <- patterns :: !RunnerKnows(p)) ==> |Pieces(patterns)| < |Laps(patterns)|
  {
    if patterns != [] {
      var front, p := patterns[..|patterns| - 1], patterns[|patterns| - 1];
      DashboardLaysOutMore(front);
      StepsCountAgree(p.steps);
      assert patterns == front + [p];
    }
  }

  /** The dashboard shows the runner's timeline exactly when every pattern is a ramp, step or
      spike, or has no duration. */
  lemma DashboardAgreesExactly(patterns: seq<LoadPattern>)
    ensures SameTimeline(patterns) <==> forall p <- patterns :: RunnerKnows(p)
  {
    if forall p <- patterns :: RunnerKnows(p) {
      DurationsAgree(patterns);
      SameDurationsSameTimeline(Pieces(patterns), Laps(patterns));
    } else {
      DashboardLaysOutMore(patterns);
    }
  }

  /** A caption of the dashboard tells the rates of a stretch. */
  predicate Tells(caption: Label, from: real, to: real)
  {
    match caption
    case RampLabel(fromRPS, toRPS) => from == fromRPS as real && to == toRPS as real
    case FlatLabel(rps) => from == to == rps as real
    case SpikeLabel(rps) => from == to == rps as real
  }

  predicate Told(pieces: seq<Piece>, laps: seq<Lap>)
  {
    |pieces| == |laps| && forall i :: 0 <= i < |laps| ==> Tells(laps[i].caption, pieces[i].fromRate, pieces[i].toRate)
  }

  lemma {:induction false} StepsAreTold(steps: seq<LoadStep>)
    ensures Told(StepPieces(steps), StepLaps(steps))
  {
    if steps != [] { StepsAreTold(steps[..|steps| - 1]); }
  }

  lemma {:induction false} PatternsAreTold(patterns: seq<LoadPattern>)
    requires forall p <- patterns :: RunnerKnows(p)
    ensures Told(Pieces(patterns), Laps(patterns))
  {
    if patterns != [] {
      var front, p := patterns[..|patterns| - 1], patterns[|patterns| - 1];
      assert p in patterns;
      PatternsAreTold(front);
      PatternIsTold(p);
      ToldTogether(Pieces(front), Laps(front), PatternPieces(p), PatternLaps(p));
    }
  }

  lemma PatternIsTold(p: LoadPattern)
    requires RunnerKnows(p)
    ensures Told(PatternPieces(p), PatternLaps(p))
  {
    StepsAreTold(p.steps);
  }

  lemma ToldTogether(pieces: seq<Piece>, laps: seq<Lap>, morePieces: seq<Piece>, moreLaps: seq<Lap>)
    requires Told(pieces, laps) && Told(morePieces, moreLaps)
    ensures Told(pieces + morePieces, laps + moreLaps)
  {
  }

  lemma {:induction false} StripAt(laps: seq<Lap>, i: nat)
    requires i < |laps|
    ensures LapSteps(laps)[i].caption == laps[i].caption
  {
    if i < |laps| - 1 { StripAt(laps[..|laps| - 1], i); }
  }

  /** Each step of the dashboard is captioned with the rates the runner starts and ends that segment with. */
  lemma CaptionsTellTheRates(patterns: seq<LoadPattern>, i: nat)
    requires (forall p <- patterns :: RunnerKnows(p)) && i < |Pieces(patterns)|
    ensures |LapSteps(Laps(patterns))| == |Pieces(patterns)|
    ensures var segment := Layout(Pieces(patterns))[i];
            Tells(LapSteps(Laps(patterns))[i].caption, segment.fromRate, segment.toRate)
  {
    PatternsAreTold(patterns);
    LayoutAt(Pieces(patterns), i);
    StripAt(Laps(patterns), i);
  }

  /** The dashboard's name is made of the kinds of pattern that last, and of every step pattern. */
  lemma {:induction false} NamesWhatLasts(patterns: seq<LoadPattern>, kind: PatternKind)
    ensures kind in Names(patterns) <==> exists p <- patterns :: p.kind == kind && (kind == Step || p.duration > 0)
  {
    if patterns != [] {
      var front := patterns[..|patterns| - 1];
      NamesWhatLasts(front, kind);
      assert patterns == front + [patterns[|patterns| - 1]];
    }
  }

  /** A constant pattern: the runner has no plan at all, the dashboard shows one step. */
  lemma ConstantPatternDisagrees()
    ensures var p := LoadPattern(OtherKind("constant"), 0, 0, 10, [], 5);
            Pieces([p]) == [] && Laps([p]) == [Lap(FlatLabel(5), 10)] && !SameTimeline([p])
  {
    var p := LoadPattern(OtherKind("constant"), 0, 0, 10, [], 5);
    assert [p][..0] == [];
    DashboardAgreesExactly([p]);
  }

  /** The step the dashboard highlights is the segment whose rate the runner applies; steps
      before it are ticked off, steps after it are pending. */
  lemma HighlightedStepIsTheRunnersSegment(patterns: seq<LoadPattern>, t: int, i: nat)
    requires forall p <- patterns :: RunnerKnows(p)
    requires 0 <= t && i < |Pieces(patterns)|
    ensures |LapSteps(Laps(patterns))| == |Pieces(patterns)|
    ensures var s, d := Layout(Pieces(patterns)), LapSteps(Laps(patterns));
            && (MarkOf(d[i], t) == Active <==> s[i].Covers(t))
            && (MarkOf(d[i], t) == Active ==>
                  && SegmentsRate(s, t) == Some(SegmentRate(s[i], t))
                  && (forall j :: 0 <= j < i ==> MarkOf(d[j], t) == Done)
                  && (forall j :: i < j < |d| ==> MarkOf(d[j], t) == Pending))
  {
    DashboardAgreesExactly(patterns);
    var s, d := Layout(Pieces(patterns)), LapSteps(Laps(patterns));
    assert d[i].start == s[i].start && d[i].duration == s[i].duration && s[i].duration > 0 by {
      CompiledTimelineIsContiguous(patterns);
    }
    if s[i].Covers(t) {
      assert SegmentsRate(s, t) == Some(SegmentRate(s[i], t)) by { RateComesFromTheCoveringSegment(patterns, t); }
      forall j | 0 <= j < i ensures MarkOf(d[j], t) == Done {
        Earlier(patterns, j, i);
        assert d[j].start == s[j].start && d[j].duration == s[j].duration;
      }
      forall j | i < j < |d| ensures MarkOf(d[j], t) == Pending {
        Earlier(patterns, i, j);
        assert d[j].start == s[j].start && d[j].duration == s[j].duration;
      }
    }
  }
}
