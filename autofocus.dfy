/**
 * The focus-recovery procedure of autoMontage.py (recursiveAutofocus).  At each depth
 * it probes at a shifted stage X, runs autofocus and, when the working distance jumps
 * by more than the threshold, restores the focus, recurses one level deeper and, once
 * the deeper call returns, moves the stage back to the X it entered with.
 *
 * The instrument is abstract: its state is the stage X and Y, the coarse focus, the
 * number of autofocus runs so far and a log of the commands that change that state.
 * What autofocus achieves is supplied by an oracle.
 */
module Autofocus {

  /** The state-changing commands the procedure issues, in issue order. */
  datatype Command =
    | MoveX(x: int)           // RunStageMove(X=x); Y is never given, so it stays
    | RunAfc                  // RunAutoAfc()
    | SetFocus(coarse: int)   // SetFocus(Coarse=coarse)

  /**
   * What the vendor interface does not show.  `afc(n)` is the coarse focus the `n`-th
   * autofocus run settles on; `wd(f)` is the working distance the instrument reports at
   * coarse focus `f`.
   */
  datatype Oracle = Oracle(afc: nat -> int, wd: int -> int)

  /** The instrument state the commands act on (Y is never changed). */
  datatype Stage = Stage(x: int, focus: int, runs: nat)

  /** The deepest `count` that still attempts autofocus: `count > 5` returns at once. */
  const MaxCount := 5

  function Abs(a: int): (r: nat)
    ensures r == a || r == -a
  {
    if a < 0 then -a else a
  }

  /**
   * The attempt of autofocus run number `run`, started at coarse focus `focus`, is
   * rejected: the working distance changes by more than the threshold.
   */
  predicate Fails(o: Oracle, threshold: int, focus: int, run: nat): (r: bool)
    ensures var jump := o.wd(o.afc(run)) - o.wd(focus);
      r <==> jump > threshold || jump < -threshold
  {
    Abs(o.wd(o.afc(run)) - o.wd(focus)) > threshold
  }

  /** The effect of one command on the instrument. */
  function Step(o: Oracle, s: Stage, c: Command): (r: Stage)
    ensures r.x == if c.MoveX? then c.x else s.x
    ensures r.focus == if c.RunAfc? then o.afc(s.runs) else if c.SetFocus? then c.coarse else s.focus
    ensures r.runs == if c.RunAfc? then s.runs + 1 else s.runs
  {
    match c
    case MoveX(nx) => s.(x := nx)
    case RunAfc => s.(focus := o.afc(s.runs), runs := s.runs + 1)
    case SetFocus(f) => s.(focus := f)
  }

  /** The effect of a command sequence, issued in order. */
  function Apply(o: Oracle, s: Stage, cmds: seq<Command>): Stage
    decreases |cmds|
  {
    if cmds == [] then s else Apply(o, Step(o, s, cmds[0]), cmds[1..])
  }

  lemma {:induction false} ApplyAppend(o: Oracle, s: Stage, a: seq<Command>, b: seq<Command>)
    ensures Apply(o, s, a + b) == Apply(o, Apply(o, s, a), b)
    decreases |a|
  {
    if a != [] {
      assert (a + b)[1..] == a[1..] + b;
      ApplyAppend(o, Step(o, s, a[0]), a[1..], b);
    } else {
      assert a + b == b;
    }
  }

  /** Replaying commands counts exactly the autofocus runs among them. */
  lemma {:induction false} ApplyRuns(o: Oracle, s: Stage, cmds: seq<Command>)
    ensures Apply(o, s, cmds).runs == s.runs + AfcRuns(cmds)
    decreases |cmds|
  {
    if cmds != [] {
      ApplyRuns(o, Step(o, s, cmds[0]), cmds[1..]);
    }
  }

  /**
   * The commands one call `recursiveAutofocus(tileWidth, focusThreshold, xStart, offset,
   * count)` issues, where `step` stands for `int(0.1 * tileWidth)` and the call starts
   * at coarse focus `focus` with `run` autofocus runs done before it.
   */
  function Trace(o: Oracle, step: int, threshold: int, focus: int, run: nat,
                 xStart: int, offset: int, count: int): (t: seq<Command>)
    ensures count > MaxCount ==> t == []
    ensures count <= MaxCount ==>
      var p := if offset > 0 then 1 else 0;
      |t| > p && (offset > 0 ==> t[0] == MoveX(xStart + offset)) && t[p] == RunAfc
    decreases if count > MaxCount then 0 else MaxCount + 1 - count
  {
    if count > MaxCount then []
    else
      var xNew := xStart + offset;
      ProbeMove(xNew, offset) + [RunAfc] +
      if Fails(o, threshold, focus, run) then
        [SetFocus(focus)] + Trace(o, step, threshold, focus, run + 1, xNew, step, count + 1) + [MoveX(xStart)]
      else []
  }

  /** The probe move of a frame: issued only when its offset is positive. */
  function ProbeMove(xNew: int, offset: int): seq<Command>
  {
    if offset > 0 then [MoveX(xNew)] else []
  }

  /** One frame of `Trace`, with its parts concatenated left to right. */
  lemma TraceFrame(o: Oracle, step: int, threshold: int, focus: int, run: nat,
                   xStart: int, offset: int, count: int)
    requires count <= MaxCount
    ensures var xNew := xStart + offset;
      Trace(o, step, threshold, focus, run, xStart, offset, count)
      == if Fails(o, threshold, focus, run) then
           ProbeMove(xNew, offset) + [RunAfc] + [SetFocus(focus)]
           + Trace(o, step, threshold, focus, run + 1, xNew, step, count + 1) + [MoveX(xStart)]
         else ProbeMove(xNew, offset) + [RunAfc]
  {
    var xNew := xStart + offset;
    var inner := Trace(o, step, threshold, focus, run + 1, xNew, step, count + 1);
    var p := ProbeMove(xNew, offset);
    assert p + [RunAfc] + ([SetFocus(focus)] + inner + [MoveX(xStart)])
        == p + [RunAfc] + [SetFocus(focus)] + inner + [MoveX(xStart)];
    assert p + [RunAfc] + [] == p + [RunAfc];
  }

  lemma ApplyOne(o: Oracle, s: Stage, c: Command)
    ensures Apply(o, s, [c]) == Step(o, s, c)
  {
    assert [c][1..] == [];
  }

  /** The probe (if any) and the autofocus run that open a frame. */
  lemma ApplyProbeAfc(o: Oracle, s: Stage, xNew: int, offset: int)
    ensures Apply(o, s, ProbeMove(xNew, offset) + [RunAfc])
         == Stage(if offset > 0 then xNew else s.x, o.afc(s.runs), s.runs + 1)
  {
    var p := ProbeMove(xNew, offset);
    if offset > 0 { ApplyOne(o, s, MoveX(xNew)); }
    ApplyAppend(o, s, p, [RunAfc]);
    ApplyOne(o, Apply(o, s, p), RunAfc);
  }

  /** The tail of a rejecting frame: restore the focus, recurse, move back. */
  lemma ApplyFailingFrame(o: Oracle, s: Stage, pre: seq<Command>, f: int, inner: seq<Command>, xs: int)
    ensures Apply(o, s, pre + [SetFocus(f)] + inner + [MoveX(xs)])
         == Apply(o, Apply(o, s, pre).(focus := f), inner).(x := xs)
  {
    ApplyAppend(o, s, pre, [SetFocus(f)]);
    ApplyOne(o, Apply(o, s, pre), SetFocus(f));
    ApplyAppend(o, s, pre + [SetFocus(f)], inner);
    ApplyAppend(o, s, pre + [SetFocus(f)] + inner, [MoveX(xs)]);
    ApplyOne(o, Apply(o, s, pre + [SetFocus(f)] + inner), MoveX(xs));
  }

  /** Proof hint: regrouping a four-part concatenation. */
  lemma Regroup<T>(a: seq<T>, b: seq<T>, c: seq<T>, d: seq<T>)
    ensures a + (b + c) + d == (a + b) + (c + d)
  {
  }

  /** Proof hint: associativity of concatenation, used to match `Trace`'s shape. */
  lemma ConcatAssoc<T>(a: seq<T>, b: seq<T>, c: seq<T>, d: seq<T>)
    ensures a + (b + c + d) == a + b + c + d
  {
  }

  /** The number of autofocus runs among some commands. */
  function AfcRuns(cmds: seq<Command>): nat
    decreases |cmds|
  {
    if cmds == [] then 0 else (if cmds[0] == RunAfc then 1 else 0) + AfcRuns(cmds[1..])
  }

  /** The X targets of the stage moves among some commands, in issue order. */
  function MoveTargets(cmds: seq<Command>): seq<int>
    decreases |cmds|
  {
    if cmds == [] then []
    else (if cmds[0].MoveX? then [cmds[0].x] else []) + MoveTargets(cmds[1..])
  }

  lemma {:induction false} CountsAppend(a: seq<Command>, b: seq<Command>)
    ensures AfcRuns(a + b) == AfcRuns(a) + AfcRuns(b)
    ensures MoveTargets(a + b) == MoveTargets(a) + MoveTargets(b)
    decreases |a|
  {
    if a != [] {
      assert (a + b)[1..] == a[1..] + b;
      CountsAppend(a[1..], b);
    } else {
      assert a + b == b;
    }
  }

  lemma CountsOne(c: Command)
    ensures AfcRuns([c]) == if c == RunAfc then 1 else 0
    ensures MoveTargets([c]) == if c.MoveX? then [c.x] else []
  {
    assert [c][1..] == [];
  }

  /** The autofocus runs and stage moves of one frame, around those of the frame below it. */
  lemma FrameCounts(xNew: int, offset: int, f: int, inner: seq<Command>, xs: int)
    ensures var p := ProbeMove(xNew, offset) + [RunAfc];
      AfcRuns(p) == 1 && MoveTargets(p) == (if offset > 0 then [xNew] else [])
    ensures var t := ProbeMove(xNew, offset) + [RunAfc] + [SetFocus(f)] + inner + [MoveX(xs)];
      AfcRuns(t) == 1 + AfcRuns(inner) &&
      MoveTargets(t) == (if offset > 0 then [xNew] else []) + MoveTargets(inner) + [xs]
  {
    var p := ProbeMove(xNew, offset);
    if offset > 0 { CountsOne(MoveX(xNew)); }
    CountsOne(RunAfc);
    CountsOne(SetFocus(f));
    CountsOne(MoveX(xs));
    CountsAppend(p, [RunAfc]);
    CountsAppend(p + [RunAfc], [SetFocus(f)]);
    CountsAppend(p + [RunAfc] + [SetFocus(f)], inner);
    CountsAppend(p + [RunAfc] + [SetFocus(f)] + inner, [MoveX(xs)]);
  }

  /** A rejecting frame runs autofocus once and moves around the frame below it. */
  lemma RejectedCounts(o: Oracle, step: int, threshold: int, focus: int, run: nat,
                       xStart: int, offset: int, count: int)
    requires count <= MaxCount && Fails(o, threshold, focus, run)
    ensures var xNew := xStart + offset;
      var t := Trace(o, step, threshold, focus, run, xStart, offset, count);
      var inner := Trace(o, step, threshold, focus, run + 1, xNew, step, count + 1);
      AfcRuns(t) == 1 + AfcRuns(inner) &&
      MoveTargets(t) == (if offset > 0 then [xNew] else []) + MoveTargets(inner) + [xStart]
  {
    var inner := Trace(o, step, threshold, focus, run + 1, xStart + offset, step, count + 1);
    TraceFrame(o, step, threshold, focus, run, xStart, offset, count);
    FrameCounts(xStart + offset, offset, focus, inner, xStart);
  }

  /** An accepting frame runs autofocus once and makes only its probe move. */
  lemma AcceptedCounts(o: Oracle, step: int, threshold: int, focus: int, run: nat,
                       xStart: int, offset: int, count: int)
    requires count <= MaxCount && !Fails(o, threshold, focus, run)
    ensures var t := Trace(o, step, threshold, focus, run, xStart, offset, count);
      AfcRuns(t) == 1 && MoveTargets(t) == (if offset > 0 then [xStart + offset] else [])
  {
    TraceFrame(o, step, threshold, focus, run, xStart, offset, count);
    FrameCounts(xStart + offset, offset, focus, [], xStart);
  }

  /**
   * How many frames, from depth `count` on, reject their autofocus in a row: every one of
   * them fails, there are at most `6 - count` of them, and unless the depth bound stops
   * the chain, the next attempt is accepted.
   */
  function Failures(o: Oracle, threshold: int, focus: int, run: nat, count: int): (k: nat)
    ensures k <= if count > MaxCount then 0 else MaxCount + 1 - count
    ensures forall j :: run <= j < run + k ==> Fails(o, threshold, focus, j)
    ensures count + k <= MaxCount ==> !Fails(o, threshold, focus, run + k)
    decreases if count > MaxCount then 0 else MaxCount + 1 - count
  {
    if count > MaxCount then 0
    else if Fails(o, threshold, focus, run) then 1 + Failures(o, threshold, focus, run + 1, count + 1)
    else 0
  }

  /** Frames that reach autofocus: the failing ones, plus the accepting one if there is one. */
  function Attempts(k: nat, count: int): nat
  {
    if count + k <= MaxCount then k + 1 else k
  }

  /**
   * Autofocus runs once per frame that gets past the depth check: never more than
   * `6 - count` times, so at most 6 times for the top-level call.
   */
  lemma {:induction false} AutofocusRuns(o: Oracle, step: int, threshold: int, focus: int, run: nat,
                                         xStart: int, offset: int, count: int)
    ensures var k := Failures(o, threshold, focus, run, count);
      AfcRuns(Trace(o, step, threshold, focus, run, xStart, offset, count)) == Attempts(k, count)
    ensures AfcRuns(Trace(o, step, threshold, focus, run, xStart, offset, count))
         <= if count > MaxCount then 0 else MaxCount + 1 - count
    decreases if count > MaxCount then 0 else MaxCount + 1 - count
  {
    if count <= MaxCount {
      if Fails(o, threshold, focus, run) {
        RejectedCounts(o, step, threshold, focus, run, xStart, offset, count);
        AutofocusRuns(o, step, threshold, focus, run + 1, xStart + offset, step, count + 1);
      } else {
        AcceptedCounts(o, step, threshold, focus, run, xStart, offset, count);
      }
    }
  }

  /**
   * A first attempt that is accepted: no probe move (the offset is not positive), one
   * autofocus run, no SetFocus and no restore move.
   */
  lemma FirstAttemptAccepted(o: Oracle, step: int, threshold: int, focus: int, run: nat,
                             xStart: int, offset: int, count: int)
    requires count <= MaxCount && offset <= 0 && !Fails(o, threshold, focus, run)
    ensures Trace(o, step, threshold, focus, run, xStart, offset, count) == [RunAfc]
  {
  }

  /** Every SetFocus restores the coarse focus the chain started with. */
  lemma {:induction false} FocusRestored(o: Oracle, step: int, threshold: int, focus: int, run: nat,
                                         xStart: int, offset: int, count: int)
    ensures var t := Trace(o, step, threshold, focus, run, xStart, offset, count);
      forall i :: 0 <= i < |t| && t[i].SetFocus? ==> t[i].coarse == focus
    decreases if count > MaxCount then 0 else MaxCount + 1 - count
  {
    if count <= MaxCount {
      TraceFrame(o, step, threshold, focus, run, xStart, offset, count);
      if Fails(o, threshold, focus, run) {
        FocusRestored(o, step, threshold, focus, run + 1, xStart + offset, step, count + 1);
      }
    }
  }

  /**
   * Where a chain started in state `s` leaves the instrument.  The stage ends at
   * `xStart` whenever the first attempt failed (every failing frame moves back to its own
   * entry X); otherwise at the probe X when the offset is positive and where it was when
   * it is not, and unchanged past the depth bound; the focus is the accepted autofocus result,
   * or the starting focus when every attempt failed (each failing frame restored it);
   * autofocus ran once per attempt.
   */
  function Outcome(o: Oracle, threshold: int, s: Stage, xStart: int, offset: int, count: int): Stage
  {
    var k := Failures(o, threshold, s.focus, s.runs, count);
    Stage(if count > MaxCount then s.x
          else if k > 0 then xStart
          else if offset > 0 then xStart + offset
          else s.x,
          if count + k > MaxCount then s.focus else o.afc(s.runs + k),
          s.runs + Attempts(k, count))
  }

  /** The commands of a chain take the instrument to its `Outcome`. */
  lemma {:induction false} FinalStage(o: Oracle, step: int, threshold: int, s: Stage,
                                      xStart: int, offset: int, count: int)
    ensures Apply(o, s, Trace(o, step, threshold, s.focus, s.runs, xStart, offset, count))
         == Outcome(o, threshold, s, xStart, offset, count)
    decreases if count > MaxCount then 0 else MaxCount + 1 - count, 1
  {
    if count <= MaxCount {
      if Fails(o, threshold, s.focus, s.runs) {
        FinalStageRejected(o, step, threshold, s, xStart, offset, count);
      } else {
        var xNew := xStart + offset;
        TraceFrame(o, step, threshold, s.focus, s.runs, xStart, offset, count);
        ApplyProbeAfc(o, s, xNew, offset);
      }
    }
  }

  lemma {:induction false} FinalStageRejected(o: Oracle, step: int, threshold: int, s: Stage,
                                              xStart: int, offset: int, count: int)
    requires count <= MaxCount && Fails(o, threshold, s.focus, s.runs)
    ensures Apply(o, s, Trace(o, step, threshold, s.focus, s.runs, xStart, offset, count))
         == Outcome(o, threshold, s, xStart, offset, count)
    decreases MaxCount + 1 - count, 0
  {
    var xNew := xStart + offset;
    var pre := ProbeMove(xNew, offset) + [RunAfc];
    TraceFrame(o, step, threshold, s.focus, s.runs, xStart, offset, count);
    ApplyProbeAfc(o, s, xNew, offset);
    var s3 := Apply(o, s, pre).(focus := s.focus);
    var inner := Trace(o, step, threshold, s3.focus, s3.runs, xNew, step, count + 1);
    ApplyFailingFrame(o, s, pre, s.focus, inner, xStart);
    FinalStage(o, step, threshold, s3, xNew, step, count + 1);
    OutcomeRejected(o, step, threshold, s, xStart, offset, count);
  }

  /** How a rejecting frame's `Outcome` follows from that of the frame below it. */
  lemma OutcomeRejected(o: Oracle, step: int, threshold: int, s: Stage, xStart: int, offset: int, count: int)
    requires count <= MaxCount && Fails(o, threshold, s.focus, s.runs)
    ensures var below := Stage(if offset > 0 then xStart + offset else s.x, s.focus, s.runs + 1);
      Outcome(o, threshold, below, xStart + offset, step, count + 1).(x := xStart)
      == Outcome(o, threshold, s, xStart, offset, count)
  {
  }

  /**
   * A top-level call (`offset = 0`, `count = 0`, entered at the current stage X) ends
   * where it started, whichever attempts fail.
   */
  lemma TopLevelEndsAtStart(o: Oracle, step: int, threshold: int, s: Stage)
    ensures Apply(o, s, Trace(o, step, threshold, s.focus, s.runs, s.x, 0, 0)).x == s.x
  {
    FinalStage(o, step, threshold, s, s.x, 0, 0);
  }

  /** The stage X at the entry of frame `j` of a chain (frame 0 enters at `xStart`). */
  function EntryX(xStart: int, offset: int, step: int, j: int): int
  {
    if j <= 0 then xStart else xStart + offset + (j - 1) * step
  }

  /**
   * The probe moves of the first `n` frames, in depth order: frame 0 probes at
   * `xStart + offset` when `offset > 0`; frame `j >= 1` probes at
   * `xStart + offset + j * step` when `step > 0`.
   */
  function ProbeTargets(xStart: int, offset: int, step: int, n: nat): seq<int>
  {
    (if offset > 0 && n > 0 then [xStart + offset] else []) +
    (if step > 0 && n > 1 then seq(n - 1, i => xStart + offset + (i + 1) * step) else [])
  }

  /** The restore moves of the first `k` frames: deepest frame first, each to its entry X. */
  function RestoreTargets(xStart: int, offset: int, step: int, k: nat): seq<int>
  {
    seq(k, i => EntryX(xStart, offset, step, k - 1 - i))
  }

  lemma ProbeShift(xStart: int, offset: int, step: int, n: nat)
    ensures ProbeTargets(xStart + offset, step, step, n)
         == if step > 0 && n > 0 then seq(n, i => xStart + offset + (i + 1) * step) else []
  {
    if step > 0 && n > 0 {
      var a := ProbeTargets(xStart + offset, step, step, n);
      var b := seq(n, i => xStart + offset + (i + 1) * step);
      assert |a| == |b|;
      forall i | 0 <= i < n ensures a[i] == b[i] {
        if i > 0 {
          assert a[i] == xStart + offset + step + i * step;
          assert (i + 1) * step == i * step + step;
        }
      }
    }
  }

  lemma RestoreShift(xStart: int, offset: int, step: int, k: nat)
    requires k > 0
    ensures RestoreTargets(xStart, offset, step, k)
         == RestoreTargets(xStart + offset, step, step, k - 1) + [xStart]
  {
    var a := RestoreTargets(xStart, offset, step, k);
    var inner := RestoreTargets(xStart + offset, step, step, k - 1);
    var b := inner + [xStart];
    assert |a| == |b|;
    forall i | 0 <= i < k ensures a[i] == b[i] {
      assert a[i] == EntryX(xStart, offset, step, k - 1 - i);
      if i < k - 1 {
        var j: nat := k - 2 - i;
        assert b[i] == inner[i] == EntryX(xStart + offset, step, step, j);
        assert a[i] == xStart + offset + j * step;
        if j > 0 {
          assert j * step == step + (j - 1) * step;
        }
      }
    }
  }

  /** The moves of a rejecting frame around those of the frame below it. */
  lemma ChainMoves(xStart: int, offset: int, step: int, k': nat, n': nat, below: seq<int>, whole: seq<int>)
    requires below == ProbeTargets(xStart + offset, step, step, n') + RestoreTargets(xStart + offset, step, step, k')
    requires whole == (if offset > 0 then [xStart + offset] else []) + below + [xStart]
    ensures whole == ProbeTargets(xStart, offset, step, n' + 1) + RestoreTargets(xStart, offset, step, k' + 1)
  {
    var p0 := if offset > 0 then [xStart + offset] else [];
    var probesIn := ProbeTargets(xStart + offset, step, step, n');
    var restoresIn := RestoreTargets(xStart + offset, step, step, k');
    assert ProbeTargets(xStart, offset, step, n' + 1) == p0 + probesIn by {
      ProbeShift(xStart, offset, step, n');
    }
    assert RestoreTargets(xStart, offset, step, k' + 1) == restoresIn + [xStart] by {
      RestoreShift(xStart, offset, step, k' + 1);
    }
    Regroup(p0, probesIn, restoresIn, [xStart]);
  }

  /**
   * The stage moves of a chain of `n` attempts of which the first `k` are rejected,
   * frame by frame: the probe move of the frame, then, when it rejects, the moves of the
   * frame below it and the move back to its own entry X.
   */
  function ChainTargets(xStart: int, offset: int, step: int, k: nat, n: nat): seq<int>
    decreases n
  {
    var probe := if offset > 0 then [xStart + offset] else [];
    if n == 0 then []
    else if k == 0 then probe
    else probe + ChainTargets(xStart + offset, step, step, k - 1, n - 1) + [xStart]
  }

  /** A chain's moves in closed form: all probe moves outward, then all restore moves inward. */
  lemma {:induction false} ChainClosedForm(xStart: int, offset: int, step: int, k: nat, n: nat)
    requires k <= n <= k + 1
    ensures ChainTargets(xStart, offset, step, k, n)
         == ProbeTargets(xStart, offset, step, n) + RestoreTargets(xStart, offset, step, k)
    decreases n
  {
    if n > 0 {
      var p0: seq<int> := if offset > 0 then [xStart + offset] else [];
      if k > 0 {
        ChainClosedForm(xStart + offset, step, step, k - 1, n - 1);
        ChainMoves(xStart, offset, step, k - 1, n - 1,
                   ChainTargets(xStart + offset, step, step, k - 1, n - 1),
                   ChainTargets(xStart, offset, step, k, n));
      } else {
        assert ProbeTargets(xStart, offset, step, n) == p0;
        assert RestoreTargets(xStart, offset, step, k) == [];
      }
    } else {
      assert RestoreTargets(xStart, offset, step, k) == [];
    }
  }

  /** The stage moves of a call follow its chain of rejected and accepted attempts. */
  lemma {:induction false} MovesFollowChain(o: Oracle, step: int, threshold: int, focus: int, run: nat,
                                            xStart: int, offset: int, count: int)
    ensures var k := Failures(o, threshold, focus, run, count);
      MoveTargets(Trace(o, step, threshold, focus, run, xStart, offset, count))
      == ChainTargets(xStart, offset, step, k, Attempts(k, count))
    decreases if count > MaxCount then 0 else MaxCount + 1 - count, 1
  {
    if count <= MaxCount {
      if Fails(o, threshold, focus, run) {
        RejectedCounts(o, step, threshold, focus, run, xStart, offset, count);
        RejectedFollowsChain(o, step, threshold, focus, run, xStart, offset, count,
                             MoveTargets(Trace(o, step, threshold, focus, run, xStart, offset, count)));
      } else {
        AcceptedCounts(o, step, threshold, focus, run, xStart, offset, count);
      }
    }
  }

  /** The moves of a rejecting frame follow the chain, given those of the frame below it. */
  lemma {:induction false} RejectedFollowsChain(o: Oracle, step: int, threshold: int, focus: int, run: nat,
                                                xStart: int, offset: int, count: int, whole: seq<int>)
    requires count <= MaxCount
    requires whole == (if offset > 0 then [xStart + offset] else [])
                      + MoveTargets(Trace(o, step, threshold, focus, run + 1, xStart + offset, step, count + 1))
                      + [xStart]
    ensures var k' := Failures(o, threshold, focus, run + 1, count + 1);
      whole == ChainTargets(xStart, offset, step, k' + 1, Attempts(k', count + 1) + 1)
    decreases MaxCount + 1 - count, 0
  {
    var xNew := xStart + offset;
    var k' := Failures(o, threshold, focus, run + 1, count + 1);
    MovesFollowChain(o, step, threshold, focus, run + 1, xNew, step, count + 1);
    ChainStep(xStart, offset, step, k', Attempts(k', count + 1),
              MoveTargets(Trace(o, step, threshold, focus, run + 1, xNew, step, count + 1)), whole);
  }

  /** A rejecting frame adds its probe move and its move back around the chain below it. */
  lemma ChainStep(xStart: int, offset: int, step: int, k': nat, n': nat, below: seq<int>, whole: seq<int>)
    requires below == ChainTargets(xStart + offset, step, step, k', n')
    requires whole == (if offset > 0 then [xStart + offset] else []) + below + [xStart]
    ensures whole == ChainTargets(xStart, offset, step, k' + 1, n' + 1)
  {
  }

  /**
   * The rollback order: the stage moves of a chain are first the probe moves, outward
   * in depth order, then the restore moves, inward in LIFO order, each failing frame
   * returning to its own entry X.
   */
  lemma MoveOrder(o: Oracle, step: int, threshold: int, focus: int, run: nat,
                  xStart: int, offset: int, count: int)
    ensures var k := Failures(o, threshold, focus, run, count);
      MoveTargets(Trace(o, step, threshold, focus, run, xStart, offset, count))
      == ProbeTargets(xStart, offset, step, Attempts(k, count)) + RestoreTargets(xStart, offset, step, k)
  {
    var k := Failures(o, threshold, focus, run, count);
    MovesFollowChain(o, step, threshold, focus, run, xStart, offset, count);
    ChainClosedForm(xStart, offset, step, k, Attempts(k, count));
  }

  /**
   * A top-level call (offset 0, count 0) whose every autofocus attempt is rejected:
   * six autofocus runs; probe moves at `xStart + d * step` for depths 1 to 5 when the
   * step is positive and none otherwise; then six restore moves, to `xStart + 4 * step`
   * down to `xStart` and a last one to `xStart`; the stage ends at `xStart` with the
   * starting focus.
   */
  lemma AllAttemptsRejected(o: Oracle, step: int, threshold: int, s: Stage, xStart: int)
    requires forall j :: s.runs <= j < s.runs + 6 ==> Fails(o, threshold, s.focus, j)
    ensures var t := Trace(o, step, threshold, s.focus, s.runs, xStart, 0, 0);
      AfcRuns(t) == 6 &&
      MoveTargets(t) == (if step > 0 then seq(5, d => xStart + (d + 1) * step) else []) +
                        seq(6, i => if i == 5 then xStart else xStart + (4 - i) * step) &&
      Apply(o, s, t) == Stage(xStart, s.focus, s.runs + 6)
  {
    var t := Trace(o, step, threshold, s.focus, s.runs, xStart, 0, 0);
    var k := Failures(o, threshold, s.focus, s.runs, 0);
    assert k == 6;
    assert AfcRuns(t) == 6 by {
      AutofocusRuns(o, step, threshold, s.focus, s.runs, xStart, 0, 0);
    }
    assert MoveTargets(t) == ProbeTargets(xStart, 0, step, 6) + RestoreTargets(xStart, 0, step, 6) by {
      MoveOrder(o, step, threshold, s.focus, s.runs, xStart, 0, 0);
    }
    TopLevelTargets(xStart, step);
    assert Apply(o, s, t) == Stage(xStart, s.focus, s.runs + 6) by {
      FinalStage(o, step, threshold, s, xStart, 0, 0);
    }
  }

  /** The probe and restore moves of a six-frame chain entered with offset 0. */
  lemma TopLevelTargets(xStart: int, step: int)
    ensures ProbeTargets(xStart, 0, step, 6) == if step > 0 then seq(5, d => xStart + (d + 1) * step) else []
    ensures RestoreTargets(xStart, 0, step, 6) == seq(6, i => if i == 5 then xStart else xStart + (4 - i) * step)
  {
    var r := RestoreTargets(xStart, 0, step, 6);
    forall i | 0 <= i < 6
      ensures r[i] == if i == 5 then xStart else xStart + (4 - i) * step
    {
      assert r[i] == EntryX(xStart, 0, step, 5 - i);
    }
  }

  /** The log and state a rejecting frame leaves, written as the method builds them. */
  lemma RejectedFrame(o: Oracle, step: int, threshold: int, s: Stage, xStart: int, offset: int,
                      count: int, log0: seq<Command>, inner: seq<Command>)
    requires count <= MaxCount && Fails(o, threshold, s.focus, s.runs)
    requires inner == Trace(o, step, threshold, s.focus, s.runs + 1, xStart + offset, step, count + 1)
    ensures var pre := ProbeMove(xStart + offset, offset) + [RunAfc];
      var t := Trace(o, step, threshold, s.focus, s.runs, xStart, offset, count);
      log0 + pre + [SetFocus(s.focus)] + inner + [MoveX(xStart)] == log0 + t &&
      Apply(o, Apply(o, s, pre).(focus := s.focus), inner).(x := xStart) == Apply(o, s, t)
  {
    var pre := ProbeMove(xStart + offset, offset) + [RunAfc];
    TraceFrame(o, step, threshold, s.focus, s.runs, xStart, offset, count);
    ConcatAssoc(log0, pre, [SetFocus(s.focus)], inner);
    ConcatAssoc(log0, pre + [SetFocus(s.focus)], inner, [MoveX(xStart)]);
    ApplyFailingFrame(o, s, pre, s.focus, inner, xStart);
  }

  /** The log and state an accepting frame leaves. */
  lemma AcceptedFrame(o: Oracle, step: int, threshold: int, s: Stage, xStart: int, offset: int,
                      count: int, log0: seq<Command>)
    requires count <= MaxCount && !Fails(o, threshold, s.focus, s.runs)
    ensures var pre := ProbeMove(xStart + offset, offset) + [RunAfc];
      Trace(o, step, threshold, s.focus, s.runs, xStart, offset, count) == pre
  {
    TraceFrame(o, step, threshold, s.focus, s.runs, xStart, offset, count);
  }

  /**
   * The instrument.  The fields are what the commands change; `log` records every
   * state-changing command in issue order.
   */
  class Microscope {
    var x: int
    var y: int
    var focus: int
    var runs: nat
    var log: seq<Command>
    const oracle: Oracle

    function State(): Stage
      reads this
    {
      Stage(x, focus, runs)
    }

    constructor (x0: int, y0: int, focus0: int, o: Oracle)
      ensures x == x0 && y == y0 && focus == focus0 && runs == 0 && log == [] && oracle == o
    {
      x, y, focus, runs, log, oracle := x0, y0, focus0, 0, [], o;
    }

    /** RunStageMove(X=nx): moves the stage in X only. */
    method RunStageMoveX(nx: int)
      modifies this
      ensures x == nx && focus == old(focus) && runs == old(runs) && y == old(y)
      ensures log == old(log) + [MoveX(nx)]
    {
      x := nx;
      log := log + [MoveX(nx)];
    }

    /** RunAutoAfc(): the focus becomes what the oracle says for this run. */
    method RunAutoAfc()
      modifies this
      ensures x == old(x) && focus == oracle.afc(old(runs)) && runs == old(runs) + 1 && y == old(y)
      ensures log == old(log) + [RunAfc]
    {
      focus := oracle.afc(runs);
      runs := runs + 1;
      log := log + [RunAfc];
    }

    /** SetFocus(Coarse=coarse). */
    method SetFocus(coarse: int)
      modifies this
      ensures x == old(x) && focus == coarse && runs == old(runs) && y == old(y)
      ensures log == old(log) + [Command.SetFocus(coarse)]
    {
      focus := coarse;
      log := log + [Command.SetFocus(coarse)];
    }

    /** GetFocus(): the current coarse focus. */
    method GetFocus() returns (coarse: int)
      ensures coarse == focus
    {
      coarse := focus;
    }

    /** GetWorkingDistance(): the working distance read at the current focus. */
    method GetWorkingDistance() returns (distance: int)
      ensures distance == oracle.wd(focus)
    {
      distance := oracle.wd(focus);
    }

    /**
     * recursiveAutofocus(tileWidth, focusThreshold, xStart, offset, count), with `step`
     * standing for `int(0.1 * tileWidth)`.  It issues exactly the commands of `Trace`,
     * so the instrument ends in the state those commands produce, and Y is untouched.
     */
    method RecursiveAutofocus(step: int, threshold: int, xStart: int, offset: int, count: int)
      modifies this
      ensures log == old(log) + Trace(oracle, step, threshold, old(focus), old(runs), xStart, offset, count)
      ensures State() == Apply(oracle, old(State()),
                               Trace(oracle, step, threshold, old(focus), old(runs), xStart, offset, count))
      ensures y == old(y)
      decreases if count > MaxCount then 0 else MaxCount + 1 - count
    {
      if count > MaxCount {
        return;
      }
      ghost var s0, log0 := State(), log;
      ghost var t := Trace(oracle, step, threshold, s0.focus, s0.runs, xStart, offset, count);
      var xNew := xStart + offset;
      ghost var pre := ProbeMove(xNew, offset) + [RunAfc];
      if offset > 0 {
        RunStageMoveX(xNew);
      }
      assert log == log0 + ProbeMove(xNew, offset);
      var oldFocus := GetFocus();
      var oldWorkingDistance := GetWorkingDistance();
      RunAutoAfc();
      assert log == log0 + pre;
      assert State() == Apply(oracle, s0, pre) by {
        ApplyProbeAfc(oracle, s0, xNew, offset);
      }
      var newWorkingDistance := GetWorkingDistance();
      assert newWorkingDistance == oracle.wd(oracle.afc(s0.runs)) && oldWorkingDistance == oracle.wd(s0.focus);
      if Abs(newWorkingDistance - oldWorkingDistance) > threshold {
        assert Fails(oracle, threshold, s0.focus, s0.runs);
        SetFocus(oldFocus);
        ghost var log3, s3 := log, State();
        assert s3 == Apply(oracle, s0, pre).(focus := s0.focus);
        assert focus == s0.focus && runs == s0.runs + 1;
        RecursiveAutofocus(step, threshold, xNew, step, count + 1);
        ghost var inner := Trace(oracle, step, threshold, s0.focus, s0.runs + 1, xNew, step, count + 1);
        assert log == log3 + inner;
        assert State() == Apply(oracle, s3, inner);
        RunStageMoveX(xStart);
        assert log == log3 + inner + [MoveX(xStart)];
        RejectedFrame(oracle, step, threshold, s0, xStart, offset, count, log0, inner);
        assert log == log0 + t;
      } else {
        AcceptedFrame(oracle, step, threshold, s0, xStart, offset, count, log0);
        assert log == log0 + t;
      }
    }
  }
}
