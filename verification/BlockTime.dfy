/** The search for the shortest ledger close time that still meets the service level. */
module BlockTime {
  import opened Text

  /** What one evaluation answers; it raises when the load generator, the consistency checks
      or a node fails. */
  datatype Verdict = Met | Missed | Raised

  /** The answer to the n-th evaluation, made at a target: a network need not answer the
      same target the same way twice. */
  type Answers = (nat, int) -> Verdict

  datatype Probe = Probe(target: int, verdict: Verdict)

  /** What the search does to the network. */
  datatype Action = Evaluate(target: int) | Recover

  datatype Outcome =
    | Sustainable(target: int)
    | BadRange
    | NoneSatisfied
    | EvaluationRaised(target: int)

  const THRESHOLD := 100

  function Mid(lo: int, hi: int): int
    requires hi - lo > THRESHOLD
  {
    lo + (hi - lo) / 2
  }

  /** The evaluations from a search interval on, n evaluations having been made. */
  function Probes(lo: int, hi: int, n: nat, answers: Answers): seq<Probe>
    decreases hi - lo
  {
    if hi - lo <= THRESHOLD then []
    else
      var mid := Mid(lo, hi);
      var v := answers(n, mid);
      [Probe(mid, v)] +
      match v
      case Met => Probes(lo, mid, n + 1, answers)
      case Missed => Probes(mid, hi, n + 1, answers)
      case Raised => []
  }

  /** Before every evaluation but the first the network recovers if the last one missed. */
  function Actions(ps: seq<Probe>): seq<Action> {
    if ps == [] then []
    else
      var k := |ps| - 1;
      (if AfterMiss(ps[..k]) then Actions(ps[..k]) + [Recover] else Actions(ps[..k])) + [Evaluate(ps[k].target)]
  }

  predicate AfterMiss(ps: seq<Probe>) { ps != [] && ps[|ps| - 1].verdict.Missed? }

  /** The last target that met the service level. */
  function Best(ps: seq<Probe>): Option<int> {
    if ps == [] then None
    else if ps[|ps| - 1].verdict.Met? then Some(ps[|ps| - 1].target)
    else Best(ps[..|ps| - 1])
  }

  function Settled(ps: seq<Probe>): Outcome {
    match Best(ps)
    case Some(t) => Sustainable(t)
    case None => NoneSatisfied
  }

  predicate LastRaised(ps: seq<Probe>) { ps != [] && ps[|ps| - 1].verdict.Raised? }

  /** What the search reports. */
  function Report(min: int, max: int, ps: seq<Probe>): Outcome {
    if min >= max then BadRange
    else if LastRaised(ps) then EvaluationRaised(ps[|ps| - 1].target)
    else Settled(ps)
  }

  /** What one more evaluation adds. */
  lemma Extend(ps: seq<Probe>, p: Probe)
    ensures Best(ps + [p]) == if p.verdict.Met? then Some(p.target) else Best(ps)
    ensures Actions(ps + [p])
      == (if AfterMiss(ps) then Actions(ps) + [Recover] else Actions(ps)) + [Evaluate(p.target)]
    ensures AfterMiss(ps + [p]) == p.verdict.Missed? && LastRaised(ps + [p]) == p.verdict.Raised?
  {
    assert (ps + [p])[..|ps|] == ps;
  }

  /** The evaluations made so far and those of the current interval are all there are. */
  ghost predicate Splits(all: seq<Probe>, made: seq<Probe>, lo: int, hi: int, answers: Answers) {
    all == made + Probes(lo, hi, |made|, answers)
  }

  lemma NextProbe(all: seq<Probe>, made: seq<Probe>, lo: int, hi: int, answers: Answers)
    requires hi - lo > THRESHOLD && Splits(all, made, lo, hi, answers)
    ensures var mid, v := Mid(lo, hi), answers(|made|, Mid(lo, hi));
      var next := made + [Probe(mid, v)];
      && (v.Met? ==> Splits(all, next, lo, mid, answers))
      && (v.Missed? ==> Splits(all, next, mid, hi, answers))
      && (v.Raised? ==> all == next)
  {
    var mid, v := Mid(lo, hi), answers(|made|, Mid(lo, hi));
    var rest := match v
      case Met => Probes(lo, mid, |made| + 1, answers)
      case Missed => Probes(mid, hi, |made| + 1, answers)
      case Raised => [];
    assert Probes(lo, hi, |made|, answers) == [Probe(mid, v)] + rest;
    Regroup(made, Probe(mid, v), rest);
    hide Probes;
  }

  lemma Regroup(made: seq<Probe>, p: Probe, rest: seq<Probe>)
    ensures made + ([p] + rest) == (made + [p]) + rest
    ensures rest == [] ==> made + ([p] + rest) == made + [p]
  {
  }

  lemma ReportAfter(min: int, max: int, ps: seq<Probe>, p: Probe)
    requires min < max
    ensures p.verdict.Raised? ==> Report(min, max, ps + [p]) == EvaluationRaised(p.target)
  {
  }

  lemma ReportQuiet(min: int, max: int, ps: seq<Probe>)
    requires min < max && !LastRaised(ps)
    ensures Report(min, max, ps) == match Best(ps) { case Some(t) => Sustainable(t) case None => NoneSatisfied }
  {
  }

  lemma NoProbes(lo: int, hi: int, answers: Answers)
    ensures Actions([]) == [] && Best([]) == None && !AfterMiss([]) && !LastRaised([])
    ensures Splits(Probes(lo, hi, 0, answers), [], lo, hi, answers)
  {
  }

  lemma Narrow(all: seq<Probe>, made: seq<Probe>, lo: int, hi: int, answers: Answers)
    requires hi - lo <= THRESHOLD && Splits(all, made, lo, hi, answers)
    ensures all == made
  {
  }

  /** The search itself, against the evaluations it must make and the recoveries between
      them. */
  method MinBlockTime(min: int, max: int, answers: Answers)
    returns (outcome: Outcome, ghost trace: seq<Action>)
    ensures outcome == Report(min, max, Probes(min, max, 0, answers))
    ensures trace == if min >= max then [] else Actions(Probes(min, max, 0, answers))
  {
    if min >= max { return BadRange, []; }
    var lo, hi := min, max;
    var bestPassing: Option<int> := None;
    var needsRecovery := false;
    var n := 0;
    ghost var ps: seq<Probe> := [];
    ghost var all := Probes(min, max, 0, answers);
    trace := [];
    NoProbes(min, max, answers);
    hide Probes, Actions, Best, Splits, AfterMiss, LastRaised, Report;
    while hi - lo > THRESHOLD
      invariant n == |ps|
      invariant Splits(all, ps, lo, hi, answers)
      invariant bestPassing == Best(ps)
      invariant needsRecovery == AfterMiss(ps)
      invariant !LastRaised(ps)
      invariant trace == Actions(ps)
      decreases hi - lo
    {
      if needsRecovery { trace := trace + [Recover]; }
      var mid := lo + (hi - lo) / 2;
      trace := trace + [Evaluate(mid)];
      var v := answers(n, mid);
      Extend(ps, Probe(mid, v));
      NextProbe(all, ps, lo, hi, answers);
      ReportAfter(min, max, ps, Probe(mid, v));
      ps := ps + [Probe(mid, v)];
      n := n + 1;
      match v {
        case Met =>
          hi := mid;
          bestPassing := Some(mid);
          needsRecovery := false;
        case Missed =>
          lo := mid;
          needsRecovery := true;
        case Raised =>
          return EvaluationRaised(mid), trace;
      }
    }
    Narrow(all, ps, lo, hi, answers);
    ReportQuiet(min, max, ps);
    match bestPassing {
      case Some(t) => outcome := Sustainable(t);
      case None => outcome := NoneSatisfied;
    }
  }

  // ----- what the report means -----

  /** The interval a search has narrowed down to. */
  function Low(lo: int, ps: seq<Probe>): int {
    if ps == [] then lo
    else if ps[|ps| - 1].verdict.Missed? then ps[|ps| - 1].target
    else Low(lo, ps[..|ps| - 1])
  }

  function High(hi: int, ps: seq<Probe>): int {
    match Best(ps)
    case Some(t) => t
    case None => hi
  }

  lemma {:induction false} LowPrepend(lo: int, p: Probe, ps: seq<Probe>)
    ensures Low(lo, [p] + ps) == Low(if p.verdict.Missed? then p.target else lo, ps)
    decreases |ps|
  {
    var q := [p] + ps;
    if ps == [] {
      assert q[..0] == [];
    } else {
      assert q[..|q| - 1] == [p] + ps[..|ps| - 1];
      LowPrepend(lo, p, ps[..|ps| - 1]);
    }
  }

  lemma {:induction false} BestPrepend(p: Probe, ps: seq<Probe>)
    ensures Best([p] + ps) == if Best(ps).Some? then Best(ps) else if p.verdict.Met? then Some(p.target) else None
    decreases |ps|
  {
    var q := [p] + ps;
    if ps == [] {
      assert q[..0] == [];
    } else {
      assert q[..|q| - 1] == [p] + ps[..|ps| - 1];
      BestPrepend(p, ps[..|ps| - 1]);
    }
  }

  lemma FirstProbe(lo: int, hi: int, n: nat, answers: Answers)
    ensures var ps := Probes(lo, hi, n, answers);
      && (ps != [] <==> hi - lo > 100)
      && (ps != [] ==>
            && ps[0].target == (lo + hi) / 2 && ps[0].verdict == answers(n, ps[0].target)
            && ps[1..] == match ps[0].verdict
                          case Met => Probes(lo, ps[0].target, n + 1, answers)
                          case Missed => Probes(ps[0].target, hi, n + 1, answers)
                          case Raised => [])
  {
  }

  /** An evaluation is made only while more than 100 lies between the last target that missed,
      or the lower bound, and the last one that met the level, or the upper bound; its target
      is the mean of the two, rounded down. */
  lemma {:induction false} TargetIsMean(lo: int, hi: int, n: nat, answers: Answers, i: nat)
    requires i < |Probes(lo, hi, n, answers)|
    ensures var ps := Probes(lo, hi, n, answers);
      High(hi, ps[..i]) - Low(lo, ps[..i]) > 100
      && ps[i].target == (Low(lo, ps[..i]) + High(hi, ps[..i])) / 2
    decreases i
  {
    hide Probes;
    FirstProbe(lo, hi, n, answers);
    var ps := Probes(lo, hi, n, answers);
    if i > 0 {
      var p, rest := ps[0], ps[1..];
      assert ps[..i] == [p] + rest[..i - 1] && ps[i] == rest[i - 1];
      LowPrepend(lo, p, rest[..i - 1]);
      BestPrepend(p, rest[..i - 1]);
      hide Low, Best;
      match p.verdict {
        case Met => TargetIsMean(lo, p.target, n + 1, answers, i - 1);
        case Missed => TargetIsMean(p.target, hi, n + 1, answers, i - 1);
        case Raised =>
      }
    }
  }

  predicate Quiet(ps: seq<Probe>) { forall p :: p in ps ==> !p.verdict.Raised? }

  /** At the end the interval is at most the threshold wide; its ends are the bounds of the
      search or evaluated targets, the lower one missed and the upper one met. */
  lemma {:induction false} Narrowed(lo: int, hi: int, n: nat, answers: Answers)
    requires lo < hi
    ensures var ps := Probes(lo, hi, n, answers);
      && lo <= Low(lo, ps) < High(hi, ps) <= hi
      && (Quiet(ps) ==> High(hi, ps) - Low(lo, ps) <= 100)
      && (Low(lo, ps) == lo || Probe(Low(lo, ps), Missed) in ps)
      && (Best(ps).Some? ==> Probe(Best(ps).value, Met) in ps)
    decreases hi - lo
  {
    var ps := Probes(lo, hi, n, answers);
    if hi - lo > THRESHOLD {
      var mid := Mid(lo, hi);
      var v := answers(n, mid);
      var p := Probe(mid, v);
      var rest := ps[1..];
      assert ps == [p] + rest;
      LowPrepend(lo, p, rest);
      BestPrepend(p, rest);
      match v {
        case Met => Narrowed(lo, mid, n + 1, answers);
        case Missed => Narrowed(mid, hi, n + 1, answers);
        case Raised => assert p in ps;
      }
      assert Quiet(ps) ==> Quiet(rest);
    }
  }

  /** Every evaluation falls strictly between the bounds: the bounds themselves are never
      evaluated. */
  lemma {:induction false} ProbesInside(lo: int, hi: int, n: nat, answers: Answers, p: Probe)
    requires p in Probes(lo, hi, n, answers)
    ensures lo < p.target < hi
    ensures exists k: nat :: n <= k && p.verdict == answers(k, p.target)
    decreases hi - lo
  {
    var mid := Mid(lo, hi);
    var v := answers(n, mid);
    if p != Probe(mid, v) {
      match v
      case Met => ProbesInside(lo, mid, n + 1, answers, p);
      case Missed => ProbesInside(mid, hi, n + 1, answers, p);
      case Raised =>
    }
  }

  /** Only the last evaluation can raise. */
  lemma {:induction false} RaisedIsLast(lo: int, hi: int, n: nat, answers: Answers, i: nat)
    requires i < |Probes(lo, hi, n, answers)| - 1
    ensures !Probes(lo, hi, n, answers)[i].verdict.Raised?
    decreases hi - lo
  {
    if i > 0 {
      var mid := Mid(lo, hi);
      match answers(n, mid)
      case Met => RaisedIsLast(lo, mid, n + 1, answers, i - 1);
      case Missed => RaisedIsLast(mid, hi, n + 1, answers, i - 1);
      case Raised =>
    }
  }

  /** The search fails loudly exactly when some evaluation raised. */
  lemma RaisesIff(min: int, max: int, answers: Answers)
    requires min < max
    ensures var ps := Probes(min, max, 0, answers); Report(min, max, ps).EvaluationRaised? <==> !Quiet(ps)
  {
    var ps := Probes(min, max, 0, answers);
    if !LastRaised(ps) {
      forall p | p in ps ensures !p.verdict.Raised? {
        var i :| 0 <= i < |ps| && ps[i] == p;
        if i < |ps| - 1 { RaisedIsLast(min, max, 0, answers, i); }
      }
    } else {
      assert ps[|ps| - 1] in ps;
    }
  }

  /** For any answers: a reported target met the service level when it was evaluated, and no
      more than the threshold below it lies the lower bound or a target that missed. */
  lemma ReportIsSound(min: int, max: int, answers: Answers)
    requires Report(min, max, Probes(min, max, 0, answers)).Sustainable?
    ensures var ps := Probes(min, max, 0, answers);
      var t := Report(min, max, ps).target;
      && Probe(t, Met) in ps && t == High(max, ps)
      && min <= Low(min, ps) < t <= Low(min, ps) + 100
      && (Low(min, ps) == min || Probe(Low(min, ps), Missed) in ps)
  {
    Narrowed(min, max, 0, answers);
    RaisesIff(min, max, answers);
  }

  // ----- how many evaluations -----

  function Power2(k: nat): (r: nat)
    ensures r >= 1
  {
    if k == 0 then 1 else 2 * Power2(k - 1)
  }

  /** A range of at most 100 * 2^k takes at most k evaluations. */
  lemma {:induction false} AtMost(lo: int, hi: int, n: nat, answers: Answers, k: nat)
    requires hi - lo <= 100 * Power2(k)
    ensures |Probes(lo, hi, n, answers)| <= k
    decreases hi - lo
  {
    if hi - lo > THRESHOLD {
      var mid := Mid(lo, hi);
      assert Power2(k) == 2 * Power2(k - 1);
      AtMost(lo, mid, n + 1, answers, k - 1);
      AtMost(mid, hi, n + 1, answers, k - 1);
    }
  }

  /** A range of at least 101 * 2^k takes more than k, unless one raises. */
  lemma {:induction false} AtLeast(lo: int, hi: int, n: nat, answers: Answers, k: nat)
    requires hi - lo >= 101 * Power2(k) && Quiet(Probes(lo, hi, n, answers))
    ensures |Probes(lo, hi, n, answers)| > k
    decreases hi - lo
  {
    var ps := Probes(lo, hi, n, answers);
    var mid := Mid(lo, hi);
    assert ps[0] in ps;
    assert forall p :: p in ps[1..] ==> p in ps;
    if k > 0 {
      match answers(n, mid)
      case Met => AtLeast(lo, mid, n + 1, answers, k - 1);
      case Missed => AtLeast(mid, hi, n + 1, answers, k - 1);
      case Raised =>
    }
  }

  /** Up to a width of 200 only the midpoint is evaluated. */
  lemma OnlyTheMidpoint(lo: int, hi: int, answers: Answers)
    requires 100 < hi - lo <= 200
    ensures var mid := (lo + hi) / 2; Probes(lo, hi, 0, answers) == [Probe(mid, answers(0, mid))]
  {
    assert Power2(1) == 2 * Power2(0) == 2;
    AtMost(lo, hi, 0, answers, 1);
  }

  // ----- when the network answers consistently -----

  /** Exactly the targets from least on meet the service level. */
  ghost predicate Consistent(answers: Answers, least: int) {
    forall n: nat, t :: answers(n, t) == if t >= least then Met else Missed
  }

  /** The evaluation that a search makes last if all of them miss. */
  function LastProbe(lo: int, hi: int): int
    requires hi - lo > THRESHOLD
    decreases hi - lo
  {
    var mid := Mid(lo, hi);
    if hi - mid > THRESHOLD then LastProbe(mid, hi) else mid
  }

  lemma {:induction false} LastProbeNearTop(lo: int, hi: int)
    requires hi - lo > THRESHOLD
    ensures hi - THRESHOLD <= LastProbe(lo, hi) < hi && lo < LastProbe(lo, hi)
    decreases hi - lo
  {
    var mid := Mid(lo, hi);
    if hi - mid > THRESHOLD { LastProbeNearTop(mid, hi); }
  }

  lemma {:induction false} FindsIff(lo: int, hi: int, n: nat, answers: Answers, least: int)
    requires Consistent(answers, least)
    ensures Quiet(Probes(lo, hi, n, answers))
    ensures Best(Probes(lo, hi, n, answers)).Some? <==> hi - lo > THRESHOLD && LastProbe(lo, hi) >= least
    decreases hi - lo
  {
    if hi - lo > THRESHOLD {
      var mid := Mid(lo, hi);
      var rest := if mid >= least then Probes(lo, mid, n + 1, answers) else Probes(mid, hi, n + 1, answers);
      assert answers(n, mid) == if mid >= least then Met else Missed;
      assert Probes(lo, hi, n, answers) == [Probe(mid, answers(n, mid))] + rest;
      LastProbeStep(lo, hi);
      BestPrepend(Probe(mid, answers(n, mid)), rest);
      if mid >= least { FindsIff(lo, mid, n + 1, answers, least); } else { FindsIff(mid, hi, n + 1, answers, least); }
      hide Probes, Best, LastProbe, Consistent;
    }
  }

  lemma LastProbeStep(lo: int, hi: int)
    requires hi - lo > THRESHOLD
    ensures var mid := Mid(lo, hi);
      && lo < mid < hi && mid <= LastProbe(lo, hi)
      && LastProbe(lo, hi) == if hi - mid > THRESHOLD then LastProbe(mid, hi) else mid
  {
    if hi - Mid(lo, hi) > THRESHOLD { LastProbeNearTop(Mid(lo, hi), hi); }
  }

  /** With consistent answers the reported target meets the service level and exceeds the
      least one that does, or the lower bound, by at most the threshold. */
  lemma NearLeast(min: int, max: int, answers: Answers, least: int)
    requires Consistent(answers, least)
    requires Report(min, max, Probes(min, max, 0, answers)).Sustainable?
    ensures var t := Report(min, max, Probes(min, max, 0, answers)).target;
      t >= least && (t <= least + 99 || t <= min + 100)
  {
    ReportIsSound(min, max, answers);
    var ps := Probes(min, max, 0, answers);
    var t := Report(min, max, ps).target;
    ProbesInside(min, max, 0, answers, Probe(t, Met));
    if Low(min, ps) != min { ProbesInside(min, max, 0, answers, Probe(Low(min, ps), Missed)); }
  }

  /** With consistent answers the search claims that nothing in the range works exactly when
      the range is no wider than the threshold, and nothing is evaluated, or its last probe
      is below the least target that works. */
  lemma ClaimsNoneIff(min: int, max: int, answers: Answers, least: int)
    requires min < max && Consistent(answers, least)
    ensures Report(min, max, Probes(min, max, 0, answers)).NoneSatisfied?
      <==> max - min <= 100 || LastProbe(min, max) < least
  {
    FindsIff(min, max, 0, answers, least);
    var ps := Probes(min, max, 0, answers);
    assert ps != [] ==> ps[|ps| - 1] in ps;
  }

  /** So the claim can be wrong, for the upper bound at least: it is never evaluated. */
  lemma ClaimsNoneWrongly(min: int, max: int, answers: Answers)
    requires min < max && Consistent(answers, max)
    ensures Report(min, max, Probes(min, max, 0, answers)).NoneSatisfied?
    ensures forall n: nat :: answers(n, max).Met?
  {
    ClaimsNoneIff(min, max, answers, max);
    if max - min > THRESHOLD { LastProbeNearTop(min, max); }
  }
}
