/**
 Which speed profile the pure-pursuit controller trusts, and when it may drive past a cusp. Plans,
 profile messages, encoder samples and control cycles may arrive in any order.
 */
module CuspExecution {
  import opened PathHandler
  import opened Numbers

  const CUSP_STOP: nat := 2
  const MAX_CACHED_PROFILES: nat := 10
  const FRESH_MS: int := 250

  datatype Stamp = Stamp(sec: int, nanosec: int)

  datatype Path = Path(poses: seq<Pose>, stamp: Stamp, frame: string)

  datatype Point = Point(arclength: real, ceiling: real, cuspState: nat)

  datatype Profile = Profile(poseCount: nat, pathHash: nat, stamp: Stamp, points: seq<Point>)

  /** Profile validation and path hashing belong to another package; a valid profile names its path. */
  datatype Oracle = Oracle(valid: (Profile, Path) -> bool, identity: Path -> nat) {
    predicate Targets(p: Profile, path: Path) {
      p.poseCount == |path.poses| && p.pathHash == identity(path) && p.stamp == path.stamp
    }

    ghost predicate Sound() {
      forall p, path :: valid(p, path) ==> Targets(p, path) && |p.points| == |path.poses| && p.points != []
    }
  }

  /** The points at which execution must stop, then the end of the path. */
  function Terminals(points: seq<Point>): seq<nat> {
    StopPoints(points, |points|) + (if points != [] then [|points| - 1] else [])
  }

  function StopPoints(points: seq<Point>, n: nat): (s: seq<nat>)
    requires n <= |points|
  {
    if n == 0 then []
    else StopPoints(points, n - 1) + (if points[n - 1].cuspState == CUSP_STOP then [n - 1] else [])
  }

  ghost predicate Ascending(s: seq<nat>) {
    forall i, j :: 0 <= i < j < |s| ==> s[i] <= s[j]
  }

  /** The stop points are exactly the marked points, in ascending order. */
  lemma {:induction false} StopPointsAreMarked(points: seq<Point>, n: nat)
    requires n <= |points|
    ensures forall i :: 0 <= i < n ==> (i in StopPoints(points, n) <==> points[i].cuspState == CUSP_STOP)
    ensures forall k :: 0 <= k < |StopPoints(points, n)| ==> StopPoints(points, n)[k] < n
    ensures forall j, k :: 0 <= j < k < |StopPoints(points, n)| ==> StopPoints(points, n)[j] < StopPoints(points, n)[k]
  {
    if n > 0 {
      StopPointsAreMarked(points, n - 1);
      var s := StopPoints(points, n - 1);
      assert forall x :: x in StopPoints(points, n) <==> x in s || (x == n - 1 && points[n - 1].cuspState == CUSP_STOP);
    }
  }

  /** A marked point is a terminal, and not the last one. */
  lemma StopPosition(points: seq<Point>, i: nat) returns (j: nat)
    requires i < |points| && points[i].cuspState == CUSP_STOP
    ensures j + 1 < |Terminals(points)| && Terminals(points)[j] == i
  {
    StopPointsAreMarked(points, |points|);
    j :| j < |StopPoints(points, |points|)| && StopPoints(points, |points|)[j] == i;
  }

  /** The index is not past the first terminal, unless that is the end of the path, exactly when no earlier point is a stop. */
  lemma FirstStopAhead(points: seq<Point>, index: nat)
    requires index <= |points|
    ensures (1 < |Terminals(points)| ==> index <= Terminals(points)[0]) <==>
            forall i :: 0 <= i < index ==> points[i].cuspState != CUSP_STOP
  {
    var stops := StopPoints(points, |points|);
    StopPointsAreMarked(points, |points|);
    hide StopPoints;
    assert points == [] ==> stops == [];
    assert |Terminals(points)| == |stops| + (if points == [] then 0 else 1) && (stops != [] ==> Terminals(points)[0] == stops[0]);
    hide Terminals;
    if i :| 0 <= i < index && points[i].cuspState == CUSP_STOP {
      assert i in stops;
    }
    if stops != [] {
      assert stops[0] in stops;
    }
  }

  lemma TerminalsAscend(points: seq<Point>)
    ensures Ascending(Terminals(points))
    ensures forall k :: 0 <= k < |Terminals(points)| ==> Terminals(points)[k] < |points|
    ensures points != [] ==> Terminals(points) != [] && Terminals(points)[|Terminals(points)| - 1] == |points| - 1
  {
    StopPointsAreMarked(points, |points|);
  }

  /** The most recently received profile that names the path. */
  function LastTargeting(o: Oracle, received: seq<Profile>, path: Path): (r: seq<Profile>)
    ensures |r| <= 1
  {
    if received == [] then []
    else if o.Targets(received[|received| - 1], path) then [received[|received| - 1]]
    else LastTargeting(o, received[..|received| - 1], path)
  }

  /** A profile names a path by its number of poses, their hash and the stamp; the last one that does is taken, or none. */
  lemma {:induction false} LastTargetingIs(o: Oracle, received: seq<Profile>, path: Path) returns (k: nat)
    ensures LastTargeting(o, received, path) == [] ==> k == |received|
    ensures LastTargeting(o, received, path) != [] ==>
              && k < |received| && LastTargeting(o, received, path) == [received[k]]
              && received[k].poseCount == |path.poses| && received[k].pathHash == o.identity(path) && received[k].stamp == path.stamp
    ensures forall j: nat :: (if LastTargeting(o, received, path) == [] then 0 else k + 1) <= j < |received| ==>
              received[j].poseCount != |path.poses| || received[j].pathHash != o.identity(path) || received[j].stamp != path.stamp
  {
    if received == [] {
      k := 0;
    } else {
      var last := |received| - 1;
      k := LastTargetingIs(o, received[..last], path);
      if o.Targets(received[last], path) || LastTargeting(o, received[..last], path) == [] {
        k := if o.Targets(received[last], path) then last else |received|;
      }
      assert forall j: nat :: j < last ==> received[..last][j] == received[j];
    }
  }

  lemma LastTargetingNone(o: Oracle, path: Path)
    ensures LastTargeting(o, [], path) == []
  {
  }

  lemma LastTargetingStep(o: Oracle, s: seq<Profile>, i: nat, path: Path)
    requires 0 < i <= |s|
    ensures LastTargeting(o, s[..i], path) == if o.Targets(s[i - 1], path) then [s[i - 1]] else LastTargeting(o, s[..i - 1], path)
    ensures s[..0] == []
  {
    assert s[..i][..i - 1] == s[..i - 1];
  }

  lemma {:induction false} LastTargetingInSuffix(o: Oracle, received: seq<Profile>, k: nat, path: Path)
    requires k <= |received|
    ensures LastTargeting(o, received[k..], path) != [] ==> LastTargeting(o, received, path) == LastTargeting(o, received[k..], path)
    decreases |received|
  {
    if k < |received| {
      var last := |received| - 1;
      assert received[k..][..last - k] == received[..last][k..];
      LastTargetingInSuffix(o, received[..last], k, path);
    }
  }

  /** The cache holds the last ten profiles received, or all of them. */
  ghost predicate CacheOk(cache: seq<Profile>, received: seq<Profile>) {
    && |cache| == MinNat(|received|, MAX_CACHED_PROFILES)
    && cache == received[|received| - |cache|..]
  }

  lemma CacheStep(cache: seq<Profile>, received: seq<Profile>, profile: Profile)
    requires CacheOk(cache, received)
    ensures var grown := cache + [profile];
            CacheOk(if |grown| > MAX_CACHED_PROFILES then grown[1..] else grown, received + [profile])
  {
  }

  /** The newest cached profile naming a path is the newest one ever received that does. */
  lemma CachedIsLatest(o: Oracle, cache: seq<Profile>, received: seq<Profile>, path: Path)
    requires CacheOk(cache, received) && LastTargeting(o, cache, path) != []
    ensures LastTargeting(o, received, path) == LastTargeting(o, cache, path)
  {
    LastTargetingInSuffix(o, received, |received| - |cache|, path);
  }

  /**
   A cusp that was passed: the stop of the profile it is, the pruned index and the number of encoder samples when
   the wait there began, and the sample that let the controller go on, with its age.
   */
  datatype Passage = Passage(profile: Profile, stop: nat, arrivedAt: nat, waitedFrom: nat, sample: nat, age: int)

  /** The wait began at this very stop, and a stationary, fresh sample came after that. */
  ghost predicate PassageOk(p: Passage, samples: seq<bool>) {
    && p.stop + 1 < |Terminals(p.profile.points)| && Terminals(p.profile.points)[p.stop] <= p.arrivedAt
    && p.waitedFrom <= p.sample < |samples| && samples[p.sample] && p.age <= FRESH_MS
  }

  /** Every passage is in order, and no sample serves two of them: each wait began after the last passage's sample. */
  ghost predicate PassagesOk(passages: seq<Passage>, samples: seq<bool>) {
    && (forall k :: 0 <= k < |passages| ==> PassageOk(passages[k], samples))
    && (forall j, k :: 0 <= j < k < |passages| ==> passages[j].sample < passages[k].waitedFrom)
  }

  lemma MoreSamples(passages: seq<Passage>, samples: seq<bool>, sample: bool)
    requires PassagesOk(passages, samples)
    ensures PassagesOk(passages, samples + [sample])
  {
    hide Terminals;
  }

  lemma OnePassageMore(passages: seq<Passage>, samples: seq<bool>, p: Passage)
    requires PassagesOk(passages, samples) && PassageOk(p, samples)
    requires forall k :: 0 <= k < |passages| ==> passages[k].sample < p.waitedFrom
    ensures PassagesOk(passages + [p], samples)
  {
    hide PassageOk;
  }

  /** What may happen to the controller. */
  datatype Event =
    | NewPlan(path: Path)
    | NewProfile(profile: Profile)
    | NewSample(stationary: bool, receivedAt: int)
    | ControlCycle(robot: Pose, robotKnown: bool, searchDistance: real, rejectUnitPath: bool, extent: real, now: int)

  class Controller {
    const o: Oracle
    const handler: Handler
    var cache: seq<Profile>
    var currentPath: Path
    var matched: bool
    var active: Profile
    var waiting: bool
    var waitStart: nat
    var encoderSequence: nat
    var encoderStationary: bool
    var encoderReceivedAt: int
    /** Every profile ever received and every encoder sample, in order. */
    ghost var received: seq<Profile>
    ghost var samples: seq<bool>
    /** Every cusp passed, how many of them before the present terminals were set, and the index when the wait began. */
    ghost var passages: seq<Passage>
    ghost var base: nat
    ghost var waitIndex: nat

    /** The cache is the tail of what was received; samples are counted. */
    ghost predicate Valid()
      reads this, handler
    {
      && o.Sound() && handler.Valid()
      && CacheOk(cache, received)
      && encoderSequence == |samples| && (samples != [] ==> encoderStationary == samples[|samples| - 1])
      && (waiting ==> waitStart <= encoderSequence)
    }

    /** A trusted profile is valid for the current path and the latest one naming it; terminals follow it. */
    ghost predicate Trusted()
      reads this, handler
    {
      && (matched ==> o.valid(active, currentPath) && LastTargeting(o, received, currentPath) == [active])
      && handler.terminals == (if matched then Terminals(active.points) else [])
    }

    /** The active segment counts the stops of the active profile passed so far; a wait is at the active stop. */
    ghost predicate Recorded()
      reads this, handler
    {
      && PassagesOk(passages, samples) && base <= |passages| && handler.segment == |passages| - base
      && (forall k :: base <= k < |passages| ==> passages[k].profile == active && passages[k].stop == k - base)
      && (waiting ==>
            && matched && handler.HasActiveCusp() && handler.terminals[handler.segment] <= waitIndex <= handler.index
            && forall k :: 0 <= k < |passages| ==> passages[k].sample < waitStart)
    }

    constructor (o: Oracle, handler: Handler)
      requires o.Sound() && handler.Valid() && handler.terminals == [] && handler.segment == 0
      ensures Valid() && Trusted() && Recorded() && !waiting
      ensures this.o == o && this.handler == handler && !matched && currentPath.poses == [] && cache == received == []
    {
      this.o, this.handler := o, handler;
      cache, currentPath, matched := [], Path([], Stamp(0, 0), ""), false;
      active := Profile(0, 0, Stamp(0, 0), []);
      waiting, waitStart, encoderSequence, encoderStationary, encoderReceivedAt := false, 0, 0, false, 0;
      received, samples := [], [];
      passages, base, waitIndex := [], 0, 0;
    }

    /** The stop indices of the active profile, collected point by point. */
    method ConfigureExecutionSegments()
      requires handler.Valid()
      modifies handler`terminals, handler`segment, this`waiting
      ensures handler.Valid() && handler.terminals == Terminals(active.points) && handler.segment == 0 && !waiting
    {
      var terminals: seq<nat> := [];
      for i := 0 to |active.points|
        invariant terminals == StopPoints(active.points, i)
      {
        if active.points[i].cuspState == CUSP_STOP {
          terminals := terminals + [i];
        }
      }
      if active.points != [] {
        terminals := terminals + [|active.points| - 1];
      }
      handler.SetSegmentTerminalIndices(terminals);
      waiting := false;
    }

    /** Searches the cache from the newest entry for the first one that names the current path. */
    method MatchCachedProfile() returns (found: bool)
      requires Valid() && PassagesOk(passages, samples)
      modifies this`matched, this`active, this`waiting, this`base, handler`terminals, handler`segment
      ensures Valid() && Trusted() && Recorded() && found == matched && handler.segment == 0 && !waiting
      ensures matched <==> LastTargeting(o, cache, currentPath) != [] && o.valid(LastTargeting(o, cache, currentPath)[0], currentPath)
    {
      hide Arc, Terminals, StopPoints, LastTargeting, CacheOk, PassagesOk;
      base := |passages|;
      matched := false;
      handler.SetSegmentTerminalIndices([]);
      waiting := false;
      LastTargetingNone(o, currentPath);
      var i := |cache|;
      assert cache[..|cache|] == cache;
      while i > 0
        invariant 0 <= i <= |cache| && !matched && !waiting && base == |passages|
        invariant handler.Valid() && handler.terminals == [] && handler.segment == 0
        invariant LastTargeting(o, cache[..i], currentPath) == LastTargeting(o, cache, currentPath)
      {
        var profile := cache[i - 1];
        LastTargetingStep(o, cache, i, currentPath);
        if o.Targets(profile, currentPath) {
          if !o.valid(profile, currentPath) {
            return false;
          }
          active := profile;
          matched := true;
          ConfigureExecutionSegments();
          CachedIsLatest(o, cache, received, currentPath);
          return true;
        }
        i := i - 1;
      }
      return false;
    }

    /** A new plan: progress restarts, no wait is on, and the cached profiles are searched. */
    method SetPlan(path: Path)
      requires Valid() && Recorded()
      modifies this`currentPath, this`matched, this`active, this`waiting, this`base, handler
      ensures Valid() && Trusted() && Recorded() && handler.Aligned() && currentPath == path && !waiting
      ensures handler.plan == path.poses == handler.original && handler.index == 0 && handler.offset == 0.0
      ensures matched <==> LastTargeting(o, cache, path) != [] && o.valid(LastTargeting(o, cache, path)[0], path)
    {
      hide Arc, Terminals, StopPoints, LastTargeting, CacheOk, PassagesOk;
      handler.SetPlan(path.poses);
      waiting := false;
      currentPath := path;
      var found := MatchCachedProfile();
      TerminalsAscend(active.points);
    }

    method CacheProfile(profile: Profile)
      requires Valid()
      modifies this`cache, this`received
      ensures Valid() && received == old(received) + [profile]
      ensures |cache| > 0 && cache[|cache| - 1] == profile
    {
      hide Terminals, StopPoints, LastTargeting, CacheOk, Oracle.Sound, Handler.Valid;
      CacheStep(cache, received, profile);
      var grown := cache + [profile];
      if |grown| > MAX_CACHED_PROFILES {
        grown := grown[1..];
      }
      cache, received := grown, received + [profile];
    }

    /** A further profile while one is matched: the match stays unless the new one names the path and differs. */
    method Reconsider(profile: Profile, ghost before: seq<Profile>)
      requires Valid() && Recorded() && matched && currentPath.poses != [] && received == before + [profile]
      requires o.valid(active, currentPath) && LastTargeting(o, before, currentPath) == [active] && handler.terminals == Terminals(active.points)
      modifies this`matched, this`waiting, this`base, handler`terminals, handler`segment
      ensures Valid() && Trusted() && Recorded() && (matched <==> profile == active || !o.Targets(profile, currentPath))
      ensures if matched then waiting == old(waiting) && handler.terminals == old(handler.terminals) && handler.segment == old(handler.segment)
              else !waiting && handler.terminals == []
    {
      hide Arc, Terminals, StopPoints, LastTargeting, CacheOk, PassagesOk;
      LastTargetingStep(o, received, |received|, currentPath);
      assert received[..|received| - 1] == before && received[..|received|] == received;
      var validForCurrent := o.valid(profile, currentPath);
      if validForCurrent && profile == active {
        return;
      }
      if !o.Targets(profile, currentPath) {
        return;
      }
      matched := false;
      handler.SetSegmentTerminalIndices([]);
      waiting := false;
      base := |passages|;
    }

    /**
     A profile message. A matched plan keeps its profile until a different one names the same path. A match made
     while the plan is already pruned holds back the index exactly when no pruned pose is a marked stop.
     */
    method ReceiveProfile(profile: Profile)
      requires Valid() && Trusted() && Recorded()
      modifies this`cache, this`received, this`matched, this`active, this`waiting, this`base, handler`terminals, handler`segment
      ensures Valid() && Trusted() && Recorded() && received == old(received) + [profile]
      ensures !old(matched) ==>
                (matched <==> currentPath.poses != [] && LastTargeting(o, cache, currentPath) != [] &&
                              o.valid(LastTargeting(o, cache, currentPath)[0], currentPath))
      ensures !old(matched) && matched ==> handler.segment == 0 && |active.points| == |currentPath.poses|
      ensures !old(matched) && matched && handler.index <= |active.points| ==>
                (handler.Aligned() <==> forall i :: 0 <= i < handler.index ==> active.points[i].cuspState != CUSP_STOP)
      ensures old(matched) ==>
                (matched <==> profile == old(active) || !o.Targets(profile, currentPath))
      ensures !matched || (old(matched) && old(handler.Aligned())) ==> handler.Aligned()
      ensures old(matched) && matched ==> active == old(active) && handler.segment == old(handler.segment) && waiting == old(waiting)
      ensures !(old(matched) && matched) && currentPath.poses != [] ==> !waiting
    {
      hide Arc, Terminals, StopPoints, LastTargeting, CacheOk, PassagesOk;
      CacheProfile(profile);
      if currentPath.poses == [] {
        return;
      }
      if matched {
        Reconsider(profile, old(received));
        return;
      }
      var found := MatchCachedProfile();
      TerminalsAscend(active.points);
      if matched && handler.index <= |active.points| {
        FirstStopAhead(active.points, handler.index);
      }
    }

    method EncoderSample(stationary: bool, now: int)
      requires Valid()
      modifies this`encoderStationary, this`encoderReceivedAt, this`encoderSequence, this`samples
      ensures Valid() && samples == old(samples) + [stationary] && encoderReceivedAt == now
      ensures (old(Trusted()) ==> Trusted()) && (old(Recorded()) ==> Recorded())
    {
      hide Arc, Terminals, LastTargeting, CacheOk, PassagesOk;
      if Recorded() {
        MoreSamples(passages, samples, stationary);
      }
      encoderStationary := stationary;
      encoderReceivedAt := now;
      encoderSequence := encoderSequence + 1;
      samples := samples + [stationary];
    }

    /**
     The cusp gate. A segment is left only at its terminal, after waiting there, and only when the
     latest encoder sample came after the wait began, is at most 250 ms old and says stationary.
     */
    method UpdateCuspExecution(now: int) returns (advanced: bool)
      requires Valid() && Trusted() && Recorded()
      modifies this`waiting, this`waitStart, this`passages, this`waitIndex, handler`offset, handler`segment, handler`bumps
      ensures Valid() && Trusted() && Recorded() && (old(handler.Aligned()) ==> handler.Aligned())
      ensures handler.segment == old(handler.segment) + (if advanced then 1 else 0)
      ensures advanced <==>
                && matched && old(waiting) && old(handler.AtStop())
                && old(waitStart) < |samples| && samples[|samples| - 1] && now - encoderReceivedAt <= FRESH_MS
      ensures passages == old(passages) + if advanced then
                  [Passage(active, old(handler.segment), old(waitIndex), old(waitStart), |samples| - 1, now - encoderReceivedAt)] else []
      ensures advanced ==> !waiting
      ensures waiting && !old(waiting) ==> waitStart == |samples| && waitIndex == handler.index
      ensures waiting && old(waiting) ==> waitStart == old(waitStart) && waitIndex == old(waitIndex)
      ensures !advanced ==>
                handler.offset == old(handler.offset) && (waiting <==> matched && handler.AtStop())
    {
      hide Arc, Terminals, StopPoints, LastTargeting, CacheOk, PassagesOk, PassageOk;
      if !matched || !handler.AtSegmentTerminal() {
        waiting := false;
        return false;
      }
      if handler.segment + 1 >= |handler.terminals| {
        return false;
      }
      if !waiting {
        BeginWait();
        return false;
      }
      var isFresh := encoderSequence > waitStart && now - encoderReceivedAt <= FRESH_MS;
      if isFresh && encoderStationary {
        advanced := PassCusp(now);
        return;
      }
      return false;
    }

    /** Arrival at a stop: only samples from now on count. */
    method BeginWait()
      requires Valid() && Trusted() && Recorded() && !waiting && matched && handler.AtSegmentTerminal() && handler.HasActiveCusp()
      modifies this`waiting, this`waitStart, this`waitIndex
      ensures Valid() && Trusted() && Recorded() && waiting && waitStart == |samples| && waitIndex == handler.index
    {
      hide Arc, Terminals, StopPoints, LastTargeting, CacheOk, PassagesOk;
      SamplesBehind();
      waiting := true;
      waitStart := encoderSequence;
      waitIndex := handler.index;
    }

    /** The stop was waited for: the next segment becomes active. */
    method PassCusp(now: int) returns (advanced: bool)
      requires Valid() && Trusted() && Recorded() && waiting && handler.AtSegmentTerminal() && handler.HasActiveCusp()
      requires waitStart < |samples| && samples[|samples| - 1] && now - encoderReceivedAt <= FRESH_MS
      modifies this`waiting, this`passages, handler`offset, handler`segment, handler`bumps
      ensures Valid() && Trusted() && Recorded() && (old(handler.Aligned()) ==> handler.Aligned())
      ensures advanced && !waiting && handler.segment == old(handler.segment) + 1
      ensures passages == old(passages) +
                [Passage(active, old(handler.segment), waitIndex, waitStart, |samples| - 1, now - encoderReceivedAt)]
    {
      hide Arc, Terminals, StopPoints, LastTargeting, CacheOk, PassagesOk;
      ghost var p := Passage(active, handler.segment, waitIndex, waitStart, |samples| - 1, now - encoderReceivedAt);
      ThisPassage(p, now);
      advanced := handler.AdvanceSegment();
      if advanced {
        waiting := false;
        passages := passages + [p];
      }
    }

    lemma SamplesBehind()
      requires Recorded()
      ensures forall k :: 0 <= k < |passages| ==> passages[k].sample < |samples|
    {
      hide Terminals;
    }

    lemma ThisPassage(p: Passage, now: int)
      requires Valid() && Trusted() && Recorded() && waiting && waitStart < |samples| && samples[|samples| - 1] && now - encoderReceivedAt <= FRESH_MS
      requires p == Passage(active, handler.segment, waitIndex, waitStart, |samples| - 1, now - encoderReceivedAt)
      ensures PassagesOk(passages + [p], samples)
    {
      hide Arc, Terminals, LastTargeting, CacheOk, PassagesOk;
      OnePassageMore(passages, samples, p);
    }

    /** Pruning keeps what the controller knows; the index stays before the active stop if it was. */
    method PrunePlan(robot: Pose, robotKnown: bool, searchDistance: real, rejectUnitPath: bool, extent: real)
      returns (outcome: Outcome, transformed: seq<Pose>, cut: Cut)
      requires Valid() && Trusted() && Recorded()
      modifies handler`plan, handler`offset, handler`index
      ensures Valid() && Trusted() && Recorded() && (old(handler.Aligned()) ==> handler.Aligned())
      ensures old(handler.index) <= handler.index
      ensures if Located(outcome)
              then old(handler.IsCut(robot, searchDistance, extent, cut)) && handler.index == old(handler.index) + cut.begin
              else handler.index == old(handler.index)
      ensures Located(outcome) && old(handler.Aligned()) ==> handler.HandsOver(handler.index, robot, extent, transformed, cut.taken)
      ensures old(handler.Locatable(robotKnown, searchDistance, rejectUnitPath)) ==> Located(outcome)
      ensures handler.HasActiveCusp() && old(handler.SegmentWindow()) == 0 ==>
                outcome != Ok && handler.index == old(handler.index) && handler.plan == old(handler.plan)
    {
      hide Arc, Terminals, StopPoints, LastTargeting, CacheOk, Oracle.Sound, Handler.IsCut, Handler.SegmentWindow, Handler.HandsOver, PassagesOk;
      outcome, transformed, cut := handler.TransformGlobalPlan(robot, robotKnown, searchDistance, rejectUnitPath, extent);
    }

    /** The path part of one control cycle: prune, consult the cusp gate, prune again in the new segment. */
    method Cycle(robot: Pose, robotKnown: bool, searchDistance: real, rejectUnitPath: bool, extent: real, now: int)
      returns (outcome: Outcome, transformed: seq<Pose>, advanced: bool, cut: Cut)
      requires Valid() && Trusted() && Recorded()
      modifies this`waiting, this`waitStart, this`passages, this`waitIndex, handler
      ensures Valid() && Trusted() && Recorded() && (old(handler.Aligned()) ==> handler.Aligned())
      ensures handler.original == old(handler.original) && handler.terminals == old(handler.terminals) && old(handler.index) <= handler.index
      ensures handler.segment == old(handler.segment) + (if advanced then 1 else 0)
      ensures advanced ==>
                && matched && !waiting && old(waiting) && old(waitStart) < |samples| && samples[|samples| - 1]
                && now - encoderReceivedAt <= FRESH_MS
      ensures passages == old(passages) + if advanced then
                  [Passage(active, old(handler.segment), old(waitIndex), old(waitStart), |samples| - 1, now - encoderReceivedAt)] else []
      ensures waiting && !old(waiting) ==> waitStart == |samples|
      ensures waiting && old(waiting) ==> waitStart == old(waitStart)
      ensures old(handler.HasActiveCusp()) && old(handler.Aligned()) && handler.index > old(handler.terminals[handler.segment]) ==> advanced
      ensures Located(outcome) && old(handler.Aligned()) ==> handler.HandsOver(handler.index, robot, extent, transformed, cut.taken)
      ensures outcome == Ok && !advanced ==>
                && (waiting <==> matched && handler.AtStop())
                && !(waiting && old(waiting) && waitStart < |samples| && samples[|samples| - 1] && now - encoderReceivedAt <= 250)
      ensures !advanced && Located(outcome) ==>
                old(handler.IsCut(robot, searchDistance, extent, cut)) && handler.index == old(handler.index) + cut.begin
      ensures !advanced && !Located(outcome) ==> handler.index == old(handler.index)
      ensures !advanced && old(handler.Locatable(robotKnown, searchDistance, rejectUnitPath)) ==> Located(outcome)
      ensures old(handler.HasActiveCusp()) && old(handler.SegmentWindow()) == 0 ==>
                outcome != Ok && !advanced && handler.index == old(handler.index) && handler.plan == old(handler.plan)
    {
      hide Terminals, Oracle.Sound, Handler.IsCut, Handler.SegmentWindow, Handler.Locatable, Handler.Valid, Valid, Trusted, PassagesOk;
      outcome, transformed, cut := PrunePlan(robot, robotKnown, searchDistance, rejectUnitPath, extent);
      advanced := false;
      if outcome != Ok {
        return;
      }
      advanced := UpdateCuspExecution(now);
      if advanced {
        outcome, transformed, cut := PrunePlan(robot, robotKnown, searchDistance, rejectUnitPath, extent);
      }
    }

    /** The event is a match with a profile that marks a stop on the part of the plan already pruned. */
    twostate predicate MatchedTooLate(e: Event)
      reads this, handler
    {
      && e.NewProfile? && !old(matched) && matched
      && exists i :: 0 <= i < handler.index && i < |active.points| && active.points[i].cuspState == CUSP_STOP
    }

    /** Any event keeps what is recorded; only a match made too late puts the index past an active stop. */
    method Handle(e: Event) returns (late: bool)
      requires Valid() && Trusted() && Recorded() && Current()
      modifies this, handler
      ensures Valid() && Trusted() && Recorded() && Current() && old(passages) <= passages && old(samples) <= samples
      ensures late <==> MatchedTooLate(e)
      ensures (old(handler.Aligned()) && !late) || e.NewPlan? ==> handler.Aligned()
      ensures late ==> e.NewProfile? && !handler.Aligned()
    {
      hide Arc, Terminals, StopPoints, LastTargeting, CacheOk, Oracle.Sound, PassagesOk, Handler.IsCut, Handler.SegmentWindow;
      late := false;
      match e {
        case NewPlan(path) => SetPlan(path);
        case NewProfile(profile) =>
          var wasMatched := matched;
          ReceiveProfile(profile);
          late := !wasMatched && matched && exists i :: 0 <= i < handler.index && i < |active.points| && active.points[i].cuspState == CUSP_STOP;
        case NewSample(stationary, receivedAt) => EncoderSample(stationary, receivedAt);
        case ControlCycle(robot, robotKnown, searchDistance, rejectUnitPath, extent, now) =>
          var outcome, transformed, advanced, cut := Cycle(robot, robotKnown, searchDistance, rejectUnitPath, extent, now);
      }
    }

    /** The handler prunes the current path. */
    ghost predicate Current()
      reads this, handler
    {
      handler.original == currentPath.poses
    }

    /** The point `i` of the active profile is a stop that was waited at: a passage of this profile tells so. */
    ghost predicate WaitedAt(i: nat)
      reads this
    {
      exists k :: base <= k < |passages| && passages[k].profile == active &&
        passages[k].stop < |Terminals(active.points)| && Terminals(active.points)[passages[k].stop] == i
    }

    /** Unless a match came too late, every marked stop behind the pruned index was waited at. */
    lemma StopsBehindWereWaitedAt()
      requires Valid() && Trusted() && Recorded() && Current() && matched && handler.Aligned()
      ensures forall i :: 0 <= i < handler.index && active.points[i].cuspState == CUSP_STOP ==> WaitedAt(i)
    {
      hide Arc, Terminals, LastTargeting, CacheOk, PassagesOk;
      TerminalsAscend(active.points);
      forall i | 0 <= i < handler.index && active.points[i].cuspState == CUSP_STOP
        ensures WaitedAt(i)
      {
        var j := StopPosition(active.points, i);
        assert j < handler.segment;
        assert passages[base + j].stop == j;
      }
    }

    /**
     Any run of plans, profiles, samples and control cycles. Every cusp passed in it was passed on a stationary, fresh
     sample received after the wait at that very stop began, and no sample served two cusps. As long as no match has come
     too late since the last plan, the index is not past a marked stop that was not waited at.
     */
    method Run(events: seq<Event>) returns (late: seq<bool>)
      requires Valid() && Trusted() && Recorded() && Current()
      modifies this, handler
      ensures Valid() && Trusted() && Recorded() && Current()
      ensures old(passages) <= passages && old(samples) <= samples && PassagesOk(passages, samples)
      ensures |late| == |events| && forall k :: 0 <= k < |late| && late[k] ==> events[k].NewProfile?
      ensures (old(handler.Aligned()) || HasPlan(events)) && InTimeSinceLastPlan(events, late) ==> handler.Aligned()
      ensures (old(handler.Aligned()) || HasPlan(events)) && InTimeSinceLastPlan(events, late) && matched ==>
                forall i :: 0 <= i < handler.index && active.points[i].cuspState == CUSP_STOP ==> WaitedAt(i)
    {
      hide Handler.Valid, Valid, Trusted, PassagesOk, Handler.Aligned, Current, WaitedAt;
      late := [];
      for k := 0 to |events|
        invariant Valid() && Trusted() && Recorded() && Current()
        invariant old(passages) <= passages && old(samples) <= samples
        invariant |late| == k && forall j :: 0 <= j < k && late[j] ==> events[j].NewProfile?
        invariant (old(handler.Aligned()) || HasPlan(events[..k])) && InTimeSinceLastPlan(events[..k], late) ==> handler.Aligned()
      {
        var tooLate := Handle(events[k]);
        assert events[..k + 1] == events[..k] + [events[k]];
        if InTimeSinceLastPlan(events[..k + 1], late + [tooLate]) {
          OneEventMore(events, late, k, tooLate);
        }
        late := late + [tooLate];
      }
      assert events[..|events|] == events;
      if handler.Aligned() && matched {
        StopsBehindWereWaitedAt();
      }
    }
  }

  ghost predicate HasPlan(events: seq<Event>) {
    exists p :: 0 <= p < |events| && events[p].NewPlan?
  }

  /** No match since the last plan came too late. */
  ghost predicate InTimeSinceLastPlan(events: seq<Event>, late: seq<bool>)
    requires |late| == |events|
  {
    forall k :: 0 <= k < |events| && late[k] ==> exists p :: k < p < |events| && events[p].NewPlan?
  }

  lemma OneEventMore(events: seq<Event>, late: seq<bool>, k: nat, tooLate: bool)
    requires k < |events| && |late| == k && InTimeSinceLastPlan(events[..k + 1], late + [tooLate])
    ensures !tooLate && (events[k].NewPlan? || InTimeSinceLastPlan(events[..k], late))
  {
    var grown := late + [tooLate];
    assert !grown[k];
    if !events[k].NewPlan? {
      forall j | 0 <= j < k && late[j]
        ensures exists p :: j < p < k && events[..k][p].NewPlan?
      {
        assert grown[j];
        var p :| j < p < k + 1 && events[..k + 1][p].NewPlan?;
        assert p < k && events[..k][p] == events[p];
      }
    }
  }
}
