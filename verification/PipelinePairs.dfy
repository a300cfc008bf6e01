/** Two commands outstanding together: exactly when the pipeline treats them as
    in-order execution would, whatever the queue's tie-breaking. */
module PipelinePairs {
  import opened Bytes
  import opened Wire
  import opened Disk
  import opened Pipeline
  import opened PipelineSafety
  import opened PipelineOrder
  import opened PipelineRuns

  /** The two orders leave the same file, and neither command reads anything
      else in the one than in the other. */
  ghost predicate Commute(c: Command, d: Command, disk: Contents)
    requires InRange(c, |disk|) && InRange(d, |disk|)
  {
    && After(d, After(c, disk)) == After(c, After(d, disk))
    && Payload(c, disk) == Payload(c, After(d, disk))
    && Payload(d, disk) == Payload(d, After(c, disk))
  }

  // ---- What the file holds, as a fold over what is done ----

  function DoneInOrder(cs: seq<Command>, done: set<nat>, initial: Contents): (disk: Contents)
    requires AllInRange(cs, |initial|)
    ensures |disk| == |initial|
    decreases |cs|
  {
    if cs == [] then initial
    else
      var n := |cs| - 1;
      var disk := DoneInOrder(cs[..n], done, initial);
      if n in done then After(cs[n], disk) else disk
  }

  lemma {:induction false} LatestIsDone(cs: seq<Command>, done: set<nat>, initial: Contents, p: nat)
    requires AllInRange(cs, |initial|) && p < |initial|
    ensures DoneInOrder(cs, done, initial)[p] == LatestByte(cs, done, initial, p)
    decreases |cs|
  {
    if cs != [] {
      LatestIsDone(cs[..|cs| - 1], done, initial, p);
    }
  }

  lemma FoldOfOne(c: Command, done: set<nat>, initial: Contents)
    requires InRange(c, |initial|)
    ensures DoneInOrder([c], done, initial) == if 0 in done then After(c, initial) else initial
    ensures Run([c][..0], initial) == initial
  {
    hide After;
    assert [c][..0] == [];
  }

  lemma FoldOfTwo(c: Command, d: Command, done: set<nat>, initial: Contents)
    requires InRange(c, |initial|) && InRange(d, |initial|)
    ensures var first := if 0 in done then After(c, initial) else initial;
            DoneInOrder([c, d], done, initial) == if 1 in done then After(d, first) else first
    ensures Run([c, d][..0], initial) == initial && Run([c, d][..1], initial) == After(c, initial)
    ensures Run([c, d], initial) == After(d, After(c, initial))
  {
    hide After;
    FoldOfOne(c, done, initial);
    assert [c, d][..0] == [] && [c, d][..1] == [c] && [c, d][1..] == [d];
    assert Run([c], initial) == After(c, initial);
    assert Run([d], After(c, initial)) == After(d, After(c, initial));
  }

  // ---- Commuting commands do no harm ----

  lemma FoldIsHarmless(cs: seq<Command>, done: set<nat>, initial: Contents, i: nat)
    requires i < |cs| && AllInRange(cs, |initial|)
    requires cs[i].Read? ==> Payload(cs[i], DoneInOrder(cs, done, initial)) == InOrder(cs, initial, i)
    requires cs[i].Write? ==> After(cs[i], DoneInOrder(cs, done, initial)) == DoneInOrder(cs, done + {i}, initial)
    ensures Harmless(cs, done, initial, i)
  {
    hide LatestByte, DoneInOrder, InOrder;
    forall p: nat | p < |initial|
      ensures DoneInOrder(cs, done, initial)[p] == LatestByte(cs, done, initial, p)
      ensures DoneInOrder(cs, done + {i}, initial)[p] == LatestByte(cs, done + {i}, initial, p)
    {
      LatestIsDone(cs, done, initial, p);
      LatestIsDone(cs, done + {i}, initial, p);
    }
  }

  lemma OneIsHarmless(c: Command, done: set<nat>, initial: Contents)
    requires InRange(c, |initial|) && 0 !in done
    ensures Harmless([c], done, initial, 0)
  {
    hide DoneInOrder, Run, After, Payload, Harmless;
    FoldOfOne(c, done, initial);
    FoldOfOne(c, done + {0}, initial);
    FoldIsHarmless([c], done, initial, 0);
  }

  lemma TwoAreHarmless(c: Command, d: Command, done: set<nat>, initial: Contents, i: nat)
    requires InRange(c, |initial|) && InRange(d, |initial|) && Commute(c, d, initial)
    requires i < 2 && i !in done
    ensures Harmless([c, d], done, initial, i)
  {
    hide DoneInOrder, Run, After, Payload, Harmless;
    FoldOfTwo(c, d, done, initial);
    FoldOfTwo(c, d, done + {i}, initial);
    FoldIsHarmless([c, d], done, initial, i);
  }

  lemma PairIsHarmless(s: State, c: Command, d: Command)
    requires InStep(s) && Settled(s, 0) && Midway(s, 0) && s.commands <= [c, d]
    requires InRange(c, |s.initial|) && InRange(d, |s.initial|) && Commute(c, d, s.initial)
    ensures HandlesHarmlessly(s, 0)
  {
    hide InStep, Buffered, DiskSettled, Harmless, Commute;
    var i, done := s.workers[0].id, Applied(s, 0);
    HeldIsWhole(s, 0);
    AppliedParts(s);
    AppliedIsAccepted(s, 0);
    if |s.commands| == 1 {
      assert s.commands == [c];
      OneIsHarmless(c, done, s.initial);
    } else {
      assert s.commands == [c, d];
      TwoAreHarmless(c, d, done, s.initial, i);
    }
  }

  lemma {:induction false} CommutingRunSettles(states: seq<State>, acts: seq<Action>, c: Command, d: Command, handlers: map<u32, Handler>, disk: Contents)
    requires IsExecution(states, acts) && Initial(states[0], handlers, disk, {0}) && RightHandlers(handlers)
    requires InRange(c, |disk|) && InRange(d, |disk|) && Commute(c, d, disk)
    requires states[|acts|].commands <= [c, d]
    ensures InStep(states[|acts|]) && Settled(states[|acts|], 0) && states[|acts|].initial == disk
    decreases |acts|
  {
    hide InStep, Settled, Next, Initial, RightHandlers, Commute, HandlesHarmlessly, InRange, Midway;
    if acts == [] {
      InitiallyInStep(states[0], handlers, disk, {0});
      InitiallySettled(states[0], handlers, disk);
    } else {
      var m := |acts| - 1;
      CommandsOnlyGrow(states[m], acts[m], states[m + 1]);
      CommutingRunSettles(states[..m + 1], acts[..m], c, d, handlers, disk);
      if acts[m].Transfer? {
        TransferIsMidway(states[m], 0, acts[m], states[m + 1]);
        PairIsHarmless(states[m], c, d);
      }
      StepKeepsInStep(states[m], acts[m], states[m + 1]);
      StepKeepsSettled(states[m], 0, acts[m], states[m + 1]);
      InitialStays(states[m], acts[m], states[m + 1]);
    }
  }

  // ---- The swapped run ----

  /** Both outstanding, the queue may hand out the second first. */
  lemma SwappedRun(c: Command, d: Command, disk: Contents) returns (s: State)
    requires c.handle != d.handle && Sendable(c, |disk|) && Sendable(d, |disk|)
    ensures InRange(c, |disk|) && InRange(d, |disk|)
    ensures Reached(s, disk) && s.commands == [c, d] && AtRest(s, 0)
    ensures s.disk == After(c, After(d, disk))
    ensures s.frames == [Frame(1, d.handle, Payload(d, disk)), Frame(0, c.handle, Payload(c, After(d, disk)))]
  {
    hide Reached, After, Payload, Buffer, Sendable, InRange;
    var cs := [c, d];
    TogetherInRange(cs, |disk|);
    assert InRange(cs[0], |disk|) && InRange(cs[1], |disk|);
    TwoBelow();
    var s0 := AllQueued(cs, disk);
    var s1 := Serve(s0, 1, cs, disk);
    s := Serve(s1, 0, cs, disk);
  }

  lemma TwoBelow()
    ensures Below(2) == {0, 1}
  {
  }

  // ---- The exact condition ----

  lemma CommutingPairInOrder(s: State, c: Command, d: Command, disk: Contents)
    requires InRange(c, |disk|) && InRange(d, |disk|) && Commute(c, d, disk)
    requires Reached(s, disk) && s.commands == [c, d]
    ensures InOrderSoFar(s, disk)
  {
    hide Commute, Initial, Next, InStep, Settled, InOrderSoFar;
    var states, acts :| IsExecution(states, acts) && Initial(states[0], HANDLERS, disk, {0}) && s == states[|acts|];
    CommutingRunSettles(states, acts, c, d, HANDLERS, disk);
    SettledInOrder(s, disk);
  }

  lemma SwapShowsDifference(c: Command, d: Command, disk: Contents)
    requires c.handle != d.handle && Sendable(c, |disk|) && Sendable(d, |disk|)
    ensures InRange(c, |disk|) && InRange(d, |disk|)
    ensures AlwaysInOrder([c, d], disk) ==> Commute(c, d, disk)
  {
    hide Reached, Sendable, After, Payload, Run;
    var s := SwappedRun(c, d, disk);
    if AlwaysInOrder([c, d], disk) {
      FoldOfTwo(c, d, {}, disk);
      assert InOrderSoFar(s, disk);
      assert s.frames[0].payload == InOrder([c, d], disk, 1);
      assert s.frames[1].payload == InOrder([c, d], disk, 0);
    }
  }

  /** Two requests with distinct handles, so that they may be outstanding
      together: every reply and the resting file are those of arrival order in
      all runs if and only if the two commute on the file they find. */
  lemma PairInOrderExactlyWhen(c: Command, d: Command, disk: Contents)
    requires c.handle != d.handle && Sendable(c, |disk|) && Sendable(d, |disk|)
    ensures InRange(c, |disk|) && InRange(d, |disk|)
    ensures AlwaysInOrder([c, d], disk) <==> Commute(c, d, disk)
  {
    hide Reached, Sendable, Commute, InOrderSoFar;
    SwapShowsDifference(c, d, disk);
    if Commute(c, d, disk) {
      forall s | Reached(s, disk) && s.commands == [c, d] ensures InOrderSoFar(s, disk) {
        CommutingPairInOrder(s, c, d, disk);
      }
    }
  }

  // ---- What a client can check ----

  ghost predicate CommuteOnAll(c: Command, d: Command, size: nat)
    requires InRange(c, size) && InRange(d, size)
  {
    forall disk: Contents :: |disk| == size ==> Commute(c, d, disk)
  }

  lemma NoConflictCommutes(c: Command, d: Command, disk: Contents)
    requires InRange(c, |disk|) && InRange(d, |disk|)
    requires (c.Read? || c.Write?) && (d.Read? || d.Write?)
    requires !Clash(c, d)
    ensures Commute(c, d, disk)
  {
    if c.Write? && d.Write? {
      WritesCommute(c, d, disk);
    } else if c.Write? {
      ReadUndisturbed(d, c, disk);
    } else if d.Write? {
      ReadUndisturbed(c, d, disk);
    }
  }

  lemma WritesCommute(c: Command, d: Command, disk: Contents)
    requires InRange(c, |disk|) && InRange(d, |disk|) && c.Write? && d.Write? && !Clash(c, d)
    ensures After(d, After(c, disk)) == After(c, After(d, disk))
  {
    hide After, InRange, Clash;
    var afterC, afterD := After(c, disk), After(d, disk);
    var one, other := After(d, afterC), After(c, afterD);
    forall p: nat | p < |disk| ensures one[p] == other[p] {
      ByteAfter(c, disk, p);
      ByteAfter(d, disk, p);
      ByteAfter(d, afterC, p);
      ByteAfter(c, afterD, p);
      if Covers(c, p) && Covers(d, p) {
        SharedByte(c, d, p);
      }
    }
  }

  lemma ReadUndisturbed(r: Command, w: Command, disk: Contents)
    requires InRange(r, |disk|) && InRange(w, |disk|) && r.Read? && w.Write? && !Conflict(r, w)
    ensures Payload(r, disk) == Payload(r, After(w, disk))
  {
    var one, other := Payload(r, disk), Payload(r, After(w, disk));
    forall k: nat | k < r.len ensures one[k] == other[k] {
      assert !Covers(w, r.from + k);
    }
  }

  lemma ReadDisturbed(r: Command, w: Command, disk: Contents, p: nat)
    requires InRange(r, |disk|) && InRange(w, |disk|) && r.Read? && w.Write?
    requires Covers(w, p) && r.from <= p < r.from + r.len && w.data[p - w.from] != disk[p]
    ensures Payload(r, disk) != Payload(r, After(w, disk))
  {
    assert Payload(r, disk)[p - r.from] == disk[p];
    assert Payload(r, After(w, disk))[p - r.from] == w.data[p - w.from];
  }

  lemma DisagreementShows(c: Command, d: Command, disk: Contents, p: nat)
    requires InRange(c, |disk|) && InRange(d, |disk|) && c.Write? && d.Write?
    requires Covers(c, p) && Covers(d, p) && c.data[p - c.from] != d.data[p - d.from]
    ensures After(d, After(c, disk)) != After(c, After(d, disk))
  {
    assert After(d, After(c, disk))[p] == d.data[p - d.from];
    assert After(c, After(d, disk))[p] == c.data[p - c.from];
  }

  /** On a file of unknown content: exactly the pairs that do not conflict, and
      writes that agree on what they share. */
  lemma CommuteExactlyWhen(c: Command, d: Command, size: nat)
    requires InRange(c, size) && InRange(d, size)
    requires (c.Read? || c.Write?) && (d.Read? || d.Write?)
    ensures CommuteOnAll(c, d, size) <==> !Clash(c, d)
  {
    hide Commute, InRange;
    if !Clash(c, d) {
      forall disk: Contents | |disk| == size ensures Commute(c, d, disk) {
        NoConflictCommutes(c, d, disk);
      }
    } else {
      var disk := ConflictShows(c, d, size);
      assert !CommuteOnAll(c, d, size);
    }
  }

  /** A file on which conflicting commands do not commute. */
  lemma ConflictShows(c: Command, d: Command, size: nat) returns (disk: Contents)
    requires InRange(c, size) && InRange(d, size)
    requires (c.Read? || c.Write?) && (d.Read? || d.Write?) && Clash(c, d)
    ensures |disk| == size && !Commute(c, d, disk)
  {
    if c.Write? && d.Write? {
      disk := seq(size, k => 0);
      var p: nat :| Covers(c, p) && Covers(d, p) && c.data[p - c.from] != d.data[p - d.from];
      DisagreementShows(c, d, disk, p);
    } else {
      var p: nat := if c.from < d.from then d.from else c.from;
      var b: byte := if c.Write? then c.data[p - c.from] else d.data[p - d.from];
      disk := seq(size, k => if b == 0 then 1 else 0);
      if c.Write? {
        ReadDisturbed(d, c, disk, p);
      } else {
        ReadDisturbed(c, d, disk, p);
      }
    }
  }

  // ---- The three ways to go wrong ----

  /** Two writes that disagree about a byte: a run ends at rest with a file that
      is not that of arrival order. */
  lemma DisagreeingWritesCanSwap(c: Command, d: Command, disk: Contents, p: nat) returns (s: State)
    requires c.Write? && d.Write? && c.handle != d.handle && Sendable(c, |disk|) && Sendable(d, |disk|)
    requires Covers(c, p) && Covers(d, p) && c.data[p - c.from] != d.data[p - d.from]
    ensures Reached(s, disk) && AtRest(s, 0)
    ensures s.commands == [c, d] && AllInRange(s.commands, |disk|) && s.disk != Run(s.commands, disk)
  {
    hide Reached, Sendable, After, Run, AtRest;
    s := SwappedRun(c, d, disk);
    FoldOfTwo(c, d, {}, disk);
    DisagreementShows(c, d, disk, p);
  }

  /** A read sent after a write of a byte it covers: the reply may still carry
      the old byte. */
  lemma ReadCanMissEarlierWrite(c: Command, d: Command, disk: Contents, p: nat) returns (s: State)
    requires c.Write? && d.Read? && c.handle != d.handle && Sendable(c, |disk|) && Sendable(d, |disk|)
    requires Covers(c, p) && d.from <= p < d.from + d.len && c.data[p - c.from] != disk[p]
    ensures Reached(s, disk) && s.commands == [c, d] && AllInRange(s.commands, |disk|)
    ensures |s.frames| > 0 && s.frames[0].id == 1 && s.frames[0].payload != InOrder(s.commands, disk, 1)
  {
    hide Reached, Sendable, After, Payload, Run, AtRest;
    s := SwappedRun(c, d, disk);
    FoldOfTwo(c, d, {}, disk);
    ReadDisturbed(d, c, disk, p);
  }

  /** A read sent before a write of a byte it covers: the reply may already
      carry the new byte. */
  lemma ReadCanSeeLaterWrite(c: Command, d: Command, disk: Contents, p: nat) returns (s: State)
    requires c.Read? && d.Write? && c.handle != d.handle && Sendable(c, |disk|) && Sendable(d, |disk|)
    requires Covers(d, p) && c.from <= p < c.from + c.len && d.data[p - d.from] != disk[p]
    ensures Reached(s, disk) && s.commands == [c, d] && AllInRange(s.commands, |disk|)
    ensures |s.frames| > 1 && s.frames[1].id == 0 && s.frames[1].payload != InOrder(s.commands, disk, 0)
  {
    hide Reached, Sendable, After, Payload, Run, AtRest;
    s := SwappedRun(c, d, disk);
    FoldOfTwo(c, d, {}, disk);
    ReadDisturbed(c, d, disk, p);
  }
}
