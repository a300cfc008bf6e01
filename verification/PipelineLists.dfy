/** Any number of requests outstanding together: exactly when the pipeline of a
    lone worker is in order on every file. */
module PipelineLists {
  import opened Bytes
  import opened Wire
  import opened Disk
  import opened Pipeline
  import opened PipelineSafety
  import opened PipelineOrder
  import opened PipelineRuns

  /** No two of them clash. */
  ghost predicate NoClash(cs: seq<Command>)
  {
    forall i, j :: 0 <= i < j < |cs| ==> !Clash(cs[i], cs[j])
  }

  ghost predicate InOrderOnAll(cs: seq<Command>, size: nat)
    requires AllInRange(cs, size)
  {
    forall disk: Contents :: |disk| == size ==> AlwaysInOrder(cs, disk)
  }

  // ---- Enough ----

  lemma PrefixIsSeparate(s: State, cs: seq<Command>)
    requires s.commands <= cs && NoClash(cs)
    ensures Separate(s)
  {
    hide Clash;
    forall i: nat, j: nat | i < j < |s.commands| ensures !Clash(s.commands[i], s.commands[j]) {
      assert s.commands[i] == cs[i] && s.commands[j] == cs[j];
    }
  }

  lemma {:induction false} RunWithoutClash(states: seq<State>, acts: seq<Action>, cs: seq<Command>, disk: Contents)
    requires IsExecution(states, acts) && Initial(states[0], HANDLERS, disk, {0})
    requires NoClash(cs) && states[|acts|].commands <= cs
    ensures InStep(states[|acts|]) && Settled(states[|acts|], 0) && states[|acts|].initial == disk
    decreases |acts|
  {
    hide InStep, Settled, Separate, Next, Initial, HandlesHarmlessly, NoClash, Midway;
    if acts == [] {
      InitiallyInStep(states[0], HANDLERS, disk, {0});
      InitiallySettled(states[0], HANDLERS, disk);
    } else {
      var m := |acts| - 1;
      CommandsOnlyGrow(states[m], acts[m], states[m + 1]);
      RunWithoutClash(states[..m + 1], acts[..m], cs, disk);
      if acts[m].Transfer? {
        TransferIsMidway(states[m], 0, acts[m], states[m + 1]);
        PrefixIsSeparate(states[m], cs);
        SeparateIsHarmless(states[m], 0);
      }
      StepKeepsInStep(states[m], acts[m], states[m + 1]);
      StepKeepsSettled(states[m], 0, acts[m], states[m + 1]);
      InitialStays(states[m], acts[m], states[m + 1]);
    }
  }

  lemma NoClashInOrder(s: State, cs: seq<Command>, disk: Contents)
    requires AllInRange(cs, |disk|) && NoClash(cs) && Reached(s, disk) && s.commands == cs
    ensures InOrderSoFar(s, disk)
  {
    hide NoClash, Initial, Next, InStep, Settled, InOrderSoFar;
    var states, acts :| IsExecution(states, acts) && Initial(states[0], HANDLERS, disk, {0}) && s == states[|acts|];
    RunWithoutClash(states, acts, cs, disk);
    SettledInOrder(s, disk);
  }

  // ---- Needed: two writes that disagree ----

  /** A run in which command i is carried out last. */
  lemma ServedLast(cs: seq<Command>, i: nat, disk: Contents) returns (s: State)
    requires Together(cs, |disk|) && i < |cs|
    ensures Reached(s, disk) && s.commands == cs && AtRest(s, 0) && |s.disk| == |disk|
    ensures forall p: nat :: p < |disk| && Covers(cs[i], p) ==> s.disk[p] == cs[i].data[p - cs[i].from]
  {
    hide Reached, Buffer, Payload, Sendable;
    var s0 := AllQueued(cs, disk);
    var s1 := ServeAllBut(s0, i, cs, disk);
    s := Serve(s1, i, cs, disk);
  }

  lemma WritesShow(cs: seq<Command>, i: nat, j: nat, p: nat, size: nat)
    requires Together(cs, size) && i < j < |cs| && p < size && Covers(cs[i], p) && Covers(cs[j], p)
    requires cs[i].data[p - cs[i].from] != cs[j].data[p - cs[j].from]
    ensures AllInRange(cs, size) && !InOrderOnAll(cs, size)
  {
    hide Reached, Sendable, Run;
    TogetherInRange(cs, size);
    var disk: Contents := seq(size, k => 0);
    var s1 := ServedLast(cs, i, disk);
    var s2 := ServedLast(cs, j, disk);
    assert s1.disk[p] != s2.disk[p];
    assert !InOrderSoFar(s1, disk) || !InOrderSoFar(s2, disk);
    assert !AlwaysInOrder(cs, disk);
  }

  // ---- Needed: a read and a write ----

  lemma {:induction false} LatestIgnoresDisk(cs: seq<Command>, done: set<nat>, disk: Contents, disk': Contents, p: nat, k: nat)
    requires k < |cs| && k in done && Covers(cs[k], p) && p < |disk| == |disk'|
    ensures LatestByte(cs, done, disk, p) == LatestByte(cs, done, disk', p)
    decreases |cs|
  {
    var n := |cs| - 1;
    if !(n in done && Covers(cs[n], p)) {
      LatestIgnoresDisk(cs[..n], done, disk, disk', p, k);
    }
  }

  function Filled(size: nat, b: byte): (disk: Contents)
    ensures |disk| == size
  {
    seq(size, k => b)
  }

  /** A read of a byte that an earlier write covers, served before everything. */
  lemma ReadShowsEarlierWrite(cs: seq<Command>, w: nat, r: nat, p: nat, size: nat)
    requires Together(cs, size) && w < r < |cs| && p < size && Covers(cs[w], p)
    requires cs[r].Read? && cs[r].from <= p < cs[r].from + cs[r].len
    ensures AllInRange(cs, size) && !InOrderOnAll(cs, size)
  {
    hide Reached, Sendable, Buffer, Run, LatestByte, After, Payload;
    TogetherInRange(cs, size);
    var before, k := cs[..r], p - cs[r].from;
    var b := LatestByte(before, Below(r), Filled(size, 0), p);
    var disk := Filled(size, if b == 0 then 1 else 0);
    LatestIgnoresDisk(before, Below(r), Filled(size, 0), disk, p, w);
    PayloadHoldsLatest(before, cs[r], Below(r), disk, k);
    var s0 := AllQueued(cs, disk);
    var s := Serve(s0, r, cs, disk);
    ByteRead(cs[r], disk, k);
    ByteRead(cs[r], Run(before, disk), k);
    assert s.frames[0].payload[k] != InOrder(cs, disk, r)[k];
    assert !InOrderSoFar(s, disk);
    assert !AlwaysInOrder(cs, disk);
  }

  /** A read of a byte that a later write covers and no earlier one does, served
      after it. */
  lemma ReadShowsLaterWrite(cs: seq<Command>, r: nat, w: nat, p: nat, size: nat)
    requires Together(cs, size) && r < w < |cs| && p < size && Covers(cs[w], p)
    requires cs[r].Read? && cs[r].from <= p < cs[r].from + cs[r].len
    requires forall k: nat :: k < r ==> !Covers(cs[k], p)
    ensures AllInRange(cs, size) && !InOrderOnAll(cs, size)
  {
    hide Reached, Together, InOrderSoFar, InOrder;
    TogetherInRange(cs, size);
    var k, b := p - cs[r].from, cs[w].data[p - cs[w].from];
    var disk := Filled(size, if b == 0 then 1 else 0);
    UnwrittenInOrder(cs, r, p, disk);
    var s := ServedAfter(cs, r, w, p, disk);
    SecondFrameWrong(s, cs, r, k, disk);
    assert !AlwaysInOrder(cs, disk);
  }

  /** Nothing before it writes the byte: in arrival order the read sees the
      file's own. */
  lemma UnwrittenInOrder(cs: seq<Command>, r: nat, p: nat, disk: Contents)
    requires AllInRange(cs, |disk|) && r < |cs| && p < |disk|
    requires cs[r].Read? && cs[r].from <= p < cs[r].from + cs[r].len
    requires forall k: nat :: k < r ==> !Covers(cs[k], p)
    ensures |InOrder(cs, disk, r)| == cs[r].len && InOrder(cs, disk, r)[p - cs[r].from] == disk[p]
  {
    hide Run, LatestByte, Covers;
    var before, k := cs[..r], p - cs[r].from;
    NothingLatest(before, Below(r), disk, p);
    PayloadHoldsLatest(before, cs[r], Below(r), disk, k);
    ByteRead(cs[r], Run(before, disk), k);
  }

  /** The write served, and then the read. */
  lemma ServedAfter(cs: seq<Command>, r: nat, w: nat, p: nat, disk: Contents) returns (s: State)
    requires Together(cs, |disk|) && r < w < |cs| && p < |disk| && Covers(cs[w], p)
    requires cs[r].Read? && cs[r].from <= p < cs[r].from + cs[r].len
    ensures Reached(s, disk) && s.commands == cs && |s.frames| > 1 && s.frames[1].id == r
    ensures |s.frames[1].payload| == cs[r].len
    ensures s.frames[1].payload[p - cs[r].from] == cs[w].data[p - cs[w].from]
  {
    hide Reached, Sendable, Buffer, After, Payload;
    var s0 := AllQueued(cs, disk);
    var s1 := Serve(s0, w, cs, disk);
    ByteAfter(cs[w], disk, p);
    s := Serve(s1, r, cs, disk);
    ByteRead(cs[r], s1.disk, p - cs[r].from);
  }

  lemma SecondFrameWrong(s: State, cs: seq<Command>, r: nat, k: nat, disk: Contents)
    requires s.commands == cs && AllInRange(cs, |disk|) && r < |cs| && |s.frames| > 1 && s.frames[1].id == r
    requires k < |s.frames[1].payload| && k < |InOrder(cs, disk, r)|
    requires s.frames[1].payload[k] != InOrder(cs, disk, r)[k]
    ensures !InOrderSoFar(s, disk)
  {
    hide InOrder;
    assert s.frames[1].payload != InOrder(cs, disk, r);
  }

  lemma {:induction false} NothingLatest(cs: seq<Command>, done: set<nat>, disk: Contents, p: nat)
    requires p < |disk| && forall k: nat :: k < |cs| ==> !Covers(cs[k], p)
    ensures LatestByte(cs, done, disk, p) == disk[p]
    decreases |cs|
  {
    if cs != [] {
      NothingLatest(cs[..|cs| - 1], done, disk, p);
    }
  }

  lemma ReadWriteShows(cs: seq<Command>, i: nat, j: nat, size: nat)
    requires Together(cs, size) && i < j < |cs| && Conflict(cs[i], cs[j]) && (cs[i].Read? || cs[j].Read?)
    ensures AllInRange(cs, size) && !InOrderOnAll(cs, size)
  {
    hide InOrderOnAll, Sendable;
    var c, d := cs[i], cs[j];
    var p: nat := if c.from < d.from then d.from else c.from;
    TogetherInRange(cs, size);
    if d.Read? {
      ReadShowsEarlierWrite(cs, i, j, p, size);
    } else if k: nat :| k < i && Covers(cs[k], p) {
      ReadShowsEarlierWrite(cs, k, i, p, size);
    } else {
      ReadShowsLaterWrite(cs, i, j, p, size);
    }
  }

  lemma ClashShows(cs: seq<Command>, i: nat, j: nat, size: nat)
    requires Together(cs, size) && i < j < |cs| && Clash(cs[i], cs[j])
    ensures AllInRange(cs, size) && !InOrderOnAll(cs, size)
  {
    hide InOrderOnAll;
    TogetherInRange(cs, size);
    if cs[i].Write? && cs[j].Write? {
      var p: nat :| Covers(cs[i], p) && Covers(cs[j], p)
                    && cs[i].data[p - cs[i].from] != cs[j].data[p - cs[j].from];
      WritesShow(cs, i, j, p, size);
    } else {
      ReadWriteShows(cs, i, j, size);
    }
  }

  // ---- The exact condition ----

  /** Any list of requests with distinct handles, so that all may be outstanding
      together: on every file of the size and in every run of a lone worker the
      replies and the resting file are those of arrival order, if and only if no
      two of the requests clash. */
  lemma ListInOrderExactlyWhen(cs: seq<Command>, size: nat)
    requires Together(cs, size)
    ensures AllInRange(cs, size)
    ensures InOrderOnAll(cs, size) <==> NoClash(cs)
  {
    hide Together, Reached, InOrderSoFar, Clash;
    TogetherInRange(cs, size);
    if NoClash(cs) {
      forall disk: Contents, s | |disk| == size && Reached(s, disk) && s.commands == cs ensures InOrderSoFar(s, disk) {
        NoClashInOrder(s, cs, disk);
      }
      forall disk: Contents | |disk| == size ensures AlwaysInOrder(cs, disk) {
      }
    } else {
      var i, j :| 0 <= i < j < |cs| && Clash(cs[i], cs[j]);
      ClashShows(cs, i, j, size);
    }
  }
}
