/** What holds in every reachable state of the pipeline, with any number of
    workers. */
module PipelineTheorems {
  import opened Bytes
  import opened Wire
  import opened Disk
  import opened Pipeline
  import opened PipelineSafety

  ghost predicate Reachable(s: State, handlers: map<u32, Handler>, disk: Contents, tids: set<Tid>)
  {
    exists states, acts :: IsExecution(states, acts) && Initial(states[0], handlers, disk, tids) && s == states[|acts|]
  }

  lemma ReachableInStep(s: State, handlers: map<u32, Handler>, disk: Contents, tids: set<Tid>)
    requires Reachable(s, handlers, disk, tids)
    ensures InStep(s)
  {
    hide InStep, Initial, Next;
    var states, acts :| IsExecution(states, acts) && Initial(states[0], handlers, disk, tids) && s == states[|acts|];
    RunKeepsInStep(states, acts, handlers, disk, tids);
  }

  /** The bytes on the socket are complete frames, then a proper part of one
      more, which belongs to the worker that holds the mutex. */
  lemma SocketCarriesWholeFrames(s: State, handlers: map<u32, Handler>, disk: Contents, tids: set<Tid>)
    returns (rest: seq<byte>)
    requires Reachable(s, handlers, disk, tids)
    ensures s.outgoing == Stream(s.frames) + rest
    ensures s.mutex.Free? ==> rest == []
    ensures s.mutex.HeldBy? ==>
              && s.mutex.w in s.workers && s.workers[s.mutex.w].Sending?
              && var id := s.workers[s.mutex.w].id;
                 id < |s.commands| && id in s.heap && rest < FrameBytes(FrameOf(s, id))
  {
    hide Reachable, Stream, FrameBytes, Accounted, Sized, Answered, Synchronised;
    ReachableInStep(s, handlers, disk, tids);
    rest := [];
    if s.mutex.HeldBy? {
      var Sending(id, sent) := s.workers[s.mutex.w];
      assert PartlySent(s, id, sent);
      var f := FrameOf(s, id);
      FrameIsWhole(f);
      if sent < |FrameBytes(f)| {
        rest := FrameBytes(f)[..sent];
      }
    }
  }

  /** Every accepted request is queued, in exactly one worker's hands, or
      finished; its object is live exactly until it is finished, is deleted once,
      and the finished are replied to once, with their own handle. */
  lemma EachRequestOnce(s: State, handlers: map<u32, Handler>, disk: Contents, tids: set<Tid>, id: nat)
    requires Reachable(s, handlers, disk, tids)
    ensures id < s.accepted <==> id in s.queue || id in Ids(s.workers) || id in s.freed
    ensures !(id in s.queue && id in Ids(s.workers)) && !(id in s.queue && id in s.freed)
    ensures !(id in Ids(s.workers) && id in s.freed)
    ensures Distinct(s.workers)
    ensures id in s.heap <==> id < s.accepted && id !in s.freed
    ensures multiset(s.freed)[id] <= 1
    ensures id in s.freed ==> id < |s.commands|
                              && exists k :: 0 <= k < |s.frames| && s.frames[k].id == id && s.frames[k].handle == s.commands[id].handle
    ensures forall j, k :: 0 <= j < k < |s.frames| ==> s.frames[j].id != s.frames[k].id
  {
    hide Reachable, Stream, FrameBytes, Sized, Synchronised, PayloadSize;
    ReachableInStep(s, handlers, disk, tids);
    assert id in s.freed <==> id in SetOf(s.freed);
    CountOnce(s.freed, id);
    if id in s.freed {
      var k :| 0 <= k < |s.freed| && s.freed[k] == id;
      assert s.frames[k].id == id;
    }
  }

  lemma {:induction false} CountOnce(ids: seq<nat>, id: nat)
    requires NoTwice(ids)
    ensures multiset(ids)[id] <= 1
    decreases |ids|
  {
    if ids != [] {
      var n := |ids| - 1;
      CountOnce(ids[..n], id);
      assert ids == ids[..n] + [ids[n]];
      if ids[n] == id {
        assert id !in ids[..n];
      }
    }
  }
}
