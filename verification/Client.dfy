/** The TypeScript client's frame handlers, tied to the replica steps of the protocol. */
module Client {
  import opened Basics
  import opened Json
  import opened Delta
  import opened Wire
  import opened ApplyImpl
  import opened Protocol

  datatype WatchEntry = WatchEntry(version: nat, value: Value, initialized: bool, callbacks: nat)

  datatype Request = SendWatch | SendResume(since: nat)

  predicate RemovesRoot(op: RawOp) {
    op.kind == "REMOVE" && op.path == "/"
  }

  /** A watched key as seen through one stream id. */
  function ReplicaOf(e: WatchEntry, bound: bool): Replica {
    Replica(bound, e.value, e.initialized, e.version)
  }

  class SodpClient {
    var watches: map<string, WatchEntry>
    var streamToKey: map<nat, string>

    predicate Bound(stream: nat, key: string)
      reads this
    {
      stream in streamToKey && streamToKey[stream] == key
    }

    /** `onStateInit`: unknown keys are ignored; otherwise the stream is bound and the entry replaced. */
    method OnStateInit(stream: nat, key: string, version: nat, slot: Slot)
      modifies this
      ensures key !in old(watches) ==> watches == old(watches) && streamToKey == old(streamToKey)
      ensures key in old(watches) ==>
        && watches.Keys == old(watches.Keys) && streamToKey == old(streamToKey)[stream := key]
        && ReplicaOf(watches[key], Bound(stream, key))
           == OnFrame(key, ReplicaOf(old(watches)[key], old(Bound(stream, key))), InitFrame(version, slot))
        && watches[key].version == version && watches[key].value == Visible(slot) && watches[key].initialized == slot.Present?
        && watches[key].callbacks == old(watches)[key].callbacks
        && forall k | k in watches && k != key :: watches[k] == old(watches)[k]
    {
      if key !in watches {
        return;
      }
      streamToKey := streamToKey[stream := key];
      watches := watches[key := WatchEntry(version, Visible(slot), slot.Present?, watches[key].callbacks)];
    }

    /** `onDelta`: dropped unless the stream is bound to a watched key; the empty key counts as
        unbound. An unknown op kind raises before anything is stored. */
    method OnDelta(stream: nat, version: nat, ops: seq<RawOp>) returns (raised: bool)
      modifies this`watches
      ensures stream !in streamToKey || streamToKey[stream] !in old(watches) || streamToKey[stream] == "" ==>
        watches == old(watches) && !raised
      ensures raised ==> watches == old(watches)
      ensures stream in streamToKey && streamToKey[stream] in old(watches) ==>
        var key := streamToKey[stream];
        && (raised <==> key != "" && exists i | 0 <= i < |ops| :: !Known(ops[i]))
        && (!raised && (forall i | 0 <= i < |ops| :: Known(ops[i])) ==>
              && watches.Keys == old(watches.Keys)
              && ReplicaOf(watches[key], true) == OnFrame(key, ReplicaOf(old(watches)[key], true), DeltaFrame(version, ToOps(ops)))
              && watches[key].callbacks == old(watches)[key].callbacks
              && forall k | k in watches && k != key :: watches[k] == old(watches)[k])
        && (!raised && key != "" ==>
              && watches[key].version == version && watches[key].value == Receive(old(watches)[key].value, ToOps(ops))
              && watches[key].initialized == !(exists i | 0 <= i < |ops| :: RemovesRoot(ops[i])))
    {
      raised := false;
      if stream !in streamToKey || streamToKey[stream] == "" || streamToKey[stream] !in watches {
        return;
      }
      var key := streamToKey[stream];
      var e := watches[key];
      var value := ApplyFrame(e.value, ops);
      if value.None? {
        return true;
      }
      var deleted := exists i | 0 <= i < |ops| :: RemovesRoot(ops[i]);
      RootRemoves(ops);
      watches := watches[key := WatchEntry(version, value.value, !deleted, e.callbacks)];
    }

    /** `onDisconnect`: streams are forgotten, cached values are kept. */
    method OnDisconnect()
      modifies this`streamToKey
      ensures streamToKey == map[]
    {
      streamToKey := map[];
    }

    /** `onReady`: every key somebody still watches is asked for again, by RESUME once a version is known. */
    method OnReady() returns (requests: map<string, Request>)
      ensures requests.Keys == set k | k in watches && watches[k].callbacks > 0
      ensures forall k | k in requests ::
        requests[k] == if watches[k].version > 0 then SendResume(watches[k].version) else SendWatch
    {
      requests := map[];
      var todo := watches.Keys;
      while todo != {}
        invariant todo <= watches.Keys
        invariant requests.Keys == set k | k in watches && k !in todo && watches[k].callbacks > 0
        invariant forall k | k in requests ::
          requests[k] == if watches[k].version > 0 then SendResume(watches[k].version) else SendWatch
        decreases todo
      {
        var k :| k in todo;
        todo := todo - {k};
        if watches[k].callbacks > 0 {
          requests := requests[k := if watches[k].version > 0 then SendResume(watches[k].version) else SendWatch];
        }
      }
    }
  }

  lemma RootRemoves(ops: seq<RawOp>)
    requires forall i | 0 <= i < |ops| :: Known(ops[i])
    ensures (exists i | 0 <= i < |ops| :: RemovesRoot(ops[i]))
       <==> (exists i | 0 <= i < |ToOps(ops)| :: IsRootRemove(ToOps(ops)[i]))
  {
    assert forall i | 0 <= i < |ops| :: RemovesRoot(ops[i]) <==> IsRootRemove(ToOps(ops)[i]);
  }
}
