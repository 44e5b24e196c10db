/** The replica's steps of the failover protocol, done on files: aligning and receiving on the bytes of two
    files give the logs that the protocol's steps give. */
module ReplicaSteps {
  import opened Wrappers
  import opened Framing
  import opened SegmentFile
  import opened SegmentIterator
  import opened Replication
  import Failover

  /** The file holds a node's log. A node without a file opens an empty one, which holds the empty log. */
  ghost predicate Holds(f: File, s: Failover.Segment, n: nat)
    reads f
  {
    f.Valid() && f.data == Disk(Failover.LogOf(s, n)) && |f.data| <= MAX_INT64
  }

  method AlignOnFiles(local: File, source: File, ghost s: Failover.Segment, ghost n: nat)
    requires local != source && Failover.Enabled(s, Failover.ReplicaAligns(n)) && n != s.primary
    requires Holds(local, s, n) && Holds(source, s, s.primary)
    modifies local
    ensures var s' := Failover.After(s, Failover.ReplicaAligns(n));
            Failover.CopyOf(s', n).Has? && Holds(local, s', n) && Holds(source, s', s.primary)
  {
    ghost var l, ms := Failover.LogOf(s, n), Failover.LogOf(s, s.primary);
    DiskPrefix(l, ms);
    var size := Align(local, source, ms);
  }

  /** The record received is the next one of the primary, unless the stream ends. */
  method ReceiveOnFiles(local: File, source: File, reader: Iterator, ghost s: Failover.Segment, ghost n: nat,
                        ghost e: nat)
    returns (stop: Option<SyncResult>)
    requires Failover.Enabled(s, Failover.ReplicaReceives(n)) && n != s.primary
    requires Failover.LogOf(s, n) <= Failover.LogOf(s, s.primary)
    requires Holds(local, s, n) && Holds(source, s, s.primary)
    requires var ms := Failover.LogOf(s, s.primary);
             && Wired(local, source, reader, ms, ms)
             && InStep(local, source, reader, ms, |Failover.LogOf(s, n)|, e)
    modifies local, reader
    ensures stop.None? ==>
      var s' := Failover.After(s, Failover.ReplicaReceives(n));
      local.data == Disk(Failover.LogOf(s', n)) && Holds(source, s', s.primary)
    ensures stop.Some? ==> stop.value == Completed && !reader.wait && local.State() == old(local.State())
  {
    ghost var l, ms := Failover.LogOf(s, n), Failover.LogOf(s, s.primary);
    ghost var i', e';
    stop, i', e' := ReceiveNext(local, source, reader, true, ms, ms, |l|, e);
    assert ms[..|l| + 1] == l + [ms[|l|]];
  }
}
