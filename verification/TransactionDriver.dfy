/** A run of the transaction object: any requests, each ending as the object says. */
module TransactionDrivers {
  import opened Prelude
  import opened Transaction
  import opened RepositoryTransactions
  import opened TransactionRuns

  datatype Request = ApplyRequest(changes: seq<Change>, transactionId: string) | RecoverRequest

  predicate AllReviewed(requests: seq<Request>) {
    forall i :: 0 <= i < |requests| && requests[i].ApplyRequest? ==> Reviewed(requests[i].changes)
  }

  /** Recovery of an interrupted disk is a recovery of every transaction that explains it. */
  lemma RecoveryIsACall(files: Disk, changes: seq<Change>, d: Disk, after: Disk, o: Outcome)
    requires Pending(d) && !Unreadable(d) ==> Interrupted(files, changes, d)
    requires RecoverRelation(files, d, after, o)
    ensures CallRelation(RecoverCall(o), d, after)
  {
    if Pending(d) && !Unreadable(d) {
      forall other, others | Interrupted(other, others, d) ensures RecoverRelation(other, d, after, o) {
        InterruptedDetermines(d, files, changes, other, others);
      }
    }
  }

  /** Whatever is requested and however each request ends, the disks between them are a run. */
  method Drive(t: RepositoryTransaction, requests: seq<Request>) returns (ghost disks: seq<Disk>, calls: seq<Call>)
    requires !Pending(t.disk) && AllReviewed(requests)
    modifies t
    ensures |calls| == |requests| && IsRun(disks, calls)
    ensures disks[0] == old(t.disk) && disks[|calls|] == t.disk
  {
    disks := [t.disk];
    calls := [];
    for i := 0 to |requests|
      invariant |calls| == i && IsRun(disks, calls)
      invariant disks[0] == old(t.disk) && disks[i] == t.disk
    {
      var call := Answer(t, requests[i], disks, calls);
      disks := disks + [t.disk];
      calls := calls + [call];
    }
  }

  method Answer(t: RepositoryTransaction, request: Request, ghost disks: seq<Disk>, ghost calls: seq<Call>)
    returns (c: Call)
    requires IsRun(disks, calls) && !Pending(disks[0]) && t.disk == disks[|calls|]
    requires request.ApplyRequest? ==> Reviewed(request.changes)
    modifies t
    ensures CallRelation(c, old(t.disk), t.disk)
  {
    match request
    case ApplyRequest(changes, transactionId) =>
      var o := t.Apply(changes, transactionId);
      c := ApplyCall(changes, o);
    case RecoverRequest =>
      ghost var log := RunsAreAtomic(disks, calls);
      ghost var files, changes := Replay(Visible(disks[0]), log), [];
      if Pending(t.disk) {
        ghost var pending :| Interrupted(files, pending, t.disk);
        changes := pending;
      }
      ghost var before := t.disk;
      var o := t.Recover(files, changes);
      RecoveryIsACall(files, changes, before, t.disk, o);
      c := RecoverCall(o);
  }
}
