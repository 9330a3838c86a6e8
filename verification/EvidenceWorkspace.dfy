/** The private copy in which checks run, and the session that keeps or removes it.  The files of
    a job are fields; what the operating system does in a call is a parameter of the call. */
module EvidenceWorkspace {
  import opened Wrappers

  datatype Status = Active | Publishing | Completed | Interrupted | PublicationFailed | FailedStatus | CleanupFailed

  predicate Open(status: Status) {
    status == Active || status == Publishing
  }

  /** How the system answers: identities found, signals seen, and which effects succeed. */
  datatype Os = Os(cancelled: bool, ownerIntact: bool, directoryIntact: bool, writes: bool,
                   markerCreated: bool, markerSynced: bool, workRemoved: bool, jobRemoved: bool, markerRemoved: bool)

  class Workspace {
    var status: Status
    /** The status that the lifecycle file on disk holds. */
    var saved: Status
    var completedMarker: bool
    var workExists: bool
    var jobExists: bool
    var closed: bool

    ghost predicate Retained()
      reads this
    {
      workExists && jobExists
    }

    constructor ()
      ensures status == saved == Active && Retained() && !completedMarker && !closed
    {
      status, saved := Active, Active;
      workExists, jobExists := true, true;
      completedMarker, closed := false, false;
    }

    /** The status changes in memory first; the file follows only under the same owner. */
    method SetStatus(to: Status, os: Os) returns (ok: bool)
      modifies this`status, this`saved
      ensures status == to && (ok <==> os.ownerIntact && os.writes)
      ensures saved == if ok then to else old(saved)
    {
      status := to;
      ok := os.ownerIntact && os.writes;
      if ok {
        saved := to;
      }
    }

    method Failed(os: Os) returns (ok: bool)
      modifies this`status, this`saved
      ensures status == if os.cancelled then Interrupted
                        else if old(status) == Publishing then PublicationFailed else FailedStatus
      ensures (ok <==> os.ownerIntact && os.writes) && saved == if ok then status else old(saved)
    {
      var state := if os.cancelled then Interrupted
                   else if status == Publishing then PublicationFailed
                   else FailedStatus;
      ok := SetStatus(state, os);
    }

    /** The destructor: an open job that was not closed is marked as failed and kept. */
    method Drop(os: Os)
      modifies this`status, this`saved
      ensures !Open(status) || closed
      ensures closed ==> status == old(status) && saved == old(saved)
      ensures !Open(old(status)) ==> status == old(status) && saved == old(saved)
    {
      if closed {
        return;
      }
      if Open(status) {
        var _ := Failed(os);
      }
    }

    method Preserve(os: Os) returns (ok: bool)
      requires !closed
      modifies this`status, this`saved, this`closed
      ensures !Open(status)
      ensures ok <==> !Open(old(status)) || (os.ownerIntact && os.writes)
      ensures closed == ok
    {
      if Open(status) {
        ok := Failed(os);
        if !ok {
          Drop(os);
          return;
        }
      }
      closed := true;
      ok := true;
    }

    /** What must hold for the completion marker to be written. */
    static predicate Markable(status: Status, os: Os) {
      && !os.cancelled && Open(status) && os.ownerIntact && os.directoryIntact
      && os.writes && os.markerCreated
    }

    /** What must hold for a job to be removed. */
    static predicate Removable(status: Status, os: Os) {
      Markable(status, os) && os.markerSynced
    }

    /** A job that stays keeps the marker exactly when it was written and then could not be saved, or
        when neither the job nor the marker could be removed. */
    static predicate MarkerStays(status: Status, os: Os) {
      Markable(status, os) && !(os.markerSynced && os.markerRemoved)
    }

    /** Removes the job, or leaves it for diagnosis with a status that is not open.  The copy is
        lost without success in one case only: it was removed and then the job root was not. */
    method Close(os: Os) returns (ok: bool)
      requires Retained() && !closed && !completedMarker
      modifies this
      ensures ok <==> Removable(old(status), os) && os.workRemoved && os.jobRemoved
      ensures ok ==> !workExists && !jobExists && closed && !completedMarker
      ensures !ok ==> jobExists && !Open(status) && !closed
      ensures !ok ==> (completedMarker <==> MarkerStays(old(status), os))
      ensures !ok ==> (workExists <==> !(Removable(old(status), os) && os.workRemoved))
    {
      ok := CloseOrReturn(os);
      if !ok {
        Drop(os);
      }
    }

    method CloseOrReturn(os: Os) returns (ok: bool)
      requires Retained() && !closed && !completedMarker
      modifies this
      ensures ok <==> Removable(old(status), os) && os.workRemoved && os.jobRemoved
      ensures ok ==> !workExists && !jobExists && closed && !completedMarker
      ensures !ok ==> jobExists && !closed
      ensures !ok ==> (completedMarker <==> MarkerStays(old(status), os))
      ensures !ok ==> (workExists <==> !(Removable(old(status), os) && os.workRemoved))
    {
      ok := false;
      if os.cancelled || !Open(status) || !os.ownerIntact || !os.directoryIntact {
        return;
      }
      var stated := SetStatus(Completed, os);
      if !stated || !os.markerCreated {
        return;
      }
      completedMarker := true;
      if !os.markerSynced {
        return;
      }
      if os.workRemoved {
        workExists := false;
      }
      if !os.workRemoved || !os.jobRemoved {
        if os.markerRemoved {
          completedMarker := false;
        }
        var _ := SetStatus(CleanupFailed, os);
        return;
      }
      jobExists := false;
      completedMarker := false;
      closed := true;
      ok := true;
    }
  }

  // ---------- sessions ----------

  type Snapshot = map<string, string>

  datatype Process = Exited(code: int) | TimedOut | NotRun

  /** What a run finds: the copy before, the command's end, and both trees after it. */
  datatype Observed = Observed(copyBefore: Snapshot, outcome: Process, copyAfter: Snapshot, sourceAfter: Snapshot)

  /** The command's outcome if all three trees still equal the session's inputs, else an error. */
  function RunVerified(before: Snapshot, seen: Observed): Option<Process> {
    if seen.copyBefore != before then None
    else if seen.copyAfter != before then None
    else if seen.sourceAfter != before then None
    else Some(seen.outcome)
  }

  predicate Succeeded(before: Snapshot, seen: Observed) {
    RunVerified(before, seen) == Some(Exited(0))
  }

  /** A call whose command completed with success on unchanged inputs and whose diagnostics were saved. */
  datatype Call = Call(seen: Observed, diagnosticsSaved: bool)

  predicate Good(before: Snapshot, call: Call) {
    Succeeded(before, call.seen) && call.diagnosticsSaved
  }

  class Session {
    const before: Snapshot
    const workspace: Workspace
    var failed: bool
    ghost var calls: seq<Call>

    /** The sticky flag tells exactly whether some call was not good. */
    ghost predicate Valid()
      reads this, workspace
    {
      && (failed <==> exists i :: 0 <= i < |calls| && !Good(before, calls[i]))
      && workspace.Retained() && !workspace.completedMarker && !workspace.closed
      && (!failed ==> workspace.status == Active)
    }

    constructor (before: Snapshot, workspace: Workspace)
      requires workspace.Retained() && !workspace.completedMarker && !workspace.closed && workspace.status == Active
      ensures Valid() && calls == [] && this.before == before && this.workspace == workspace
    {
      this.before, this.workspace := before, workspace;
      failed, calls := false, [];
    }

    /** The flag is set before the command and cleared only at the end of a good call. */
    method Run(call: Call, os: Os) returns (result: Option<Process>)
      requires Valid()
      modifies this`failed, this`calls, workspace
      ensures Valid() && calls == old(calls) + [call]
      ensures failed <==> old(failed) || !Good(before, call)
      ensures result == if !call.diagnosticsSaved || (!Succeeded(before, call.seen) && !(os.ownerIntact && os.writes))
                        then None else RunVerified(before, call.seen)
      ensures if Succeeded(before, call.seen) then workspace.status == old(workspace.status)
              else !Open(workspace.status)
    {
      calls := calls + [call];
      assert calls[|calls| - 1] == call && calls[..|calls| - 1] == old(calls);
      var alreadyFailed := failed;
      failed := true;
      var verified := RunVerified(before, call.seen);
      if verified != Some(Exited(0)) {
        failed := true;
        var stated := workspace.Failed(os);
        if !stated {
          return None;
        }
      }
      if !call.diagnosticsSaved {
        return None;
      }
      if verified == Some(Exited(0)) {
        failed := alreadyFailed;
      }
      assert !Good(before, call) || forall i :: 0 <= i < |old(calls)| ==> calls[i] == old(calls)[i];
      return verified;
    }

    /** The job goes only when every call of the session was good, the checkout is unchanged, the
        diagnostics are published and the workspace can be removed under its own identity. */
    method Close(source: Snapshot, published: bool, os: Os) returns (ok: bool)
      requires Valid()
      modifies this, workspace
      ensures !workspace.jobExists <==>
              && (forall i :: 0 <= i < |calls| ==> Good(before, calls[i]))
              && source == before && published
              && Workspace.Removable(Publishing, os) && os.workRemoved && os.jobRemoved
      ensures workspace.jobExists ==> !Open(workspace.status)
      ensures workspace.completedMarker ==>
                old(!failed) && source == before && published && Workspace.MarkerStays(Publishing, os)
      ensures ok <==> if old(failed) then !Open(old(workspace.status)) || (os.ownerIntact && os.writes)
                      else !workspace.jobExists
      ensures calls == old(calls)
    {
      if failed {
        ok := workspace.Preserve(os);
        return;
      }
      if source != before {
        workspace.Drop(os);
        return false;
      }
      var stated := workspace.SetStatus(Publishing, os);
      if !stated || !published {
        workspace.Drop(os);
        return false;
      }
      ok := workspace.Close(os);
    }
  }

  /** A call is good exactly when the copy held the inputs before the command, the command ended with zero, copy
      and checkout held the inputs after it, and what it printed was saved. */
  lemma GoodTells(before: Snapshot, call: Call)
    ensures Good(before, call) <==>
            && call.seen.copyBefore == before && call.seen.outcome == Exited(0) && call.seen.copyAfter == before
            && call.seen.sourceAfter == before && call.diagnosticsSaved
    ensures RunVerified(before, call.seen).Some? <==>
            call.seen.copyBefore == before && call.seen.copyAfter == before && call.seen.sourceAfter == before
    ensures RunVerified(before, call.seen).Some? ==> RunVerified(before, call.seen).value == call.seen.outcome
  {
  }
}
