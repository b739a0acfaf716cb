// Installing a compiled output directory by renames, with rollback.
module OutputTransaction {
  import opened Common

  // What may be found at a place: the new output, the previous output, or
  // something else, such as a half-removed directory.
  datatype Tree = NewOutput | OldOutput | Remnant
  datatype State = State(staging: Option<Tree>, target: Option<Tree>, backup: Option<Tree>)
  datatype Place = Staging | Target | Backup

  function At(s: State, p: Place): Option<Tree> {
    match p
    case Staging => s.staging
    case Target => s.target
    case Backup => s.backup
  }

  function Put(s: State, p: Place, t: Option<Tree>): State {
    match p
    case Staging => s.(staging := t)
    case Target => s.(target := t)
    case Backup => s.(backup := t)
  }

  // Nothing is lost: the new output is whole, and until it is in place the
  // previous one is too.
  ghost predicate Safe(start: State, s: State) {
    && (s.staging == Some(NewOutput) || s.target == Some(NewOutput))
    && (start.target == Some(OldOutput) && s.target != Some(NewOutput) ==>
          s.target == Some(OldOutput) || s.backup == Some(OldOutput))
  }

  // Which operations the host lets fail.
  datatype Faults = Faults(
    inspect: bool, install: bool, stagePrevious: bool, rollback: bool,
    removal: bool, leftover: Option<Tree>, inspectStaging: bool)

  // No operation on the way fails, and no old backup is in the way of a new one.
  predicate Unhindered(start: State, faults: Faults) {
    && !faults.inspect && !faults.install
    && (start.target.Some? ==> start.backup.None? && !faults.stagePrevious && !faults.removal)
  }

  datatype Outcome = Done | Failed | FailedWithArtifact(artifact: Place)

  class OutputTree {
    var state: State
    // Every state the tree went through: the possible crash points.
    ghost var history: seq<State>

    constructor (state: State)
      ensures this.state == state && history == [state]
    {
      this.state := state;
      history := [state];
    }

    ghost predicate Recorded()
      reads this
    {
      history != [] && history[|history| - 1] == state
    }

    // A rename happens at once, and never over something that exists.
    method Rename(from: Place, to: Place, fault: bool) returns (ok: bool)
      requires from != to
      modifies this
      ensures ok <==> !fault && At(old(state), from).Some? && At(old(state), to).None?
      ensures state == if ok then Put(Put(old(state), to, At(old(state), from)), from, None) else old(state)
      ensures history == if ok then old(history) + [state] else old(history)
    {
      ok := !fault && At(state, from).Some? && At(state, to).None?;
      if ok {
        state := Put(Put(state, to, At(state, from)), from, None);
        history := history + [state];
      }
    }

    // Removing a tree is not atomic: on a failure something may remain.
    method RemoveAll(p: Place, fault: bool, leftover: Option<Tree>) returns (ok: bool)
      modifies this
      ensures ok <==> !fault
      ensures state == Put(old(state), p, if fault then leftover else None)
      ensures history == old(history) + [state]
    {
      ok := !fault;
      state := Put(state, p, if fault then leftover else None);
      history := history + [state];
    }

    method InstallOutputDirectory(faults: Faults) returns (ok: bool)
      requires state.staging == Some(NewOutput) && Recorded()
      requires state.target == None || state.target == Some(OldOutput)
      modifies this
      ensures old(history) <= history && Recorded()
      ensures forall k :: |old(history)| <= k < |history| ==> Safe(old(state), history[k])
      ensures Safe(old(state), state)
      ensures ok <==> Unhindered(old(state), faults)
      // Success: the new output is the target and no backup of this run is left.
      ensures ok ==> state.target == Some(NewOutput) && state.staging == None
      ensures ok ==> state.backup == if old(state.target).Some? then None else old(state.backup)
      // Failure: nothing moved, or only the backup could not be removed, or the
      // previous output waits in the backup because its return failed as well.
      ensures !ok ==>
        || state == old(state)
        || (state.target == Some(NewOutput) && state.staging == None && faults.removal)
        || (state == old(state).(target := None, backup := Some(OldOutput)) && faults.install && faults.rollback)
    {
      if faults.inspect {
        return false;
      }
      if state.target.None? {
        ok := Rename(Staging, Target, faults.install);
        return;
      }
      ok := Rename(Target, Backup, faults.stagePrevious);
      if !ok {
        return;
      }
      ok := Rename(Staging, Target, faults.install);
      if !ok {
        var restored := Rename(Backup, Target, faults.rollback);
        return false;
      }
      ok := RemoveAll(Backup, faults.removal, faults.leftover);
    }

    // The surrounding transaction, from the moment the output is written: a
    // failure names the staging directory only while it still exists.
    method FinishOutputTransaction(written: bool, faults: Faults) returns (outcome: Outcome)
      requires state.staging == (if written then Some(NewOutput) else Some(Remnant)) && Recorded()
      requires state.target == None || state.target == Some(OldOutput)
      modifies this
      ensures outcome.Done? <==> written && Unhindered(old(state), faults)
      ensures outcome.Done? ==> state.target == Some(NewOutput)
      ensures outcome.FailedWithArtifact? ==>
        outcome.artifact == Staging && state.staging.Some? && (written ==> state.staging == Some(NewOutput))
      ensures outcome.Failed? && !faults.inspectStaging ==> state.target == Some(NewOutput)
      ensures !written ==> state == old(state) && !outcome.Done?
      ensures written ==> Safe(old(state), state)
    {
      if written {
        var ok := InstallOutputDirectory(faults);
        if ok {
          return Done;
        }
      }
      if faults.inspectStaging || state.staging.None? {
        return Failed;
      }
      return FailedWithArtifact(Staging);
    }
  }
}
