/** Installing a signed binary and swapping back (tesseract-proxy/internal/binupd/binupd.go). */
module BinaryUpdater {
  import opened Files

  /** The three configured paths, the rollback's stash next to the current binary, and the temporary
      file of a write, taken to be distinct. */
  datatype Slot = Current | Previous | Staged | Stash | Temp

  type Disk = Tree<Slot>

  predicate Holds(d: Disk, p: Slot, data: Bytes) {
    p in d && d[p] == data
  }

  datatype ApplyFaults = ApplyFaults(write: WriteFault, promote: PromoteFault, keepStaged: bool)

  const NO_FAULTS := ApplyFaults(NoWriteFault, NoPromoteFault, false)

  // ----- Apply -----

  function ApplyRun(verify: (Bytes, Bytes) -> bool, d: Disk, binary: Bytes, sig: Bytes, f: ApplyFaults): Outcome<Slot> {
    if sig == [] || !verify(binary, sig) then Outcome([], false)
    else
      var staged := WriteRun(d, Staged, Temp, binary, f.write);
      if !staged.ok then staged
      else
        var d1 := After(d, staged.states);
        var promoted := PromoteRun(d1, Current, Previous, Staged, f.promote);
        if promoted.ok then Outcome(staged.states + promoted.states, true)
        else
          var d2 := After(d1, promoted.states);
          Outcome(staged.states + promoted.states + Removed(d2, Staged, f.keepStaged), false)
  }

  // ----- Rollback -----

  /** Which rename of the swap fails, and whether putting the current binary back fails too. */
  datatype SwapFault = NoSwapFault | StashFails | SwapInFails(putBackFails: bool) | SwapOutFails

  function RollbackRun(d: Disk, f: SwapFault): Outcome<Slot> {
    if Previous !in d then Outcome([], false)
    else if f.StashFails? || Current !in d then Outcome([], false)
    else
      var d1 := Moved(d, Current, Stash);
      if f.SwapInFails? then
        if f.putBackFails then Outcome([d1], false)
        else Outcome([d1, Moved(d1, Stash, Current)], false)
      else
        var d2 := Moved(d1, Previous, Current);
        if f.SwapOutFails? then Outcome([d1, d2], false)
        else Outcome([d1, d2, Moved(d2, Stash, Previous)], true)
  }

  class Receiver {
    const verify: (Bytes, Bytes) -> bool
    const volume: Volume<Slot>

    constructor (verify: (Bytes, Bytes) -> bool, volume: Volume<Slot>)
      ensures this.verify == verify && this.volume == volume
    {
      this.verify, this.volume := verify, volume;
    }

    method Apply(binary: Bytes, sig: Bytes, f: ApplyFaults) returns (ok: bool)
      modifies volume
      ensures var o := ApplyRun(verify, old(volume.files), binary, sig, f);
              ok == o.ok && volume.trace == old(volume.trace) + o.states && volume.files == After(old(volume.files), o.states)
    {
      hide WriteRun, PromoteRun;
      if sig == [] || !verify(binary, sig) {
        return false;
      }
      ok := volume.WriteAtomic(Staged, Temp, binary, f.write);
      if !ok {
        return;
      }
      ok := volume.Promote(Current, Previous, Staged, f.promote);
      if !ok {
        volume.Remove(Staged, f.keepStaged);
      }
    }

    method Rollback(f: SwapFault) returns (ok: bool)
      modifies volume
      ensures var o := RollbackRun(old(volume.files), f);
              ok == o.ok && volume.trace == old(volume.trace) + o.states && volume.files == After(old(volume.files), o.states)
    {
      if Previous !in volume.files {
        return false;
      }
      ok := volume.Rename(Current, Stash, f.StashFails?);
      if !ok {
        return;
      }
      ok := volume.Rename(Previous, Current, f.SwapInFails?);
      if !ok {
        var _ := volume.Rename(Stash, Current, f.putBackFails);
        return;
      }
      ok := volume.Rename(Stash, Previous, f.SwapOutFails?);
    }
  }

  // ----- what Apply keeps -----

  /** A missing or wrong signature changes nothing at all. */
  lemma RejectedChangesNothing(verify: (Bytes, Bytes) -> bool, d: Disk, binary: Bytes, sig: Bytes, f: ApplyFaults)
    ensures ApplyRun(verify, d, binary, sig, f) == Outcome([], false) <==>
            sig == [] || !verify(binary, sig) || f.write.CreateFails?
  {
    hide PromoteRun, Removed;
  }

  /** The state in which promoting starts. */
  lemma WriteStages(d: Disk, binary: Bytes, fault: WriteFault)
    ensures var o := WriteRun(d, Staged, Temp, binary, fault);
            && (forall s :: s in o.states ==> forall p :: p != Staged && p != Temp ==>
                  (p in s <==> p in d) && (p in d ==> s[p] == d[p]))
            && (o.ok ==> After(d, o.states) == (d - {Temp})[Staged := binary])
            && (o.ok <==> fault.NoWriteFault?)
  {
    WriteIsAtomic(d, Staged, Temp, binary, fault);
    hide WriteRun;
    var o := WriteRun(d, Staged, Temp, binary, fault);
    forall s, p: Slot | s in o.states && p != Staged && p != Temp
      ensures (p in s <==> p in d) && (p in d ==> s[p] == d[p])
    {
      assert Untouched(d, o.states, p);
      var k :| 0 <= k < |o.states| && o.states[k] == s;
    }
  }

  /** At every instant of an Apply, with any failures, the binary that was current is still under
      current or previous. */
  lemma ApplyKeepsCurrent(verify: (Bytes, Bytes) -> bool, d: Disk, binary: Bytes, sig: Bytes, f: ApplyFaults, before: Bytes)
    requires Holds(d, Current, before)
    ensures forall s :: s in ApplyRun(verify, d, binary, sig, f).states ==>
              Holds(s, Current, before) || Holds(s, Previous, before)
  {
    WriteStages(d, binary, f.write);
    hide WriteRun;
    var d1 := (d - {Temp})[Staged := binary];
    PromoteKeepsBoth(d1, Current, Previous, Staged, f.promote);
    var o := PromoteRun(d1, Current, Previous, Staged, f.promote);
    forall s | s in o.states ensures Holds(s, Current, before) || Holds(s, Previous, before) {
      var k :| 0 <= k < |o.states| && o.states[k] == s;
    }
    var d2 := After(d1, o.states);
    assert o.states != [] ==> d2 in o.states;
    assert forall s :: s in Removed(d2, Staged, f.keepStaged) ==> s == d2 - {Staged};
  }

  /** Where a failing Apply leaves the binary that was current: in place, unless it was the second rename
      of the promote that failed; then it is under previous and current is missing. */
  lemma FailedApplyLeavesCurrent(verify: (Bytes, Bytes) -> bool, d: Disk, binary: Bytes, sig: Bytes, f: ApplyFaults, before: Bytes)
    requires Holds(d, Current, before) && !ApplyRun(verify, d, binary, sig, f).ok
    ensures var e := After(d, ApplyRun(verify, d, binary, sig, f).states);
            var reached := sig != [] && verify(binary, sig) && f.write.NoWriteFault?;
            && (Holds(e, Current, before) <==> !(reached && f.promote.InstallFails?))
            && (reached && f.promote.InstallFails? ==> Current !in e && Holds(e, Previous, before))
  {
    WriteStages(d, binary, f.write);
    hide WriteRun;
    var w := WriteRun(d, Staged, Temp, binary, f.write);
    assert w.states != [] ==> After(d, w.states) in w.states;
    if w.ok && sig != [] && verify(binary, sig) {
      var d1 := After(d, w.states);
      PromoteKeepsBoth(d1, Current, Previous, Staged, f.promote);
      var o := PromoteRun(d1, Current, Previous, Staged, f.promote);
      hide PromoteRun;
      var d2 := After(d1, o.states);
      var r := Removed(d2, Staged, f.keepStaged);
      assert After(d, w.states + o.states + r) == After(d2, r);
      assert After(d2, r) == d2 || After(d2, r) == d2 - {Staged};
    }
  }

  /** A failing promote whose cleanup works leaves no staged file. */
  lemma FailedPromoteIsDiscarded(verify: (Bytes, Bytes) -> bool, d: Disk, binary: Bytes, sig: Bytes, f: ApplyFaults)
    requires sig != [] && verify(binary, sig) && f.write.NoWriteFault? && !f.promote.NoPromoteFault? && !f.keepStaged
    requires f.promote.RotateFails? ==> Current in d
    ensures var o := ApplyRun(verify, d, binary, sig, f); !o.ok && Staged !in After(d, o.states)
  {
    WriteStages(d, binary, f.write);
    hide WriteRun;
    var w := WriteRun(d, Staged, Temp, binary, f.write);
    var d1 := After(d, w.states);
    var o := PromoteRun(d1, Current, Previous, Staged, f.promote);
    var d2 := After(d1, o.states);
    var r := Removed(d2, Staged, false);
    assert After(d, w.states + o.states + r) == After(d2, r);
  }

  /** A rollback cannot repair that: with current missing it fails and changes nothing, whatever else
      works. */
  lemma RollbackNeedsCurrent(d: Disk, f: SwapFault)
    ensures RollbackRun(d, f).ok <==> Previous in d && Current in d && f.NoSwapFault?
    ensures Current !in d || Previous !in d ==> RollbackRun(d, f) == Outcome([], false)
  {
  }

  // ----- what Rollback keeps -----

  /** A rollback swaps the two binaries; a leftover stash is gone and nothing else changes. */
  lemma RollbackSwaps(d: Disk)
    requires Current in d && Previous in d
    ensures var e := After(d, RollbackRun(d, NoSwapFault).states);
            e == (d - {Stash})[Current := d[Previous]][Previous := d[Current]]
  {
    var d1 := Moved(d, Current, Stash);
    var d2 := Moved(d1, Previous, Current);
    assert Moved(d2, Stash, Previous) == (d - {Stash})[Current := d[Previous]][Previous := d[Current]];
  }

  /** Rolling back twice is the identity. */
  lemma RollbackTwice(d: Disk)
    requires Current in d && Previous in d && Stash !in d
    ensures var e := After(d, RollbackRun(d, NoSwapFault).states);
            After(e, RollbackRun(e, NoSwapFault).states) == d
  {
    RollbackSwaps(d);
    hide RollbackRun;
    var e := After(d, RollbackRun(d, NoSwapFault).states);
    RollbackSwaps(e);
    assert d - {Stash} == d && e - {Stash} == e;
  }

  /** Applying a signed binary and rolling back restores the binary that was current, and keeps the new
      one for another swap. */
  lemma ApplyThenRollback(verify: (Bytes, Bytes) -> bool, d: Disk, binary: Bytes, sig: Bytes, before: Bytes)
    requires sig != [] && verify(binary, sig) && Holds(d, Current, before)
    ensures var a := ApplyRun(verify, d, binary, sig, NO_FAULTS);
            var e := After(d, a.states);
            var r := RollbackRun(e, NoSwapFault);
            && a.ok && Holds(e, Current, binary) && Holds(e, Previous, before)
            && r.ok && Holds(After(e, r.states), Current, before) && Holds(After(e, r.states), Previous, binary)
  {
    WriteStages(d, binary, NoWriteFault);
    hide WriteRun;
    var w := WriteRun(d, Staged, Temp, binary, NoWriteFault);
    var d1 := After(d, w.states);
    PromoteKeepsBoth(d1, Current, Previous, Staged, NoPromoteFault);
    var o := PromoteRun(d1, Current, Previous, Staged, NoPromoteFault);
    hide PromoteRun;
    assert After(d, w.states + o.states) == After(d1, o.states);
    RollbackSwaps(After(d1, o.states));
  }

  /** At every instant of a rollback, whichever renames fail, both binaries still exist under current,
      previous or the stash. */
  lemma RollbackKeepsBoth(d: Disk, f: SwapFault, current: Bytes, previous: Bytes)
    requires Holds(d, Current, current) && Holds(d, Previous, previous)
    ensures forall s :: s in RollbackRun(d, f).states ==>
              && (Holds(s, Current, current) || Holds(s, Previous, current) || Holds(s, Stash, current))
              && (Holds(s, Current, previous) || Holds(s, Previous, previous))
  {
  }

  /** A failed rollback leaves a runnable current binary unless both the swap-in and its undo failed. */
  lemma FailedRollbackLeavesCurrent(d: Disk, f: SwapFault)
    requires Current in d && Previous in d
    ensures Current in After(d, RollbackRun(d, f).states) <==> f != SwapInFails(true)
  {
  }
}
