/** Files that change only by atomic steps, and the write-and-promote steps that both updaters share
    (tesseract-proxy/internal/bundleupd/updater.go, `writeAtomic` and `promote`;
    tesseract-proxy/internal/binupd/binupd.go, `writeExecutable` and `promote`). */
module Files {
  newtype Byte = x: int | 0 <= x < 256
  type Bytes = seq<Byte>

  /** The named files that exist, with their contents. */
  type Tree<P> = map<P, Bytes>

  /** What a sequence of steps did: the tree after each step that changed it, and whether it succeeded. */
  datatype Outcome<P> = Outcome(states: seq<Tree<P>>, ok: bool)

  /** The tree a sequence of steps leaves behind. */
  function After<P>(t: Tree<P>, states: seq<Tree<P>>): Tree<P> {
    if states == [] then t else states[|states| - 1]
  }

  /** rename(2): replaces `to` atomically. */
  function Moved<P>(t: Tree<P>, from: P, to: P): Tree<P>
    requires from in t
  {
    (t - {from})[to := t[from]]
  }

  /** The step at which a write fails, if any; a failed cleanup leaves the temporary file behind. */
  datatype WriteFault =
    | NoWriteFault
    | CreateFails
    | WriteFails(written: nat, cleanupFails: bool)
    | CloseFails(cleanupFails: bool)
    | RenameFails(cleanupFails: bool)

  datatype PromoteFault = NoPromoteFault | StatFails | RotateFails | InstallFails

  function Removed<P>(t: Tree<P>, p: P, fails: bool): seq<Tree<P>> {
    if p in t && !fails then [t - {p}] else []
  }

  /** Create a temporary file, write it, close it, rename it into place. */
  function WriteRun<P>(t: Tree<P>, path: P, temp: P, data: Bytes, fault: WriteFault): Outcome<P> {
    var empty, full := t[temp := []], t[temp := data];
    match fault
    case CreateFails => Outcome([], false)
    case WriteFails(n, c) =>
      var part := t[temp := if n <= |data| then data[..n] else data];
      Outcome([empty, part] + Removed(part, temp, c), false)
    case CloseFails(c) => Outcome([empty, full] + Removed(full, temp, c), false)
    case RenameFails(c) => Outcome([empty, full] + Removed(full, temp, c), false)
    case NoWriteFault => Outcome([empty, full, Moved(full, temp, path)], true)
  }

  /** current becomes previous if it exists, then staged becomes current. */
  function PromoteRun<P>(t: Tree<P>, current: P, previous: P, staged: P, fault: PromoteFault): Outcome<P> {
    if fault.StatFails? then Outcome([], false)
    else if current in t then
      if fault.RotateFails? then Outcome([], false)
      else
        var rotated := Moved(t, current, previous);
        if fault.InstallFails? || staged !in rotated then Outcome([rotated], false)
        else Outcome([rotated, Moved(rotated, staged, current)], true)
    else if fault.InstallFails? || staged !in t then Outcome([], false)
    else Outcome([Moved(t, staged, current)], true)
  }

  /** The files as the program changes them; `trace` records the tree after every change. */
  class Volume<P(==)> {
    var files: Tree<P>
    ghost var trace: seq<Tree<P>>

    constructor (files: Tree<P>)
      ensures this.files == files && trace == []
    {
      this.files := files;
      trace := [];
    }

    ghost method Record()
      modifies this`trace
      ensures trace == old(trace) + [files]
    {
      trace := trace + [files];
    }

    method Rename(from: P, to: P, fails: bool) returns (ok: bool)
      modifies this
      ensures ok == (from in old(files) && !fails)
      ensures ok ==> files == Moved(old(files), from, to) && trace == old(trace) + [files]
      ensures !ok ==> files == old(files) && trace == old(trace)
    {
      ok := from in files && !fails;
      if ok {
        files := Moved(files, from, to);
        Record();
      }
    }

    method Put(p: P, data: Bytes)
      modifies this
      ensures files == old(files)[p := data] && trace == old(trace) + [files]
    {
      files := files[p := data];
      Record();
    }

    method Remove(p: P, fails: bool)
      modifies this
      ensures trace == old(trace) + Removed(old(files), p, fails)
      ensures files == After(old(files), Removed(old(files), p, fails))
    {
      if p in files && !fails {
        files := files - {p};
        Record();
      }
    }

    method WriteAtomic(path: P, temp: P, data: Bytes, fault: WriteFault) returns (ok: bool)
      modifies this
      ensures var o := WriteRun(old(files), path, temp, data, fault);
              ok == o.ok && trace == old(trace) + o.states && files == After(old(files), o.states)
    {
      if fault.CreateFails? {
        return false;
      }
      ok := WriteTemp(temp, data, fault);
      if ok {
        ok := Rename(temp, path, fault.RenameFails?);
      }
      if !ok {
        Remove(temp, !fault.CreateFails? && !fault.NoWriteFault? && fault.cleanupFails);
      }
    }

    /** Create, write and close the temporary file. */
    method WriteTemp(temp: P, data: Bytes, fault: WriteFault) returns (ok: bool)
      requires !fault.CreateFails?
      modifies this
      ensures ok == !(fault.WriteFails? || fault.CloseFails?)
      ensures files == old(files)[temp := if fault.WriteFails? && fault.written <= |data| then data[..fault.written] else data]
      ensures trace == old(trace) + [old(files)[temp := []], files]
    {
      Put(temp, []);
      if fault.WriteFails? {
        Put(temp, if fault.written <= |data| then data[..fault.written] else data);
        assert files == old(files)[temp := if fault.written <= |data| then data[..fault.written] else data];
        return false;
      }
      Put(temp, data);
      assert files == old(files)[temp := data];
      return !fault.CloseFails?;
    }

    method Promote(current: P, previous: P, staged: P, fault: PromoteFault) returns (ok: bool)
      modifies this
      ensures var o := PromoteRun(old(files), current, previous, staged, fault);
              ok == o.ok && trace == old(trace) + o.states && files == After(old(files), o.states)
    {
      if fault.StatFails? {
        return false;
      }
      if current in files {
        var rotated := Rename(current, previous, fault.RotateFails?);
        if !rotated {
          return false;
        }
      }
      ok := Rename(staged, current, fault.InstallFails?);
    }
  }

  // ----- what the shared steps keep -----

  /** A file that no step names is the same after every step. */
  ghost predicate Untouched<P(!new)>(t: Tree<P>, states: seq<Tree<P>>, p: P) {
    forall k :: 0 <= k < |states| ==> (p in states[k] <==> p in t) && (p in t ==> states[k][p] == t[p])
  }

  /** At every instant the written path holds its old content or all of the new content; it
      holds the new content exactly on success. Nothing but `path` and `temp` changes. */
  lemma WriteIsAtomic<P(!new)>(t: Tree<P>, path: P, temp: P, data: Bytes, fault: WriteFault)
    requires path != temp
    ensures var o := WriteRun(t, path, temp, data, fault);
            && (forall k :: 0 <= k < |o.states| - 1 ==>
                  (path in o.states[k] <==> path in t) && (path in t ==> o.states[k][path] == t[path]))
            && (o.ok ==> After(t, o.states) == (t - {temp})[path := data])
            && (!o.ok ==> Untouched(t, o.states, path))
            && (forall p :: p != path && p != temp ==> Untouched(t, o.states, p))
    ensures var o := WriteRun(t, path, temp, data, fault);
            o.ok <==> fault.NoWriteFault?
  {
    var o := WriteRun(t, path, temp, data, fault);
    if o.ok {
      assert Moved(t[temp := data], temp, path) == (t - {temp})[path := data];
    }
  }

  /** A failing write whose cleanup works leaves no temporary file, and nothing else it would not have found. */
  lemma FailedWriteCleansUp<P>(t: Tree<P>, path: P, temp: P, data: Bytes, fault: WriteFault)
    requires !fault.NoWriteFault? && (!fault.CreateFails? ==> !fault.cleanupFails)
    ensures After(t, WriteRun(t, path, temp, data, fault).states) == if fault.CreateFails? then t else t - {temp}
  {
    assert t[temp := data] - {temp} == t - {temp};
  }

  /** Promoting: at every instant either current is in place or previous and staged are; the old
      current survives under current or previous and the staged file under staged or current. */
  lemma PromoteKeepsBoth<P>(t: Tree<P>, current: P, previous: P, staged: P, fault: PromoteFault)
    requires current != previous && previous != staged && staged != current
    requires current in t && staged in t
    ensures var o := PromoteRun(t, current, previous, staged, fault);
            && (forall k :: 0 <= k < |o.states| ==>
                  var s := o.states[k];
                  && ((current in s && s[current] == t[current] && staged in s && s[staged] == t[staged])
                      || (previous in s && s[previous] == t[current] && staged in s && s[staged] == t[staged])
                      || (previous in s && s[previous] == t[current] && current in s && s[current] == t[staged])))
            && (o.ok <==> fault.NoPromoteFault?)
            && (o.ok ==> After(t, o.states) == (t - {staged})[previous := t[current]][current := t[staged]])
            && (!o.ok ==> After(t, o.states) == if fault.InstallFails? then Moved(t, current, previous) else t)
  {
  }
}
