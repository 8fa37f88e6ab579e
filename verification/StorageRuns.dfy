/**
 Whole runs of saves and loads on one item, with a crash possible between any two
 file operations.  `current` is the value whose swap into the main file happened last.
 */
module StorageRuns {
  import opened Common
  import opened Storage

  datatype Activity =
    | Idle
    | Writing(value: string, written: nat)
    | Written(value: string)
    | Moved(value: string)
    | Reading
    | UsingBackup
    | Copying(value: string, copied: nat)

  /** `owed`: since the last load or save that went through, something was cut short or failed that may have cost the main file. */
  datatype State = State(fs: Files, act: Activity, current: string, owed: bool)

  datatype Op =
    | SaveBegin(value: string)
    | SaveWrite
    | SaveSync
    | SaveFail
    | SaveMoveAside(ok: bool)
    | SaveSwap(ok: bool)
    | LoadBegin
    | LoadRead(renamed: bool)
    | LoadBackup
    | CopyWrite
    | CopyDone
    | CopyFail
    | Crash

  /** The item, its parser, and whether the repair of the main file is atomic. */
  datatype Setting = Setting(main: string, parse: string -> bool, atomicCopy: bool)

  /** No proper beginning of `v` passes for a value. */
  ghost predicate Robust(parse: string -> bool, v: string) {
    forall n :: 0 < n < |v| ==> !parse(v[..n])
  }

  ghost predicate Storable(x: Setting, v: string) {
    v != "" && x.parse(v) && (x.atomicCopy || Robust(x.parse, v))
  }

  /** The main file holds a loadable value. */
  ghost predicate MainLoads(x: Setting, fs: Files) {
    x.main in fs && fs[x.main] != "" && x.parse(fs[x.main])
  }

  /** The discipline: a save begins only where the main file holds a loadable value, and values are loadable ones. */
  ghost predicate Can(x: Setting, s: State, op: Op) {
    match op
    case SaveBegin(v) => s.act.Idle? && MainLoads(x, s.fs) && Storable(x, v)
    case SaveWrite => s.act.Writing? && s.act.written < |s.act.value|
    case SaveSync => s.act.Writing? && s.act.written == |s.act.value|
    case SaveFail => s.act.Writing?
    case SaveMoveAside(_) => s.act.Written?
    case SaveSwap(_) => s.act.Moved?
    case LoadBegin => s.act.Idle?
    case LoadRead(_) => s.act.Reading?
    case LoadBackup => s.act.UsingBackup?
    case CopyWrite => s.act.Copying? && s.act.copied < |s.act.value|
    case CopyDone => s.act.Copying? && s.act.copied == |s.act.value|
    case CopyFail => s.act.Copying?
    case Crash => true
  }

  function DoRead(x: Setting, s: State, renamed: bool): State {
    match Choose(s.fs, x.main)
    case Original =>
      if x.parse(s.fs[x.main]) then s.(act := Idle, owed := false)
      else s.(act := UsingBackup, fs := if renamed then Rename(s.fs, x.main, BadOf(x.main)) else s.fs)
    case Backup => s.(act := UsingBackup)
    case NotPresent => s.(act := Idle)
  }

  function DoBackup(x: Setting, s: State): State {
    var v := FromBackup(x.parse, s.fs, x.main);
    if v.None? then s.(act := Idle)
    else if x.atomicCopy then s.(act := Idle, owed := false, fs := s.fs[x.main := v.value])
    else s.(act := Copying(v.value, 0), fs := s.fs[x.main := ""])
  }

  function Step(x: Setting, s: State, op: Op): State
    requires Can(x, s, op)
  {
    match op
    case SaveBegin(v) => s.(act := Writing(v, 0), fs := s.fs[TempOf(x.main) := ""])
    case SaveWrite =>
      s.(act := Writing(s.act.value, s.act.written + 1),
         fs := s.fs[TempOf(x.main) := s.act.value[..s.act.written + 1]])
    case SaveSync => s.(act := Written(s.act.value))
    case SaveFail => s.(act := Idle)
    case SaveMoveAside(ok) => s.(act := Moved(s.act.value), fs := if ok then MoveAside(s.fs, x.main) else s.fs)
    case SaveSwap(ok) =>
      if ok then s.(act := Idle, fs := Swap(s.fs, x.main), current := s.act.value, owed := false)
      else s.(act := Idle, owed := x.main !in s.fs)
    case LoadBegin => s.(act := Reading)
    case LoadRead(renamed) => DoRead(x, s, renamed)
    case LoadBackup => DoBackup(x, s)
    case CopyWrite =>
      s.(act := Copying(s.act.value, s.act.copied + 1),
         fs := s.fs[x.main := s.act.value[..s.act.copied + 1]])
    case CopyDone => s.(act := Idle, owed := false)
    case CopyFail => s.(act := Idle, owed := true)
    case Crash => s.(act := Idle, owed := true)
  }

  ghost predicate Runs(x: Setting, s: State, ops: seq<Op>, s': State)
    decreases |ops|
  {
    if ops == [] then s' == s
    else Can(x, s, ops[0]) && Runs(x, Step(x, s, ops[0]), ops[1..], s')
  }

  ghost predicate ActOk(x: Setting, s: State) {
    match s.act
    case Idle => !s.owed ==> MainIs(x.parse, s.fs, x.main, s.current)
    case Writing(v, n) =>
      && MainIs(x.parse, s.fs, x.main, s.current) && Storable(x, v) && n <= |v|
      && TempOf(x.main) in s.fs && s.fs[TempOf(x.main)] == v[..n]
    case Written(v) =>
      && MainIs(x.parse, s.fs, x.main, s.current) && Storable(x, v)
      && TempOf(x.main) in s.fs && s.fs[TempOf(x.main)] == v
    case Moved(v) =>
      && Storable(x, v) && TempOf(x.main) in s.fs && s.fs[TempOf(x.main)] == v
      && (x.main in s.fs ==> MainIs(x.parse, s.fs, x.main, s.current))
    case Reading => true
    case UsingBackup => !MainIs(x.parse, s.fs, x.main, s.current)
    case Copying(v, n) =>
      && !x.atomicCopy && v == s.current && n <= |v|
      && BackupOf(x.main) in s.fs && s.fs[BackupOf(x.main)] == v
      && x.main in s.fs && s.fs[x.main] == v[..n]
  }

  ghost predicate Inv(x: Setting, s: State) {
    Storable(x, s.current) && Recoverable(x.parse, s.fs, x.main, s.current) && ActOk(x, s)
  }

  lemma SaveStepKeepsInv(x: Setting, s: State, op: Op)
    requires Inv(x, s) && Can(x, s, op)
    requires op.SaveBegin? || op.SaveWrite? || op.SaveSync? || op.SaveFail?
    ensures Inv(x, Step(x, s, op))
  {
    PathsDistinct(x.main);
    if op.SaveSync? { assert s.act.value[..|s.act.value|] == s.act.value; }
  }

  lemma SwapStepKeepsInv(x: Setting, s: State, op: Op)
    requires Inv(x, s) && Can(x, s, op) && (op.SaveMoveAside? || op.SaveSwap?)
    ensures Inv(x, Step(x, s, op))
  {
    PathsDistinct(x.main);
  }

  lemma LoadStepKeepsInv(x: Setting, s: State, op: Op)
    requires Inv(x, s) && Can(x, s, op) && (op.LoadBegin? || op.LoadRead? || op.LoadBackup?)
    ensures Inv(x, Step(x, s, op))
  {
    PathsDistinct(x.main);
  }

  lemma CopyStepKeepsInv(x: Setting, s: State, op: Op)
    requires Inv(x, s) && Can(x, s, op) && (op.CopyWrite? || op.CopyDone? || op.CopyFail? || op.Crash?)
    ensures Inv(x, Step(x, s, op))
  {
    PathsDistinct(x.main);
    if s.act.Copying? {
      var v := s.act.value;
      assert v[..|v|] == v && v[..0] == "";
    }
  }

  lemma StepKeepsInv(x: Setting, s: State, op: Op)
    requires Inv(x, s) && Can(x, s, op)
    ensures Inv(x, Step(x, s, op))
  {
    if op.SaveBegin? || op.SaveWrite? || op.SaveSync? || op.SaveFail? {
      SaveStepKeepsInv(x, s, op);
    } else if op.SaveMoveAside? || op.SaveSwap? {
      SwapStepKeepsInv(x, s, op);
    } else if op.LoadBegin? || op.LoadRead? || op.LoadBackup? {
      LoadStepKeepsInv(x, s, op);
    } else {
      CopyStepKeepsInv(x, s, op);
    }
  }

  lemma {:induction false} RunsKeepInv(x: Setting, s: State, ops: seq<Op>, s': State)
    requires Inv(x, s) && Runs(x, s, ops, s')
    ensures Inv(x, s')
    decreases |ops|
  {
    if ops == [] {
    } else {
      StepKeepsInv(x, s, ops[0]);
      RunsKeepInv(x, Step(x, s, ops[0]), ops[1..], s');
    }
  }

  /** Read off the operations alone: the value of the last save whose swap went through. */
  function LastSwapped(ops: seq<Op>, current: string, saving: string): string {
    if ops == [] then current
    else match ops[0]
         case SaveBegin(v) => LastSwapped(ops[1..], current, v)
         case SaveSwap(true) => LastSwapped(ops[1..], saving, saving)
         case _ => LastSwapped(ops[1..], current, saving)
  }

  lemma {:induction false} CurrentIsLastSwapped(x: Setting, s: State, ops: seq<Op>, s': State, saving: string)
    requires Runs(x, s, ops, s')
    requires s.act.Writing? || s.act.Written? || s.act.Moved? ==> s.act.value == saving
    ensures s'.current == LastSwapped(ops, s.current, saving)
    decreases |ops|
  {
    if ops == [] {
    } else {
      CurrentIsLastSwapped(x, Step(x, s, ops[0]), ops[1..], s', if ops[0].SaveBegin? then ops[0].value else saving);
    }
  }

  /**
   No committed value is ever lost: from an item that holds a value, at every moment of
   every run in which saves begin only over a loadable main file, crashes and failures
   included, a load returns the value swapped in last and restores it to the main file.
   */
  lemma NothingLost(x: Setting, s: State, ops: seq<Op>, s': State)
    requires Storable(x, s.current) && MainIs(x.parse, s.fs, x.main, s.current) && s.act.Idle?
    requires Runs(x, s, ops, s')
    ensures LoadValue(x.parse, s'.fs, x.main) == Some(LastSwapped(ops, s.current, ""))
    ensures MainIs(x.parse, Loaded(x.parse, s'.fs, x.main), x.main, LastSwapped(ops, s.current, ""))
  {
    RunsKeepInv(x, s, ops, s');
    RecoverableLoads(x.parse, s'.fs, x.main, s'.current);
    CurrentIsLastSwapped(x, s, ops, s', "");
  }

  /** At rest the main file is loadable whenever the last load or save went through: nothing is owed. */
  lemma NothingOwed(x: Setting, s: State, ops: seq<Op>, s': State)
    requires Storable(x, s.current) && MainIs(x.parse, s.fs, x.main, s.current) && s.act.Idle?
    requires Runs(x, s, ops, s') && s'.act.Idle? && !s'.owed
    ensures MainLoads(x, s'.fs)
  {
    RunsKeepInv(x, s, ops, s');
  }

  predicate Undisturbed(ops: seq<Op>) {
    forall i :: 0 <= i < |ops| ==> !ops[i].Crash? && !ops[i].CopyFail?
  }

  lemma RunsCons(x: Setting, s: State, op: Op, ops: seq<Op>, s': State)
    requires Can(x, s, op) && Runs(x, Step(x, s, op), ops, s')
    ensures Runs(x, s, [op] + ops, s')
  {
    assert ([op] + ops)[1..] == ops;
  }

  /** A copy that goes on restores the main file. */
  lemma {:induction false} CopyOn(x: Setting, s: State) returns (ops: seq<Op>, s': State)
    requires Inv(x, s) && s.act.Copying?
    ensures Runs(x, s, ops, s') && Undisturbed(ops) && forall i :: 0 <= i < |ops| ==> !ops[i].SaveBegin?
    ensures s'.act.Idle? && !s'.owed && s'.current == s.current
    decreases |s.act.value| - s.act.copied
  {
    if s.act.copied == |s.act.value| {
      ops, s' := [CopyDone], Step(x, s, CopyDone);
      assert [CopyDone][1..] == [];
    } else {
      StepKeepsInv(x, s, CopyWrite);
      var more;
      more, s' := CopyOn(x, Step(x, s, CopyWrite));
      RunsCons(x, s, CopyWrite, more, s');
      ops := [CopyWrite] + more;
    }
  }

  /** A load begun at rest that nothing disturbs leaves nothing owed: the main file holds the value again. */
  lemma LoadPays(x: Setting, s: State) returns (ops: seq<Op>, s': State)
    requires Inv(x, s) && s.act.Idle?
    ensures Runs(x, s, [LoadBegin] + ops, s') && Undisturbed(ops) && forall i :: 0 <= i < |ops| ==> !ops[i].SaveBegin?
    ensures s'.act.Idle? && !s'.owed && MainIs(x.parse, s'.fs, x.main, s.current)
  {
    StepKeepsInv(x, s, LoadBegin);
    var s1 := Step(x, s, LoadBegin);
    ops, s' := FinishLoad(x, s1);
    RunsCons(x, s, LoadBegin, ops, s');
    RunsKeepInv(x, s1, ops, s');
  }

  lemma FinishLoad(x: Setting, s: State) returns (ops: seq<Op>, s': State)
    requires Inv(x, s) && s.act.Reading?
    ensures Runs(x, s, ops, s') && Undisturbed(ops) && forall i :: 0 <= i < |ops| ==> !ops[i].SaveBegin?
    ensures s'.act.Idle? && !s'.owed && s'.current == s.current
  {
    PathsDistinct(x.main);
    StepKeepsInv(x, s, LoadRead(true));
    var s1 := Step(x, s, LoadRead(true));
    if s1.act.Idle? {
      ops, s' := [], s1;
    } else {
      StepKeepsInv(x, s1, LoadBackup);
      var s2 := Step(x, s1, LoadBackup);
      if s2.act.Copying? {
        ops, s' := CopyOn(x, s2);
      } else {
        ops, s' := [], s2;
      }
      RunsCons(x, s1, LoadBackup, ops, s');
      ops := [LoadBackup] + ops;
    }
    RunsCons(x, s, LoadRead(true), ops, s');
    ops := [LoadRead(true)] + ops;
  }

  // ---- why the discipline and the atomic copy ----

  /** Cut short after moving the main file aside, a save begun at rest loses the value exactly when the main file was not loadable. */
  lemma CutShortLosesIff(x: Setting, s: State, value: string)
    requires Inv(x, s) && s.act.Idle?
    ensures LoadValue(x.parse, MoveAside(s.fs[TempOf(x.main) := value], x.main), x.main) == Some(s.current) <==> MainLoads(x, s.fs)
  {
    PathsDistinct(x.main);
  }

  /** No crash needed before it: a save whose last rename failed was reported a success, and the next one cut short loses the value. */
  lemma FailedSwapLoses(main: string, parse: string -> bool, v0: string, v1: string, v2: string)
    requires v0 != "" && parse(v0)
    ensures var fs := map[main := v0];
            var fs1 := SaveOutcome(fs, main, v1, false, true);
            var fs2 := MoveAside(fs1[TempOf(main) := v2], main);
            && SaveCanLeave(fs1, main, v2, fs2)
            && LoadValue(parse, fs1, main) == Some(v0) && LoadValue(parse, fs2, main) == None
  {
    PathsDistinct(main);
  }

  /** A second save started before any load, and cut short too, can lose the value for good. */
  lemma TwoCrashesLose(main: string, parse: string -> bool, v0: string, v1: string, v2: string)
    requires v0 != "" && parse(v0)
    ensures var fs := map[main := v0];
            var fs1 := MoveAside(fs[TempOf(main) := v1], main);
            var fs2 := MoveAside(fs1[TempOf(main) := v2], main);
            && SaveCanLeave(fs, main, v1, fs1) && SaveCanLeave(fs1, main, v2, fs2)
            && LoadValue(parse, fs1, main) == Some(v0) && LoadValue(parse, fs2, main) == None
  {
    PathsDistinct(main);
  }

  /** A crash while the main file is being copied back leaves a beginning of the value in it. */
  function PartlyCopied(fs: Files, main: string, n: nat): Files
    requires BackupOf(main) in fs && n <= |fs[BackupOf(main)]|
  {
    fs[main := fs[BackupOf(main)][..n]]
  }

  /** The next load still returns the value exactly when the copy was empty, complete or rejected by the parser. */
  lemma PartialCopyIff(parse: string -> bool, fs: Files, main: string, n: nat)
    requires BackupOf(main) in fs && n <= |fs[BackupOf(main)]|
    requires fs[BackupOf(main)] != "" && parse(fs[BackupOf(main)])
    ensures var v := fs[BackupOf(main)];
            LoadValue(parse, PartlyCopied(fs, main, n), main) == Some(v) <==> n == 0 || n == |v| || !parse(v[..n])
  {
    PathsDistinct(main);
    var v := fs[BackupOf(main)];
    assert v[..|v|] == v && v[..0] == "";
    if n < |v| { assert |v[..n]| != |v|; }
  }
}

/** Saving and loading in their own form: file operations one after the other on the files of an item. */
module StorageObject {
  import opened Common
  import opened Storage

  /** What goes wrong in one call, if anything. */
  datatype Faults = Faults(write: bool, moveAside: bool, swap: bool, setAside: bool, copy: Copy)

  class Store {
    var files: Files

    constructor (files: Files)
      ensures this.files == files
    {
      this.files := files;
    }

    method SafeFileSave(main: string, faults: Faults)
      requires TempOf(main) in files
      modifies this
      ensures var aside := if faults.moveAside then old(files) else MoveAside(old(files), main);
              files == if faults.swap then aside else Swap(aside, main)
    {
      PathsDistinct(main);
      if !faults.moveAside {
        if main in files {
          files := Rename(files, main, BackupOf(main));
        } else {
          files := files - {BackupOf(main)};
        }
      }
      if !faults.swap {
        files := Rename(files, TempOf(main), main);
      }
    }

    /** storageSave; `written` is what reached the temporary file if writing failed. */
    method Save(main: string, value: string, faults: Faults, written: string) returns (result: bool)
      modifies this
      ensures result == !faults.write
      ensures faults.write ==> files == old(files)[TempOf(main) := written]
      ensures !faults.write ==> files == SaveOutcome(old(files), main, value, faults.moveAside, faults.swap)
    {
      if faults.write {
        files := files[TempOf(main) := written];
        return false;
      }
      files := files[TempOf(main) := value];
      SafeFileSave(main, faults);
      return true;
    }

    /** loadInternalLocked */
    method Load(main: string, parse: string -> bool, faults: Faults) returns (ok: bool, data: string)
      modifies this
      ensures (if ok then Some(data) else None) == LoadValue(parse, old(files), main)
      ensures files == LoadOutcome(parse, old(files), main, faults.setAside, faults.copy)
    {
      PathsDistinct(main);
      var whichFile := Choose(files, main);
      ok, data := false, "";
      if whichFile.Original? {
        data := files[main];
        ok := parse(data);
        if !ok {
          if !faults.setAside {
            files := Rename(files, main, BadOf(main));
          }
          whichFile := Backup;
        }
      }
      if whichFile.Backup? {
        if BackupOf(main) in files {
          data := files[BackupOf(main)];
          ok := parse(data);
        }
        if ok {
          match faults.copy
          case Whole => files := files[main := data];
          case NotBegun =>
          case Cut(n) => files := files[main := if n < |data| then data[..n] else data];
        }
      }
    }

    /** storageDelete */
    method Delete(main: string) returns (result: bool)
      modifies this
      ensures files == Deleted(old(files), main) && result == (main in old(files))
    {
      result := main in files;
      files := files - {main};
      files := files - {BackupOf(main)};
      files := files - {TempOf(main)};
      files := files - {BadOf(main)};
    }
  }
}
