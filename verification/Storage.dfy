/**
 The storage protocol over abstract files: a save goes through the temporary file,
 the backup and the main file; a load falls back to the backup and repairs the main
 file.  A file system maps paths to contents; a rename and an unlink are atomic.
 */
module Storage {
  import opened Common

  type Files = map<string, string>

  /** A storage item is named by the path of its main file. */
  function BackupOf(main: string): string { main + ".bak" }
  function TempOf(main: string): string { main + ".tmp" }
  function BadOf(main: string): string { main + ".bad" }

  lemma PathsDistinct(main: string)
    ensures main != BackupOf(main) && main != TempOf(main) && main != BadOf(main)
    ensures BackupOf(main) != TempOf(main) && BackupOf(main) != BadOf(main) && TempOf(main) != BadOf(main)
  {
    var n := |main|;
    assert |main| != |BackupOf(main)| && |main| != |TempOf(main)| && |main| != |BadOf(main)|;
    assert BackupOf(main)[n + 3] == 'k' && TempOf(main)[n + 3] == 'p' && BadOf(main)[n + 3] == 'd';
  }

  function Rename(fs: Files, source: string, target: string): Files
    requires source in fs
  {
    fs[target := fs[source]] - (if source == target then {} else {source})
  }

  // ---- saving ----

  /** safeFileSave, first half: the main file becomes the backup; without one a stale backup goes. */
  function MoveAside(fs: Files, main: string): Files {
    if main in fs then Rename(fs, main, BackupOf(main)) else fs - {BackupOf(main)}
  }

  /** safeFileSave, second half. */
  function Swap(fs: Files, main: string): Files {
    if TempOf(main) in fs then Rename(fs, TempOf(main), main) else fs
  }

  /** A save that meets no failure. */
  function Saved(fs: Files, main: string, value: string): Files {
    Swap(MoveAside(fs[TempOf(main) := value], main), main)
  }

  /** A save in which a rename may fail; it is reported as a success all the same. */
  function SaveOutcome(fs: Files, main: string, value: string, asideFails: bool, swapFails: bool): Files {
    var fs1 := fs[TempOf(main) := value];
    var fs2 := if asideFails then fs1 else MoveAside(fs1, main);
    if swapFails then fs2 else Swap(fs2, main)
  }

  /** What the files can look like when a save of `value` is cut short. */
  ghost predicate SaveCanLeave(fs: Files, main: string, value: string, fs': Files) {
    || fs' == fs
    || (exists n :: 0 <= n <= |value| && fs' == fs[TempOf(main) := value[..n]])
    || fs' == MoveAside(fs[TempOf(main) := value], main)
    || fs' == Saved(fs, main, value)
  }

  // ---- loading ----

  datatype Choice = Original | Backup | NotPresent

  /** chooseFileToRead: an empty file is never chosen. */
  function Choose(fs: Files, main: string): Choice {
    if main in fs && fs[main] != "" then Original
    else if BackupOf(main) in fs && fs[BackupOf(main)] != "" then Backup
    else NotPresent
  }

  /** The backup, if it can be read and parsed. */
  function FromBackup(parse: string -> bool, fs: Files, main: string): Option<string> {
    if BackupOf(main) in fs && parse(fs[BackupOf(main)]) then Some(fs[BackupOf(main)]) else None
  }

  /** What loadInternalLocked returns. */
  function LoadValue(parse: string -> bool, fs: Files, main: string): Option<string> {
    match Choose(fs, main)
    case Original => if parse(fs[main]) then Some(fs[main]) else FromBackup(parse, fs, main)
    case Backup => FromBackup(parse, fs, main)
    case NotPresent => None
  }

  /** How far the copy of the backup to the main file got. */
  datatype Copy = Whole | NotBegun | Cut(length: nat)

  /** The files after a load in which moving the rejected file away, or the copy, may fail. */
  function LoadOutcome(parse: string -> bool, fs: Files, main: string, setAsideFails: bool, copy: Copy): Files {
    match Choose(fs, main)
    case Original =>
      if parse(fs[main]) then fs
      else Repaired(parse, if setAsideFails then fs else Rename(fs, main, BadOf(main)), main, copy)
    case Backup => Repaired(parse, fs, main, copy)
    case NotPresent => fs
  }

  function Repaired(parse: string -> bool, fs: Files, main: string, copy: Copy): Files {
    if FromBackup(parse, fs, main).None? then fs
    else
      var v := fs[BackupOf(main)];
      match copy
      case Whole => fs[main := v]
      case NotBegun => fs
      case Cut(n) => fs[main := if n < |v| then v[..n] else v]
  }

  /** The files after a load that meets no failure. */
  function Loaded(parse: string -> bool, fs: Files, main: string): Files {
    LoadOutcome(parse, fs, main, false, Whole)
  }

  // ---- the value an item holds ----

  /** The main file holds `v`, and a load takes it from there. */
  ghost predicate MainIs(parse: string -> bool, fs: Files, main: string, v: string) {
    main in fs && fs[main] == v && v != "" && parse(v)
  }

  ghost predicate MainUnusable(parse: string -> bool, fs: Files, main: string) {
    main !in fs || fs[main] == "" || !parse(fs[main])
  }

  /** A load returns `v`, from the main file or from the backup. */
  ghost predicate Recoverable(parse: string -> bool, fs: Files, main: string, v: string) {
    || MainIs(parse, fs, main, v)
    || (MainUnusable(parse, fs, main) && BackupOf(main) in fs && fs[BackupOf(main)] == v && v != "" && parse(v))
  }

  lemma RecoverableLoads(parse: string -> bool, fs: Files, main: string, v: string)
    requires Recoverable(parse, fs, main, v)
    ensures LoadValue(parse, fs, main) == Some(v)
    ensures MainIs(parse, Loaded(parse, fs, main), main, v)
  {
    PathsDistinct(main);
  }

  /** A completed save is what the next load returns exactly when the value is not empty and parses. */
  lemma SaveThenLoad(parse: string -> bool, fs: Files, main: string, value: string)
    ensures LoadValue(parse, Saved(fs, main, value), main) == Some(value) <==> value != "" && parse(value)
    ensures value == "" && main in fs && fs[main] != "" && parse(fs[main]) ==>
              LoadValue(parse, Saved(fs, main, value), main) == Some(fs[main])
  {
    PathsDistinct(main);
  }

  /** A save reported as a success took effect exactly when its swap did not fail; otherwise the old value stays. */
  lemma ReportedSaveIff(parse: string -> bool, fs: Files, main: string, old_: string, value: string, asideFails: bool, swapFails: bool)
    requires MainIs(parse, fs, main, old_) && value != "" && parse(value) && value != old_
    ensures var fs' := SaveOutcome(fs, main, value, asideFails, swapFails);
            && (LoadValue(parse, fs', main) == Some(value) <==> !swapFails)
            && (swapFails ==> LoadValue(parse, fs', main) == Some(old_))
  {
    PathsDistinct(main);
  }

  /** The main file is rejected by the parser, and the backup is empty but accepted. */
  predicate RescuedByEmpty(parse: string -> bool, fs: Files, main: string) {
    && main in fs && fs[main] != "" && !parse(fs[main])
    && BackupOf(main) in fs && fs[BackupOf(main)] == "" && parse("")
  }

  /** Loading again gives the same exactly unless an empty backup was accepted in place of a rejected main file. */
  lemma LoadTwiceIff(parse: string -> bool, fs: Files, main: string)
    ensures LoadValue(parse, Loaded(parse, fs, main), main) == LoadValue(parse, fs, main) <==> !RescuedByEmpty(parse, fs, main)
    ensures LoadValue(parse, fs, main).Some? && !RescuedByEmpty(parse, fs, main) ==>
              MainIs(parse, Loaded(parse, fs, main), main, LoadValue(parse, fs, main).value)
  {
    PathsDistinct(main);
  }

  /** In that case the empty value is loaded once and then nothing. */
  lemma EmptyBackupLoadsOnce(parse: string -> bool, main: string, bad: string)
    requires bad != "" && !parse(bad) && parse("")
    ensures var fs := map[main := bad, BackupOf(main) := ""];
            LoadValue(parse, fs, main) == Some("") && LoadValue(parse, Loaded(parse, fs, main), main) == None
  {
    PathsDistinct(main);
  }

  // ---- one crashed save ----

  ghost predicate CrashSafe(parse: string -> bool, fs: Files, main: string, old_: string, value: string) {
    forall fs' :: SaveCanLeave(fs, main, value, fs') ==>
      LoadValue(parse, fs', main) == Some(old_) || LoadValue(parse, fs', main) == Some(value)
  }

  lemma CrashedSaveRecovers(parse: string -> bool, fs: Files, main: string, old_: string, value: string, fs': Files)
    requires MainIs(parse, fs, main, old_) && value != "" && parse(value) && SaveCanLeave(fs, main, value, fs')
    ensures Recoverable(parse, fs', main, old_) || MainIs(parse, fs', main, value)
  {
    PathsDistinct(main);
  }

  /**
   A save of a loadable value over a loadable one, cut short anywhere, leaves the old or
   the new value to the next load exactly when the old one stood in the main file.
   */
  lemma CrashSafeIff(parse: string -> bool, fs: Files, main: string, old_: string, value: string)
    requires LoadValue(parse, fs, main) == Some(old_) && value != "" && parse(value)
    ensures CrashSafe(parse, fs, main, old_, value) <==> MainIs(parse, fs, main, old_)
  {
    PathsDistinct(main);
    if MainIs(parse, fs, main, old_) {
      forall fs' | SaveCanLeave(fs, main, value, fs')
        ensures LoadValue(parse, fs', main) == Some(old_) || LoadValue(parse, fs', main) == Some(value)
      {
        CrashedSaveRecovers(parse, fs, main, old_, value, fs');
        if Recoverable(parse, fs', main, old_) { RecoverableLoads(parse, fs', main, old_); }
        else { RecoverableLoads(parse, fs', main, value); }
      }
    } else {
      var fs' := MoveAside(fs[TempOf(main) := value], main);
      assert SaveCanLeave(fs, main, value, fs');
      assert LoadValue(parse, fs', main) == None;
    }
  }

  // ---- other items ----

  ghost function PathsOf(main: string): set<string> {
    {main, BackupOf(main), TempOf(main), BadOf(main)}
  }

  lemma SuffixInjective(a: string, b: string, s: string, t: string)
    requires |s| == |t| && a + s == b + t
    ensures a == b && s == t
  {
    assert |a| == |b|;
    assert (a + s)[..|a|] == a && (b + t)[..|b|] == b;
    assert (a + s)[|a|..] == s && (b + t)[|b|..] == t;
  }

  /** Two items share a file exactly when the path of one is that of the other with a suffix. */
  lemma ItemsDisjointIff(a: string, b: string)
    requires a != b
    ensures PathsOf(a) !! PathsOf(b) <==> a !in PathsOf(b) && b !in PathsOf(a)
  {
    if a !in PathsOf(b) && b !in PathsOf(a) {
      forall s, t | s in {".bak", ".tmp", ".bad"} && t in {".bak", ".tmp", ".bad"}
        ensures a + s != b + t
      {
        if a + s == b + t { SuffixInjective(a, b, s, t); }
      }
    }
  }

  /** What is done to one item does not change what another, disjoint one holds. */
  lemma OtherItemsKept(parse: string -> bool, fs: Files, a: string, b: string, value: string)
    requires PathsOf(a) !! PathsOf(b)
    ensures LoadValue(parse, Saved(fs, a, value), b) == LoadValue(parse, fs, b)
    ensures LoadValue(parse, Loaded(parse, fs, a), b) == LoadValue(parse, fs, b)
    ensures forall fs' :: SaveCanLeave(fs, a, value, fs') ==> LoadValue(parse, fs', b) == LoadValue(parse, fs, b)
  {
    PathsDistinct(a);
    PathsDistinct(b);
    assert b !in PathsOf(a) && BackupOf(b) !in PathsOf(a);
  }

  // ---- deleting ----

  /** storageDelete, after the main file is gone and before the rest is. */
  function MainDeleted(fs: Files, main: string): Files {
    fs - {main}
  }

  function Deleted(fs: Files, main: string): Files {
    fs - {main, BackupOf(main), TempOf(main), BadOf(main)}
  }

  /** A delete leaves nothing to load; one cut short brings back the value before the last, if there is one. */
  lemma DeleteThenLoad(parse: string -> bool, fs: Files, main: string)
    ensures LoadValue(parse, Deleted(fs, main), main) == None
    ensures LoadValue(parse, MainDeleted(fs, main), main) ==
            if BackupOf(main) in fs && fs[BackupOf(main)] != "" then FromBackup(parse, fs, main) else None
  {
    PathsDistinct(main);
  }

  // ---- what is where afterwards ----

  /** After a save the main file has the value, the backup what the main file had, the temporary file is gone, and nothing else changed. */
  lemma SaveLeaves(fs: Files, main: string, value: string, path: string)
    ensures var fs' := Saved(fs, main, value);
            && main in fs' && fs'[main] == value && TempOf(main) !in fs'
            && (main in fs ==> BackupOf(main) in fs' && fs'[BackupOf(main)] == fs[main])
            && (main !in fs ==> BackupOf(main) !in fs')
            && (path !in {main, BackupOf(main), TempOf(main)} ==>
                  (path in fs' <==> path in fs) && (path in fs' ==> fs'[path] == fs[path]))
  {
    PathsDistinct(main);
  }

  /** A rejected main file is kept as the bad file; the backup is never touched by a load. */
  lemma LoadLeaves(parse: string -> bool, fs: Files, main: string, path: string)
    ensures var fs' := Loaded(parse, fs, main);
            && (main in fs && fs[main] != "" && !parse(fs[main]) ==> BadOf(main) in fs' && fs'[BadOf(main)] == fs[main])
            && (path !in {main, BadOf(main)} ==>
                  (path in fs' <==> path in fs) && (path in fs' ==> fs'[path] == fs[path]))
  {
    PathsDistinct(main);
  }

  /** A delete removes the item's four files and nothing else. */
  lemma DeleteLeaves(fs: Files, main: string, path: string)
    ensures path in Deleted(fs, main) <==> path in fs && path !in {main, BackupOf(main), TempOf(main), BadOf(main)}
    ensures path in Deleted(fs, main) ==> Deleted(fs, main)[path] == fs[path]
  {
  }
}
