/**
 The one-time handoff files between host and guest: consuming the session token and publishing
 the recovery report, relative to a pinned parent directory (crates/agent/src/handoff_fs.rs).
 `failing` names the system calls that fail; a hook stands for what another process does to the
 directory's entries just before the bound entry is looked up again, and `meanwhile` for what others
 do once a failed publisher has closed its file, reuse of its inode number included.

 A stat that fails stands beside the call it follows: `ReadFile`, `SyncFile` and `StatDirectory` fail
 also where the stat behind them does, and `Unlink` also where the entry cannot be looked at for the
 clean-up. The stats that open a file's way to privacy are calls of their own.
 */
module Handoff {
  import opened Bytes

  // permission bits: 0700, 0600, and what the Windows backend shows, 0755 and 0644
  const PRIVATE_DIRECTORY_MODE: nat := 0x1c0
  const PRIVATE_FILE_MODE: nat := 0x180
  const WINDOWS_DIRECTORY_MODE: nat := 0x1ed
  const WINDOWS_FILE_MODE: nat := 0x1a4

  const TOKEN_TEXT_BYTES: nat := 64
  const REPORT_MAX_BYTES: nat := 1024 * 1024

  datatype Security = Posix | WindowsVirtioFs

  datatype Kind = Regular | Symlink | OtherKind

  datatype Inode = Inode(kind: Kind, mode: nat, content: Text)

  datatype SystemCall =
    | StatParent | ChmodDirectory | RestatParent                  // making the directory private
    | OpenFile | StatNew | StatFile | ChmodFile | RestatFile      // opening a file and making it private
    | ReadFile | Truncate | SyncFile | StatDirectory | Unlink | SyncDirectory
    | RemoveDirectory                                             // any call of the best-effort removal

  type Entries = map<Text, nat>

  function ModeAllowed(mode: nat, strict: nat, windows: nat, security: Security): bool {
    mode == strict || (security.WindowsVirtioFs? && mode == windows)
  }

  predicate LeadsInto(entries: Entries, inodes: set<nat>) {
    forall name <- entries :: entries[name] in inodes
  }

  predicate LeadsTo(entries: Entries, name: Text, inode: nat) {
    name in entries && entries[name] == inode
  }

  /** What a directory holds. */
  datatype Disk = Disk(entries: Entries, inodes: map<nat, Inode>)

  /** What others do keeps every entry leading to an inode. */
  ghost predicate Tame(others: Disk -> Disk) {
    forall disk: Disk :: LeadsInto(disk.entries, disk.inodes.Keys) ==>
      LeadsInto(others(disk).entries, others(disk).inodes.Keys)
  }

  /** Whether something shown with this mode can be made private by these three calls. */
  predicate Privatized(shown: nat, strict: nat, windows: nat, security: Security, failing: set<SystemCall>,
                       stat: SystemCall, chmod: SystemCall, restat: SystemCall) {
    && stat !in failing && ModeAllowed(shown, strict, windows, security)
    && (shown == strict || (chmod !in failing && restat !in failing))
  }

  /** The mode it then has; the tightening holds even if it cannot be confirmed. */
  function ModeAfter(shown: nat, strict: nat, windows: nat, security: Security, failing: set<SystemCall>,
                     stat: SystemCall, chmod: SystemCall): nat {
    if stat !in failing && security.WindowsVirtioFs? && shown == windows && chmod !in failing then strict else shown
  }

  predicate DirectoryPrivate(mode: nat, security: Security, failing: set<SystemCall>) {
    Privatized(mode, PRIVATE_DIRECTORY_MODE, WINDOWS_DIRECTORY_MODE, security, failing,
               StatParent, ChmodDirectory, RestatParent)
  }

  function DirectoryModeAfter(mode: nat, security: Security, failing: set<SystemCall>): nat {
    ModeAfter(mode, PRIVATE_DIRECTORY_MODE, WINDOWS_DIRECTORY_MODE, security, failing, StatParent, ChmodDirectory)
  }

  predicate MadePrivate(shown: nat, security: Security, failing: set<SystemCall>) {
    Privatized(shown, PRIVATE_FILE_MODE, WINDOWS_FILE_MODE, security, failing, StatFile, ChmodFile, RestatFile)
  }

  function FileModeAfter(shown: nat, security: Security, failing: set<SystemCall>): nat {
    ModeAfter(shown, PRIVATE_FILE_MODE, WINDOWS_FILE_MODE, security, failing, StatFile, ChmodFile)
  }

  /** A new empty file under the name. */
  function Made(disk: Disk, name: Text, inode: nat, mode: nat): Disk {
    Disk(disk.entries[name := inode], disk.inodes[inode := Inode(Regular, mode, [])])
  }

  /** As much as fits is written; another process then gets at the entries if the file could be synced. */
  function Written(disk: Disk, encoded: Text, failing: set<SystemCall>, inode: nat, room: nat, hook: Entries -> Entries): Disk
    requires inode in disk.inodes
  {
    var part := if room < |encoded| then room else |encoded|;
    Disk(if room >= |encoded| && SyncFile !in failing then hook(disk.entries) else disk.entries,
         disk.inodes[inode := disk.inodes[inode].(content := encoded[..part])])
  }

  /** The name is taken away exactly if it leads to that number, a private regular file, and unlinking works. */
  function CleanedUp(disk: Disk, name: Text, inode: nat, failing: set<SystemCall>): Disk {
    if LeadsTo(disk.entries, name, inode) && inode in disk.inodes && disk.inodes[inode].kind.Regular?
       && disk.inodes[inode].mode == PRIVATE_FILE_MODE && Unlink !in failing
    then disk.(entries := disk.entries - {name})
    else disk
  }

  /** Modes accepted with nothing failing: 0600 for files and 0700 for directories, and what the Windows backend shows. */
  lemma AcceptedModes(mode: nat, failing: set<SystemCall>)
    requires failing !! {StatParent, ChmodDirectory, RestatParent, StatFile, ChmodFile, RestatFile}
    ensures MadePrivate(mode, Posix, failing) <==> mode == 384
    ensures MadePrivate(mode, WindowsVirtioFs, failing) <==> mode == 384 || mode == 420
    ensures DirectoryPrivate(mode, Posix, failing) <==> mode == 448
    ensures DirectoryPrivate(mode, WindowsVirtioFs, failing) <==> mode == 448 || mode == 493
  {
  }

  /** A token file that can be read and emptied. */
  predicate Takeable(file: Inode, readable: Text -> bool, security: Security, failing: set<SystemCall>) {
    && file.kind.Regular? && |file.content| == TOKEN_TEXT_BYTES && MadePrivate(file.mode, security, failing)
    && readable(file.content) && failing !! {OpenFile, ReadFile, Truncate}
  }

  /** A filled file is confirmed: whole, synced, and what the name leads to. */
  predicate Confirmable(encoded: Text, failing: set<SystemCall>, room: nat, named: bool) {
    room >= |encoded| && failing !! {SyncFile, StatDirectory, SyncDirectory} && named
  }

  /** A private new file that is cleaned up, undisturbed, stays exactly if unlinking fails and it still has the name. */
  lemma StaysBehind(made: Disk, name: Text, encoded: Text, failing: set<SystemCall>, inode: nat, room: nat, hook: Entries -> Entries)
    requires LeadsTo(made.entries, name, inode) && inode in made.inodes
    requires made.inodes[inode].kind.Regular? && made.inodes[inode].mode == PRIVATE_FILE_MODE
    ensures LeadsTo(CleanedUp(Written(made, encoded, failing, inode, room, hook), name, inode, failing).entries, name, inode) <==>
              Unlink in failing && (room >= |encoded| && SyncFile !in failing ==> LeadsTo(hook(made.entries), name, inode))
  {
  }

  class Directory {
    const identity: nat
    const readable: Text -> bool      // whether bytes are UTF-8
    var mode: nat
    var entries: Entries
    var inodes: map<nat, Inode>
    var pathNames: Option<nat>        // the directory its path leads to at present

    ghost predicate Valid()
      reads this
    {
      LeadsInto(entries, inodes.Keys)
    }

    /** The name is bound to this very inode, still a private regular file. */
    predicate Bound(name: Text, inode: nat)
      requires Valid()
      reads this
    {
      && LeadsTo(entries, name, inode)
      && inodes[inode].kind.Regular? && inodes[inode].mode == PRIVATE_FILE_MODE
    }

    /** A regular file of this length, the shape a handoff file must have before its mode matters. */
    static predicate Shaped(file: Inode, length: nat) {
      file.kind.Regular? && |file.content| == length
    }

    /** Success is a private directory; a failure changes the mode only where the last look at it failed. */
    method NormalizeDirectory(security: Security, failing: set<SystemCall>) returns (ok: bool)
      modifies this`mode
      ensures ok <==> DirectoryPrivate(old(mode), security, failing)
      ensures ok ==> mode == PRIVATE_DIRECTORY_MODE
      ensures mode == DirectoryModeAfter(old(mode), security, failing)
    {
      if StatParent in failing { return false; }
      if mode == PRIVATE_DIRECTORY_MODE { return true; }
      if security.WindowsVirtioFs? && mode == WINDOWS_DIRECTORY_MODE && ChmodDirectory !in failing {
        mode := PRIVATE_DIRECTORY_MODE;
        return RestatParent !in failing;
      }
      return false;
    }

    method NormalizeFile(inode: nat, length: nat, security: Security, failing: set<SystemCall>) returns (ok: bool)
      requires inode in inodes
      modifies this`inodes
      ensures ok <==> Shaped(old(inodes[inode]), length) && MadePrivate(old(inodes[inode]).mode, security, failing)
      ensures inodes == if Shaped(old(inodes[inode]), length)
                        then old(inodes)[inode := old(inodes[inode])
                                                  .(mode := FileModeAfter(old(inodes[inode]).mode, security, failing))]
                        else old(inodes)
      ensures ok ==> inodes[inode].mode == PRIVATE_FILE_MODE
    {
      var file := inodes[inode];
      ok := false;
      if StatFile !in failing && Shaped(file, length) {
        if file.mode == PRIVATE_FILE_MODE {
          ok := true;
        } else if security.WindowsVirtioFs? && file.mode == WINDOWS_FILE_MODE && ChmodFile !in failing {
          inodes := inodes[inode := file.(mode := PRIVATE_FILE_MODE)];
          ok := RestatFile !in failing;
        }
      }
    }

    /** Unlink the name if it still leads to the expected inode, and otherwise nothing. */
    method RemoveBound(name: Text, expected: nat, failing: set<SystemCall>) returns (ok: bool)
      requires Valid()
      modifies this`entries
      ensures Valid()
      ensures ok <==> old(Bound(name, expected)) && Unlink !in failing
      ensures entries == if ok then old(entries) - {name} else old(entries)
    {
      if !Bound(name, expected) || Unlink in failing { return false; }
      entries := entries - {name};
      return true;
    }

    /** Remove the directory itself if its path still leads here, best effort. */
    method RemoveBoundDirectory(failing: set<SystemCall>)
      modifies this`pathNames
      ensures pathNames == if old(pathNames) == Some(identity) && mode == PRIVATE_DIRECTORY_MODE && entries == map[]
                              && RemoveDirectory !in failing
                           then None else old(pathNames)
    {
      if pathNames == Some(identity) && mode == PRIVATE_DIRECTORY_MODE && entries == map[] && RemoveDirectory !in failing {
        pathNames := None;
      }
    }

    /** The token is read and emptied. */
    ghost predicate Readied(name: Text, security: Security, failing: set<SystemCall>)
      requires Valid()
      reads this
    {
      && DirectoryPrivate(mode, security, failing) && name in entries
      && Takeable(inodes[entries[name]], readable, security, failing)
    }

    /** Everything a token needs to be handed over. */
    ghost predicate Consumable(name: Text, security: Security, failing: set<SystemCall>)
      requires Valid()
      reads this
    {
      Readied(name, security, failing) && failing !! {SyncFile, StatDirectory, Unlink}
    }

    /**
     Read and consume the token. It is returned exactly when it is consumable and the hook left the
     name alone; then it is gone from the inode and from the directory. A token that was read is emptied
     before its entry is touched, and stays emptied whatever fails then; one that could not be read keeps
     its text. In every case the hook's are the only other entries to change, and no inode but the one
     opened is touched. The directory goes exactly when it is empty then and its path still leads to it.
     */
    method ConsumeToken(name: Text, security: Security, failing: set<SystemCall>, hook: Entries -> Entries)
      returns (r: Option<Text>)
      requires Valid()
      requires LeadsInto(hook(entries), inodes.Keys)
      modifies this
      ensures Valid()
      ensures r.Some? <==> old(Consumable(name, security, failing))
                           && LeadsTo(hook(old(entries)), name, old(entries)[name])
      ensures inodes.Keys == old(inodes).Keys && mode == DirectoryModeAfter(old(mode), security, failing)
      ensures r.Some? ==> r.value == old(inodes[entries[name]]).content
                          && inodes[old(entries[name])].content == [] && entries == hook(old(entries)) - {name}
      ensures r.None? ==> entries == if old(Readied(name, security, failing)) && failing !! {SyncFile, StatDirectory}
                                     then hook(old(entries)) else old(entries)
      ensures name in old(entries) ==>
                var before := old(inodes[entries[name]]);
                var after := inodes[old(entries)[name]];
                && after.kind == before.kind
                && after.content == (if old(Readied(name, security, failing)) then [] else before.content)
                && after.mode == (if old(DirectoryPrivate(mode, security, failing)) && OpenFile !in failing
                                     && Shaped(before, TOKEN_TEXT_BYTES)
                                  then FileModeAfter(before.mode, security, failing) else before.mode)
      ensures forall i <- inodes ::
                !(name in old(entries) && i == old(entries)[name]) ==> inodes[i] == old(inodes)[i]
      ensures pathNames == if r.Some? && old(pathNames) == Some(identity) && entries == map[] && RemoveDirectory !in failing
                           then None else old(pathNames)
    {
      var ok := NormalizeDirectory(security, failing);
      if !ok { return None; }
      if name !in entries || OpenFile in failing || inodes[entries[name]].kind.Symlink? { return None; }
      var file := entries[name];
      ok := NormalizeFile(file, TOKEN_TEXT_BYTES, security, failing);
      if !ok { return None; }
      var encoded := inodes[file].content;
      if ReadFile in failing || !readable(encoded) { return None; }
      if Truncate in failing { return None; }
      inodes := inodes[file := inodes[file].(content := [])];
      if SyncFile in failing || StatDirectory in failing { return None; }
      entries := hook(entries);
      ok := RemoveBound(name, file, failing);
      if !ok { return None; }
      RemoveBoundDirectory(failing);
      return Some(encoded);
    }

    /**
     Fill and confirm a fresh private file, or close it and take its entry away again. What is taken
     away is whatever then has the name and the number.
     */
    method FillReport(name: Text, encoded: Text, failing: set<SystemCall>, inode: nat, room: nat,
                      hook: Entries -> Entries, meanwhile: Disk -> Disk)
      returns (ok: bool)
      requires Valid() && LeadsInto(hook(entries), inodes.Keys) && Bound(name, inode) && Tame(meanwhile)
      modifies this`entries, this`inodes
      ensures Valid()
      ensures ok <==> Confirmable(encoded, failing, room, LeadsTo(hook(old(entries)), name, inode))
      ensures var written := Written(old(Disk(entries, inodes)), encoded, failing, inode, room, hook);
              Disk(entries, inodes) == if ok then written else CleanedUp(meanwhile(written), name, inode, failing)
    {
      ok := false;
      var part := if room < |encoded| then room else |encoded|;
      inodes := inodes[inode := inodes[inode].(content := encoded[..part])];
      if room >= |encoded| && SyncFile !in failing {
        entries := hook(entries);
        if Bound(name, inode) && StatDirectory !in failing && SyncDirectory !in failing {
          return true;
        }
      }
      var disk := meanwhile(Disk(entries, inodes));
      entries, inodes := disk.entries, disk.inodes;
      var removed := RemoveBound(name, inode, failing);
    }

    /**
     Create the file exclusively and make it private. One that cannot be made private is cleaned up if it
     could be identified when it was opened, and that takes it away only if its mode is private after all.
     */
    method CreateReport(name: Text, security: Security, failing: set<SystemCall>, inode: nat, shown: nat)
      returns (private: bool)
      requires Valid() && inode !in inodes && name !in entries
      modifies this`entries, this`inodes
      ensures Valid()
      ensures private <==> MadePrivate(shown, security, failing)
      ensures var made := Made(old(Disk(entries, inodes)), name, inode, FileModeAfter(shown, security, failing));
              Disk(entries, inodes) == if private || StatNew in failing then made
                                       else CleanedUp(made, name, inode, failing)
    {
      inodes := inodes[inode := Inode(Regular, shown, [])];
      entries := entries[name := inode];
      private := NormalizeFile(inode, 0, security, failing);
      assert inodes == old(inodes)[inode := Inode(Regular, FileModeAfter(shown, security, failing), [])];
      if !private && StatNew !in failing {
        var removed := RemoveBound(name, inode, failing);
      }
    }

    /**
     Publish a report under a fresh name. `inode` is the number the system gives the new file,
     `shown` the mode it shows for it, and `room` the bytes it can still hold. On success the name
     leads to that inode, private, holding exactly the bytes, and nothing else has changed but by the
     hook. A file that cannot be made private stays unless it could be identified and is private after all.
     A later failure closes the file and cleans up what others have made of the directory meanwhile.
     */
    method PublishReport(name: Text, encoded: Text, security: Security, failing: set<SystemCall>,
                         inode: nat, shown: nat, room: nat, hook: Entries -> Entries, meanwhile: Disk -> Disk)
      returns (ok: bool, created: bool)
      requires Valid() && inode !in inodes && Tame(meanwhile)
      requires LeadsInto(hook(entries[name := inode]), inodes.Keys + {inode})
      modifies this`mode, this`entries, this`inodes
      ensures Valid()
      ensures created <==> |encoded| <= REPORT_MAX_BYTES && name !in old(entries) && OpenFile !in failing
                           && DirectoryPrivate(old(mode), security, failing)
      ensures !created ==> !ok && entries == old(entries) && inodes == old(inodes)
      ensures mode == if |encoded| <= REPORT_MAX_BYTES then DirectoryModeAfter(old(mode), security, failing) else old(mode)
      ensures ok <==> created && MadePrivate(shown, security, failing)
                      && Confirmable(encoded, failing, room, LeadsTo(hook(old(entries)[name := inode]), name, inode))
      ensures ok ==> Bound(name, inode) && inodes[inode].content == encoded && mode == PRIVATE_DIRECTORY_MODE
      ensures var private, after := MadePrivate(shown, security, failing), FileModeAfter(shown, security, failing);
              var made := Made(old(Disk(entries, inodes)), name, inode, after);
              var written := Written(made, encoded, failing, inode, room, hook);
              && (created && !private ==>
                    Disk(entries, inodes) == if StatNew in failing then made else CleanedUp(made, name, inode, failing))
              && (created && private ==>
                    Disk(entries, inodes) == if ok then written else CleanedUp(meanwhile(written), name, inode, failing))
              // left to itself, its own failed file stays behind exactly so
              && (created && !private ==>
                    (LeadsTo(entries, name, inode) <==>
                       StatNew in failing || after != PRIVATE_FILE_MODE || Unlink in failing))
              && (created && private && !ok && meanwhile(written) == written ==>
                    (LeadsTo(entries, name, inode) <==>
                       Unlink in failing
                       && (room >= |encoded| && SyncFile !in failing ==> LeadsTo(hook(made.entries), name, inode))))
    {
      ok, created := false, false;
      if |encoded| > REPORT_MAX_BYTES { return; }
      var fine := NormalizeDirectory(security, failing);
      if !fine || name in entries || OpenFile in failing { return; }
      created := true;
      var private := CreateReport(name, security, failing, inode, shown);
      if !private { return; }
      StaysBehind(Disk(entries, inodes), name, encoded, failing, inode, room, hook);
      ok := FillReport(name, encoded, failing, inode, room, hook, meanwhile);
    }
  }

  /**
   Three reports left behind, with nobody else at work: one that the Windows backend
   shows as 0644 and that cannot be tightened, one that is private but could not be looked at, and one
   that could not be written and not be unlinked.
   */
  method ReportLeftBehind(directory: Directory, name: Text, encoded: Text, inode: nat, security: Security,
                          shown: nat, failing: set<SystemCall>)
    requires directory.Valid() && directory.mode == PRIVATE_DIRECTORY_MODE && |encoded| <= REPORT_MAX_BYTES
    requires name !in directory.entries && inode !in directory.inodes
    requires || (security.WindowsVirtioFs? && shown == WINDOWS_FILE_MODE && failing == {ChmodFile})
             || (shown == PRIVATE_FILE_MODE && failing == {StatNew, StatFile})
             || (shown == PRIVATE_FILE_MODE && failing == {SyncFile, Unlink})
    modifies directory
    ensures directory.entries == old(directory.entries)[name := inode]
  {
    var ok, created := directory.PublishReport(name, encoded, security, failing, inode, shown, |encoded|,
                                               entries => entries, disk => disk);
  }

  /** A private file whose second look alone failed is removed again, and so is one tightened but not looked at then. */
  method UnseenReportRemoved(directory: Directory, name: Text, encoded: Text, inode: nat, security: Security,
                             shown: nat, failing: set<SystemCall>)
    requires directory.Valid() && directory.mode == PRIVATE_DIRECTORY_MODE && |encoded| <= REPORT_MAX_BYTES
    requires name !in directory.entries && inode !in directory.inodes
    requires || (shown == PRIVATE_FILE_MODE && failing == {StatFile})
             || (security.WindowsVirtioFs? && shown == WINDOWS_FILE_MODE && failing == {RestatFile})
    modifies directory
    ensures directory.entries == old(directory.entries)
  {
    var ok, created := directory.PublishReport(name, encoded, security, failing, inode, shown, |encoded|,
                                               entries => entries, disk => disk);
  }
}
