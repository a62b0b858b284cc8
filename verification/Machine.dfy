/** The machine under the transaction engine: what is durable, and the
    operating-system calls that change it. Every call can succeed, fail, or be
    the one during which the machine stops; a call that is cut short leaves
    either the state before it or the state after it, except that a copy and a
    journal write can also stop part way. */
module Machines {
  import opened Bytes
  import opened Wrappers
  import opened Journal

  type Content = seq<byte>
  type Tree = map<wstring, Content>

  /** files: the installation. backups: the transaction's own backup directory.
      journal: journal.log, when it exists. version: DisplayVersion. */
  datatype Disk = Disk(journal: Option<seq<byte>>, files: Tree, backups: Tree, version: wstring)

  /** What no step of the engine writes: the staged payload and the uninstall key's
      other values. sha stands for the digest of a file's content. */
  datatype World = World(sha: Content -> Digest, staging: Tree, installLocation: wstring, schema: int)

  class Machine {
    var disk: Disk
    var up: bool            // the process is still running
    ghost var sound: bool     // no operating-system call has failed so far
    ghost var flushLost: bool // a Complete record got to disk whole, and its flush was reported to fail

    constructor (disk: Disk)
      ensures this.disk == disk && up && sound && !flushLost
    {
      this.disk := disk;
      up := true;
      sound := true;
      flushLost := false;
    }

    /** The machine comes back with what was durable. */
    method Restart()
      modifies this`up
      ensures up
    {
      up := true;
    }

    method CreateJournal(header: seq<byte>) returns (ok: bool)
      requires up && disk.journal.None?
      modifies this
      ensures disk == old(disk).(journal := disk.journal) && (sound ==> old(sound)) && flushLost == old(flushLost)
      ensures disk.journal.None? || disk.journal.value <= header
      ensures ok ==> up && disk.journal == Some(header)
      ensures up && !ok ==> !sound
    {
      ok := false;
      if * {
        disk := disk.(journal := Some(header));
        ok := true;
        return;
      }
      if * {
        var kept: nat :| kept <= |header|;
        disk := disk.(journal := Some(header[..kept]));
      }
      if * {
        up := false;
      } else {
        // removing what was created is tried, but it can fail as well
        sound := false;
      }
    }

    /** Writes and flushes. Any part of the bytes can be left behind by a failure. */
    method AppendJournal(bytes: seq<byte>, ghost complete: bool) returns (ok: bool, ghost kept: nat)
      requires up && disk.journal.Some?
      modifies this
      ensures kept <= |bytes|
      ensures disk == old(disk).(journal := Some(old(disk).journal.value + bytes[..kept]))
      ensures ok ==> up && kept == |bytes|
      ensures up && !ok ==> !sound
      ensures sound ==> old(sound)
      ensures flushLost <==> old(flushLost) || (complete && up && !ok && kept == |bytes|)
    {
      var n: nat :| n <= |bytes|;
      ok := false;
      if * {
        n := |bytes|;
        ok := true;
      } else if * {
        up := false;
      } else {
        sound := false;
        flushLost := flushLost || (complete && n == |bytes|);
      }
      kept := n;
      disk := disk.(journal := Some(disk.journal.value + bytes[..n]));
    }

    /** Copies content into a file that must not exist yet. */
    method WriteBackup(path: wstring, content: Content) returns (ok: bool)
      requires up
      modifies this
      ensures disk == old(disk).(backups := disk.backups) && (sound ==> old(sound)) && flushLost == old(flushLost)
      ensures disk.backups - {path} == old(disk).backups - {path}
      ensures ok ==> up && path in disk.backups && disk.backups[path] == content
      ensures up && !ok ==> !sound
    {
      ok := false;
      if path in disk.backups {
        sound := false;
        return;
      }
      if * {
        disk := disk.(backups := disk.backups[path := content]);
        ok := true;
      } else if * {
        var kept: nat :| kept <= |content|;
        disk := disk.(backups := disk.backups[path := content[..kept]]);
        up := false;
      } else {
        sound := false;
      }
    }

    method DropBackup(path: wstring)
      requires up
      modifies this
      ensures disk == old(disk) || disk == old(disk).(backups := old(disk).backups - {path})
      ensures (sound ==> old(sound)) && flushLost == old(flushLost)
      ensures up ==> sound == old(sound)
    {
      if * {
        disk := disk.(backups := disk.backups - {path});
      }
      if * {
        up := false;
      }
    }

    /** Atomic rename of a verified temporary file onto the target. */
    method Place(target: wstring, content: Content, replace: bool) returns (ok: bool)
      requires up
      modifies this
      ensures
        || disk == old(disk)
        || ((replace || target !in old(disk).files)
            && disk == old(disk).(files := old(disk).files[target := content]))
      ensures (sound ==> old(sound)) && flushLost == old(flushLost)
      ensures ok ==> up && target in disk.files && disk == old(disk).(files := old(disk).files[target := content])
      ensures ok ==> replace || target !in old(disk).files
      ensures up && !ok ==> disk == old(disk)
      ensures up && !ok && (replace || target !in old(disk).files) ==> !sound
    {
      ok := false;
      if !replace && target in disk.files {
        return;
      }
      if * {
        disk := disk.(files := disk.files[target := content]);
        ok := true;
      } else if * {
        if * {
          disk := disk.(files := disk.files[target := content]);
        }
        up := false;
      } else {
        sound := false;
      }
    }

    method Remove(target: wstring) returns (ok: bool)
      requires up
      modifies this
      ensures disk == old(disk) || disk == old(disk).(files := old(disk).files - {target})
      ensures (sound ==> old(sound)) && flushLost == old(flushLost)
      ensures ok ==> up && disk == old(disk).(files := old(disk).files - {target})
      ensures up && !ok ==> disk == old(disk)
      ensures up && !ok && target in old(disk).files ==> !sound
    {
      ok := false;
      if target !in disk.files {
        return;
      }
      if * {
        disk := disk.(files := disk.files - {target});
        ok := true;
      } else if * {
        if * {
          disk := disk.(files := disk.files - {target});
        }
        up := false;
      } else {
        sound := false;
      }
    }

    method WriteVersion(version: wstring) returns (ok: bool)
      requires up
      modifies this
      ensures disk == old(disk) || disk == old(disk).(version := version)
      ensures (sound ==> old(sound)) && flushLost == old(flushLost)
      ensures ok ==> up && disk == old(disk).(version := version)
      ensures up && !ok ==> disk == old(disk) && !sound
    {
      ok := false;
      if * {
        disk := disk.(version := version);
        ok := true;
      } else if * {
        if * {
          disk := disk.(version := version);
        }
        up := false;
      } else {
        sound := false;
      }
    }

    /** Creating the backup and temporary directories of the transaction. */
    method MakeDirectories() returns (ok: bool)
      requires up
      modifies this`sound
      ensures (sound ==> old(sound)) && (!ok ==> !sound)
    {
      ok := true;
      if * {
        ok := false;
        sound := false;
      }
    }

    // Reads change nothing durable, so stopping during one is stopping beside it.

    method ReadVersion() returns (version: Option<wstring>)
      modifies this`sound
      ensures (sound ==> old(sound)) && (version.Some? ==> version.value == disk.version && sound == old(sound))
      ensures version.None? ==> !sound
    {
      version := Some(disk.version);
      if * {
        version := None;
        sound := false;
      }
    }

    method ReadJournal() returns (bytes: Option<seq<byte>>)
      requires disk.journal.Some?
      modifies this`sound
      ensures (sound ==> old(sound)) && (bytes.Some? ==> bytes == disk.journal && sound == old(sound))
      ensures bytes.None? ==> !sound
    {
      bytes := disk.journal;
      if * {
        bytes := None;
        sound := false;
      }
    }

    method Read(from: Tree, path: wstring) returns (content: Option<Content>)
      modifies this`sound
      ensures sound ==> old(sound)
      ensures content.Some? ==> path in from && content.value == from[path] && sound == old(sound)
      ensures content.None? ==> path !in from || !sound
      ensures path !in from ==> sound == old(sound)
    {
      content := None;
      if path in from {
        content := Some(from[path]);
        if * {
          content := None;
          sound := false;
        }
      }
    }
  }
}
