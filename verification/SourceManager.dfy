/** The downloader's last-known-good source list: one manifest in memory, two files on disk
    (steam_pumper/remote_sources.py, RemoteSourceManager). */
module SourceManager {
  import opened Wrappers
  import opened Manifest

  type Bytes = string
  type Tag = string

  /** `verify` checks an envelope's signature and reads its payload: a fixed predicate on bytes. */
  datatype Config = Config(rules: Rules, verify: Bytes -> Option<Document>)

  /** The state file; the texts it also keeps for display are left out. */
  datatype Saved = Saved(revision: int, etag: Tag, failureCount: nat)

  datatype Disk = Disk(state: Option<Saved>, envelope: Option<Bytes>)

  datatype Memory = Memory(manifest: Option<Manifest>, envelope: Option<Bytes>, urls: seq<Url>, etag: Tag,
                           failureCount: nat)

  /** What a fetch brings; a missing ETag header is an empty one. */
  datatype Response = Cancelled | Unavailable | NotModified | Fetched(body: Bytes, etag: Tag)

  /** What becomes of an atomic write: done, refused with nothing written, or the process dies. */
  datatype Write = Done | Refused | CrashBefore | CrashAfter

  /** `memory` is None when the process has died. */
  datatype Outcome = Outcome(disk: Disk, memory: Option<Memory>, changed: bool)

  function Read(config: Config, envelope: Bytes, now: int, allowExpired: bool): Option<Manifest> {
    var document := config.verify(envelope);
    if document.None? then None else Parsed(config.rules, document.value, now, allowExpired)
  }

  /** 0 for an envelope that does not verify. */
  function RevisionOf(verify: Bytes -> Option<Document>, envelope: Bytes): int {
    var document := verify(envelope);
    if document.Some? then document.value.revision else 0
  }

  function UrlsOf(manifest: Option<Manifest>): seq<Url> {
    if manifest.Some? then Urls(manifest.value) else []
  }

  /** 0 while no manifest was ever accepted. */
  function Revision(memory: Memory): int {
    if memory.manifest.Some? then memory.manifest.value.revision else 0
  }

  function Written(disk: Disk, after: Disk, write: Write): Disk {
    if write.Done? || write.CrashAfter? then after else disk
  }

  function Loaded(config: Config, disk: Disk, now: int, write: Write): Outcome {
    var manifest := if disk.envelope.Some? then Read(config, disk.envelope.value, now, true) else None;
    var state := disk.state;
    if manifest.Some? then
      var revision, urls := manifest.value.revision, Urls(manifest.value);
      if state.Some? && state.value.revision == revision then
        Outcome(disk, Some(Memory(manifest, disk.envelope, urls, state.value.etag, state.value.failureCount)), false)
      else
        var after := Written(disk, disk.(state := Some(Saved(revision, "", 0))), write);
        if write.CrashBefore? || write.CrashAfter? then Outcome(after, None, false)
        else Outcome(after, Some(Memory(manifest, disk.envelope, urls, "", 0)), false)
    else if state.Some? && state.value.revision == 0 then
      Outcome(disk, Some(Memory(None, None, [], state.value.etag, state.value.failureCount)), false)
    else Outcome(disk, Some(Memory(None, None, [], "", 0)), false)
  }

  /** The manifest a refresh accepts: not older than the held one, and of equal revision only if it
      is the very same envelope. */
  function Accepted(config: Config, memory: Memory, response: Response, now: int): Option<Manifest> {
    match response
    case Cancelled => None
    case Unavailable => None
    case NotModified => memory.manifest
    case Fetched(body, etag) =>
      var manifest := Read(config, body, now, false);
      if manifest.None? then None
      else if memory.manifest.Some? && manifest.value.revision < Revision(memory) then None
      else if memory.manifest.None? || manifest.value.revision > Revision(memory) then manifest
      else if memory.envelope != Some(body) then None
      else manifest
  }

  /** A refresh that failed: another failure is counted and, if possible, saved. */
  function FailedRefresh(disk: Disk, memory: Memory, write: Write): Outcome {
    var saved := Saved(Revision(memory), memory.etag, memory.failureCount + 1);
    var after := Written(disk, disk.(state := Some(saved)), write);
    if write.CrashBefore? || write.CrashAfter? then Outcome(after, None, false)
    else Outcome(after, Some(memory.(failureCount := memory.failureCount + 1)), false)
  }

  function NewTag(memory: Memory, response: Response): Tag {
    if response.Fetched? && response.etag != "" then response.etag else memory.etag
  }

  /** The state goes to disk first, then the envelope if its revision is new; the second result is
      what became of the last write attempted. */
  function FilesWritten(disk: Disk, memory: Memory, manifest: Manifest, response: Response,
                        stateWrite: Write, envelopeWrite: Write): (Disk, Write) {
    var saved := Written(disk, disk.(state := Some(Saved(manifest.revision, NewTag(memory, response), 0))), stateWrite);
    if !stateWrite.Done? then (saved, stateWrite)
    else if !response.Fetched? || (memory.manifest.Some? && manifest.revision == Revision(memory)) then (saved, Done)
    else (Written(saved, saved.(envelope := Some(response.body)), envelopeWrite), envelopeWrite)
  }

  /** Memory switches only after both files are written. */
  function Committed(disk: Disk, memory: Memory, manifest: Manifest, response: Response,
                     stateWrite: Write, envelopeWrite: Write, failureWrite: Write): Outcome {
    var (files, write) := FilesWritten(disk, memory, manifest, response, stateWrite, envelopeWrite);
    if write.Refused? then FailedRefresh(files, memory, failureWrite)
    else if !write.Done? then Outcome(files, None, false)
    else
      var envelope := if response.Fetched? then Some(response.body) else memory.envelope;
      Outcome(files, Some(Memory(Some(manifest), envelope, Urls(manifest), NewTag(memory, response), 0)),
              memory.manifest.None? || Urls(manifest) != UrlsOf(memory.manifest))
  }

  function Refreshed(config: Config, disk: Disk, memory: Memory, response: Response, now: int,
                     stateWrite: Write, envelopeWrite: Write, failureWrite: Write): Outcome {
    var manifest := Accepted(config, memory, response, now);
    if response.Cancelled? then Outcome(disk, Some(memory), false)
    else if manifest.None? then FailedRefresh(disk, memory, failureWrite)
    else Committed(disk, memory, manifest.value, response, stateWrite, envelopeWrite, failureWrite)
  }

  class RemoteSourceManager {
    const config: Config
    // The two files of the data directory.
    var stateFile: Option<Saved>
    var envelopeFile: Option<Bytes>
    var manifest: Option<Manifest>
    var envelope: Option<Bytes>
    var urls: seq<Url>
    var etag: Tag
    var failureCount: nat

    function OnDisk(): Disk
      reads this
    {
      Disk(stateFile, envelopeFile)
    }

    function InMemory(): Memory
      reads this
    {
      Memory(manifest, envelope, urls, etag, failureCount)
    }

    constructor (config: Config, disk: Disk)
      ensures OnDisk() == disk && this.config == config
      ensures InMemory() == Memory(None, None, [], "", 0)
    {
      this.config, stateFile, envelopeFile := config, disk.state, disk.envelope;
      manifest, envelope, urls, etag, failureCount := None, None, [], "", 0;
    }

    method SaveState(saved: Saved, write: Write)
      modifies this`stateFile
      ensures stateFile == if write.Done? || write.CrashAfter? then Some(saved) else old(stateFile)
    {
      if write.Done? || write.CrashAfter? {
        stateFile := Some(saved);
      }
    }

    method SaveEnvelope(bytes: Bytes, write: Write)
      modifies this`envelopeFile
      ensures envelopeFile == if write.Done? || write.CrashAfter? then Some(bytes) else old(envelopeFile)
    {
      if write.Done? || write.CrashAfter? {
        envelopeFile := Some(bytes);
      }
    }

    /** `alive` is false when the process died in a write. */
    method LoadLastKnownGood(now: int, write: Write) returns (alive: bool)
      modifies this
      ensures OnDisk() == Loaded(config, old(OnDisk()), now, write).disk
      ensures alive == Loaded(config, old(OnDisk()), now, write).memory.Some?
      ensures alive ==> Some(InMemory()) == Loaded(config, old(OnDisk()), now, write).memory
    {
      var state, bytes := stateFile, envelopeFile;
      var found: Option<Manifest> := None;
      if bytes.Some? {
        var document := config.verify(bytes.value);
        if document.Some? {
          found := Parse(config.rules, document.value, now, true);
        }
      }
      if found.Some? {
        manifest, envelope, urls := found, bytes, Urls(found.value);
        if state.Some? && state.value.revision == found.value.revision {
          failureCount, etag := state.value.failureCount, state.value.etag;
        } else {
          failureCount, etag := 0, "";
          SaveState(Saved(found.value.revision, "", 0), write);
          if write.CrashBefore? || write.CrashAfter? {
            return false;
          }
        }
        return true;
      }
      manifest, envelope, urls := None, None, [];
      if state.Some? && state.value.revision == 0 {
        failureCount, etag := state.value.failureCount, state.value.etag;
      } else {
        failureCount, etag := 0, "";
      }
      alive := true;
    }

    method Fail(write: Write) returns (alive: bool)
      modifies this`failureCount, this`stateFile
      ensures failureCount == old(failureCount) + 1 && alive == (write.Done? || write.Refused?)
      ensures stateFile == if write.Done? || write.CrashAfter? then
                             Some(Saved(Revision(InMemory()), etag, failureCount))
                           else old(stateFile)
    {
      failureCount := failureCount + 1;
      var revision := if manifest.Some? then manifest.value.revision else 0;
      SaveState(Saved(revision, etag, failureCount), write);
      alive := !write.CrashBefore? && !write.CrashAfter?;
    }

    /** The checks on what was fetched. */
    method Check(response: Response, now: int) returns (candidate: Option<Manifest>)
      ensures candidate == Accepted(config, InMemory(), response, now)
    {
      if response.Cancelled? || response.Unavailable? {
        return None;
      }
      if response.NotModified? {
        return manifest;
      }
      var document := config.verify(response.body);
      if document.None? {
        return None;
      }
      candidate := Parse(config.rules, document.value, now, false);
      if candidate.Some? && manifest.Some? {
        if candidate.value.revision < manifest.value.revision {
          return None;
        }
        if candidate.value.revision == manifest.value.revision && envelope != Some(response.body) {
          return None;
        }
      }
    }

    method WriteFiles(candidate: Manifest, response: Response, stateWrite: Write, envelopeWrite: Write)
      returns (last: Write)
      modifies this`stateFile, this`envelopeFile
      ensures (OnDisk(), last)
              == FilesWritten(old(OnDisk()), InMemory(), candidate, response, stateWrite, envelopeWrite)
    {
      var newTag := if response.Fetched? && response.etag != "" then response.etag else etag;
      SaveState(Saved(candidate.revision, newTag, 0), stateWrite);
      if !stateWrite.Done? {
        return stateWrite;
      }
      last := Done;
      if response.Fetched? && (manifest.None? || candidate.revision != manifest.value.revision) {
        SaveEnvelope(response.body, envelopeWrite);
        last := envelopeWrite;
      }
    }

    method Commit(candidate: Manifest, response: Response, stateWrite: Write, envelopeWrite: Write, failureWrite: Write)
      returns (alive: bool, changed: bool)
      modifies this
      ensures var r := Committed(old(OnDisk()), old(InMemory()), candidate, response, stateWrite, envelopeWrite,
                                 failureWrite);
              && OnDisk() == r.disk && alive == r.memory.Some? && changed == r.changed
              && (alive ==> Some(InMemory()) == r.memory)
    {
      var last := WriteFiles(candidate, response, stateWrite, envelopeWrite);
      if last.Refused? {
        alive := Fail(failureWrite);
        return alive, false;
      }
      if !last.Done? {
        return false, false;
      }
      changed := manifest.None? || Urls(candidate) != Urls(manifest.value);
      if response.Fetched? {
        envelope := Some(response.body);
        if response.etag != "" {
          etag := response.etag;
        }
      }
      manifest, urls, failureCount := Some(candidate), Urls(candidate), 0;
      alive := true;
    }

    method Refresh(response: Response, now: int, stateWrite: Write, envelopeWrite: Write, failureWrite: Write)
      returns (alive: bool, changed: bool)
      modifies this
      ensures var r := Refreshed(config, old(OnDisk()), old(InMemory()), response, now, stateWrite, envelopeWrite,
                                 failureWrite);
              && OnDisk() == r.disk && alive == r.memory.Some? && changed == r.changed
              && (alive ==> Some(InMemory()) == r.memory)
    {
      if response.Cancelled? {
        return true, false;
      }
      var candidate := Check(response, now);
      if candidate.None? {
        alive := Fail(failureWrite);
        return alive, false;
      }
      alive, changed := Commit(candidate.value, response, stateWrite, envelopeWrite, failureWrite);
    }
  }
}
