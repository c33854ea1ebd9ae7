/**
 Download-time enforcement (app/artifacts/service.py): the byte check on an opened file, and
 what it means for downloads in every run of the gateway.
 */
module Downloads {
  import opened Wrappers
  import opened PolicyEngine
  import opened ScanRecords
  import opened CdrProtocol
  import opened CdrSafety
  import opened CdrHistory
  import opened CdrRuns
  import Storage

  datatype Stat = Stat(
    regular: bool, mode: int, owned: bool, links: int, device: int, inode: int, size: int, modified: int)

  predicate SameFile(a: Stat, b: Stat) {
    a.device == b.device && a.inode == b.inode && a.size == b.size && a.modified == b.modified
  }

  predicate Expected(before: Stat, size: nat) {
    before.regular && before.mode == Storage.READ_ONLY && before.owned && before.links == 1 && before.size == size
  }

  /**
   `_open_verified_artifact`: the descriptor is handed out exactly when the bytes read through
   it are the expected ones and the file was the same before and after.
   */
  method OpenVerified(
    hashing: Storage.Hashing, before: Stat, content: Bytes, after: Stat, size: nat, sha256: int, maximum: int,
    faults: Storage.Faults)
    returns (verified: bool)
    ensures verified ==>
              Expected(before, size) && SameFile(before, after) && |content| == size && (size == 0 || size <= maximum)
              && hashing.Sha256(content) == sha256
    ensures faults.TransfersWork() ==>
              (verified <==>
               Expected(before, size) && SameFile(before, after) && |content| == size && (size == 0 || size <= maximum)
               && hashing.Sha256(content) == sha256)
  {
    if !Expected(before, size) {
      return false;
    }
    var digest, observed: nat, calls: nat, finished := [], 0, 0, false;
    while !finished
      invariant observed <= |content| && digest == content[..observed] && (observed == 0 || observed <= maximum)
      invariant finished ==> observed == |content|
      decreases !finished, |content| - observed
    {
      var chunk := Storage.ReadChunk(content, observed, faults.Read(calls));
      calls := calls + 1;
      if chunk == None {
        return false;
      } else if chunk.value == [] {
        finished := true;
      } else {
        assert content[..observed + |chunk.value|] == content[..observed] + chunk.value;
        observed := observed + |chunk.value|;
        if observed > maximum {
          return false;
        }
        digest := digest + chunk.value;
      }
    }
    assert content[..observed] == content;
    verified := observed == size && hashing.Sha256(digest) == sha256 && SameFile(before, after);
  }

  datatype Download = NotFound | LineageInvalid | IntegrityFailed | AuditUnavailable | Served(content: Bytes)

  /** `prepare`: look the artifact up with both its scans, check lineage, bytes, then audit. */
  function Prepare(cfg: Config, s: System, id: ArtifactId, audited: bool): Download {
    if id !in s.artifacts || s.artifacts[id].scan !in s.scans || s.artifacts[id].derived !in s.scans then NotFound
    else
      var a := s.artifacts[id];
      if !ValidLineage(a, a.scan, a.derived, s.scans[a.derived]) then LineageInvalid
      else if !Intact(cfg, s.sanitized, a.storageKey, a.sha256, a.size) then IntegrityFailed
      else if !audited then AuditUnavailable
      else Served(s.sanitized[a.storageKey])
  }

  /**
   In every run, what is served has the digest and size of a derived scan that policy allowed,
   under an approval event; and a request for an artifact is refused only for bytes altered
   from outside, or a failing audit write.
   */
  lemma OnlyApprovedBytesServed(cfg: Config, steps: seq<Step>, id: ArtifactId, audited: bool)
    requires Deployed(cfg)
    ensures
      var s := Run(cfg, steps);
      var d := Prepare(cfg, s, id, audited);
      && (d == NotFound <==> id !in s.artifacts)
      && d != LineageInvalid
      && (d == IntegrityFailed ==> s.artifacts[id].storageKey in s.damaged)
      && (id in s.artifacts && s.artifacts[id].storageKey !in s.damaged && audited ==> d.Served?)
      && (d.Served? ==>
            id in s.approved && s.artifacts[id].derived in s.scans
            && var row := s.scans[s.artifacts[id].derived];
               row.decision == ALLOW && row.state == COMPLETED && row.releaseEligible
               && row.origin == CDR_DERIVED && row.parent == Some(s.artifacts[id].scan)
               && cfg.Hash(d.content) == row.sha256 && |d.content| == row.size)
  {
    RunInv(cfg, steps);
  }

  /** The bytes served for an artifact never change, whatever happens to the file in between. */
  lemma ServedBytesNeverChange(cfg: Config, steps: seq<Step>, later: seq<Step>, id: ArtifactId)
    requires Deployed(cfg)
    requires Prepare(cfg, Run(cfg, steps), id, true).Served?
    requires Prepare(cfg, Run(cfg, steps + later), id, true).Served?
    ensures Prepare(cfg, Run(cfg, steps), id, true) == Prepare(cfg, Run(cfg, steps + later), id, true)
  {
    RunAccumulates(cfg, steps, later);
    var s, s' := Run(cfg, steps), Run(cfg, steps + later);
    var key := s.artifacts[id].storageKey;
    assert cfg.Hash(s.sanitized[key]) == cfg.Hash(s'.sanitized[key]);
  }
}
