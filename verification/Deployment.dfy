/**
 The records the runtime-only updater keeps: deployment manifests, the database
 fingerprint and the write-ahead journal, with what the journal loader accepts.
 */
module Deployment {
  import opened Text

  /** A `git` commit: forty lower-case hexadecimal digits. */
  predicate IsCommit(s: string) { |s| == 40 && AllHex(s) }

  predicate IsSha256(s: string) { |s| == 64 && AllHex(s) }

  /** What SHA-256 returns, in hexadecimal. */
  type Digest = s: string | IsSha256(s) witness Zeros(64)

  /** A Docker image identity. */
  predicate IsImageId(s: string) { |s| == 71 && s[..7] == "sha256:" && AllHex(s[7..]) }

  /** `[0-9a-f]{12}-[0-9]+`. */
  predicate IsTransactionId(s: string)
  {
    |s| > 13 && AllHex(s[..12]) && s[12] == '-' && AllDigits(s[13..])
  }

  const RUNTIME_PREFIX := "wuwaterm-runtime:"
  const ROLLBACK_PREFIX := "wuwaterm-runtime:rollback-runtime-"
  const RUNTIME_BACKUP_SENTINEL := "none"

  /** `reference.rsplit(":", 1)[-1]`: the commit `_runtime_env` builds an image for. */
  function AfterLastColon(ref: string): string
  {
    if ':' !in ref then ref else AfterLastColon(ref[1..])
  }

  lemma {:induction false} AfterLastColonIs(front: string, tag: string)
    requires ':' !in tag
    ensures AfterLastColon(front + ":" + tag) == tag
  {
    var ref := front + ":" + tag;
    assert ref[|front|] == ':';
    if front == "" {
      assert ref[1..] == tag;
    } else {
      assert ref[1..] == front[1..] + ":" + tag;
      AfterLastColonIs(front[1..], tag);
    }
  }

  /** A build under the target's reference is one of the source commit. */
  lemma BuildsSource(j: Journal)
    requires WellFormed(j)
    ensures AfterLastColon(j.target.ref) == j.plan.sourceCommit
  {
    var commit := j.plan.sourceCommit;
    assert RUNTIME_PREFIX == "wuwaterm-runtime" + ":";
    assert j.target.ref == "wuwaterm-runtime" + ":" + commit;
    AfterLastColonIs("wuwaterm-runtime", commit);
  }

  datatype Image = Image(ref: string, id: string, digest: string, revision: string)

  datatype Manifest = Manifest(
    sourceCommit: string, image: Image, dbSha: string, backupPath: string)

  /** What `stat` reports; time stamps before 1970 are negative. */
  datatype DbStat = DbStat(ino: nat, size: nat, mtimeNs: int, ctimeNs: int)

  datatype Db = Db(sha: Digest, stat: DbStat)

  datatype Status = Active | Unresolved | RolledBack | Committed

  /** The loader's phase vocabulary. Every phase the updater writes is one of these. */
  datatype Phase =
    | Prepared | RollbackTag | ImageBuild | ImageReady | Stopping | Starting | Health
    | ManifestStep | PointerStep | RollbackQuiesce | RollbackRestore | RecoveryRollbackTag
    | RollbackPointer | RolledBackDone | CommittedDone | RecoveryQuiesce | RecoveryRestore
    | RecoveryPointer | Recovered | UnresolvedPhase

  /** The journal fields that no step of a transaction rewrites. */
  datatype Plan = Plan(
    schemaVersion: int, mode: string, transactionId: string, sourceCommit: string,
    oldPointer: string, oldManifestPath: string, oldRef: string, oldId: string,
    oldBotRunning: bool, oldApiRunning: bool, rollbackRef: string,
    dbSha: string, dbStat: DbStat, toolHash: string)

  /** The journal: a fixed plan, and the status, phase and target image that steps update. */
  datatype Journal = Journal(plan: Plan, status: Status, phase: Phase, target: Image)

  predicate Live(j: Journal) { j.status == Active || j.status == Unresolved }

  function ManifestPath(commit: string): string { ".deployments/" + commit + ".json" }

  /** The shape of a plan, as `_load_journal` checks it. */
  predicate PlanShaped(p: Plan)
  {
    && p.schemaVersion == 1 && p.mode == "runtime-only"
    && IsCommit(p.sourceCommit) && IsCommit(p.oldPointer)
    && p.oldManifestPath == ManifestPath(p.oldPointer)
    && IsTransactionId(p.transactionId)
    && IsImageId(p.oldId) && IsSha256(p.dbSha) && IsSha256(p.toolHash)
    && |p.rollbackRef| >= |ROLLBACK_PREFIX|
    && p.rollbackRef[..|ROLLBACK_PREFIX|] == ROLLBACK_PREFIX
    && IsTransactionId(p.rollbackRef[|ROLLBACK_PREFIX|..])
  }

  /** The shape of a target image under a source commit, as `_load_journal` checks it. */
  predicate TargetShaped(target: Image, sourceCommit: string)
  {
    target.ref == RUNTIME_PREFIX + sourceCommit && target.revision == sourceCommit && IsImageId(target.id)
  }

  /** Everything `_load_journal` checks, except the two things its writer does not establish. */
  predicate WellFormed(j: Journal)
  {
    PlanShaped(j.plan) && TargetShaped(j.target, j.plan.sourceCommit)
  }

  /** The journal loader: `_load_journal` on a payload of the right JSON types. */
  predicate LoaderAccepts(j: Journal)
  {
    WellFormed(j) && j.target.digest != "" && j.plan.dbStat.mtimeNs >= 0 && j.plan.dbStat.ctimeNs >= 0
  }

  /** `_journal_from_preflight`; `None` where it raises. */
  function JournalFromPreflight(
    sourceCommit: string, oldPointer: string, oldManifest: Manifest, db: Db,
    targetManifest: Option<Manifest>, pid: nat, toolHash: Digest): Option<Journal>
  {
    var oldImage := oldManifest.image;
    var targetRef := RUNTIME_PREFIX + sourceCommit;
    var target := match targetManifest
      case Some(m) => m.image
      case None => Image(targetRef, oldImage.id, oldImage.id, sourceCommit);
    if !IsImageId(oldImage.id) || oldImage.ref == "" || target.ref != targetRef
       || !IsImageId(target.id) || !IsCommit(target.revision) || |sourceCommit| < 12 then None
    else
      var transactionId := sourceCommit[..12] + "-" + Decimal(pid);
      var plan := Plan(1, "runtime-only", transactionId, sourceCommit, oldPointer, ManifestPath(oldPointer),
                       oldImage.ref, oldImage.id, true, true, ROLLBACK_PREFIX + transactionId,
                       db.sha, db.stat, toolHash);
      Some(Journal(plan, Active, Prepared, target))
  }

  /**
   The first journal of a transaction always has the loader's shape, and the loader takes it
   exactly when the database's time stamps are not before 1970 and a reused target manifest
   does not record an empty digest.
   */
  lemma PreflightJournalAccepted(
    sourceCommit: string, oldPointer: string, oldManifest: Manifest, db: Db,
    targetManifest: Option<Manifest>, pid: nat, toolHash: Digest)
    requires IsCommit(sourceCommit) && IsCommit(oldPointer)
    requires targetManifest.Some? ==> targetManifest.value.image.revision == sourceCommit
    ensures var r := JournalFromPreflight(sourceCommit, oldPointer, oldManifest, db, targetManifest, pid, toolHash);
            r.Some? ==>
              && WellFormed(r.value) && Live(r.value)
              && (LoaderAccepts(r.value) <==>
                  && db.stat.mtimeNs >= 0 && db.stat.ctimeNs >= 0
                  && (targetManifest.Some? ==> targetManifest.value.image.digest != ""))
  {
    var r := JournalFromPreflight(sourceCommit, oldPointer, oldManifest, db, targetManifest, pid, toolHash);
    if r.Some? {
      var t := r.value.plan.transactionId;
      assert t[..12] == sourceCommit[..12] && t[13..] == Decimal(pid);
      assert r.value.plan.rollbackRef[|ROLLBACK_PREFIX|..] == t;
      assert r.value.plan.rollbackRef[..|ROLLBACK_PREFIX|] == ROLLBACK_PREFIX;
    }
  }

  /** A database with a time stamp before 1970 yields a journal that no recovery can ever load. */
  lemma PreEpochJournalRejected(c: string, p: string, m: Manifest, db: Db, pid: nat, toolHash: Digest)
    requires IsCommit(c) && IsCommit(p) && c != p
    requires IsImageId(m.image.id) && m.image.ref != ""
    requires db.stat.mtimeNs < 0 || db.stat.ctimeNs < 0
    ensures var r := JournalFromPreflight(c, p, m, db, None, pid, toolHash);
            r.Some? && Live(r.value) && !LoaderAccepts(r.value)
  {
    PreflightJournalAccepted(c, p, m, db, None, pid, toolHash);
  }

  /** The image a deployment builds never overwrites the alias its rollback depends on. */
  lemma TargetIsNotAlias(j: Journal)
    requires WellFormed(j)
    ensures j.target.ref != j.plan.rollbackRef
  {
    var at := |RUNTIME_PREFIX|;
    assert j.target.ref[at] == j.plan.sourceCommit[0];
    assert j.plan.rollbackRef[at] == ROLLBACK_PREFIX[at] == 'r';
  }

  /** `verify_manifest`, with the image identity taken from the manifest itself. */
  predicate Verifies(m: Manifest, commit: string, db: Db)
  {
    && IsImageId(m.image.id) && m.sourceCommit == commit && m.image.revision == commit
    && m.dbSha == db.sha
  }
}
