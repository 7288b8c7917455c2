/**
 The transactional runtime updater as a machine that can fail, be signalled or die at
 every step.  Every external command chooses its result nondeterministically, so a contract
 on a method speaks of all of its failing and dying executions at once.
 */
module RuntimeUpdate {
  import opened Text
  import opened Deployment

  /** How a step ends: normally, with an exception, or with the death of the process. */
  datatype Outcome = Done | Raised | Died {
    predicate IsFailure() { !Done? }
    function PropagateFailure(): Outcome requires IsFailure() { this }
  }

  datatype Service = Service(running: bool, ref: string, imageId: string, mounted: bool) {
    predicate Serves(wanted: string, id: string) { running && ref == wanted && imageId == id && mounted }
  }

  /** The two serving containers. */
  datatype Services = Services(bot: Service, api: Service) {
    predicate Bound(ref: string, id: string) {
      bot.Serves(ref, id) && api.Serves(ref, id)
    }
    predicate OnImage(id: string) {
      bot.running && bot.imageId == id && api.running && api.imageId == id
    }
    function Stopped(): Services {
      Services(bot.(running := false), api.(running := false))
    }
  }

  /** Docker's image store: identities by reference, and revision labels and registry digests by identity. */
  datatype Images = Images(tags: map<string, string>, labels: map<string, string>, digests: map<string, string>) {
    predicate Has(ref: string) { ref in tags && tags[ref] in labels }
    predicate Carries(ref: string, revision: string) { Has(ref) && labels[tags[ref]] == revision }
    predicate Names(ref: string, id: string, revision: string) {
      Has(ref) && tags[ref] == id && labels[id] == revision
    }
    /** The first registry digest; an image without one is known by its identity. */
    function Digest(id: string): (d: string)
      ensures d == id || (id in digests && d == digests[id] != "")
    {
      if id in digests && digests[id] != "" then digests[id] else id
    }
    /** At most one reference has moved, to this image. */
    predicate Gains(before: Images, ref: string, id: string) {
      this == before || this == before.(tags := before.tags[ref := id])
    }
    /** Every image is as it was, and so is every reference to one but `ref`. */
    ghost predicate Keeps(before: Images, ref: string) {
      && (forall id <- before.labels :: id in labels && labels[id] == before.labels[id] && Digest(id) == before.Digest(id))
      && (forall r <- before.tags :: r != ref && before.Has(r) ==> r in tags && tags[r] == before.tags[r])
    }
  }

  datatype Checkout = Checkout(clean: bool, head: string, remote: string, toolHash: Digest, directories: bool)

  /**
   What the machine looks like when a journal or pointer is replaced or containers are started;
   `under` is the journal on disk.
   */
  datatype Event =
    | Wrote(journal: Journal, pointer: Option<string>, services: Services,
            manifests: map<string, Manifest>, db: Option<Db>)
    | Pointed(commit: string, under: Journal, manifests: map<string, Manifest>, db: Option<Db>)
    | Started(ref: string, under: Journal)

  /** What a run does, in order, whether or not it succeeds: the phases it announces and what it asks of the world. */
  datatype Act =
    | Announce(phase: Phase)
    | StopServices | StartServices(ref: string) | ProbeServices
    | CompareDatabase | ReplacePointer(commit: string) | BuildImage(ref: string)

  predicate SameDatabase(db: Option<Db>, j: Journal)
  {
    db.Some? && db.value.sha == j.plan.dbSha && db.value.stat == j.plan.dbStat
  }

  /** A verified manifest for the transaction's source commit exists and binds its image. */
  predicate TargetManifested(manifests: map<string, Manifest>, db: Option<Db>, j: Journal)
  {
    && j.plan.sourceCommit in manifests && db.Some?
    && Verifies(manifests[j.plan.sourceCommit], j.plan.sourceCommit, db.value)
    && manifests[j.plan.sourceCommit].image == j.target
  }

  /** The manifest step can end well: a manifest that is there is the one it would write. */
  predicate Recordable(manifests: map<string, Manifest>, db: Option<Db>, commit: string, image: Image)
  {
    && db.Some?
    && if commit in manifests then
         && Verifies(manifests[commit], commit, db.value) && manifests[commit].image == image
         && manifests[commit].backupPath == RUNTIME_BACKUP_SENTINEL
       else
         IsImageId(image.id) && image.revision == commit && image.digest != ""
  }

  /** The reference names an image built from the commit. */
  predicate BuiltFrom(images: Images, ref: string, commit: string)
  {
    images.Has(ref) && IsImageId(images.tags[ref]) && images.labels[images.tags[ref]] == commit
  }

  /** That image, as an inspection reports it. */
  function Found(images: Images, ref: string, commit: string): Image
    requires images.Has(ref)
  {
    Image(ref, images.tags[ref], images.Digest(images.tags[ref]), commit)
  }

  /** A target image can be had: the reused one is still there, or the checkout builds into its own. */
  predicate Obtainable(images: Images, product: string, reused: bool, ref: string, commit: string)
  {
    if reused then BuiltFrom(images, ref, commit)
    else IsImageId(product) && (product in images.labels ==> images.labels[product] == commit)
  }

  lemma GainsKeeps(after: Images, before: Images, ref: string, id: string, but: string)
    requires after.Gains(before, ref, id) && (before.Has(ref) ==> after == before)
    ensures after.Keeps(before, but)
  {
  }

  lemma KeepsTwice(last: Images, middle: Images, first: Images, but: string)
    requires last.Keeps(middle, but) && middle.Keeps(first, but)
    ensures last.Keeps(first, but)
  {
  }

  lemma StillCarries(after: Images, before: Images, but: string, ref: string, revision: string)
    requires after.Keeps(before, but) && ref != but
    ensures before.Carries(ref, revision) ==> after.Carries(ref, revision)
  {
  }

  /** Making the alias changes nothing about the target. */
  lemma GainsObtains(after: Images, before: Images, alias: string, id: string, product: string, reused: bool,
          ref: string,
      commit: string)
    requires after.Gains(before, alias, id) && ref != alias
    ensures Obtainable(after, product, reused, ref, commit) <==> Obtainable(before, product, reused, ref, commit)
    ensures BuiltFrom(before, ref, commit) ==>
              BuiltFrom(after, ref, commit) && Found(after, ref, commit) == Found(before, ref, commit)
  {
    hide IsImageId;
  }

  /**
   What must hold at the moment of each durable write or container start.  The journal on disk
   is ahead of both: it is open and already announces the pointer change or the start.
   */
  predicate Sound(e: Event)
  {
    match e
    case Wrote(j, pointer, services, manifests, db) =>
      && WellFormed(j)
      && (j.status == Committed ==>
            && pointer == Some(j.plan.sourceCommit) && SameDatabase(db, j)
            && TargetManifested(manifests, db, j) && services.OnImage(j.target.id))
      && (j.status == RolledBack ==> pointer == Some(j.plan.oldPointer) && services.OnImage(j.plan.oldId))
    case Pointed(commit, j, manifests, db) =>
      && Live(j) && j.phase in {PointerStep, RollbackPointer, RecoveryPointer}
      && (commit == j.plan.sourceCommit ==> j.phase == PointerStep)
      && (commit == j.plan.oldPointer || commit == j.plan.sourceCommit)
      && (commit == j.plan.sourceCommit ==> TargetManifested(manifests, db, j))
    case Started(ref, j) =>
      && Live(j)
      && (ref == j.plan.rollbackRef || (ref == j.target.ref && j.phase == Starting))
  }

  /**
   The journals written from event `from` on belong to the transaction of `base`, and the loader
   takes every one of them if it takes that one.
   */
  ghost predicate WritesTaken(audit: seq<Event>, from: nat, base: Journal)
  {
    && from <= |audit|
    && forall i :: from <= i < |audit| && audit[i].Wrote? ==>
         audit[i].journal.plan == base.plan && (LoaderAccepts(base) ==> LoaderAccepts(audit[i].journal))
  }

  lemma OneMoreTaken(audit: seq<Event>, from: nat, base: Journal, e: Event)
    requires WritesTaken(audit, from, base)
    requires e.Wrote? ==> e.journal.plan == base.plan && (LoaderAccepts(base) ==> LoaderAccepts(e.journal))
    ensures WritesTaken(audit + [e], from, base)
  {
  }

  /**
   When the loader takes the journals of a deployment: no time stamp before 1970, and a digest with a
   reused image.
   */
  predicate FirstTaken(p: Plan, manifests: map<string, Manifest>)
  {
    && p.dbStat.mtimeNs >= 0 && p.dbStat.ctimeNs >= 0
    && (p.sourceCommit in manifests ==> manifests[p.sourceCommit].image.digest != "")
  }

  /** The loader takes every journal written from event `from` on. */
  ghost predicate AllTaken(audit: seq<Event>, from: nat)
  {
    forall i :: from <= i < |audit| && audit[i].Wrote? ==> LoaderAccepts(audit[i].journal)
  }

  /** It takes those that open a transaction. */
  ghost predicate FirstsTaken(audit: seq<Event>, from: nat)
  {
    forall i :: from <= i < |audit| && audit[i].Wrote? && audit[i].journal.phase == Prepared ==> LoaderAccepts(audit[i].journal)
  }

  /** Phases that are only ever reached with the rollback alias in place. */
  predicate PastAlias(p: Phase)
  {
    p !in {Prepared, RollbackTag, RecoveryRollbackTag, RolledBackDone, CommittedDone, Recovered, UnresolvedPhase}
  }

  /**
   The alias phases depend on what Docker already has, and `unresolved` on failures; the others mark
   a run's progress.
   */
  function Announced(phase: Phase): seq<Act>
  {
    if phase in {RollbackTag, RecoveryRollbackTag, UnresolvedPhase} then [] else [Announce(phase)]
  }

  lemma AliasUnannounced(phase: Phase)
    requires phase == RollbackTag || phase == RecoveryRollbackTag
    ensures Announced(phase) == []
  {
  }

  /** A pointer that never left the old commit is not written again. */
  function PointerActs(phase: Phase, current: Option<string>, oldPointer: string): seq<Act>
  {
    if current == Some(oldPointer) then [] else [Announce(phase), ReplacePointer(oldPointer)]
  }

  /** The acts of a completed rollback, recovery and deployment. */
  function RollbackActs(stopFirst: bool, pointer: Option<string>, p: Plan): seq<Act>
  {
    [Announce(RollbackQuiesce)] + (if stopFirst then [StopServices] else [])
    + [CompareDatabase, Announce(RollbackRestore), StartServices(p.rollbackRef), ProbeServices, CompareDatabase]
    + PointerActs(RollbackPointer, pointer, p.oldPointer)
  }

  function RecoveryActs(pointer: Option<string>, p: Plan): seq<Act>
  {
    [Announce(RecoveryQuiesce), StopServices, Announce(RecoveryRestore), StartServices(p.rollbackRef), ProbeServices]
    + PointerActs(RecoveryPointer, pointer, p.oldPointer) + [CompareDatabase]
  }

  function PreparationActs(reused: bool, ref: string): seq<Act>
  {
    (if reused then [] else [Announce(ImageBuild), BuildImage(ref)]) + [Announce(ImageReady), Announce(Stopping)]
  }

  function ReplacementActs(ref: string, commit: string): seq<Act>
  {
    [StopServices, CompareDatabase]
    + [Announce(Starting), StartServices(ref), Announce(Health), ProbeServices, CompareDatabase]
    + [Announce(ManifestStep), Announce(PointerStep), ReplacePointer(commit), CompareDatabase]
  }

  function DeploymentActs(reused: bool, ref: string, commit: string): seq<Act>
  {
    PreparationActs(reused, ref) + ReplacementActs(ref, commit)
  }

  class Host {
    // Durable state.
    var journal: Option<Journal>
    var pointer: Option<string>
    var manifests: map<string, Manifest>
    // The machine around the process.
    var images: Images
    var services: Services
    var db: Option<Db>
    var checkout: Checkout
    // The process: its journal dictionary and the two termination globals.
    var tx: Journal
    var inRollback: bool
    var terminationRequested: bool
    /** The weather of this run: every command succeeds, does what it says, and nothing else changes the database. */
    var calm: bool
    /** No signal reaches this run. */
    var quiet: bool
    /** The identity of the image a build of this checkout yields. */
    var product: string
    /** Every journal and pointer replacement and every container start so far. */
    ghost var audit: seq<Event>
    ghost var acts: seq<Act>
    /** The journal this run's transaction started from, and how long the audit was when the run began. */
    ghost var base: Journal
    ghost var since: nat

    ghost predicate AliasReady(p: Plan)
      reads `images
    {
      images.Names(p.rollbackRef, p.oldId, p.oldPointer)
    }

    /** What the machine owes a transaction that is still open. */
    ghost predicate Tracks(j: Journal)
      reads `pointer, `manifests, `images
    {
      && WellFormed(j) && j.plan.oldPointer != j.plan.sourceCommit
      && (pointer == Some(j.plan.oldPointer) || pointer == Some(j.plan.sourceCommit))
      && j.plan.oldPointer in manifests
      && (var m := manifests[j.plan.oldPointer];
          && m.sourceCommit == j.plan.oldPointer && IsImageId(m.image.id)
          && m.image.ref == j.plan.oldRef && m.image.id == j.plan.oldId && m.image.revision == j.plan.oldPointer)
      && (PastAlias(j.phase) ==> AliasReady(j.plan))
    }

    /** The invariant of every state a run, a failure or a crash can leave. */
    ghost predicate Valid()
      reads `journal, `pointer, `manifests, `images, `audit
    {
      && (journal.Some? ==> WellFormed(journal.value))
      && (journal.Some? && Live(journal.value) ==> Tracks(journal.value))
      && (forall e <- audit :: Sound(e))
    }

    /** The process is inside the transaction whose journal it last managed to write. */
    ghost predicate Engaged()
      reads `tx, `journal, `pointer, `manifests, `images, `audit, `base, `since
    {
      Valid() && Tracks(tx) && journal.Some? && journal.value.plan == tx.plan && Continues()
    }

    /** What the run wrote and will write is loadable if the journal it started from is. */
    ghost predicate Continues()
      requires journal.Some?
      reads `tx, `journal, `audit, `base, `since
    {
      && base.plan == tx.plan && WritesTaken(audit, since, base)
      && (LoaderAccepts(base) ==> LoaderAccepts(tx) && LoaderAccepts(journal.value))
    }

    // ---------------------------------------------------------------- signals and commands

    /** `_on_termination`. */
    method OnTermination()
      modifies `terminationRequested
      ensures terminationRequested == (old(terminationRequested) || !inRollback)
    {
      if inRollback { return; }
      terminationRequested := true;
    }

    /** `_execute`: a command runs to its exit status, unless it is interrupted or times out. */
    method Execute() returns (o: Outcome, zero: bool)
      modifies `db, `terminationRequested
      ensures calm ==> db == old(db) && zero && !o.Died?
      ensures quiet || inRollback || old(terminationRequested) ==> terminationRequested == old(terminationRequested)
      ensures calm && !terminationRequested ==> o.Done?
    {
      var signalled: bool := *;
      if signalled && !quiet { OnTermination(); }
      o, zero := Done, true;
      if !calm { db, o, zero := *, *, *; }
      if terminationRequested {
        var interrupted: bool := *;
        if o.Done? && interrupted { o := Raised; }
      }
    }

    /** `_run`: a command without an effect of its own on the modelled state. */
    method Command() returns (o: Outcome)
      modifies `db, `terminationRequested
      ensures calm ==> db == old(db) && !o.Died?
      ensures quiet || inRollback || old(terminationRequested) ==> terminationRequested == old(terminationRequested)
      ensures calm && !terminationRequested ==> o.Done?
      ensures o.Done? ==> !terminationRequested
    {
      var zero;
      o, zero := Execute();
      if o.Done? && (!zero || terminationRequested) { o := Raised; }
    }

    /** `docker compose stop` of both services. */
    method ComposeStop() returns (o: Outcome)
      modifies `acts, `services, `db, `terminationRequested
      ensures calm ==> db == old(db) && !o.Died?
      ensures quiet || inRollback || old(terminationRequested) ==> terminationRequested == old(terminationRequested)
      ensures calm && !terminationRequested ==> o.Done?
      ensures calm && o.Done? ==> services == old(services).Stopped()
      ensures acts == old(acts) + [StopServices]
    {
      acts := acts + [StopServices];
      o := Command();
      if calm && o.Done? { services := services.Stopped(); } else { services := *; }
    }

    /** What a build puts into the image store. */
    method StoreBuilt(ref: string, id: string, revision: string)
      modifies `images
      ensures images.Keeps(old(images), ref)
      ensures images.tags == old(images).tags[ref := id]
      ensures images.labels == if id in old(images).labels then old(images).labels else old(images).labels[id := revision]
    {
      if id !in images.labels {
        var digest: string := *;
        images := images.(labels := images.labels[id := revision], digests := images.digests[id := digest]);
      }
      images := images.(tags := images.tags[ref := id]);
    }

    /**
     `docker compose build` under the environment of `_runtime_env`: some image now carries the
     reference, and no image is relabelled.  In calm weather it is the checkout's, and a new image
     carries the commit its reference ends in.
     */
    method ComposeBuild(ref: string) returns (o: Outcome)
      modifies `acts, `images, `db, `terminationRequested
      ensures images.Keeps(old(images), ref)
      ensures calm ==> db == old(db) && !o.Died?
      ensures quiet || inRollback || old(terminationRequested) ==> terminationRequested == old(terminationRequested)
      ensures calm && !terminationRequested ==> o.Done?
      ensures calm && o.Done? ==> Built(old(images), ref, AfterLastColon(ref))
      ensures acts == old(acts) + [BuildImage(ref)]
    {
      hide AfterLastColon;
      acts := acts + [BuildImage(ref)];
      o := Command();
      if calm && o.Done? {
        StoreBuilt(ref, product, AfterLastColon(ref));
      } else {
        var built: bool, id: string, revision: string := *, *, *;
        if built { StoreBuilt(ref, id, revision); }
      }
    }

    /** The reference names the checkout's image, which carries the revision if it is new. */
    ghost predicate Built(before: Images, ref: string, revision: string)
      reads `images, `product
    {
      && images.Has(ref) && images.tags[ref] == product
      && images.labels[product] == if product in before.labels then before.labels[product] else revision
    }

    /** `docker image tag`. */
    method TagImage(id: string, ref: string) returns (o: Outcome)
      modifies `images, `db, `terminationRequested
      ensures calm ==> db == old(db) && !o.Died?
      ensures quiet || inRollback || old(terminationRequested) ==> terminationRequested == old(terminationRequested)
      ensures images == old(images)
          || (id in images.labels && images == old(images).(tags := old(images).tags[ref := id]))
      ensures calm && !terminationRequested && id in images.labels ==> o.Done?
      ensures calm && o.Done? ==> id in images.labels && images.tags == old(images).tags[ref := id]
    {
      o := Command();
      var done: bool := *;
      if (calm && o.Done?) || done {
        if id !in images.labels { return if o.Died? then Died else Raised; }
        images := images.(tags := images.tags[ref := id]);
      }
    }

    /** `_image_binding`: the inspection for the digest may fail, even for a signal; the identity then stands in. */
    method ImageBinding(ref: string) returns (o: Outcome, id: string, digest: string, revision: string)
      modifies `db, `terminationRequested
      ensures calm ==> db == old(db) && !o.Died?
      ensures quiet || inRollback || old(terminationRequested) ==> terminationRequested == old(terminationRequested)
      ensures o.Done? ==> images.Names(ref, id, revision) && IsImageId(id) && IsCommit(revision) && digest != ""
      ensures o.Done? ==> digest == id || digest == images.Digest(id)
      ensures calm && !terminationRequested && o.Done? ==> digest == images.Digest(id)
      ensures (calm && !terminationRequested && images.Has(ref) && IsImageId(images.tags[ref])
               && IsCommit(images.labels[images.tags[ref]])) ==> o.Done?
    {
      id, digest, revision := "", "", "";
      :- Command();
      if !images.Has(ref) || !IsImageId(images.tags[ref]) { return Raised, id, digest, revision; }
      id := images.tags[ref];
      :- Command();
      revision := images.labels[id];
      if !IsCommit(revision) { return Raised, id, digest, revision; }
      var inspected := Command();
      if inspected.Died? { return Died, id, digest, revision; }
      o, digest := Done, if inspected.Done? then images.Digest(id) else id;
    }

    /**
     `_current_image_exists`: any failing inspection reads as "no such image", even with a termination
     request pending; only a found image is followed by the check for one.
     */
    method CurrentImageExists(ref: string) returns (o: Outcome, present: bool)
      modifies `db, `terminationRequested
      ensures calm ==> db == old(db) && !o.Died?
      ensures quiet || inRollback || old(terminationRequested) ==> terminationRequested == old(terminationRequested)
      ensures calm && !terminationRequested ==> o.Done?
      ensures o.Done? && present ==> images.Has(ref) && !terminationRequested
      ensures calm && o.Done? ==> present == images.Has(ref)
    {
      present := false;
      var zero;
      o, zero := Execute();
      if !o.Done? || !zero || !images.Has(ref) { return; }
      if terminationRequested { return Raised, false; }
      present := true;
    }

    /** `_assert_services`: both containers run the expected binding. */
    method AssertServices(ref: string, id: string, revision: string) returns (o: Outcome)
      modifies `db, `terminationRequested
      ensures calm ==> db == old(db) && !o.Died?
      ensures quiet || inRollback || old(terminationRequested) ==> terminationRequested == old(terminationRequested)
      ensures o.Done? ==> services.Bound(ref, id) && images.Carries(ref, revision) && !terminationRequested
      ensures calm && !terminationRequested && services.Bound(ref, id) && images.Carries(ref, revision) ==> o.Done?
    {
      o := Command();
      if o.Done? && (!services.Bound(ref, id) || !images.Carries(ref, revision)) { o := Raised; }
    }

    /** `_local_health`: probes inside the containers. */
    method LocalHealth() returns (o: Outcome)
      modifies `acts, `db, `terminationRequested
      ensures calm ==> db == old(db) && !o.Died?
      ensures quiet || inRollback || old(terminationRequested) ==> terminationRequested == old(terminationRequested)
      ensures calm && !terminationRequested && services.bot.running && services.api.running ==> o.Done?
      ensures acts == old(acts) + [ProbeServices]
    {
      acts := acts + [ProbeServices];
      :- Command();
      if !services.api.running || !services.bot.running { return Raised; }
      o := Command();
    }

    // ---------------------------------------------------------------- reads

    /** `_database_snapshot`. */
    method DatabaseSnapshot() returns (o: Outcome, snapshot: Db)
      ensures o.Done? ==> db == Some(snapshot)
      ensures calm ==> !o.Died? && (o.Done? <==> db.Some?)
    {
      snapshot := *;
      if !calm { var lost: Outcome := *; :- Try(lost); }
      if db.None? { return Raised, snapshot; }
      return Done, db.value;
    }

    /** `_assert_database_unchanged`. */
    method AssertDatabaseUnchanged(snapshot: Db) returns (o: Outcome)
      modifies `acts
      ensures o.Done? ==> db.Some? && db.value.sha == snapshot.sha && db.value.stat == snapshot.stat
      ensures calm && db.Some? && db.value.sha == snapshot.sha && db.value.stat == snapshot.stat ==> o.Done?
      ensures calm ==> !o.Died?
      ensures acts == old(acts) + [CompareDatabase]
    {
      acts := acts + [CompareDatabase];
      var current :- DatabaseSnapshot();
      if current.sha != snapshot.sha || current.stat != snapshot.stat { return Raised; }
      o := Done;
    }

    /** `_pointer`. */
    method ReadPointer() returns (o: Outcome, commit: string)
      ensures o.Done? ==> pointer == Some(commit) && IsCommit(commit)
      ensures calm ==> !o.Died? && (o.Done? <==> pointer.Some? && IsCommit(pointer.value))
    {
      commit := "";
      if !calm { var lost: Outcome := *; :- Try(lost); }
      if pointer.None? || !IsCommit(pointer.value) { return Raised, commit; }
      return Done, pointer.value;
    }

    /** `_verify_existing_manifest`. */
    method VerifyExistingManifest(commit: string) returns (o: Outcome, manifest: Manifest)
      ensures o.Done? ==> commit in manifests && manifest == manifests[commit] && db.Some?
                          && Verifies(manifest, commit, db.value)
      ensures calm ==> !o.Died? && (o.Done? <==> commit in manifests && db.Some? && Verifies(manifests[commit], commit, db.value))
    {
      manifest := *;
      if !calm { var lost: Outcome := *; :- Try(lost); }
      if commit !in manifests || db.None? || !Verifies(manifests[commit], commit, db.value) {
        return Raised, manifest;
      }
      return Done, manifests[commit];
    }

    static method Try(lost: Outcome) returns (o: Outcome)
      ensures o == lost
    {
      o := lost;
    }

    // ---------------------------------------------------------------- durable writes

    /** `_set_journal`: the dictionary changes at once, the file as a whole or not at all. */
    method SetJournal(phase: Phase, status: Status) returns (o: Outcome)
      requires Valid()
      requires var j := tx.(phase := phase, status := status);
               && Sound(Wrote(j, pointer, services, manifests, db)) && (Live(j) ==> Tracks(j))
      modifies `tx, `journal, `audit
      ensures Valid() && tx == old(tx).(phase := phase, status := status)
      ensures (journal == old(journal) && audit == old(audit))
              || (journal == Some(tx) && audit == old(audit) + [Wrote(tx, pointer, services, manifests, db)])
      ensures o.Done? ==> journal == Some(tx) && audit == old(audit) + [Wrote(tx, pointer, services, manifests, db)]
      ensures calm ==> o.Done?
    {
      tx := tx.(phase := phase, status := status);
      var replaced: bool := true;
      o := Done;
      if !calm { replaced, o := *, *; }
      if replaced || o.Done? {
        journal := Some(tx);
        audit := audit + [Wrote(tx, pointer, services, manifests, db)];
      }
    }

    /** `_set_journal` inside a transaction that stays open. */
    method Advance(phase: Phase, status: Status) returns (o: Outcome)
      requires Engaged() && (status == Active || status == Unresolved)
      requires PastAlias(phase) ==> AliasReady(tx.plan)
      modifies `acts, `tx, `journal, `audit
      ensures Engaged() && old(audit) <= audit
      ensures tx == old(tx).(phase := phase, status := status)
      ensures journal == old(journal) || journal == Some(tx)
      ensures o.Done? ==> journal == Some(tx)
      ensures calm ==> o.Done?
      ensures acts == old(acts) + Announced(phase)
    {
      acts := acts + Announced(phase);
      OneMoreTaken(audit, since, base, Wrote(tx.(phase := phase, status := status), pointer, services, manifests, db));
      o := SetJournal(phase, status);
    }

    /** `_set_journal` that closes the transaction as rolled back. */
    method CloseRolledBack(phase: Phase) returns (o: Outcome)
      requires Engaged() && pointer == Some(tx.plan.oldPointer) && services.OnImage(tx.plan.oldId)
      requires PastAlias(phase) ==> AliasReady(tx.plan)
      modifies `tx, `journal, `audit
      ensures Engaged() && old(audit) <= audit
      ensures tx == old(tx).(phase := phase, status := RolledBack)
      ensures o.Done? ==> journal == Some(tx)
      ensures calm ==> o.Done?
    {
      OneMoreTaken(audit, since, base, Wrote(tx.(phase := phase, status := RolledBack), pointer, services, manifests, db));
      o := SetJournal(phase, RolledBack);
    }

    /** `_set_journal` that closes the transaction as committed. */
    method CloseCommitted() returns (o: Outcome)
      requires Engaged() && pointer == Some(tx.plan.sourceCommit) && services.OnImage(tx.target.id)
      requires SameDatabase(db, tx) && TargetManifested(manifests, db, tx)
      modifies `tx, `journal, `audit
      ensures Engaged() && old(audit) <= audit
      ensures tx == old(tx).(phase := CommittedDone, status := Committed)
      ensures o.Done? ==> journal == Some(tx)
      ensures calm ==> o.Done?
    {
      OneMoreTaken(audit, since, base, Wrote(tx.(phase := CommittedDone, status := Committed), pointer, services, manifests, db));
      o := SetJournal(CommittedDone, Committed);
    }

    /** The replacement of the pointer file, as a whole or not at all. */
    method PutPointer(commit: string)
      requires Engaged()
      requires journal == Some(tx) && (tx.status == Active || tx.status == Unresolved)
      requires (commit == tx.plan.oldPointer && (tx.phase == RollbackPointer || tx.phase == RecoveryPointer))
               || (commit == tx.plan.sourceCommit && tx.phase == PointerStep && TargetManifested(manifests, db, tx))
      modifies `acts, `pointer, `audit
      ensures Engaged() && acts == old(acts) + [ReplacePointer(commit)]
      ensures (pointer == old(pointer) && audit == old(audit))
              || (pointer == Some(commit) && audit == old(audit) + [Pointed(commit, tx, manifests, db)])
      ensures calm ==> pointer == Some(commit)
    {
      acts := acts + [ReplacePointer(commit)];
      var replaced: bool := *;
      OneMoreTaken(audit, since, base, Pointed(commit, tx, manifests, db));
      if calm || replaced {
        pointer := Some(commit);
        audit := audit + [Pointed(commit, tx, manifests, db)];
      }
    }

    /** `_publish_pointer`. */
    method PublishPointer(commit: string) returns (o: Outcome)
      requires Engaged()
      requires journal == Some(tx) && (tx.status == Active || tx.status == Unresolved)
      requires (commit == tx.plan.oldPointer && (tx.phase == RollbackPointer || tx.phase == RecoveryPointer))
               || (commit == tx.plan.sourceCommit && tx.phase == PointerStep && TargetManifested(manifests, db, tx))
      modifies `acts, `pointer, `audit, `db, `terminationRequested
      ensures Engaged()
      ensures (pointer == old(pointer) && audit == old(audit))
              || (pointer == Some(commit) && audit == old(audit) + [Pointed(commit, tx, manifests, old(db))])
      ensures calm ==> db == old(db) && !o.Died?
      ensures quiet || inRollback || old(terminationRequested) ==> terminationRequested == old(terminationRequested)
      ensures calm && !terminationRequested ==> o.Done? && pointer == Some(commit)
      ensures acts == old(acts) + [ReplacePointer(commit)]
    {
      hide Engaged, TargetManifested;
      PutPointer(commit);
      o := Command();
    }

    /** The audit's note of a container start. */
    ghost method RecordStart(ref: string)
      requires Engaged() && journal == Some(tx) && (tx.status == Active || tx.status == Unresolved)
      requires ref == tx.plan.rollbackRef || (ref == tx.target.ref && tx.phase == Starting)
      modifies `audit
      ensures Engaged() && audit == old(audit) + [Started(ref, tx)]
    {
      assert Sound(Started(ref, tx));
      OneMoreTaken(audit, since, base, Started(ref, tx));
      audit := audit + [Started(ref, tx)];
    }

    /** `docker compose up -d --no-build --force-recreate` on an image that must already exist. */
    method ComposeUp(ref: string) returns (o: Outcome)
      requires Engaged() && journal == Some(tx) && (tx.status == Active || tx.status == Unresolved)
      requires ref == tx.plan.rollbackRef || (ref == tx.target.ref && tx.phase == Starting)
      modifies `acts, `services, `audit, `db, `terminationRequested
      ensures Engaged() && audit == old(audit) + [Started(ref, tx)]
      ensures calm ==> db == old(db) && !o.Died?
      ensures quiet || inRollback || old(terminationRequested) ==> terminationRequested == old(terminationRequested)
      ensures calm && !terminationRequested && images.Has(ref) ==> o.Done?
      ensures calm && o.Done? ==> images.Has(ref) && services.Bound(ref, images.tags[ref])
      ensures acts == old(acts) + [StartServices(ref)]
    {
      hide Engaged;
      acts := acts + [StartServices(ref)];
      RecordStart(ref);
      o := Command();
      if calm && o.Done? {
        if !images.Has(ref) { return Raised; }
        var s := Service(true, ref, images.tags[ref], true);
        services := Services(s, s);
      } else {
        services := *;
      }
    }

    /** `_verify_pointer`. */
    method VerifyPointer(commit: string) returns (o: Outcome)
      ensures o.Done? ==> pointer == Some(commit)
      ensures calm ==> !o.Died? && (o.Done? <==> pointer == Some(commit))
    {
      if !calm { var lost: Outcome := *; :- Try(lost); }
      o := if pointer == Some(commit) then Done else Raised;
    }

    /** `_create_manifest`: an existing manifest must bind this very image; a new one is read back. */
    method CreateManifest() returns (o: Outcome)
      requires Engaged()
      modifies `manifests
      ensures Engaged()
      ensures o.Done? ==> TargetManifested(manifests, db, tx)
      ensures calm ==> !o.Died? && (o.Done? <==> old(Recordable(manifests, db, tx.plan.sourceCommit, tx.target)))
    {
      var source := tx.plan.sourceCommit;
      if source in manifests {
        var existing :- VerifyExistingManifest(source);
        if existing.image != tx.target || existing.backupPath != RUNTIME_BACKUP_SENTINEL { return Raised; }
        return Done;
      }
      var current :- DatabaseSnapshot();
      if tx.target.digest == "" { return Raised; }
      var linked: bool, lost := true, Done;
      if !calm { linked, lost := *, *; }
      if linked {
        manifests := manifests[source := Manifest(source, tx.target, current.sha, RUNTIME_BACKUP_SENTINEL)];
      }
      :- Try(lost);
      var _ :- VerifyExistingManifest(source);
      o := Done;
    }

    // ---------------------------------------------------------------- rollback

    /** Docker can produce the alias: it is in place, or absent while the old image is still stored. */
    ghost predicate AliasUsable(p: Plan)
      reads `images
    {
      AliasReady(p) || (!images.Has(p.rollbackRef) && p.oldId in images.labels && images.labels[p.oldId] == p.oldPointer)
    }

    lemma ReadyIsUsable()
      requires Engaged()
      ensures IsImageId(tx.plan.oldId) && IsCommit(tx.plan.oldPointer)
      ensures AliasReady(tx.plan) ==> AliasUsable(tx.plan)
    {
    }

    lemma UsableWhen(p: Plan)
      ensures images.Has(p.rollbackRef) ==> (AliasUsable(p) <==> AliasReady(p))
      ensures !images.Has(p.rollbackRef) ==>
                (AliasUsable(p) <==> p.oldId in images.labels && images.labels[p.oldId] == p.oldPointer)
    {
    }

    /** The tagging command of `_ensure_rollback_alias`. */
    method TagAlias() returns (o: Outcome)
      requires Engaged()
      modifies `images, `db, `terminationRequested
      ensures Engaged()
      ensures calm ==> db == old(db) && !o.Died?
      ensures quiet || inRollback || old(terminationRequested) ==> terminationRequested == old(terminationRequested)
      ensures old(AliasReady(tx.plan)) ==> AliasReady(tx.plan)
      ensures images.Gains(old(images), tx.plan.rollbackRef, tx.plan.oldId)
      ensures calm && !terminationRequested && tx.plan.oldId in old(images).labels ==> o.Done?
      ensures calm && o.Done? ==>
                (AliasReady(tx.plan) <==> tx.plan.oldId in old(images).labels && old(images).labels[tx.plan.oldId] == tx.plan.oldPointer)
    {
      o := TagImage(tx.plan.oldId, tx.plan.rollbackRef);
    }

    /** Unresolved intent is written before the alias is made. */
    method MakeAlias(phase: Phase) returns (o: Outcome)
      requires Engaged() && (phase == RollbackTag || phase == RecoveryRollbackTag)
      modifies `acts, `tx, `journal, `audit, `images, `db, `terminationRequested
      ensures acts == old(acts)
      ensures Engaged() && old(audit) <= audit
      ensures tx == old(tx).(phase := phase, status := Unresolved)
      ensures o.Done? ==> journal == Some(tx)
      ensures calm ==> db == old(db) && !o.Died?
      ensures quiet || inRollback || old(terminationRequested) ==> terminationRequested == old(terminationRequested)
      ensures old(AliasReady(tx.plan)) ==> AliasReady(tx.plan)
      ensures images.Gains(old(images), tx.plan.rollbackRef, tx.plan.oldId)
      ensures calm && !terminationRequested && tx.plan.oldId in old(images).labels ==> o.Done?
      ensures calm && o.Done? ==>
                (AliasReady(tx.plan) <==> tx.plan.oldId in old(images).labels && old(images).labels[tx.plan.oldId] == tx.plan.oldPointer)
    {
      assert !PastAlias(phase);
      hide Engaged, AliasReady, PastAlias, Announced;
      AliasUnannounced(phase);
      :- Advance(phase, Unresolved);
      o := TagAlias();
    }

    /** The first half of `_ensure_rollback_alias`: a missing alias is announced, then made. */
    method ProvideAlias(phase: Phase) returns (o: Outcome)
      requires Engaged() && (phase == RollbackTag || phase == RecoveryRollbackTag)
      modifies `acts, `tx, `journal, `audit, `images, `db, `terminationRequested
      ensures acts == old(acts)
      ensures Engaged() && old(audit) <= audit
      ensures tx == old(tx).(phase := tx.phase, status := tx.status)
      ensures tx.status == old(tx.status) || tx.status == Unresolved
      ensures o.Done? && old(journal == Some(tx)) ==> journal == Some(tx)
      ensures old(AliasReady(tx.plan)) ==> AliasReady(tx.plan)
      ensures images.Gains(old(images), tx.plan.rollbackRef, tx.plan.oldId)
      ensures calm && old(images.Has(tx.plan.rollbackRef)) ==> images == old(images)
      ensures calm ==> db == old(db) && !o.Died?
      ensures quiet || inRollback || old(terminationRequested) ==> terminationRequested == old(terminationRequested)
      ensures calm && !terminationRequested && old(AliasUsable(tx.plan)) ==> o.Done?
      ensures calm && o.Done? ==> (AliasReady(tx.plan) <==> old(AliasUsable(tx.plan)))
    {
      hide Engaged, AliasReady, AliasUsable;
      UsableWhen(tx.plan);
      var found :- CurrentImageExists(tx.plan.rollbackRef);
      if found { return Done; }
      o := MakeAlias(phase);
    }

    /** `_ensure_rollback_alias`. */
    method EnsureRollbackAlias(phase: Phase) returns (o: Outcome)
      requires Engaged() && (phase == RollbackTag || phase == RecoveryRollbackTag)
      modifies `acts, `tx, `journal, `audit, `images, `db, `terminationRequested
      ensures acts == old(acts)
      ensures Engaged() && old(audit) <= audit
      ensures tx == old(tx).(phase := tx.phase, status := tx.status)
      ensures tx.status == old(tx.status) || tx.status == Unresolved
      ensures o.Done? && old(journal == Some(tx)) ==> journal == Some(tx)
      ensures o.Done? || old(AliasReady(tx.plan)) ==> AliasReady(tx.plan)
      ensures images.Gains(old(images), tx.plan.rollbackRef, tx.plan.oldId)
      ensures calm && old(images.Has(tx.plan.rollbackRef)) ==> images == old(images)
      ensures old(AliasReady(tx.plan) ==> AliasUsable(tx.plan))
      ensures calm ==> db == old(db) && !o.Died?
      ensures quiet || inRollback || old(terminationRequested) ==> terminationRequested == old(terminationRequested)
      ensures calm && !terminationRequested ==> (o.Done? <==> old(AliasUsable(tx.plan)))
    {
      hide Engaged, AliasUsable, IsImageId, IsCommit, PastAlias, AliasReady;
      ReadyIsUsable();
      :- ProvideAlias(phase);
      o := AssertAlias();
    }

    /** The second half: the alias names the old image, built from the old commit. */
    method AssertAlias() returns (o: Outcome)
      requires IsImageId(tx.plan.oldId) && IsCommit(tx.plan.oldPointer)
      modifies `db, `terminationRequested
      ensures o.Done? ==> AliasReady(tx.plan)
      ensures calm ==> db == old(db) && !o.Died?
      ensures quiet || inRollback || old(terminationRequested) ==> terminationRequested == old(terminationRequested)
      ensures calm && !terminationRequested ==> (o.Done? <==> AliasReady(tx.plan))
    {
      hide IsImageId, IsCommit;
      var id, _, revision :- ImageBinding(tx.plan.rollbackRef);
      o := if id == tx.plan.oldId && revision == tx.plan.oldPointer then Done else Raised;
    }

    /** Announce the pointer's return to the old commit, make it, and read it back. */
    method RepointOld(phase: Phase) returns (o: Outcome)
      requires phase == RollbackPointer || phase == RecoveryPointer
      requires Engaged() && AliasReady(tx.plan) && (tx.status == Active || tx.status == Unresolved)
      modifies `acts, `tx, `journal, `audit, `pointer, `db, `terminationRequested
      ensures Engaged() && old(audit) <= audit
      ensures tx == old(tx).(phase := phase)
      ensures pointer == old(pointer) || pointer == Some(tx.plan.oldPointer)
      ensures o.Done? ==> pointer == Some(tx.plan.oldPointer)
      ensures calm ==> db == old(db) && !o.Died?
      ensures quiet || inRollback || old(terminationRequested) ==> terminationRequested == old(terminationRequested)
      ensures calm && !terminationRequested ==> o.Done?
      ensures o.Done? ==> acts == old(acts) + [Announce(phase), ReplacePointer(tx.plan.oldPointer)]
    {
      hide Engaged, AliasReady;
      :- Advance(phase, tx.status);
      :- PublishPointer(tx.plan.oldPointer);
      o := VerifyPointer(tx.plan.oldPointer);
    }

    /** Recreate both services on the rollback alias, assert their binding and probe them. */
    method StartOld() returns (o: Outcome)
      requires Engaged() && AliasReady(tx.plan)
      requires journal == Some(tx) && (tx.status == Active || tx.status == Unresolved)
      modifies `acts, `services, `audit, `db, `terminationRequested
      ensures Engaged() && old(audit) <= audit
      ensures o.Done? ==> services.Bound(tx.plan.rollbackRef, tx.plan.oldId)
      ensures calm ==> db == old(db) && !o.Died?
      ensures quiet || inRollback || old(terminationRequested) ==> terminationRequested == old(terminationRequested)
      ensures calm && !terminationRequested ==> o.Done?
      ensures o.Done? ==> acts == old(acts) + [StartServices(tx.plan.rollbackRef), ProbeServices]
    {
      hide Engaged;
      :- ComposeUp(tx.plan.rollbackRef);
      :- AssertServices(tx.plan.rollbackRef, tx.plan.oldId, tx.plan.oldPointer);
      o := LocalHealth();
    }

    /** The transaction is closed as rolled back, with the old commit and the old image serving. */
    ghost predicate OldRestored()
      reads `journal, `tx, `pointer, `services
    {
      && journal == Some(tx) && tx.status == RolledBack
      && pointer == Some(tx.plan.oldPointer) && services.OnImage(tx.plan.oldId)
    }

    /** What a failed rollback or recovery leaves: unresolved intent, and a stop of both services as its last act. */
    ghost predicate Quiesced()
      reads `tx, `acts
    {
      tx.status == Unresolved && acts != [] && acts[|acts| - 1] == StopServices
    }

    /** Announce the rollback, and stop both services if asked to. */
    method QuiesceOld(stopFirst: bool) returns (o: Outcome)
      requires Engaged() && AliasReady(tx.plan)
      modifies `acts, `tx, `journal, `audit, `services, `db, `terminationRequested
      ensures Engaged() && old(audit) <= audit
      ensures tx == old(tx).(phase := RollbackQuiesce, status := Unresolved)
      ensures inRollback ==> terminationRequested == old(terminationRequested)
      ensures calm ==> db == old(db) && !o.Died?
      ensures o.Done? ==> acts == old(acts) + [Announce(RollbackQuiesce)] + (if stopFirst then [StopServices] else [])
      ensures calm && inRollback && !old(terminationRequested) ==> o.Done?
    {
      hide Engaged, AliasReady;
      :- Advance(RollbackQuiesce, Unresolved);
      if !stopFirst { return Done; }
      o := ComposeStop();
    }

    /** The first half of `_restore_old`'s guarded part: the old image serves again. */
    method RestartOld(snapshot: Db, stopFirst: bool) returns (o: Outcome)
      requires Engaged() && AliasReady(tx.plan)
      requires SameDatabase(Some(snapshot), tx)
      modifies `acts, `tx, `journal, `audit, `images, `services, `db, `terminationRequested
      ensures Engaged() && AliasReady(tx.plan) && tx.plan == old(tx.plan) && old(audit) <= audit
      ensures inRollback ==> terminationRequested == old(terminationRequested)
      ensures calm ==> db == old(db) && !o.Died?
      ensures o.Done? ==> services.Bound(tx.plan.rollbackRef, tx.plan.oldId)
                          && (tx.status == Active || tx.status == Unresolved)
      ensures calm && inRollback && !old(terminationRequested) && old(SameDatabase(db, tx)) ==> o.Done?
      ensures o.Done? ==> acts == old(acts) + [Announce(RollbackQuiesce)] + (if stopFirst then [StopServices] else [])
                                       + [CompareDatabase, Announce(RollbackRestore)]
                                       + [StartServices(tx.plan.rollbackRef), ProbeServices]
    {
      hide Engaged, AliasReady;
      :- BeginRestore(snapshot, stopFirst);
      :- EnsureRollbackAlias(RollbackTag);
      o := StartOld();
    }

    /** Quiesce, check that the database is the one backed up, and announce the restart. */
    method BeginRestore(snapshot: Db, stopFirst: bool) returns (o: Outcome)
      requires Engaged() && AliasReady(tx.plan)
      requires SameDatabase(Some(snapshot), tx)
      modifies `acts, `tx, `journal, `audit, `services, `db, `terminationRequested
      ensures Engaged() && old(audit) <= audit
      ensures tx == old(tx).(phase := tx.phase, status := Unresolved)
      ensures inRollback ==> terminationRequested == old(terminationRequested)
      ensures calm ==> db == old(db) && !o.Died?
      ensures o.Done? ==> journal == Some(tx)
      ensures calm && inRollback && !old(terminationRequested) && old(SameDatabase(db, tx)) ==> o.Done?
      ensures o.Done? ==> acts == old(acts) + [Announce(RollbackQuiesce)] + (if stopFirst then [StopServices] else [])
                                       + [CompareDatabase, Announce(RollbackRestore)]
    {
      hide Engaged, AliasReady;
      :- QuiesceOld(stopFirst);
      :- AssertDatabaseUnchanged(snapshot);
      o := Advance(RollbackRestore, tx.status);
    }

    /** The pointer part of `_restore_old`. */
    method RestorePointer() returns (o: Outcome)
      requires Engaged() && AliasReady(tx.plan) && (tx.status == Active || tx.status == Unresolved)
      modifies `acts, `tx, `journal, `audit, `pointer, `db, `terminationRequested
      ensures Engaged() && old(audit) <= audit
      ensures tx == old(tx).(phase := tx.phase)
      ensures pointer == old(pointer) || pointer == Some(tx.plan.oldPointer)
      ensures o.Done? ==> pointer == Some(tx.plan.oldPointer)
      ensures calm && inRollback && !old(terminationRequested) ==> o.Done?
      ensures o.Done? ==> acts == old(acts) + PointerActs(RollbackPointer, old(pointer), tx.plan.oldPointer)
    {
      assert pointer.Some? && IsCommit(pointer.value);
      hide Engaged, AliasReady;
      var current :- ReadPointer();
      if current == tx.plan.oldPointer { return Done; }
      o := RepointOld(RollbackPointer);
    }

    /** The guarded part of `_restore_old`. */
    method RestoreSteps(snapshot: Db, stopFirst: bool) returns (o: Outcome)
      requires Engaged() && AliasReady(tx.plan)
      requires SameDatabase(Some(snapshot), tx)
      modifies `acts, `tx, `journal, `audit, `images, `services, `pointer, `db, `terminationRequested
      ensures Engaged() && AliasReady(tx.plan) && tx.plan == old(tx.plan) && old(audit) <= audit
      ensures pointer == old(pointer) || pointer == Some(tx.plan.oldPointer)
      ensures o.Done? ==> OldRestored()
      ensures calm && inRollback && !old(terminationRequested) && old(SameDatabase(db, tx)) ==> o.Done?
      ensures o.Done? ==> acts == old(acts) + RollbackActs(stopFirst, old(pointer), tx.plan)
    {
      hide Engaged, AliasReady;
      :- RestartOld(snapshot, stopFirst);
      :- AssertDatabaseUnchanged(snapshot);
      :- RestorePointer();
      o := CloseRolledBack(RolledBackDone);
    }

    /** A failed rollback or recovery: persist unresolved intent if possible, stop both services if possible. */
    method RecordAndQuiesce(phase: Phase) returns (o: Outcome)
      requires Engaged() && (PastAlias(phase) ==> AliasReady(tx.plan))
      modifies `acts, `tx, `journal, `audit, `services, `db, `terminationRequested
      ensures Engaged() && old(audit) <= audit
      ensures tx == old(tx).(phase := phase, status := Unresolved)
      ensures inRollback ==> terminationRequested == old(terminationRequested)
      ensures !o.Done?
      ensures o.Raised? ==> Quiesced()
      ensures calm ==> journal == Some(tx) && !o.Died?
      ensures calm && inRollback && !terminationRequested ==> services == old(services).Stopped()
    {
      hide Engaged, AliasReady;
      var recorded := Advance(phase, Unresolved);
      if recorded.Died? { return Died; }
      var quiesced := ComposeStop();
      o := if quiesced.Died? then Died else Raised;
    }

    /** `_restore_old`: a failed rollback persists its intent if it can, stops both services and re-raises. */
    method RestoreOld(snapshot: Db, stopFirst: bool) returns (o: Outcome)
      requires Engaged() && AliasReady(tx.plan)
      requires SameDatabase(Some(snapshot), tx)
      modifies `acts, `tx, `journal, `audit, `images, `services, `pointer, `db, `terminationRequested, `inRollback
      ensures Engaged() && AliasReady(tx.plan) && tx.plan == old(tx.plan) && old(audit) <= audit
      ensures pointer == old(pointer) || pointer == Some(tx.plan.oldPointer)
      ensures o.Done? ==> OldRestored()
      ensures calm && old(SameDatabase(db, tx)) ==> o.Done?
      ensures o.Done? ==> acts == old(acts) + RollbackActs(stopFirst, old(pointer), tx.plan)
      ensures o.Raised? ==> Quiesced()
    {
      hide Engaged, AliasReady;
      inRollback, terminationRequested := true, false;
      o := RestoreSteps(snapshot, stopFirst);
      if o.Raised? { o := RecordAndQuiesce(RollbackQuiesce); }
      if !o.Died? { inRollback := false; }
    }

    /** What a failure before activation must find: the old binding, where the deployment found it. */
    ghost predicate Undisturbed(oldManifest: Manifest, currentRef: string)
      reads `tx, `pointer, `manifests, `services, `images, `db
    {
      && pointer == Some(tx.plan.oldPointer)
      && tx.plan.oldPointer in manifests && manifests[tx.plan.oldPointer] == oldManifest
      && db.Some? && Verifies(oldManifest, tx.plan.oldPointer, db.value)
      && services.Bound(currentRef, tx.plan.oldId) && images.Carries(currentRef, tx.plan.oldPointer)
    }

    /** The checks of `_handle_pre_activation_failure`: the old binding is where it was. */
    method ProveBinding(snapshot: Db, oldManifest: Manifest, currentRef: string) returns (o: Outcome)
      requires IsCommit(tx.plan.oldPointer) && SameDatabase(Some(snapshot), tx)
      modifies `acts, `db, `terminationRequested
      ensures o.Done? ==> pointer == Some(tx.plan.oldPointer) && SameDatabase(db, tx)
                          && services.Bound(currentRef, tx.plan.oldId)
                          && tx.plan.oldPointer in manifests && manifests[tx.plan.oldPointer] == oldManifest
      ensures calm ==> db == old(db) && !o.Died?
      ensures quiet || inRollback || old(terminationRequested) ==> terminationRequested == old(terminationRequested)
      ensures calm && !terminationRequested ==>
                (o.Done? <==> SameDatabase(db, tx) && Undisturbed(oldManifest, currentRef))
      ensures o.Done? ==> acts == old(acts) + [CompareDatabase, CompareDatabase]
    {
      hide IsCommit, Verifies;
      :- AssertDatabaseUnchanged(snapshot);
      var current :- ReadPointer();
      if current != tx.plan.oldPointer { return Raised; }
      var currentManifest :- VerifyExistingManifest(tx.plan.oldPointer);
      if currentManifest != oldManifest { return Raised; }
      :- AssertServices(currentRef, tx.plan.oldId, tx.plan.oldPointer);
      o := AssertDatabaseUnchanged(snapshot);
    }

    /** The guarded part of `_handle_pre_activation_failure`. */
    method ProveUntouched(snapshot: Db, oldManifest: Manifest, currentRef: string) returns (o: Outcome)
      requires Engaged() && SameDatabase(Some(snapshot), tx)
      modifies `acts, `tx, `journal, `audit, `db, `terminationRequested
      ensures Engaged() && tx.plan == old(tx.plan) && old(audit) <= audit
      ensures o.Done? ==> OldRestored() && SameDatabase(db, tx) && services.Bound(currentRef, tx.plan.oldId)
                          && tx.plan.oldPointer in manifests && manifests[tx.plan.oldPointer] == oldManifest
      ensures calm ==> db == old(db) && !o.Died?
      ensures quiet || inRollback || old(terminationRequested) ==> terminationRequested == old(terminationRequested)
      ensures calm && !terminationRequested ==>
                (o.Done? <==> old(SameDatabase(db, tx) && Undisturbed(oldManifest, currentRef)))
      ensures o.Done? ==> acts == old(acts) + [CompareDatabase, CompareDatabase]
    {
      hide Engaged, AliasReady, Undisturbed, IsCommit, IsImageId;
      ReadyIsUsable();
      :- ProveBinding(snapshot, oldManifest, currentRef);
      o := CloseRolledBack(RolledBackDone);
    }

    /** Either the old binding is proven to serve still and the journal closes, or both services are stopped. */
    method CloseOrQuiesce(snapshot: Db, oldManifest: Manifest, currentRef: string) returns (o: Outcome)
      requires Engaged() && SameDatabase(Some(snapshot), tx) && inRollback && !terminationRequested
      modifies `acts, `tx, `journal, `audit, `services, `db, `terminationRequested
      ensures Engaged() && tx.plan == old(tx.plan) && old(audit) <= audit
      ensures o.Done? ==> OldRestored() && services == old(services) && acts == old(acts) + [CompareDatabase, CompareDatabase]
      ensures o.Raised? ==> Quiesced()
      ensures calm ==> !o.Died? && (o.Done? <==> old(SameDatabase(db, tx) && Undisturbed(oldManifest, currentRef)))
      ensures calm && o.Raised? ==> journal == Some(tx) && services == old(services).Stopped()
    {
      hide Engaged, Undisturbed, SameDatabase, OldRestored, Quiesced;
      o := ProveUntouched(snapshot, oldManifest, currentRef);
      if o.Raised? { o := RecordAndQuiesce(UnresolvedPhase); }
    }

    /**
     `_handle_pre_activation_failure`: before the first stop nothing is restarted, and what becomes
     of the failure is not reported.
     */
    method HandlePreActivationFailure(snapshot: Db, oldManifest: Manifest, currentRef: string) returns (o: Outcome)
      requires Engaged() && SameDatabase(Some(snapshot), tx)
      modifies `acts, `tx, `journal, `audit, `services, `db, `terminationRequested, `inRollback
      ensures Engaged() && tx.plan == old(tx.plan) && old(audit) <= audit
      ensures !o.Raised?
      ensures o.Done? ==> (OldRestored() && services == old(services) && acts == old(acts) + [CompareDatabase, CompareDatabase]) || Quiesced()
      ensures calm ==> !o.Died?
      ensures calm && old(SameDatabase(db, tx) && Undisturbed(oldManifest, currentRef)) ==>
                OldRestored() && services == old(services)
      ensures calm && !old(SameDatabase(db, tx) && Undisturbed(oldManifest, currentRef)) ==>
                Quiesced() && journal == Some(tx) && services == old(services).Stopped()
    {
      hide Engaged, Undisturbed, SameDatabase, OldRestored, Quiesced;
      var previousInRollback, previousRequested := inRollback, terminationRequested;
      inRollback, terminationRequested := true, false;
      o := CloseOrQuiesce(snapshot, oldManifest, currentRef);
      if o.Died? { return; }
      inRollback, terminationRequested := previousInRollback, previousRequested;
      o := Done;
    }

    // ---------------------------------------------------------------- a new deployment

    /** The build command of a deployment; the rollback alias survives it. */
    method BuildTarget() returns (o: Outcome)
      requires Engaged()
      modifies `acts, `images, `db, `terminationRequested
      ensures Engaged()
      ensures old(AliasReady(tx.plan)) ==> AliasReady(tx.plan)
      ensures calm ==> db == old(db) && !o.Died?
      ensures quiet || inRollback || old(terminationRequested) ==> terminationRequested == old(terminationRequested)
      ensures images.Keeps(old(images), tx.target.ref)
      ensures calm && !terminationRequested ==> o.Done?
      ensures calm && o.Done? ==>
                (BuiltFrom(images, tx.target.ref, tx.plan.sourceCommit)
                 <==> old(Obtainable(images, product, false, tx.target.ref, tx.plan.sourceCommit)))
      ensures acts == old(acts) + [BuildImage(tx.target.ref)]
    {
      hide IsImageId, AfterLastColon;
      TargetIsNotAlias(tx);
      BuildsSource(tx);
      o := ComposeBuild(tx.target.ref);
    }

    /** The journal dictionary takes over the built image's identity. */
    method AdoptTarget(id: string, digest: string)
      requires Engaged() && IsImageId(id) && digest != ""
      modifies `tx
      ensures Engaged()
      ensures tx == old(tx).(target := Image(old(tx).target.ref, id, digest, tx.plan.sourceCommit))
    {
      tx := tx.(target := Image(tx.target.ref, id, digest, tx.plan.sourceCommit));
    }

    lemma EngagedTarget()
      requires Engaged()
      ensures IsCommit(tx.plan.sourceCommit) && IsImageId(tx.target.id) && tx.target.revision == tx.plan.sourceCommit
      ensures tx.target.ref != tx.plan.rollbackRef && tx.target.ref == RUNTIME_PREFIX + tx.plan.sourceCommit
    {
      hide IsImageId, IsCommit;
      TargetIsNotAlias(tx);
    }

    /** The alias and then, unless it is reused, the announcement of the build. */
    method AnnounceBuild(reused: bool) returns (o: Outcome)
      requires Engaged() && (tx.status == Active || tx.status == Unresolved)
      modifies `acts, `tx, `journal, `audit, `images, `db, `terminationRequested
      ensures Engaged() && tx.plan == old(tx.plan) && tx.target == old(tx.target) && old(audit) <= audit
      ensures o.Done? ==> AliasReady(tx.plan) && (tx.status == Active || tx.status == Unresolved)
      ensures calm ==> db == old(db) && !o.Died?
      ensures quiet || inRollback || old(terminationRequested) ==> terminationRequested == old(terminationRequested)
      ensures images.Gains(old(images), tx.plan.rollbackRef, tx.plan.oldId)
      ensures calm && old(images.Has(tx.plan.rollbackRef)) ==> images == old(images)
      ensures calm && !terminationRequested ==> (o.Done? <==> old(AliasUsable(tx.plan)))
      ensures o.Done? ==> acts == old(acts) + if reused then [] else [Announce(ImageBuild)]
    {
      hide Engaged, AliasReady, AliasUsable;
      :- Advance(RollbackTag, tx.status);
      :- EnsureRollbackAlias(RollbackTag);
      if reused { return Done; }
      o := Advance(ImageBuild, tx.status);
    }

    /** The alias is provided first, then the target image is built unless it is reused. */
    method ProvideTarget(reused: bool) returns (o: Outcome)
      requires Engaged() && (tx.status == Active || tx.status == Unresolved)
      modifies `acts, `tx, `journal, `audit, `images, `db, `terminationRequested
      ensures Engaged() && tx.plan == old(tx.plan) && tx.target == old(tx.target) && old(audit) <= audit
      ensures o.Done? ==> AliasReady(tx.plan) && (tx.status == Active || tx.status == Unresolved)
      ensures calm ==> db == old(db) && !o.Died?
      ensures quiet || inRollback || old(terminationRequested) ==> terminationRequested == old(terminationRequested)
      ensures calm ==> images.Keeps(old(images), tx.target.ref)
      ensures calm && !terminationRequested ==> (o.Done? <==> old(AliasUsable(tx.plan)))
      ensures calm && !terminationRequested && o.Done? ==>
                (BuiltFrom(images, tx.target.ref, tx.plan.sourceCommit)
                 <==> old(Obtainable(images, product, reused, tx.target.ref, tx.plan.sourceCommit)))
      ensures reused && old(BuiltFrom(images, tx.target.ref, tx.plan.sourceCommit)) ==>
                && BuiltFrom(images, tx.target.ref, tx.plan.sourceCommit)
                && Found(images, tx.target.ref, tx.plan.sourceCommit) == old(Found(images, tx.target.ref, tx.plan.sourceCommit))
      ensures o.Done? ==> acts == old(acts) + if reused then [] else [Announce(ImageBuild), BuildImage(tx.target.ref)]
    {
      hide Engaged, AliasReady, AliasUsable, Images.Gains, Images.Keeps, IsImageId, IsCommit;
      EngagedTarget();
      o := AnnounceBuild(reused);
      GainsObtains(images, old(images), tx.plan.rollbackRef, tx.plan.oldId, product, reused, tx.target.ref,
          tx.plan.sourceCommit);
      if calm { GainsKeeps(images, old(images), tx.plan.rollbackRef, tx.plan.oldId, tx.target.ref); }
      if !o.Done? || reused { return; }
      ghost var announced := images;
      o := BuildTarget();
      if calm { KeepsTwice(images, announced, old(images), tx.target.ref); }
    }

    /** The image the target's reference names is adopted, if it was built from the source commit. */
    method IdentifyTarget() returns (o: Outcome)
      requires Engaged()
      modifies `tx, `db, `terminationRequested
      ensures Engaged() && tx == old(tx).(target := tx.target) && tx.target.ref == old(tx.target.ref)
      ensures calm ==> db == old(db) && !o.Died?
      ensures quiet || inRollback || old(terminationRequested) ==> terminationRequested == old(terminationRequested)
      ensures o.Done? ==> images.Names(tx.target.ref, tx.target.id, tx.plan.sourceCommit) && tx.target.digest != ""
      ensures calm && !terminationRequested ==> (o.Done? <==> BuiltFrom(images, tx.target.ref, tx.plan.sourceCommit))
      ensures calm && !terminationRequested && o.Done?
          ==> tx.target == Found(images, tx.target.ref, tx.plan.sourceCommit)
    {
      hide Engaged, IsImageId, IsCommit;
      EngagedTarget();
      var id, digest, revision :- ImageBinding(tx.target.ref);
      if revision != tx.plan.sourceCommit { return Raised; }
      AdoptTarget(id, digest);
      o := Done;
    }

    /** The target image is there and identified. */
    method ObtainTarget(reused: bool) returns (o: Outcome)
      requires Engaged() && (tx.status == Active || tx.status == Unresolved)
      modifies `acts, `tx, `journal, `audit, `images, `db, `terminationRequested
      ensures Engaged() && tx.plan == old(tx.plan) && tx.target.ref == old(tx.target.ref) && old(audit) <= audit
      ensures o.Done? ==> images.Names(tx.target.ref, tx.target.id, tx.plan.sourceCommit) && tx.target.digest != ""
      ensures o.Done? ==> AliasReady(tx.plan) && (tx.status == Active || tx.status == Unresolved)
      ensures calm ==> db == old(db) && !o.Died?
      ensures quiet || inRollback || old(terminationRequested) ==> terminationRequested == old(terminationRequested)
      ensures calm ==> images.Keeps(old(images), tx.target.ref)
      ensures calm && !terminationRequested ==>
                (o.Done? <==> old(AliasUsable(tx.plan) && Obtainable(images, product, reused, tx.target.ref, tx.plan.sourceCommit)))
      ensures calm && !terminationRequested && o.Done? && reused ==>
                tx.target == old(Found(images, tx.target.ref, tx.plan.sourceCommit))
      ensures o.Done? ==> acts == old(acts) + if reused then [] else [Announce(ImageBuild), BuildImage(tx.target.ref)]
    {
      hide Engaged, AliasReady, AliasUsable, Images.Keeps, IsImageId;
      :- ProvideTarget(reused);
      o := IdentifyTarget();
    }

    /** The last two announcements before the first stop. */
    method AnnounceStop() returns (o: Outcome)
      requires Engaged() && AliasReady(tx.plan) && (tx.status == Active || tx.status == Unresolved)
      modifies `acts, `tx, `journal, `audit
      ensures Engaged() && old(audit) <= audit && tx == old(tx).(phase := tx.phase)
      ensures o.Done? ==> tx.phase == Stopping && acts == old(acts) + [Announce(ImageReady), Announce(Stopping)]
      ensures calm ==> o.Done?
    {
      hide Engaged, AliasReady;
      :- Advance(ImageReady, tx.status);
      o := Advance(Stopping, tx.status);
    }

    /** The steps before the first stop: no service is touched. */
    method PrepareImage(reused: bool) returns (o: Outcome)
      requires Engaged() && (tx.status == Active || tx.status == Unresolved)
      modifies `acts, `tx, `journal, `audit, `images, `db, `terminationRequested
      ensures Engaged() && tx.plan == old(tx.plan) && tx.target.ref == old(tx.target.ref) && old(audit) <= audit
      ensures o.Done? ==> tx.phase == Stopping && images.Names(tx.target.ref, tx.target.id, tx.plan.sourceCommit)
      ensures o.Done? ==> AliasReady(tx.plan) && (tx.status == Active || tx.status == Unresolved) && tx.target.digest != ""
      ensures calm ==> db == old(db) && !o.Died?
      ensures quiet || inRollback || old(terminationRequested) ==> terminationRequested == old(terminationRequested)
      ensures calm ==> images.Keeps(old(images), tx.target.ref)
      ensures calm && !terminationRequested ==>
                (o.Done? <==> old(AliasUsable(tx.plan) && Obtainable(images, product, reused, tx.target.ref, tx.plan.sourceCommit)))
      ensures calm && !terminationRequested && o.Done? && reused ==>
                tx.target == old(Found(images, tx.target.ref, tx.plan.sourceCommit))
      ensures o.Done? ==> acts == old(acts) + PreparationActs(reused, tx.target.ref)
    {
      hide Engaged, AliasReady, AliasUsable, Obtainable, Images.Keeps, Images.Names, Found;
      :- ObtainTarget(reused);
      o := AnnounceStop();
    }

    /** The transaction is closed as committed: what "committed" means on disk. */
    ghost predicate Deployed()
      reads `journal, `tx, `pointer, `services, `db, `manifests
    {
      && journal == Some(tx) && tx.status == Committed
      && pointer == Some(tx.plan.sourceCommit) && services.OnImage(tx.target.id)
      && SameDatabase(db, tx) && TargetManifested(manifests, db, tx)
    }

    /** Deployed, and with nothing left out on the way. */
    ghost predicate DeployedNow(before: seq<Act>)
      reads `journal, `tx, `pointer, `services, `db, `manifests, `acts
    {
      Deployed() && exists reused :: acts == before + DeploymentActs(reused, tx.target.ref, tx.plan.sourceCommit)
    }

    /** Announce the start, recreate both services on the new image and assert their binding. */
    method ActivateTarget() returns (o: Outcome)
      requires Engaged() && AliasReady(tx.plan)
      requires tx.status == Active || tx.status == Unresolved
      modifies `acts, `tx, `journal, `audit, `services, `db, `terminationRequested
      ensures Engaged() && old(audit) <= audit
      ensures tx == old(tx).(phase := tx.phase)
      ensures calm ==> db == old(db) && !o.Died?
      ensures quiet || inRollback || old(terminationRequested) ==> terminationRequested == old(terminationRequested)
      ensures o.Done? ==> services.Bound(tx.target.ref, tx.target.id)
      ensures calm && !terminationRequested && images.Names(tx.target.ref, tx.target.id, tx.plan.sourceCommit)
          ==> o.Done?
      ensures o.Done? ==> acts == old(acts) + [Announce(Starting), StartServices(tx.target.ref)]
    {
      hide Engaged, AliasReady;
      :- Advance(Starting, tx.status);
      :- ComposeUp(tx.target.ref);
      o := AssertServices(tx.target.ref, tx.target.id, tx.plan.sourceCommit);
    }

    /** Bring both services up on the new image, probe them and compare the database. */
    method StartNew(snapshot: Db) returns (o: Outcome)
      requires Engaged() && AliasReady(tx.plan)
      requires tx.status == Active || tx.status == Unresolved
      modifies `acts, `tx, `journal, `audit, `services, `db, `terminationRequested
      ensures Engaged() && old(audit) <= audit
      ensures tx == old(tx).(phase := tx.phase)
      ensures calm ==> db == old(db) && !o.Died?
      ensures quiet || inRollback || old(terminationRequested) ==> terminationRequested == old(terminationRequested)
      ensures o.Done? ==> services.Bound(tx.target.ref, tx.target.id)
      ensures (calm && !terminationRequested && images.Names(tx.target.ref, tx.target.id, tx.plan.sourceCommit)
               && db.Some? && db.value.sha == snapshot.sha && db.value.stat == snapshot.stat) ==> o.Done?
      ensures o.Done? ==> db.Some? && db.value.sha == snapshot.sha && db.value.stat == snapshot.stat
      ensures o.Done? ==> acts == old(acts) + [Announce(Starting), StartServices(tx.target.ref), Announce(Health), ProbeServices, CompareDatabase]
    {
      hide Engaged, AliasReady;
      :- ActivateTarget();
      :- Advance(Health, tx.status);
      :- LocalHealth();
      o := AssertDatabaseUnchanged(snapshot);
    }

    /** The manifest step, up to the announcement of the pointer's change. */
    method RecordManifest() returns (o: Outcome)
      requires Engaged() && AliasReady(tx.plan) && (tx.status == Active || tx.status == Unresolved)
      modifies `acts, `tx, `journal, `audit, `manifests
      ensures Engaged() && old(audit) <= audit
      ensures tx == old(tx).(phase := tx.phase)
      ensures calm ==> !o.Died? && (o.Done? <==> old(Recordable(manifests, db, tx.plan.sourceCommit, tx.target)))
      ensures o.Done? ==> acts == old(acts) + [Announce(ManifestStep), Announce(PointerStep)]
      ensures o.Done? ==> tx.phase == PointerStep && journal == Some(tx) && TargetManifested(manifests, db, tx)
    {
      hide Engaged, AliasReady, Recordable;
      :- Advance(ManifestStep, tx.status);
      :- CreateManifest();
      o := Advance(PointerStep, tx.status);
    }

    /** Write the manifest, then announce, publish and read back the new pointer. */
    method PublishNew() returns (o: Outcome)
      requires Engaged() && AliasReady(tx.plan) && (tx.status == Active || tx.status == Unresolved)
      modifies `acts, `tx, `journal, `audit, `pointer, `manifests, `db, `terminationRequested
      ensures Engaged() && old(audit) <= audit && tx == old(tx).(phase := tx.phase)
      ensures pointer == old(pointer) || pointer == Some(tx.plan.sourceCommit)
      ensures o.Done? ==> pointer == Some(tx.plan.sourceCommit) && TargetManifested(manifests, old(db), tx)
      ensures calm ==> db == old(db) && !o.Died?
      ensures quiet || inRollback || old(terminationRequested) ==> terminationRequested == old(terminationRequested)
      ensures calm && !terminationRequested
          ==> (o.Done? <==> old(Recordable(manifests, db, tx.plan.sourceCommit, tx.target)))
      ensures o.Done? ==> acts == old(acts) + [Announce(ManifestStep), Announce(PointerStep), ReplacePointer(tx.plan.sourceCommit)]
    {
      hide Engaged, AliasReady, TargetManifested, PastAlias, Recordable;
      :- RecordManifest();
      :- PublishPointer(tx.plan.sourceCommit);
      o := VerifyPointer(tx.plan.sourceCommit);
    }

    /** Write the manifest, publish the pointer and commit. */
    method Promote(snapshot: Db) returns (o: Outcome)
      requires Engaged() && AliasReady(tx.plan) && SameDatabase(Some(snapshot), tx)
      requires tx.status == Active || tx.status == Unresolved
      requires services.Bound(tx.target.ref, tx.target.id) && SameDatabase(db, tx)
      modifies `acts, `tx, `journal, `audit, `pointer, `manifests, `db, `terminationRequested
      ensures Engaged() && tx == old(tx).(phase := tx.phase, status := tx.status) && old(audit) <= audit
      ensures pointer == old(pointer) || pointer == Some(tx.plan.sourceCommit)
      ensures o.Done? ==> Deployed()
      ensures calm ==> db == old(db) && !o.Died?
      ensures quiet || inRollback || old(terminationRequested) ==> terminationRequested == old(terminationRequested)
      ensures calm && !terminationRequested
          ==> (o.Done? <==> old(Recordable(manifests, db, tx.plan.sourceCommit, tx.target)))
      ensures o.Done? ==> acts == old(acts) + [Announce(ManifestStep), Announce(PointerStep), ReplacePointer(tx.plan.sourceCommit), CompareDatabase]
    {
      hide Engaged, AliasReady, PastAlias, Recordable;
      :- PublishNew();
      :- AssertDatabaseUnchanged(snapshot);
      o := CloseCommitted();
    }

    /** The new image is started, proven and made the deployed one. */
    method SwitchOver(snapshot: Db) returns (o: Outcome)
      requires Engaged() && AliasReady(tx.plan) && SameDatabase(Some(snapshot), tx)
      requires tx.status == Active || tx.status == Unresolved
      modifies `acts, `tx, `journal, `audit, `pointer, `manifests, `services, `db, `terminationRequested
      ensures Engaged() && tx == old(tx).(phase := tx.phase, status := tx.status) && old(audit) <= audit
      ensures pointer == old(pointer) || pointer == Some(tx.plan.sourceCommit)
      ensures calm ==> db == old(db) && !o.Died?
      ensures quiet || inRollback || old(terminationRequested) ==> terminationRequested == old(terminationRequested)
      ensures o.Done? ==> Deployed()
      ensures calm && !terminationRequested && images.Names(tx.target.ref, tx.target.id, tx.plan.sourceCommit)
                && old(SameDatabase(db, tx)) ==>
                (o.Done? <==> old(Recordable(manifests, db, tx.plan.sourceCommit, tx.target)))
      ensures o.Done? ==>
                acts == old(acts) + [Announce(Starting), StartServices(tx.target.ref), Announce(Health), ProbeServices, CompareDatabase]
                        + [Announce(ManifestStep), Announce(PointerStep), ReplacePointer(tx.plan.sourceCommit), CompareDatabase]
    {
      hide Engaged, AliasReady, Deployed, Recordable;
      :- StartNew(snapshot);
      o := Promote(snapshot);
    }

    /** The steps from the first stop on, and whether it completed. */
    method Replace(snapshot: Db) returns (o: Outcome, stopFirst: bool)
      requires Engaged() && AliasReady(tx.plan) && SameDatabase(Some(snapshot), tx)
      requires tx.status == Active || tx.status == Unresolved
      modifies `acts, `tx, `journal, `audit, `pointer, `manifests, `services, `db, `terminationRequested
      ensures Engaged() && tx.plan == old(tx.plan) && tx.target == old(tx.target) && old(audit) <= audit
      ensures !stopFirst ==> !o.Done? && pointer == old(pointer) && acts == old(acts) + [StopServices]
      ensures pointer == old(pointer) || pointer == Some(tx.plan.sourceCommit)
      ensures calm ==> db == old(db) && !o.Died?
      ensures quiet || inRollback || old(terminationRequested) ==> terminationRequested == old(terminationRequested)
      ensures o.Done? ==> Deployed()
      ensures calm && !terminationRequested && images.Names(tx.target.ref, tx.target.id, tx.plan.sourceCommit)
                && old(SameDatabase(db, tx)) ==>
                (o.Done? <==> old(Recordable(manifests, db, tx.plan.sourceCommit, tx.target)))
      ensures o.Done? ==> acts == old(acts) + ReplacementActs(tx.target.ref, tx.plan.sourceCommit)
    {
      hide Engaged, AliasReady, Deployed, Recordable;
      stopFirst := false;
      :- ComposeStop();
      stopFirst := true;
      :- AssertDatabaseUnchanged(snapshot);
      o := SwitchOver(snapshot);
    }

    /** The transaction can go through: the alias can be provided, the target obtained and its manifest recorded. */
    ghost predicate Promotable(reused: bool)
      reads `tx, `images, `product, `manifests, `db
    {
      && AliasUsable(tx.plan) && Obtainable(images, product, reused, tx.target.ref, tx.plan.sourceCommit)
      && (reused ==>
            Recordable(manifests, db, tx.plan.sourceCommit, Found(images, tx.target.ref, tx.plan.sourceCommit)))
    }

    /** The guarded body of `_new_deployment`, with the two flags its handler reads. */
    method DeploySteps(reused: bool, snapshot: Db) returns (o: Outcome, activated: bool, stopFirst: bool)
      requires Engaged() && SameDatabase(Some(snapshot), tx) && tx.status == Active
      requires reused <==> tx.plan.sourceCommit in manifests
      modifies `acts, `tx, `journal, `audit, `images, `pointer, `manifests, `services, `db, `terminationRequested
      ensures Engaged() && tx.plan == old(tx.plan) && tx.target.ref == old(tx.target.ref) && old(audit) <= audit
      ensures activated ==> AliasReady(tx.plan)
      ensures !activated ==>
                !o.Done? && services == old(services) && pointer == old(pointer) && manifests == old(manifests)
      ensures calm ==> images.Keeps(old(images), tx.target.ref)
      ensures stopFirst ==> activated
      ensures activated && !stopFirst ==>
                pointer == old(pointer)
                && acts == old(acts) + PreparationActs(reused, tx.target.ref) + [StopServices]
      ensures pointer == old(pointer) || pointer == Some(tx.plan.sourceCommit)
      ensures calm ==> db == old(db) && !o.Died?
      ensures quiet || inRollback || old(terminationRequested) ==> terminationRequested == old(terminationRequested)
      ensures o.Done? ==> Deployed()
      ensures calm && !terminationRequested && old(SameDatabase(db, tx)) ==> (o.Done? <==> old(Promotable(reused)))
      ensures o.Done? ==> acts == old(acts) + DeploymentActs(reused, tx.target.ref, tx.plan.sourceCommit)
    {
      hide Engaged, AliasReady, AliasUsable, Deployed, Obtainable, Found, Images.Keeps, PreparationActs,
          ReplacementActs;
      activated, stopFirst := false, false;
      :- PrepareImage(reused);
      PreparedRecordable(reused);
      activated := true;
      o, stopFirst := Replace(snapshot);
    }

    /** Without a manifest in the way, the prepared target can be recorded. */
    lemma PreparedRecordable(reused: bool)
      requires Engaged() && tx.target.digest != ""
      ensures tx.plan.sourceCommit !in manifests && db.Some? ==>
                Recordable(manifests, db, tx.plan.sourceCommit, tx.target)
    {
      EngagedTarget();
    }

    /** What `_new_deployment` does with an exception from its body. */
    method HandleFailure(snapshot: Db, oldManifest: Manifest, currentRef: string, activated: bool, stopFirst: bool)
      returns (o: Outcome)
      requires Engaged() && SameDatabase(Some(snapshot), tx)
      requires activated ==> AliasReady(tx.plan)
      modifies `acts, `tx, `journal, `audit, `images, `pointer, `services, `db, `terminationRequested, `inRollback
      ensures Engaged() && tx.plan == old(tx.plan) && old(audit) <= audit && !o.Done?
      ensures pointer == old(pointer) || pointer == Some(tx.plan.oldPointer)
      ensures o.Raised? && !activated ==> Quiesced() || (OldRestored() && services == old(services))
      ensures o.Raised? && activated ==>
                Quiesced() || (OldRestored() && acts == old(acts) + RollbackActs(stopFirst, old(pointer), tx.plan))
      ensures calm && old(SameDatabase(db, tx)) && (activated || old(Undisturbed(oldManifest, currentRef))) ==>
                o.Raised? && OldRestored()
    {
      hide Engaged, AliasReady, Undisturbed, OldRestored, Quiesced, RollbackActs;
      if !activated {
        var handled := HandlePreActivationFailure(snapshot, oldManifest, currentRef);
        return if handled.Died? then Died else Raised;
      }
      o := RestoreOld(snapshot, stopFirst);
      if o.Raised? {
        o := Reraise();
      } else if o.Done? {
        o := Raised;
      }
    }

    /** A failed rollback passes through the handler, which records its intent once more if it knows the exception. */
    method Reraise() returns (o: Outcome)
      requires Engaged() && Quiesced()
      modifies `acts, `tx, `journal, `audit
      ensures Engaged() && tx.plan == old(tx.plan) && old(audit) <= audit && !o.Done?
      ensures o.Raised? ==> Quiesced()
    {
      hide Engaged, AliasReady;
      o := Raised;
      var caught: bool := *;
      if caught {
        var recorded := Advance(UnresolvedPhase, Unresolved);
        if recorded.Died? { o := Died; }
      }
    }

    /** `_git_preflight`; in calm weather nobody pushes between the fetch and the comparison. */
    method GitPreflight() returns (o: Outcome, head: string)
      modifies `checkout, `db, `terminationRequested
      ensures o.Done? ==> head == checkout.head && IsCommit(head) && checkout.clean
      ensures calm ==> checkout == old(checkout) && db == old(db) && !o.Died?
      ensures quiet || old(terminationRequested) ==> terminationRequested == old(terminationRequested)
      ensures calm && !terminationRequested
          ==> (o.Done? <==> checkout.clean && IsCommit(checkout.head) && checkout.head == checkout.remote)
    {
      hide IsCommit;
      head := "";
      :- Command();
      if !checkout.clean { return Raised, head; }
      :- Command();
      if !calm {
        var remote: string := *;
        checkout := checkout.(remote := remote);
      }
      :- Command();
      if !IsCommit(checkout.head) || !IsCommit(checkout.remote) || checkout.head != checkout.remote {
        return Raised, head;
      }
      return Done, checkout.head;
    }

    /** `_idempotent_target` once the pointer already names the source commit. */
    method AssertAlreadyDeployed(commit: string, snapshot: Db) returns (o: Outcome)
      requires db == Some(snapshot)
      modifies `acts, `db, `terminationRequested
      ensures calm ==> db == old(db) && !o.Died?
      ensures quiet || old(terminationRequested) ==> terminationRequested == old(terminationRequested)
      ensures calm && !terminationRequested ==>
                (o.Done? <==> commit in manifests && Verifies(manifests[commit], commit, snapshot)
                              && services.Bound(manifests[commit].image.ref, manifests[commit].image.id)
                              && images.Carries(manifests[commit].image.ref, commit))
      ensures o.Done? ==> commit in manifests && db.Some? && Verifies(manifests[commit], commit, db.value)
                          && services.OnImage(manifests[commit].image.id)
                          && db.value.sha == snapshot.sha && db.value.stat == snapshot.stat
    {
      var m :- VerifyExistingManifest(commit);
      :- AssertServices(m.image.ref, m.image.id, commit);
      o := AssertDatabaseUnchanged(snapshot);
    }

    /** A target manifest that describes the database, with its own image still there. */
    ghost predicate Kept(commit: string)
      requires commit in manifests
      reads `manifests, `images, `db
    {
      && db.Some? && Verifies(manifests[commit], commit, db.value)
      && manifests[commit].backupPath == RUNTIME_BACKUP_SENTINEL
      && images.Names(manifests[commit].image.ref, manifests[commit].image.id, commit)
    }

    /** Such a manifest that a rolled-back transaction left. */
    ghost predicate Reusable(commit: string)
      requires commit in manifests
      reads `journal, `manifests, `images, `db
    {
      journal.Some? && journal.value.status == RolledBack && Kept(commit)
    }

    /** A target manifest left by a rolled-back transaction may be reused only with its own image. */
    method ReusableTarget(commit: string) returns (o: Outcome)
      requires commit in manifests && IsCommit(commit)
      modifies `db, `terminationRequested
      ensures o.Done? ==>
                && journal.Some? && journal.value.status == RolledBack
                && manifests[commit].backupPath == RUNTIME_BACKUP_SENTINEL && manifests[commit].image.revision == commit
                && images.Names(manifests[commit].image.ref, manifests[commit].image.id, commit)
                && IsImageId(manifests[commit].image.id)
      ensures calm ==> db == old(db) && !o.Died?
      ensures quiet || old(terminationRequested) ==> terminationRequested == old(terminationRequested)
      ensures calm && !terminationRequested ==> (o.Done? <==> Reusable(commit))
    {
      hide IsCommit, IsImageId;
      if journal.None? || journal.value.status != RolledBack { return Raised; }
      var m :- VerifyExistingManifest(commit);
      if m.backupPath != RUNTIME_BACKUP_SENTINEL { return Raised; }
      var id, _, revision :- ImageBinding(m.image.ref);
      o := if id == m.image.id && revision == commit then Done else Raised;
    }

    /** The last transaction rolled this very image back, and left the services on its alias. */
    predicate LeftOnAlias(oldManifest: Manifest, oldPointer: string, ref: string)
      reads `journal
    {
      && journal.Some? && journal.value.status == RolledBack
      && journal.value.plan.oldPointer == oldPointer && journal.value.plan.oldId == oldManifest.image.id
      && journal.value.plan.oldRef == oldManifest.image.ref && ref == journal.value.plan.rollbackRef
    }

    /** Both services report one reference they may be on. */
    predicate Observable(oldManifest: Manifest, oldPointer: string)
      reads `journal, `services
    {
      && services.api.ref == services.bot.ref
      && (services.bot.ref == oldManifest.image.ref || LeftOnAlias(oldManifest, oldPointer, services.bot.ref))
    }

    /** `_observed_service_ref`: both services on one allowed reference. */
    method ObservedRef(oldManifest: Manifest, oldPointer: string) returns (o: Outcome, ref: string)
      modifies `db, `terminationRequested
      ensures o.Done? ==> ref == services.bot.ref && Observable(oldManifest, oldPointer)
      ensures calm ==> db == old(db) && !o.Died?
      ensures quiet || old(terminationRequested) ==> terminationRequested == old(terminationRequested)
      ensures calm && !terminationRequested ==> (o.Done? <==> Observable(oldManifest, oldPointer))
    {
      ref := services.bot.ref;
      :- Command();
      if !Observable(oldManifest, oldPointer) { return Raised, ref; }
      o := Done;
    }

    /** The first journal write of a transaction: everything before it left the disk alone. */
    method OpenTransaction(first: Journal) returns (o: Outcome)
      requires Valid() && first.phase == Prepared && first.status == Active
      requires Tracks(first) && since == |audit|
      modifies `tx, `journal, `audit, `base
      ensures Valid() && tx == first && base == first && old(audit) <= audit
      ensures (journal == old(journal) && audit == old(audit)) || OpenedWith(first)
      ensures o.Done? ==> OpenedWith(first)
      ensures calm ==> o.Done?
    {
      tx, base := first, first;
      o := SetJournal(Prepared, Active);
    }

    /** The transaction is open: the run's first write was `first`. */
    ghost predicate OpenedWith(first: Journal)
      reads `tx, `journal, `pointer, `manifests, `images, `audit, `base, `since
    {
      Engaged() && journal == Some(tx) && tx == first && OpenedBy()
    }

    /** The run's first write was the journal its transaction started from. */
    ghost predicate OpenedBy()
      reads `audit, `base, `since
    {
      since < |audit| && audit[since].Wrote? && audit[since].journal == base && base.phase == Prepared
    }

    /** A process starts with its two globals cleared. */
    method Boot()
      modifies `inRollback, `terminationRequested, `since
      ensures !inRollback && !terminationRequested && since == |audit|
    {
      inRollback, terminationRequested, since := false, false, |audit|;
    }

    /** What `_new_deployment` reads before it looks at any manifest. */
    ghost predicate Readable()
      reads `checkout, `db, `pointer, `journal
    {
      && checkout.clean && IsCommit(checkout.head) && checkout.head == checkout.remote && checkout.directories
      && db.Some? && pointer.Some? && IsCommit(pointer.value)
      && (journal.Some? ==> LoaderAccepts(journal.value) && !Live(journal.value))
    }

    /** The checkout, the database, the pointer and the last journal, as found. */
    method ReadSurroundings() returns (o: Outcome, source: string, snapshot: Db, current: string)
      modifies `checkout, `db, `terminationRequested
      ensures o.Done? ==>
                && source == checkout.head && IsCommit(source) && db == Some(snapshot) && pointer == Some(current)
                && IsCommit(current) && (journal.Some? ==> LoaderAccepts(journal.value) && !Live(journal.value))
      ensures calm ==> checkout == old(checkout) && db == old(db) && !o.Died?
      ensures quiet || old(terminationRequested) ==> terminationRequested == old(terminationRequested)
      ensures calm && !terminationRequested ==> (o.Done? <==> Readable())
    {
      hide LoaderAccepts, IsCommit;
      snapshot, current := *, "";
      source :- GitPreflight();
      if !checkout.directories { return Raised, source, snapshot, current; }
      snapshot :- DatabaseSnapshot();
      current :- ReadPointer();
      o := if journal.Some? && (!LoaderAccepts(journal.value) || Live(journal.value)) then Raised else Done;
    }

    /** The manifests and services a new transaction from `current` to `source` needs. */
    ghost predicate Plannable(source: string, current: string)
      reads `journal, `manifests, `images, `services, `db
    {
      && (source in manifests ==> Reusable(source)) && Serves(source, current)
      && manifests[current].image.ref != "" && Observable(manifests[current], current)
    }

    /** Both services run the image of the current manifest, and a manifest for the source is of its own image. */
    ghost predicate Serves(source: string, current: string)
      reads `manifests, `images, `services, `db
    {
      && (source in manifests ==> Kept(source) && manifests[source].image.ref == RUNTIME_PREFIX + source)
      && current in manifests && db.Some? && Verifies(manifests[current], current, db.value)
      && services.Bound(services.bot.ref, manifests[current].image.id) && images.Carries(services.bot.ref, current)
    }

    /**
     What a caller can check before a deployment: a clean and pushed checkout, a closed or absent
     journal, a commit to leave for another, the manifest and the image it left reusable if there
     is one, and both services on the image of the old manifest.
     */
    ghost predicate Deployable()
      reads `checkout, `db, `pointer, `journal, `manifests, `images, `services
    {
      Readable() && pointer.value != checkout.head && Plannable(checkout.head, pointer.value)
    }

    /**
     The pointer already holds the head, and both services run the image of its verified manifest
     under its reference.
     */
    ghost predicate AlreadyServing()
      reads `checkout, `db, `pointer, `journal, `manifests, `images, `services
    {
      && Readable() && pointer.value == checkout.head && checkout.head in manifests
      && (var m := manifests[checkout.head];
          && Verifies(m, checkout.head, db.value)
          && services.Bound(m.image.ref, m.image.id) && images.Carries(m.image.ref, checkout.head))
    }

    /**
     The rollback alias the process number leads to names the old image, or Docker can make it; and a
     reused image still has its recorded digest, or the checkout builds into an image of its own.
     */
    ghost predicate Supplied(pid: nat)
      requires |checkout.head| >= 12 && pointer.Some? && pointer.value in manifests
      reads `checkout, `pointer, `manifests, `images, `product
    {
      var head, serving := checkout.head, manifests[pointer.value].image.id;
      var alias := ROLLBACK_PREFIX + (head[..12] + "-" + Decimal(pid));
      && (images.Names(alias, serving, pointer.value)
          || (!images.Has(alias) && serving in images.labels && images.labels[serving] == pointer.value))
      && (if head in manifests then images.Digest(manifests[head].image.id) == manifests[head].image.digest
          else IsImageId(product) && (product in images.labels ==> images.labels[product] == head))
    }

    lemma DeployableServes()
      ensures Deployable() ==> pointer.Some? && |checkout.head| >= 12 && Serves(checkout.head, pointer.value)
    {
      hide LoaderAccepts, IsImageId;
    }

    /** What a caller can check before a deployment that is to go through. */
    ghost predicate Committable(pid: nat)
      reads `checkout, `db, `pointer, `journal, `manifests, `images, `services, `product
    {
      Deployable() && Supplied(pid)
    }

    /** The old manifest verifies, and both services run its image. */
    method ObserveOld(current: string) returns (o: Outcome, oldManifest: Manifest, currentRef: string)
      modifies `db, `terminationRequested
      ensures o.Done? ==>
                && current in manifests && oldManifest == manifests[current] && IsImageId(oldManifest.image.id)
                && oldManifest.sourceCommit == oldManifest.image.revision == current
                && services.Bound(currentRef, oldManifest.image.id) && !terminationRequested
      ensures calm ==> db == old(db) && !o.Died?
      ensures quiet || old(terminationRequested) ==> terminationRequested == old(terminationRequested)
      ensures calm && !terminationRequested ==>
                (o.Done? <==>
                   && current in manifests && db.Some? && Verifies(manifests[current], current, db.value)
                   && Observable(manifests[current], current)
                   && services.Bound(services.bot.ref, manifests[current].image.id)
                       && images.Carries(services.bot.ref, current))
    {
      hide IsImageId, Observable;
      currentRef := "";
      oldManifest :- VerifyExistingManifest(current);
      currentRef :- ObservedRef(oldManifest, current);
      o := AssertServices(currentRef, oldManifest.image.id, current);
    }

    /** The rest of the checks of `_new_deployment`, up to the journal it opens with. */
    method PlanTransaction(pid: nat, source: string, current: string, snapshot: Db)
      returns (o: Outcome, plan: Option<(Journal, Db, Manifest, string, bool)>)
      requires IsCommit(source) && IsCommit(current) && current != source && pointer == Some(current)
      modifies `db, `terminationRequested
      ensures o.Done? <==> plan.Some?
      ensures plan.Some? ==> Planned(pid, source, current, plan.value) && plan.value.1 == snapshot && !terminationRequested
      ensures plan.Some? && plan.value.4 ==> journal.Some? && journal.value.status == RolledBack
      ensures calm ==> db == old(db) && !o.Died?
      ensures quiet || old(terminationRequested) ==> terminationRequested == old(terminationRequested)
      ensures calm && !terminationRequested ==> (o.Done? <==> Plannable(source, current))
    {
      hide LoaderAccepts, Tracks, IsImageId, IsCommit, SameDatabase, Observable;
      plan := None;
      var reused := source in manifests;
      if reused { :- ReusableTarget(source); }
      var oldManifest, currentRef :- ObserveOld(current);
      var first := FirstJournal(pid, source, current, snapshot, reused);
      if first.None? { return Raised, plan; }
      return Done, Some((first.value, snapshot, oldManifest, currentRef, reused));
    }

    /** A plan's journal is the one `_journal_from_preflight` makes of what was read, and it can be written. */
    ghost predicate Planned(pid: nat, source: string, current: string, plan: (Journal, Db, Manifest, string, bool))
      reads `pointer, `manifests, `images, `services, `checkout
    {
      && Openable(plan.0, plan.1, source, current)
      && services.Bound(plan.3, plan.0.plan.oldId) && current in manifests && plan.2 == manifests[current]
      && (plan.4 <==> source in manifests)
      && (plan.4 ==> plan.0.target == manifests[source].image)
      && Some(plan.0) == JournalFromPreflight(source, current, plan.2, plan.1, if plan.4 then Some(manifests[source]) else None, pid, checkout.toolHash)
      && (LoaderAccepts(plan.0) <==> FirstTaken(plan.0.plan, manifests))
    }

    lemma PlannedOpens(pid: nat, source: string, current: string, plan: (Journal, Db, Manifest, string, bool))
      requires Planned(pid, source, current, plan)
      ensures Tracks(plan.0) && plan.0.phase == Prepared && plan.0.status == Active
      ensures LoaderAccepts(plan.0) <==> FirstTaken(plan.0.plan, manifests)
    {
      hide LoaderAccepts, Tracks;
    }

    ghost predicate Openable(first: Journal, snapshot: Db, source: string, current: string)
      reads `pointer, `manifests, `images
    {
      && Tracks(first) && first.phase == Prepared && first.status == Active && SameDatabase(Some(snapshot), first)
      && first.plan.oldPointer == current && first.plan.sourceCommit == source
    }

    /** The journal a deployment opens with, under the number of its process. */
    method FirstJournal(pid: nat, source: string, current: string, snapshot: Db, reused: bool)
      returns (first: Option<Journal>)
      requires IsCommit(source) && IsCommit(current) && current != source && pointer == Some(current)
      requires current in manifests && manifests[current].sourceCommit == manifests[current].image.revision == current
      requires IsImageId(manifests[current].image.id) && (reused <==> source in manifests)
      requires reused ==> manifests[source].image.revision == source && IsImageId(manifests[source].image.id)
      ensures first.Some? ==>
                && Openable(first.value, snapshot, source, current)
                && first.value.plan.oldId == manifests[current].image.id
                && (reused ==> first.value.target == manifests[source].image)
                && (LoaderAccepts(first.value) <==> FirstTaken(first.value.plan, manifests))
      ensures first == JournalFromPreflight(source, current, manifests[current], snapshot,
                                            if reused then Some(manifests[source]) else None, pid, checkout.toolHash)
      ensures first.Some? <==> manifests[current].image.ref != "" && (reused ==> manifests[source].image.ref == RUNTIME_PREFIX + source)
    {
      hide IsImageId, PlanShaped, LoaderAccepts, TargetShaped;
      var target := if reused then Some(manifests[source]) else None;
      first := JournalFromPreflight(source, current, manifests[current], snapshot, target, pid, checkout.toolHash);
      PreflightJournalAccepted(source, current, manifests[current], snapshot, target, pid, checkout.toolHash);
    }

    /** The checks of `_new_deployment` before its first journal write; `None` is an idempotent success. */
    method Preflight(pid: nat) returns (o: Outcome, plan: Option<(Journal, Db, Manifest, string, bool)>)
      requires Valid()
      modifies `acts, `checkout, `db, `terminationRequested
      ensures Valid()
      ensures journal.Some? && Live(journal.value) ==> !o.Done?
      ensures plan.None? || acts == old(acts)
      ensures o.Done? && plan.None? ==>
                && pointer == Some(checkout.head) && checkout.head in manifests
                && services.OnImage(manifests[checkout.head].image.id)
      ensures plan.Some? ==> !terminationRequested && o.Done? && pointer.Some? && Planned(pid, checkout.head, pointer.value, plan.value)
      ensures plan.Some? && plan.value.4 ==> journal.Some? && journal.value.status == RolledBack
      ensures calm ==> checkout == old(checkout) && !o.Died?
      ensures quiet || old(terminationRequested) ==> terminationRequested == old(terminationRequested)
      ensures calm && plan.Some? ==> Some(plan.value.1) == db == old(db)
      ensures calm && !terminationRequested ==> (plan.Some? <==> old(Deployable()))
      ensures calm && !terminationRequested ==> (o.Done? && plan.None? <==> old(AlreadyServing()))
    {
      hide LoaderAccepts, Planned, IsCommit, WellFormed, Plannable, Valid, Verifies;
      plan := None;
      var source, snapshot, current :- ReadSurroundings();
      if current == source {
        o := AssertAlreadyDeployed(source, snapshot);
        return;
      }
      o, plan := PlanTransaction(pid, source, current, snapshot);
    }

    /** `_new_deployment` up to its first journal write. */
    method Begin(pid: nat) returns (o: Outcome, plan: Option<(Journal, Db, Manifest, string, bool)>)
      requires Valid()
      modifies `acts, `checkout, `db, `terminationRequested, `inRollback, `since, `base, `tx, `journal, `audit
      ensures Valid() && old(audit) <= audit && since == |old(audit)| && !inRollback
      ensures old(journal.Some? && Live(journal.value)) ==> !o.Done? && journal == old(journal)
      ensures plan.None? || (acts == old(acts) && !terminationRequested)
      ensures (journal == old(journal) && audit == old(audit)) || Opened(old(manifests))
      ensures o.Done? && plan.None? ==>
                && pointer == Some(checkout.head) && checkout.head in manifests
                && services.OnImage(manifests[checkout.head].image.id) && journal == old(journal) && audit == old(audit)
      ensures o.Done? && plan.Some? ==>
                OpenedWith(plan.value.0) && Opened(manifests) && pointer.Some?
                    && Planned(pid, checkout.head, pointer.value, plan.value)
      ensures calm ==> checkout == old(checkout) && !o.Died?
      ensures quiet ==> !terminationRequested
      ensures calm && o.Done? && plan.Some? ==> db == old(db) == Some(plan.value.1)
      ensures calm && !(o.Done? && plan.Some?) ==> journal == old(journal)
      ensures calm && !terminationRequested ==> (o.Done? && plan.Some? <==> old(Deployable()))
      ensures calm && !terminationRequested ==> (o.Done? && plan.None? <==> old(AlreadyServing()))
    {
      hide LoaderAccepts, IsCommit, AlreadyServing, WellFormed, Tracks, Deployable, Engaged, OpenedWith, Opened,
          Planned, Sound,
          FirstTaken;
      Boot();
      o, plan := Preflight(pid);
      if o.Done? && plan.Some? {
        PlannedOpens(pid, checkout.head, pointer.value, plan.value);
        o := OpenTransaction(plan.value.0);
        if o.Done? || audit != old(audit) || journal != old(journal) { NowOpened(plan.value.0); }
      }
    }

    /**
     The run since a transaction: everything it wrote belongs to it, and the loader takes all of
     that and what is on disk now exactly when it takes the first journal.
     */
    ghost predicate Opened(manifestsBefore: map<string, Manifest>)
      reads `journal, `audit, `base, `since
    {
      && OpenedBy() && WritesTaken(audit, since, base) && journal.Some? && journal.value.plan == base.plan
      && (LoaderAccepts(base) ==> LoaderAccepts(journal.value))
      && (LoaderAccepts(base) <==> FirstTaken(base.plan, manifestsBefore))
    }

    lemma JustOpened(pid: nat, plan: (Journal, Db, Manifest, string, bool))
      requires OpenedWith(plan.0) && pointer.Some? && Planned(pid, checkout.head, pointer.value, plan)
      ensures Engaged() && tx == plan.0 && SameDatabase(Some(plan.1), tx) && tx.status == Active && since < |audit|
      ensures pointer == Some(tx.plan.oldPointer) && tx.plan.sourceCommit == checkout.head
      ensures plan.4 <==> tx.plan.sourceCommit in manifests
    {
      hide Engaged, Tracks, LoaderAccepts;
    }

    /** What the opened transaction needs is what a caller could check before. */
    lemma OpenedPromotable(pid: nat, plan: (Journal, Db, Manifest, string, bool))
      requires OpenedWith(plan.0) && pointer.Some? && Planned(pid, checkout.head, pointer.value, plan)
      requires Serves(checkout.head, pointer.value)
      ensures tx.target.ref == RUNTIME_PREFIX + checkout.head && plan.3 == services.bot.ref
      ensures Undisturbed(plan.2, plan.3)
      ensures |checkout.head| >= 12 && pointer.value in manifests && (Promotable(plan.4) <==> Supplied(pid))
    {
      hide Engaged, Tracks, LoaderAccepts, IsImageId, WellFormed;
      EngagedTarget();
    }

    lemma OpenedFirst(manifestsBefore: map<string, Manifest>)
      requires Opened(manifestsBefore)
      ensures OpenedBy() && (LoaderAccepts(base) <==> FirstTaken(base.plan, manifestsBefore))
    {
    }

    lemma EngagedIsValid()
      requires Engaged()
      ensures Valid()
    {
    }

    lemma NowOpened(first: Journal)
      requires OpenedWith(first) && base == first && (LoaderAccepts(first) <==> FirstTaken(first.plan, manifests))
      ensures Opened(manifests)
    {
      StillOpened(manifests);
    }

    lemma StillOpened(manifestsBefore: map<string, Manifest>)
      requires Engaged() && OpenedBy() && (LoaderAccepts(base) <==> FirstTaken(base.plan, manifestsBefore))
      ensures Opened(manifestsBefore)
    {
    }

    /**
     `_new_deployment`.  It either commits, or finds the target already serving, or fails; a
     live journal stops it before anything durable changes, and whatever happens the pointer
     holds the commit it held before or the source commit.

     In calm weather without a signal it succeeds exactly from the committable states and from those
     that already serve the head.  In calm weather it never leaves the services stopped: it either
     succeeds or leaves the old image serving, signals or not, unless the old services run under the
     very reference the deployment builds.
     */
    method NewDeployment(pid: nat) returns (o: Outcome)
      requires Valid()
      modifies this`acts, this`journal, this`pointer, this`manifests, this`images, this`services, this`db,
          this`checkout,
               this`tx, this`inRollback, this`terminationRequested, this`audit, this`base, this`since
      ensures Valid() && old(audit) <= audit && since == |old(audit)|
      ensures (journal == old(journal) && audit == old(audit)) || Opened(old(manifests))
      ensures pointer == old(pointer) || pointer == Some(checkout.head)
      ensures old(journal.Some? && Live(journal.value)) ==>
                !o.Done? && journal == old(journal) && pointer == old(pointer) && manifests == old(manifests)
                && images == old(images) && services == old(services)
      ensures o.Done? ==>
                && pointer == Some(checkout.head) && checkout.head in manifests
                && services.OnImage(manifests[checkout.head].image.id)
                && (DeployedNow(old(acts)) || (journal == old(journal) && pointer == old(pointer) && services == old(services)))
      ensures o.Raised? ==> OldRestored() || Quiesced() || (services == old(services) && pointer == old(pointer) && manifests == old(manifests))
      ensures calm && quiet ==> (o.Done? <==> old(Committable(pid) || AlreadyServing()))
      ensures calm && quiet && old(Committable(pid)) ==> DeployedNow(old(acts))
      ensures calm && quiet && old(AlreadyServing()) ==>
                journal == old(journal) && pointer == old(pointer) && services == old(services) && images == old(images)
      ensures calm && old(services.bot.ref != RUNTIME_PREFIX + checkout.head) && !o.Done? ==>
                o.Raised? && (OldRestored() || (journal == old(journal) && services == old(services) && pointer == old(pointer)))
    {
      hide Engaged, Valid, LoaderAccepts, FirstTaken, DeploymentActs, OldRestored, Quiesced, Opened, OpenedWith,
          Planned, DeployedNow, AlreadyServing, Deployable, Supplied, Serves, Services.OnImage, Observable;
      DeployableServes();
      var plan :- Begin(pid);
      if plan.None? { return Done; }
      o := CarryOut(pid, plan.value);
    }

    /** What a run has opened stays its transaction to the end. */
    method CarryOut(ghost pid: nat, plan: (Journal, Db, Manifest, string, bool)) returns (o: Outcome)
      requires OpenedWith(plan.0) && pointer.Some? && Planned(pid, checkout.head, pointer.value, plan)
      requires Opened(manifests)
      modifies `acts, `tx, `journal, `audit, `images, `pointer, `manifests, `services, `db, `terminationRequested,
          `inRollback
      ensures Valid() && old(audit) <= audit && Opened(old(manifests))
      ensures pointer == old(pointer) || pointer == Some(checkout.head)
      ensures o.Done? ==>
                && DeployedNow(old(acts)) && pointer == Some(checkout.head) && checkout.head in manifests
                && services.OnImage(manifests[checkout.head].image.id)
      ensures o.Raised? ==> OldRestored() || Quiesced()
      ensures (&& calm && quiet && !old(terminationRequested)
               && old(db == Some(plan.1) && Serves(checkout.head, pointer.value))) ==>
                |checkout.head| >= 12 && old(pointer.value in manifests) && (o.Done? <==> old(Supplied(pid)))
      ensures (&& calm && old(db == Some(plan.1) && Serves(checkout.head, pointer.value))
               && old(services.bot.ref) != RUNTIME_PREFIX + checkout.head && !o.Done?) ==>
                o.Raised? && OldRestored()
    {
      hide Engaged, Valid, LoaderAccepts, FirstTaken, OldRestored, Quiesced, Opened, OpenedWith,
          Planned, DeployedNow, Supplied, Serves, Services.OnImage;
      JustOpened(pid, plan);
      OpenedFirst(manifests);
      o := RunOpened(pid, plan);
      EngagedIsValid();
      StillOpened(old(manifests));
    }

    /** `_new_deployment` from its first journal write on. */
    method RunOpened(ghost pid: nat, plan: (Journal, Db, Manifest, string, bool)) returns (o: Outcome)
      requires OpenedWith(plan.0) && pointer.Some? && Planned(pid, checkout.head, pointer.value, plan)
      modifies `acts, `tx, `journal, `audit, `images, `pointer, `manifests, `services, `db, `terminationRequested,
          `inRollback
      ensures Engaged() && tx.plan == old(tx.plan) && old(audit) <= audit
      ensures pointer == old(pointer) || pointer == Some(tx.plan.sourceCommit)
      ensures o.Done? ==> DeployedNow(old(acts))
      ensures o.Done? ==>
                && pointer == Some(tx.plan.sourceCommit) && tx.plan.sourceCommit in manifests
                && services.OnImage(manifests[tx.plan.sourceCommit].image.id)
      ensures o.Raised? ==> OldRestored() || Quiesced()
      ensures (&& calm && quiet && !old(terminationRequested)
               && old(db == Some(plan.1) && Serves(checkout.head, pointer.value))) ==>
                |checkout.head| >= 12 && old(pointer.value in manifests) && (o.Done? <==> old(Supplied(pid)))
      ensures (&& calm && old(db == Some(plan.1) && Serves(checkout.head, pointer.value))
               && old(services.bot.ref) != RUNTIME_PREFIX + checkout.head && !o.Done?) ==>
                o.Raised? && OldRestored()
    {
      hide Engaged, LoaderAccepts, FirstTaken, DeploymentActs, OldRestored, Quiesced, OpenedWith,
          Planned, Promotable, Undisturbed, Supplied, Serves;
      var (_, snapshot, oldManifest, currentRef, reused) := plan;
      JustOpened(pid, plan);
      if Serves(checkout.head, pointer.value) { OpenedPromotable(pid, plan); }
      o := RunTransaction(reused, snapshot, oldManifest, currentRef);
    }

    /** The guarded part of `_new_deployment` and its handler. */
    method RunTransaction(reused: bool, snapshot: Db, oldManifest: Manifest, currentRef: string) returns (o: Outcome)
      requires Engaged() && SameDatabase(Some(snapshot), tx) && tx.status == Active
          && pointer == Some(tx.plan.oldPointer)
      requires reused <==> tx.plan.sourceCommit in manifests
      modifies `acts, `tx, `journal, `audit, `images, `pointer, `manifests, `services, `db, `terminationRequested,
          `inRollback
      ensures Engaged() && tx.plan == old(tx.plan) && old(audit) <= audit
      ensures pointer == old(pointer) || pointer == Some(tx.plan.sourceCommit)
      ensures o.Done? ==> Deployed() && acts == old(acts) + DeploymentActs(reused, tx.target.ref, tx.plan.sourceCommit)
      ensures o.Raised? ==> OldRestored() || Quiesced()
      ensures calm && quiet && !old(terminationRequested) && old(SameDatabase(db, tx)) ==>
                (o.Done? <==> old(Promotable(reused)))
      ensures (&& calm && old(SameDatabase(db, tx) && Undisturbed(oldManifest, currentRef))
               && currentRef != old(tx).target.ref && !o.Done?) ==>
                o.Raised? && OldRestored()
    {
      hide Engaged, AliasReady, DeploymentActs, RollbackActs, PreparationActs, Deployed, OldRestored, Quiesced,
          Promotable, Images.Keeps, Verifies, Services.Bound, Images.Carries;
      var activated, stopFirst;
      o, activated, stopFirst := DeploySteps(reused, snapshot);
      if calm && currentRef != tx.target.ref {
        StillCarries(images, old(images), tx.target.ref, currentRef, tx.plan.oldPointer);
      }
      if o.Raised? {
        o := HandleFailure(snapshot, oldManifest, currentRef, activated, stopFirst);
      }
    }

    // ---------------------------------------------------------------- recovery

    /**
     What a caller can check before a recovery: an open journal its loader takes, the checkout
     and tools of the interrupted deployment, an unchanged database that the old manifest still
     describes, and an alias Docker can produce.
     */
    ghost predicate Restorable()
      reads this
    {
      && journal.Some? && Live(journal.value) && LoaderAccepts(journal.value)
      && (var p := journal.value.plan;
          && checkout.clean && checkout.head == p.sourceCommit && checkout.toolHash == p.toolHash
          && checkout.directories && SameDatabase(db, journal.value)
          && p.oldPointer in manifests && manifests[p.oldPointer].dbSha == p.dbSha
          && AliasUsable(p))
    }

    /**
     Whichever crash left an open journal, only the caller's surroundings decide whether it can
     be recovered: past the alias step the alias is in place, before it Docker must produce it.
     */
    lemma OpenJournalIsRestorable()
      requires Valid() && journal.Some? && Live(journal.value)
      ensures Restorable() <==>
                && LoaderAccepts(journal.value)
                && (var p := journal.value.plan;
                    && checkout.clean && checkout.head == p.sourceCommit && checkout.toolHash == p.toolHash
                    && checkout.directories && SameDatabase(db, journal.value)
                    && manifests[p.oldPointer].dbSha == p.dbSha
                    && (PastAlias(journal.value.phase) || AliasUsable(p)))
    {
    }

    /**
     After a recovery the same commit can be deployed again, from the services on the rollback alias:
     what remains to be checked is that nothing newer was pushed, that the old image has a reference,
     and that a manifest the interrupted deployment left still has its image.
     */
    lemma RecoveredDeployable()
      requires Valid() && journal.Some? && LoaderAccepts(journal.value) && journal.value.status == RolledBack
      requires pointer == Some(journal.value.plan.oldPointer) && journal.value.plan.oldPointer != checkout.head
      requires services.Bound(journal.value.plan.rollbackRef, journal.value.plan.oldId) && AliasReady(journal.value.plan)
      requires SameDatabase(db, journal.value) && Recorded(journal.value.plan)
      requires checkout.clean && checkout.directories && checkout.head == journal.value.plan.sourceCommit
      ensures var p, head := journal.value.plan, checkout.head;
              Deployable() <==>
                && checkout.remote == head && p.oldRef != ""
                && (head in manifests ==>
                      && Verifies(manifests[head], head, db.value)
                      && manifests[head].backupPath == RUNTIME_BACKUP_SENTINEL
                      && manifests[head].image.ref == RUNTIME_PREFIX + head
                      && images.Names(manifests[head].image.ref, manifests[head].image.id, head))
    {
      hide IsImageId, IsCommit;
    }

    /** The plan's old manifest is there, and describes its image and its database. */
    ghost predicate Recorded(p: Plan)
      reads `manifests
    {
      && p.oldPointer in manifests
      && var m := manifests[p.oldPointer];
         && m.sourceCommit == p.oldPointer && m.dbSha == p.dbSha && IsImageId(m.image.id)
         && m.image.ref == p.oldRef && m.image.id == p.oldId && m.image.revision == p.oldPointer
    }

    /** An open journal that everything would let a recovery restore, but for the alias, which names another image. */
    ghost predicate HeldUpByAlias(source: string, serving: string, other: string)
      reads this
    {
      && journal.Some? && Live(journal.value) && LoaderAccepts(journal.value) && !PastAlias(journal.value.phase)
      && (var p := journal.value.plan;
          && checkout.clean && checkout.head == p.sourceCommit == source && checkout.toolHash == p.toolHash
          && checkout.directories && SameDatabase(db, journal.value)
          && pointer == Some(serving) && p.oldPointer == serving && serving in manifests
              && manifests[serving].dbSha == p.dbSha
          && services.Bound(p.oldRef, p.oldId) && images.Names(p.oldRef, p.oldId, serving)
          && images.Names(p.rollbackRef, other, serving) && !AliasUsable(p))
    }

    /** The part of `Restorable` that is checked inside the guard. */
    ghost predicate Admissible()
      requires tx.plan.oldPointer in manifests
      reads `tx, `db, `manifests, `images
    {
      SameDatabase(db, tx) && manifests[tx.plan.oldPointer].dbSha == tx.plan.dbSha && AliasUsable(tx.plan)
    }

    lemma AdmissibleMeans()
      requires Engaged()
      ensures tx.plan.oldPointer in manifests && (Admissible() ==> SameDatabase(db, tx))
    {
    }

    /** The checks and steps inside `_recovery`'s guard, up to the stop. */
    method RecoverAdmission() returns (o: Outcome, snapshot: Db)
      requires Engaged() && inRollback && !terminationRequested && (tx.status == Active || tx.status == Unresolved)
      modifies `acts, `tx, `journal, `audit, `images, `db, `terminationRequested
      ensures acts == old(acts)
      ensures Engaged() && tx.plan == old(tx.plan) && tx.target == old(tx.target) && old(audit) <= audit
      ensures !terminationRequested
      ensures o.Done? ==> SameDatabase(Some(snapshot), tx)
      ensures o.Done? ==> AliasReady(tx.plan) && (tx.status == Active || tx.status == Unresolved)
      ensures calm ==> db == old(db) && !o.Died?
      ensures o.Done? ==> Recorded(tx.plan)
      ensures calm ==> (o.Done? <==> old(Admissible()))
    {
      snapshot :- DatabaseSnapshot();
      if snapshot.sha != tx.plan.dbSha || snapshot.stat != tx.plan.dbStat { return Raised, snapshot; }
      var m :- VerifyExistingManifest(tx.plan.oldPointer);
      if m.image.ref != tx.plan.oldRef || m.image.id != tx.plan.oldId || m.image.revision != tx.plan.oldPointer {
        return Raised, snapshot;
      }
      o := EnsureRollbackAlias(RecoveryRollbackTag);
    }

    /** Stop whatever is running, then bring the old image back. */
    method RecoverRestart() returns (o: Outcome)
      requires Engaged() && AliasReady(tx.plan) && inRollback && !terminationRequested
      modifies `acts, `tx, `journal, `audit, `services, `db, `terminationRequested
      ensures Engaged() && old(audit) <= audit && !terminationRequested
      ensures tx == old(tx).(phase := tx.phase, status := Unresolved)
      ensures o.Done? ==> services.Bound(tx.plan.rollbackRef, tx.plan.oldId)
      ensures calm ==> db == old(db) && o.Done?
      ensures o.Done? ==> acts == old(acts) + [Announce(RecoveryQuiesce), StopServices, Announce(RecoveryRestore)]
                                       + [StartServices(tx.plan.rollbackRef), ProbeServices]
    {
      hide Engaged, AliasReady;
      :- Advance(RecoveryQuiesce, Unresolved);
      :- ComposeStop();
      :- Advance(RecoveryRestore, tx.status);
      o := StartOld();
    }

    /** The pointer part of `_recovery`: a moved pointer must hold the source commit, and goes back. */
    method RecoverPointer() returns (o: Outcome)
      requires Engaged() && AliasReady(tx.plan) && inRollback && !terminationRequested
      requires tx.status == Active || tx.status == Unresolved
      modifies `acts, `tx, `journal, `audit, `pointer, `db, `terminationRequested
      ensures Engaged() && old(audit) <= audit && !terminationRequested
      ensures tx == old(tx).(phase := tx.phase)
      ensures pointer == old(pointer) || pointer == Some(tx.plan.oldPointer)
      ensures o.Done? ==> pointer == Some(tx.plan.oldPointer)
      ensures calm ==> db == old(db) && o.Done?
      ensures o.Done? ==> acts == old(acts) + PointerActs(RecoveryPointer, old(pointer), tx.plan.oldPointer)
    {
      assert pointer.Some? && IsCommit(pointer.value);
      assert pointer.value == tx.plan.oldPointer || pointer.value == tx.plan.sourceCommit;
      hide Engaged, AliasReady;
      var current :- ReadPointer();
      if current == tx.plan.oldPointer { return Done; }
      if current != tx.plan.sourceCommit { return Raised; }
      o := RepointOld(RecoveryPointer);
    }

    /** The old image serves again, under the old commit. */
    method RecoverServing() returns (o: Outcome)
      requires Engaged() && AliasReady(tx.plan) && inRollback && !terminationRequested
      modifies `acts, `tx, `journal, `audit, `services, `pointer, `db, `terminationRequested
      ensures Engaged() && old(audit) <= audit && !terminationRequested
      ensures tx == old(tx).(phase := tx.phase, status := Unresolved)
      ensures pointer == old(pointer) || pointer == Some(tx.plan.oldPointer)
      ensures o.Done? ==> services.Bound(tx.plan.rollbackRef, tx.plan.oldId) && pointer == Some(tx.plan.oldPointer)
      ensures calm ==> db == old(db) && o.Done?
      ensures o.Done? ==> acts == old(acts) + [Announce(RecoveryQuiesce), StopServices, Announce(RecoveryRestore)]
                                       + [StartServices(tx.plan.rollbackRef), ProbeServices]
                                       + PointerActs(RecoveryPointer, old(pointer), tx.plan.oldPointer)
    {
      hide Engaged, AliasReady, PointerActs;
      :- RecoverRestart();
      o := RecoverPointer();
    }

    /** The rest of `_recovery`'s guarded body. */
    method RecoverSteps(snapshot: Db) returns (o: Outcome)
      requires Engaged() && AliasReady(tx.plan) && inRollback && !terminationRequested
      requires SameDatabase(Some(snapshot), tx)
      requires tx.status == Active || tx.status == Unresolved
      modifies `acts, `tx, `journal, `audit, `services, `pointer, `db, `terminationRequested
      ensures Engaged() && tx.plan == old(tx.plan) && tx.target == old(tx.target) && old(audit) <= audit
      ensures pointer == old(pointer) || pointer == Some(tx.plan.oldPointer)
      ensures !terminationRequested
      ensures o.Done? ==> OldRestored() && tx.phase == Recovered && SameDatabase(db, tx) && services.Bound(tx.plan.rollbackRef, tx.plan.oldId)
      ensures AliasReady(tx.plan)
      ensures calm ==> !o.Died?
      ensures calm && old(SameDatabase(db, tx)) ==> o.Done?
      ensures o.Done? ==> acts == old(acts) + RecoveryActs(old(pointer), tx.plan)
    {
      hide Engaged, AliasReady;
      :- RecoverServing();
      :- AssertDatabaseUnchanged(snapshot);
      o := CloseRolledBack(Recovered);
    }

    /** What `_recovery` checks before it raises its guard. */
    method RecoverPreflight() returns (o: Outcome)
      requires Valid() && since == |audit|
      modifies `tx, `base, `db, `terminationRequested
      ensures Valid()
      ensures o.Done? ==> Engaged() && journal == Some(tx) && Live(tx) && !terminationRequested && LoaderAccepts(base)
      ensures calm ==> db == old(db) && !o.Died?
      ensures calm && !terminationRequested ==> (o.Done? <==>
                && journal.Some? && Live(journal.value) && LoaderAccepts(journal.value)
                && checkout.clean && checkout.head == journal.value.plan.sourceCommit
                && checkout.toolHash == journal.value.plan.toolHash && checkout.directories)
    {
      if journal.None? || !LoaderAccepts(journal.value) || !Live(journal.value) { return Raised; }
      tx, base := journal.value, journal.value;
      :- Command();
      if !checkout.clean { return Raised; }
      :- Command();
      if checkout.head != tx.plan.sourceCommit || checkout.toolHash != tx.plan.toolHash || !checkout.directories {
        return Raised;
      }
      o := Done;
    }

    /** The guarded body of `_recovery`. */
    method RecoverAttempt() returns (o: Outcome)
      requires Engaged() && inRollback && !terminationRequested && (tx.status == Active || tx.status == Unresolved)
      modifies `acts, `tx, `journal, `audit, `images, `services, `pointer, `db, `terminationRequested
      ensures Engaged() && tx.plan == old(tx.plan) && old(audit) <= audit && !terminationRequested
      ensures pointer == old(pointer) || pointer == Some(tx.plan.oldPointer)
      ensures o.Done? ==> OldRestored() && tx.phase == Recovered && SameDatabase(db, tx) && services.Bound(tx.plan.rollbackRef, tx.plan.oldId)
      ensures calm ==> !o.Died? && (o.Done? <==> old(Admissible()))
      ensures o.Done? ==> acts == old(acts) + RecoveryActs(old(pointer), tx.plan)
      ensures o.Done? ==> AliasReady(tx.plan) && Recorded(tx.plan)
    {
      hide Engaged, AliasReady, Admissible, RecoveryActs, Services.Bound, OldRestored, Recorded;
      AdmissibleMeans();
      var snapshot :- RecoverAdmission();
      o := RecoverSteps(snapshot);
    }

    /** `_recovery` from the moment its guard is up. */
    method RecoverGuarded() returns (o: Outcome)
      requires Engaged() && (tx.status == Active || tx.status == Unresolved)
      modifies `acts, `tx, `journal, `audit, `images, `services, `pointer, `db, `terminationRequested, `inRollback
      ensures Engaged() && tx.plan == old(tx.plan) && old(audit) <= audit && !terminationRequested
      ensures pointer == old(pointer) || pointer == Some(tx.plan.oldPointer)
      ensures o.Done? ==> OldRestored() && tx.phase == Recovered && SameDatabase(db, tx) && services.Bound(tx.plan.rollbackRef, tx.plan.oldId)
      ensures calm ==> (o.Done? <==> old(Admissible()))
      ensures o.Done? ==> acts == old(acts) + RecoveryActs(old(pointer), tx.plan)
      ensures o.Raised? ==> Quiesced()
      ensures o.Done? ==> AliasReady(tx.plan) && Recorded(tx.plan)
      ensures calm ==> !o.Died?
      ensures calm && o.Raised? ==> journal == Some(tx) && !services.bot.running && !services.api.running
    {
      hide Engaged, AliasReady, Admissible, RecoveryActs, Services.Bound, OldRestored, Recorded, Quiesced, SameDatabase;
      AdmissibleMeans();
      inRollback, terminationRequested := true, false;
      o := RecoverAttempt();
      if o.Raised? { o := RecordAndQuiesce(UnresolvedPhase); }
      if !o.Died? { inRollback := false; }
    }

    /**
     `_recovery`.  When its commands succeed and no signal lands before its guard is up, it
     succeeds exactly from the restorable states; a success leaves both services on the old
     image, the old pointer in place and the journal closed as rolled back.
     */
    method Recover() returns (o: Outcome)
      requires Valid()
      modifies this`acts, this`journal, this`pointer, this`images, this`services, this`db,
               this`tx, this`inRollback, this`terminationRequested, this`audit, this`base, this`since
      ensures Valid() && old(audit) <= audit && AllTaken(audit, |old(audit)|)
      ensures journal == old(journal) || (journal.Some? && LoaderAccepts(journal.value))
      ensures !old(journal.Some? && Live(journal.value)) ==>
                !o.Done? && journal == old(journal) && pointer == old(pointer) && services == old(services)
      ensures pointer == old(pointer) || (old(journal).Some? && pointer == Some(old(journal).value.plan.oldPointer))
      ensures o.Done? ==>
                && old(journal).Some? && tx.plan == old(journal).value.plan && tx.phase == Recovered
                && OldRestored() && SameDatabase(db, tx) && services.Bound(tx.plan.rollbackRef, tx.plan.oldId)
      ensures o.Done? ==> acts == old(acts) + RecoveryActs(old(pointer), tx.plan)
      ensures o.Raised? ==> Quiesced() || (journal == old(journal) && acts == old(acts))
      ensures calm && !terminationRequested ==> (o.Done? <==> old(Restorable()))
      ensures calm ==> !o.Died?
      ensures calm && o.Raised? && acts != old(acts) ==>
                journal == Some(tx) && !services.bot.running && !services.api.running
      ensures o.Done? ==> AliasReady(tx.plan) && Recorded(tx.plan)
      ensures o.Done? ==> !terminationRequested
    {
      hide WellFormed, LoaderAccepts, RecoveryActs, Sound, Continues, AllTaken, Tracks, Services.Bound, OldRestored, Recorded;
      Boot();
      NothingWritten(audit);
      :- RecoverPreflight();
      AdmissibleMeans();
      o := RecoverGuarded();
      RecoveredTaken();
    }

    /** A recovery starts from a journal the loader took, so it takes all that follows. */
    lemma RecoveredTaken()
      requires Engaged() && LoaderAccepts(base)
      ensures AllTaken(audit, since) && journal.Some? && LoaderAccepts(journal.value)
    {
      hide LoaderAccepts, Tracks, Sound;
    }

    // ---------------------------------------------------------------- runs

    /** `_check_full_journal`: the full updater's admission. */
    method CheckFullJournal() returns (o: Outcome)
      ensures o.Done? <==> journal.None? || (LoaderAccepts(journal.value) && !Live(journal.value))
    {
      if journal.None? { return Done; }
      o := if LoaderAccepts(journal.value) && !Live(journal.value) then Done else Raised;
    }

    /** What no transaction owns. */
    method Weather()
      modifies `services, `db, `checkout, `calm, `quiet, `product
    {
      services, db, checkout, calm, quiet, product := *, *, *, *, *, *;
    }

    /** Between runs anything outside may change; a full update may also replace what it owns, once admitted. */
    method Elsewhere()
      requires Valid()
      modifies this`pointer, this`manifests, this`images, this`services, this`db, this`checkout, this`calm,
          this`quiet, this`product
      ensures Valid()
      ensures journal.Some? && Live(journal.value) ==>
                pointer == old(pointer) && manifests == old(manifests) && images == old(images)
    {
      Weather();
      var admitted := CheckFullJournal();
      if admitted.Done? { pointer, manifests, images := *, *, *; }
    }

    /**
     Any interleaving of runs, crashes and outside changes keeps the invariant and every durable write
     sound.  The loader takes every journal written exactly when it takes those that open a
     transaction; what is on disk then stays loadable.
     */
    method History(rounds: nat)
      requires Valid()
      modifies this
      ensures Valid() && old(audit) <= audit
      ensures AllTaken(audit, |old(audit)|) <==> FirstsTaken(audit, |old(audit)|)
      ensures old(DiskTaken()) && FirstsTaken(audit, |old(audit)|) ==> DiskTaken()
    {
      hide Sound, LoaderAccepts, Opened, OpenedBy, WritesTaken, AllTaken, FirstsTaken, Restorable;
      NothingWritten(audit);
      for round := 0 to rounds
        invariant Valid() && old(audit) <= audit
        invariant FirstsTaken(audit, |old(audit)|) ==> AllTaken(audit, |old(audit)|)
        invariant old(DiskTaken()) && FirstsTaken(audit, |old(audit)|) ==> DiskTaken()
      {
        Round(|old(audit)|);
      }
      AllAreFirsts(audit, |old(audit)|);
    }

    ghost predicate DiskTaken()
      reads `journal
    {
      journal.Some? ==> LoaderAccepts(journal.value)
    }

    /** One run, or something outside. */
    method Round(ghost from: nat)
      requires Valid() && from <= |audit|
      modifies this
      ensures Valid() && old(audit) <= audit
      ensures FirstsTaken(audit, from) ==> FirstsTaken(old(audit), from)
      ensures FirstsTaken(audit, from) && AllTaken(old(audit), from) ==> AllTaken(audit, from)
      ensures FirstsTaken(audit, from) && old(DiskTaken()) ==> DiskTaken()
    {
      hide Sound, LoaderAccepts, OpenedBy, WritesTaken, AllTaken, FirstsTaken, Restorable, Deployed;
      var deploy: bool, recover: bool, pid: nat := *, *, *;
      ghost var before := audit;
      if deploy {
        var _ := NewDeployment(pid);
        if journal != old(journal) || audit != before { OpenedTaken(before, from); }
      } else if recover {
        var _ := Recover();
        LaterTaken(before, audit, from);
      } else {
        Elsewhere();
      }
      FirstsBefore(before, audit, from);
    }

    lemma OpenedTaken(before: seq<Event>, from: nat)
      requires OpenedBy() && WritesTaken(audit, since, base) && before <= audit && since == |before| && from <= |before|
      ensures FirstsTaken(audit, from) ==> LoaderAccepts(base)
      ensures FirstsTaken(audit, from) && AllTaken(before, from) ==> AllTaken(audit, from)
    {
      hide LoaderAccepts;
      assert forall i :: 0 <= i < |before| ==> before[i] == audit[i];
    }
  }

  lemma NothingWritten(audit: seq<Event>)
    ensures AllTaken(audit, |audit|)
  {
  }

  lemma AllAreFirsts(audit: seq<Event>, from: nat)
    ensures AllTaken(audit, from) ==> FirstsTaken(audit, from)
  {
  }

  lemma FirstsBefore(before: seq<Event>, audit: seq<Event>, from: nat)
    requires before <= audit
    ensures FirstsTaken(audit, from) ==> FirstsTaken(before, from)
  {
    assert forall i :: 0 <= i < |before| ==> before[i] == audit[i];
  }

  lemma LaterTaken(before: seq<Event>, audit: seq<Event>, from: nat)
    requires before <= audit && AllTaken(audit, |before|)
    ensures AllTaken(before, from) ==> AllTaken(audit, from)
  {
    assert forall i :: 0 <= i < |before| ==> before[i] == audit[i];
  }

  // ---------------------------------------------------------------- an alias that is taken

  /** A machine ready for a deployment, but for an alias that names another image. */
  method MachineWithTakenAlias(source: string, serving: string, manifest: Manifest, alias: string, other: string,
          snapshot: Db, toolHash: Digest)
      returns (host: Host)
    requires IsCommit(source) && IsCommit(serving) && source != serving && Verifies(manifest, serving, snapshot)
    requires manifest.image.ref != alias && manifest.image.ref != "" && other != manifest.image.id
    ensures fresh(host) && host.Valid() && host.calm && host.journal == None
    ensures host.db == Some(snapshot) && host.pointer == Some(serving) && host.manifests == map[serving := manifest]
    ensures host.services.Bound(manifest.image.ref, manifest.image.id)
    ensures host.images.Names(manifest.image.ref, manifest.image.id, serving)
        && host.images.Names(alias, other, serving)
    ensures host.checkout == Checkout(true, source, source, toolHash, true)
  {
    hide IsImageId, IsCommit;
    var image := manifest.image;
    var service := Service(true, image.ref, image.id, true);
    host := new Host;
    host.journal, host.pointer, host.manifests := None, Some(serving), map[serving := manifest];
    host.images := Images(map[image.ref := image.id, alias := other], map[image.id := serving, other := serving],
        map[]);
    host.services, host.db := Services(service, service), Some(snapshot);
    host.checkout := Checkout(true, source, source, toolHash, true);
    host.calm, host.audit := true, [];
  }

  /** Such a machine is all a deployment asks for. */
  lemma ServesOld(host: Host, source: string, serving: string, manifest: Manifest, snapshot: Db)
    requires IsCommit(source) && IsCommit(serving) && source != serving && Verifies(manifest, serving, snapshot)
    requires host.journal == None && host.db == Some(snapshot) && host.pointer == Some(serving)
    requires host.manifests == map[serving := manifest] && manifest.image.ref != ""
    requires host.services.Bound(manifest.image.ref, manifest.image.id)
    requires host.images.Names(manifest.image.ref, manifest.image.id, serving)
    requires host.checkout.clean && host.checkout.head == host.checkout.remote == source && host.checkout.directories
    ensures host.Deployable()
  {
    hide IsImageId, IsCommit;
  }

  /**
   A deployment on a machine where another image already holds the alias its process number leads
   to.  Unless a signal stops it before, it opens its journal, with everything else as a recovery
   wants it.
   */
  method OpenOverForeignAlias(source: string, serving: string, id: string, other: string, snapshot: Db, pid: nat,
          toolHash: Digest)
      returns (host: Host)
    requires IsCommit(source) && IsCommit(serving) && source != serving && IsImageId(id) && IsImageId(other)
        && id != other
    requires snapshot.stat.mtimeNs >= 0 && snapshot.stat.ctimeNs >= 0
    ensures fresh(host) && host.Valid() && host.calm
    ensures host.journal.None? || host.HeldUpByAlias(source, serving, other)
    ensures !host.terminationRequested ==> host.journal.Some?
  {
    hide IsCommit, IsImageId, LoaderAccepts, WellFormed, IsSha256, Host.Deployable, Host.Tracks, Host.Continues, Sound,
        Host.AlreadyServing, Host.Opened, FirstTaken, WritesTaken;
    var manifest := Manifest(serving, Image(RUNTIME_PREFIX + serving, id, id, serving), snapshot.sha,
        RUNTIME_BACKUP_SENTINEL);
    ForeignJournal(source, serving, manifest, snapshot, pid, toolHash);
    var first := JournalFromPreflight(source, serving, manifest, snapshot, None, pid, toolHash).value;
    hide JournalFromPreflight;
    host := MachineWithTakenAlias(source, serving, manifest, first.plan.rollbackRef, other, snapshot, toolHash);
    ServesOld(host, source, serving, manifest, snapshot);
    var _, _ := host.Begin(pid);
  }

  lemma ForeignJournal(source: string, serving: string, manifest: Manifest, snapshot: Db, pid: nat, toolHash: Digest)
    requires IsCommit(source) && IsCommit(serving) && IsImageId(manifest.image.id)
        && manifest.image.ref == RUNTIME_PREFIX + serving
    requires snapshot.stat.mtimeNs >= 0 && snapshot.stat.ctimeNs >= 0
    ensures var r := JournalFromPreflight(source, serving, manifest, snapshot, None, pid, toolHash);
            && r.Some? && LoaderAccepts(r.value) && WellFormed(r.value)
            && r.value.status == Active && r.value.phase == Prepared && r.value.plan.rollbackRef != manifest.image.ref
            && r.value.plan.sourceCommit == source && r.value.plan.oldPointer == serving
                && r.value.plan.toolHash == toolHash
            && r.value.plan.oldRef == manifest.image.ref && r.value.plan.oldId == manifest.image.id
            && r.value.plan.dbSha == snapshot.sha && r.value.plan.dbStat == snapshot.stat
  {
    PreflightJournalAccepted(source, serving, manifest, snapshot, None, pid, toolHash);
    var at := |RUNTIME_PREFIX|;
    assert manifest.image.ref[at] == serving[0] && IsHex(serving[0]);
    var r := JournalFromPreflight(source, serving, manifest, snapshot, None, pid, toolHash);
    assert r.value.plan.rollbackRef[at] == ROLLBACK_PREFIX[at] == 'r';
  }

  /** A recovery refuses it, though each of its commands does what it says. */
  method ForeignAliasBlocksRecovery(source: string, serving: string, id: string, other: string, snapshot: Db, pid: nat,
          toolHash: Digest)
      returns (host: Host, o: Outcome)
    requires IsCommit(source) && IsCommit(serving) && source != serving && IsImageId(id) && IsImageId(other)
        && id != other
    requires snapshot.stat.mtimeNs >= 0 && snapshot.stat.ctimeNs >= 0
    ensures fresh(host) && host.Valid() && host.calm && !o.Done?
  {
    hide LoaderAccepts, WellFormed, IsCommit, IsImageId;
    host := OpenOverForeignAlias(source, serving, id, other, snapshot, pid, toolHash);
    o := host.Recover();
  }
}
