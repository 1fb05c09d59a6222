/** src/execution.rs, `migrate_execution_schema`: the two updates that fill columns older rows lack. */
module Migration {
  import opened Text
  import opened Tables
  import opened ExecutionAudit
  import opened Kernel
  import opened Preservation
  import opened Runs

  /** The participants holding a receipt for this intent. */
  function Holders(db: Db, intent: string): set<string> {
    set k | k in db.receipts && k.intent == intent :: k.participant
  }

  /** `MIN(participant_id)` where `COUNT(DISTINCT participant_id)` is one. */
  function OnlyHolder(db: Db, intent: string): Option<string> {
    var holders := Holders(db, intent);
    if |holders| != 1 then None
    else
      Singleton(holders);
      var p :| holders == {p};
      Some(p)
  }

  lemma Singleton<T>(s: set<T>)
    requires |s| == 1
    ensures exists x :: s == {x}
  {
    var x :| x in s;
    assert |s - {x}| == 0;
    assert s == {x};
  }

  function FilledProvenance(db: Db, k: ExecutionId, row: Provenance): Provenance {
    if row.capability.None? && k in db.receipts then row.(capability := Some(db.receipts[k].capability)) else row
  }

  function FilledIngress(db: Db, row: Ingress): Ingress {
    if row.participantId.None? && OnlyHolder(db, row.intentId).Some?
    then row.(participantId := OnlyHolder(db, row.intentId)) else row
  }

  function FillCapabilities(db: Db): Db {
    db.(provenance := map k | k in db.provenance :: FilledProvenance(db, k, db.provenance[k]))
  }

  function FillParticipants(db: Db): Db {
    db.(ingress := map d | d in db.ingress :: FilledIngress(db, db.ingress[d]))
  }

  function Migrate(db: Db): Db {
    FillParticipants(FillCapabilities(db))
  }

  /** The participant p, and nobody else, holds a receipt for this intent. */
  ghost predicate HoldsAlone(db: Db, intent: string, p: string) {
    ExecutionId(p, intent) in db.receipts && forall k | k in db.receipts && k.intent == intent :: k.participant == p
  }

  /** What the updates promise, row by row: a null capability becomes that of the execution's own receipt, a
      null participant the only one that holds a receipt for the intent, and nothing else changes. */
  ghost predicate Backfilled(before: Db, after: Db) {
    && after == before.(provenance := after.provenance, ingress := after.ingress)
    && after.provenance.Keys == before.provenance.Keys && after.ingress.Keys == before.ingress.Keys
    && (forall k | k in before.provenance :: CapabilityFilled(before, k, before.provenance[k], after.provenance[k]))
    && (forall d | d in before.ingress :: ParticipantFilled(before, before.ingress[d], after.ingress[d]))
  }

  ghost predicate CapabilityFilled(db: Db, k: ExecutionId, row: Provenance, filled: Provenance) {
    && filled.(capability := None) == row.(capability := None)
    && if row.capability.Some? then filled.capability == row.capability
       else forall c :: filled.capability == Some(c) <==> k in db.receipts && db.receipts[k].capability == c
  }

  ghost predicate ParticipantFilled(db: Db, row: Ingress, filled: Ingress) {
    && filled.(participantId := None) == row.(participantId := None)
    && if row.participantId.Some? then filled.participantId == row.participantId
       else forall p :: filled.participantId == Some(p) <==> HoldsAlone(db, row.intentId, p)
  }

  /** That promise leaves no choice: it determines the tables. */
  lemma BackfilledUnique(before: Db, a: Db, b: Db)
    requires Backfilled(before, a) && Backfilled(before, b)
    ensures a == b
  {
    hide HoldsAlone;
    forall k | k in before.provenance ensures a.provenance[k] == b.provenance[k] {
      FilledCapabilityUnique(before, k, before.provenance[k], a.provenance[k], b.provenance[k]);
    }
    forall d | d in before.ingress ensures a.ingress[d] == b.ingress[d] {
      FilledParticipantUnique(before, before.ingress[d], a.ingress[d], b.ingress[d]);
    }
    assert a.provenance == b.provenance && a.ingress == b.ingress;
  }

  lemma FilledCapabilityUnique(db: Db, k: ExecutionId, row: Provenance, x: Provenance, y: Provenance)
    requires CapabilityFilled(db, k, row, x) && CapabilityFilled(db, k, row, y)
    ensures x == y
  {
    assert x.(capability := None).(capability := x.capability) == x;
    assert y.(capability := None).(capability := y.capability) == y;
    if x.capability.Some? { assert y.capability == Some(x.capability.value); }
    if y.capability.Some? { assert x.capability == Some(y.capability.value); }
  }

  lemma FilledParticipantUnique(db: Db, row: Ingress, x: Ingress, y: Ingress)
    requires ParticipantFilled(db, row, x) && ParticipantFilled(db, row, y)
    ensures x == y
  {
    hide HoldsAlone;
    assert x.(participantId := None).(participantId := x.participantId) == x;
    assert y.(participantId := None).(participantId := y.participantId) == y;
    if x.participantId.Some? { assert y.participantId == Some(x.participantId.value); }
    if y.participantId.Some? { assert x.participantId == Some(y.participantId.value); }
  }

  /** The two updates keep that promise, and repeating them changes nothing. */
  method MigrateExecutionRows(conn: Connection)
    modifies conn
    ensures Backfilled(old(conn.tables), conn.tables)
    ensures conn.tables == Migrate(old(conn.tables)) && Migrate(conn.tables) == conn.tables
  {
    hide OnlyHolder, Backfilled, Migrate;
    ghost var before := conn.tables;
    conn.tables := conn.tables.(provenance := map k | k in conn.tables.provenance ::
      FilledProvenance(conn.tables, k, conn.tables.provenance[k]));
    conn.tables := conn.tables.(ingress := map d | d in conn.tables.ingress ::
      FilledIngress(conn.tables, conn.tables.ingress[d]));
    MigrateSteps(before);
    MigrateBackfills(before);
    MigrationIdempotent(before);
  }

  lemma MigrateSteps(db: Db)
    ensures Migrate(db) == FillParticipants(FillCapabilities(db))
  {
  }

  // ---- what the updates do, on any tables ---------------------------------------------------

  lemma OnlyHolderExact(db: Db, intent: string, p: string)
    ensures OnlyHolder(db, intent) == Some(p) <==> Holders(db, intent) == {p}
  {
  }

  /** A participant is the only holder exactly when it has a receipt for the intent and nobody else does. */
  lemma HoldersExact(db: Db, intent: string, p: string)
    ensures Holders(db, intent) == {p} <==> HoldsAlone(db, intent, p)
  {
    var holders := Holders(db, intent);
    if holders == {p} {
      assert p in holders;
      var k :| k in db.receipts && k.intent == intent && k.participant == p;
      assert k == ExecutionId(p, intent);
      forall k | k in db.receipts && k.intent == intent ensures k.participant == p { assert k.participant in holders; }
    }
    if HoldsAlone(db, intent, p) {
      forall q ensures q in holders <==> q in {p} {}
      assert holders == {p};
    }
  }

  /** Only the two columns change, and only where they were null. */
  lemma MigrationConservative(db: Db)
    ensures var after := Migrate(db);
            && after == db.(provenance := after.provenance, ingress := after.ingress)
            && after.provenance.Keys == db.provenance.Keys && after.ingress.Keys == db.ingress.Keys
            && (forall k | k in db.provenance ::
                  && after.provenance[k].(capability := None) == db.provenance[k].(capability := None)
                  && (db.provenance[k].capability.Some? ==> after.provenance[k] == db.provenance[k]))
            && (forall d | d in db.ingress ::
                  && after.ingress[d].(participantId := None) == db.ingress[d].(participantId := None)
                  && (db.ingress[d].participantId.Some? ==> after.ingress[d] == db.ingress[d]))
  {
    hide OnlyHolder;
  }

  /** A null participant becomes p exactly when p alone holds a receipt for the intent. */
  lemma BackfillParticipantExact(db: Db, d: string, p: string)
    requires d in db.ingress && db.ingress[d].participantId.None?
    ensures d in Migrate(db).ingress
            && (Migrate(db).ingress[d].participantId == Some(p) <==> HoldsAlone(db, db.ingress[d].intentId, p))
  {
    hide OnlyHolder, Holders;
    SameReceiptsSameHolder(db, FillCapabilities(db), db.ingress[d].intentId);
    OnlyHolderExact(db, db.ingress[d].intentId, p);
    HoldersExact(db, db.ingress[d].intentId, p);
  }

  /** A null capability becomes c exactly when the execution's own receipt says c. */
  lemma BackfillCapabilityExact(db: Db, k: ExecutionId, c: Capability)
    requires k in db.provenance && db.provenance[k].capability.None?
    ensures k in Migrate(db).provenance
            && (Migrate(db).provenance[k].capability == Some(c) <==> k in db.receipts && db.receipts[k].capability == c)
  {
    hide OnlyHolder;
  }

  /** The updates keep their promise on any tables. */
  lemma MigrateBackfills(db: Db)
    ensures Backfilled(db, Migrate(db))
  {
    hide Migrate, HoldsAlone;
    var after := Migrate(db);
    MigrationConservative(db);
    forall k | k in db.provenance ensures CapabilityFilled(db, k, db.provenance[k], after.provenance[k]) {
      if db.provenance[k].capability.None? {
        forall c ensures after.provenance[k].capability == Some(c)
            <==> k in db.receipts && db.receipts[k].capability == c {
          BackfillCapabilityExact(db, k, c);
        }
      }
    }
    forall d | d in db.ingress ensures ParticipantFilled(db, db.ingress[d], after.ingress[d]) {
      if db.ingress[d].participantId.None? {
        forall p ensures after.ingress[d].participantId == Some(p) <==> HoldsAlone(db, db.ingress[d].intentId, p) {
          BackfillParticipantExact(db, d, p);
        }
      }
    }
  }

  lemma SameReceiptsSameHolder(a: Db, b: Db, intent: string)
    requires a.receipts == b.receipts
    ensures OnlyHolder(a, intent) == OnlyHolder(b, intent)
  {
    assert Holders(a, intent) == Holders(b, intent);
  }

  /** Running the migration again changes nothing. */
  lemma MigrationIdempotent(db: Db)
    ensures Migrate(Migrate(db)) == Migrate(db)
  {
    hide OnlyHolder;
    var after := Migrate(db);
    var filled := FillCapabilities(after);
    assert filled.provenance == after.provenance;
    assert filled == after;
    forall intent ensures OnlyHolder(FillCapabilities(db), intent) == OnlyHolder(after, intent) {
      SameReceiptsSameHolder(FillCapabilities(db), after, intent);
    }
    forall d | d in after.ingress ensures FilledIngress(after, after.ingress[d]) == after.ingress[d] {
      assert after.ingress[d] == FilledIngress(FillCapabilities(db), db.ingress[d]);
    }
    assert FillParticipants(after).ingress == after.ingress;
  }

  // ---- the updates and the auditors ---------------------------------------------------------

  /** On any tables: an execution the verifier accepts before the migration is accepted after it. */
  lemma MigrationKeepsCoherent(h: Hash, db: Db, k: ExecutionId)
    requires Coherent(h, db, k)
    ensures Coherent(h, Migrate(db), k)
  {
    hide OnlyHolder, Blank, MetadataBlank, PrincipalBound;
    var after := Migrate(db);
    MigrationConservative(db);
    assert after.provenance[k] == db.provenance[k];
    forall d | d in after.ingress && after.ingress[d].intentId == k.intent ensures after.ingress[d] == db.ingress[d] {
      assert !Unbound(db.ingress[d]);
    }
    var d :| d in db.ingress && Delivers(db.ingress[d], k);
    assert Delivers(after.ingress[d], k);
  }

  /** In a reachable state there is nothing to fill: the migration that every start-up repeats is the
      identity. */
  lemma MigrationOfReachable(h: Hash, run: seq<Timed>, n: nat)
    requires GuardedRun(run) && n <= |run|
    ensures Migrate(StateAt(h, run, n)) == StateAt(h, run, n)
  {
    hide Invariant, StateAt, GuardedRun, Migrate;
    RunKeeps(h, run, n);
    MigrationOfInvariant(h, StateAt(h, run, n));
  }

  lemma MigrationOfInvariant(h: Hash, db: Db)
    requires Invariant(h, db)
    ensures Migrate(db) == db
  {
    hide Invariant, Coherent, IngressBound, OnlyHolder, MessagesNumbered, ReservationsBound, ReceiptsBound,
         ConsumptionBacked;
    ReservationsHold(h, db);
    forall k | k in db.provenance ensures db.provenance[k].capability.Some? { CoherentCapability(h, db, k); }
    forall d | d in db.ingress ensures db.ingress[d].participantId.Some? { BoundParticipant(db, d); }
    MigrationConservative(db);
    assert Migrate(db).provenance == db.provenance;
    assert Migrate(db).ingress == db.ingress;
  }

  lemma CoherentCapability(h: Hash, db: Db, k: ExecutionId)
    requires Coherent(h, db, k)
    ensures k in db.provenance && db.provenance[k].capability.Some?
  {
  }

  lemma BoundParticipant(db: Db, d: string)
    requires IngressBound(db) && d in db.ingress
    ensures db.ingress[d].participantId.Some?
  {
  }
}
