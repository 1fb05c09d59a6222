/** src/identity.rs and the owner columns of src/github_webhook.rs: participant lifecycle. */
module Lifecycle {
  import opened Text
  import opened Tables
  import opened Authorization

  datatype LifecycleResult = Changed | Unchanged | InvalidRequest

  datatype LifecycleRequest =
    | Provision(participantId: string, source: string)
    | SetStatus(participantId: string, status: ParticipantStatus)
    | SetRole(participantId: string, role: Role)
    | SetOwner(participantId: string, provider: string, subject: string)
    | ClearOwner(participantId: string)

  predicate IsOwner(provider: string, subject: string) {
    Trim(provider) == GITHUB_PROVIDER && !Blank(subject) && forall i | 0 <= i < |subject| :: '0' <= subject[i] <= '9'
  }

  function RequestValid(r: LifecycleRequest): bool {
    && ValidateParticipantId(r.participantId).Some?
    && (r.Provision? ==> IsName(Trim(r.source)))
    && (r.SetOwner? ==> IsOwner(r.provider, r.subject))
  }

  function UpdatedRow(row: Participant, r: LifecycleRequest): Participant {
    match r
    case SetStatus(_, status) => row.(status := status)
    case SetRole(_, role) => row.(role := role)
    case SetOwner(_, provider, subject) => row.(owner := Some(Principal(Trim(provider), Trim(subject))))
    case ClearOwner(_) => row.(owner := None)
    case Provision(_, _) => row
  }

  /** Provisioning inserts under the trimmed id; the updates match the id exactly as given. */
  function ChangeParticipant(db: Db, r: LifecycleRequest): (Db, LifecycleResult) {
    if !RequestValid(r) then (db, InvalidRequest)
    else if r.Provision? then
      var id := Trim(r.participantId);
      if id in db.participants then (db, Unchanged)
      else (db.(participants := db.participants[id := Participant(Trim(r.source), UserRole, ParticipantActive, None)]),
            Changed)
    else if r.participantId !in db.participants then (db, Unchanged)
    else
      (db.(participants := db.participants[r.participantId := UpdatedRow(db.participants[r.participantId], r)]),
       Changed)
  }

  method ChangeParticipantRow(conn: Connection, r: LifecycleRequest) returns (result: LifecycleResult)
    modifies conn
    ensures (conn.tables, result) == ChangeParticipant(old(conn.tables), r)
  {
    hide RequestValid, Trim;
    if !RequestValid(r) { return InvalidRequest; }
    var rows := conn.tables.participants;
    match r {
      case Provision(participantId, source) =>
        var id := Trim(participantId);
        if id in rows { return Unchanged; }
        conn.tables := conn.tables.(participants := rows[id := Participant(Trim(source), UserRole, ParticipantActive,
                                                                           None)]);
      case SetStatus(id, status) =>
        if id !in rows { return Unchanged; }
        conn.tables := conn.tables.(participants := rows[id := rows[id].(status := status)]);
      case SetRole(id, role) =>
        if id !in rows { return Unchanged; }
        conn.tables := conn.tables.(participants := rows[id := rows[id].(role := role)]);
      case SetOwner(id, provider, subject) =>
        if id !in rows { return Unchanged; }
        conn.tables := conn.tables.(participants :=
          rows[id := rows[id].(owner := Some(Principal(Trim(provider), Trim(subject))))]);
      case ClearOwner(id) =>
        if id !in rows { return Unchanged; }
        conn.tables := conn.tables.(participants := rows[id := rows[id].(owner := None)]);
    }
    result := Changed;
  }

  // ---- the rows written ---------------------------------------------------------------------

  /** A subject GitHub numbers its accounts with: digits alone, at least one. */
  predicate IsAccountNumber(subject: string) {
    |subject| > 0 && forall i | 0 <= i < |subject| :: '0' <= subject[i] <= '9'
  }

  predicate Refusable(r: LifecycleRequest) {
    || !IsParticipantId(Trim(r.participantId))
    || (r.Provision? && !IsName(Trim(r.source)))
    || (r.SetOwner? && !(Trim(r.provider) == "github" && IsAccountNumber(r.subject)))
  }

  lemma DigitsNotBlank(subject: string)
    requires IsAccountNumber(subject)
    ensures !Blank(subject) && Trim(subject) == subject
  {
    assert !IsSpace(subject[0]) && !IsSpace(subject[|subject| - 1]);
    TrimFixed(subject);
  }

  lemma RefusableExact(r: LifecycleRequest)
    ensures RequestValid(r) <==> !Refusable(r)
  {
    hide Trim, IsParticipantId, IsName, Blank, IsSpace;
    if r.SetOwner? {
      assert Blank("") by { BlankExact(""); }
      if IsAccountNumber(r.subject) { DigitsNotBlank(r.subject); }
    }
  }

  /** Every participant request, in row columns: refused when malformed; a new participant is provisioned as an
      active user without owner under its trimmed id and source, a known one is left alone; a setter stores its
      one column in the row of exactly the id given, and leaves an absent row absent. */
  lemma ChangeParticipantExact(db: Db, r: LifecycleRequest)
    ensures var (after, result) := ChangeParticipant(db, r);
            if Refusable(r) then result == InvalidRequest && after == db
            else if r.Provision? then
              if Trim(r.participantId) in db.participants then result == Unchanged && after == db
              else
                && result == Changed
                && after == db.(participants := db.participants[Trim(r.participantId) :=
                                  Participant(Trim(r.source), UserRole, ParticipantActive, None)])
            else if r.participantId !in db.participants then result == Unchanged && after == db
            else
              var row := db.participants[r.participantId];
              && result == Changed
              && after == db.(participants := db.participants[r.participantId := match r
                                case SetStatus(_, status) => Participant(row.source, row.role, status, row.owner)
                                case SetRole(_, role) => Participant(row.source, role, row.status, row.owner)
                                case SetOwner(_, provider, subject) =>
                                  Participant(row.source, row.role, row.status, Some(Principal("github", subject)))
                                case _ => Participant(row.source, row.role, row.status, None)])
  {
    hide Trim, IsParticipantId, IsName, IsSpace;
    RefusableExact(r);
    if r.SetOwner? && !Refusable(r) { DigitsNotBlank(r.subject); }
  }
}
