/** Authority nobody granted: who holds it, for what, and that privileged kinds do not leak into each
    other. */
module ImplicitAuthority {
  import opened Text
  import opened Tables
  import opened Authorization

  /** The six privileged resources are six different texts. */
  lemma ResourcesDiffer(c: Capability, d: Capability)
    requires AdminResource(c).Some? && AdminResource(c) == AdminResource(d)
    ensures c == d
  {
    assert |AUDIT_SWEEP_RESOURCE| == 21;
    assert |POLICY_INTEGRITY_RESOURCE| == 30;
    assert |POLICY_RESOURCE| == 20;
    assert |DECISION_RESOURCE| == 22;
    assert |POLICY_ADMIN_RESOURCE| == 35;
    assert |ADMIN_HISTORY_RESOURCE| == 36;
  }

  /** The participant speaks for itself, by its HMAC key or its web session. */
  predicate Speaks(who: Principal, participantId: string) {
    who.subject == participantId && (who.provider == HMAC_PROVIDER || who.provider == HUMAN_WEB_PROVIDER)
  }

  predicate WebAdmin(who: Principal, participantId: string, row: Participant) {
    who == Principal(HUMAN_WEB_PROVIDER, participantId) && row.role == AdminRole
  }

  predicate GithubOwner(who: Principal, row: Participant) {
    who.provider == GITHUB_PROVIDER && row.owner == Some(who)
  }

  lemma ProvidersDiffer()
    ensures GITHUB_PROVIDER != HMAC_PROVIDER && GITHUB_PROVIDER != HUMAN_WEB_PROVIDER
            && HMAC_PROVIDER != HUMAN_WEB_PROVIDER
  {
    assert |GITHUB_PROVIDER| == 6 && |HMAC_PROVIDER| == 16 && |HUMAN_WEB_PROVIDER| == 9;
  }

  /** Implicit authority in full: the conversational capabilities for the participant itself and its GitHub
      owner on any resource; each privileged capability for a web administrator on its own resource only;
      channel management for a web administrator; nothing else for anyone. */
  lemma ImplicitExact(who: Principal, participantId: string, c: Capability, resource: Option<string>, row: Participant)
    ensures ImplicitReason(who, participantId, c, resource, row).Some?
            <==> || (IsConversational(c) && (Speaks(who, participantId) || GithubOwner(who, row)))
                 || (AdminResource(c).Some? && resource == AdminResource(c) && WebAdmin(who, participantId, row))
                 || (c == ManageChannels && WebAdmin(who, participantId, row))
  {
    ProvidersDiffer();
  }

  /** Privileged authority is isolated: without durable grants, what allows one privileged capability on a
      resource allows no other one on it, and only a web administrator is allowed any. */
  lemma PrivilegedIsolated(db: Db, now: int, who: Principal, participantId: string, c: Capability, d: Capability,
                           resource: Option<string>)
    requires AdminResource(c).Some? && AdminResource(d).Some?
    requires !HoldsDurable(db, who, participantId, c) && !HoldsDurable(db, who, participantId, d)
    requires Decide(db, now, who, participantId, c, resource, None).allowed
    requires Decide(db, now, who, participantId, d, resource, None).allowed
    ensures c == d && participantId in db.participants && WebAdmin(who, participantId, db.participants[participantId])
  {
    hide Decide, ImplicitReason, HoldsDurable, HoldsDurableFor, AdminResource, WebAdmin, Speaks, GithubOwner;
    NotConversational(c);
    NotConversational(d);
    ImplicitOnly(db, now, who, participantId, c, resource);
    ImplicitOnly(db, now, who, participantId, d, resource);
    ImplicitExact(who, participantId, c, resource, db.participants[participantId]);
    ImplicitExact(who, participantId, d, resource, db.participants[participantId]);
    ResourcesDiffer(c, d);
  }

  lemma NotConversational(c: Capability)
    requires AdminResource(c).Some?
    ensures !IsConversational(c) && c != ManageChannels
  {
  }

  lemma ImplicitOnly(db: Db, now: int, who: Principal, participantId: string, c: Capability, resource: Option<string>)
    requires !HoldsDurable(db, who, participantId, c) && Decide(db, now, who, participantId, c, resource, None).allowed
    ensures participantId in db.participants
            && ImplicitReason(who, participantId, c, resource, db.participants[participantId]).Some?
  {
    hide Decide, ImplicitReason, IsExplicit;
    ReadAuthority(db, now, who, participantId, c, resource);
  }
}
