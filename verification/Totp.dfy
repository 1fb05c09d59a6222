/** src/identity.rs, `authenticate_web_totp`: the failure counter, the lock and the last accepted step
    of a web participant. Whether a code matches a time step is the library's answer, a parameter here. */
module Totp {
  import opened Text
  import opened Tables

  const MAX_FAILURES := 5
  const LOCK_SECS := 60
  const DIGITS := 6
  const I64_MAX := 0x7FFF_FFFF_FFFF_FFFF
  const U64_MAX := 0xFFFF_FFFF_FFFF_FFFF

  type Seconds = n: int | 0 <= n <= U64_MAX

  /** The step whose code this is, for this secret at this time. */
  type Matching = (string, string, Seconds) -> Option<Seconds>

  datatype TotpRow = TotpRow(
    status: ParticipantStatus, secret: Option<string>, lastStep: Option<int>, failCount: int, lockedUntil: Option<int>)

  datatype Verdict = Ignored | Accepted(step: int) | Wrong

  /** `i64::try_from(n).unwrap_or(i64::MAX)` */
  function ToI64(n: int): int {
    if n > I64_MAX then I64_MAX else n
  }

  function SaturatingAdd(n: int, m: int, max: int): int {
    if n + m > max then max else n + m
  }

  predicate WellFormedCode(code: string) {
    |code| == DIGITS && forall i | 0 <= i < |code| :: '0' <= code[i] <= '9'
  }

  // ---- one attempt on one row ---------------------------------------------------------------

  predicate Locked(row: TotpRow, now: Seconds) {
    row.lockedUntil.Some? && row.lockedUntil.value > ToI64(now)
  }

  function AfterFailure(row: TotpRow, now: Seconds): TotpRow {
    var count := SaturatingAdd(if row.lockedUntil.Some? then 0 else row.failCount, 1, I64_MAX);
    if count >= MAX_FAILURES
    then row.(failCount := 0, lockedUntil := Some(ToI64(SaturatingAdd(now, LOCK_SECS, U64_MAX))))
    else row.(failCount := count, lockedUntil := None)
  }

  function Attempted(matching: Matching, row: TotpRow, code: string, now: Seconds): (TotpRow, Verdict) {
    if !WellFormedCode(code) || row.status != ParticipantActive || row.secret.None?
        || Locked(row, now) then (row, Ignored)
    else
      var matched := matching(row.secret.value, code, now);
      if matched.None? then (AfterFailure(row, now), Wrong)
      else
        var step := ToI64(matched.value);
        if row.lastStep.Some? && step <= row.lastStep.value then (row, Ignored)
        else (row.(lastStep := Some(step), failCount := 0, lockedUntil := None), Accepted(step))
  }

  /** The totp columns of web_participants. */
  class TotpStore {
    const matching: Matching
    var rows: map<string, TotpRow>

    constructor (matching: Matching)
      ensures this.matching == matching && rows == map[]
    {
      this.matching := matching;
      rows := map[];
    }

    /** Only the attempted participant's row can change, and only as one attempt on it says. */
    method Authenticate(participantId: string, code: string, now: Seconds) returns (accepted: bool)
      modifies this
      ensures var known := ValidateParticipantId(participantId).Some? && participantId in old(rows);
              if known
              then var (row, verdict) := Attempted(matching, old(rows)[participantId], code, now);
                   rows == old(rows)[participantId := row] && (accepted <==> verdict.Accepted?)
              else rows == old(rows) && !accepted
    {
      hide ValidateParticipantId, WellFormedCode, AfterFailure;
      if ValidateParticipantId(participantId).None? || !WellFormedCode(code) {
        assert participantId in rows ==> rows == rows[participantId := rows[participantId]];
        return false;
      }
      if participantId !in rows { return false; }
      accepted := AuthenticateRow(participantId, code, now);
    }

    method AuthenticateRow(participantId: string, code: string, now: Seconds) returns (accepted: bool)
      requires participantId in rows && WellFormedCode(code)
      modifies this
      ensures var (row, verdict) := Attempted(matching, old(rows)[participantId], code, now);
              rows == old(rows)[participantId := row] && (accepted <==> verdict.Accepted?)
    {
      hide WellFormedCode, AfterFailure;
      var row := rows[participantId];
      assert rows == rows[participantId := row];
      if row.status != ParticipantActive || row.secret.None? { return false; }
      if row.lockedUntil.Some? && row.lockedUntil.value > ToI64(now) { return false; }
      var matched := matching(row.secret.value, code, now);
      if matched.Some? {
        var step := ToI64(matched.value);
        if row.lastStep.Some? && step <= row.lastStep.value { return false; }
        rows := rows[participantId := row.(lastStep := Some(step), failCount := 0, lockedUntil := None)];
        return true;
      }
      RecordFailure(participantId, now);
      return false;
    }

    method RecordFailure(participantId: string, now: Seconds)
      requires participantId in rows
      modifies this
      ensures rows == old(rows)[participantId := AfterFailure(old(rows)[participantId], now)]
    {
      var row := rows[participantId];
      var effective := if row.lockedUntil.Some? then 0 else row.failCount;
      var count := SaturatingAdd(effective, 1, I64_MAX);
      if count >= MAX_FAILURES {
        var lockedUntil := SaturatingAdd(now, LOCK_SECS, U64_MAX);
        rows := rows[participantId := row.(failCount := 0, lockedUntil := Some(ToI64(lockedUntil)))];
      } else {
        rows := rows[participantId := row.(failCount := count, lockedUntil := None)];
      }
    }
  }

  // ---- runs of attempts ---------------------------------------------------------------------

  datatype CodeAttempt = CodeAttempt(code: string, now: Seconds)

  /** The row after the attempts, in order. */
  function Row(matching: Matching, row: TotpRow, run: seq<CodeAttempt>): TotpRow {
    if run == [] then row
    else
      var last := run[|run| - 1];
      Attempted(matching, Row(matching, row, run[..|run| - 1]), last.code, last.now).0
  }

  /** The verdict on attempt i. */
  function VerdictAt(matching: Matching, row: TotpRow, run: seq<CodeAttempt>, i: nat): Verdict
    requires i < |run|
  {
    Attempted(matching, Row(matching, row, run[..i]), run[i].code, run[i].now).1
  }

  /** The times of the evaluated wrong codes. */
  function WrongTimes(matching: Matching, row: TotpRow, run: seq<CodeAttempt>): seq<int> {
    if run == [] then []
    else
      var n := |run| - 1;
      WrongTimes(matching, row, run[..n]) + (if VerdictAt(matching, row, run, n).Wrong? then [run[n].now] else [])
  }

  predicate ClockAdvances(run: seq<CodeAttempt>) {
    forall i, j | 0 <= i < j < |run| :: run[i].now <= run[j].now
  }

  predicate NoSuccess(matching: Matching, row: TotpRow, run: seq<CodeAttempt>) {
    forall i | 0 <= i < |run| :: !VerdictAt(matching, row, run, i).Accepted?
  }

  /** What enrolment establishes and every attempt keeps. */
  predicate Sound(row: TotpRow) {
    0 <= row.failCount < MAX_FAILURES && (row.lockedUntil.Some? ==> row.failCount == 0)
  }

  /** The counter stays below the limit over any run of attempts, whatever the clock does. */
  lemma {:induction false} CounterBounded(matching: Matching, row: TotpRow, run: seq<CodeAttempt>)
    requires Sound(row)
    ensures Sound(Row(matching, row, run))
  {
    if run != [] { CounterBounded(matching, row, run[..|run| - 1]); }
  }

  // ---- accepted steps -----------------------------------------------------------------------

  lemma {:induction false} LastStepKept(matching: Matching, row: TotpRow, run: seq<CodeAttempt>, step: int)
    requires row.lastStep.Some? && row.lastStep.value >= step
    ensures var after := Row(matching, row, run); after.lastStep.Some? && after.lastStep.value >= step
  {
    if run != [] { LastStepKept(matching, row, run[..|run| - 1], step); }
  }

  lemma {:induction false} RowAppend(matching: Matching, row: TotpRow, a: seq<CodeAttempt>, b: seq<CodeAttempt>)
    ensures Row(matching, row, a + b) == Row(matching, Row(matching, row, a), b)
  {
    if b == [] {
      assert a + b == a;
    } else {
      RowAppend(matching, row, a, b[..|b| - 1]);
      assert (a + b)[..|a + b| - 1] == a + b[..|b| - 1];
    }
  }

  /** Accepted steps strictly increase over any run, so no code is accepted twice for its step, as
      section 5.2 of RFC 6238 requires: wrong codes and locks in between and a clock running backwards
      included. */
  lemma AcceptedStepsIncrease(matching: Matching, row: TotpRow, run: seq<CodeAttempt>, i: nat, j: nat)
    requires i < j < |run|
    requires VerdictAt(matching, row, run, i).Accepted? && VerdictAt(matching, row, run, j).Accepted?
    ensures VerdictAt(matching, row, run, i).step < VerdictAt(matching, row, run, j).step
  {
    var step := VerdictAt(matching, row, run, i).step;
    assert run[..i + 1][..i] == run[..i];
    assert run[..j] == run[..i + 1] + run[i + 1..j];
    RowAppend(matching, row, run[..i + 1], run[i + 1..j]);
    LastStepKept(matching, Row(matching, row, run[..i + 1]), run[i + 1..j], step);
  }

  // ---- the lockout bound --------------------------------------------------------------------

  /** What the row says after the attempts, given the times of the wrong ones: the counter is their
      number modulo the limit, and it is zero exactly when the last of them locked the row. */
  ghost predicate CountsWrong(row0: TotpRow, row: TotpRow, times: seq<int>) {
    if times == [] then row.failCount == row0.failCount && row.lockedUntil == row0.lockedUntil
    else
      && row.failCount == (row0.failCount + |times|) % MAX_FAILURES
      && row.lockedUntil == (if row.failCount
                             == 0 then Some(ToI64(SaturatingAdd(times[|times| - 1], LOCK_SECS, U64_MAX))) else None)
  }

  predicate Bound(row0: TotpRow, times: seq<int>) {
    times != [] ==> ((|times| - 1 + row0.failCount) / MAX_FAILURES) * LOCK_SECS <= times[|times| - 1] - times[0]
  }

  /** One more wrong code keeps the bound: after a multiple of the limit it had to wait for the lock. */
  lemma WrongKeepsBound(row0: TotpRow, row: TotpRow, times: seq<int>, now: Seconds)
    requires Sound(row0) && Sound(row) && CountsWrong(row0, row, times) && Bound(row0, times) && !Locked(row, now)
             && now < I64_MAX
    requires times != [] ==> 0 <= times[|times| - 1] <= now
    ensures CountsWrong(row0, AfterFailure(row, now), times + [now]) && Bound(row0, times + [now])
  {
    var total := row0.failCount + |times|;
    if times != [] {
      NextQuotient(total);
    }
  }

  lemma NextQuotient(total: nat)
    requires total > 0
    ensures total / MAX_FAILURES == (total - 1) / MAX_FAILURES + (if total % MAX_FAILURES == 0 then 1 else 0)
    ensures (total + 1) % MAX_FAILURES == (if total % MAX_FAILURES == MAX_FAILURES
                                           - 1 then 0 else total % MAX_FAILURES + 1)
  {
  }

  /** What happened in a prefix of a run is what happened in the run. */
  lemma PrefixVerdicts(matching: Matching, row: TotpRow, run: seq<CodeAttempt>)
    requires run != []
    ensures var front := run[..|run| - 1];
            && (forall i | 0 <= i < |front| :: VerdictAt(matching, row, front, i) == VerdictAt(matching, row, run, i))
            && (NoSuccess(matching, row, run) ==> NoSuccess(matching, row, front))
            && (ClockAdvances(run) ==> ClockAdvances(front))
  {
    hide Attempted, Row;
    var front := run[..|run| - 1];
    assert forall i | 0 <= i < |front| :: front[..i] == run[..i];
  }

  lemma {:induction false} WrongCodesCounted(matching: Matching, row: TotpRow, run: seq<CodeAttempt>)
    requires Sound(row) && ClockAdvances(run) && NoSuccess(matching, row, run)
    requires forall i | 0 <= i < |run| :: run[i].now < I64_MAX
    ensures var times := WrongTimes(matching, row, run);
            && CountsWrong(row, Row(matching, row, run), times) && Bound(row, times)
            && (times != [] ==> run != [] && 0 <= times[|times| - 1] <= run[|run| - 1].now)
  {
    hide Attempted, CountsWrong, Bound, Sound;
    WrongCodesNone(row);
    if run != [] {
      var n := |run| - 1;
      var front := run[..n];
      PrefixVerdicts(matching, row, run);
      assert !VerdictAt(matching, row, run, n).Accepted?;
      WrongCodesCounted(matching, row, front);
      CounterBounded(matching, row, front);
      CountOneMore(row, Row(matching, row, front), WrongTimes(matching, row, front), matching, run[n].code, run[n].now);
    }
  }

  lemma WrongCodesNone(row: TotpRow)
    ensures CountsWrong(row, row, []) && Bound(row, [])
  {
  }

  /** One more attempt, of any verdict but success. */
  lemma CountOneMore(row0: TotpRow, row: TotpRow, times: seq<int>, matching: Matching, code: string, now: Seconds)
    requires Sound(row0) && Sound(row) && CountsWrong(row0, row, times) && Bound(row0, times) && now < I64_MAX
    requires times != [] ==> 0 <= times[|times| - 1] <= now
    requires !Attempted(matching, row, code, now).1.Accepted?
    ensures var (after, verdict) := Attempted(matching, row, code, now);
            var more := times + (if verdict.Wrong? then [now] else []);
            CountsWrong(row0, after, more) && Bound(row0, more)
  {
    hide CountsWrong, Bound, AfterFailure, WellFormedCode;
    if Attempted(matching, row, code, now).1.Wrong? {
      WrongKeepsBound(row0, row, times, now);
    } else {
      assert times + [] == times;
    }
  }

  /** The lockout bound: with a clock that does not run backwards, one secret and no success, N evaluated
      wrong codes take at least one lock period for every full group of five but the last. */
  predicate LockoutHolds(matching: Matching, row: TotpRow, run: seq<CodeAttempt>) {
    var times := WrongTimes(matching, row, run);
    times != [] ==> ((|times| - 1) / MAX_FAILURES) * LOCK_SECS <= times[|times| - 1] - times[0]
  }

  lemma LockoutBound(matching: Matching, row: TotpRow, run: seq<CodeAttempt>)
    requires Sound(row) && ClockAdvances(run) && NoSuccess(matching, row, run)
    requires forall i | 0 <= i < |run| :: run[i].now < I64_MAX
    ensures LockoutHolds(matching, row, run)
  {
    WrongCodesCounted(matching, row, run);
    var times := WrongTimes(matching, row, run);
    if times != [] {
      assert (|times| - 1) / MAX_FAILURES <= (|times| - 1 + row.failCount) / MAX_FAILURES;
    }
  }

  /** An enrolled row whose lock, if any, can no longer lie in the future. */
  predicate Unlockable(matching: Matching, row: TotpRow, code: string, now: Seconds) {
    && row.status == ParticipantActive && row.secret.Some? && WellFormedCode(code)
    && (row.lockedUntil.Some? ==> row.lockedUntil.value <= I64_MAX)
    && matching(row.secret.value, code, now) == None
  }

  /** Where the bound ends: once the clock reads 2^63 - 1 or more, a lock cannot lie in the future any
      longer, and a wrong code is evaluated every time. */
  lemma WrongAtTheEnd(matching: Matching, row: TotpRow, code: string, now: Seconds)
    requires Unlockable(matching, row, code, now) && now >= I64_MAX
    ensures Attempted(matching, row, code, now).1.Wrong?
            && Unlockable(matching, Attempted(matching, row, code, now).0, code, now)
  {
    hide WellFormedCode;
  }

  lemma {:induction false} UnlockableAtTheEnd(matching: Matching, row: TotpRow, code: string, now: Seconds, n: nat)
    requires Unlockable(matching, row, code, now) && now >= I64_MAX
    ensures Unlockable(matching, Row(matching, row, Repeated(code, now, n)), code, now)
  {
    hide Unlockable, Attempted;
    if n > 0 {
      UnlockableAtTheEnd(matching, row, code, now, n - 1);
      assert Repeated(code, now, n)[..n - 1] == Repeated(code, now, n - 1);
      WrongAtTheEnd(matching, Row(matching, row, Repeated(code, now, n - 1)), code, now);
    }
  }

  lemma AllWrongAtTheEnd(matching: Matching, row: TotpRow, code: string, now: Seconds, n: nat, i: nat)
    requires Unlockable(matching, row, code, now) && now >= I64_MAX && i < n
    ensures VerdictAt(matching, row, Repeated(code, now, n), i).Wrong?
  {
    hide Unlockable, Attempted, Row;
    assert Repeated(code, now, n)[..i] == Repeated(code, now, i);
    UnlockableAtTheEnd(matching, row, code, now, i);
    WrongAtTheEnd(matching, Row(matching, row, Repeated(code, now, i)), code, now);
  }

  lemma {:induction false} TimesAtTheEnd(matching: Matching, row: TotpRow, code: string, now: Seconds, n: nat)
    requires Unlockable(matching, row, code, now) && now >= I64_MAX
    ensures WrongTimes(matching, row, Repeated(code, now, n)) == seq(n, i => now)
  {
    hide Unlockable, VerdictAt, Row;
    if n > 0 {
      TimesAtTheEnd(matching, row, code, now, n - 1);
      assert Repeated(code, now, n)[..n - 1] == Repeated(code, now, n - 1);
      AllWrongAtTheEnd(matching, row, code, now, n, n - 1);
    }
  }

  function Repeated(code: string, now: Seconds, n: nat): seq<CodeAttempt> {
    seq(n, i => CodeAttempt(code, now))
  }

  /** The bound holds for every run that ends by time t exactly when t is below 2^63 - 1. */
  ghost predicate LockoutHoldsUntil(matching: Matching, row: TotpRow, t: Seconds) {
    forall run: seq<CodeAttempt> |
      && ClockAdvances(run) && NoSuccess(matching, row, run) && (forall i | 0 <= i < |run| :: run[i].now <= t)
      :: LockoutHolds(matching, row, run)
  }

  lemma LockoutHoldsExactly(matching: Matching, row: TotpRow, code: string, t: Seconds)
    requires Sound(row) && Unlockable(matching, row, code, t)
    ensures LockoutHoldsUntil(matching, row, t) <==> t < I64_MAX
  {
    if t < I64_MAX {
      forall run: seq<CodeAttempt> | ClockAdvances(run) && NoSuccess(matching, row, run)
          && forall i | 0 <= i < |run| :: run[i].now <= t
        ensures LockoutHolds(matching, row, run)
      {
        LockoutBound(matching, row, run);
      }
    } else {
      hide VerdictAt, WrongTimes, Unlockable;
      var n := MAX_FAILURES + 1;
      var run := Repeated(code, t, n);
      TimesAtTheEnd(matching, row, code, t, n);
      forall i | 0 <= i < n ensures VerdictAt(matching, row, run, i).Wrong? {
        AllWrongAtTheEnd(matching, row, code, t, n, i);
      }
      assert !LockoutHolds(matching, row, run);
    }
  }

  // ---- success ------------------------------------------------------------------------------

  /** The time as the row stores it. */
  function Stored(n: int): int {
    if n > 0x7FFF_FFFF_FFFF_FFFF then 0x7FFF_FFFF_FFFF_FFFF else n
  }

  /** The attempt is evaluated at all: six digits, an active enrolled participant, no lock that lies ahead. */
  predicate Evaluated(row: TotpRow, code: string, now: Seconds) {
    && |code| == 6 && (forall i | 0 <= i < |code| :: '0' <= code[i] <= '9')
    && row.status == ParticipantActive && row.secret.Some?
    && (row.lockedUntil.Some? ==> row.lockedUntil.value <= Stored(now))
  }

  /** One attempt, column by column. A code of a step later than the last accepted one is accepted, its step is
      stored and the counter and the lock are cleared; a code of no step counts, from zero after a lock, and
      the fifth locks for a minute; anything else changes nothing. */
  lemma AttemptExact(matching: Matching, row: TotpRow, code: string, now: Seconds)
    ensures var (after, verdict) := Attempted(matching, row, code, now);
            var matched := if row.secret.Some? then matching(row.secret.value, code, now) else None;
            if !Evaluated(row, code, now) then verdict == Ignored && after == row
            else if matched.Some? then
              var step := Stored(matched.value);
              if row.lastStep.Some? && step <= row.lastStep.value then verdict == Ignored && after == row
              else verdict == Accepted(step) && after == TotpRow(row.status, row.secret, Some(step), 0, None)
            else
              var count := if row.lockedUntil.Some? then 1 else Stored(row.failCount + 1);
              && verdict == Wrong
              && after == if count >= 5
                          then TotpRow(row.status, row.secret, row.lastStep, 0,
                                       Some(Stored(if now + 60 > U64_MAX then U64_MAX else now + 60)))
                          else TotpRow(row.status, row.secret, row.lastStep, count, None)
  {
  }

  /** After a success no run of fewer than five wrong codes locks the row: a fresh code is then accepted,
      whatever the clock and whatever was counted before the success. */
  lemma SuccessStartsOver(matching: Matching, row: TotpRow, run: seq<CodeAttempt>, code: string, now: Seconds)
    requires 1 <= |run| <= 5 && VerdictAt(matching, row, run, 0).Accepted?
    requires forall i | 0 < i < |run| :: VerdictAt(matching, row, run, i).Wrong?
    requires Evaluated(row.(lockedUntil := None), code, now)
    requires var matched := matching(row.secret.value, code, now);
             matched.Some? && Stored(matched.value) > VerdictAt(matching, row, run, 0).step
    ensures Attempted(matching, Row(matching, row, run), code, now).1.Accepted?
  {
    StartedOver(matching, row, run);
    AttemptExact(matching, Row(matching, row, run), code, now);
  }

  lemma {:induction false} StartedOver(matching: Matching, row: TotpRow, run: seq<CodeAttempt>)
    requires 1 <= |run| <= 5 && VerdictAt(matching, row, run, 0).Accepted?
    requires forall i | 0 < i < |run| :: VerdictAt(matching, row, run, i).Wrong?
    ensures Row(matching, row, run) == TotpRow(row.status, row.secret, Some(VerdictAt(matching, row, run, 0).step),
                                               |run| - 1, None)
  {
    var front, last := run[..|run| - 1], run[|run| - 1];
    if front == [] {
      assert run[..0] == [];
      AttemptExact(matching, row, last.code, last.now);
    } else {
      PrefixVerdicts(matching, row, run);
      StartedOver(matching, row, front);
      assert VerdictAt(matching, row, run, |run| - 1).Wrong?;
      AttemptExact(matching, Row(matching, row, front), last.code, last.now);
    }
  }
}
